/** Optional values, for the places where the source answers `undefined` or NaN. */
module Wrappers {
  datatype Option<+T> = None | Some(value: T)
}
