/**
 * Message decoding (`onMsg` and `parseCmd`, connection.js lines 200-257):
 * the reference meaning of a message, field by field, in terms of its
 * comma-separated segments after the code and the comma.
 */
module Messages {
  import opened Wrappers
  import opened Sequences
  import opened Protocol

  /**
   * Numeric conversion: `parseInt(text, 10)` for an `I` field and
   * `parseFloat(text)` for an `F` field, `None` where JavaScript gives NaN.
   */
  type Parser = (Tag, string) -> Option<Number>

  /** The faults reported, in order, and the values, or `None` where parsing threw. */
  datatype Parsed = Parsed(faults: seq<Fault>, values: Option<seq<Value>>)

  /**
   * The segment the `k`-th field is read from. Once the last segment is
   * taken `strStart` stops advancing, so every later field reads it again.
   */
  function Piece(segs: seq<string>, k: nat): (j: nat)
    requires |segs| >= 1
    ensures j < |segs|
  {
    if k < |segs| then k else |segs| - 1
  }

  /** The faults and values from `rest`, behind those already taken. */
  function Combine(faults: seq<Fault>, values: seq<Value>, rest: Parsed): Parsed {
    Parsed(faults + rest.faults, if rest.values.Some? then Some(values + rest.values.value) else None)
  }

  /** Nothing taken yet: the result is the rest. */
  lemma CombineNone(rest: Parsed)
    ensures Combine([], [], rest) == rest
  {
    assert [] + rest.faults == rest.faults;
    if rest.values.Some? {
      assert [] + rest.values.value == rest.values.value;
    }
  }

  /** Taking one more value moves it from the rest to the values taken. */
  lemma CombineStep(faults: seq<Fault>, values: seq<Value>, late: seq<Fault>, x: Value, rest: Parsed)
    ensures Combine(faults, values, Combine(late, [x], rest)) == Combine(faults + late, values + [x], rest)
  {
    assert faults + (late + rest.faults) == faults + late + rest.faults;
    if rest.values.Some? {
      assert values + ([x] + rest.values.value) == values + [x] + rest.values.value;
    }
  }

  /**
   * Reference meaning of `parseCmd` from field `k` on: an `S` field is the
   * remaining segments rejoined, commas included, and ends the list; a
   * numeric field is its segment parsed, after an "after last comma" fault
   * when the segments have run out; a field that parses to NaN is reported
   * and ends everything with a throw.
   */
  function ParseFields(parse: Parser, segs: seq<string>, tags: seq<Tag>, k: nat): (r: Parsed)
    requires |segs| >= 1 && k <= |tags|
    ensures r.values.None? ==> r.faults != [] && r.faults[|r.faults| - 1] == NotANumber
    decreases |tags| - k
  {
    if k == |tags| then Parsed([], Some([]))
    else
      var j := Piece(segs, k);
      if tags[k] == S then Parsed([], Some([Str(Join(segs[j..], ARGSEP))]))
      else
        var late := if k >= |segs| then [AfterLastComma] else [];
        match parse(tags[k], segs[j])
        case None => Parsed(late + [NotANumber], None)
        case Some(x) => Combine(late, [Num(x)], ParseFields(parse, segs, tags, k + 1))
  }

  /** `ParseFields` unfolded at a numeric field, for `WalkField`. */
  lemma ParseFieldsNumeric(parse: Parser, segs: seq<string>, tags: seq<Tag>, k: nat)
    requires |segs| >= 1 && k < |tags| && tags[k] != S
    ensures var late := if k >= |segs| then [AfterLastComma] else [];
      var x := parse(tags[k], segs[Piece(segs, k)]);
      && (x.None? ==> ParseFields(parse, segs, tags, k) == Parsed(late + [NotANumber], None))
      && (x.Some? ==> ParseFields(parse, segs, tags, k) == Combine(late, [Num(x.value)], ParseFields(parse, segs, tags, k + 1)))
  {
  }

  /**
   * One numeric field of `parseCmd`: what `indexOf` finds from `start` ends
   * the field's segment, tells whether it was the last one, and gives where
   * the next field's segments begin.
   */
  lemma SegmentStep(str: string, start: nat, segs: seq<string>, k: nat)
    requires start <= |str| && |segs| >= 1
    requires Split(str[start..], ARGSEP) == segs[Piece(segs, k)..]
    ensures var e := IndexOf(str, ARGSEP, start);
      var next := if e == -1 then start else e + 1;
      && (e == -1 <==> k + 1 >= |segs|)
      && segs[Piece(segs, k)] == (if e == -1 then str[start..] else str[start..e])
      && start <= next <= |str|
      && Split(str[next..], ARGSEP) == segs[Piece(segs, k + 1)..]
  {
    SplitAtIndexOf(str, ARGSEP, start);
    var e := IndexOf(str, ARGSEP, start);
    var j := Piece(segs, k);
    if e == -1 {
      assert segs[j..] == [str[start..]];
      assert j == |segs| - 1;
    } else {
      var rest := Split(str[e + 1..], ARGSEP);
      assert segs[j..] == [str[start..e]] + rest;
      assert segs[j] == str[start..e];
      assert j + 1 < |segs|;
      assert Piece(segs, k + 1) == j + 1;
      assert segs[j + 1..] == segs[j..][1..];
    }
  }

  /**
   * The state of the loop of `parseCmd` before field `k`, against the
   * reference over the segments `segs` of the message after the code and
   * the comma: from `start` on, the message splits into the segments not
   * yet taken; `end` (0 for the initial `undefined`) is -1 exactly when the
   * last segment was taken; and what was taken, followed by what
   * `ParseFields` gives from field `k` on, is the whole result `goal`.
   */
  ghost predicate Walking(parse: Parser, str: string, segs: seq<string>, tags: seq<Tag>, goal: Parsed, k: nat, start: nat, end: int,
                          faults: seq<Fault>, values: seq<Value>)
  {
    && |segs| >= 1 && k <= |tags| && start <= |str|
    && Split(str[start..], ARGSEP) == segs[Piece(segs, k)..]
    && (k == 0 ==> end == 0)
    && (k > 0 ==> (end == -1 <==> k >= |segs|))
    && goal == Combine(faults, values, ParseFields(parse, segs, tags, k))
  }

  /** The loop starts at field 0, at the character after the code and the comma, with nothing taken. */
  lemma WalkStart(parse: Parser, str: string, tags: seq<Tag>)
    requires |str| >= 2
    ensures Walking(parse, str, Split(str[2..], ARGSEP), tags, ParseFields(parse, Split(str[2..], ARGSEP), tags, 0), 0, 2, 0, [], [])
  {
    CombineNone(ParseFields(parse, Split(str[2..], ARGSEP), tags, 0));
  }

  /** An `S` field takes the rest of the message verbatim and ends the result. */
  lemma WalkRest(parse: Parser, str: string, segs: seq<string>, tags: seq<Tag>, goal: Parsed, k: nat, start: nat, end: int,
                 faults: seq<Fault>, values: seq<Value>)
    requires Walking(parse, str, segs, tags, goal, k, start, end, faults, values)
    requires k < |tags| && tags[k] == S
    ensures goal == Parsed(faults, Some(values + [Str(str[start..])]))
  {
    JoinSplit(str[start..], ARGSEP);
    assert faults + [] == faults;
  }

  /** After the last field the values taken are the result. */
  lemma WalkDone(parse: Parser, str: string, segs: seq<string>, tags: seq<Tag>, goal: Parsed, k: nat, start: nat, end: int,
                 faults: seq<Fault>, values: seq<Value>)
    requires Walking(parse, str, segs, tags, goal, k, start, end, faults, values)
    requires k == |tags|
    ensures goal == Parsed(faults, Some(values))
  {
    assert faults + [] == faults && values + [] == values;
  }

  /**
   * The faults one numeric field reports: "after last comma" when the
   * segments had run out before it, then NaN when its conversion failed.
   */
  function FieldFaults(late: bool, x: Option<Number>): (fs: seq<Fault>)
    ensures |fs| <= 2 && (AfterLastComma in fs <==> late) && (NotANumber in fs <==> x.None?)
    ensures x.None? ==> fs[|fs| - 1] == NotANumber
  {
    (if late then [AfterLastComma] else []) + (if x.None? then [NotANumber] else [])
  }

  /**
   * A numeric field: what `indexOf` finds from `start` ends its segment,
   * which is converted; the field's faults are reported; NaN ends the
   * result, a number moves the loop on.
   */
  lemma WalkField(parse: Parser, str: string, segs: seq<string>, tags: seq<Tag>, goal: Parsed, k: nat, start: nat, end: int,
                  faults: seq<Fault>, values: seq<Value>, next: nat, e: int, x: Option<Number>)
    requires Walking(parse, str, segs, tags, goal, k, start, end, faults, values)
    requires k < |tags| && tags[k] != S
    requires e == IndexOf(str, ARGSEP, start) && next == (if e == -1 then start else e + 1)
    requires x == parse(tags[k], if e == -1 then str[start..] else str[start..e])
    ensures x.None? ==> goal == Parsed(faults + FieldFaults(end == -1, x), None)
    ensures x.Some? ==> Walking(parse, str, segs, tags, goal, k + 1, next, e, faults + FieldFaults(end == -1, x), values + [Num(x.value)])
  {
    SegmentStep(str, start, segs, k);
    ParseFieldsNumeric(parse, segs, tags, k);
    var late: seq<Fault> := if k >= |segs| then [AfterLastComma] else [];
    assert (end == -1) == (k >= |segs|);
    assert x == parse(tags[k], segs[Piece(segs, k)]);
    if x.None? {
      assert FieldFaults(end == -1, x) == late + [NotANumber];
      assert goal == Combine(faults, values, Parsed(late + [NotANumber], None));
      Associative(faults, late, [NotANumber]);
    } else {
      assert FieldFaults(end == -1, x) == late;
      CombineStep(faults, values, late, Num(x.value), ParseFields(parse, segs, tags, k + 1));
    }
  }

  /** Some field in the list is numeric and its segment parses to NaN. */
  predicate HasNaN(parse: Parser, segs: seq<string>, tags: seq<Tag>)
    requires |segs| >= 1
  {
    exists t :: 0 <= t < |tags| && FieldValue(parse, segs, tags, t).None?
  }

  /** The value field `t` should carry, on its own. */
  function FieldValue(parse: Parser, segs: seq<string>, tags: seq<Tag>, t: nat): Option<Value>
    requires |segs| >= 1 && t < |tags|
  {
    var j := Piece(segs, t);
    if tags[t] == S then Some(Str(Join(segs[j..], ARGSEP)))
    else match parse(tags[t], segs[j])
      case None => None
      case Some(x) => Some(Num(x))
  }

  /** Fields that are not `S`; with `S` only last, all but a final `S`. */
  function NumericCount(tags: seq<Tag>): nat {
    if |tags| > 0 && tags[|tags| - 1] == S then |tags| - 1 else |tags|
  }

  /** How many numeric fields from `k` on find the segments exhausted. */
  function LateCount(segs: seq<string>, tags: seq<Tag>, k: nat): nat {
    var from := if k < |segs| then |segs| else k;
    if NumericCount(tags) > from then NumericCount(tags) - from else 0
  }

  /**
   * Success case of `parseCmd`: for a type list with `S` only last, parsing
   * succeeds exactly when every numeric field parses, and then yields one
   * value per type, each the value its own segment gives (the `S` value
   * being the whole remainder).
   */
  lemma {:induction false} ParseFieldsValues(parse: Parser, segs: seq<string>, tags: seq<Tag>, k: nat)
    requires |segs| >= 1 && k <= |tags| && RestLast(tags)
    ensures var r := ParseFields(parse, segs, tags, k);
      (r.values.Some? <==> forall t :: k <= t < |tags| ==> FieldValue(parse, segs, tags, t).Some?) &&
      (r.values.Some? ==>
        |r.values.value| == |tags| - k &&
        forall t :: k <= t < |tags| ==> FieldValue(parse, segs, tags, t) == Some(r.values.value[t - k]))
    decreases |tags| - k
  {
    if k < |tags| && tags[k] != S {
      ParseFieldsValues(parse, segs, tags, k + 1);
      var r := ParseFields(parse, segs, tags, k);
      var rest := ParseFields(parse, segs, tags, k + 1);
      if r.values.Some? {
        var x := parse(tags[k], segs[Piece(segs, k)]).value;
        assert r.values.value == [Num(x)] + rest.values.value;
        forall t | k <= t < |tags|
          ensures FieldValue(parse, segs, tags, t) == Some(r.values.value[t - k])
        {
          if t > k {
            assert r.values.value[t - k] == rest.values.value[t - (k + 1)];
          }
        }
      } else if parse(tags[k], segs[Piece(segs, k)]).Some? {
        assert rest.values.None?;
        var t :| k + 1 <= t < |tags| && FieldValue(parse, segs, tags, t).None?;
        assert !(forall t' :: k <= t' < |tags| ==> FieldValue(parse, segs, tags, t').Some?);
      } else {
        assert FieldValue(parse, segs, tags, k).None?;
      }
    }
  }

  /**
   * Fault cases of `parseCmd`: a successful parse reports one "after last
   * comma" fault per numeric field beyond the segments and nothing else;
   * a failed one reports such faults and ends with a NaN fault.
   */
  lemma {:induction false} ParseFieldsFaults(parse: Parser, segs: seq<string>, tags: seq<Tag>, k: nat)
    requires |segs| >= 1 && k <= |tags| && RestLast(tags)
    ensures var r := ParseFields(parse, segs, tags, k);
      (r.values.Some? ==>
        |r.faults| == LateCount(segs, tags, k) && forall t :: 0 <= t < |r.faults| ==> r.faults[t] == AfterLastComma) &&
      (r.values.None? ==>
        |r.faults| >= 1 && r.faults[|r.faults| - 1] == NotANumber &&
        forall t :: 0 <= t < |r.faults| - 1 ==> r.faults[t] == AfterLastComma)
    decreases |tags| - k
  {
    if k < |tags| && tags[k] != S {
      assert k < NumericCount(tags);
      var r := ParseFields(parse, segs, tags, k);
      if parse(tags[k], segs[Piece(segs, k)]).Some? {
        ParseFieldsFaults(parse, segs, tags, k + 1);
        var late: seq<Fault> := if k >= |segs| then [AfterLastComma] else [];
        var rest := ParseFields(parse, segs, tags, k + 1);
        assert r.faults == late + rest.faults;
        if rest.values.Some? {
          assert LateCount(segs, tags, k) == |late| + LateCount(segs, tags, k + 1);
        }
      }
    }
  }

  /**
   * With no `S` in the type list, segments after the last typed one are
   * dropped: they cannot change what is parsed or reported.
   */
  lemma {:induction false} SurplusSegmentsIgnored(parse: Parser, segs: seq<string>, segs': seq<string>, tags: seq<Tag>, k: nat)
    requires k <= |tags| <= |segs| && |tags| <= |segs'| && |segs| >= 1 && |segs'| >= 1
    requires forall t :: 0 <= t < |tags| ==> tags[t] != S
    requires segs[..|tags|] == segs'[..|tags|]
    ensures ParseFields(parse, segs, tags, k) == ParseFields(parse, segs', tags, k)
    decreases |tags| - k
  {
    if k < |tags| {
      assert segs[k] == segs[..|tags|][k] == segs'[k];
      SurplusSegmentsIgnored(parse, segs, segs', tags, k + 1);
    }
  }

  /** What `onMsg` does with one message: faults reported, the event emitted, whether it threw. */
  datatype Handled = Handled(faults: seq<Fault>, emitted: Option<Event>, threw: bool)

  /** `onMsg`: reject a message whose second character is not a comma, parse a known code, pass an unknown one through. */
  function Dispatch(parse: Parser, str: string): (h: Handled)
    ensures h.threw ==> h.emitted.None? && h.faults != [] && h.faults[|h.faults| - 1] == NotANumber
    ensures h.emitted.Some? ==> |str| >= 2 && h.emitted.value.Cmd? && h.emitted.value.code == str[0]
  {
    if |str| < 2 || str[1] != ARGSEP then Handled([LongCommand], None, false)
    else if str[0] in Parsers then
      var p := ParseFields(parse, Split(str[2..], ARGSEP), Parsers[str[0]], 0);
      match p.values
      case Some(vs) => Handled(p.faults, Some(Cmd(str[0], vs)), false)
      case None => Handled(p.faults, None, true)
    else Handled([], Some(Cmd(str[0], [Str(str[2..])])), false)
  }

  /** The message is not of the form code-comma-rest. */
  predicate Malformed(str: string) {
    |str| < 2 || str[1] != ARGSEP
  }

  /**
   * Dispatch of `onMsg`: a malformed message (empty and one-character lines
   * included) is reported and nothing is emitted, but it never throws; a
   * well-formed one is never reported as malformed; a throw happens exactly
   * when a numeric field of a known command is NaN; an emitted event
   * carries the code and, for a known code, one value per type, for an
   * unknown code the text after the comma verbatim.
   */
  lemma DispatchShape(parse: Parser, str: string)
    ensures Malformed(str) ==> Dispatch(parse, str) == Handled([LongCommand], None, false)
    ensures !Malformed(str) ==> LongCommand !in Dispatch(parse, str).faults
    ensures Dispatch(parse, str).threw <==>
      !Malformed(str) && str[0] in Parsers &&
      HasNaN(parse, Split(str[2..], ARGSEP), Parsers[str[0]])
    ensures var h := Dispatch(parse, str);
      h.emitted.Some? <==> !Malformed(str) && !h.threw
    ensures var h := Dispatch(parse, str);
      h.emitted.Some? ==> h.emitted.value.Cmd? && h.emitted.value.code == str[0]
    ensures var h := Dispatch(parse, str);
      h.emitted.Some? && str[0] in Parsers ==> |h.emitted.value.args| == |Parsers[str[0]]|
    ensures !Malformed(str) && str[0] !in Parsers ==>
      Dispatch(parse, str) == Handled([], Some(Cmd(str[0], [Str(str[2..])])), false)
  {
    if !Malformed(str) && str[0] in Parsers {
      KnownDispatch(parse, str);
    }
  }

  lemma KnownDispatch(parse: Parser, str: string)
    requires !Malformed(str) && str[0] in Parsers
    ensures var h := Dispatch(parse, str);
      var segs, tags := Split(str[2..], ARGSEP), Parsers[str[0]];
      LongCommand !in h.faults &&
      (h.threw <==> HasNaN(parse, segs, tags)) &&
      (h.emitted.Some? <==> !h.threw) &&
      (h.emitted.Some? ==> h.emitted.value == Cmd(str[0], h.emitted.value.args) && |h.emitted.value.args| == |tags|)
  {
    ParsersShape();
    var segs, tags := Split(str[2..], ARGSEP), Parsers[str[0]];
    assert RestLast(tags);
    TableParse(parse, segs, tags);
  }

  /** `KnownDispatch` for a type list of the table's shape. */
  lemma TableParse(parse: Parser, segs: seq<string>, tags: seq<Tag>)
    requires |segs| >= 1 && RestLast(tags)
    ensures var p := ParseFields(parse, segs, tags, 0);
      LongCommand !in p.faults &&
      (p.values.None? <==> HasNaN(parse, segs, tags)) &&
      (p.values.Some? ==> |p.values.value| == |tags|)
  {
    var p := ParseFields(parse, segs, tags, 0);
    ParseFieldsValues(parse, segs, tags, 0);
    assert p.values.Some? <==> forall t :: 0 <= t < |tags| ==> FieldValue(parse, segs, tags, t).Some?;
    assert p.values.None? <==> HasNaN(parse, segs, tags);
    ParseFieldsFaults(parse, segs, tags, 0);
    assert forall t :: 0 <= t < |p.faults| ==> p.faults[t] != LongCommand;
  }
}
