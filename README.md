# craft-client connection core, modelled in Dafny

craft-client keeps a TCP connection to a Craft game server. It reconnects when
the connection drops, cuts the byte stream into line-feed-terminated text
messages, and parses each message by the type list of its one-letter command
code. It then emits the message as an event named after the code. Outbound
messages wait in a queue and are written comma-joined with a line feed.
A thin user layer on top tracks the player's own record (`userInfo`) from
the `U`, `P` and `N` commands and sends the authentication message.

The model has eight modules:

- `Wrappers`: `Option`.
- `Sequences`: `Split` specifies the pieces produced by the byte loop
  (connection.js:175-194) and by the `indexOf` walk (connection.js:223-256);
  the code never calls `split` itself. `Join` and `IndexOf` model the
  builtins `join` (:322) and `indexOf` (:234). Their round trips are proved.
- `Protocol`: the constants (`MSGSEP`, `ARGSEP`, `TIMEOUT`, `KEEPALIVE`,
  `VERSION`), the `parsers` table, events, the "ascii" codec and `pack`.
- `Framing`: the reference definition `Frame` of one `onData` call on the
  framing state `lastBuffer`, and the framing invariant `Stream`.
- `Messages`: the reference definition `ParseFields` of `parseCmd` and
  `Dispatch` of `onMsg`.
- `Effects`: what `onMsg` does for one message (`Handling`), for the
  messages of one chunk (`Batch`), and what `processQueue` writes (`Writes`).
- `Client`: the class `Connection`. It holds the state `openConnection`
  closes over: the flags, the queue, `lastBuffer`, and append-only logs of
  the events emitted and the socket calls made. Its methods are the
  handlers, each proved against the reference definitions above.
- `UserClient`: the class `UserConnection` with the `userInfo` record and
  the listeners of user-connection.js.

## Model

| member | source | states |
|---|---|---|
| `Sequences.SplitAtIndexOf` | connection.js:234-240 | what `indexOf` finds from `strStart` tells how the rest of the message splits at commas: the field up to the comma, then the segments after it, or the whole rest as the last segment |
| `Sequences.JoinSplit` | connection.js:322 | joining the comma-split segments restores the text |
| `Sequences.SplitJoin` | connection.js:322 | fields free of commas come back unchanged from splitting their join |
| `Sequences.SplitConcat` | connection.js:175-194 | splitting a concatenation fuses the last piece of the first part with the first piece of the second part |
| `Sequences.IndexOf` | connection.js:234 | the result is -1 with no comma from `from` on, or the position of the first comma at or after `from` |
| `Protocol.ParsersShape` | connection.js:41-52 | every entry of the `parsers` table is non-empty and has `S` only in last position |
| `Protocol.DecodeEncode` | connection.js:32 | 7-bit text survives the "ascii" encoding and decoding |
| `Protocol.DecodeDelimiter` | connection.js:176-178 | under the modelled codec, a byte string holds 0x0A exactly when its decoded text holds a line feed (Node's own "ascii" decoding also turns 0x8A into a line feed; see Left out) |
| `Protocol.Decode` | connection.js:178 | the "ascii" decoding of a message: one character per byte |
| `Protocol.Encode` | connection.js:322 | the "ascii" encoding of an outbound message: one byte per character |
| `Protocol.Pack` | connection.js:320-323 | `pack`: the encoded fields joined by `Sequences.Join` (the builtin `join`) with commas, one byte longer than the text, ending in the 0x0A delimiter |
| `Protocol.PackBytes` | connection.js:320-323 | `pack` gives the encoded comma-joined fields followed by the 0x0A delimiter |
| `Framing.Frame` | connection.js:164-195 | the framing of one `onData` chunk on `lastBuffer`: a chunk holding a line feed is always framed and hands on at least one message |
| `Framing.FrameReassembles` | connection.js:164-195 | framing loses and invents nothing: the messages, each with its line feed, then the new tail, are the old tail followed by the chunk |
| `Framing.FrameLinesClean` | connection.js:175-194 | no message and no held tail contains a line feed |
| `Framing.FrameFailure` | connection.js:187-194 | the concatenation at line 192 throws exactly for a non-empty chunk without a line feed when no tail is held |
| `Framing.ChunkingIndependence` | connection.js:164-195 | two consecutive chunks framed without a throw yield the messages and the tail bytes of one chunk holding both |
| `Framing.ChunkingIndependenceEach` | connection.js:164-195 | for any number of chunks: when `onData` frames each chunk in turn without a throw, one call on all their bytes yields the same messages and the same tail bytes |
| `Framing.CutFuse` | connection.js:175-194 | chunking independence stated on the split pieces |
| `Framing.PackFrames` | connection.js:320-323 | a packed message of clean 7-bit fields frames as exactly one message whose comma-split segments are the fields |
| `Framing.StreamStart` | connection.js:73-74 | the framing invariant holds of a fresh connection: nothing delivered, no tail |
| `Framing.StreamFrame` | connection.js:164-195 | a call that frames its chunk keeps the framing invariant with the chunk delivered and its messages appended |
| `Framing.StreamAbandon` | connection.js:177-181 | proof step: after a throw, with the tail kept or consumed, the invariant holds without the reassembly equation |
| `Framing.ScanLine` | connection.js:176-183 | a line feed closes the message the loop builds (the held tail plus the chunk so far, or the open piece) and consumes a held tail |
| `Framing.ScanEnd` | connection.js:187-194 | at the end of the chunk the loop's messages are the chunk's messages, and the new tail is the open piece, the extended held tail or the state left |
| `Framing.Scan` | connection.js:175-185 | the loop's state after `i` bytes: `lastStart` is 0 exactly while no message was handed on, and the tail is consumed exactly after that |
| `Framing.ScanScans` | connection.js:175-185 | the loop's state after `i` bytes is the one the pieces of the scanned prefix describe |
| `Framing.ScanLineFrames` | connection.js:176-184 | the messages handed on up to a line feed come first among the chunk's messages |
| `Framing.ScanFrames` | connection.js:175-194 | the whole loop and the tail handling agree with `Frame` |
| `Messages.ParseFields` | connection.js:215-257 | `parseCmd` from field `k` on: a parse that throws has reported faults, the last of them the NaN fault |
| `Messages.SegmentStep` | connection.js:234-240 | one numeric field takes the next comma-separated segment, or the last one again once the commas ran out |
| `Messages.WalkStart` | connection.js:217-223 | proof step: the loop starts at field 0, at character 2, with nothing taken |
| `Messages.WalkRest` | connection.js:224-227 | an `S` field takes the rest of the message verbatim and ends the result |
| `Messages.WalkDone` | connection.js:256 | proof step: after the last field the values taken are the result |
| `Messages.WalkField` | connection.js:228-253 | one numeric field keeps the loop on the reference: its faults are added, and either the parse throws or the value is taken |
| `Messages.FieldFaults` | connection.js:230-249 | a field reports "after last comma" exactly when the segments had run out, and NaN exactly when its conversion failed, last |
| `Messages.ParseFieldsValues` | connection.js:215-257 | parsing succeeds exactly when every numeric field converts, and then gives one value per type, each from its own segment |
| `Messages.ParseFieldsFaults` | connection.js:215-257 | a successful parse reports only "after last comma" faults, one per numeric field beyond the segments; a failed one ends with the NaN fault |
| `Messages.SurplusSegmentsIgnored` | connection.js:223-256 | with no `S` in the type list, segments beyond the typed fields change nothing |
| `Messages.Dispatch` | connection.js:200-211 | `onMsg` on one message: a throw emits nothing and ends with the NaN report; an emitted event is a command event named after the message's code |
| `Messages.DispatchShape` | connection.js:200-211 | a malformed message is reported and never throws; a throw happens exactly for a NaN field of a known code; an emitted event carries the code, one value per type for a known code, and the verbatim rest for an unknown one |
| `Messages.KnownDispatch` | connection.js:206-207 | a known code emits a command event with one value per type unless a field is NaN |
| `Messages.TableParse` | connection.js:215-257 | for a type list from the table, the parse fails exactly on a NaN field and otherwise gives one value per type |
| `Effects.Handling` | connection.js:200-264 | what `onMsg` does to the outside for one message: it handles one message, its only socket calls are `destroy` (one per report), and a throwing message emits only its reports, at least one |
| `Effects.Batch` | connection.js:175-185 | the messages of one chunk handed to `onMsg` in order until one throws; a batch throws only when it holds a message |
| `Effects.Writes` | connection.js:117-118 | what `processQueue` writes for a run of queued messages: nothing but `write` calls |
| `Effects.FaultEvents` | connection.js:259-263 | one `error` event per fault reported |
| `Effects.FaultEventsAppend` | connection.js:259-263 | reporting two runs of faults is reporting their concatenation |
| `Effects.ReportsAppend` | connection.js:259-263 | reports made one after the other are, on the logs, the reports of both runs |
| `Effects.BatchStops` | connection.js:175-185 | once a message throws, the messages behind it change nothing |
| `Effects.BatchCount` | connection.js:175-185 | a completed batch handled every message; one that threw, at least one |
| `Effects.BatchCompletes` | connection.js:175-185 | a batch completes exactly when no message in it throws |
| `Effects.BatchThrowsAt` | connection.js:175-185 | when a batch throws, the last message handled is the first that throws |
| `Effects.BatchAppend` | connection.js:175-185 | a completed batch emits, in order, what each message emits, and makes each message's socket calls |
| `Effects.LoggedStep` | connection.js:178-180 | one message more extends the logs by what it emits and calls, and the batch threw exactly when it threw |
| `Effects.WritesAt` | connection.js:117-118 | the `k`-th write is message `k` of the queue, packed |
| `Effects.WritesAppend` | connection.js:117-118 | writing two runs of messages is writing their concatenation, in order |
| `Client.Receive` | connection.js:175-194 | how one `onData` call ends and what `lastBuffer` it leaves: the throw at line 192 keeps the tail and happens only for a non-empty chunk without a line feed; a throw out of `onMsg` keeps or consumes the tail |
| `Client.ScanThrew` | connection.js:175-185 | a throw at some line feed is the throw of the batch over all the chunk's messages, with the same effects and the tail kept or consumed as `Receive` says |
| `Client.ReceiveSettled` | connection.js:187-194 | proof step: a chunk whose messages all went through ends as `Receive` says |
| `Client.Connection.constructor` | connection.js:63-92 | the initial state: not connected, not closed, empty queue, no tail, one socket opened with the timeout and keepalive settings, the invariants established |
| `Client.Connection.Close` | connection.js:98-106 | `close` is terminal: closed, disconnected, the socket ended and destroyed, the listeners removed |
| `Client.Connection.Send` | connection.js:108-112 | the message joins the back of the queue and one `processQueue` run is scheduled |
| `Client.Connection.ProcessQueue` | connection.js:114-123 | while connected the queue is written in FIFO order, each message packed; a throwing write loses its message, reports the error and leaves the rest queued; when not connected nothing happens |
| `Client.Connection.WriteQueue` | connection.js:116-119 | the loop writes the queue's messages in order up to the throwing write, and the queue is what was sent and not yet taken |
| `Client.Connection.Shift` | connection.js:118 | the front message leaves the queue |
| `Client.Connection.Connect` | connection.js:125-153 | unless closed or connecting, a new socket is opened with the timeout and keepalive settings, disconnected until it connects |
| `Client.Connection.ReconnectTimer` | connection.js:283 | the reconnect timer runs `connect` |
| `Client.Connection.OnConnect` | connection.js:155-162 | on a connection not closed (a closed one destroyed its socket at line 104): connected; `connect` then `reconnect` emitted; the queue is not flushed |
| `Client.Connection.OnData` | connection.js:164-195 | ignored when not connected or closed; otherwise the raw `data` event first, then each framed message through `onMsg` in order, the framing state as `Receive` says, and the framing invariant kept |
| `Client.Connection.Ingest` | connection.js:172-194 | the loop then the tail handling: the chunk's messages handled as `Batch` says and the outcome and tail as `Receive` says |
| `Client.Connection.Settle` | connection.js:187-194 | with every message handled, the rest of the chunk is held or line 192 throws; the invariant is kept and, on success, the chunk is delivered |
| `Client.Connection.HoldRest` | connection.js:187-194 | the bytes after the last line feed are held on their own, or behind the held tail when no line feed was seen; with no held tail the concatenation throws |
| `Client.Connection.DeliverLines` | connection.js:175-185 | the loop hands every message to `onMsg` in order until one throws, ending where `Scan` says or with the effects of the throwing batch |
| `Client.Connection.DeliverLine` | connection.js:176-184 | one line feed: its message goes to `onMsg`, and the first message consumes the held tail unless it threw |
| `Client.Connection.OnLine` | connection.js:178-180 | `onMsg` on the decoded text of one line |
| `Client.Connection.OnMsg` | connection.js:200-211 | reports a message whose second character is not a comma, parses and emits a known code, emits an unknown code with the text after the comma; the logs are what `Dispatch` says |
| `Client.Connection.ParseCmd` | connection.js:215-218 | the values are those `ParseFields` gives for the code's type list, and exactly its faults are reported |
| `Client.Connection.ParseArgs` | connection.js:223-257 | the loop's values and reports are those `ParseFields` gives |
| `Client.Connection.ParseLoop` | connection.js:223-256 | the loop stays on the reference walk until an `S` field, a NaN or the end of the type list |
| `Client.Connection.ParseStep` | connection.js:228-253 | one numeric field: its faults reported, and a throw or the next field |
| `Client.Connection.ParseField` | connection.js:230-249 | a field after the last comma is reported, the segment up to the next comma is converted, and NaN is reported |
| `Client.Connection.OnMsgError` | connection.js:259-264 | the fault goes through `onError` |
| `Client.Connection.OnDrain` | connection.js:267-270 | `drain` is re-emitted |
| `Client.Connection.OnEnd` | connection.js:272-276 | disconnected, `end` emitted |
| `Client.Connection.OnClose` | connection.js:278-284 | disconnected, `close` emitted, a reconnect scheduled exactly when not closed |
| `Client.Connection.OnTimeout` | connection.js:286-295 | disconnected, `timeout` emitted, the socket destroyed |
| `Client.Connection.OnError` | connection.js:297-308 | disconnected, `error` emitted, the socket destroyed |
| `Client.Connection.SendVersion` | connection.js:310-315 | the version message `V,1` is queued exactly while connected |
| `UserClient.Handle` | user-connection.js:61-92 | `U` sets the id and the position and leaves the name; `P` changes only the position and `N` only the name, each only for the record's own id, otherwise nothing changes and nothing is emitted |
| `UserClient.Moved` | user-connection.js:68-77 | `updatePos`: only the position changes; it emits `user/position` with the record's name exactly when it does not throw |
| `UserClient.PidKept` | user-connection.js:79-92 | without a `U` command the id never changes |
| `UserClient.OthersIgnored` | user-connection.js:79-92 | until the next `U`, the record is what the `P` and `N` commands about its own id make of it; all other events are ignored |
| `UserClient.ZeroBeforeUserInfo` | user-connection.js:29-92 | the initial id is 0, so `P` and `N` commands for player 0 are applied before any `U` arrives |
| `UserClient.ListenedShape` | connection.js:41-52 | the command events `onMsg` emits for `U`, `P` and `N` always have the shape their listeners take |
| `UserClient.UserConnection.Wrap` | user-connection.js:27-37 | the record starts at pid 0, an empty name and all coordinates 0 |
| `UserClient.UserConnection.OnAuthToken` | user-connection.js:56-59 | `A,username,token` is queued exactly when there was no error |
| `UserClient.UserConnection.Emit` | user-connection.js:64 | `conn.emit` emits, or throws when the connection object has no `emit` |
| `UserClient.UserConnection.UpdatePos` | user-connection.js:68-77 | the five coordinates are taken, then the position is emitted with the record's name |
| `UserClient.UserConnection.OnUserInfo` | user-connection.js:61-66 | the id is taken and `user/pid` emitted before `user/position` |
| `UserClient.UserConnection.OnPlayerPos` | user-connection.js:79-84 | `updatePos` only for the record's own id |
| `UserClient.UserConnection.OnPlayerNick` | user-connection.js:86-92 | the name only for the record's own id, then `user/name` |
| `UserClient.UserConnection.Listen` | user-connection.js:39-43 | a connection event runs the listener registered for its code, if any |
| `UserClient.OpenedUserInfoLost` | user-connection.js:61-66 | on a connection from `connection.open`, a `U` command sets the id, then throws before the position is taken or anything is emitted |
| `UserClient.UserInfoApplied` | user-connection.js:61-77 | with an `emit`, `U` takes the id and the whole position and emits `user/pid` then `user/position` |

## Left out

- Sockets, timers and `process.nextTick` are not modelled as such. Socket calls are a log (`io`). A scheduled `processQueue` run and a reconnect timer are counters (`pendingTicks`, `pendingReconnects`) with a method that runs one of them. The keepalive interval is `SendVersion`, called by the environment.
- `parseFloat` and `parseInt` are not modelled. They are the parameter `parse`, with `None` for NaN. Numbers are `real`.
- The "ascii" codec is exact only on 7-bit text. `Decode` maps every byte to the character of the same number; Node's "ascii" decoding strips the high bit, so there byte 0x8A decodes to a line feed, which the model does not capture.
- `Protocol.Encode` keeps the low eight bits of each character. Node encodes per UTF-16 code unit, so a character above U+FFFF becomes two bytes there and one byte in the model.
- EventEmitter semantics are not modelled: listener registration, `once`/`off`, and the throw when `error` is emitted with no listener after `close` removed them. Emitted events are a log.
- A listener's throw is not fed back into the connection. `onMsg` throws only out of `parseCmd`, although a listener that throws inside `emit` (see Findings) would end the `onData` loop the same way.
- `debug` logging and the `connect` call's own `try`/`catch` (logging only) are not modelled.
- `Client.Connection.ProcessQueue`: the ensures does not say which messages joined the ghost `taken` record. `QueueValid` still ties the queue to everything sent.
- `close` keeps `sendQueue` and the keepalive interval (lines 98-106 clear neither). After `close`, `SendVersion` finds the connection down and queues nothing.
- A NaN numeric field throws out of `parseCmd` (line 249). Nothing between it and `onData` catches it, so the throw ends the whole `onData` call and later messages of the same chunk are never handled (`ThrewOnMessage`).
- `connecting` is never set to true by the code, so the model keeps it false as part of `Valid`.
- user-connection.js: `getAuthToken` is an HTTP call and is not modelled; `OnAuthToken` takes its outcome as parameters. `identify` only calls it. `onText` is not modelled: its pattern is built from an unescaped user name. The `Object.create` delegation of `wrapConnection` is not modelled.
- The test script of the repository is not part of this model.

## Findings

| source | as written | input that shows it | evidently intended | confidence | as-written member | corrected member |
|---|---|---|---|---|---|---|
| user-connection.js:64 | `onUserInfo`, `updatePos` and `onPlayerNick` call `conn.emit`. The object `connection.open` returns (connection.js:84-94) has no `emit`, so each call throws a TypeError after the assignments before it. | A `U,7,1,2,3,4,5` message on a connection from `open`: the id becomes 7, the position stays at 0 and nothing is emitted. | Emit `user/pid`, `user/position` and `user/name` through the connection's emitter, with the whole record updated. | high, not executed | `UserClient.OpenedUserInfoLost` | `UserClient.UserInfoApplied` |
