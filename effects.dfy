/**
 * What the connection's handlers do to the outside world, as values: the
 * events emitted and the calls made on the socket, for one message
 * (`onMsg`, connection.js lines 200-264) and for the messages of one chunk
 * in the order `onData` hands them over (lines 175-185), and the writes
 * `processQueue` makes (lines 114-123).
 */
module Effects {
  import opened Wrappers
  import opened Protocol
  import opened Sequences
  import opened Messages

  /** A call made on the socket: `new net.Socket` with its settings and `connect`, `write`, `end`, `destroy`. */
  datatype SocketCall =
    | Open(host: string, port: int, timeout: nat, keepAlive: nat)
    | Write(bytes: Bytes)
    | EndSocket
    | Destroy

  /** The events emitted and socket calls made, how many messages were handled, and whether the last one threw. */
  datatype Outcome = Outcome(events: seq<Event>, calls: seq<SocketCall>, handled: nat, threw: bool)

  /** The `error` events `onMsgError` emits for the faults, in order. */
  function FaultEvents(faults: seq<Fault>, str: string): (es: seq<Event>)
    ensures |es| == |faults|
    decreases |faults|
  {
    if faults == [] then [] else FaultEvents(faults[..|faults| - 1], str) + [Error(ParseFailure(faults[|faults| - 1], str))]
  }

  /** One report more. */
  lemma FaultEventsSnoc(faults: seq<Fault>, f: Fault, str: string)
    ensures FaultEvents(faults + [f], str) == FaultEvents(faults, str) + [Error(ParseFailure(f, str))]
  {
    assert (faults + [f])[..|faults|] == faults;
  }

  /** Reporting two runs of faults is reporting their concatenation. */
  lemma {:induction false} FaultEventsAppend(a: seq<Fault>, b: seq<Fault>, str: string)
    ensures FaultEvents(a + b, str) == FaultEvents(a, str) + FaultEvents(b, str)
    decreases |b|
  {
    if b == [] {
      assert a + b == a;
    } else {
      var b' := b[..|b| - 1];
      assert a + b == (a + b') + [b[|b| - 1]];
      FaultEventsSnoc(a + b', b[|b| - 1], str);
      FaultEventsSnoc(b', b[|b| - 1], str);
      assert b == b' + [b[|b| - 1]];
      FaultEventsAppend(a, b', str);
    }
  }

  /** `onError` destroys the socket once per report. */
  function Destroys(n: nat): (cs: seq<SocketCall>)
    ensures |cs| == n && forall k :: 0 <= k < n ==> cs[k] == Destroy
  {
    if n == 0 then [] else Destroys(n - 1) + [Destroy]
  }

  /** Destroying for two runs of reports is destroying for both. */
  lemma {:induction false} DestroysAppend(m: nat, n: nat)
    ensures Destroys(m + n) == Destroys(m) + Destroys(n)
    decreases n
  {
    if n > 0 {
      DestroysAppend(m, n - 1);
    }
  }

  /** One report more, on the logs: its `error` event and its `destroy` go behind the earlier ones. */
  lemma ReportsSnoc(ev0: seq<Event>, ev1: seq<Event>, ev2: seq<Event>, io0: seq<SocketCall>, io1: seq<SocketCall>,
                    io2: seq<SocketCall>, faults: seq<Fault>, f: Fault, str: string)
    requires ev1 == ev0 + FaultEvents(faults, str) && ev2 == ev1 + [Error(ParseFailure(f, str))]
    requires io1 == io0 + Destroys(|faults|) && io2 == io1 + [Destroy]
    ensures ev2 == ev0 + FaultEvents(faults + [f], str) && io2 == io0 + Destroys(|faults + [f]|)
  {
    FaultEventsSnoc(faults, f, str);
    Associative(ev0, FaultEvents(faults, str), [Error(ParseFailure(f, str))]);
    Associative(io0, Destroys(|faults|), [Destroy]);
  }

  /** Reports made in two stretches, one after the other, are the reports of both runs of faults. */
  lemma ReportsAppend(ev0: seq<Event>, ev1: seq<Event>, ev2: seq<Event>, io0: seq<SocketCall>, io1: seq<SocketCall>,
                      io2: seq<SocketCall>, a: seq<Fault>, b: seq<Fault>, str: string)
    requires ev1 == ev0 + FaultEvents(a, str) && ev2 == ev1 + FaultEvents(b, str)
    requires io1 == io0 + Destroys(|a|) && io2 == io1 + Destroys(|b|)
    ensures ev2 == ev0 + FaultEvents(a + b, str) && io2 == io0 + Destroys(|a + b|)
  {
    FaultEventsAppend(a, b, str);
    DestroysAppend(|a|, |b|);
    Associative(ev0, FaultEvents(a, str), FaultEvents(b, str));
    Associative(io0, Destroys(|a|), Destroys(|b|));
  }

  /** The event emitted last, if any. */
  function Emitted(e: Option<Event>): seq<Event> {
    if e.Some? then [e.value] else []
  }

  /** One message through `onMsg`: its fault reports, then the command event unless it threw. */
  function Handling(parse: Parser, str: string): (o: Outcome)
    ensures o.handled == 1 && forall k :: 0 <= k < |o.calls| ==> o.calls[k] == Destroy
    ensures o.threw ==> 1 <= |o.calls| == |o.events|
  {
    var h := Dispatch(parse, str);
    Outcome(FaultEvents(h.faults, str) + Emitted(h.emitted), Destroys(|h.faults|), 1, h.threw)
  }

  /** What `onMsg` does with the message on each line, for a given numeric conversion. */
  function Handler(parse: Parser): Bytes -> Outcome {
    line => Handling(parse, Decode(line))
  }

  /**
   * The messages of one chunk handed to `onMsg` in order, each handled by
   * `handle`. The loop of `onData` does not look at `connected`, so a
   * reported fault does not stop the messages behind it; a throw does.
   */
  function Batch(handle: Bytes -> Outcome, lines: seq<Bytes>): (b: Outcome)
    ensures b.threw ==> lines != []
    decreases |lines|
  {
    if lines == [] then Outcome([], [], 0, false)
    else
      var b := Batch(handle, lines[..|lines| - 1]);
      if b.threw then b
      else
        var h := handle(lines[|lines| - 1]);
        Outcome(b.events + h.events, b.calls + h.calls, b.handled + 1, h.threw)
  }

  /** Once a message throws, the messages behind it change nothing. */
  lemma {:induction false} BatchStops(handle: Bytes -> Outcome, a: seq<Bytes>, b: seq<Bytes>)
    requires Batch(handle, a).threw
    ensures Batch(handle, a + b) == Batch(handle, a)
    decreases |b|
  {
    if b != [] {
      var b' := b[..|b| - 1];
      assert (a + b)[..|a + b| - 1] == a + b';
      BatchStops(handle, a, b');
    } else {
      assert a + b == a;
    }
  }

  /** A batch that runs to completion handled every message; one that threw, at least the one that threw. */
  lemma {:induction false} BatchCount(handle: Bytes -> Outcome, lines: seq<Bytes>)
    ensures var b := Batch(handle, lines);
      b.handled <= |lines| && (!b.threw ==> b.handled == |lines|) && (b.threw ==> b.handled >= 1)
    decreases |lines|
  {
    if lines != [] {
      BatchCount(handle, lines[..|lines| - 1]);
    }
  }

  /** A batch runs to completion exactly when no message of it throws. */
  lemma {:induction false} BatchCompletes(handle: Bytes -> Outcome, lines: seq<Bytes>)
    ensures !Batch(handle, lines).threw <==> forall k :: 0 <= k < |lines| ==> !handle(lines[k]).threw
    decreases |lines|
  {
    if lines != [] {
      var init := lines[..|lines| - 1];
      BatchCompletes(handle, init);
      assert forall k :: 0 <= k < |init| ==> init[k] == lines[k];
    }
  }

  /** When a batch throws, the message it handled last is the first one that throws. */
  lemma {:induction false} BatchThrowsAt(handle: Bytes -> Outcome, lines: seq<Bytes>)
    requires Batch(handle, lines).threw
    ensures var n := Batch(handle, lines).handled;
      1 <= n <= |lines| && handle(lines[n - 1]).threw &&
      forall k :: 0 <= k < n - 1 ==> !handle(lines[k]).threw
    decreases |lines|
  {
    var init := lines[..|lines| - 1];
    assert forall k :: 0 <= k < |init| ==> init[k] == lines[k];
    if Batch(handle, init).threw {
      BatchThrowsAt(handle, init);
    } else {
      BatchCount(handle, init);
      BatchCompletes(handle, init);
    }
  }

  /**
   * A batch that runs to completion emits, in order, what each message
   * emits, and makes the socket calls each message makes.
   */
  lemma {:induction false} BatchAppend(handle: Bytes -> Outcome, a: seq<Bytes>, b: seq<Bytes>)
    requires !Batch(handle, a + b).threw
    ensures var ra, rb, r := Batch(handle, a), Batch(handle, b), Batch(handle, a + b);
      !ra.threw && !rb.threw && r.events == ra.events + rb.events && r.calls == ra.calls + rb.calls
    decreases |b|
  {
    if b != [] {
      var b' := b[..|b| - 1];
      assert (a + b)[..|a + b| - 1] == a + b';
      assert (a + b)[|a + b| - 1] == b[|b| - 1];
      BatchAppend(handle, a, b');
    } else {
      assert a + b == a;
    }
  }

  /**
   * The logs of a chunk's messages handled so far, none of them throwing,
   * from `ev0` and `io0` on: what the batch emitted and called, and the
   * connection still up exactly when no message destroyed the socket.
   */
  ghost predicate Logged(handle: Bytes -> Outcome, ms: seq<Bytes>, ev0: seq<Event>, io0: seq<SocketCall>,
                         ev: seq<Event>, io: seq<SocketCall>, connected: bool)
  {
    var b := Batch(handle, ms);
    && !b.threw && b.handled == |ms|
    && ev == ev0 + b.events && io == io0 + b.calls && connected == (b.calls == [])
  }

  /** No message handled yet. */
  lemma LoggedStart(handle: Bytes -> Outcome, ev0: seq<Event>, io0: seq<SocketCall>)
    ensures Logged(handle, [], ev0, io0, ev0, io0, true)
  {
  }

  /**
   * One message more: its events and calls go behind the logs, and the
   * connection drops when it destroyed the socket. The batch then threw
   * exactly when this message threw.
   */
  lemma LoggedStep(handle: Bytes -> Outcome, ms: seq<Bytes>, msg: Bytes, ev0: seq<Event>, io0: seq<SocketCall>,
                   ev1: seq<Event>, io1: seq<SocketCall>, c1: bool, ev2: seq<Event>, io2: seq<SocketCall>, c2: bool)
    requires Logged(handle, ms, ev0, io0, ev1, io1, c1)
    requires ev2 == ev1 + handle(msg).events && io2 == io1 + handle(msg).calls
    requires c2 == (c1 && handle(msg).calls == [])
    ensures var b := Batch(handle, ms + [msg]);
      && ev2 == ev0 + b.events && io2 == io0 + b.calls && c2 == (b.calls == [])
      && b.threw == handle(msg).threw && b.handled == |ms| + 1
    ensures !handle(msg).threw ==> Logged(handle, ms + [msg], ev0, io0, ev2, io2, c2)
  {
    var b := Batch(handle, ms);
    var h := handle(msg);
    BatchSnoc(handle, ms, msg);
    Associative(ev0, b.events, h.events);
    Associative(io0, b.calls, h.calls);
  }

  /** A batch that has not thrown takes one more message. */
  lemma BatchSnoc(handle: Bytes -> Outcome, ms: seq<Bytes>, msg: Bytes)
    requires !Batch(handle, ms).threw
    ensures var b, h := Batch(handle, ms), handle(msg);
      Batch(handle, ms + [msg]) == Outcome(b.events + h.events, b.calls + h.calls, b.handled + 1, h.threw)
  {
    assert (ms + [msg])[..|ms|] == ms;
  }

  /** The writes `processQueue` makes for the messages it takes, in queue order. */
  function Writes(msgs: seq<seq<string>>): (w: seq<SocketCall>)
    ensures forall k :: 0 <= k < |w| ==> w[k].Write?
    decreases |msgs|
  {
    if msgs == [] then [] else Writes(msgs[..|msgs| - 1]) + [Write(Pack(msgs[|msgs| - 1]))]
  }

  /** The `k`-th write is of message `k`, packed. */
  lemma {:induction false} WritesAt(msgs: seq<seq<string>>)
    ensures |Writes(msgs)| == |msgs|
    ensures forall k :: 0 <= k < |msgs| ==> Writes(msgs)[k] == Write(Pack(msgs[k]))
    decreases |msgs|
  {
    if msgs != [] {
      WritesAt(msgs[..|msgs| - 1]);
    }
  }

  /** One write more. */
  lemma WritesSnoc(msgs: seq<seq<string>>, m: seq<string>)
    ensures Writes(msgs + [m]) == Writes(msgs) + [Write(Pack(m))]
  {
    assert (msgs + [m])[..|msgs|] == msgs;
  }

  /** Writing two runs of messages is writing their concatenation. */
  lemma {:induction false} WritesAppend(a: seq<seq<string>>, b: seq<seq<string>>)
    ensures Writes(a + b) == Writes(a) + Writes(b)
    decreases |b|
  {
    if b == [] {
      assert a + b == a;
    } else {
      var b' := b[..|b| - 1];
      assert (a + b)[..|a + b| - 1] == a + b';
      WritesAppend(a, b');
      Associative(Writes(a), Writes(b'), [Write(Pack(b[|b| - 1]))]);
    }
  }

  /** On a log: writing the queue's messages up to `n + 1` is writing those up to `n`, then message `n`. */
  lemma WritesStep(log: seq<SocketCall>, q: seq<seq<string>>, n: nat)
    requires n < |q|
    ensures log + Writes(q[..n + 1]) == log + Writes(q[..n]) + [Write(Pack(q[n]))]
  {
    assert q[..n + 1] == q[..n] + [q[n]];
    WritesSnoc(q[..n], q[n]);
  }
}
