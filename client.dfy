/**
 * The object `openConnection` builds (connection.js lines 63-316): the
 * connection flags, the send queue, the framing state `lastBuffer`, and
 * the handlers the socket, the timers and the caller invoke. Emitted
 * events and socket calls are kept as append-only logs.
 */
module Client {
  import opened Wrappers
  import opened Sequences
  import opened Protocol
  import opened Framing
  import opened Messages
  import opened Effects

  /** How an `onData` call ends: normally, by the throw at line 192, or by a throw out of `onMsg`. */
  datatype DataOutcome = Completed | ThrewOnConcat | ThrewOnMessage

  /**
   * How an `onData` call past its guard ends and the `lastBuffer` it
   * leaves: a throw out of `onMsg` abandons the chunk, with the held tail
   * consumed only if a message before the throwing one used it; the throw
   * at line 192 leaves the tail as it was; otherwise `Frame` decides.
   */
  function Receive(handle: Bytes -> Outcome, tail: Tail, data: Bytes): (r: (DataOutcome, Tail))
    ensures r.0 == ThrewOnConcat ==> r.1 == tail && data != [] && MSGSEP !in data
    ensures r.0 == ThrewOnMessage ==> r.1 == tail || r.1 == Consume(tail)
  {
    var fr := Frame(tail, data);
    var b := Batch(handle, MessagesOf(fr));
    FrameFailure(tail, data);
    if b.threw then (ThrewOnMessage, if b.handled == 1 then tail else Consume(tail))
    else if fr.Unframeable? then (ThrewOnConcat, tail)
    else (Completed, fr.tail)
  }

  /** A chunk whose messages all went through without a throw ends as `Receive` says. */
  lemma ReceiveSettled(handle: Bytes -> Outcome, tail: Tail, data: Bytes, ms: seq<Bytes>, outcome: DataOutcome, tail': Tail)
    requires !Batch(handle, ms).threw
    requires var fr := Frame(tail, data);
      && (outcome == ThrewOnConcat <==> fr.Unframeable?) && outcome != ThrewOnMessage
      && (fr.Unframeable? ==> ms == [] && tail' == tail)
      && (fr.Framed? ==> fr.lines == ms && tail' == fr.tail)
    ensures MessagesOf(Frame(tail, data)) == ms
    ensures Receive(handle, tail, data) == (outcome, tail')
  {
  }

  /** The effects logged for the messages of a settled chunk are those of the batch over its framed messages. */
  lemma SettledEffects(handle: Bytes -> Outcome, tail: Tail, data: Bytes, ms: seq<Bytes>, outcome: DataOutcome, tail': Tail,
                       ev0: seq<Event>, io0: seq<SocketCall>, ev: seq<Event>, io: seq<SocketCall>, c: bool)
    requires Logged(handle, ms, ev0, io0, ev, io, c)
    requires var fr := Frame(tail, data);
      && (outcome == ThrewOnConcat <==> fr.Unframeable?) && outcome != ThrewOnMessage
      && (fr.Unframeable? ==> ms == [] && tail' == tail)
      && (fr.Framed? ==> fr.lines == ms && tail' == fr.tail)
    ensures var b := Batch(handle, MessagesOf(Frame(tail, data)));
      && ev == ev0 + b.events && io == io0 + b.calls && c == (b.calls == [])
      && (outcome, tail') == Receive(handle, tail, data)
  {
    ReceiveSettled(handle, tail, data, ms, outcome, tail');
  }

  /**
   * The message closed by the line feed at `i` threw: the messages handled
   * so far are a prefix of the chunk's lines, so the batch over all of them
   * stops at the same place with the same effects.
   */
  lemma ScanThrew(handle: Bytes -> Outcome, tail0: Tail, data: Bytes, i: nat,
                  ev0: seq<Event>, io0: seq<SocketCall>, ev: seq<Event>, io: seq<SocketCall>, c: bool)
    requires i < |data| && data[i] == MSGSEP
    requires var b := Batch(handle, Scan(tail0, data, i + 1).ms);
      && b.threw && b.handled == |Scan(tail0, data, i + 1).ms| && ev == ev0 + b.events && io == io0 + b.calls && c == (b.calls == [])
    ensures var b := Batch(handle, MessagesOf(Frame(tail0, data)));
      && b.threw && ev == ev0 + b.events && io == io0 + b.calls && c == (b.calls == [])
      && b.handled == |Scan(tail0, data, i + 1).ms|
    ensures Receive(handle, tail0, data) ==
      (ThrewOnMessage, if |Scan(tail0, data, i + 1).ms| == 1 then tail0 else Consume(tail0))
  {
    ScanLineFrames(tail0, data, i);
    var done := Scan(tail0, data, i + 1).ms;
    var lines := Frame(tail0, data).lines;
    BatchStops(handle, done, lines[|done|..]);
  }

  /**
   * The message at the line feed `i` threw: the loop stops there, with the
   * effects of the batch over the whole chunk, and `lastBuffer` as the
   * messages before it left it, which is what `Receive` says.
   */
  lemma LineThrew(handle: Bytes -> Outcome, tail0: Tail, data: Bytes, i: nat, s: ScanState, msg: Bytes,
                  ev0: seq<Event>, io0: seq<SocketCall>, ev: seq<Event>, io: seq<SocketCall>, c: bool)
    requires i < |data| && data[i] == MSGSEP && s == Scan(tail0, data, i) && msg == LineAt(data, s, i)
    requires var b := Batch(handle, s.ms + [msg]);
      && b.threw && b.handled == |s.ms| + 1 && ev == ev0 + b.events && io == io0 + b.calls && c == (b.calls == [])
    ensures var b := Batch(handle, MessagesOf(Frame(tail0, data)));
      && b.threw && ev == ev0 + b.events && io == io0 + b.calls && c == (b.calls == [])
    ensures (ThrewOnMessage, s.buf) == Receive(handle, tail0, data)
    ensures s.buf == tail0 || s.buf == Consume(tail0)
  {
    ScanAtLine(tail0, data, i, s);
    assert Scan(tail0, data, i + 1).ms == s.ms + [msg];
    ScanThrew(handle, tail0, data, i, ev0, io0, ev, io, c);
  }

  class Connection {
    const host: string
    const port: int
    /** The numeric conversion `parseCmd` applies to `I` and `F` fields. */
    const parse: Parser

    var connected: bool
    var closed: bool
    var connecting: bool
    /** The emitter still has its listeners (`close` removes them all). */
    var listening: bool
    var sendQueue: seq<seq<string>>
    var lastBuffer: Tail
    /** Every event emitted, in order. */
    var events: seq<Event>
    /** Every call made on a socket, in order. */
    var io: seq<SocketCall>
    /** `processQueue` runs scheduled by `send` and not yet run. */
    var pendingTicks: nat
    /** Reconnect timers set by `onClose` and not yet fired. */
    var pendingReconnects: nat

    /** Every message ever queued, and those `processQueue` has taken off the queue. */
    ghost var sent: seq<seq<string>>
    ghost var taken: seq<seq<string>>
    /** The bytes `onData` has accepted, and the messages it has cut from them. */
    ghost var delivered: Bytes
    ghost var messages: seq<Bytes>
    /** No `onData` call has thrown yet; after a throw the bytes of that chunk are partly lost. */
    ghost var intact: bool

    /** The queue is what was sent and not yet taken. */
    ghost predicate QueueValid()
      reads this`sendQueue, this`sent, this`taken
    {
      sent == taken + sendQueue
    }

    /** The framing invariant holds of the bytes accepted, the messages cut and `lastBuffer`. */
    ghost predicate StreamValid()
      reads this`lastBuffer, this`delivered, this`messages, this`intact
    {
      Stream(delivered, messages, lastBuffer, intact)
    }

    /** `connecting` stays false, and the queue and the stream are consistent. */
    ghost predicate Valid()
      reads this`connecting, this`lastBuffer, this`sendQueue, this`sent, this`taken,
        this`delivered, this`messages, this`intact
    {
      !connecting && QueueValid() && StreamValid()
    }

    /** `openConnection`: the initial state, then `connect()` (the keepalive interval is `SendVersion`). */
    constructor (host: string, port: int, parse: Parser)
      ensures Valid()
      ensures this.host == host && this.port == port && this.parse == parse
      ensures !connected && !closed && !connecting && listening
      ensures sendQueue == [] && lastBuffer == Unset && events == []
      ensures io == [Open(host, port, TIMEOUT, KEEPALIVE)]
      ensures pendingTicks == 0 && pendingReconnects == 0
      ensures sent == [] && taken == [] && delivered == [] && messages == [] && intact
    {
      this.host := host;
      this.port := port;
      this.parse := parse;
      connected := false;
      closed := false;
      connecting := false;
      listening := true;
      sendQueue := [];
      lastBuffer := Unset;
      events := [];
      io := [];
      pendingTicks := 0;
      pendingReconnects := 0;
      sent := [];
      taken := [];
      delivered := [];
      messages := [];
      intact := true;
      new;
      Connect();
    }

    /** `close`: terminal; ends and destroys the socket and removes every listener. */
    method Close()
      modifies this`closed, this`connected, this`io, this`listening
      ensures closed && !connected && !listening
      ensures io == old(io) + [EndSocket, Destroy]
    {
      closed := true;
      connected := false;
      io := io + [EndSocket, Destroy];
      listening := false;
    }

    /** `send`: the message goes to the back of the queue and a `processQueue` run is scheduled. */
    method Send(msg: seq<string>)
      requires Valid()
      modifies this`sendQueue, this`sent, this`pendingTicks
      ensures Valid()
      ensures sendQueue == old(sendQueue) + [msg] && sent == old(sent) + [msg]
      ensures pendingTicks == old(pendingTicks) + 1
    {
      sendQueue := sendQueue + [msg];
      sent := sent + [msg];
      pendingTicks := pendingTicks + 1;
    }

    /**
     * A scheduled `processQueue` run. While connected it takes the queue
     * from the front and writes each message packed. `throwsAt` is the
     * environment's choice of the write, counted from 0 in this run, that
     * throws; the message being written then is lost, `onError` runs and
     * the rest stays queued.
     */
    method ProcessQueue(throwsAt: Option<nat>)
      requires Valid() && pendingTicks > 0
      modifies this`sendQueue, this`taken, this`io, this`events, this`connected, this`pendingTicks
      ensures Valid() && pendingTicks == old(pendingTicks) - 1
      ensures !old(connected) ==>
        sendQueue == old(sendQueue) && io == old(io) &&
        events == old(events) && !connected
      ensures old(connected) ==>
        var q := old(sendQueue);
        var fails := throwsAt.Some? && throwsAt.value < |q|;
        var n := if fails then throwsAt.value else |q|;
        && io == old(io) + Writes(q[..n]) + (if fails then [Destroy] else [])
        && sendQueue == (if fails then q[n + 1..] else [])
        && events == old(events) + (if fails then [Error(WriteFailure)] else [])
        && connected == !fails
    {
      pendingTicks := pendingTicks - 1;
      var failed := WriteQueue(throwsAt);
      if failed {
        OnError(WriteFailure);
      }
    }

    /**
     * The `try` block of `processQueue`: while connected and the queue is
     * not empty, the front message is shifted off and written packed. The
     * write numbered `throwsAt` in this run throws, ending the loop after
     * its message was shifted off.
     */
    method WriteQueue(throwsAt: Option<nat>) returns (failed: bool)
      requires QueueValid()
      modifies this`sendQueue, this`taken, this`io
      ensures QueueValid()
      ensures !connected ==> !failed && sendQueue == old(sendQueue) && io == old(io)
      ensures connected ==>
        var q := old(sendQueue);
        && failed == (throwsAt.Some? && throwsAt.value < |q|)
        && var n := if failed then throwsAt.value else |q|;
        && io == old(io) + Writes(q[..n])
        && sendQueue == (if failed then q[n + 1..] else [])
    {
      ghost var q, io0 := sendQueue, io;
      var n := 0;
      failed := false;
      while connected && |sendQueue| > 0
        invariant n <= |q| && sendQueue == q[n..]
        invariant io == io0 + Writes(q[..n])
        invariant !connected ==> n == 0
        invariant throwsAt.Some? ==> n <= throwsAt.value
        invariant QueueValid()
        decreases |sendQueue|
      {
        var head := Shift();
        if throwsAt == Some(n) {
          return true;
        }
        WritesStep(io0, q, n);
        io := io + [Write(Pack(head))];
        n := n + 1;
      }
      assert connected ==> q[..n] == q;
    }

    /** `sendQueue.shift()`: the front message leaves the queue and counts as taken. */
    method Shift() returns (head: seq<string>)
      requires QueueValid() && |sendQueue| > 0
      modifies this`sendQueue, this`taken
      ensures QueueValid() && head == old(sendQueue)[0] && sendQueue == old(sendQueue)[1..]
    {
      head := sendQueue[0];
      ShiftFront(taken, sendQueue);
      sendQueue := sendQueue[1..];
      taken := taken + [head];
    }

    /** `connect`: unless closed (or connecting), a new socket is opened with the timeout and keepalive settings. */
    method Connect()
      modifies this`connected, this`io
      ensures closed || connecting ==> connected == old(connected) && io == old(io)
      ensures !closed && !connecting ==> !connected && io == old(io) + [Open(host, port, TIMEOUT, KEEPALIVE)]
    {
      if closed || connecting {
        return;
      }
      connected := false;
      io := io + [Open(host, port, TIMEOUT, KEEPALIVE)];
    }

    /** The reconnect timer set by `onClose` fires and runs `connect`. */
    method ReconnectTimer()
      requires pendingReconnects > 0
      modifies this`pendingReconnects, this`connected, this`io
      ensures pendingReconnects == old(pendingReconnects) - 1
      ensures closed || connecting ==> connected == old(connected) && io == old(io)
      ensures !closed && !connecting ==> !connected && io == old(io) + [Open(host, port, TIMEOUT, KEEPALIVE)]
    {
      pendingReconnects := pendingReconnects - 1;
      Connect();
    }

    /**
     * `onConnect`: connected; `connect` then `reconnect` is emitted; the queue
     * is not flushed. A closed connection has destroyed its socket, which
     * emits no `connect`.
     */
    method OnConnect()
      requires Valid() && !closed
      modifies this`connected, this`connecting, this`events
      ensures Valid() && connected && !connecting
      ensures events == old(events) + [Event.Connect, Reconnect]
    {
      connected := true;
      connecting := false;
      events := events + [Event.Connect, Reconnect];
    }

    /**
     * `onData`. Ignored unless connected and not closed. Otherwise the raw
     * `data` event comes first, then each message the framing of the chunk
     * yields is handed to `onMsg` in order, and the framing state moves on
     * as `Receive` says: as `Frame` says when the call completes, kept or
     * consumed when `onMsg` throws, kept when line 192 throws.
     */
    method OnData(data: Bytes) returns (outcome: DataOutcome)
      requires Valid()
      modifies this`events, this`io, this`connected, this`lastBuffer, this`delivered, this`messages, this`intact
      ensures Valid()
      ensures !old(connected) || closed ==>
        && outcome == Completed && events == old(events) && io == old(io) && connected == old(connected)
        && lastBuffer == old(lastBuffer) && delivered == old(delivered) && messages == old(messages)
        && intact == old(intact)
      ensures old(connected) && !closed ==>
        var fr := Frame(old(lastBuffer), data);
        var b := Batch(Handler(parse), MessagesOf(fr));
        && events == old(events) + [Data(data)] + b.events
        && io == old(io) + b.calls
        && connected == (b.calls == [])
        && (outcome, lastBuffer) == Receive(Handler(parse), old(lastBuffer), data)
        && intact == (old(intact) && outcome == Completed)
        && delivered == old(delivered) + (if outcome == Completed then data else [])
        && messages == old(messages) + (if outcome == Completed then MessagesOf(fr) else [])
    {
      if !connected || closed {
        return Completed;
      }
      events := events + [Data(data)];
      outcome := Ingest(data);
    }

    /** `onData` past its guard and the `data` event: the loop, then the tail. */
    method Ingest(data: Bytes) returns (outcome: DataOutcome)
      requires Valid() && connected
      modifies this`events, this`io, this`connected, this`lastBuffer, this`delivered, this`messages, this`intact
      ensures Valid()
      ensures var fr := Frame(old(lastBuffer), data);
        var b := Batch(Handler(parse), MessagesOf(fr));
        && events == old(events) + b.events
        && io == old(io) + b.calls
        && connected == (b.calls == [])
        && (outcome, lastBuffer) == Receive(Handler(parse), old(lastBuffer), data)
        && intact == (old(intact) && outcome == Completed)
        && delivered == old(delivered) + (if outcome == Completed then data else [])
        && messages == old(messages) + (if outcome == Completed then MessagesOf(fr) else [])
    {
      ghost var tail0 := lastBuffer;
      var lastStart, threw;
      ghost var ms;
      lastStart, threw, ms := DeliverLines(data);
      if threw {
        Abandon(tail0);
        return ThrewOnMessage;
      }
      outcome := Settle(tail0, data, lastStart, ms);
      SettledEffects(Handler(parse), tail0, data, ms, outcome, lastBuffer, old(events), old(io), events, io, connected);
    }

    /** After a throw the stream is no longer intact; the tail was kept or consumed. */
    ghost method Abandon(tail0: Tail)
      requires !connecting && QueueValid() && Stream(delivered, messages, tail0, intact)
      requires lastBuffer == tail0 || lastBuffer == Consume(tail0)
      modifies this`intact
      ensures Valid() && !intact
    {
      StreamAbandon(delivered, messages, tail0, intact, lastBuffer != tail0);
      intact := false;
    }

    /**
     * `onData` once the loop handed every message on without a throw: the
     * rest of the chunk is held, and the call completes unless line 192
     * throws.
     */
    method Settle(ghost tail0: Tail, data: Bytes, lastStart: nat, ghost ms: seq<Bytes>) returns (outcome: DataOutcome)
      requires !connecting && QueueValid() && Stream(delivered, messages, tail0, intact)
      requires ScanState(lastStart, lastBuffer, ms) == Scan(tail0, data, |data|)
      modifies this`lastBuffer, this`delivered, this`messages, this`intact
      ensures Valid()
      ensures var fr := Frame(tail0, data);
        && (outcome == ThrewOnConcat <==> fr.Unframeable?) && outcome != ThrewOnMessage
        && (fr.Unframeable? ==> ms == [] && lastBuffer == tail0)
        && (fr.Framed? ==> fr.lines == ms && lastBuffer == fr.tail)
        && intact == (old(intact) && outcome == Completed)
        && delivered == old(delivered) + (if outcome == Completed then data else [])
        && messages == old(messages) + (if outcome == Completed then ms else [])
    {
      ScanFrames(tail0, data);
      ghost var fr := Frame(tail0, data);
      var held := HoldRest(data, lastStart);
      if !held {
        StreamAbandon(delivered, messages, tail0, intact, false);
        intact := false;
        return ThrewOnConcat;
      }
      assert fr == Framed(ms, lastBuffer);
      StreamFrame(delivered, messages, tail0, intact, data);
      delivered := delivered + data;
      messages := messages + ms;
      return Completed;
    }

    /**
     * The end of `onData` (lines 187-194): bytes after the last line feed
     * are held, on their own when a line feed was seen, behind the held
     * tail otherwise; with no tail held the concatenation throws.
     */
    method HoldRest(data: Bytes, lastStart: nat) returns (held: bool)
      requires lastStart <= |data|
      modifies this`lastBuffer
      ensures held == (lastStart == |data| || lastStart != 0 || old(lastBuffer).Held?)
      ensures lastBuffer ==
        if !held || lastStart == |data| then old(lastBuffer)
        else if lastStart != 0 then Held(data[lastStart..])
        else Held(old(lastBuffer).bytes + data)
    {
      var len := |data|;
      held := true;
      if lastStart != len {
        if lastStart != 0 {
          lastBuffer := Held(data[lastStart..len]);
          assert data[lastStart..len] == data[lastStart..];
        } else if lastBuffer.Held? {
          lastBuffer := Held(lastBuffer.bytes + data);
        } else {
          held := false;
        }
      }
    }

    /**
     * The loop of `onData` (lines 175-185): every line feed closes a message,
     * which goes to `onMsg`; the first message behind a held tail consumes
     * it. On a throw out of `onMsg` the loop is abandoned; otherwise the
     * loop ends where `Scan` says, with the messages of `ms` handled.
     */
    method DeliverLines(data: Bytes) returns (lastStart: nat, threw: bool, ghost ms: seq<Bytes>)
      requires connected
      modifies this`events, this`io, this`connected, this`lastBuffer
      ensures !threw ==>
        && ScanState(lastStart, lastBuffer, ms) == Scan(old(lastBuffer), data, |data|)
        && Logged(Handler(parse), ms, old(events), old(io), events, io, connected)
      ensures threw ==>
        var b := Batch(Handler(parse), MessagesOf(Frame(old(lastBuffer), data)));
        && events == old(events) + b.events && io == old(io) + b.calls && connected == (b.calls == [])
        && (ThrewOnMessage, lastBuffer) == Receive(Handler(parse), old(lastBuffer), data)
        && (lastBuffer == old(lastBuffer) || lastBuffer == Consume(old(lastBuffer)))
    {
      ghost var tail0, ev0, io0 := lastBuffer, events, io;
      ms := [];
      var len := |data|;
      lastStart := 0;
      var i := 0;
      LoggedStart(Handler(parse), ev0, io0);
      while i < len
        invariant i <= len == |data|
        invariant ScanState(lastStart, lastBuffer, ms) == Scan(tail0, data, i)
        invariant Logged(Handler(parse), ms, ev0, io0, events, io, connected)
      {
        if data[i] == MSGSEP {
          lastStart, threw, ms := DeliverLine(tail0, data, i, lastStart, ms, ev0, io0);
          if threw {
            return;
          }
        }
        i := i + 1;
      }
      threw := false;
    }

    /**
     * One pass of the loop's body at a line feed: the message it closes goes
     * to `onMsg`, and unless that throws the first message consumes the held tail.
     */
    method DeliverLine(ghost tail0: Tail, data: Bytes, i: nat, lastStart: nat, ghost ms: seq<Bytes>,
                       ghost ev0: seq<Event>, ghost io0: seq<SocketCall>)
      returns (lastStart': nat, threw: bool, ghost ms': seq<Bytes>)
      requires i < |data| && data[i] == MSGSEP
      requires ScanState(lastStart, lastBuffer, ms) == Scan(tail0, data, i)
      requires Logged(Handler(parse), ms, ev0, io0, events, io, connected)
      modifies this`events, this`io, this`connected, this`lastBuffer
      ensures !threw ==>
        && ScanState(lastStart', lastBuffer, ms') == Scan(tail0, data, i + 1)
        && Logged(Handler(parse), ms', ev0, io0, events, io, connected)
      ensures threw ==>
        var b := Batch(Handler(parse), MessagesOf(Frame(tail0, data)));
        && events == ev0 + b.events && io == io0 + b.calls && connected == (b.calls == [])
        && (ThrewOnMessage, lastBuffer) == Receive(Handler(parse), tail0, data)
        && (lastBuffer == tail0 || lastBuffer == Consume(tail0))
    {
      ghost var s := ScanState(lastStart, lastBuffer, ms);
      var joined := lastStart == 0 && lastBuffer.Held?;
      var msg := if joined then lastBuffer.bytes + data[..i] else data[lastStart..i];
      assert joined == Joins(s) && msg == LineAt(data, s, i);
      ScanAtLine(tail0, data, i, s);
      ghost var ev1, io1, c1 := events, io, connected;
      threw := OnLine(msg);
      LoggedStep(Handler(parse), ms, msg, ev0, io0, ev1, io1, c1, events, io, connected);
      ms' := ms + [msg];
      lastStart' := i + 1;
      if threw {
        LineThrew(Handler(parse), tail0, data, i, s, msg, ev0, io0, events, io, connected);
        return;
      }
      if joined {
        lastBuffer := Consumed;
      }
    }

    /** `onMsg` on the decoded text of one line, as `Handler` states it. */
    method OnLine(line: Bytes) returns (threw: bool)
      modifies this`events, this`io, this`connected
      ensures var h := Handler(parse)(line);
        && events == old(events) + h.events && io == old(io) + h.calls
        && connected == (old(connected) && h.calls == []) && threw == h.threw
    {
      threw := OnMsg(Decode(line));
    }

    /**
     * `onMsg`: a message whose second character is not a comma is reported;
     * a known code is parsed and emitted with its values; an unknown code is
     * emitted with the text after the comma. `threw` is a throw out of
     * `parseCmd`.
     */
    method OnMsg(str: string) returns (threw: bool)
      modifies this`events, this`io, this`connected
      ensures var h := Handling(parse, str);
        && events == old(events) + h.events && io == old(io) + h.calls
        && connected == (old(connected) && h.calls == []) && threw == h.threw
    {
      if |str| < 2 || str[1] != ARGSEP {
        OnMsgError(LongCommand, str);
        return false;
      } else if str[0] in Parsers {
        var data := ParseCmd(str[0], str);
        if data.None? {
          return true;
        }
        events := events + [Cmd(str[0], data.value)];
      } else {
        events := events + [Cmd(str[0], [Str(str[2..])])];
      }
      return false;
    }

    /** `parseCmd`: the type list of the code, walked by `ParseArgs`. */
    method ParseCmd(cmd: char, str: string) returns (data: Option<seq<Value>>)
      requires |str| >= 2 && cmd in Parsers
      modifies this`events, this`io, this`connected
      ensures var p := ParseFields(parse, Split(str[2..], ARGSEP), Parsers[cmd], 0);
        && data == p.values
        && events == old(events) + FaultEvents(p.faults, str) && io == old(io) + Destroys(|p.faults|)
        && connected == (old(connected) && p.faults == [])
    {
      data := ParseArgs(Parsers[cmd], str);
    }

    /**
     * The loop of `parseCmd` over the type list `parser`: `strStart` and
     * `strEnd` (0 stands for the initial `undefined`) walk the message,
     * a numeric field wanted after the last comma and a field that is NaN
     * are reported, the latter ending in a throw (`None`). The values and
     * the reports are those `ParseFields` gives.
     */
    method ParseArgs(parser: seq<Tag>, str: string) returns (data: Option<seq<Value>>)
      requires |str| >= 2
      modifies this`events, this`io, this`connected
      ensures var p := ParseFields(parse, Split(str[2..], ARGSEP), parser, 0);
        data == p.values && Reported(old(events), old(io), old(connected), p.faults, str)
    {
      ghost var segs := Split(str[2..], ARGSEP);
      ghost var goal := ParseFields(parse, segs, parser, 0);
      WalkStart(parse, str, parser);
      data := ParseLoop(segs, goal, parser, str, events, io, connected);
    }

    /** The loop itself, against the walk towards `goal`. */
    method ParseLoop(ghost segs: seq<string>, ghost goal: Parsed, parser: seq<Tag>, str: string,
                     ghost ev0: seq<Event>, ghost io0: seq<SocketCall>, ghost c0: bool)
      returns (data: Option<seq<Value>>)
      requires Walked(segs, goal, parser, str, 0, 2, 0, [], [], ev0, io0, c0)
      modifies this`events, this`io, this`connected
      ensures data == goal.values && Reported(ev0, io0, c0, goal.faults, str)
    {
      ghost var faults: seq<Fault> := [];
      var values: seq<Value> := [];
      var strStart: nat := 2;
      var strEnd := 0;
      var pi := 0;
      while pi < |parser|
        invariant Walked(segs, goal, parser, str, pi, strStart, strEnd, faults, values, ev0, io0, c0)
        decreases |parser| - pi
      {
        if parser[pi] == S {
          WalkRest(parse, str, segs, parser, goal, pi, strStart, strEnd, faults, values);
          return Some(values + [Str(str[strStart..])]);
        }
        var x;
        x, strStart, strEnd, faults := ParseStep(segs, goal, parser, str, pi, strStart, strEnd, faults, values, ev0, io0, c0);
        if x.None? {
          return None;
        }
        values := values + [Num(x.value)];
        pi := pi + 1;
      }
      WalkDone(parse, str, segs, parser, goal, pi, strStart, strEnd, faults, values);
      return Some(values);
    }

    /**
     * One numeric field of the loop of `parseCmd` against the reference:
     * the field's faults join those reported so far, and either the parse
     * ends in a throw or the loop moves to the next field with the value.
     */
    method ParseStep(ghost segs: seq<string>, ghost goal: Parsed, parser: seq<Tag>, str: string, pi: nat,
                     strStart: nat, strEnd: int, ghost faults: seq<Fault>, ghost values: seq<Value>,
                     ghost ev0: seq<Event>, ghost io0: seq<SocketCall>, ghost c0: bool)
      returns (x: Option<Number>, next: nat, e: int, ghost faults': seq<Fault>)
      requires Walked(segs, goal, parser, str, pi, strStart, strEnd, faults, values, ev0, io0, c0)
      requires pi < |parser| && parser[pi] != S
      modifies this`events, this`io, this`connected
      ensures x.None? ==> goal == Parsed(faults', None) && Reported(ev0, io0, c0, faults', str)
      ensures x.Some? ==> Walked(segs, goal, parser, str, pi + 1, next, e, faults', values + [Num(x.value)], ev0, io0, c0)
    {
      ghost var ev1, io1 := events, io;
      x, next, e := ParseField(parser[pi], str, strStart, strEnd);
      ReportsAppend(ev0, ev1, events, io0, io1, io, faults, FieldFaults(strEnd == -1, x), str);
      WalkField(parse, str, segs, parser, goal, pi, strStart, strEnd, faults, values, next, e, x);
      faults' := faults + FieldFaults(strEnd == -1, x);
    }

    /**
     * One numeric field of the loop of `parseCmd`, from `strStart` with the
     * previous `strEnd`: reported first when the last comma was already
     * passed, then read up to the next comma (or to the end), converted,
     * and reported when NaN. `next` and `e` are the new `strStart` and
     * `strEnd`.
     */
    method ParseField(tag: Tag, str: string, strStart: nat, strEnd: int) returns (x: Option<Number>, next: nat, e: int)
      requires tag != S && strStart <= |str|
      modifies this`events, this`io, this`connected
      ensures e == IndexOf(str, ARGSEP, strStart) && next == (if e == -1 then strStart else e + 1) && next <= |str|
      ensures x == parse(tag, if e == -1 then str[strStart..] else str[strStart..e])
      ensures Reported(old(events), old(io), old(connected), FieldFaults(strEnd == -1, x), str)
    {
      ghost var ev0, io0, c0 := events, io, connected;
      ghost var fs: seq<Fault> := [];
      assert Reported(ev0, io0, c0, fs, str);
      if strEnd == -1 {
        ghost var ev1, io1 := events, io;
        OnMsgError(AfterLastComma, str);
        ReportsSnoc(ev0, ev1, events, io0, io1, io, fs, AfterLastComma, str);
        fs := fs + [AfterLastComma];
        assert Reported(ev0, io0, c0, fs, str);
      }
      e := IndexOf(str, ARGSEP, strStart);
      var arg: string;
      if e == -1 {
        arg := str[strStart..];
        next := strStart;
      } else {
        arg := str[strStart..e];
        next := e + 1;
      }
      x := parse(tag, arg);
      if x.None? {
        ghost var ev1, io1 := events, io;
        OnMsgError(NotANumber, str);
        ReportsSnoc(ev0, ev1, events, io0, io1, io, fs, NotANumber, str);
        fs := fs + [NotANumber];
        assert Reported(ev0, io0, c0, fs, str);
      }
      assert fs == FieldFaults(strEnd == -1, x);
    }

    /** The loop of `parseCmd` is where `Walking` says, and its faults so far are reported. */
    ghost predicate Walked(segs: seq<string>, goal: Parsed, parser: seq<Tag>, str: string, pi: nat, strStart: nat, strEnd: int,
                           faults: seq<Fault>, values: seq<Value>, ev0: seq<Event>, io0: seq<SocketCall>, c0: bool)
      reads this`events, this`io, this`connected
    {
      Walking(parse, str, segs, parser, goal, pi, strStart, strEnd, faults, values) && Reported(ev0, io0, c0, faults, str)
    }

    /** Since `ev0`, `io0` and `c0`, exactly the `faults` have been reported through `onMsgError`. */
    ghost predicate Reported(ev0: seq<Event>, io0: seq<SocketCall>, c0: bool, faults: seq<Fault>, str: string)
      reads this`events, this`io, this`connected
    {
      events == ev0 + FaultEvents(faults, str) && io == io0 + Destroys(|faults|) && connected == (c0 && faults == [])
    }

    /** `onMsgError`: the fault is reported through `onError`. */
    method OnMsgError(fault: Fault, str: string)
      modifies this`events, this`io, this`connected
      ensures !connected && events == old(events) + [Error(ParseFailure(fault, str))] && io == old(io) + [Destroy]
    {
      OnError(ParseFailure(fault, str));
    }

    /** `onDrain`: re-emitted as `drain`. */
    method OnDrain()
      modifies this`events
      ensures events == old(events) + [Drain]
    {
      events := events + [Drain];
    }

    /** `onEnd`: disconnected; `end` is emitted. */
    method OnEnd()
      modifies this`connected, this`events
      ensures !connected && events == old(events) + [End]
    {
      connected := false;
      events := events + [End];
    }

    /** `onClose`: disconnected; `close` is emitted; a reconnect is scheduled exactly when not closed. */
    method OnClose()
      modifies this`connected, this`events, this`pendingReconnects
      ensures !connected && events == old(events) + [Event.Close]
      ensures pendingReconnects == old(pendingReconnects) + (if closed then 0 else 1)
    {
      connected := false;
      events := events + [Event.Close];
      if !closed {
        pendingReconnects := pendingReconnects + 1;
      }
    }

    /** `onTimeout`: disconnected; `timeout` is emitted and the socket destroyed. */
    method OnTimeout()
      modifies this`connected, this`events, this`io
      ensures !connected && events == old(events) + [Timeout] && io == old(io) + [Destroy]
    {
      connected := false;
      events := events + [Timeout];
      io := io + [Destroy];
    }

    /** `onError`: disconnected; `error` is emitted and the socket destroyed. */
    method OnError(info: ErrorInfo)
      modifies this`connected, this`events, this`io
      ensures !connected && events == old(events) + [Error(info)] && io == old(io) + [Destroy]
    {
      connected := false;
      events := events + [Error(info)];
      io := io + [Destroy];
    }

    /** The keepalive interval's `sendVersion`: the version message is queued only while connected. */
    method SendVersion()
      requires Valid()
      modifies this`sendQueue, this`sent, this`pendingTicks
      ensures Valid()
      ensures connected ==>
        && sendQueue == old(sendQueue) + [["V", VERSION]] && sent == old(sent) + [["V", VERSION]]
        && pendingTicks == old(pendingTicks) + 1
      ensures !connected ==> sendQueue == old(sendQueue) && sent == old(sent) && pendingTicks == old(pendingTicks)
    {
      if connected {
        Send(["V", VERSION]);
      }
    }
  }
}
