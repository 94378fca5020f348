/**
 * Stream framing (`onData`, connection.js lines 164-195): a chunk of bytes is
 * cut at every line feed; the bytes after the last line feed are carried in
 * `lastBuffer` and prefixed to the first message of a later chunk.
 */
module Framing {
  import opened Wrappers
  import opened Sequences
  import opened Protocol

  /** `lastBuffer`: `undefined` at first, a held tail, or `false` once a held tail was used. */
  datatype Tail = Unset | Held(bytes: Bytes) | Consumed

  /** The bytes a tail stands for; `undefined` and `false` hold none. */
  function TailBytes(t: Tail): Bytes {
    if t.Held? then t.bytes else []
  }

  /** The tail after its bytes went into a message: a held tail becomes `false`. */
  function Consume(t: Tail): Tail {
    if t.Held? then Consumed else t
  }

  /** One call's outcome: the complete messages in order and the new tail, or the throw at line 192. */
  datatype FrameResult = Framed(lines: seq<Bytes>, tail: Tail) | Unframeable

  /**
   * Reference definition of one `onData` call on the framing state. The
   * chunk is split at line feeds and `Cut` decides, from the pieces, what
   * is a message and what is held.
   */
  function Frame(tail: Tail, data: Bytes): (r: FrameResult)
    ensures MSGSEP in data ==> r.Framed? && r.lines != []
  {
    SplitCountsSep(data, MSGSEP);
    Cut(tail, Split(data, MSGSEP))
  }

  /**
   * The held tail is prefixed to the first piece; every piece but the last
   * is a message; a non-empty last piece is the new tail, while an empty one
   * leaves `lastBuffer` as the first message left it. A single piece (a chunk
   * without a line feed) is appended to a held tail; with no tail held,
   * `Buffer.concat` at line 192 is given `undefined` or `false` and throws.
   */
  function Cut(tail: Tail, pieces: seq<Bytes>): FrameResult
    requires |pieces| >= 1
  {
    var n := |pieces|;
    if n > 1 then
      Framed(Complete(tail, pieces),
             if pieces[n - 1] != [] then Held(pieces[n - 1]) else Consume(tail))
    else if pieces[0] == [] then Framed([], tail)
    else if tail.Held? then Framed([], Held(tail.bytes + pieces[0]))
    else Unframeable
  }

  /** The pieces closed by a line feed, the first one behind the held tail. */
  function Complete(tail: Tail, pieces: seq<Bytes>): seq<Bytes>
    requires |pieces| >= 2
  {
    [TailBytes(tail) + pieces[0]] + pieces[1..|pieces| - 1]
  }

  /** The messages closed within a prefix of the pieces come first among those of all the pieces. */
  lemma CompletePrefix(tail: Tail, p: seq<Bytes>, q: seq<Bytes>)
    requires |p| >= 1 && |q| >= 1
    ensures Complete(tail, p + q) == Complete(tail, p + [[]]) + q[..|q| - 1]
  {
    assert (p + q)[0] == p[0] && (p + [[]])[0] == p[0];
    assert (p + q)[1..|p + q| - 1] == p[1..] + q[..|q| - 1];
    assert (p + [[]])[1..|p|] == p[1..];
  }

  /** The bytes of a sequence of messages, each followed by its line feed. */
  function Lines(ms: seq<Bytes>): Bytes
    decreases |ms|
  {
    if ms == [] then [] else Lines(ms[..|ms| - 1]) + ms[|ms| - 1] + [MSGSEP]
  }

  lemma {:induction false} LinesAppend(a: seq<Bytes>, b: seq<Bytes>)
    ensures Lines(a + b) == Lines(a) + Lines(b)
    decreases |b|
  {
    if b != [] {
      var b' := b[..|b| - 1];
      assert (a + b)[..|a + b| - 1] == a + b';
      assert (a + b)[|a + b| - 1] == b[|b| - 1];
      LinesAppend(a, b');
      assert Lines(b) == Lines(b') + b[|b| - 1] + [MSGSEP];
    } else {
      assert a + b == a;
    }
  }

  lemma {:induction false} LinesJoin(p: seq<Bytes>)
    requires |p| >= 1
    ensures Lines(p[..|p| - 1]) + p[|p| - 1] == Join(p, MSGSEP)
    decreases |p|
  {
    var n := |p|;
    if n > 1 {
      LinesJoin(p[..n - 1]);
      assert p[..n - 1][..n - 2] == p[..n - 2];
    }
  }

  /** Prefixing the held tail to the first message prefixes it to the bytes of all of them. */
  lemma LinesPrefix(x: Bytes, y: Bytes, rest: seq<Bytes>)
    ensures Lines([x + y] + rest) == x + Lines([y] + rest)
  {
    LinesAppend([x + y], rest);
    LinesAppend([y], rest);
  }

  /**
   * Framing loses and invents nothing: the messages, each with its line
   * feed, followed by the new tail are the old tail followed by the chunk.
   */
  lemma FrameReassembles(tail: Tail, data: Bytes)
    requires Frame(tail, data).Framed?
    ensures var r := Frame(tail, data);
      Lines(r.lines) + TailBytes(r.tail) == TailBytes(tail) + data
  {
    var p := Split(data, MSGSEP);
    var n := |p|;
    JoinSplit(data, MSGSEP);
    if n > 1 {
      LinesJoin(p);
      LinesPrefix(TailBytes(tail), p[0], p[1..n - 1]);
      assert [p[0]] + p[1..n - 1] == p[..n - 1];
    } else {
      assert data == p[0];
    }
  }

  /** If the old tail holds no line feed, no message and no new tail holds one. */
  lemma FrameLinesClean(tail: Tail, data: Bytes)
    requires MSGSEP !in TailBytes(tail)
    requires Frame(tail, data).Framed?
    ensures var r := Frame(tail, data);
      (forall k :: 0 <= k < |r.lines| ==> MSGSEP !in r.lines[k]) && MSGSEP !in TailBytes(r.tail)
  {
    SplitFree(data, MSGSEP);
  }

  /** The throw at line 192 happens exactly for a non-empty chunk without a line feed when no tail is held. */
  lemma FrameFailure(tail: Tail, data: Bytes)
    ensures Frame(tail, data).Unframeable? <==> data != [] && MSGSEP !in data && !tail.Held?
  {
    SplitCountsSep(data, MSGSEP);
    JoinSplit(data, MSGSEP);
  }

  /**
   * Chunking independence: when two consecutive deliveries are both framed
   * without a throw, one delivery of their concatenation yields the same
   * messages and holds the same tail bytes.
   */
  lemma ChunkingIndependence(tail: Tail, a: Bytes, b: Bytes)
    requires Frame(tail, a).Framed?
    requires Frame(Frame(tail, a).tail, b).Framed?
    ensures var ra := Frame(tail, a);
      var rb := Frame(ra.tail, b);
      var r := Frame(tail, a + b);
      r.Framed? && r.lines == ra.lines + rb.lines && TailBytes(r.tail) == TailBytes(rb.tail)
  {
    SplitConcat(a, b, MSGSEP);
    CutFuse(tail, Split(a, MSGSEP), Split(b, MSGSEP));
  }

  /** The chunks of a stream, one after the other. */
  function Flatten(chunks: seq<Bytes>): Bytes
    decreases |chunks|
  {
    if chunks == [] then [] else chunks[0] + Flatten(chunks[1..])
  }

  /**
   * `onData` called on each chunk in turn: the messages of all the calls and
   * the tail left by the last one, or `None` when some call throws at line 192.
   */
  function FrameEach(tail: Tail, chunks: seq<Bytes>): Option<(seq<Bytes>, Tail)>
    decreases |chunks|
  {
    if chunks == [] then Some(([], tail))
    else
      var r := Frame(tail, chunks[0]);
      if r.Unframeable? then None
      else match FrameEach(r.tail, chunks[1..])
        case None => None
        case Some(rest) => Some((r.lines + rest.0, rest.1))
  }

  /**
   * Chunking independence for any number of chunks: when every call frames
   * its chunk, one call on all the bytes at once yields the same messages
   * and holds the same tail bytes.
   */
  lemma {:induction false} ChunkingIndependenceEach(tail: Tail, chunks: seq<Bytes>)
    requires FrameEach(tail, chunks).Some?
    ensures var r, each := Frame(tail, Flatten(chunks)), FrameEach(tail, chunks).value;
      r.Framed? && r.lines == each.0 && TailBytes(r.tail) == TailBytes(each.1)
    decreases |chunks|
  {
    if chunks == [] {
      assert Split<Byte>([], MSGSEP) == [[]];
    } else {
      var ra := Frame(tail, chunks[0]);
      ChunkingIndependenceEach(ra.tail, chunks[1..]);
      ChunkingIndependence(tail, chunks[0], Flatten(chunks[1..]));
    }
  }

  /** `ChunkingIndependence` on pieces: cutting fused pieces is cutting the two halves in turn. */
  lemma CutFuse(tail: Tail, pa: seq<Bytes>, pb: seq<Bytes>)
    requires |pa| >= 1 && |pb| >= 1
    requires Cut(tail, pa).Framed? && Cut(Cut(tail, pa).tail, pb).Framed?
    ensures var ra := Cut(tail, pa);
      var rb := Cut(ra.tail, pb);
      var r := Cut(tail, Fuse(pa, pb));
      r.Framed? && r.lines == ra.lines + rb.lines && TailBytes(r.tail) == TailBytes(rb.tail)
  {
    if |pa| > 1 {
      CutFuseClosed(tail, pa, pb);
    } else {
      CutFuseOpen(tail, pa, pb);
    }
  }

  lemma CutFuseClosed(tail: Tail, pa: seq<Bytes>, pb: seq<Bytes>)
    requires |pa| > 1 && |pb| >= 1
    requires Cut(Cut(tail, pa).tail, pb).Framed?
    ensures var ra := Cut(tail, pa);
      var rb := Cut(ra.tail, pb);
      var r := Cut(tail, Fuse(pa, pb));
      r.Framed? && r.lines == ra.lines + rb.lines && TailBytes(r.tail) == TailBytes(rb.tail)
  {
    var n, m := |pa|, |pb|;
    var p := Fuse(pa, pb);
    var ra := Cut(tail, pa);
    assert TailBytes(ra.tail) == pa[n - 1];
    assert p[0] == pa[0];
    if m > 1 {
      Interior(pa[..n - 1], pa[n - 1] + pb[0], pb[1..]);
      assert pa[..n - 1][1..] == pa[1..n - 1];
      assert pb[1..][..m - 2] == pb[1..m - 1];
      assert p[|p| - 1] == pb[m - 1];
    } else if pb[0] == [] {
      assert pa[n - 1] + pb[0] == pa[n - 1];
      assert p == pa;
    } else {
      assert p == pa[..n - 1] + [pa[n - 1] + pb[0]];
      assert p[1..|p| - 1] == pa[1..n - 1];
    }
  }

  lemma CutFuseOpen(tail: Tail, pa: seq<Bytes>, pb: seq<Bytes>)
    requires |pa| == 1 && |pb| >= 1
    requires Cut(tail, pa).Framed? && Cut(Cut(tail, pa).tail, pb).Framed?
    ensures var ra := Cut(tail, pa);
      var rb := Cut(ra.tail, pb);
      var r := Cut(tail, Fuse(pa, pb));
      r.Framed? && r.lines == ra.lines + rb.lines && TailBytes(r.tail) == TailBytes(rb.tail)
  {
    var m := |pb|;
    var p := Fuse(pa, pb);
    if pa[0] == [] {
      assert [] + pb[0] == pb[0];
      assert [pb[0]] + pb[1..] == pb;
      assert p == pb;
    } else {
      assert p == [pa[0] + pb[0]] + pb[1..];
      if m > 1 {
        assert TailBytes(tail) + (pa[0] + pb[0]) == (tail.bytes + pa[0]) + pb[0];
        assert p[1..|p| - 1] == pb[1..m - 1];
      } else if pb[0] != [] {
        assert (tail.bytes + pa[0]) + pb[0] == tail.bytes + (pa[0] + pb[0]);
      }
    }
  }

  lemma Interior<T>(x: seq<T>, y: T, z: seq<T>)
    requires |x| >= 1 && |z| >= 1
    ensures var p := x + [y] + z; p[1..|p| - 1] == x[1..] + [y] + z[..|z| - 1]
  {
  }

  /**
   * `pack` and framing agree: fields free of commas and line feeds, in 7-bit
   * ASCII, are framed from their packed bytes, with no tail held, as exactly
   * one message whose comma-separated segments are the fields again.
   */
  lemma PackFrames(tail: Tail, msg: seq<string>)
    requires |msg| >= 1
    requires forall k :: 0 <= k < |msg| ==> IsAscii(msg[k]) && ARGSEP !in msg[k] && ENDMSG !in msg[k]
    requires !tail.Held?
    ensures var text := Join(msg, ARGSEP);
      Frame(tail, Pack(msg)) == Framed([Encode(text)], tail) &&
      Split(Decode(Encode(text)), ARGSEP) == msg
  {
    var text := Join(msg, ARGSEP);
    JoinedFieldsClean(msg);
    DecodeEncode(text);
    var e := Encode(text);
    DecodeDelimiter(e);
    assert MSGSEP !in e;
    PackBytes(msg);
    var packed := Pack(msg);
    SplitSnoc(e, MSGSEP, MSGSEP);
    SplitNoSep(e, MSGSEP);
    var pieces := Split(packed, MSGSEP);
    assert pieces == [e, []];
    assert Frame(tail, packed) == Cut(tail, pieces);
    CutOneLine(tail, e);
    SplitJoin(msg, ARGSEP);
  }

  /** Joining 7-bit fields free of line feeds with commas gives 7-bit text free of line feeds. */
  lemma JoinedFieldsClean(msg: seq<string>)
    requires forall k :: 0 <= k < |msg| ==> IsAscii(msg[k]) && ENDMSG !in msg[k]
    ensures IsAscii(Join(msg, ARGSEP)) && ENDMSG !in Join(msg, ARGSEP)
  {
    var text := Join(msg, ARGSEP);
    forall k | 0 <= k < |text|
      ensures text[k] as int < 128 && text[k] != ENDMSG
    {
      var c := text[k];
      JoinMembers(msg, ARGSEP, c);
      if c != ARGSEP {
        var i :| 0 <= i < |msg| && c in msg[i];
        var j :| 0 <= j < |msg[i]| && msg[i][j] == c;
      }
    }
  }

  lemma CutOneLine(tail: Tail, e: Bytes)
    requires !tail.Held?
    ensures Cut(tail, [e, []]) == Framed([e], tail)
  {
    assert TailBytes(tail) + e == e;
  }

  /**
   * The framing invariant of a connection: no message cut so far and no
   * held tail contains a line feed, and while no `onData` call has thrown
   * (`intact`), the messages, each with its line feed, followed by the
   * held tail are exactly the bytes accepted so far.
   */
  ghost predicate Stream(delivered: Bytes, messages: seq<Bytes>, tail: Tail, intact: bool) {
    && MSGSEP !in TailBytes(tail)
    && (forall k :: 0 <= k < |messages| ==> MSGSEP !in messages[k])
    && (intact ==> delivered == Lines(messages) + TailBytes(tail))
  }

  /** Nothing delivered yet: no messages and no tail. */
  lemma StreamStart()
    ensures Stream([], [], Unset, true)
  {
  }

  /** An `onData` call that frames its chunk keeps the framing invariant, with the chunk delivered. */
  lemma StreamFrame(delivered: Bytes, messages: seq<Bytes>, tail: Tail, intact: bool, data: Bytes)
    requires Stream(delivered, messages, tail, intact)
    requires Frame(tail, data).Framed?
    ensures var r := Frame(tail, data);
      Stream(delivered + data, messages + r.lines, r.tail, intact)
  {
    var r := Frame(tail, data);
    FrameLinesClean(tail, data);
    if intact {
      FrameReassembles(tail, data);
    }
    StreamExtend(delivered, messages, tail, intact, data, r.lines, r.tail);
  }

  /** The framing invariant carried over messages `lines` and a new tail that together stand for the chunk. */
  lemma StreamExtend(delivered: Bytes, messages: seq<Bytes>, tail: Tail, intact: bool, data: Bytes,
                     lines: seq<Bytes>, tail': Tail)
    requires Stream(delivered, messages, tail, intact)
    requires (forall k :: 0 <= k < |lines| ==> MSGSEP !in lines[k]) && MSGSEP !in TailBytes(tail')
    requires intact ==> Lines(lines) + TailBytes(tail') == TailBytes(tail) + data
    ensures Stream(delivered + data, messages + lines, tail', intact)
  {
    var ms := messages + lines;
    forall k | 0 <= k < |ms|
      ensures MSGSEP !in ms[k]
    {
      if k >= |messages| {
        assert ms[k] == lines[k - |messages|];
      }
    }
    if intact {
      var before, added, t, t' := Lines(messages), Lines(lines), TailBytes(tail), TailBytes(tail');
      LinesAppend(messages, lines);
      calc {
        Lines(ms) + t';
        (before + added) + t';
        { Associative(before, added, t'); }
        before + (added + t');
        before + (t + data);
        { Associative(before, t, data); }
        (before + t) + data;
        delivered + data;
      }
    }
  }

  /** After a throw the tail is kept or consumed; the invariant holds again, no longer intact. */
  lemma StreamAbandon(delivered: Bytes, messages: seq<Bytes>, tail: Tail, intact: bool, consumed: bool)
    requires Stream(delivered, messages, tail, intact)
    ensures Stream(delivered, messages, if consumed then Consume(tail) else tail, false)
  {
  }

  /** The messages a framing result hands on; none when it throws. */
  function MessagesOf(r: FrameResult): seq<Bytes> {
    if r.Framed? then r.lines else []
  }

  /** One more byte of the chunk: a line feed opens a new piece, any other byte extends the last one. */
  lemma PiecesStep(data: Bytes, i: nat)
    requires i < |data|
    ensures var p := Split(data[..i], MSGSEP);
      Split(data[..i + 1], MSGSEP) ==
        if data[i] == MSGSEP then p + [[]] else p[..|p| - 1] + [p[|p| - 1] + [data[i]]]
  {
    assert data[..i + 1] == data[..i] + [data[i]];
    SplitSnoc(data[..i], data[i], MSGSEP);
  }

  /** A line feed closes the last piece: the first behind the held tail, any later one on its own. */
  lemma CompleteSnoc(tail: Tail, p: seq<Bytes>)
    requires |p| >= 1
    ensures Complete(tail, p + [[]]) ==
      (if |p| > 1 then Complete(tail, p) else []) + [if |p| == 1 then TailBytes(tail) + p[0] else p[|p| - 1]]
  {
    var q := p + [[]];
    assert q[0] == p[0];
    assert q[1..|q| - 1] == p[1..];
    if |p| > 1 {
      assert p[1..] == p[1..|p| - 1] + [p[|p| - 1]];
    }
  }

  /** Extending the open last piece closes no message. */
  lemma CompleteExtend(tail: Tail, p: seq<Bytes>, x: Byte)
    requires |p| > 1
    ensures Complete(tail, p[..|p| - 1] + [p[|p| - 1] + [x]]) == Complete(tail, p)
  {
    var q := p[..|p| - 1] + [p[|p| - 1] + [x]];
    assert q[0] == p[0];
    assert q[1..|q| - 1] == p[1..|p| - 1];
  }

  /** The messages closed by the line feed at `i` come first among the messages of the whole chunk. */
  lemma FramePrefix(tail: Tail, data: Bytes, i: nat)
    requires i < |data| && data[i] == MSGSEP
    ensures var q := Split(data[i + 1..], MSGSEP);
      Frame(tail, data).Framed? &&
      Frame(tail, data).lines == Complete(tail, Split(data[..i + 1], MSGSEP)) + q[..|q| - 1]
  {
    assert data == data[..i] + [MSGSEP] + data[i + 1..];
    SplitAtSep(data[..i], data[i + 1..], MSGSEP);
    PiecesStep(data, i);
    CompletePrefix(tail, Split(data[..i], MSGSEP), Split(data[i + 1..], MSGSEP));
  }

  /**
   * The state of the loop of `onData` before byte `i` of the chunk, against
   * the pieces of the part scanned so far: `lastStart` is 0 exactly while no
   * line feed was seen, and otherwise where the open piece starts;
   * `ms` are the messages handed on so far, the pieces closed by a line
   * feed; and the framing state `buf` is the old tail until a message
   * consumed it.
   */
  ghost predicate Scanning(tail0: Tail, data: Bytes, i: nat, lastStart: nat, buf: Tail, ms: seq<Bytes>) {
    && lastStart <= i <= |data|
    && (var p := Split(data[..i], MSGSEP);
        && (|p| == 1 <==> lastStart == 0)
        && p[|p| - 1] == data[lastStart..i]
        && ms == (if |p| > 1 then Complete(tail0, p) else []))
    && buf == (if lastStart == 0 then tail0 else Consume(tail0))
  }

  /** Nothing scanned yet. */
  lemma ScanStart(tail0: Tail, data: Bytes)
    ensures Scanning(tail0, data, 0, 0, tail0, [])
  {
    assert data[..0] == [];
  }

  /** A byte other than a line feed extends the open piece. */
  lemma ScanByte(tail0: Tail, data: Bytes, i: nat, lastStart: nat, buf: Tail, ms: seq<Bytes>)
    requires Scanning(tail0, data, i, lastStart, buf, ms)
    requires i < |data| && data[i] != MSGSEP
    ensures Scanning(tail0, data, i + 1, lastStart, buf, ms)
  {
    var p := Split(data[..i], MSGSEP);
    PiecesStep(data, i);
    if |p| > 1 {
      CompleteExtend(tail0, p, data[i]);
    }
    assert data[lastStart..i + 1] == data[lastStart..i] + [data[i]];
  }

  /**
   * A line feed at `i` closes the message `msg` the loop builds: the old
   * tail's bytes and the chunk so far when no line feed came before and a
   * tail is held, the open piece otherwise. The held tail is then consumed.
   */
  lemma ScanLine(tail0: Tail, data: Bytes, i: nat, lastStart: nat, buf: Tail, ms: seq<Bytes>, msg: Bytes,
                 buf': Tail, ms': seq<Bytes>)
    requires Scanning(tail0, data, i, lastStart, buf, ms)
    requires i < |data| && data[i] == MSGSEP
    requires msg == if lastStart == 0 && buf.Held? then buf.bytes + data[..i] else data[lastStart..i]
    requires buf' == (if lastStart == 0 && buf.Held? then Consumed else buf) && ms' == ms + [msg]
    ensures Scanning(tail0, data, i + 1, i + 1, buf', ms')
    ensures (ms == [] <==> lastStart == 0)
    ensures Complete(tail0, Split(data[..i + 1], MSGSEP)) == ms'
  {
    var p := Split(data[..i], MSGSEP);
    PiecesStep(data, i);
    CompleteSnoc(tail0, p);
    if |p| == 1 {
      assert data[0..i] == data[..i];
      assert TailBytes(tail0) + p[0] == msg;
    } else {
      assert p[|p| - 1] == msg;
    }
    assert data[i + 1..i + 1] == [];
  }

  /** The messages closed up to the line feed at `i` come first among the chunk's messages. */
  lemma ScanLineFrame(tail0: Tail, data: Bytes, i: nat, done: seq<Bytes>)
    requires i < |data| && data[i] == MSGSEP
    requires Complete(tail0, Split(data[..i + 1], MSGSEP)) == done
    ensures Frame(tail0, data).Framed?
    ensures var lines := Frame(tail0, data).lines;
      |done| <= |lines| && lines == done + lines[|done|..]
  {
    FramePrefix(tail0, data, i);
    var q := Split(data[i + 1..], MSGSEP);
    assert Frame(tail0, data).lines[|done|..] == q[..|q| - 1];
  }

  /**
   * The end of the chunk: with no line feed in a non-empty chunk and no
   * tail held, the framing throws; otherwise the messages handed on are
   * the chunk's, and the new tail is the state left, the open piece, or
   * the held tail extended by the whole chunk.
   */
  lemma ScanEnd(tail0: Tail, data: Bytes, lastStart: nat, buf: Tail, ms: seq<Bytes>)
    requires Scanning(tail0, data, |data|, lastStart, buf, ms)
    ensures lastStart == 0 && |data| != 0 && !buf.Held? ==> Frame(tail0, data).Unframeable? && ms == []
    ensures !(lastStart == 0 && |data| != 0 && !buf.Held?) ==>
      Frame(tail0, data) == Framed(ms,
        if lastStart == |data| then buf
        else if lastStart != 0 then Held(data[lastStart..])
        else Held(buf.bytes + data))
  {
    assert data[..|data|] == data;
  }

  /** Where the loop of `onData` stands: `lastStart`, the framing state, and the messages handed on. */
  datatype ScanState = ScanState(lastStart: nat, buf: Tail, ms: seq<Bytes>)

  /** Whether the line feed at `i` closes a message behind the held tail (line 177 false). */
  predicate Joins(s: ScanState) {
    s.lastStart == 0 && s.buf.Held?
  }

  /** The message the line feed at `i` closes. */
  function LineAt(data: Bytes, s: ScanState, i: nat): Bytes
    requires s.lastStart <= i <= |data|
  {
    if Joins(s) then s.buf.bytes + data[..i] else data[s.lastStart..i]
  }

  /** The loop of `onData` over the first `i` bytes of the chunk, byte by byte. */
  function Scan(tail0: Tail, data: Bytes, i: nat): (s: ScanState)
    requires i <= |data|
    ensures s.lastStart <= i && (s.ms == [] <==> s.lastStart == 0)
    ensures s.buf == if s.lastStart == 0 then tail0 else Consume(tail0)
    decreases i
  {
    if i == 0 then ScanState(0, tail0, [])
    else
      var s := Scan(tail0, data, i - 1);
      if data[i - 1] != MSGSEP then s
      else ScanState(i, if Joins(s) then Consumed else s.buf, s.ms + [LineAt(data, s, i - 1)])
  }

  /** The line feed at `i` closes the message `LineAt` builds and moves the loop past it. */
  lemma ScanAtLine(tail0: Tail, data: Bytes, i: nat, s: ScanState)
    requires i < |data| && data[i] == MSGSEP && s == Scan(tail0, data, i)
    ensures Scan(tail0, data, i + 1) == ScanState(i + 1, if Joins(s) then Consumed else s.buf, s.ms + [LineAt(data, s, i)])
  {
  }

  /** The loop's state is the one `Scanning` describes against the pieces of the part scanned. */
  lemma {:induction false} ScanScans(tail0: Tail, data: Bytes, i: nat)
    requires i <= |data|
    ensures var s := Scan(tail0, data, i); Scanning(tail0, data, i, s.lastStart, s.buf, s.ms)
    decreases i
  {
    if i == 0 {
      ScanStart(tail0, data);
    } else {
      ScanScans(tail0, data, i - 1);
      var s := Scan(tail0, data, i - 1);
      var s' := Scan(tail0, data, i);
      assert s' == if data[i - 1] != MSGSEP then s
        else ScanState(i, if Joins(s) then Consumed else s.buf, s.ms + [LineAt(data, s, i - 1)]);
      ScanAdvance(tail0, data, i - 1, s.lastStart, s.buf, s.ms, i, s');
    }
  }

  /** The messages the loop has handed on when it meets the line feed at `i` come first among the chunk's. */
  lemma ScanLineFrames(tail0: Tail, data: Bytes, i: nat)
    requires i < |data| && data[i] == MSGSEP
    ensures Frame(tail0, data).Framed?
    ensures var lines, done := Frame(tail0, data).lines, Scan(tail0, data, i + 1).ms;
      |done| <= |lines| && lines == done + lines[|done|..]
  {
    ScanScans(tail0, data, i + 1);
    ScanLineFrame(tail0, data, i, Scan(tail0, data, i + 1).ms);
  }

  /** The loop over the whole chunk against `Frame`, as `ScanEnd` states it. */
  lemma ScanFrames(tail0: Tail, data: Bytes)
    ensures var s := Scan(tail0, data, |data|);
      && (s.lastStart == 0 && |data| != 0 && !s.buf.Held? ==> Frame(tail0, data).Unframeable?)
      && (!(s.lastStart == 0 && |data| != 0 && !s.buf.Held?) ==>
            Frame(tail0, data) == Framed(s.ms,
              if s.lastStart == |data| then s.buf
              else if s.lastStart != 0 then Held(data[s.lastStart..])
              else Held(s.buf.bytes + data)))
  {
    ScanScans(tail0, data, |data|);
    var s := Scan(tail0, data, |data|);
    ScanEnd(tail0, data, s.lastStart, s.buf, s.ms);
  }

  /** One step of `Scan` keeps `Scanning`. */
  lemma ScanAdvance(tail0: Tail, data: Bytes, i: nat, lastStart: nat, buf: Tail, ms: seq<Bytes>, next: nat, s': ScanState)
    requires Scanning(tail0, data, i, lastStart, buf, ms)
    requires i < |data| && next == i + 1
    requires var s := ScanState(lastStart, buf, ms);
      s' == if data[i] != MSGSEP then s
        else ScanState(i + 1, if Joins(s) then Consumed else buf, ms + [LineAt(data, s, i)])
    ensures Scanning(tail0, data, next, s'.lastStart, s'.buf, s'.ms)
  {
    if data[i] != MSGSEP {
      ScanByte(tail0, data, i, lastStart, buf, ms);
    } else {
      var s := ScanState(lastStart, buf, ms);
      ScanLine(tail0, data, i, lastStart, buf, ms, LineAt(data, s, i), s'.buf, s'.ms);
    }
  }
}
