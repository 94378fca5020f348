/**
 * The wire protocol of the game server as connection.js sees it: an ASCII
 * byte stream of messages ended by a line feed, each message a one-character
 * command code, a comma and comma-separated fields, and the table that says
 * how the fields of the known commands are typed.
 */
module Protocol {
  import opened Sequences

  newtype Byte = x: int | 0 <= x < 256
  type Bytes = seq<Byte>

  /** Message delimiter (`MSGSEP`), the same character as text (`ENDMSG`) and the field separator (`ARGSEP`). */
  const MSGSEP: Byte := 0x0A
  const ENDMSG: char := '\n'
  const ARGSEP: char := ','

  /** Milliseconds the socket may stay idle, and the keepalive period. */
  const TIMEOUT: nat := 60000
  const KEEPALIVE: nat := 30000

  /** The protocol version announced by the keepalive, as `join` renders the number 1. */
  const VERSION: string := "1"

  /** Numbers as the parsed fields carry them; NaN never reaches a field (see Messages). */
  type Number = real

  /** What a parsed field holds: a number from an `I` or `F` field, text from an `S` field. */
  datatype Value = Num(n: Number) | Str(s: string)

  /** Field types of the `parsers` table: integer, float, rest of the message. */
  datatype Tag = I | F | S

  /** The `parsers` table: command code to the types of its fields. */
  const Parsers: map<char, seq<Tag>> := map[
    'U' := [I, F, F, F, F, F],
    'N' := [I, S],
    'P' := [I, F, F, F, F, F],
    'D' := [I],
    'B' := [I, I, I, I, I, I],
    'C' := [I, I, I],
    'K' := [I, I, I],
    'S' := [I, I, I, I, I, I, S]
  ]

  /** A type list in which `S`, the rest of the message, can only come last. */
  ghost predicate RestLast(tags: seq<Tag>) {
    forall k :: 0 <= k < |tags| && tags[k] == S ==> k == |tags| - 1
  }

  /** Every entry of the table is non-empty (so truthy) and has `S` at most once, in last position. */
  lemma ParsersShape()
    ensures forall c :: c in Parsers ==> |Parsers[c]| >= 1 && RestLast(Parsers[c])
  {
  }

  /** The three ways `onMsg` and `parseCmd` can find a message unparsable. */
  datatype Fault =
    | LongCommand     // the character after the code is not a comma
    | AfterLastComma  // a numeric field is wanted but the last field was already taken
    | NotANumber      // a numeric field parses to NaN

  /** Payload of an `error` event. */
  datatype ErrorInfo =
    | ParseFailure(fault: Fault, message: string)
    | SocketFailure(reason: string)
    | WriteFailure

  /** Every event the connection emits; a command event carries its code and its arguments. */
  datatype Event =
    | Connect
    | Reconnect
    | Data(bytes: Bytes)
    | Cmd(code: char, args: seq<Value>)
    | Drain
    | End
    | Close
    | Timeout
    | Error(info: ErrorInfo)

  /** 7-bit text, the part of the character set on which the "ascii" encoding is exact. */
  ghost predicate IsAscii(s: string) {
    forall k :: 0 <= k < |s| ==> s[k] as int < 128
  }

  /** `buffer.toString("ascii")`, one character per byte. */
  function Decode(b: Bytes): (s: string)
    ensures |s| == |b|
  {
    seq(|b|, k requires 0 <= k < |b| => (b[k] as int) as char)
  }

  /** `new Buffer(s, "ascii")`, keeping the low eight bits of each character. */
  function Encode(s: string): (b: Bytes)
    ensures |b| == |s|
  {
    seq(|s|, k requires 0 <= k < |s| => ((s[k] as int) % 256) as Byte)
  }

  /** `pack`: the fields joined by commas, a line feed appended, encoded. */
  function Pack(msg: seq<string>): (b: Bytes)
    ensures |b| == |Join(msg, ARGSEP)| + 1 && b[|b| - 1] == MSGSEP
  {
    Encode(Join(msg, ARGSEP) + [ENDMSG])
  }

  /** Text in 7-bit ASCII survives encoding and decoding. */
  lemma DecodeEncode(s: string)
    requires IsAscii(s)
    ensures Decode(Encode(s)) == s
  {
  }

  /** Under this codec, a byte string holds the delimiter exactly when its text holds a line feed. */
  lemma DecodeDelimiter(b: Bytes)
    ensures MSGSEP in b <==> ENDMSG in Decode(b)
  {
    if MSGSEP in b {
      var k :| 0 <= k < |b| && b[k] == MSGSEP;
      assert Decode(b)[k] == ENDMSG;
    }
  }

  /** The packed bytes are the encoded text followed by the delimiter. */
  lemma PackBytes(msg: seq<string>)
    ensures Pack(msg) == Encode(Join(msg, ARGSEP)) + [MSGSEP]
  {
    var text := Join(msg, ARGSEP);
    EncodeConcat(text, [ENDMSG]);
    assert Encode([ENDMSG])[0] == MSGSEP;
  }

  lemma EncodeConcat(a: string, b: string)
    ensures Encode(a + b) == Encode(a) + Encode(b)
  {
  }
}
