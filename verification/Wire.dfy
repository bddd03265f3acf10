/**
  The framed message format: a nine-byte header (kind, client id, body length, the two
  integers big-endian) followed by the body; and the message object that is serialized
  from and decoded into.
 */
module Wire {
  import opened Prelude

  const HEADER_LENGTH := 9
  const MAX_BODY_LENGTH := 5368709120

  const HANDSHAKE: byte := 1
  const FILE_UPLOAD: byte := 10
  const FILE_RESPONSE: byte := 12
  const FILE_ERROR: byte := 13
  const UNKNOWN: byte := 14

  /** What a message handler can see of a message. The kind is any byte: an unknown one is
      not rejected by the decoder. */
  datatype Msg = Msg(kind: byte, clientId: uint32, body: seq<byte>)

  /** Network byte order of a 32-bit integer. */
  function U32Bytes(n: uint32): (b: seq<byte>)
    ensures |b| == 4
    ensures BytesU32(b) == n
  {
    var q1: int := n / 256;
    var q2 := q1 / 256;
    [q2 / 256, q2 % 256, q1 % 256, n % 256]
  }

  function BytesU32(b: seq<byte>): (n: uint32)
    requires |b| == 4
  {
    var hi, midHigh, midLow, lo: int := b[0], b[1], b[2], b[3];
    hi * 0x100_0000 + midHigh * 0x1_0000 + midLow * 0x100 + lo
  }

  lemma BytesU32Injective(b: seq<byte>)
    requires |b| == 4
    ensures U32Bytes(BytesU32(b)) == b
  {
    var n := BytesU32(b);
    var hi, midHigh, midLow: int := b[0], b[1], b[2];
    assert n / 256 == hi * 0x1_0000 + midHigh * 0x100 + midLow;
    assert n / 256 / 256 == hi * 0x100 + midHigh;
  }

  function Header(kind: byte, clientId: uint32, length: uint32): (h: seq<byte>)
    ensures |h| == HEADER_LENGTH
  {
    [kind] + U32Bytes(clientId) + U32Bytes(length)
  }

  /** The bytes of one message. The length field keeps only the low 32 bits. */
  function Frame(m: Msg): (f: seq<byte>)
    ensures |f| == HEADER_LENGTH + |m.body|
  {
    Header(m.kind, m.clientId, |m.body| % TWO_TO_THE_32) + m.body
  }

  /** The bytes of a run of messages. */
  function Stream(ms: seq<Msg>): seq<byte> {
    if ms == [] then [] else Frame(ms[0]) + Stream(ms[1..])
  }

  /** A body short enough for its length to be stored. */
  predicate Fits(m: Msg) {
    |m.body| < TWO_TO_THE_32
  }

  predicate AllFit(ms: seq<Msg>) {
    forall i :: 0 <= i < |ms| ==> Fits(ms[i])
  }

  // ---------------------------------------------------------------- reading a byte stream

  function FrameLength(s: seq<byte>): nat
    requires |s| >= HEADER_LENGTH
  {
    HEADER_LENGTH + BytesU32(s[5..9])
  }

  predicate HasFrame(s: seq<byte>) {
    |s| >= HEADER_LENGTH && |s| >= FrameLength(s)
  }

  function FirstFrame(s: seq<byte>): Msg
    requires HasFrame(s)
  {
    Msg(s[0], BytesU32(s[1..5]), s[HEADER_LENGTH..FrameLength(s)])
  }

  /** The complete frames at the front of a byte stream. */
  function Frames(s: seq<byte>): seq<Msg> {
    if HasFrame(s) then [FirstFrame(s)] + Frames(s[FrameLength(s)..]) else []
  }

  /** What is left behind the complete frames. */
  function Remainder(s: seq<byte>): seq<byte> {
    if HasFrame(s) then Remainder(s[FrameLength(s)..]) else s
  }

  lemma HeaderFields(kind: byte, clientId: uint32, length: uint32, rest: seq<byte>)
    ensures var s := Header(kind, clientId, length) + rest;
            s[0] == kind && s[1..5] == U32Bytes(clientId) && s[5..9] == U32Bytes(length) && s[9..] == rest
  {
    hide U32Bytes;
  }

  predicate IsBigEndianAt(s: seq<byte>, at: nat, n: int)
    requires at + 4 <= |s|
  {
    var b0, b1, b2, b3: int := s[at], s[at + 1], s[at + 2], s[at + 3];
    b0 * 0x100_0000 + b1 * 0x1_0000 + b2 * 0x100 + b3 == n
  }

  /** Where everything is in a frame: the kind, the client id and the length of the body, both with
      the highest byte first, and the body. */
  lemma FrameLayout(m: Msg)
    ensures var f := Frame(m);
            && f[0] == m.kind
            && IsBigEndianAt(f, 1, m.clientId) && IsBigEndianAt(f, 5, |m.body| % 0x1_0000_0000)
            && f[9..] == m.body
  {
    hide U32Bytes;
    HeaderFields(m.kind, m.clientId, |m.body| % TWO_TO_THE_32, m.body);
    var f := Frame(m);
    assert f[1..5] == [f[1], f[2], f[3], f[4]] && f[5..9] == [f[5], f[6], f[7], f[8]];
  }

  lemma HeaderRebuilds(s: seq<byte>)
    requires |s| >= HEADER_LENGTH
    ensures s == Header(s[0], BytesU32(s[1..5]), BytesU32(s[5..9])) + s[9..]
  {
    hide U32Bytes, BytesU32;
    BytesU32Injective(s[1..5]);
    BytesU32Injective(s[5..9]);
    assert s[..9] == [s[0]] + s[1..5] + s[5..9];
  }

  lemma FrameIsFirst(m: Msg, rest: seq<byte>)
    requires Fits(m)
    ensures HasFrame(Frame(m) + rest)
    ensures FrameLength(Frame(m) + rest) == |Frame(m)|
    ensures FirstFrame(Frame(m) + rest) == m
    ensures (Frame(m) + rest)[|Frame(m)|..] == rest
  {
    hide Header, U32Bytes, BytesU32;
    Assoc(Header(m.kind, m.clientId, |m.body|), m.body, rest);
    HeaderFields(m.kind, m.clientId, |m.body|, m.body + rest);
    var s := Frame(m) + rest;
    assert s[9..9 + |m.body|] == (m.body + rest)[..|m.body|] == m.body;
  }

  /** A frame is determined by the message it decodes to. */
  lemma FirstFrameRebuilds(s: seq<byte>)
    requires HasFrame(s)
    ensures Fits(FirstFrame(s))
    ensures s == Frame(FirstFrame(s)) + s[FrameLength(s)..]
  {
    hide Header, U32Bytes, BytesU32;
    var m, rest := FirstFrame(s), s[FrameLength(s)..];
    HeaderRebuilds(s);
    assert s[9..] == m.body + rest;
    Assoc(Header(m.kind, m.clientId, |m.body|), m.body, rest);
  }

  /** Reading what was written gives the messages back, with any incomplete tail untouched. */
  lemma {:induction false} FramesOfStream(ms: seq<Msg>, tail: seq<byte>)
    requires AllFit(ms)
    ensures Frames(Stream(ms) + tail) == ms + Frames(tail)
    ensures Remainder(Stream(ms) + tail) == Remainder(tail)
  {
    hide Frame, FirstFrame, FrameLength, HasFrame;
    if ms == [] {
      assert Stream(ms) + tail == tail;
    } else {
      var rest := Stream(ms[1..]) + tail;
      Assoc(Frame(ms[0]), Stream(ms[1..]), tail);
      FrameIsFirst(ms[0], rest);
      FramesOfStream(ms[1..], tail);
      Assoc([ms[0]], ms[1..], Frames(tail));
    }
  }

  /** Every byte stream is exactly its complete frames followed by its remainder. */
  lemma {:induction false} StreamOfFrames(s: seq<byte>)
    ensures AllFit(Frames(s))
    ensures s == Stream(Frames(s)) + Remainder(s)
    ensures !HasFrame(Remainder(s))
    decreases |s|
  {
    if HasFrame(s) {
      var rest := s[FrameLength(s)..];
      FirstFrameRebuilds(s);
      StreamOfFrames(rest);
      TailOfCons(FirstFrame(s), Frames(rest));
      Assoc(Frame(FirstFrame(s)), Stream(Frames(rest)), Remainder(rest));
    } else {
      assert s == Stream([]) + s;
    }
  }

  /** Serializing and parsing one message is the identity exactly when the body length is
      not truncated. */
  lemma FrameRoundTrip(m: Msg)
    ensures (Frames(Frame(m)) == [m] && Remainder(Frame(m)) == []) <==> Fits(m)
  {
    var s := Frame(m);
    if Fits(m) {
      FrameIsFirst(m, []);
      assert s + [] == s;
    } else {
      HeaderFields(m.kind, m.clientId, |m.body| % TWO_TO_THE_32, m.body);
      assert |FirstFrame(s).body| < TWO_TO_THE_32 <= |m.body|;
    }
  }

  lemma {:induction false} StreamAppend(a: seq<Msg>, b: seq<Msg>)
    ensures Stream(a + b) == Stream(a) + Stream(b)
  {
    hide Frame;
    if a == [] {
      assert a + b == b;
    } else {
      StreamAppend(a[1..], b);
      TailOfAppend(a, b);
      Assoc(Frame(a[0]), Stream(a[1..]), Stream(b));
    }
  }

  /** Bytes that are a prefix of a written stream hold only the messages written, in order. */
  lemma {:induction false} FramesOfStreamPrefix(s: seq<byte>, ms: seq<Msg>)
    requires AllFit(ms)
    requires s <= Stream(ms)
    ensures Frames(s) <= ms
    decreases |ms|
  {
    hide Frame, FirstFrame, FrameLength;
    if HasFrame(s) && ms != [] {
      var m, rest := ms[0], Stream(ms[1..]);
      FrameIsFirst(m, rest);
      PrefixHasSameFrame(s, Frame(m) + rest);
      FramesOfStreamPrefix(s[|Frame(m)|..], ms[1..]);
      assert ms == [m] + ms[1..];
    }
  }

  lemma PrefixHasSameFrame(s: seq<byte>, full: seq<byte>)
    requires s <= full && HasFrame(s)
    ensures HasFrame(full) && FrameLength(full) == FrameLength(s) && FirstFrame(full) == FirstFrame(s)
    ensures s[FrameLength(s)..] <= full[FrameLength(s)..]
  {
    hide BytesU32;
    assert s[1..5] == full[1..5] && s[5..9] == full[5..9];
    assert s[9..FrameLength(s)] == full[9..FrameLength(s)];
  }

  // ---------------------------------------------------------------- body reuse

  /** A reader that decodes into one message object leaves the previous body in place when
      a frame declares length zero. `prev` is the body left by the frame before. */
  function WithReuse(prev: seq<byte>, ms: seq<Msg>): (r: seq<Msg>)
    ensures |r| == |ms|
    decreases ms
  {
    if ms == [] then []
    else
      var m := if ms[0].body == [] then ms[0].(body := prev) else ms[0];
      [m] + WithReuse(m.body, ms[1..])
  }

  /** No frame with an empty body comes after one with a body. */
  predicate EmptyBodiesFirst(ms: seq<Msg>) {
    forall i, j :: 0 <= i < j < |ms| && ms[j].body == [] ==> ms[i].body == []
  }

  /** The body left in the message object after a run of frames. */
  function LastBody(prev: seq<byte>, ms: seq<Msg>): seq<byte>
    decreases ms
  {
    if ms == [] then prev
    else LastBody(if ms[0].body == [] then prev else ms[0].body, ms[1..])
  }

  lemma {:induction false} WithReuseAppend(prev: seq<byte>, a: seq<Msg>, b: seq<Msg>)
    ensures WithReuse(prev, a + b) == WithReuse(prev, a) + WithReuse(LastBody(prev, a), b)
    ensures LastBody(prev, a + b) == LastBody(LastBody(prev, a), b)
    decreases |a|
  {
    if a == [] {
      assert a + b == b;
    } else {
      var next := if a[0].body == [] then prev else a[0].body;
      WithReuseAppend(next, a[1..], b);
      TailOfAppend(a, b);
      Assoc([WithReuse(prev, a)[0]], WithReuse(next, a[1..]), WithReuse(LastBody(next, a[1..]), b));
    }
  }

  lemma {:induction false} WithReuseKeepsFull(prev: seq<byte>, ms: seq<Msg>)
    requires forall i :: 0 <= i < |ms| ==> ms[i].body != []
    ensures WithReuse(prev, ms) == ms
    decreases ms
  {
    if ms != [] {
      WithReuseKeepsFull(ms[0].body, ms[1..]);
    }
  }

  /** The handler sees exactly the messages sent if and only if no empty body follows a
      non-empty one. */
  lemma {:induction false} ReuseIsHarmlessIff(ms: seq<Msg>)
    ensures WithReuse([], ms) == ms <==> EmptyBodiesFirst(ms)
    decreases |ms|
  {
    if ms == [] {
    } else if ms[0].body == [] {
      ReuseIsHarmlessIff(ms[1..]);
      EmptyBodiesFirstTail(ms);
      assert ms == [ms[0]] + ms[1..];
    } else {
      ReuseAfterFull(ms[0].body, ms[1..]);
      assert ms == [ms[0]] + ms[1..];
      if EmptyBodiesFirst(ms) {
        forall i | 0 <= i < |ms[1..]| ensures ms[1..][i].body != [] {
          assert ms[1..][i] == ms[i + 1];
        }
      } else {
        var i, j :| 0 <= i < j < |ms| && ms[j].body == [] && ms[i].body != [];
        assert ms[1..][j - 1] == ms[j];
      }
    }
  }

  lemma EmptyBodiesFirstTail(ms: seq<Msg>)
    requires ms != [] && ms[0].body == []
    ensures EmptyBodiesFirst(ms) <==> EmptyBodiesFirst(ms[1..])
  {
    if EmptyBodiesFirst(ms[1..]) {
      forall i, j | 0 <= i < j < |ms| && ms[j].body == [] ensures ms[i].body == [] {
        if i > 0 {
          assert ms[1..][i - 1] == ms[i] && ms[1..][j - 1] == ms[j];
        }
      }
    }
  }

  lemma {:induction false} ReuseAfterFull(prev: seq<byte>, ms: seq<Msg>)
    requires prev != []
    ensures WithReuse(prev, ms) == ms <==> (forall i :: 0 <= i < |ms| ==> ms[i].body != [])
    decreases |ms|
  {
    if ms != [] && ms[0].body != [] {
      ReuseAfterFull(ms[0].body, ms[1..]);
      assert ms == [ms[0]] + ms[1..];
      if forall i :: 0 <= i < |ms[1..]| ==> ms[1..][i].body != [] {
        forall i | 0 <= i < |ms| ensures ms[i].body != [] {
          if i > 0 { assert ms[1..][i - 1] == ms[i]; }
        }
      }
    }
  }

  // ---------------------------------------------------------------- the message object

  /** The mutable message object. `bodySize` is what the last decoded header declared or the
      size of the body last assigned; a decoded header alone does not touch `body`. */
  class Message {
    var kind: byte
    var clientId: uint32
    var bodySize: nat
    var body: seq<byte>

    constructor ()
      ensures kind == UNKNOWN && clientId == 0 && bodySize == 0 && body == []
    {
      kind, clientId, bodySize, body := UNKNOWN, 0, 0, [];
    }

    function Value(): Msg
      reads this
    {
      Msg(kind, clientId, body)
    }

    method SetBody(data: seq<byte>)
      modifies this`body, this`bodySize
      ensures body == data && bodySize == |data|
    {
      body := data;
      bodySize := |data|;
    }

    method Serialize() returns (buffer: array<byte>)
      ensures fresh(buffer)
      ensures buffer[..] == Frame(Value())
    {
      hide U32Bytes;
      buffer := new byte[HEADER_LENGTH + |body|](_ => 0);
      var netClientId := U32Bytes(clientId);
      var netBodySize := U32Bytes(|body| % TWO_TO_THE_32);
      var offset := 0;
      buffer[offset] := kind;
      offset := offset + 1;
      CopyInto(buffer, offset, netClientId);
      offset := offset + 4;
      assert buffer[..offset] == [kind] + netClientId;
      CopyInto(buffer, offset, netBodySize);
      offset := offset + 4;
      assert buffer[..offset] == [kind] + netClientId + netBodySize;
      if body != [] {
        CopyInto(buffer, offset, body);
      }
      assert buffer[..] == buffer[..offset] + body;
    }

    /** Fails exactly on fewer than nine bytes: a declared length is below 2^32, so it never
        exceeds MAX_BODY_LENGTH. */
    method DecodeHeader(buffer: seq<byte>) returns (ok: bool)
      modifies this`kind, this`clientId, this`bodySize
      ensures ok <==> |buffer| >= HEADER_LENGTH
      ensures ok ==> kind == buffer[0] && clientId == BytesU32(buffer[1..5])
                     && HEADER_LENGTH + bodySize == FrameLength(buffer)
      ensures !ok ==> kind == old(kind) && clientId == old(clientId) && bodySize == old(bodySize)
    {
      if |buffer| < HEADER_LENGTH {
        return false;
      }
      kind := buffer[0];
      clientId := BytesU32(buffer[1..5]);
      bodySize := BytesU32(buffer[5..9]);
      if bodySize > MAX_BODY_LENGTH {
        assert false;
      }
      return true;
    }

    method DecodeBody(buffer: seq<byte>) returns (ok: bool)
      modifies this`body
      ensures ok <==> bodySize <= |buffer|
      ensures body == if ok then buffer[..bodySize] else old(body)
    {
      if |buffer| < bodySize {
        return false;
      }
      body := buffer[..bodySize];
      return true;
    }
  }

  /** memcpy of `data` to position `offset`. */
  method CopyInto(buffer: array<byte>, offset: nat, data: seq<byte>)
    requires offset + |data| <= buffer.Length
    modifies buffer
    ensures buffer[..offset + |data|] == old(buffer[..offset]) + data
    ensures buffer[offset + |data|..] == old(buffer[offset + |data|..])
  {
    for i := 0 to |data|
      invariant buffer[..offset + i] == old(buffer[..offset]) + data[..i]
      invariant buffer[offset + |data|..] == old(buffer[offset + |data|..])
    {
      buffer[offset + i] := data[i];
      assert buffer[..offset + i + 1] == buffer[..offset + i] + [data[i]];
    }
  }
}
