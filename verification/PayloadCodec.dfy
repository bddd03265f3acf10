/**
  The hand-written binary format in which input payloads travel between the application and
  its helper: fixed fields in the machine's little-endian order, a count, then two bytes per
  key event. Floats are carried as their bit patterns.
 */
module PayloadCodec {
  import opened Prelude
  import opened KeyEvents

  datatype InputPayload = InputPayload(
    keyEvents: seq<KeyEvent>,
    sourceDeviceType: byte,
    isMouseEvent: bool,
    relativeX: uint32,
    relativeY: uint32,
    mouseButtons: byte,
    scrollDeltaX: int16,
    scrollDeltaY: int16)

  const FIXED_LENGTH := 19

  // ---------------------------------------------------------------- fields

  function Bool(b: bool): (s: seq<byte>)
    ensures |s| == 1 && ToBool(s) == b
  {
    if b then [1] else [0]
  }

  /** A stored bool other than 0 or 1 is taken to be true. */
  predicate ToBool(s: seq<byte>)
    requires |s| == 1
  {
    s[0] != 0
  }

  function U32(n: uint32): (s: seq<byte>)
    ensures |s| == 4 && ToU32(s) == n
  {
    var q1: int := n / 256;
    var q2 := q1 / 256;
    [n % 256, q1 % 256, q2 % 256, q2 / 256]
  }

  function ToU32(s: seq<byte>): uint32
    requires |s| == 4
  {
    var b0, b1, b2, b3: int := s[0], s[1], s[2], s[3];
    b0 + b1 * 0x100 + b2 * 0x1_0000 + b3 * 0x100_0000
  }

  /** Two's complement. */
  function I16(n: int16): (s: seq<byte>)
    ensures |s| == 2 && ToI16(s) == n
  {
    var u := if n < 0 then n + 0x1_0000 else n;
    [u % 256, u / 0x100]
  }

  function ToI16(s: seq<byte>): int16
    requires |s| == 2
  {
    var low, high: int := s[0], s[1];
    var u := low + high * 0x100;
    if u >= 0x8000 then u - 0x1_0000 else u
  }

  lemma U32Injective(s: seq<byte>)
    requires |s| == 4
    ensures U32(ToU32(s)) == s
  {
    var n := ToU32(s);
    var b1, b2, b3: int := s[1], s[2], s[3];
    assert n / 256 == b1 + b2 * 0x100 + b3 * 0x1_0000;
    assert n / 256 / 256 == b2 + b3 * 0x100;
  }

  lemma I16Injective(s: seq<byte>)
    requires |s| == 2
    ensures I16(ToI16(s)) == s
  {
  }

  // ---------------------------------------------------------------- format

  function KeyBytes(es: seq<KeyEvent>): (s: seq<byte>)
    ensures |s| == 2 * |es|
  {
    if es == [] then [] else KeyBytes(es[..|es| - 1]) + [es[|es| - 1].code] + Bool(es[|es| - 1].pressed)
  }

  function FixedBytes(p: InputPayload): (s: seq<byte>)
    ensures |s| == 15
  {
    Bool(p.isMouseEvent) + U32(p.relativeX) + U32(p.relativeY) + [p.mouseButtons]
    + I16(p.scrollDeltaX) + I16(p.scrollDeltaY) + [p.sourceDeviceType]
  }

  /** The count keeps only its low 32 bits. */
  function Encode(p: InputPayload): (s: seq<byte>)
    ensures |s| == FIXED_LENGTH + 2 * |p.keyEvents|
  {
    FixedBytes(p) + U32(|p.keyEvents| % TWO_TO_THE_32) + KeyBytes(p.keyEvents)
  }

  function KeysOf(s: seq<byte>, n: nat): (es: seq<KeyEvent>)
    requires |s| >= 2 * n
    ensures |es| == n
  {
    if n == 0 then [] else KeysOf(s, n - 1) + [KeyEvent(s[2 * n - 2], ToBool([s[2 * n - 1]]))]
  }

  function Count(s: seq<byte>): uint32
    requires |s| >= FIXED_LENGTH
  {
    ToU32(s[15..19])
  }

  function Fields(s: seq<byte>, es: seq<KeyEvent>): InputPayload
    requires |s| >= 15
  {
    InputPayload(es, s[14], ToBool(s[0..1]), ToU32(s[1..5]), ToU32(s[5..9]), s[9], ToI16(s[10..12]), ToI16(s[12..14]))
  }

  /** Accepted exactly when all the bytes announced are there; what follows is ignored. */
  function Decode(s: seq<byte>): Option<InputPayload> {
    if |s| < FIXED_LENGTH || |s| < FIXED_LENGTH + 2 * Count(s) then None
    else Some(Fields(s, KeysOf(s[19..], Count(s))))
  }

  // ---------------------------------------------------------------- layout

  predicate IsU32At(s: seq<byte>, at: nat, n: int)
    requires at + 4 <= |s|
  {
    var b0, b1, b2, b3: int := s[at], s[at + 1], s[at + 2], s[at + 3];
    b0 + b1 * 0x100 + b2 * 0x1_0000 + b3 * 0x100_0000 == n
  }

  /** In two's complement. */
  predicate IsI16At(s: seq<byte>, at: nat, n: int)
    requires at + 2 <= |s|
  {
    var low, high: int := s[at], s[at + 1];
    low + high * 0x100 == if n < 0 then n + 0x1_0000 else n
  }

  lemma IsU32(n: uint32, s: seq<byte>, at: nat)
    requires at + 4 <= |s| && s[at..at + 4] == U32(n)
    ensures IsU32At(s, at, n)
  {
    hide U32;
    assert s[at..at + 4] == [s[at], s[at + 1], s[at + 2], s[at + 3]];
  }

  lemma IsI16(n: int16, s: seq<byte>, at: nat)
    requires at + 2 <= |s| && s[at..at + 2] == I16(n)
    ensures IsI16At(s, at, n)
  {
    hide I16;
    assert s[at..at + 2] == [s[at], s[at + 1]];
  }

  lemma FixedParts(p: InputPayload)
    ensures var f := FixedBytes(p);
            && f[0] == Bool(p.isMouseEvent)[0] && f[9] == p.mouseButtons && f[14] == p.sourceDeviceType
            && f[1..5] == U32(p.relativeX) && f[5..9] == U32(p.relativeY)
            && f[10..12] == I16(p.scrollDeltaX) && f[12..14] == I16(p.scrollDeltaY)
  {
    hide U32, I16, Bool;
  }

  lemma SameAt(s: seq<byte>, front: seq<byte>, at: nat, n: nat)
    requires front <= s && at + n <= |front|
    ensures s[at..at + n] == front[at..at + n]
  {
  }

  lemma FixedLayout(p: InputPayload, s: seq<byte>)
    requires FixedBytes(p) <= s
    ensures |s| >= 15
    ensures s[0] == (if p.isMouseEvent then 1 else 0) && s[9] == p.mouseButtons && s[14] == p.sourceDeviceType
    ensures IsU32At(s, 1, p.relativeX) && IsU32At(s, 5, p.relativeY)
    ensures IsI16At(s, 10, p.scrollDeltaX) && IsI16At(s, 12, p.scrollDeltaY)
  {
    hide U32, I16, FixedBytes, IsU32At, IsI16At;
    var f := FixedBytes(p);
    FixedParts(p);
    SameAt(s, f, 1, 4);
    SameAt(s, f, 5, 4);
    SameAt(s, f, 10, 2);
    SameAt(s, f, 12, 2);
    IsU32(p.relativeX, s, 1);
    IsU32(p.relativeY, s, 5);
    IsI16(p.scrollDeltaX, s, 10);
    IsI16(p.scrollDeltaY, s, 12);
  }

  /** Where everything is in an encoded payload, the lowest byte of a number first. */
  lemma PayloadLayout(p: InputPayload)
    ensures var s := Encode(p);
            && s[0] == (if p.isMouseEvent then 1 else 0)
            && IsU32At(s, 1, p.relativeX) && IsU32At(s, 5, p.relativeY)
            && s[9] == p.mouseButtons
            && IsI16At(s, 10, p.scrollDeltaX) && IsI16At(s, 12, p.scrollDeltaY)
            && s[14] == p.sourceDeviceType
            && IsU32At(s, 15, |p.keyEvents| % 0x1_0000_0000)
            && forall i :: 0 <= i < |p.keyEvents| ==>
                 && s[19 + 2 * i] == p.keyEvents[i].code
                 && s[20 + 2 * i] == if p.keyEvents[i].pressed then 1 else 0
  {
    hide U32, KeyBytes, FixedBytes, IsU32At, IsI16At, Encode;
    var s := Encode(p);
    EncodedParts(p, []);
    assert s + [] == s && KeyBytes(p.keyEvents) + [] == KeyBytes(p.keyEvents);
    FixedLayout(p, s);
    IsU32(|p.keyEvents| % TWO_TO_THE_32, s, 15);
    forall i | 0 <= i < |p.keyEvents|
      ensures s[19 + 2 * i] == p.keyEvents[i].code && s[20 + 2 * i] == if p.keyEvents[i].pressed then 1 else 0
    {
      KeyLayout(p.keyEvents, i);
      assert s[19..][2 * i] == s[19 + 2 * i] && s[19..][2 * i + 1] == s[20 + 2 * i];
    }
  }

  lemma {:induction false} KeyLayout(es: seq<KeyEvent>, i: nat)
    requires i < |es|
    ensures KeyBytes(es)[2 * i] == es[i].code && KeyBytes(es)[2 * i + 1] == if es[i].pressed then 1 else 0
    decreases es
  {
    if i < |es| - 1 {
      KeyLayout(es[..|es| - 1], i);
    }
  }

  // ---------------------------------------------------------------- round trips

  lemma {:induction false} KeysOfKeyBytes(es: seq<KeyEvent>, rest: seq<byte>)
    ensures KeysOf(KeyBytes(es) + rest, |es|) == es
    decreases es
  {
    if es != [] {
      var init, last := es[..|es| - 1], es[|es| - 1];
      hide Bool;
      var tail := [last.code] + Bool(last.pressed) + rest;
      var s := KeyBytes(init) + tail;
      assert KeyBytes(es) + rest == s;
      KeysOfKeyBytes(init, tail);
      assert [s[2 * |es| - 1]] == Bool(last.pressed);
      assert es == init + [last];
    }
  }

  lemma FixedFields(p: InputPayload, rest: seq<byte>)
    ensures Fields(FixedBytes(p) + rest, p.keyEvents) == p
  {
    hide U32, ToU32, I16, ToI16, Bool, ToBool;
    var s := FixedBytes(p) + rest;
    assert s[0..1] == Bool(p.isMouseEvent);
    assert s[1..5] == U32(p.relativeX) && s[5..9] == U32(p.relativeY);
    assert s[10..12] == I16(p.scrollDeltaX) && s[12..14] == I16(p.scrollDeltaY);
  }

  lemma EncodedParts(p: InputPayload, rest: seq<byte>)
    ensures var s := Encode(p) + rest;
            && s == FixedBytes(p) + (U32(|p.keyEvents| % TWO_TO_THE_32) + (KeyBytes(p.keyEvents) + rest))
            && s[15..19] == U32(|p.keyEvents| % TWO_TO_THE_32)
            && s[19..] == KeyBytes(p.keyEvents) + rest
  {
    hide FixedBytes, U32, KeyBytes;
    var count := U32(|p.keyEvents| % TWO_TO_THE_32);
    Assoc(FixedBytes(p) + count, KeyBytes(p.keyEvents), rest);
    Assoc(FixedBytes(p), count, KeyBytes(p.keyEvents) + rest);
  }

  /** A payload is read back, whatever bytes follow it, exactly when its events number fewer
      than 2^32. */
  lemma DecodeOfEncode(p: InputPayload, rest: seq<byte>)
    ensures Decode(Encode(p) + rest) == Some(p) <==> |p.keyEvents| < TWO_TO_THE_32
  {
    hide FixedBytes, KeyBytes, KeysOf, U32, ToU32, Fields, Encode;
    EncodedParts(p, rest);
    if |p.keyEvents| < TWO_TO_THE_32 {
      KeysOfKeyBytes(p.keyEvents, rest);
      FixedFields(p, U32(|p.keyEvents|) + (KeyBytes(p.keyEvents) + rest));
    } else {
      var s := Encode(p) + rest;
      if Decode(s).Some? {
        FieldsHave(s, KeysOf(s[19..], Count(s)));
      }
    }
  }

  lemma FieldsHave(s: seq<byte>, es: seq<KeyEvent>)
    requires |s| >= 15
    ensures Fields(s, es).keyEvents == es
  {
  }

  /** No strict prefix of an encoded payload is accepted. */
  lemma PrefixesAreRejected(p: InputPayload, s: seq<byte>)
    requires |p.keyEvents| < TWO_TO_THE_32 && s < Encode(p)
    ensures Decode(s).None?
  {
    hide FixedBytes, U32, ToU32, Encode;
    if |s| >= FIXED_LENGTH {
      EncodedParts(p, []);
      assert Encode(p) + [] == Encode(p);
      assert s[15..19] == Encode(p)[15..19];
    }
  }

  /** Every stored bool is 0 or 1. */
  predicate Canonical(s: seq<byte>, n: nat)
    requires |s| >= FIXED_LENGTH + 2 * n
  {
    s[0] < 2 && forall i :: 0 <= i < n ==> s[19 + 2 * i + 1] < 2
  }

  lemma {:induction false} KeyBytesOfKeys(s: seq<byte>, n: nat)
    requires |s| >= 2 * n && forall i :: 0 <= i < n ==> s[2 * i + 1] < 2
    ensures KeyBytes(KeysOf(s, n)) == s[..2 * n]
    decreases n
  {
    hide KeyBytes, Bool, ToBool;
    if n == 0 {
      assert KeyBytes([]) == [];
    } else {
      KeyBytesOfKeys(s, n - 1);
      var flag := s[2 * (n - 1) + 1];
      BoolOfFlag(flag);
      KeyBytesSnoc(KeysOf(s, n - 1), KeyEvent(s[2 * n - 2], ToBool([flag])));
      assert s[..2 * n] == s[..2 * (n - 1)] + [s[2 * n - 2]] + [flag];
    }
  }

  lemma {:induction false} KeyBytesSnoc(es: seq<KeyEvent>, e: KeyEvent)
    ensures KeyBytes(es + [e]) == KeyBytes(es) + [e.code] + Bool(e.pressed)
  {
    hide Bool;
    assert (es + [e])[..|es|] == es;
  }

  lemma BoolOfFlag(flag: byte)
    requires flag < 2
    ensures Bool(ToBool([flag])) == [flag]
  {
  }

  lemma FixedBytesOfFields(s: seq<byte>, es: seq<KeyEvent>)
    requires |s| >= 15 && s[0] < 2
    ensures FixedBytes(Fields(s, es)) == s[..15]
  {
    hide U32, ToU32, I16, ToI16;
    U32Injective(s[1..5]);
    U32Injective(s[5..9]);
    I16Injective(s[10..12]);
    I16Injective(s[12..14]);
    assert s[..15] == s[0..1] + s[1..5] + s[5..9] + [s[9]] + s[10..12] + s[12..14] + [s[14]];
    assert s[0..1] == [s[0]];
  }

  lemma {:induction false} KeyBytesAreCanonical(es: seq<KeyEvent>)
    ensures forall i :: 0 <= i < |es| ==> KeyBytes(es)[2 * i + 1] < 2
    decreases es
  {
    if es != [] {
      KeyBytesAreCanonical(es[..|es| - 1]);
    }
  }

  lemma EncodedIsCanonical(p: InputPayload)
    ensures Canonical(Encode(p), |p.keyEvents|)
  {
    hide U32, I16, KeyBytes;
    KeyBytesAreCanonical(p.keyEvents);
    EncodedParts(p, []);
    assert Encode(p) + [] == Encode(p);
    assert Encode(p)[0] == FixedBytes(p)[0] == Bool(p.isMouseEvent)[0];
    assert Encode(p)[19..] == KeyBytes(p.keyEvents) + [];
    forall i | 0 <= i < |p.keyEvents| ensures Encode(p)[19 + 2 * i + 1] < 2 {
      assert Encode(p)[19 + 2 * i + 1] == KeyBytes(p.keyEvents)[2 * i + 1];
    }
  }

  lemma DecodedHasCount(s: seq<byte>, p: InputPayload)
    requires Decode(s) == Some(p)
    ensures |s| >= FIXED_LENGTH && |p.keyEvents| == Count(s) && |s| >= FIXED_LENGTH + 2 * Count(s)
  {
  }

  /** Conversely, accepted bytes begin with the encoding of the payload read from them exactly
      when every bool in them was stored as 0 or 1. */
  lemma EncodeOfDecode(s: seq<byte>, p: InputPayload)
    requires Decode(s) == Some(p)
    ensures Encode(p) <= s <==> Canonical(s, Count(s))
  {
    hide Decode, Encode, Canonical;
    DecodedHasCount(s, p);
    if Canonical(s, Count(s)) {
      CanonicalReencodes(s, p);
    } else if Encode(p) <= s {
      EncodedIsCanonical(p);
      CanonicalPrefix(Encode(p), s, Count(s));
    }
  }

  lemma CanonicalPrefix(t: seq<byte>, s: seq<byte>, n: nat)
    requires t <= s && |t| >= FIXED_LENGTH + 2 * n && Canonical(t, n)
    ensures Canonical(s, n)
  {
    forall i | 0 <= i < n ensures s[19 + 2 * i + 1] < 2 {
      assert t[19 + 2 * i + 1] < 2;
    }
  }

  lemma CanonicalReencodes(s: seq<byte>, p: InputPayload)
    requires Decode(s) == Some(p) && Canonical(s, Count(s))
    ensures Encode(p) <= s
  {
    hide U32, ToU32, FixedBytes, Fields, KeyBytes;
    var n: int := Count(s);
    var es := KeysOf(s[19..], n);
    FieldsHave(s, es);
    FixedBytesOfFields(s, es);
    U32Injective(s[15..19]);
    forall i | 0 <= i < n ensures s[19..][2 * i + 1] < 2 {
      assert s[19 + 2 * i + 1] < 2;
    }
    KeyBytesOfKeys(s[19..], n);
    assert s[..19 + 2 * n] == s[..15] + s[15..19] + s[19..][..2 * n];
  }

  // ---------------------------------------------------------------- the loops

  method SerializeInputPayload(payload: InputPayload) returns (buffer: seq<byte>)
    ensures buffer == Encode(payload)
  {
    hide U32, I16, Bool, KeyBytes;
    buffer := [];
    buffer := buffer + Bool(payload.isMouseEvent);
    buffer := buffer + U32(payload.relativeX);
    buffer := buffer + U32(payload.relativeY);
    buffer := buffer + [payload.mouseButtons];
    buffer := buffer + I16(payload.scrollDeltaX);
    buffer := buffer + I16(payload.scrollDeltaY);
    buffer := buffer + [payload.sourceDeviceType];
    assert buffer == FixedBytes(payload);
    buffer := AppendKeys(buffer + U32(|payload.keyEvents| % TWO_TO_THE_32), payload.keyEvents);
  }

  method AppendKeys(start: seq<byte>, keyEvents: seq<KeyEvent>) returns (buffer: seq<byte>)
    ensures buffer == start + KeyBytes(keyEvents)
  {
    buffer := start;
    for i := 0 to |keyEvents|
      invariant buffer == start + KeyBytes(keyEvents[..i])
    {
      assert keyEvents[..i + 1][..i] == keyEvents[..i];
      buffer := buffer + [keyEvents[i].code];
      buffer := buffer + Bool(keyEvents[i].pressed);
    }
    assert keyEvents[..|keyEvents|] == keyEvents;
  }

  /** Take `n` bytes at `offset` if they are there. */
  method Read(data: seq<byte>, offset: nat, n: nat) returns (bytes: Option<seq<byte>>, next: nat)
    requires offset <= |data|
    ensures next <= |data|
    ensures if offset + n <= |data| then bytes == Some(data[offset..offset + n]) && next == offset + n
            else bytes == None && next == offset
  {
    if offset + n > |data| {
      return None, offset;
    }
    return Some(data[offset..offset + n]), offset + n;
  }

  /** On any bytes: reads stay inside them and the outcome is that of Decode. */
  method DeserializeInputPayload(data: seq<byte>) returns (payload: Option<InputPayload>)
    ensures payload == Decode(data)
  {
    hide ToU32, ToI16;
    var bytes, offset := Read(data, 0, 1);
    if bytes.None? { return None; }
    var isMouseEvent := ToBool(bytes.value);
    bytes, offset := Read(data, offset, 4);
    if bytes.None? { return None; }
    var relativeX := ToU32(bytes.value);
    bytes, offset := Read(data, offset, 4);
    if bytes.None? { return None; }
    var relativeY := ToU32(bytes.value);
    bytes, offset := Read(data, offset, 1);
    if bytes.None? { return None; }
    var mouseButtons := bytes.value[0];
    bytes, offset := Read(data, offset, 2);
    if bytes.None? { return None; }
    var scrollDeltaX := ToI16(bytes.value);
    bytes, offset := Read(data, offset, 2);
    if bytes.None? { return None; }
    var scrollDeltaY := ToI16(bytes.value);
    bytes, offset := Read(data, offset, 1);
    if bytes.None? { return None; }
    var sourceDeviceType := bytes.value[0];
    bytes, offset := Read(data, offset, 4);
    if bytes.None? { return None; }
    var numKeyEvents := ToU32(bytes.value);
    var keyEvents := ReadKeys(data[19..], numKeyEvents);
    if keyEvents.None? { return None; }
    return Some(InputPayload(keyEvents.value, sourceDeviceType, isMouseEvent, relativeX, relativeY,
                             mouseButtons, scrollDeltaX, scrollDeltaY));
  }

  method ReadKeys(data: seq<byte>, n: nat) returns (keyEvents: Option<seq<KeyEvent>>)
    ensures keyEvents == if |data| < 2 * n then None else Some(KeysOf(data, n))
  {
    var read: seq<KeyEvent> := [];
    var offset := 0;
    for i := 0 to n
      invariant offset == 2 * i <= |data|
      invariant read == KeysOf(data, i)
    {
      var code, pressed;
      code, offset := Read(data, offset, 1);
      if code.None? { return None; }
      pressed, offset := Read(data, offset, 1);
      if pressed.None? { return None; }
      read := read + [KeyEvent(code.value[0], ToBool(pressed.value))];
      assert pressed.value == [data[2 * i + 1]];
    }
    return Some(read);
  }
}
