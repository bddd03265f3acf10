/** Streams of key presses and releases, and the 32-byte bitmask that records held keys. */
module KeyEvents {
  import opened Prelude

  datatype KeyEvent = KeyEvent(code: byte, pressed: bool)

  function Apply(held: set<byte>, e: KeyEvent): set<byte> {
    if e.pressed then held + {e.code} else held - {e.code}
  }

  /** The keys held after a stream, starting from `held`. */
  function Held(held: set<byte>, es: seq<KeyEvent>): set<byte> {
    if es == [] then held else Apply(Held(held, es[..|es| - 1]), es[|es| - 1])
  }

  /** Every event of the stream changes the state of its key. */
  predicate Effective(held: set<byte>, es: seq<KeyEvent>) {
    es == [] ||
    (var last := es[|es| - 1];
     Effective(held, es[..|es| - 1]) && (last.pressed <==> last.code !in Held(held, es[..|es| - 1])))
  }

  /** The presses and releases of one key. */
  function OfKey(es: seq<KeyEvent>, code: byte): seq<bool> {
    if es == [] then []
    else
      var last := es[|es| - 1];
      OfKey(es[..|es| - 1], code) + if last.code == code then [last.pressed] else []
  }

  /** Press, release, press, ... */
  predicate Alternates(bs: seq<bool>) {
    forall i :: 0 <= i < |bs| ==> (bs[i] <==> i % 2 == 0)
  }

  /** From no keys held, events that all change something alternate strictly for every key,
      starting with a press, and the key is held after an odd number of them. */
  lemma {:induction false} EffectiveAlternates(es: seq<KeyEvent>, code: byte)
    requires Effective({}, es)
    ensures Alternates(OfKey(es, code))
    ensures code in Held({}, es) <==> |OfKey(es, code)| % 2 == 1
    decreases es
  {
    if es != [] {
      EffectiveAlternates(es[..|es| - 1], code);
    }
  }

  /** The last event of the key is a press. */
  predicate KeyDown(es: seq<KeyEvent>, code: byte) {
    var events := OfKey(es, code);
    events != [] && events[|events| - 1]
  }

  /** A key is held exactly if its last event is a press; where every event changes something
      that is so after an odd number of them. */
  lemma {:induction false} HeldIffDown(es: seq<KeyEvent>, code: byte)
    ensures code in Held({}, es) <==> KeyDown(es, code)
    ensures Effective({}, es) ==> (KeyDown(es, code) <==> |OfKey(es, code)| % 2 == 1)
    decreases es
  {
    if es != [] {
      HeldIffDown(es[..|es| - 1], code);
    }
    if Effective({}, es) {
      EffectiveAlternates(es, code);
    }
  }

  lemma {:induction false} HeldSnoc(held: set<byte>, es: seq<KeyEvent>, e: KeyEvent)
    ensures Held(held, es + [e]) == Apply(Held(held, es), e)
    ensures Effective(held, es + [e]) <==> Effective(held, es) && (e.pressed <==> e.code !in Held(held, es))
  {
    assert (es + [e])[..|es|] == es;
  }

  lemma {:induction false} HeldAppend(held: set<byte>, a: seq<KeyEvent>, b: seq<KeyEvent>)
    ensures Held(held, a + b) == Held(Held(held, a), b)
    decreases b
  {
    if b == [] {
      assert a + b == a;
    } else {
      assert (a + b)[..|a + b| - 1] == a + b[..|b| - 1];
      HeldAppend(held, a, b[..|b| - 1]);
    }
  }

  // ---------------------------------------------------------------- the bitmask

  /** 1 << i */
  function Bit(i: nat): bv8
    requires i < 8
  {
    if i == 0 then 1 else if i == 1 then 2 else if i == 2 then 4 else if i == 3 then 8
    else if i == 4 then 16 else if i == 5 then 32 else if i == 6 then 64 else 128
  }

  lemma BitsAreSeparate(m: bv8, i: nat, j: nat)
    requires i < 8 && j < 8
    ensures (m | Bit(i)) & Bit(j) != 0 <==> i == j || m & Bit(j) != 0
    ensures (m & !Bit(i)) & Bit(j) != 0 <==> i != j && m & Bit(j) != 0
  {
    if i == j {
      SameBit(m, Bit(i));
    } else {
      assert Bit(i) & Bit(j) == 0;
      OtherBit(m, Bit(i), Bit(j));
    }
  }

  lemma SameBit(m: bv8, b: bv8)
    requires b != 0
    ensures (m | b) & b != 0 && (m & !b) & b == 0
  {
  }

  lemma OtherBit(m: bv8, b: bv8, c: bv8)
    requires b & c == 0
    ensures (m | b) & c == m & c && (m & !b) & c == m & c
  {
  }

  function Switched(m: bv8, i: nat, on: bool): bv8
    requires i < 8
  {
    if on then m | Bit(i) else m & !Bit(i)
  }

  predicate IsOn(m: bv8, i: nat)
    requires i < 8
  {
    m & Bit(i) != 0
  }

  /** Key code 0 has no bit: it is never recorded. */
  predicate Recorded(mask: seq<bv8>, code: byte)
    requires |mask| == 32
  {
    code != 0 && IsOn(mask[code / 8], code % 8)
  }

  ghost function Keys(mask: seq<bv8>): set<byte>
    requires |mask| == 32
  {
    set code: byte | 0 <= code < 256 && Recorded(mask, code)
  }

  function WithBit(mask: seq<bv8>, code: byte, pressed: bool): (r: seq<bv8>)
    requires |mask| == 32
    ensures |r| == 32
  {
    var i := code / 8;
    mask[i := Switched(mask[i], code % 8, pressed)]
  }

  lemma SwitchedIsOn(m: bv8, i: nat, on: bool, j: nat)
    requires i < 8 && j < 8
    ensures IsOn(Switched(m, i, on), j) <==> if i == j then on else IsOn(m, j)
  {
    hide Bit;
    BitsAreSeparate(m, i, j);
  }

  lemma WithBitRecords(mask: seq<bv8>, code: byte, pressed: bool, other: byte)
    requires |mask| == 32 && code != 0
    ensures Recorded(WithBit(mask, code, pressed), other)
            <==> if other == code then pressed else Recorded(mask, other)
  {
    hide IsOn, Switched;
    var i, j := code / 8, other / 8;
    if i == j {
      SwitchedIsOn(mask[i], code % 8, pressed, other % 8);
      assert code % 8 == other % 8 <==> code == other;
    } else {
      assert WithBit(mask, code, pressed)[j] == mask[j];
    }
  }

  lemma WithBitApplies(mask: seq<bv8>, code: byte, pressed: bool)
    requires |mask| == 32 && code != 0
    ensures Keys(WithBit(mask, code, pressed)) == Apply(Keys(mask), KeyEvent(code, pressed))
  {
    hide Recorded, WithBit;
    forall other: byte | true
      ensures Recorded(WithBit(mask, code, pressed), other)
              <==> if other == code then pressed else Recorded(mask, other)
    {
      WithBitRecords(mask, code, pressed, other);
    }
  }

  class KeyBitmask {
    const bytes: array<bv8>

    constructor ()
      ensures fresh(bytes) && bytes.Length == 32
      ensures Keys(bytes[..]) == {}
    {
      bytes := new bv8[32](_ => 0);
      new;
      forall code: byte | true ensures !Recorded(bytes[..], code) {
        assert bytes[..][code / 8] == 0;
      }
    }

    method IsPressed(code: byte) returns (pressed: bool)
      requires bytes.Length == 32
      ensures pressed <==> code in Keys(bytes[..])
    {
      if code == 0 {
        return false;
      }
      var byteIndex, bitIndex := code / 8, code % 8;
      return bytes[byteIndex] & Bit(bitIndex) != 0;
    }

    method Update(code: byte, pressed: bool)
      requires bytes.Length == 32
      modifies bytes
      ensures Keys(bytes[..]) == if code == 0 then old(Keys(bytes[..]))
                                 else Apply(old(Keys(bytes[..])), KeyEvent(code, pressed))
    {
      if code == 0 {
        return;
      }
      hide Keys, Bit, Recorded, IsOn, Apply;
      var byteIndex, bitIndex := code / 8, code % 8;
      if pressed {
        bytes[byteIndex] := bytes[byteIndex] | Bit(bitIndex);
      } else {
        bytes[byteIndex] := bytes[byteIndex] & !Bit(bitIndex);
      }
      assert bytes[byteIndex] == Switched(old(bytes[byteIndex]), bitIndex, pressed);
      assert bytes[..] == WithBit(old(bytes[..]), code, pressed);
      WithBitApplies(old(bytes[..]), code, pressed);
    }
  }
}
