/** Types and sequence facts shared by every module. */
module Prelude {

  datatype Option<+T> = None | Some(value: T)

  type byte = x: int | 0 <= x < 256

  const TWO_TO_THE_32 := 0x1_0000_0000

  type uint32 = x: int | 0 <= x < 0x1_0000_0000

  type int16 = x: int | -0x8000 <= x < 0x8000

  /** The conversion of an integer to 16 bits, in two's complement. */
  function Wrap16(n: int): (r: int16)
    ensures r == n <==> -0x8000 <= n < 0x8000
    ensures (n - r) % 0x1_0000 == 0
  {
    var low := n % 0x1_0000;
    if low < 0x8000 then low else low - 0x1_0000
  }

  lemma Wrap16Adds(a: int, b: int)
    ensures Wrap16(Wrap16(a) + Wrap16(b)) == Wrap16(a + b)
  {
    var j, k := (a - Wrap16(a)) / 0x1_0000, (b - Wrap16(b)) / 0x1_0000;
    assert a + b == Wrap16(a) + Wrap16(b) + (j + k) * 0x1_0000;
  }

  function Concat<T>(ss: seq<seq<T>>): seq<T> {
    if ss == [] then [] else ss[0] + Concat(ss[1..])
  }

  lemma {:induction false} ConcatAppend<T>(a: seq<seq<T>>, b: seq<seq<T>>)
    ensures Concat(a + b) == Concat(a) + Concat(b)
  {
    if a == [] {
      assert a + b == b;
    } else {
      ConcatAppend(a[1..], b);
      TailOfAppend(a, b);
      Assoc(a[0], Concat(a[1..]), Concat(b));
    }
  }

  lemma Assoc<T>(a: seq<T>, b: seq<T>, c: seq<T>)
    ensures (a + b) + c == a + (b + c)
  {
  }

  lemma TailOfAppend<T>(a: seq<T>, b: seq<T>)
    requires a != []
    ensures (a + b)[0] == a[0] && (a + b)[1..] == a[1..] + b
  {
  }

  lemma TailOfCons<T>(x: T, s: seq<T>)
    ensures ([x] + s)[0] == x && ([x] + s)[1..] == s
  {
  }
}
