/** Decimal numbers in text, as the C++ library prints and reads them. */
module Text {
  import opened Prelude

  const DIGITS := "0123456789"

  predicate IsDigit(c: char) {
    '0' <= c <= '9'
  }

  /** The characters the number readers skip. */
  predicate IsSpace(c: char) {
    c == ' ' || c == '\t' || c == '\n' || c == '\r' || c == 11 as char || c == 12 as char
  }

  function DigitValue(c: char): (d: nat)
    requires IsDigit(c)
    ensures d < 10
  {
    c as int - '0' as int
  }

  /** std::to_string of a non-negative number. */
  function ToString(n: nat): (s: string)
    ensures s != []
    ensures forall i :: 0 <= i < |s| ==> IsDigit(s[i])
  {
    if n < 10 then [DIGITS[n]] else ToString(n / 10) + [DIGITS[n % 10]]
  }

  /** The number written by a string of digits. */
  function Value(s: string): nat
    requires forall i :: 0 <= i < |s| ==> IsDigit(s[i])
  {
    if s == [] then 0 else 10 * Value(s[..|s| - 1]) + DigitValue(s[|s| - 1])
  }

  lemma {:induction false} ValueOfToString(n: nat)
    ensures Value(ToString(n)) == n
  {
    var s := ToString(n);
    if n < 10 {
      assert s[..0] == [] && DigitValue(DIGITS[n]) == n;
    } else {
      ValueOfToString(n / 10);
      assert s[..|s| - 1] == ToString(n / 10);
      assert DigitValue(DIGITS[n % 10]) == n % 10;
    }
  }

  function SkipSpaces(s: string): (t: string)
    ensures |t| <= |s|
  {
    if s != [] && IsSpace(s[0]) then SkipSpaces(s[1..]) else s
  }

  /** The longest run of digits at the front. */
  function LeadingDigits(s: string): (t: string)
    ensures t <= s
    ensures forall i :: 0 <= i < |t| ==> IsDigit(t[i])
    ensures |t| < |s| ==> !IsDigit(s[|t|])
  {
    if s != [] && IsDigit(s[0]) then [s[0]] + LeadingDigits(s[1..]) else []
  }

  lemma {:induction false} LeadingDigitsOf(d: string, rest: string)
    requires forall i :: 0 <= i < |d| ==> IsDigit(d[i])
    requires rest != [] ==> !IsDigit(rest[0])
    ensures LeadingDigits(d + rest) == d
    decreases d
  {
    if d == [] {
      assert d + rest == rest;
    } else {
      TailOfAppend(d, rest);
      LeadingDigitsOf(d[1..], rest);
      assert d == [d[0]] + d[1..];
    }
  }

  const ULONG_MAX := 0xFFFF_FFFF_FFFF_FFFF

  /** std::stoul in base ten with a 64-bit unsigned long: blanks, an optional sign, then
      digits; what follows is not looked at. No digits or too large a number throws. */
  function Stoul(s: string): Option<nat> {
    var t := SkipSpaces(s);
    var signed := t != [] && (t[0] == '-' || t[0] == '+');
    var digits := LeadingDigits(if signed then t[1..] else t);
    if digits == [] || Value(digits) > ULONG_MAX then None
    else if signed && t[0] == '-' then Some((ULONG_MAX + 1 - Value(digits)) % (ULONG_MAX + 1))
    else Some(Value(digits))
  }

  lemma {:induction false} StoulOfToString(n: nat)
    requires n <= ULONG_MAX
    ensures Stoul(ToString(n)) == Some(n)
  {
    hide ToString, Value, LeadingDigits;
    var s := ToString(n);
    assert IsDigit(s[0]);
    ValueOfToString(n);
    LeadingDigitsOf(s, []);
    assert s + [] == s;
  }

  /** std::string::find of a character from a position on. */
  function Find(s: string, c: char, from: nat): (i: Option<nat>)
    ensures i.Some? ==> from <= i.value < |s| && s[i.value] == c
                        && forall j :: from <= j < i.value ==> s[j] != c
    ensures i.None? ==> forall j :: from <= j < |s| ==> s[j] != c
    decreases |s| - from
  {
    if from >= |s| then None
    else if s[from] == c then Some(from)
    else Find(s, c, from + 1)
  }

  /** The first `c` ends a field without one. */
  lemma {:induction false} FindEnds(field: string, c: char, rest: string)
    requires c !in field
    ensures var s := field + [c] + rest;
            Find(s, c, 0) == Some(|field|) && s[..|field|] == field && s[|field| + 1..] == rest
  {
    var s := field + [c] + rest;
    assert forall j :: 0 <= j < |field| ==> s[j] == field[j] && field[j] in field;
    assert s[|field|] == c;
  }

  lemma {:induction false} FindShift(before: string, s: string, c: char, from: nat)
    requires from <= |s|
    ensures Find(before + s, c, |before| + from)
            == match Find(s, c, from) case None => None case Some(i) => Some(|before| + i)
    decreases |s| - from
  {
    if from < |s| && s[from] != c {
      FindShift(before, s, c, from + 1);
    }
  }

  lemma Shifted(before: string, s: string, from: nat, to: nat)
    requires from <= to <= |s|
    ensures (before + s)[|before| + from..|before| + to] == s[from..to]
    ensures (before + s)[|before| + to..] == s[to..]
  {
  }
}
