/**
  The configuration file: one `key=value` line per setting, written from and read back into a
  map of typed values. Reading and printing floats belongs to the library and is a parameter.
 */
module ConfigFile {
  import opened Prelude
  import opened Text

  const PAUSE_COMBO_KEY := "input.pause_combo_vk"

  type int32 = x: int | -0x8000_0000 <= x < 0x8000_0000

  datatype Setting =
    | IntValue(n: int32)
    | BoolValue(b: bool)
    | FloatValue(f: real)
    | StringValue(s: string)
    | ComboValue(keys: seq<byte>)

  type Settings = map<string, Setting>

  /** `read` yields the float a whole text stands for, if it does; `show` prints one. */
  datatype Floats = Floats(read: string -> Option<real>, show: real -> string)

  // ---------------------------------------------------------------- numbers and blanks

  function IntString(n: int): string {
    if n < 0 then "-" + ToString(-n) else ToString(n)
  }

  /** A number at the front of a text, after blanks, and what follows it. Fails without digits
      or outside 32 bits. */
  function ReadInt(s: string): (r: Option<(int32, string)>)
    ensures r.Some? ==> |r.value.1| < |s|
  {
    var t := SkipSpaces(s);
    var signed := t != [] && (t[0] == '-' || t[0] == '+');
    var u := if signed then t[1..] else t;
    var digits := LeadingDigits(u);
    if digits == [] then None
    else
      var magnitude: int := Value(digits);
      var n := if signed && t[0] == '-' then -magnitude else magnitude;
      if -0x8000_0000 <= n < 0x8000_0000 then Some((n, u[|digits|..])) else None
  }

  /** Numbers read one after the other until one fails. */
  function ReadInts(s: string): seq<int32>
    decreases |s|
  {
    match ReadInt(s)
    case None => []
    case Some((n, rest)) => [n] + ReadInts(rest)
  }

  /** Whether a failing read of a number runs into the end of the text: the text is blank, or
      but for a sign, or all digits of too large a number. */
  predicate ReachesEnd(s: string) {
    var t := SkipSpaces(s);
    var u := if t != [] && (t[0] == '-' || t[0] == '+') then t[1..] else t;
    LeadingDigits(u) == u
  }

  /** Numbers are read until one fails, and that read stops short of the end. */
  predicate StopsInside(s: string)
    decreases |s|
  {
    match ReadInt(s)
    case None => !ReachesEnd(s)
    case Some((_, rest)) => StopsInside(rest)
  }

  /** A text that is a number from end to end. */
  function WholeInt(s: string): Option<int32> {
    match ReadInt(s)
    case Some((n, rest)) => if rest == [] then Some(n) else None
    case None => None
  }

  predicate IsBlank(c: char) {
    c == ' ' || c == '\t' || c == '\n' || c == '\r'
  }

  function TrimLeft(s: string): (t: string)
    ensures t == [] || !IsBlank(t[0])
    ensures s == [] || !IsBlank(s[0]) ==> t == s
    ensures forall c :: c in t ==> c in s
  {
    if s != [] && IsBlank(s[0]) then TrimLeft(s[1..]) else s
  }

  function TrimRight(s: string): (t: string)
    ensures t == [] || !IsBlank(t[|t| - 1])
    ensures s == [] || !IsBlank(s[|s| - 1]) ==> t == s
    ensures t <= s
  {
    if s != [] && IsBlank(s[|s| - 1]) then TrimRight(s[..|s| - 1]) else s
  }

  predicate Trimmed(s: string) {
    s == [] || (!IsBlank(s[0]) && !IsBlank(s[|s| - 1]))
  }

  function Trim(s: string): (t: string)
    ensures Trimmed(t)
    ensures Trimmed(s) ==> t == s
    ensures forall c :: c in t ==> c in s
  {
    var left := TrimLeft(s);
    var t := TrimRight(left);
    assert t != [] ==> t[0] == left[0];
    assert forall c :: c in t ==> c in left;
    t
  }

  predicate AllBlank(s: string) {
    forall i :: 0 <= i < |s| ==> IsBlank(s[i])
  }

  lemma BlankFirst(c: char, s: string)
    requires IsBlank(c) && AllBlank(s)
    ensures AllBlank([c] + s)
  {
  }

  lemma BlankLast(s: string, c: char)
    requires IsBlank(c) && AllBlank(s)
    ensures AllBlank(s + [c])
  {
  }

  lemma {:induction false} TrimLeftDropsBlanks(s: string)
    ensures |TrimLeft(s)| <= |s|
    ensures var n := |s| - |TrimLeft(s)|; s[n..] == TrimLeft(s) && AllBlank(s[..n])
  {
    hide IsBlank, AllBlank;
    if s == "" || !IsBlank(s[0]) {
      assert s[0..] == s && s[..0] == "";
      NothingIsBlank();
    } else {
      var rest := s[1..];
      TrimLeftDropsBlanks(rest);
      var n := |rest| - |TrimLeft(rest)|;
      BlankFirst(s[0], rest[..n]);
      assert s[n + 1..] == rest[n..] && s[..n + 1] == [s[0]] + rest[..n];
    }
  }

  lemma {:induction false} TrimRightDropsBlanks(s: string)
    ensures TrimRight(s) <= s && AllBlank(s[|TrimRight(s)|..])
  {
    hide IsBlank, AllBlank;
    if s != "" && IsBlank(s[|s| - 1]) {
      var init, c := s[..|s| - 1], s[|s| - 1];
      TrimRightDropsBlanks(init);
      BlankLast(init[|TrimRight(init)|..], c);
      assert s[|TrimRight(s)|..] == init[|TrimRight(init)|..] + [c];
    } else {
      NothingIsBlank();
      assert s[|s|..] == "";
    }
  }

  lemma NothingIsBlank()
    ensures AllBlank("")
  {
  }

  /** Trimming takes away blanks at both ends and nothing else. */
  lemma {:induction false} TrimDropsBlanks(s: string)
    ensures exists before, after :: s == before + Trim(s) + after && AllBlank(before) && AllBlank(after)
  {
    hide TrimLeft, TrimRight, AllBlank;
    TrimLeftDropsBlanks(s);
    var left := TrimLeft(s);
    TrimRightDropsBlanks(left);
    var before, after := s[..|s| - |left|], left[|Trim(s)|..];
    assert left == Trim(s) + after;
    Assoc(before, Trim(s), after);
  }

  // ---------------------------------------------------------------- writing

  function JoinKeys(keys: seq<byte>): string {
    if keys == [] then ""
    else if |keys| == 1 then ToString(keys[0])
    else ToString(keys[0]) + " " + JoinKeys(keys[1..])
  }

  function Show(floats: Floats, key: string, v: Setting): string {
    if key == PAUSE_COMBO_KEY then (if v.ComboValue? then JoinKeys(v.keys) else "")
    else
      match v
      case StringValue(s) => s
      case IntValue(n) => IntString(n)
      case FloatValue(f) => floats.show(f)
      case BoolValue(b) => if b then "true" else "false"
      case ComboValue(_) => "UnsupportedType"
  }

  function Line(floats: Floats, key: string, v: Setting): string {
    key + "=" + Show(floats, key, v)
  }

  /** The file, for one order of iterating over the map. */
  function Save(floats: Floats, m: Settings, order: seq<string>): string
    requires forall i :: 0 <= i < |order| ==> order[i] in m
  {
    if order == [] then ""
    else Line(floats, order[0], m[order[0]]) + "\n" + Save(floats, m, order[1..])
  }

  // ---------------------------------------------------------------- reading

  /** std::getline, repeated: a last line without its newline counts unless it is empty. */
  function Lines(s: string): seq<string>
    decreases |s|
  {
    if s == [] then []
    else
      match Find(s, '\n', 0)
      case None => [s]
      case Some(i) => [s[..i]] + Lines(s[i + 1..])
  }

  predicate IsKeyCode(n: int) {
    0 < n < 256
  }

  function KeyCodes(ns: seq<int32>): seq<byte> {
    if ns == [] then []
    else (if IsKeyCode(ns[0]) then [ns[0]] else []) + KeyCodes(ns[1..])
  }

  function Interpret(floats: Floats, key: string, text: string): Setting {
    if key == PAUSE_COMBO_KEY then ComboValue(KeyCodes(ReadInts(text)))
    else if text == "true" || text == "false" then BoolValue(text == "true")
    else if WholeInt(text).Some? then IntValue(WholeInt(text).value)
    else if floats.read(text).Some? then FloatValue(floats.read(text).value)
    else StringValue(text)
  }

  /** A line without '=' or with nothing behind the first one is skipped. */
  function LoadLine(floats: Floats, m: Settings, line: string): Settings {
    var eq := Find(line, '=', 0);
    if eq.None? || eq.value + 1 == |line| then m
    else
      var key := Trim(line[..eq.value]);
      m[key := Interpret(floats, key, Trim(line[eq.value + 1..]))]
  }

  /** Key codes that cannot be read to the end are to be reported with what is left of them, but
      a stream that has failed has no position: looking for the rest throws, and nothing
      catches it. */
  predicate Throws(line: string) {
    var eq := Find(line, '=', 0);
    && eq.Some? && eq.value + 1 < |line|
    && Trim(line[..eq.value]) == PAUSE_COMBO_KEY && StopsInside(Trim(line[eq.value + 1..]))
  }

  predicate AnyThrows(lines: seq<string>) {
    exists i :: 0 <= i < |lines| && Throws(lines[i])
  }

  /** The number of lines before the first that throws. */
  function Readable(lines: seq<string>): (n: nat)
    ensures n <= |lines|
  {
    if lines == [] || Throws(lines[0]) then 0 else 1 + Readable(lines[1..])
  }

  lemma {:induction false} ReadableStops(lines: seq<string>)
    ensures var n := Readable(lines);
            && (n < |lines| ==> Throws(lines[n]))
            && (forall i :: 0 <= i < n ==> !Throws(lines[i]))
    decreases lines
  {
    hide Throws;
    if lines != [] && !Throws(lines[0]) {
      ReadableStops(lines[1..]);
      assert forall i :: 1 <= i < |lines| ==> lines[i] == lines[1..][i - 1];
    }
  }

  function LoadLines(floats: Floats, m: Settings, lines: seq<string>): Settings {
    if lines == [] then m
    else LoadLine(floats, LoadLines(floats, m, lines[..|lines| - 1]), lines[|lines| - 1])
  }

  /** The settings in a file, unless reading it throws. */
  function Load(floats: Floats, file: string): Option<Settings> {
    if AnyThrows(Lines(file)) then None else Some(LoadLines(floats, map[], Lines(file)))
  }

  // ---------------------------------------------------------------- what survives

  predicate CleanKey(key: string) {
    Trimmed(key) && '=' !in key && '\n' !in key
  }

  /** A string that reads as a string: one trimmed line that is no boolean and no number. */
  predicate PlainString(floats: Floats, s: string) {
    && Trimmed(s) && '\n' !in s
    && s != "true" && s != "false"
    && WholeInt(s).None? && floats.read(s).None?
  }

  /** A float that reads as itself: what is printed of it is no whole number and is read back. */
  predicate PlainFloat(floats: Floats, f: real) {
    var s := floats.show(f);
    s != "true" && s != "false" && WholeInt(s).None? && floats.read(s) == Some(f)
  }

  predicate Restorable(floats: Floats, key: string, v: Setting) {
    && CleanKey(key)
    && (match v
        case ComboValue(keys) => key == PAUSE_COMBO_KEY && keys != [] && 0 !in keys
        case StringValue(s) => key != PAUSE_COMBO_KEY && s != "" && PlainString(floats, s)
        case FloatValue(f) => key != PAUSE_COMBO_KEY && PlainFloat(floats, f)
        case _ => key != PAUSE_COMBO_KEY)
  }

  /** What the library promises of printed floats: one non-empty line without blanks around it. */
  ghost predicate PrintsOneLine(floats: Floats) {
    forall f: real :: floats.show(f) != "" && Trimmed(floats.show(f)) && '\n' !in floats.show(f)
  }

  predicate IsOrderOf(m: Settings, order: seq<string>) {
    && (forall i :: 0 <= i < |order| ==> order[i] in m)
    && (forall k :: k in m ==> k in order)
    && (forall i, j :: 0 <= i < j < |order| ==> order[i] != order[j])
  }

  // ---------------------------------------------------------------- numbers survive

  function Magnitude(n: int): nat {
    if n < 0 then -n else n
  }

  lemma DigitsComeFirst(digits: string, rest: string)
    requires digits != [] && forall i :: 0 <= i < |digits| ==> IsDigit(digits[i])
    requires rest == [] || !IsDigit(rest[0])
    ensures var s := digits + rest;
            IsDigit(s[0]) && SkipSpaces(s) == s && LeadingDigits(s) == digits && s[|digits|..] == rest
  {
    hide LeadingDigits;
    var s := digits + rest;
    assert s[0] == digits[0] && IsDigit(digits[0]);
    LeadingDigitsOf(digits, rest);
  }

  lemma MinusComesFirst(s: string)
    ensures var t := "-" + s; t[0] == '-' && t[1..] == s && SkipSpaces(t) == t
  {
  }

  /** Digits up to something else are one number, with or without a minus in front. */
  lemma {:induction false} ReadIntOfDigits(digits: string, rest: string)
    requires digits != [] && forall i :: 0 <= i < |digits| ==> IsDigit(digits[i])
    requires rest == [] || !IsDigit(rest[0])
    requires Value(digits) <= 0x8000_0000
    ensures ReadInt("-" + (digits + rest)) == Some((-(Value(digits) as int), rest))
    ensures Value(digits) < 0x8000_0000 ==> ReadInt(digits + rest) == Some((Value(digits), rest))
  {
    hide Value, LeadingDigits, SkipSpaces;
    DigitsComeFirst(digits, rest);
    MinusComesFirst(digits + rest);
  }

  lemma ReadIntOfIntString(n: int32, rest: string)
    requires rest == [] || !IsDigit(rest[0])
    ensures ReadInt(IntString(n) + rest) == Some((n, rest))
  {
    hide ReadInt, ToString, Value;
    var digits := ToString(Magnitude(n));
    ValueOfToString(Magnitude(n));
    ReadIntOfDigits(digits, rest);
    Assoc("-", digits, rest);
  }

  lemma ReadIntSkipsSpace(s: string)
    ensures ReadInt(" " + s) == ReadInt(s)
  {
    hide LeadingDigits, Value;
    assert (" " + s)[1..] == s;
    assert SkipSpaces(" " + s) == SkipSpaces(s);
  }

  lemma {:induction false} ReadIntsOne(s: string, n: int32, rest: string)
    requires ReadInt(s) == Some((n, rest))
    ensures ReadInts(s) == [n] + ReadInts(rest)
  {
  }

  lemma ReadIntsOfNothing()
    ensures ReadInts("") == []
  {
  }

  lemma {:induction false} ReadIntsSkipsSpace(s: string)
    ensures ReadInts(" " + s) == ReadInts(s)
  {
    ReadIntSkipsSpace(s);
  }

  lemma {:induction false} ReadIntsOfJoinKeys(keys: seq<byte>)
    ensures ReadInts(JoinKeys(keys)) == keys
  {
    hide ReadInt, ReadInts, ToString;
    if keys == [] {
      ReadIntsOfNothing();
    } else {
      var first := ToString(keys[0]);
      var tail := if |keys| == 1 then "" else " " + JoinKeys(keys[1..]);
      ReadIntOfIntString(keys[0], tail);
      ReadIntsOne(first + tail, keys[0], tail);
      if |keys| == 1 {
        assert first + "" == first;
        ReadIntsOfNothing();
        assert keys == [keys[0]] + [];
      } else {
        Assoc(first, " ", JoinKeys(keys[1..]));
        ReadIntsSkipsSpace(JoinKeys(keys[1..]));
        ReadIntsOfJoinKeys(keys[1..]);
        assert keys == [keys[0]] + keys[1..];
      }
    }
  }

  lemma {:induction false} StopsInsideRest(s: string, n: int32, rest: string)
    requires ReadInt(s) == Some((n, rest))
    ensures StopsInside(s) <==> StopsInside(rest)
  {
  }

  lemma {:induction false} StopsInsideSkipsSpace(s: string)
    ensures StopsInside(" " + s) <==> StopsInside(s)
  {
    ReadIntSkipsSpace(s);
    assert (" " + s)[1..] == s;
    assert SkipSpaces(" " + s) == SkipSpaces(s);
  }

  lemma NothingStopsInside()
    ensures !StopsInside("")
  {
  }

  /** Printed key codes are read to the end. */
  lemma {:induction false} JoinedKeysAreRead(keys: seq<byte>)
    ensures !StopsInside(JoinKeys(keys))
  {
    hide ReadInt, StopsInside, ToString;
    NothingStopsInside();
    if keys != [] {
      var first := ToString(keys[0]);
      var tail := if |keys| == 1 then "" else " " + JoinKeys(keys[1..]);
      ReadIntOfIntString(keys[0], tail);
      StopsInsideRest(first + tail, keys[0], tail);
      if |keys| == 1 {
        assert first + "" == first;
      } else {
        Assoc(first, " ", JoinKeys(keys[1..]));
        StopsInsideSkipsSpace(JoinKeys(keys[1..]));
        JoinedKeysAreRead(keys[1..]);
      }
    }
  }

  lemma {:induction false} KeyCodesKeepsAll(keys: seq<byte>)
    requires 0 !in keys
    ensures KeyCodes(keys) == keys
  {
    if keys != [] {
      assert keys[0] in keys;
      KeyCodesKeepsAll(keys[1..]);
      assert keys == [keys[0]] + keys[1..];
    }
  }

  lemma DigitsAreTrimmed(s: string)
    requires s != [] && forall i :: 0 <= i < |s| ==> IsDigit(s[i])
    ensures Trimmed(s) && '\n' !in s
  {
    assert IsDigit(s[0]) && IsDigit(s[|s| - 1]);
    forall c | c in s ensures c != '\n' {
      var i :| 0 <= i < |s| && s[i] == c;
      assert IsDigit(s[i]);
    }
  }

  lemma {:induction false} JoinKeysIsTrimmed(keys: seq<byte>)
    requires keys != []
    ensures JoinKeys(keys) != "" && Trimmed(JoinKeys(keys)) && '\n' !in JoinKeys(keys)
  {
    var first := ToString(keys[0]);
    DigitsAreTrimmed(first);
    if |keys| > 1 {
      JoinKeysIsTrimmed(keys[1..]);
      var tail := JoinKeys(keys[1..]);
      var s := first + " " + tail;
      assert s[0] == first[0] && s[|s| - 1] == tail[|tail| - 1];
    }
  }

  lemma IntStringIsTrimmed(n: int32)
    ensures IntString(n) != "" && Trimmed(IntString(n)) && '\n' !in IntString(n)
    ensures IntString(n) != "true" && IntString(n) != "false"
  {
    var digits := ToString(Magnitude(n));
    DigitsAreTrimmed(digits);
    var s := IntString(n);
    assert s[|s| - 1] == digits[|digits| - 1];
    assert s[0] == '-' || IsDigit(s[0]);
  }

  /** What is printed for a restorable value is one trimmed, non-empty line that reads back
      as that value. */
  lemma ShowReadsBack(floats: Floats, key: string, v: Setting)
    requires Restorable(floats, key, v) && PrintsOneLine(floats)
    ensures var s := Show(floats, key, v);
            && s != "" && Trimmed(s) && '\n' !in s
            && Interpret(floats, key, s) == v
            && (key == PAUSE_COMBO_KEY ==> !StopsInside(s))
  {
    match v
    case ComboValue(keys) =>
      JoinedKeysAreRead(keys);
      JoinKeysIsTrimmed(keys);
      ReadIntsOfJoinKeys(keys);
      KeyCodesKeepsAll(keys);
    case IntValue(n) =>
      IntStringIsTrimmed(n);
      ReadIntOfIntString(n, []);
      assert IntString(n) + [] == IntString(n);
    case _ =>
  }

  // ---------------------------------------------------------------- the whole file

  /** A setting that makes one line of the file. */
  predicate Neat(floats: Floats, key: string, v: Setting) {
    var s := Show(floats, key, v);
    CleanKey(key) && Trimmed(s) && '\n' !in s && (key == PAUSE_COMBO_KEY ==> !StopsInside(s))
  }

  /** Such a setting survives exactly if something is printed of it and reads as it. */
  lemma RestorableIff(floats: Floats, key: string, v: Setting)
    requires Neat(floats, key, v) && PrintsOneLine(floats)
    ensures Restorable(floats, key, v)
            <==> Show(floats, key, v) != "" && Interpret(floats, key, Show(floats, key, v)) == v
  {
    hide StopsInside, WholeInt;
    if Restorable(floats, key, v) {
      ShowReadsBack(floats, key, v);
    } else if v.ComboValue? && key == PAUSE_COMBO_KEY {
      KeyCodesAreKeys(ReadInts(JoinKeys(v.keys)));
    }
  }

  predicate AllNeat(floats: Floats, m: Settings, order: seq<string>) {
    forall i :: 0 <= i < |order| ==> order[i] in m && Neat(floats, order[i], m[order[i]])
  }

  function LineSeq(floats: Floats, m: Settings, order: seq<string>): (ls: seq<string>)
    requires forall i :: 0 <= i < |order| ==> order[i] in m
    ensures |ls| == |order|
  {
    seq(|order|, i requires 0 <= i < |order| => Line(floats, order[i], m[order[i]]))
  }

  lemma NeatIsOneLine(floats: Floats, key: string, v: Setting)
    requires Neat(floats, key, v)
    ensures '\n' !in Line(floats, key, v) && !Throws(Line(floats, key, v))
  {
    hide StopsInside, Trim, Show;
    FindEnds(key, '=', Show(floats, key, v));
  }

  lemma {:induction false} LinesCons(line: string, rest: string)
    requires '\n' !in line
    ensures Lines(line + "\n" + rest) == [line] + Lines(rest)
  {
    var s := line + "\n" + rest;
    assert forall j :: 0 <= j < |line| ==> s[j] == line[j] && line[j] in line;
    assert s[|line|] == '\n' && s[..|line|] == line && s[|line| + 1..] == rest;
  }

  lemma {:induction false} LinesOfSave(floats: Floats, m: Settings, order: seq<string>)
    requires AllNeat(floats, m, order)
    ensures Lines(Save(floats, m, order)) == LineSeq(floats, m, order)
    ensures !AnyThrows(LineSeq(floats, m, order))
    decreases order
  {
    hide Line, Neat, Throws;
    if order != [] {
      var first := Line(floats, order[0], m[order[0]]);
      NeatIsOneLine(floats, order[0], m[order[0]]);
      LinesCons(first, Save(floats, m, order[1..]));
      assert AllNeat(floats, m, order[1..]);
      LinesOfSave(floats, m, order[1..]);
      assert LineSeq(floats, m, order) == [first] + LineSeq(floats, m, order[1..]);
    }
  }

  /** Every setting of which something is printed, as what the printed text reads as. */
  function Reread(floats: Floats, m: Settings, order: seq<string>): Settings
    requires forall i :: 0 <= i < |order| ==> order[i] in m
  {
    map k | k in order && Show(floats, k, m[k]) != "" :: Interpret(floats, k, Show(floats, k, m[k]))
  }

  lemma RereadSnoc(floats: Floats, m: Settings, init: seq<string>, key: string)
    requires key in m && forall i :: 0 <= i < |init| ==> init[i] in m
    ensures var s := Show(floats, key, m[key]);
            Reread(floats, m, init + [key])
            == if s == "" then Reread(floats, m, init)
               else Reread(floats, m, init)[key := Interpret(floats, key, s)]
  {
    hide Show, Interpret;
    assert forall k :: k in init + [key] <==> k in init || k == key;
  }

  /** Reading the lines back gives just that. */
  lemma {:induction false} LoadReadsPrinted(floats: Floats, m: Settings, order: seq<string>)
    requires AllNeat(floats, m, order)
    requires forall i, j :: 0 <= i < j < |order| ==> order[i] != order[j]
    ensures LoadLines(floats, map[], LineSeq(floats, m, order)) == Reread(floats, m, order)
    decreases order
  {
    hide LoadLine, Line, Show, CleanKey, Interpret, Neat, Reread;
    if order == [] {
      NothingReread(floats, m);
    } else {
      var init, key := order[..|order| - 1], order[|order| - 1];
      LoadReadsPrinted(floats, m, init);
      assert LineSeq(floats, m, order)[..|order| - 1] == LineSeq(floats, m, init);
      LoadPrinted(floats, Reread(floats, m, init), key, m[key]);
      RereadSnoc(floats, m, init, key);
      assert order == init + [key];
    }
  }

  lemma NothingReread(floats: Floats, m: Settings)
    ensures Reread(floats, m, []) == map[]
  {
    hide Show, Interpret;
  }

  lemma LoadPrinted(floats: Floats, m: Settings, key: string, v: Setting)
    requires Neat(floats, key, v)
    ensures var s := Show(floats, key, v);
            LoadLine(floats, m, Line(floats, key, v)) == if s == "" then m else m[key := Interpret(floats, key, s)]
  {
    hide Show, Interpret, Trim, StopsInside;
    FindEnds(key, '=', Show(floats, key, v));
  }

  lemma InterpretIsNeat(floats: Floats, key: string, text: string)
    requires CleanKey(key) && Trimmed(text) && '\n' !in text && PrintsOneLine(floats)
    ensures Neat(floats, key, Interpret(floats, key, text))
  {
    hide StopsInside, ReadInts, WholeInt, CleanKey, JoinKeys, KeyCodes, IntString;
    match Interpret(floats, key, text)
    case ComboValue(keys) =>
      JoinedKeysAreRead(keys);
      if keys == [] {
        NothingJoined();
      } else {
        JoinKeysIsTrimmed(keys);
      }
    case IntValue(n) => IntStringIsTrimmed(n);
    case _ =>
  }

  lemma NothingJoined()
    ensures JoinKeys([]) == ""
  {
  }

  lemma {:induction false} KeyCodesAreKeys(ns: seq<int32>)
    ensures 0 !in KeyCodes(ns)
  {
    if ns != [] {
      KeyCodesAreKeys(ns[1..]);
    }
  }

  lemma {:induction false} LinesHaveNoNewline(s: string)
    ensures forall i :: 0 <= i < |Lines(s)| ==> '\n' !in Lines(s)[i]
    decreases |s|
  {
    if s != [] {
      match Find(s, '\n', 0)
      case None =>
      case Some(i) => LinesHaveNoNewline(s[i + 1..]);
    }
  }

  lemma {:induction false} LoadedIsNeat(floats: Floats, lines: seq<string>)
    requires PrintsOneLine(floats) && forall i :: 0 <= i < |lines| ==> '\n' !in lines[i]
    ensures forall k :: k in LoadLines(floats, map[], lines) ==> Neat(floats, k, LoadLines(floats, map[], lines)[k])
    decreases lines
  {
    hide Interpret, Neat, PrintsOneLine;
    if lines != [] {
      var init, line := lines[..|lines| - 1], lines[|lines| - 1];
      assert forall i :: 0 <= i < |init| ==> init[i] == lines[i];
      LoadedIsNeat(floats, init);
      var eq := Find(line, '=', 0);
      if eq.Some? && eq.value + 1 < |line| {
        var key, text := Trim(line[..eq.value]), Trim(line[eq.value + 1..]);
        PartsAreClean(line, eq.value);
        InterpretIsNeat(floats, key, text);
      }
    }
  }

  lemma PartsAreClean(line: string, eq: nat)
    requires '\n' !in line && Find(line, '=', 0) == Some(eq)
    ensures CleanKey(Trim(line[..eq])) && '\n' !in Trim(line[eq + 1..])
  {
    assert forall c :: c in line[..eq] || c in line[eq + 1..] ==> c in line;
    assert '=' !in line[..eq];
  }

  /** Saving and loading goes through and restores the settings, for every order in which they
      are written, exactly when each of them is restorable: a trimmed one-line key without '=',
      and under the pause key a non-empty list of non-zero codes, elsewhere an int, a bool, a
      string that reads as a string or a float that reads as itself. */
  lemma {:induction false} SaveThenLoad(floats: Floats, m: Settings, order: seq<string>)
    requires IsOrderOf(m, order) && PrintsOneLine(floats)
    ensures Load(floats, Save(floats, m, order)) == Some(m)
            <==> forall k :: k in m ==> Restorable(floats, k, m[k])
  {
    hide Lines, Save, LoadLines, Restorable, Show, Interpret, Neat, AnyThrows, PrintsOneLine, Reread;
    var file := Save(floats, m, order);
    LinesHaveNoNewline(file);
    LoadedIsNeat(floats, Lines(file));
    if (forall k :: k in m ==> Restorable(floats, k, m[k])) || Load(floats, file) == Some(m) {
      forall k | k in m ensures Neat(floats, k, m[k]) {
        if Restorable(floats, k, m[k]) {
          RestorableIsNeat(floats, k, m[k]);
        }
      }
      LinesOfSave(floats, m, order);
      LoadReadsPrinted(floats, m, order);
      forall k | k in m
        ensures Restorable(floats, k, m[k])
                <==> Show(floats, k, m[k]) != "" && Interpret(floats, k, Show(floats, k, m[k])) == m[k]
      {
        RestorableIff(floats, k, m[k]);
      }
      SameMapIff(floats, m, order);
    }
  }

  lemma {:induction false} SameMapIff(floats: Floats, m: Settings, order: seq<string>)
    requires IsOrderOf(m, order)
    ensures Reread(floats, m, order) == m
            <==> forall k :: k in m ==>
                   Show(floats, k, m[k]) != "" && Interpret(floats, k, Show(floats, k, m[k])) == m[k]
  {
    hide Show, Interpret;
    var r := Reread(floats, m, order);
    if r == m {
      forall k | k in m
        ensures Show(floats, k, m[k]) != "" && Interpret(floats, k, Show(floats, k, m[k])) == m[k]
      {
        assert k in r && r[k] == m[k];
      }
    }
  }

  lemma RestorableIsNeat(floats: Floats, key: string, v: Setting)
    requires Restorable(floats, key, v) && PrintsOneLine(floats)
    ensures Neat(floats, key, v)
  {
    hide Show, Interpret, StopsInside, PrintsOneLine;
    RestorableIsClean(floats, key, v);
    ShowReadsBack(floats, key, v);
  }

  /** A float of which a whole number is printed does not come back: it is read as that int. */
  lemma WholeFloatIsReadAsInt(floats: Floats, key: string, f: real)
    requires key != PAUSE_COMBO_KEY && WholeInt(floats.show(f)).Some?
    ensures !Restorable(floats, key, FloatValue(f))
    ensures Interpret(floats, key, Show(floats, key, FloatValue(f))) == IntValue(WholeInt(floats.show(f)).value)
  {
    WordsAreNoNumbers();
  }

  lemma WordsAreNoNumbers()
    ensures WholeInt("true").None? && WholeInt("false").None?
  {
  }

  lemma PauseKeyIsClean()
    ensures CleanKey(PAUSE_COMBO_KEY)
  {
  }

  /** A line for the pause key throws exactly when its key codes stop short of the end. */
  lemma {:induction false} PauseLineThrowsIff(text: string)
    requires text != "" && Trimmed(text)
    ensures Throws(PAUSE_COMBO_KEY + "=" + text) <==> StopsInside(text)
  {
    hide StopsInside, Trim;
    PauseKeyIsClean();
    FindEnds(PAUSE_COMBO_KEY, '=', text);
  }

  /** Loading can throw: key codes separated by commas do it. */
  lemma LoadCanThrow(floats: Floats)
    ensures Load(floats, PAUSE_COMBO_KEY + "=" + "17,18").None?
  {
    hide StopsInside, Throws, Lines, LoadLines;
    var text := "17,18";
    var line := PAUSE_COMBO_KEY + "=" + text;
    PauseKeyIsClean();
    PauseLineThrowsIff(text);
    CommaStopsInside();
    assert forall c :: c in line ==> c in PAUSE_COMBO_KEY || c == '=' || c in text;
    OneLine(line);
    assert [line][0] == line && Throws(line);
  }

  lemma {:induction false} OneLine(s: string)
    requires s != "" && '\n' !in s
    ensures Lines(s) == [s]
  {
  }

  lemma CommaStopsInside()
    ensures StopsInside("17,18")
  {
    hide ReadInt, ReachesEnd, Value;
    SeventeenIs17();
    ReadIntOfDigits("17", ",18");
    assert "17" + ",18" == "17,18";
    CommaIsNoNumber();
  }

  lemma CommaIsNoNumber()
    ensures ReadInt(",18").None? && !ReachesEnd(",18")
  {
    LeadingDigitsOf("", ",18");
    assert "" + ",18" == ",18";
  }

  lemma SeventeenIs17()
    ensures Value("17") == 17
  {
    assert "17"[..1] == "1" && "1"[..0] == "";
  }

  lemma RestorableIsClean(floats: Floats, key: string, v: Setting)
    requires Restorable(floats, key, v)
    ensures CleanKey(key)
  {
  }

  lemma {:induction false} SaveStep(floats: Floats, m: Settings, order: seq<string>, i: nat)
    requires i < |order| && forall k :: 0 <= k < |order| ==> order[k] in m
    ensures Save(floats, m, order[i..])
            == Line(floats, order[i], m[order[i]]) + "\n" + Save(floats, m, order[i + 1..])
  {
    hide Line;
    assert order[i..][1..] == order[i + 1..];
  }

  lemma {:induction false} SaveEnd(floats: Floats, m: Settings, order: seq<string>)
    requires forall k :: 0 <= k < |order| ==> order[k] in m
    ensures order[0..] == order && order[|order|..] == [] && Save(floats, m, order[|order|..]) == ""
  {
  }

  // ---------------------------------------------------------------- the object

  datatype Outcome = Missing | Loaded | Threw

  lemma NoneThrows(read: seq<string>, line: string)
    requires !AnyThrows(read) && !Throws(line)
    ensures !AnyThrows(read + [line])
  {
  }

  lemma FirstThrowIs(read: seq<string>, line: string, rest: seq<string>)
    requires !AnyThrows(read) && Throws(line)
    ensures var lines := read + [line] + rest;
            AnyThrows(lines) && Readable(lines) == |read| && lines[..|read|] == read
  {
    hide Throws;
    var lines := read + [line] + rest;
    assert lines[|read|] == line;
    assert forall i :: 0 <= i < |read| ==> lines[i] == read[i];
    ReadableStops(lines);
  }

  class Config {
    const floats: Floats
    var values: Settings

    constructor (floats: Floats)
      ensures this.floats == floats && values == map[]
    {
      this.floats, values := floats, map[];
    }

    method Set(key: string, value: Setting)
      modifies this
      ensures values == old(values)[key := value]
    {
      values := values[key := value];
    }

    /** `file` is None when the file cannot be opened. Settings read before a line that throws
        stay. */
    method LoadFromFile(file: Option<string>) returns (outcome: Outcome)
      modifies this
      ensures outcome == Missing <==> file.None?
      ensures outcome == Threw <==> file.Some? && AnyThrows(Lines(file.value))
      ensures values == if file.None? then old(values)
                        else LoadLines(floats, map[], Lines(file.value)[..Readable(Lines(file.value))])
    {
      hide LoadLine, Throws;
      if file.None? {
        return Missing;
      }
      values := map[];
      var rest := file.value;
      ghost var read: seq<string> := [];
      assert read + Lines(rest) == Lines(rest);
      while rest != ""
        invariant read + Lines(rest) == Lines(file.value)
        invariant values == LoadLines(floats, map[], read) && !AnyThrows(read)
        decreases |rest|
      {
        var line;
        ghost var left := rest;
        line, rest := GetLine(rest);
        Assoc(read, [line], Lines(rest));
        assert (read + [line])[..|read|] == read;
        var threw := ReadLine(line);
        if threw {
          FirstThrowIs(read, line, Lines(rest));
          return Threw;
        }
        NoneThrows(read, line);
        read := read + [line];
      }
      assert read + [] == read;
      ReadableStops(read);
      assert read[..|read|] == read;
      return Loaded;
    }

    method GetLine(s: string) returns (line: string, rest: string)
      requires s != ""
      ensures |rest| < |s| && Lines(s) == [line] + Lines(rest)
    {
      hide Find;
      var end := Find(s, '\n', 0);
      if end.None? {
        assert [s] + [] == [s];
        return s, "";
      }
      return s[..end.value], s[end.value + 1..];
    }

    method ReadLine(line: string) returns (threw: bool)
      modifies this
      ensures threw <==> Throws(line)
      ensures values == if threw then old(values) else LoadLine(floats, old(values), line)
    {
      hide ReadInts, WholeInt, KeyCodes, Trim, StopsInside;
      threw := false;
      var eq := Find(line, '=', 0);
      if eq.Some? && eq.value + 1 < |line| {
        var key := Trim(line[..eq.value]);
        var text := Trim(line[eq.value + 1..]);
        if key == PAUSE_COMBO_KEY {
          var combo;
          combo, threw := ReadCombo(text);
          if threw {
            return;
          }
          Set(key, ComboValue(combo));
        } else if text == "true" || text == "false" {
          Set(key, BoolValue(text == "true"));
        } else {
          var n := WholeInt(text);
          var f := floats.read(text);
          if n.Some? {
            Set(key, IntValue(n.value));
          } else if f.Some? {
            Set(key, FloatValue(f.value));
          } else {
            Set(key, StringValue(text));
          }
        }
      }
    }

    /** Throws when the stream has failed before its end. */
    method ReadCombo(text: string) returns (combo: seq<byte>, threw: bool)
      ensures threw <==> StopsInside(text)
      ensures combo == KeyCodes(ReadInts(text))
    {
      hide ReadInt, ReachesEnd;
      combo := [];
      var rest := text;
      var next := ReadInt(rest);
      assert combo + KeyCodes(ReadInts(rest)) == KeyCodes(ReadInts(rest));
      while next.Some?
        invariant next == ReadInt(rest)
        invariant combo + KeyCodes(ReadInts(rest)) == KeyCodes(ReadInts(text))
        invariant StopsInside(rest) <==> StopsInside(text)
        decreases |rest|
      {
        var n := next.value.0;
        Assoc(combo, if IsKeyCode(n) then [n] else [], KeyCodes(ReadInts(next.value.1)));
        if IsKeyCode(n) {
          combo := combo + [n];
        } else {
          assert combo + [] == combo;
        }
        rest := next.value.1;
        next := ReadInt(rest);
      }
      assert combo + [] == combo;
      threw := !ReachesEnd(rest);
    }

    /** `order` is the order in which the map happens to be iterated; nothing is written when the
        file cannot be opened. */
    method SaveToFile(order: seq<string>, opens: bool) returns (written: Option<string>)
      requires IsOrderOf(values, order)
      ensures written == if opens then Some(Save(floats, values, order)) else None
    {
      hide Save, Show;
      if !opens {
        return None;
      }
      SaveEnd(floats, values, order);
      var file := "";
      for i := 0 to |order|
        invariant file + Save(floats, values, order[i..]) == Save(floats, values, order)
      {
        var text := Show(floats, order[i], values[order[i]]);
        SaveStep(floats, values, order, i);
        Assoc(file, Line(floats, order[i], values[order[i]]) + "\n", Save(floats, values, order[i + 1..]));
        file := file + (order[i] + "=" + text + "\n");
      }
      assert file + "" == file;
      return Some(file);
    }
  }
}
