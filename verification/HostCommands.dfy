/**
  The colon-separated text commands with which the host's panel manages clients, and the
  server's reading of them.
 */
module HostCommands {
  import opened Prelude
  import opened Text

  datatype HostCommand =
    | ShutdownServer
    | Kick(id: uint32)
    | Rename(id: uint32, name: string)
    | ToggleInput(id: uint32, enabled: bool)
    | Malformed
    | Unrecognized

  const SHUTDOWN := "shutdown_server"
  const KICK := "kick_client:"
  const RENAME := "rename_client:"
  const TOGGLE := "toggle_input_client:"
  const NAME_LIMIT := 64

  function PrintKick(id: uint32): string {
    KICK + ToString(id)
  }

  function PrintRename(id: uint32, name: string): string {
    RENAME + ToString(id) + ":" + name
  }

  function PrintToggle(id: uint32, enabled: bool): string {
    TOGGLE + ToString(id) + ":" + (if enabled then "true" else "false")
  }

  /** The client id is the text between the first two colons; the argument is all the rest. */
  function IdAndArgument(text: string): Option<(uint32, string)> {
    var first := Find(text, ':', 0);
    if first.None? then None
    else
      var second := Find(text, ':', first.value + 1);
      if second.None? then None
      else
        var id := Stoul(text[first.value + 1..second.value]);
        if id.None? then None
        else Some((id.value % TWO_TO_THE_32, text[second.value + 1..]))
  }

  function Parse(text: string): HostCommand {
    if text == SHUTDOWN then ShutdownServer
    else if KICK <= text then (
      match Stoul(text[|KICK|..])
      case None => Malformed
      case Some(n) => Kick(n % TWO_TO_THE_32)
    )
    else if RENAME <= text then (
      match IdAndArgument(text)
      case None => Malformed
      case Some((id, name)) => if 0 < |name| < NAME_LIMIT then Rename(id, name) else Malformed
    )
    else if TOGGLE <= text then (
      match IdAndArgument(text)
      case None => Malformed
      case Some((id, state)) => ToggleInput(id, state == "true")
    )
    else Unrecognized
  }

  // Which reading applies is settled by the first letter.

  lemma ReadsAsKick(rest: string)
    ensures Parse(KICK + rest)
            == if Stoul(rest).None? then Malformed else Kick(Stoul(rest).value % TWO_TO_THE_32)
  {
    hide Stoul, IdAndArgument;
    var text := KICK + rest;
    assert text[0] == KICK[0] != SHUTDOWN[0];
    assert text[|KICK|..] == rest;
  }

  lemma ReadsAsRename(rest: string)
    ensures Parse(RENAME + rest)
            == match IdAndArgument(RENAME + rest)
               case None => Malformed
               case Some((id, name)) => if 0 < |name| < NAME_LIMIT then Rename(id, name) else Malformed
  {
    hide Stoul, IdAndArgument;
    var text := RENAME + rest;
    assert text[0] == RENAME[0] != SHUTDOWN[0];
    assert text[0] != KICK[0];
  }

  lemma ReadsAsToggle(rest: string)
    ensures Parse(TOGGLE + rest)
            == match IdAndArgument(TOGGLE + rest)
               case None => Malformed
               case Some((id, state)) => ToggleInput(id, state == "true")
  {
    hide Stoul, IdAndArgument;
    var text := TOGGLE + rest;
    assert text[0] == TOGGLE[0] != SHUTDOWN[0];
    assert text[0] != KICK[0] && text[0] != RENAME[0];
  }

  /** A command word, its colon, a colon-free number text, a colon and anything at all. */
  lemma SplitsAtColons(word: string, num: string, argument: string)
    requires ':' !in word && ':' !in num
    ensures IdAndArgument(word + ":" + (num + ":" + argument))
            == if Stoul(num).None? then None else Some((Stoul(num).value % TWO_TO_THE_32, argument))
  {
    hide Stoul, Find;
    var command, rest := word + ":", num + ":" + argument;
    FindEnds(word, ':', rest);
    FindEnds(num, ':', argument);
    FindShift(command, rest, ':', 0);
    Shifted(command, rest, 0, |num|);
    Shifted(command, rest, 0, |num| + 1);
  }

  lemma {:induction false} NumberHasNoColon(id: uint32)
    ensures ':' !in ToString(id)
  {
    assert forall c :: c in ToString(id) ==> IsDigit(c);
  }

  lemma KickRoundTrip(id: uint32)
    ensures Parse(PrintKick(id)) == Kick(id)
  {
    hide Parse, Stoul;
    StoulOfToString(id);
    ReadsAsKick(ToString(id));
  }

  lemma Regroup(command: string, number: string, argument: string)
    ensures command + number + ":" + argument == command + (number + ":" + argument)
  {
  }

  /** A rename is read back exactly when the name is neither empty nor 64 characters or more;
      colons in the name do no harm. */
  lemma RenameRoundTrip(id: uint32, name: string)
    ensures Parse(PrintRename(id, name)) == Rename(id, name) <==> 0 < |name| < NAME_LIMIT
  {
    hide Parse, Stoul, ToString;
    StoulOfToString(id);
    NumberHasNoColon(id);
    Regroup(RENAME, ToString(id), name);
    ReadsAsIdAndArgument(ToString(id), name);
  }

  lemma ToggleRoundTrip(id: uint32, enabled: bool)
    ensures Parse(PrintToggle(id, enabled)) == ToggleInput(id, enabled)
  {
    hide Parse, Stoul, IdAndArgument, ToString;
    StoulOfToString(id);
    NumberHasNoColon(id);
    var state := if enabled then "true" else "false";
    Regroup(TOGGLE, ToString(id), state);
    assert TOGGLE == "toggle_input_client" + ":";
    SplitsAtColons("toggle_input_client", ToString(id), state);
    ReadsAsToggle(ToString(id) + ":" + state);
  }

  /** Conversely, a text is read as a rename only if it has that shape, with a number the
      reader accepts between the two colons. */
  lemma RenameShape(text: string, id: uint32, name: string)
    ensures Parse(text) == Rename(id, name) <==> exists num: string :: IsRenameOf(text, num, id, name)
  {
    hide Parse, Stoul;
    if Parse(text) == Rename(id, name) {
      RenameSplits(text);
      var rest := text[|RENAME|..];
      var colon := Find(rest, ':', 0).value;
      var num, argument := rest[..colon], rest[colon + 1..];
      assert rest == num + ":" + argument;
      ReadsAsIdAndArgument(num, argument);
      assert IsRenameOf(text, num, id, name);
    }
    forall num: string | IsRenameOf(text, num, id, name) ensures Parse(text) == Rename(id, name) {
      ReadsAsIdAndArgument(num, name);
    }
  }

  ghost predicate IsRenameOf(text: string, num: string, id: uint32, name: string) {
    && text == "rename_client:" + (num + ":" + name)
    && ':' !in num
    && Stoul(num).Some? && Stoul(num).value % TWO_TO_THE_32 == id
    && 1 <= |name| <= 63
  }

  lemma ReadsAsIdAndArgument(num: string, argument: string)
    requires ':' !in num
    ensures Parse(RENAME + (num + ":" + argument))
            == if Stoul(num).None? || !(0 < |argument| < NAME_LIMIT) then Malformed
               else Rename(Stoul(num).value % TWO_TO_THE_32, argument)
  {
    hide Parse, Stoul, IdAndArgument;
    assert RENAME == "rename_client" + ":";
    SplitsAtColons("rename_client", num, argument);
    ReadsAsRename(num + ":" + argument);
  }

  lemma RenameSplits(text: string)
    ensures Parse(text).Rename? ==>
              && RENAME <= text && text == RENAME + text[|RENAME|..]
              && Find(text[|RENAME|..], ':', 0).Some?
  {
    hide Stoul, IdAndArgument, Find;
    if Parse(text).Rename? {
      var rest := text[|RENAME|..];
      assert text == RENAME + rest;
      assert RENAME == "rename_client" + ":";
      HasSecondColonAfter("rename_client", rest);
    }
  }

  lemma {:induction false} HasSecondColonAfter(word: string, rest: string)
    requires ':' !in word
    ensures IdAndArgument(word + ":" + rest).Some? ==> Find(rest, ':', 0).Some?
  {
    hide Stoul, Find;
    FindEnds(word, ':', rest);
    FindShift(word + ":", rest, ':', 0);
  }

  /** A text is read as a kick only if it is the command word and a number the reader accepts. */
  lemma KickShape(text: string, id: uint32)
    ensures Parse(text) == Kick(id)
            <==> exists num: string :: text == "kick_client:" + num && Stoul(num).Some?
                                       && Stoul(num).value % TWO_TO_THE_32 == id
  {
    hide Parse, Stoul;
    if Parse(text) == Kick(id) {
      KickStarts(text);
      var num := text[|KICK|..];
      assert text == "kick_client:" + num;
      ReadsAsKick(num);
    }
    forall num: string | text == "kick_client:" + num && Stoul(num).Some? && Stoul(num).value % TWO_TO_THE_32 == id
      ensures Parse(text) == Kick(id)
    {
      ReadsAsKick(num);
    }
  }

  lemma KickStarts(text: string)
    ensures Parse(text).Kick? ==> KICK <= text
  {
    hide Stoul, IdAndArgument;
  }

  ghost predicate IsToggleOf(text: string, num: string, id: uint32, enabled: bool) {
    exists state: string ::
      && text == "toggle_input_client:" + (num + ":" + state)
      && ':' !in num
      && Stoul(num).Some? && Stoul(num).value % TWO_TO_THE_32 == id
      && (enabled <==> state == "true")
  }

  /** And as a toggle only with a number between the first two colons; whatever follows them
      but `true` switches off. */
  lemma ToggleShape(text: string, id: uint32, enabled: bool)
    ensures Parse(text) == ToggleInput(id, enabled) <==> exists num: string :: IsToggleOf(text, num, id, enabled)
  {
    hide Parse, Stoul;
    if Parse(text) == ToggleInput(id, enabled) {
      ToggleSplits(text);
      var rest := text[|TOGGLE|..];
      var colon := Find(rest, ':', 0).value;
      var num, state := rest[..colon], rest[colon + 1..];
      assert rest == num + ":" + state;
      ReadsAsState(num, state);
      assert IsToggleOf(text, num, id, enabled);
    }
    forall num: string | IsToggleOf(text, num, id, enabled) ensures Parse(text) == ToggleInput(id, enabled) {
      var state: string :| text == "toggle_input_client:" + (num + ":" + state) && (enabled <==> state == "true");
      ReadsAsState(num, state);
    }
  }

  lemma ReadsAsState(num: string, state: string)
    requires ':' !in num
    ensures Parse(TOGGLE + (num + ":" + state))
            == if Stoul(num).None? then Malformed else ToggleInput(Stoul(num).value % TWO_TO_THE_32, state == "true")
  {
    hide Parse, Stoul, IdAndArgument;
    assert TOGGLE == "toggle_input_client" + ":";
    SplitsAtColons("toggle_input_client", num, state);
    ReadsAsToggle(num + ":" + state);
  }

  lemma ToggleSplits(text: string)
    ensures Parse(text).ToggleInput? ==>
              && TOGGLE <= text && text == TOGGLE + text[|TOGGLE|..]
              && Find(text[|TOGGLE|..], ':', 0).Some?
  {
    hide Stoul, IdAndArgument, Find;
    if Parse(text).ToggleInput? {
      var rest := text[|TOGGLE|..];
      assert text == TOGGLE + rest;
      assert TOGGLE == "toggle_input_client" + ":";
      HasSecondColonAfter("toggle_input_client", rest);
    }
  }

  /** Shutting down takes the one word, and a text is unrecognized if it begins with no other
      command word. */
  lemma OtherShapes(text: string)
    ensures Parse(text) == ShutdownServer <==> text == "shutdown_server"
    ensures Parse(text) == Unrecognized
            <==> text != "shutdown_server" && !("kick_client:" <= text) && !("rename_client:" <= text)
                 && !("toggle_input_client:" <= text)
  {
    hide Stoul, IdAndArgument;
  }

  /** A minus sign is read, and the id wraps around. */
  lemma {:induction false} NegativeIdWraps(n: uint32)
    requires n > 0
    ensures Parse(KICK + ("-" + ToString(n))) == Kick(TWO_TO_THE_32 - n)
  {
    hide Parse, Value, LeadingDigits, ToString;
    var digits, text := ToString(n), "-" + ToString(n);
    ReadsAsKick(text);
    ValueOfToString(n);
    LeadingDigitsOf(digits, []);
    assert digits + [] == digits;
    assert text[0] == '-' && text[1..] == digits && SkipSpaces(text) == text;
  }
}
