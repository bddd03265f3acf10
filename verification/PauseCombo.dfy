/**
  Pausing on Linux: the application polls the payloads its helper has sent, watches their
  keys for the pause combination, toggles on its rising edge and hands on nothing while
  paused.
 */
module PauseCombo {
  import opened Prelude
  import opened KeyEvents
  import opened HelperInput

  const VK_SHIFT: byte := 0x10
  const VK_CONTROL: byte := 0x11
  const VK_MENU: byte := 0x12
  const VK_LSHIFT: byte := 0xA0
  const VK_RSHIFT: byte := 0xA1
  const VK_LCONTROL: byte := 0xA2
  const VK_RCONTROL: byte := 0xA3
  const VK_LMENU: byte := 0xA4
  const VK_RMENU: byte := 0xA5

  datatype GrabCommand = Grab | Ungrab

  /** `commands` and `returned` are histories: grab commands sent to the helper, payloads
      returned by polls. */
  datatype Pauser = Pauser(
    combo: seq<byte>,
    hostMode: bool,
    connected: bool,
    queue: seq<Payload>,
    pressed: set<byte>,
    comboWasActive: bool,
    globallyPaused: bool,
    locallyPaused: bool,
    commands: seq<GrabCommand>,
    returned: seq<Payload>)

  /** Just connected to the helper: a host has told it to grab the devices. */
  function Connected(combo: seq<byte>, hostMode: bool): Pauser {
    Pauser(combo, hostMode, true, [], {}, false, false, false, if hostMode then [Grab] else [], [])
  }

  /** A modifier of the combination is satisfied by its left or its right key. */
  predicate Satisfied(key: byte, pressed: set<byte>) {
    if key == VK_CONTROL then VK_LCONTROL in pressed || VK_RCONTROL in pressed
    else if key == VK_SHIFT then VK_LSHIFT in pressed || VK_RSHIFT in pressed
    else if key == VK_MENU then VK_LMENU in pressed || VK_RMENU in pressed
    else key in pressed
  }

  predicate ComboHeld(combo: seq<byte>, pressed: set<byte>) {
    forall i :: 0 <= i < |combo| ==> Satisfied(combo[i], pressed)
  }

  function WithPause(s: Pauser, paused: bool): Pauser {
    if s.locallyPaused == paused then s
    else s.(locallyPaused := paused,
            commands := s.commands + if s.hostMode && s.connected then [if paused then Ungrab else Grab] else [])
  }

  /** Without a combination a pause it had caused, and was still causing, is lifted. */
  function LiftPause(s: Pauser, comboWasActive: bool): Pauser {
    if comboWasActive && s.globallyPaused then WithPause(s.(globallyPaused := false), false) else s
  }

  function CheckAndToggle(s: Pauser): Pauser {
    if s.combo == [] then LiftPause(s, s.comboWasActive).(comboWasActive := false)
    else
      var held := ComboHeld(s.combo, s.pressed);
      var toggled :=
        if held && !s.comboWasActive then
          WithPause(s.(globallyPaused := !s.globallyPaused), !s.globallyPaused)
        else s;
      toggled.(comboWasActive := held)
  }

  function Poll(s: Pauser): Pauser {
    var batch := if s.connected then s.queue else [];
    var taken := if s.connected then s.(queue := []) else s;
    var checked :=
      if s.combo != [] then CheckAndToggle(taken.(pressed := Held(taken.pressed, SentKeys(batch))))
      else LiftPause(taken, taken.comboWasActive).(comboWasActive := false);
    if checked.globallyPaused then checked else checked.(returned := checked.returned + batch)
  }

  function WithCombo(s: Pauser, combo: seq<byte>): Pauser {
    var reset := s.(combo := combo, pressed := {}, comboWasActive := false);
    if combo == [] then LiftPause(reset, s.comboWasActive) else reset
  }

  datatype Step = Receives(payload: Payload) | Polls | ComboSet(combo: seq<byte>) | HelperLost

  function Next(s: Pauser, step: Step): Pauser {
    match step
    case Receives(p) => if s.connected then s.(queue := s.queue + [p]) else s
    case Polls => Poll(s)
    case ComboSet(combo) => WithCombo(s, combo)
    case HelperLost => s.(connected := false)
  }

  function Run(s: Pauser, steps: seq<Step>): Pauser {
    if steps == [] then s else Next(Run(s, steps[..|steps| - 1]), steps[|steps| - 1])
  }

  /** A grab, an ungrab, a grab, ... */
  predicate Alternating(commands: seq<GrabCommand>) {
    forall i :: 0 <= i < |commands| ==> commands[i] == if i % 2 == 0 then Grab else Ungrab
  }

  /** The two flags agree, and a connected host has the devices grabbed exactly when input is
      not paused, no command being given twice; only a host gives any. */
  predicate Inv(s: Pauser) {
    && s.globallyPaused == s.locallyPaused
    && (s.combo == [] ==> !s.comboWasActive)
    && Alternating(s.commands)
    && (!s.hostMode ==> s.commands == [])
    && (s.hostMode && s.connected ==>
          s.commands != [] && s.commands[|s.commands| - 1] == if s.globallyPaused then Ungrab else Grab)
  }

  lemma ToggleKeepsInv(s: Pauser)
    requires Inv(s)
    ensures Inv(CheckAndToggle(s))
  {
    hide ComboHeld;
  }

  lemma LiftKeepsInv(s: Pauser, comboWasActive: bool)
    requires Inv(s)
    ensures Inv(LiftPause(s, comboWasActive)) && LiftPause(s, comboWasActive).combo == s.combo
  {
  }

  lemma NextKeepsInv(s: Pauser, step: Step)
    requires Inv(s)
    ensures Inv(Next(s, step))
  {
    hide CheckAndToggle, LiftPause, Held, SentKeys;
    match step
    case Polls =>
      var taken := if s.connected then s.(queue := []) else s;
      if s.combo != [] {
        ToggleKeepsInv(taken.(pressed := Held(taken.pressed, SentKeys(if s.connected then s.queue else []))));
      } else {
        LiftKeepsInv(taken, taken.comboWasActive);
      }
    case ComboSet(combo) =>
      LiftKeepsInv(s.(combo := combo, pressed := {}, comboWasActive := false), s.comboWasActive);
    case _ =>
  }

  /** Over every run, changes of the combination included. */
  lemma {:induction false} FlagsAndGrabAgree(combo: seq<byte>, hostMode: bool, steps: seq<Step>)
    ensures Inv(Run(Connected(combo, hostMode), steps))
    decreases steps
  {
    hide Next;
    if steps != [] {
      FlagsAndGrabAgree(combo, hostMode, steps[..|steps| - 1]);
      NextKeepsInv(Run(Connected(combo, hostMode), steps[..|steps| - 1]), steps[|steps| - 1]);
    }
  }

  // ---------------------------------------------------------------- what the polls amount to

  predicate Plain(steps: seq<Step>) {
    forall i :: 0 <= i < |steps| ==> steps[i].Receives? || steps[i].Polls?
  }

  /** The payloads received since the last poll. */
  function Waiting(steps: seq<Step>): seq<Payload> {
    if steps == [] then []
    else
      match steps[|steps| - 1]
      case Receives(p) => Waiting(steps[..|steps| - 1]) + [p]
      case _ => []
  }

  /** What each poll has to look at, poll by poll. */
  function Batches(steps: seq<Step>): seq<seq<Payload>> {
    if steps == [] then []
    else
      var init := steps[..|steps| - 1];
      if steps[|steps| - 1].Polls? then Batches(init) + [Waiting(init)] else Batches(init)
  }

  function AllKeys(batches: seq<seq<Payload>>): seq<KeyEvent> {
    if batches == [] then [] else AllKeys(batches[..|batches| - 1]) + SentKeys(batches[|batches| - 1])
  }

  /** By a stream of presses and releases a key of the combination is down; for the common code
      of a modifier, its left or its right key is. */
  predicate DownByEvents(key: byte, es: seq<KeyEvent>) {
    if key == 0x11 then KeyDown(es, 0xA2) || KeyDown(es, 0xA3)
    else if key == 0x10 then KeyDown(es, 0xA0) || KeyDown(es, 0xA1)
    else if key == 0x12 then KeyDown(es, 0xA4) || KeyDown(es, 0xA5)
    else KeyDown(es, key)
  }

  /** At the last of these polls every key of the combination is down, by all events polled. */
  predicate HeldAt(combo: seq<byte>, batches: seq<seq<Payload>>) {
    forall i :: 0 <= i < |combo| ==> DownByEvents(combo[i], AllKeys(batches))
  }

  lemma {:induction false} SatisfiedIffDown(key: byte, es: seq<KeyEvent>)
    ensures Satisfied(key, Held({}, es)) <==> DownByEvents(key, es)
  {
    hide Held, KeyDown;
    HeldIffDown(es, 0xA0);
    HeldIffDown(es, 0xA1);
    HeldIffDown(es, 0xA2);
    HeldIffDown(es, 0xA3);
    HeldIffDown(es, 0xA4);
    HeldIffDown(es, 0xA5);
    HeldIffDown(es, key);
  }

  lemma {:induction false} HeldIffAllDown(combo: seq<byte>, batches: seq<seq<Payload>>)
    ensures ComboHeld(combo, Held({}, AllKeys(batches))) <==> HeldAt(combo, batches)
  {
    hide Satisfied, DownByEvents, Held, AllKeys;
    forall i | 0 <= i < |combo|
      ensures Satisfied(combo[i], Held({}, AllKeys(batches))) <==> DownByEvents(combo[i], AllKeys(batches))
    {
      SatisfiedIffDown(combo[i], AllKeys(batches));
    }
  }

  function RisingEdges(combo: seq<byte>, batches: seq<seq<Payload>>): nat {
    if batches == [] then 0
    else
      var init := batches[..|batches| - 1];
      RisingEdges(combo, init) + if HeldAt(combo, batches) && !HeldAt(combo, init) then 1 else 0
  }

  predicate PausedAfter(combo: seq<byte>, batches: seq<seq<Payload>>) {
    RisingEdges(combo, batches) % 2 == 1
  }

  /** The batches of the polls that end unpaused. */
  function UnpausedBatches(combo: seq<byte>, batches: seq<seq<Payload>>): seq<Payload> {
    if batches == [] then []
    else
      UnpausedBatches(combo, batches[..|batches| - 1])
      + if PausedAfter(combo, batches) then [] else batches[|batches| - 1]
  }

  lemma NothingHeldAtFirst(combo: seq<byte>)
    requires combo != []
    ensures !HeldAt(combo, [])
  {
    assert !DownByEvents(combo[0], []);
  }

  /** With a fixed combination, over every sequence of receipts and polls: input is paused
      after an odd number of polls at which all its keys have come to be down, and the payloads
      returned are exactly the batches of the polls that end unpaused, in order. */
  lemma {:induction false} PauseIsParityOfEdges(combo: seq<byte>, hostMode: bool, steps: seq<Step>)
    requires combo != [] && Plain(steps)
    ensures var s := Run(Connected(combo, hostMode), steps);
            var b := Batches(steps);
            && s.combo == combo && s.connected
            && s.queue == Waiting(steps)
            && s.pressed == Held({}, AllKeys(b))
            && s.comboWasActive == HeldAt(combo, b)
            && s.globallyPaused == PausedAfter(combo, b)
            && s.returned == UnpausedBatches(combo, b)
    decreases steps
  {
    if steps == [] {
      NothingHeldAtFirst(combo);
    } else {
      hide ComboHeld, HeldAt, WithPause, Held, SentKeys;
      var init := steps[..|steps| - 1];
      assert forall i :: 0 <= i < |init| ==> init[i] == steps[i];
      PauseIsParityOfEdges(combo, hostMode, init);
      if steps[|steps| - 1].Polls? {
        PollExtends(Run(Connected(combo, hostMode), init), combo, Batches(init));
      }
    }
  }

  lemma {:induction false} PollExtends(s: Pauser, combo: seq<byte>, b: seq<seq<Payload>>)
    requires combo != [] && s.combo == combo && s.connected
    requires s.pressed == Held({}, AllKeys(b)) && s.comboWasActive == HeldAt(combo, b)
    requires s.globallyPaused == PausedAfter(combo, b) && s.returned == UnpausedBatches(combo, b)
    ensures var r, b' := Poll(s), b + [s.queue];
            && r.combo == combo && r.connected && r.queue == []
            && r.pressed == Held({}, AllKeys(b')) && r.comboWasActive == HeldAt(combo, b')
            && r.globallyPaused == PausedAfter(combo, b') && r.returned == UnpausedBatches(combo, b')
  {
    hide ComboHeld, Held, SentKeys, AllKeys, HeldAt, PausedAfter, UnpausedBatches;
    BatchExtends(combo, b, s.queue);
    assert s.returned + [] == s.returned;
  }

  lemma {:induction false} BatchExtends(combo: seq<byte>, b: seq<seq<Payload>>, batch: seq<Payload>)
    ensures var b' := b + [batch];
            && Held({}, AllKeys(b')) == Held(Held({}, AllKeys(b)), SentKeys(batch))
            && HeldAt(combo, b') == ComboHeld(combo, Held(Held({}, AllKeys(b)), SentKeys(batch)))
            && PausedAfter(combo, b') == (PausedAfter(combo, b) != (HeldAt(combo, b') && !HeldAt(combo, b)))
            && UnpausedBatches(combo, b')
               == UnpausedBatches(combo, b) + if PausedAfter(combo, b') then [] else batch
  {
    hide ComboHeld, Held, SentKeys, HeldAt;
    var b' := b + [batch];
    assert b'[..|b'| - 1] == b;
    HeldAppend({}, AllKeys(b), SentKeys(batch));
    HeldIffAllDown(combo, b');
  }

  /** A poll toggles exactly if it is the first after which all keys of the combination are down;
      so one after which some key of it is up, on both sides, toggles nothing. */
  lemma {:induction false} TogglesIff(combo: seq<byte>, hostMode: bool, steps: seq<Step>)
    requires combo != [] && Plain(steps)
    ensures var s, r := Run(Connected(combo, hostMode), steps), Run(Connected(combo, hostMode), steps + [Polls]);
            var before, after := Batches(steps), Batches(steps) + [Waiting(steps)];
            && (r.globallyPaused != s.globallyPaused <==> HeldAt(combo, after) && !HeldAt(combo, before))
            && ((exists i :: 0 <= i < |combo| && !DownByEvents(combo[i], AllKeys(after)))
                ==> r.globallyPaused == s.globallyPaused)
  {
    hide Run, HeldAt, AllKeys, DownByEvents;
    var all := steps + [Polls];
    assert all[..|all| - 1] == steps;
    assert forall i :: 0 <= i < |all| ==> all[i] == if i < |steps| then steps[i] else Polls;
    PauseIsParityOfEdges(combo, hostMode, steps);
    PauseIsParityOfEdges(combo, hostMode, all);
    var b := Batches(steps) + [Waiting(steps)];
    assert b[..|b| - 1] == Batches(steps);
    NotHeldIfUp(combo, b);
  }

  lemma {:induction false} NotHeldIfUp(combo: seq<byte>, batches: seq<seq<Payload>>)
    ensures (exists i :: 0 <= i < |combo| && !DownByEvents(combo[i], AllKeys(batches))) ==> !HeldAt(combo, batches)
  {
    hide DownByEvents, AllKeys;
  }

  /** Taking the combination away ends a pause if and only if it was held at the last poll. */
  lemma {:induction false} ClearingLiftsIff(combo: seq<byte>, hostMode: bool, steps: seq<Step>)
    requires combo != [] && Plain(steps)
    ensures var s := Run(Connected(combo, hostMode), steps);
            var r := Run(Connected(combo, hostMode), steps + [ComboSet([])]);
            r.globallyPaused <==> s.globallyPaused && !HeldAt(combo, Batches(steps))
  {
    hide HeldAt;
    var all := steps + [ComboSet([])];
    assert all[..|all| - 1] == steps;
    PauseIsParityOfEdges(combo, hostMode, steps);
  }

  /** Without a combination nothing pauses, and polls return all there is. */
  lemma {:induction false} NeverPausesWithoutCombo(hostMode: bool, steps: seq<Step>)
    requires Plain(steps)
    ensures var s := Run(Connected([], hostMode), steps);
            && s.combo == [] && s.connected && !s.comboWasActive && !s.globallyPaused
            && s.queue == Waiting(steps) && s.returned == Concat(Batches(steps))
    decreases steps
  {
    hide Held, SentKeys, ComboHeld;
    if steps != [] {
      var init := steps[..|steps| - 1];
      assert forall i :: 0 <= i < |init| ==> init[i] == steps[i];
      NeverPausesWithoutCombo(hostMode, init);
      ConcatAppend(Batches(init), [Waiting(init)]);
      assert Concat([Waiting(init)]) == Waiting(init) + [] == Waiting(init);
    }
  }

  /** Once the helper is lost, polls return nothing and no command is given. */
  lemma {:induction false} NothingAfterLoss(s: Pauser, steps: seq<Step>)
    requires !s.connected
    ensures var r := Run(s, steps);
            !r.connected && r.returned == s.returned && r.commands == s.commands && r.queue == s.queue
    decreases steps
  {
    hide Next;
    if steps != [] {
      NothingAfterLoss(s, steps[..|steps| - 1]);
      NothingFromLost(Run(s, steps[..|steps| - 1]), steps[|steps| - 1]);
    }
  }

  lemma NothingFromLost(s: Pauser, step: Step)
    requires !s.connected
    ensures var r := Next(s, step);
            !r.connected && r.returned == s.returned && r.commands == s.commands && r.queue == s.queue
  {
    hide Held, SentKeys, ComboHeld;
  }

  // ---------------------------------------------------------------- the object

  class LinuxInput {
    const isHostMode: bool
    var pauseKeyCombo: seq<byte>
    var helperConnected: bool
    var receivedPayloadsQueue: seq<Payload>
    var currentlyPressed: set<byte>
    var comboWasActiveLastPoll: bool
    var inputGloballyPaused: bool
    var localPauseActive: bool
    ghost var commands: seq<GrabCommand>
    ghost var returned: seq<Payload>

    constructor (combo: seq<byte>, hostMode: bool)
      ensures View() == Connected(combo, hostMode)
    {
      isHostMode, pauseKeyCombo, helperConnected := hostMode, combo, true;
      receivedPayloadsQueue, currentlyPressed, comboWasActiveLastPoll := [], {}, false;
      inputGloballyPaused, localPauseActive := false, false;
      commands, returned := if hostMode then [Grab] else [], [];
    }

    ghost function View(): Pauser
      reads this
    {
      Pauser(pauseKeyCombo, isHostMode, helperConnected, receivedPayloadsQueue, currentlyPressed,
             comboWasActiveLastPoll, inputGloballyPaused, localPauseActive, commands, returned)
    }

    method SetInputPaused(paused: bool)
      modifies this`localPauseActive, this`commands
      ensures View() == WithPause(old(View()), paused)
    {
      if localPauseActive == paused {
        return;
      }
      localPauseActive := paused;
      if isHostMode {
        if paused {
          SendCommand(Ungrab);
        } else {
          SendCommand(Grab);
        }
      }
    }

    /** Lost when the helper is not connected. */
    method SendCommand(command: GrabCommand)
      modifies this`commands
      ensures commands == old(commands) + if helperConnected then [command] else []
    {
      if helperConnected {
        commands := commands + [command];
      }
    }

    method RecordKeys(payloads: seq<Payload>)
      modifies this`currentlyPressed
      ensures currentlyPressed == Held(old(currentlyPressed), SentKeys(payloads))
    {
      ghost var before := currentlyPressed;
      for i := 0 to |payloads|
        invariant currentlyPressed == Held(before, SentKeys(payloads[..i]))
      {
        var keys := payloads[i].keyEvents;
        ghost var start := currentlyPressed;
        for k := 0 to |keys|
          invariant currentlyPressed == Held(start, keys[..k])
        {
          assert keys[..k + 1][..k] == keys[..k];
          if keys[k].pressed {
            if keys[k].code !in currentlyPressed {
              currentlyPressed := currentlyPressed + {keys[k].code};
            }
          } else {
            currentlyPressed := currentlyPressed - {keys[k].code};
          }
        }
        assert keys[..|keys|] == keys;
        assert payloads[..i + 1][..i] == payloads[..i];
        HeldAppend(before, SentKeys(payloads[..i]), keys);
      }
      assert payloads[..|payloads|] == payloads;
    }

    method IsComboHeld() returns (held: bool)
      ensures held <==> ComboHeld(pauseKeyCombo, currentlyPressed)
    {
      for i := 0 to |pauseKeyCombo|
        invariant forall k :: 0 <= k < i ==> Satisfied(pauseKeyCombo[k], currentlyPressed)
      {
        var key, found := pauseKeyCombo[i], false;
        if key == VK_CONTROL {
          found := VK_LCONTROL in currentlyPressed || VK_RCONTROL in currentlyPressed;
        } else if key == VK_SHIFT {
          found := VK_LSHIFT in currentlyPressed || VK_RSHIFT in currentlyPressed;
        } else if key == VK_MENU {
          found := VK_LMENU in currentlyPressed || VK_RMENU in currentlyPressed;
        } else {
          found := key in currentlyPressed;
        }
        if !found {
          return false;
        }
      }
      return true;
    }

    method CheckAndTogglePauseCombo()
      modifies this`inputGloballyPaused, this`localPauseActive, this`commands, this`comboWasActiveLastPoll
      ensures View() == CheckAndToggle(old(View()))
    {
      hide ComboHeld;
      if pauseKeyCombo == [] {
        if comboWasActiveLastPoll && inputGloballyPaused {
          inputGloballyPaused := false;
          SetInputPaused(false);
        }
        comboWasActiveLastPoll := false;
        return;
      }
      var comboCurrentlyHeld := IsComboHeld();
      if comboCurrentlyHeld && !comboWasActiveLastPoll {
        var newPauseState := !inputGloballyPaused;
        inputGloballyPaused := newPauseState;
        SetInputPaused(newPauseState);
      }
      comboWasActiveLastPoll := comboCurrentlyHeld;
    }

    method PollEvents() returns (payloads: seq<Payload>)
      modifies this
      ensures View() == Poll(old(View()))
      ensures returned == old(returned) + payloads
    {
      hide ComboHeld, Held, SentKeys;
      var helperPayloads := [];
      if helperConnected {
        helperPayloads, receivedPayloadsQueue := receivedPayloadsQueue, [];
      }
      if pauseKeyCombo != [] {
        RecordKeys(helperPayloads);
        CheckAndTogglePauseCombo();
      } else {
        if comboWasActiveLastPoll && inputGloballyPaused {
          inputGloballyPaused := false;
          SetInputPaused(false);
        }
        comboWasActiveLastPoll := false;
      }
      if inputGloballyPaused {
        assert returned + [] == returned;
        return [];
      }
      returned := returned + helperPayloads;
      return helperPayloads;
    }

    method SetPauseKeyCombo(combo: seq<byte>)
      modifies this
      ensures View() == WithCombo(old(View()), combo)
    {
      pauseKeyCombo := combo;
      currentlyPressed := {};
      var oldComboWasActive := comboWasActiveLastPoll;
      comboWasActiveLastPoll := false;
      if combo == [] {
        if inputGloballyPaused && oldComboWasActive {
          inputGloballyPaused := false;
          SetInputPaused(false);
        }
      }
    }
  }
}
