/**
  The Windows host's keyboard hook: which keys are down, the pause combination, the payloads
  queued for the next poll, and what is left held at the receivers by a pause.
 */
module WindowsHook {
  import opened Prelude
  import opened KeyEvents
  import P = PauseCombo

  /** Every queued payload carries key events only. `returned` and `emitted` are histories:
      payloads handed out by polls, key events ever queued. */
  datatype Hook = Hook(
    combo: seq<byte>,
    pressed: set<byte>,
    comboWasActive: bool,
    paused: bool,
    queue: seq<seq<KeyEvent>>,
    returned: seq<seq<KeyEvent>>,
    emitted: seq<KeyEvent>)

  function Started(combo: seq<byte>, paused: bool): Hook {
    Hook(combo, {}, false, paused, [], [], [])
  }

  function Queued(s: Hook, es: seq<KeyEvent>): Hook {
    s.(queue := s.queue + [es], emitted := s.emitted + es)
  }

  /** Here a modifier is also satisfied by its own code. */
  predicate Satisfied(key: byte, pressed: set<byte>) {
    P.Satisfied(key, pressed) || key in pressed
  }

  predicate ComboHeld(combo: seq<byte>, pressed: set<byte>) {
    forall i :: 0 <= i < |combo| ==> Satisfied(combo[i], pressed)
  }

  /** The codes the sides of a key have. */
  function Sides(key: byte): seq<byte> {
    if key == P.VK_CONTROL then [P.VK_LCONTROL, P.VK_RCONTROL]
    else if key == P.VK_SHIFT then [P.VK_LSHIFT, P.VK_RSHIFT]
    else if key == P.VK_MENU then [P.VK_LMENU, P.VK_RMENU]
    else [key]
  }

  function ReleasesOf(codes: seq<byte>): seq<KeyEvent> {
    if codes == [] then [] else ReleasesOf(codes[..|codes| - 1]) + [KeyEvent(codes[|codes| - 1], false)]
  }

  /** The releases queued when the combination pauses input. */
  function Releases(combo: seq<byte>): seq<KeyEvent> {
    if combo == [] then [] else Releases(combo[..|combo| - 1]) + ReleasesOf(Sides(combo[|combo| - 1]))
  }

  function ProcessKey(s: Hook, key: byte, down: bool): Hook {
    if key == 0 then s
    else
      var e := KeyEvent(key, down);
      var noted := s.(pressed := Apply(s.pressed, e));
      if s.paused || noted.pressed == s.pressed then noted else Queued(noted, [e])
  }

  function CheckPause(s: Hook): Hook {
    if s.combo == [] then s.(comboWasActive := false)
    else
      var held := ComboHeld(s.combo, s.pressed);
      var checked := s.(comboWasActive := held);
      if !held || s.comboWasActive then checked
      else if s.paused then checked.(paused := false)
      else Queued(checked.(paused := true), Releases(s.combo))
  }

  datatype Step = KeyHooked(key: byte, down: bool) | Polls | ComboSet(combo: seq<byte>)

  function Next(s: Hook, step: Step): Hook {
    match step
    case KeyHooked(key, down) => CheckPause(ProcessKey(s, key, down))
    case Polls => s.(queue := [], returned := s.returned + s.queue)
    case ComboSet(combo) => s.(combo := combo, comboWasActive := false, paused := s.paused && combo != [])
  }

  function Run(s: Hook, steps: seq<Step>): Hook {
    if steps == [] then s else Next(Run(s, steps[..|steps| - 1]), steps[|steps| - 1])
  }

  // ---------------------------------------------------------------- nothing queued is lost

  /** Polls hand out, in order, all that was queued. */
  lemma {:induction false} PollsReturnAll(combo: seq<byte>, paused: bool, steps: seq<Step>)
    ensures var s := Run(Started(combo, paused), steps);
            s.emitted == Concat(s.returned) + Concat(s.queue)
    decreases steps
  {
    hide CheckPause, ProcessKey;
    if steps != [] {
      var before := Run(Started(combo, paused), steps[..|steps| - 1]);
      PollsReturnAll(combo, paused, steps[..|steps| - 1]);
      match steps[|steps| - 1]
      case KeyHooked(key, down) =>
        ProcessQueues(before, key, down);
        CheckQueues(ProcessKey(before, key, down));
      case Polls =>
        ConcatAppend(before.returned, before.queue);
        assert Concat(before.returned + before.queue) + [] == Concat(before.returned + before.queue);
      case ComboSet(_) =>
    }
  }

  ghost predicate AllKept(s: Hook) {
    s.emitted == Concat(s.returned) + Concat(s.queue)
  }

  lemma {:induction false} QueuedKeeps(s: Hook, es: seq<KeyEvent>)
    requires AllKept(s)
    ensures AllKept(Queued(s, es))
  {
    ConcatAppend(s.queue, [es]);
    assert Concat([es]) == es + [] == es;
    Assoc(Concat(s.returned), Concat(s.queue), es);
  }

  lemma ProcessQueues(s: Hook, key: byte, down: bool)
    requires AllKept(s)
    ensures AllKept(ProcessKey(s, key, down))
  {
    hide Queued;
    QueuedKeeps(s.(pressed := Apply(s.pressed, KeyEvent(key, down))), [KeyEvent(key, down)]);
  }

  lemma CheckQueues(s: Hook)
    requires AllKept(s)
    ensures AllKept(CheckPause(s))
  {
    hide Queued, ComboHeld, Releases;
    QueuedKeeps(s.(comboWasActive := true, paused := true), Releases(s.combo));
  }

  // ---------------------------------------------------------------- when input is paused

  predicate FixedCombo(steps: seq<Step>) {
    forall i :: 0 <= i < |steps| ==> !steps[i].ComboSet?
  }

  /** All the key events the hook has seen. */
  function Seen(steps: seq<Step>): seq<KeyEvent> {
    if steps == [] then []
    else
      var last := steps[|steps| - 1];
      Seen(steps[..|steps| - 1]) + if last.KeyHooked? && last.key != 0 then [KeyEvent(last.key, last.down)] else []
  }

  /** The last event seen of a key is a press; a modifier's common code, left and right key
      all do for it. */
  predicate DownBySeen(key: byte, es: seq<KeyEvent>) {
    || KeyDown(es, key)
    || (key == 0x11 && (KeyDown(es, 0xA2) || KeyDown(es, 0xA3)))
    || (key == 0x10 && (KeyDown(es, 0xA0) || KeyDown(es, 0xA1)))
    || (key == 0x12 && (KeyDown(es, 0xA4) || KeyDown(es, 0xA5)))
  }

  /** Every key of the combination is down, by what has been seen. */
  predicate HeldNow(combo: seq<byte>, steps: seq<Step>) {
    forall i :: 0 <= i < |combo| ==> DownBySeen(combo[i], Seen(steps))
  }

  lemma {:induction false} SatisfiedIffDown(key: byte, es: seq<KeyEvent>)
    ensures Satisfied(key, Held({}, es)) <==> DownBySeen(key, es)
  {
    hide Held, KeyDown, P.Satisfied;
    P.SatisfiedIffDown(key, es);
    HeldIffDown(es, key);
  }

  lemma {:induction false} HeldIffAllDown(combo: seq<byte>, steps: seq<Step>)
    ensures ComboHeld(combo, Held({}, Seen(steps))) <==> HeldNow(combo, steps)
  {
    hide Satisfied, DownBySeen, Held, Seen;
    forall i | 0 <= i < |combo|
      ensures Satisfied(combo[i], Held({}, Seen(steps))) <==> DownBySeen(combo[i], Seen(steps))
    {
      SatisfiedIffDown(combo[i], Seen(steps));
    }
  }

  function RisingEdges(combo: seq<byte>, steps: seq<Step>): nat {
    if steps == [] then 0
    else
      var init := steps[..|steps| - 1];
      RisingEdges(combo, init) + if HeldNow(combo, steps) && !HeldNow(combo, init) then 1 else 0
  }

  lemma {:induction false} PressedIsHeld(combo: seq<byte>, paused: bool, steps: seq<Step>)
    ensures Run(Started(combo, paused), steps).pressed == Held({}, Seen(steps))
    decreases steps
  {
    hide ComboHeld, Releases;
    if steps != [] {
      var init, last := steps[..|steps| - 1], steps[|steps| - 1];
      PressedIsHeld(combo, paused, init);
      if last.KeyHooked? && last.key != 0 {
        HeldSnoc({}, Seen(init), KeyEvent(last.key, last.down));
      } else {
        assert Seen(init) + [] == Seen(init);
      }
    }
  }

  /** Pausing is toggled by every rising edge of the held combination and by nothing else. */
  lemma {:induction false} PauseIsParityOfEdges(combo: seq<byte>, paused: bool, steps: seq<Step>)
    requires combo != [] && FixedCombo(steps)
    ensures var s := Run(Started(combo, paused), steps);
            && s.combo == combo
            && s.comboWasActive == HeldNow(combo, steps)
            && s.paused == (paused != (RisingEdges(combo, steps) % 2 == 1))
    decreases steps
  {
    hide ComboHeld, HeldNow, Releases, Held, Seen;
    if steps == [] {
      NothingHeldAtFirst(combo);
    } else {
      var init, last := steps[..|steps| - 1], steps[|steps| - 1];
      assert forall i :: 0 <= i < |init| ==> init[i] == steps[i];
      PauseIsParityOfEdges(combo, paused, init);
      PressedIsHeld(combo, paused, init);
      PressedIsHeld(combo, paused, steps);
      HeldIffAllDown(combo, steps);
      HeldIffAllDown(combo, init);
    }
  }

  lemma {:induction false} NothingHeldAtFirst(combo: seq<byte>)
    requires combo != []
    ensures !HeldNow(combo, [])
  {
    assert !DownBySeen(combo[0], []);
  }

  /** Setting another combination leaves input paused or not as it was, taking it away ends a
      pause, and after that nothing pauses until there is one again. */
  lemma {:induction false} ClearedComboUnpauses(combo: seq<byte>, paused: bool, steps: seq<Step>, next: seq<byte>,
                                                more: seq<Step>)
    requires FixedCombo(more)
    ensures var s := Run(Started(combo, paused), steps);
            var r := Run(Started(combo, paused), steps + [ComboSet(next)] + more);
            && r.combo == next
            && (next == [] ==> !r.paused)
            && (more == [] && next != [] ==> r.paused == s.paused)
    decreases more
  {
    hide ComboHeld, Releases;
    var all := steps + [ComboSet(next)] + more;
    if more == [] {
      assert all[..|all| - 1] == steps;
    } else {
      var init := more[..|more| - 1];
      assert forall i :: 0 <= i < |init| ==> init[i] == more[i];
      assert all[..|all| - 1] == steps + [ComboSet(next)] + init;
      ClearedComboUnpauses(combo, paused, steps, next, init);
    }
  }

  // ---------------------------------------------------------------- what the receivers hold

  /** The keys receivers hold once they have everything queued so far. */
  function Received(s: Hook): set<byte> {
    Held({}, s.emitted)
  }

  /** Held at the receivers though no longer held here. */
  function Stuck(s: Hook): set<byte> {
    Received(s) - s.pressed
  }

  /** The key that `of` stands for: either side of a modifier's common code, or itself. */
  predicate IsSideOf(key: byte, of: byte) {
    if of == 0x11 then key == 0xA2 || key == 0xA3
    else if of == 0x10 then key == 0xA0 || key == 0xA1
    else if of == 0x12 then key == 0xA4 || key == 0xA5
    else key == of
  }

  predicate InReleases(combo: seq<byte>, key: byte) {
    exists i :: 0 <= i < |combo| && IsSideOf(key, combo[i])
  }

  lemma SidesAre(of: byte, key: byte)
    ensures key in Sides(of) <==> IsSideOf(key, of)
  {
  }

  lemma {:induction false} ReleasesOfClear(held: set<byte>, codes: seq<byte>, key: byte)
    ensures key in Held(held, ReleasesOf(codes)) <==> key in held && key !in codes
    decreases codes
  {
    if codes != [] {
      ReleasesOfClear(held, codes[..|codes| - 1], key);
      HeldSnoc(held, ReleasesOf(codes[..|codes| - 1]), KeyEvent(codes[|codes| - 1], false));
      assert key in codes <==> key in codes[..|codes| - 1] || key == codes[|codes| - 1];
    }
  }

  lemma {:induction false} ReleasesClear(held: set<byte>, combo: seq<byte>, key: byte)
    ensures key in Held(held, Releases(combo)) <==> key in held && !InReleases(combo, key)
    decreases combo
  {
    hide ReleasesOf, Sides, IsSideOf;
    if combo != [] {
      var init, last := combo[..|combo| - 1], combo[|combo| - 1];
      ReleasesClear(held, init, key);
      HeldAppend(held, Releases(init), ReleasesOf(Sides(last)));
      ReleasesOfClear(Held(held, Releases(init)), Sides(last), key);
      SidesAre(last, key);
      assert InReleases(combo, key) <==> InReleases(init, key) || IsSideOf(key, last) by {
        if InReleases(init, key) {
          var i :| 0 <= i < |init| && IsSideOf(key, init[i]);
          assert combo[i] == init[i];
        }
        if InReleases(combo, key) && !IsSideOf(key, last) {
          var i :| 0 <= i < |combo| && IsSideOf(key, combo[i]);
          assert init[i] == combo[i];
        }
      }
    }
  }

  predicate NewlyPauses(s: Hook, step: Step) {
    !s.paused && Next(s, step).paused
  }

  /** A release that the receivers are not told of. */
  predicate ReleasedUnseen(s: Hook, step: Step, key: byte) {
    step == KeyHooked(key, false) && s.paused && key in Received(s)
  }

  /** What one step does to the keys the receivers hold. */
  lemma ReceivedAfter(s: Hook, step: Step, key: byte)
    requires key != 0
    ensures var pressedNow := step == KeyHooked(key, true) && !s.paused && key !in s.pressed;
            var releasedNow := step == KeyHooked(key, false) && !s.paused && key in s.pressed;
            key in Received(Next(s, step)) <==>
              && (key in Received(s) || pressedNow) && !releasedNow
              && !(NewlyPauses(s, step) && InReleases(s.combo, key))
  {
    hide ComboHeld, Releases, Held, InReleases;
    match step
    case KeyHooked(k, down) =>
      var processed := ProcessKey(s, k, down);
      HeldSnoc({}, s.emitted, KeyEvent(k, down));
      HeldAppend({}, processed.emitted, Releases(s.combo));
      ReleasesClear(Held({}, processed.emitted), s.combo, key);
    case _ =>
  }

  /** Exactly when a key is stuck after a step: it is not down, it was stuck before or was
      released unseen, and no pause starting now releases it. */
  lemma StuckExactly(s: Hook, step: Step, key: byte)
    requires key != 0
    ensures key in Stuck(Next(s, step)) <==>
              && key !in Next(s, step).pressed
              && (key in Stuck(s) || ReleasedUnseen(s, step, key))
              && !(NewlyPauses(s, step) && InReleases(s.combo, key))
  {
    hide Received, InReleases, CheckPause;
    ReceivedAfter(s, step, key);
    if step.KeyHooked? {
      CheckKeepsPressed(ProcessKey(s, step.key, step.down));
    }
  }

  lemma CheckKeepsPressed(s: Hook)
    ensures CheckPause(s).pressed == s.pressed
  {
    hide ComboHeld, Releases;
  }

  /** So long as no key the receivers hold is released during a pause, they never hold a key
      that is not down, whatever pauses and changes of the combination there are. */
  lemma {:induction false} NothingSticks(combo: seq<byte>, paused: bool, steps: seq<Step>, key: byte)
    requires key != 0
    requires forall i :: 0 <= i < |steps| ==> !ReleasedUnseen(Run(Started(combo, paused), steps[..i]), steps[i], key)
    ensures key !in Stuck(Run(Started(combo, paused), steps))
    decreases steps
  {
    hide Next, Received, ReleasedUnseen;
    if steps == [] {
      NothingReceivedAtFirst(combo, paused);
    } else {
      var init, last := steps[..|steps| - 1], steps[|steps| - 1];
      assert forall i :: 0 <= i < |init| ==> init[..i] == steps[..i] && init[i] == steps[i];
      NothingSticks(combo, paused, init, key);
      StuckExactly(Run(Started(combo, paused), init), last, key);
    }
  }

  /** Exactly when a key is ever stuck in a run: some step releases it unseen. */
  lemma {:induction false} SticksIff(combo: seq<byte>, paused: bool, steps: seq<Step>, key: byte)
    requires key != 0
    ensures (exists n :: 0 <= n <= |steps| && key in Stuck(Run(Started(combo, paused), steps[..n])))
            <==> (exists i :: 0 <= i < |steps| &&
                    ReleasedUnseen(Run(Started(combo, paused), steps[..i]), steps[i], key))
  {
    hide Next, Stuck, ReleasedUnseen;
    var start := Started(combo, paused);
    if exists i :: 0 <= i < |steps| && ReleasedUnseen(Run(start, steps[..i]), steps[i], key) {
      var i :| 0 <= i < |steps| && ReleasedUnseen(Run(start, steps[..i]), steps[i], key);
      UnseenReleaseSticks(Run(start, steps[..i]), steps[i], key);
      assert steps[..i + 1][..i] == steps[..i];
      assert key in Stuck(Run(start, steps[..i + 1]));
    } else {
      forall n | 0 <= n <= |steps| ensures key !in Stuck(Run(start, steps[..n])) {
        assert forall i :: 0 <= i < n ==> steps[..n][..i] == steps[..i] && steps[..n][i] == steps[i];
        NothingSticks(combo, paused, steps[..n], key);
      }
    }
  }

  lemma UnseenReleaseSticks(s: Hook, step: Step, key: byte)
    requires key != 0 && ReleasedUnseen(s, step, key)
    ensures key in Stuck(Next(s, step))
  {
    hide CheckPause, Received, InReleases;
    StuckExactly(s, step, key);
    CheckKeepsPressed(ProcessKey(s, key, false));
  }

  /** It does happen, with any key and any combination of one other key: the key is pressed,
      input paused and the key released. */
  lemma KeyCanStick(comboKey: byte, key: byte)
    requires comboKey != 0 && key != 0 && comboKey != key && comboKey !in {0x10, 0x11, 0x12}
    ensures key in Stuck(Run(Started([comboKey], false),
                             [KeyHooked(key, true), KeyHooked(comboKey, true), KeyHooked(key, false)]))
  {
    hide Run, Next, Received, Started, Stuck;
    var start := Started([comboKey], false);
    var press, pause, release := KeyHooked(key, true), KeyHooked(comboKey, true), KeyHooked(key, false);
    RunNothing(start);
    RunSnoc(start, [], press);
    RunSnoc(start, [press], pause);
    RunSnoc(start, [press, pause], release);
    assert [] + [press] == [press] && [press] + [pause] == [press, pause];
    assert [press, pause] + [release] == [press, pause, release];
    PressIsReceived(comboKey, key);
    PauseKeepsReceived(Next(start, press), comboKey, key);
    UnseenReleaseSticks(Next(Next(start, press), pause), release, key);
  }

  lemma PressIsReceived(comboKey: byte, key: byte)
    requires comboKey != 0 && key != 0 && comboKey != key && comboKey !in {0x10, 0x11, 0x12}
    ensures var s := Next(Started([comboKey], false), KeyHooked(key, true));
            !s.paused && !s.comboWasActive && s.combo == [comboKey] && s.pressed == {key} && key in Received(s)
  {
    hide Received, Releases, InReleases;
    var start, step := Started([comboKey], false), KeyHooked(key, true);
    assert !Satisfied(comboKey, {key}) && [comboKey][0] == comboKey;
    ReceivedAfter(start, step, key);
  }

  lemma PauseKeepsReceived(s: Hook, comboKey: byte, key: byte)
    requires comboKey != 0 && key != 0 && comboKey != key && comboKey !in {0x10, 0x11, 0x12}
    requires !s.paused && !s.comboWasActive && s.combo == [comboKey] && s.pressed == {key} && key in Received(s)
    ensures var r := Next(s, KeyHooked(comboKey, true));
            r.paused && key in r.pressed && key in Received(r)
  {
    hide Received, Releases, InReleases;
    assert Satisfied(comboKey, {key} + {comboKey});
    OnlyItself(comboKey, key);
    ReceivedAfter(s, KeyHooked(comboKey, true), key);
  }

  lemma OnlyItself(key: byte, other: byte)
    requires key !in {0x10, 0x11, 0x12} && other != key
    ensures !InReleases([key], other)
  {
  }

  lemma {:induction false} RunNothing(s: Hook)
    ensures Run(s, []) == s
  {
  }

  lemma {:induction false} RunSnoc(s: Hook, steps: seq<Step>, step: Step)
    ensures Run(s, steps + [step]) == Next(Run(s, steps), step)
  {
    hide Next;
    assert (steps + [step])[..|steps|] == steps;
  }

  /** While input is paused the receivers hold no key of the combination: those that were held
      to pause it have been released. */
  lemma {:induction false} ComboIsReleased(combo: seq<byte>, paused: bool, steps: seq<Step>, key: byte)
    requires FixedCombo(steps) && key != 0 && InReleases(combo, key)
    ensures var s := Run(Started(combo, paused), steps);
            s.combo == combo && (s.paused ==> key !in Received(s))
    decreases steps
  {
    hide InReleases, ComboHeld, Releases, Held;
    if steps == [] {
      NothingReceivedAtFirst(combo, paused);
    } else {
      var init := steps[..|steps| - 1];
      assert forall i :: 0 <= i < |init| ==> init[i] == steps[i];
      ComboIsReleased(combo, paused, init, key);
      ReceivedAfter(Run(Started(combo, paused), init), steps[|steps| - 1], key);
    }
  }

  lemma {:induction false} NothingReceivedAtFirst(combo: seq<byte>, paused: bool)
    ensures Received(Started(combo, paused)) == {}
  {
  }

  // ---------------------------------------------------------------- the object

  class WindowsInput {
    var pauseKeyCombo: seq<byte>
    var hookPressedKeys: set<byte>
    var comboWasActiveLastCheck: bool
    var inputGloballyPaused: bool
    var receivedPayloadsQueue: seq<seq<KeyEvent>>
    ghost var returned: seq<seq<KeyEvent>>
    ghost var emitted: seq<KeyEvent>

    constructor (combo: seq<byte>, paused: bool)
      ensures View() == Started(combo, paused)
    {
      pauseKeyCombo, hookPressedKeys, comboWasActiveLastCheck := combo, {}, false;
      inputGloballyPaused, receivedPayloadsQueue := paused, [];
      returned, emitted := [], [];
    }

    ghost function View(): Hook
      reads this
    {
      Hook(pauseKeyCombo, hookPressedKeys, comboWasActiveLastCheck, inputGloballyPaused,
           receivedPayloadsQueue, returned, emitted)
    }

    /** The hook; the key is kept from other programs unless input is paused. */
    method LowLevelKeyboardProc(vkCode: byte, isPressed: bool) returns (passedOn: bool)
      modifies this
      ensures View() == Next(old(View()), KeyHooked(vkCode, isPressed))
      ensures passedOn == inputGloballyPaused
    {
      hide ProcessKey, CheckPause;
      ProcessKeyFromHook(vkCode, isPressed);
      CheckPauseComboFromHook();
      return inputGloballyPaused;
    }

    method ProcessKeyFromHook(vkCode: byte, isPressed: bool)
      modifies this`hookPressedKeys, this`receivedPayloadsQueue, this`emitted
      ensures View() == ProcessKey(old(View()), vkCode, isPressed)
    {
      if vkCode == 0 {
        return;
      }
      var stateChanged := false;
      if isPressed {
        if vkCode !in hookPressedKeys {
          hookPressedKeys := hookPressedKeys + {vkCode};
          stateChanged := true;
        }
      } else {
        if vkCode in hookPressedKeys {
          hookPressedKeys := hookPressedKeys - {vkCode};
          stateChanged := true;
        }
      }
      if inputGloballyPaused {
        return;
      }
      if stateChanged {
        Push([KeyEvent(vkCode, isPressed)]);
      }
    }

    method Push(keyEvents: seq<KeyEvent>)
      modifies this`receivedPayloadsQueue, this`emitted
      ensures View() == Queued(old(View()), keyEvents)
    {
      receivedPayloadsQueue := receivedPayloadsQueue + [keyEvents];
      emitted := emitted + keyEvents;
    }

    method IsComboHeld() returns (held: bool)
      ensures held <==> ComboHeld(pauseKeyCombo, hookPressedKeys)
    {
      for i := 0 to |pauseKeyCombo|
        invariant forall k :: 0 <= k < i ==> Satisfied(pauseKeyCombo[k], hookPressedKeys)
      {
        var definedKey := pauseKeyCombo[i];
        var satisfied := definedKey in hookPressedKeys;
        if definedKey == P.VK_CONTROL {
          satisfied := satisfied || P.VK_LCONTROL in hookPressedKeys || P.VK_RCONTROL in hookPressedKeys;
        } else if definedKey == P.VK_SHIFT {
          satisfied := satisfied || P.VK_LSHIFT in hookPressedKeys || P.VK_RSHIFT in hookPressedKeys;
        } else if definedKey == P.VK_MENU {
          satisfied := satisfied || P.VK_LMENU in hookPressedKeys || P.VK_RMENU in hookPressedKeys;
        }
        if !satisfied {
          return false;
        }
      }
      return true;
    }

    method CheckPauseComboFromHook()
      modifies this
      ensures View() == CheckPause(old(View()))
    {
      hide ComboHeld, Releases;
      if pauseKeyCombo == [] {
        comboWasActiveLastCheck := false;
        return;
      }
      var comboCurrentlyActive := IsComboHeld();
      var aboutToPause := false;
      if comboCurrentlyActive && !comboWasActiveLastCheck {
        aboutToPause := !inputGloballyPaused;
        inputGloballyPaused := !inputGloballyPaused;
      }
      comboWasActiveLastCheck := comboCurrentlyActive;
      if aboutToPause {
        var releases := ExplicitReleases();
        if releases != [] {
          Push(releases);
        } else {
          assert false;
        }
      }
    }

    method ExplicitReleases() returns (keyEvents: seq<KeyEvent>)
      ensures keyEvents == Releases(pauseKeyCombo)
      ensures pauseKeyCombo != [] ==> keyEvents != []
    {
      keyEvents := [];
      for i := 0 to |pauseKeyCombo|
        invariant keyEvents == Releases(pauseKeyCombo[..i]) && |keyEvents| >= i
      {
        assert pauseKeyCombo[..i + 1][..i] == pauseKeyCombo[..i];
        var key := pauseKeyCombo[i];
        var more;
        if key == P.VK_CONTROL {
          more := [KeyEvent(P.VK_LCONTROL, false), KeyEvent(P.VK_RCONTROL, false)];
        } else if key == P.VK_SHIFT {
          more := [KeyEvent(P.VK_LSHIFT, false), KeyEvent(P.VK_RSHIFT, false)];
        } else if key == P.VK_MENU {
          more := [KeyEvent(P.VK_LMENU, false), KeyEvent(P.VK_RMENU, false)];
        } else {
          more := [KeyEvent(key, false)];
        }
        SidesReleased(key);
        keyEvents := keyEvents + more;
      }
      assert pauseKeyCombo[..|pauseKeyCombo|] == pauseKeyCombo;
    }

    method PollEvents() returns (payloads: seq<seq<KeyEvent>>)
      modifies this`receivedPayloadsQueue, this`returned
      ensures View() == Next(old(View()), Polls)
      ensures payloads == old(receivedPayloadsQueue)
    {
      payloads := receivedPayloadsQueue;
      receivedPayloadsQueue := [];
      returned := returned + payloads;
    }

    method SetPauseKeyCombo(combo: seq<byte>)
      modifies this`pauseKeyCombo, this`inputGloballyPaused, this`comboWasActiveLastCheck
      ensures View() == Next(old(View()), ComboSet(combo))
    {
      var wasPaused := inputGloballyPaused;
      pauseKeyCombo := combo;
      if combo == [] && wasPaused {
        inputGloballyPaused := false;
      }
      comboWasActiveLastCheck := false;
    }
  }

  lemma SidesReleased(key: byte)
    ensures ReleasesOf(Sides(key))
            == if |Sides(key)| == 1 then [KeyEvent(key, false)]
               else [KeyEvent(Sides(key)[0], false), KeyEvent(Sides(key)[1], false)]
  {
    var codes := Sides(key);
    assert codes[..|codes| - 1][..0] == [];
    assert ReleasesOf(codes[..|codes| - 1]) == if |codes| == 1 then [] else [KeyEvent(codes[0], false)];
  }
}
