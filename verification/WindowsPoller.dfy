/**
  The Windows client's key poller: compares the keys down now with those of the last poll,
  with a debounce on how long a key has been held. Times are in milliseconds; `down` is what
  the system reports at a poll.
 */
module WindowsPoller {
  import opened Prelude
  import opened KeyEvents

  const DEBOUNCE_MS := 5

  /** `held` is what the bitmask records, `pressTimes` when each key was reported pressed;
      `emitted` is the history of reported changes. */
  datatype Poller = Poller(
    held: set<byte>,
    pastKeys: seq<byte>,
    pressTimes: map<byte, int>,
    emitted: seq<KeyEvent>)

  const STARTED := Poller({}, [], map[], [])

  function Emit(s: Poller, key: byte, pressed: bool): Poller {
    s.(held := Apply(s.held, KeyEvent(key, pressed)), emitted := s.emitted + [KeyEvent(key, pressed)])
  }

  /** A key of the last poll, now or no longer down. */
  function CheckRelease(s: Poller, down: set<byte>, now: int, key: byte): Poller {
    if key in down || key !in s.held then s
    else if key in s.pressTimes && now - s.pressTimes[key] >= DEBOUNCE_MS then
      Emit(s, key, false).(pressTimes := s.pressTimes - {key})
    else if key !in s.pressTimes then Emit(s, key, false)
    else s
  }

  /** A key that is down now. */
  function CheckPress(s: Poller, now: int, key: byte): Poller {
    if key in s.held then s
    else if key !in s.pressTimes || now - s.pressTimes[key] >= DEBOUNCE_MS then
      Emit(s, key, true).(pressTimes := s.pressTimes[key := now])
    else s
  }

  function CheckReleases(s: Poller, down: set<byte>, now: int, keys: seq<byte>): Poller {
    if keys == [] then s
    else CheckRelease(CheckReleases(s, down, now, keys[..|keys| - 1]), down, now, keys[|keys| - 1])
  }

  function CheckPresses(s: Poller, now: int, keys: seq<byte>): Poller {
    if keys == [] then s
    else CheckPress(CheckPresses(s, now, keys[..|keys| - 1]), now, keys[|keys| - 1])
  }

  /** The key codes below `limit` that are down, in order. */
  function Scan(down: set<byte>, limit: nat): (keys: seq<byte>)
    requires limit <= 255
    ensures forall k: byte :: k in keys <==> k in down && 1 <= k < limit
  {
    if limit <= 1 then []
    else Scan(down, limit - 1) + if limit - 1 in down then [limit - 1] else []
  }

  function Poll(s: Poller, down: set<byte>, now: int): Poller {
    var current := Scan(down, 255);
    CheckPresses(CheckReleases(s, down, now, s.pastKeys), now, current).(pastKeys := current)
  }

  datatype Sample = Sample(down: set<byte>, now: int)

  function Run(samples: seq<Sample>): Poller {
    if samples == [] then STARTED
    else
      var last := samples[|samples| - 1];
      Poll(Run(samples[..|samples| - 1]), last.down, last.now)
  }

  /** A key's bit is set exactly when it has a press time, and the reported changes are
      effective and add up to the bitmask. */
  ghost predicate Inv(s: Poller) {
    && s.held == s.pressTimes.Keys
    && Effective({}, s.emitted)
    && Held({}, s.emitted) == s.held
    && forall k :: k in s.pastKeys ==> 1 <= k < 255
  }

  lemma EmitKeepsHistory(s: Poller, key: byte, pressed: bool)
    requires Inv(s) && (pressed <==> key !in s.held)
    ensures Effective({}, Emit(s, key, pressed).emitted)
    ensures Held({}, Emit(s, key, pressed).emitted) == Emit(s, key, pressed).held
  {
    HeldSnoc({}, s.emitted, KeyEvent(key, pressed));
  }

  /** Where the invariant holds the branch for a missing press time is never taken, and a
      press is never held back by the debounce. */
  lemma CheckReleaseExactly(s: Poller, down: set<byte>, now: int, key: byte)
    requires Inv(s)
    ensures Inv(CheckRelease(s, down, now, key))
    ensures CheckRelease(s, down, now, key) ==
            if key !in down && key in s.held && now - s.pressTimes[key] >= DEBOUNCE_MS
            then Emit(s, key, false).(pressTimes := s.pressTimes - {key}) else s
  {
    if key in s.held {
      EmitKeepsHistory(s, key, false);
    }
  }

  lemma CheckPressExactly(s: Poller, now: int, key: byte)
    requires Inv(s)
    ensures Inv(CheckPress(s, now, key))
    ensures CheckPress(s, now, key) ==
            if key in s.held then s else Emit(s, key, true).(pressTimes := s.pressTimes[key := now])
  {
    if key !in s.held {
      EmitKeepsHistory(s, key, true);
    }
  }

  /** A held key that is up has been held long enough to be let go. */
  predicate Releasable(s: Poller, down: set<byte>, now: int, key: byte)
    requires s.held == s.pressTimes.Keys
  {
    key !in down && key in s.held && now - s.pressTimes[key] >= DEBOUNCE_MS
  }

  lemma {:induction false} ReleasesExactly(s: Poller, down: set<byte>, now: int, keys: seq<byte>)
    requires Inv(s)
    ensures var r := CheckReleases(s, down, now, keys);
            && Inv(r) && r.pastKeys == s.pastKeys
            && (forall k :: k in r.held <==> k in s.held && !(k in keys && Releasable(s, down, now, k)))
            && (forall k :: k in r.held ==> r.pressTimes[k] == s.pressTimes[k])
    decreases keys
  {
    hide Inv, Held, Effective;
    assert Inv(s) ==> s.held == s.pressTimes.Keys by { TimesAreHeld(s); }
    if keys != [] {
      var init, key := keys[..|keys| - 1], keys[|keys| - 1];
      assert keys == init + [key];
      ReleasesExactly(s, down, now, init);
      var before := CheckReleases(s, down, now, init);
      TimesAreHeld(before);
      CheckReleaseExactly(before, down, now, key);
      TimesAreHeld(CheckRelease(before, down, now, key));
    }
  }

  lemma TimesAreHeld(s: Poller)
    ensures Inv(s) ==> s.held == s.pressTimes.Keys
  {
  }

  lemma {:induction false} PressesExactly(s: Poller, now: int, keys: seq<byte>)
    requires Inv(s)
    ensures var r := CheckPresses(s, now, keys);
            && Inv(r)
            && (forall k :: k in r.held <==> k in s.held || k in keys)
            && (forall k :: k in r.held ==> r.pressTimes[k] == if k in s.held then s.pressTimes[k] else now)
    decreases keys
  {
    hide Held, Effective;
    if keys != [] {
      var init, key := keys[..|keys| - 1], keys[|keys| - 1];
      assert keys == init + [key];
      PressesExactly(s, now, init);
      CheckPressExactly(CheckPresses(s, now, init), now, key);
    }
  }

  predicate InScan(down: set<byte>, key: byte) {
    key in down && 1 <= key < 255
  }

  /** After a poll a key is recorded as held if it is down, or if it was held and its release
      is not accepted: because it was already up at the last poll, or is not yet past the
      debounce. */
  lemma PollExactly(s: Poller, down: set<byte>, now: int)
    requires Inv(s)
    ensures var r := Poll(s, down, now);
            && Inv(r)
            && (forall k: byte :: k in r.held <==>
                  || InScan(down, k)
                  || (k in s.held && !(k in s.pastKeys && Releasable(s, down, now, k))))
            && (forall k: byte :: k in r.pastKeys <==> InScan(down, k))
            && (forall k: byte :: k in r.held ==> r.pressTimes[k] == if k in s.held then s.pressTimes[k] else now)
  {
    hide Held, Effective;
    ReleasesExactly(s, down, now, s.pastKeys);
    PressesExactly(CheckReleases(s, down, now, s.pastKeys), now, Scan(down, 255));
  }

  lemma {:induction false} RunKeepsInv(samples: seq<Sample>)
    ensures Inv(Run(samples))
    decreases samples
  {
    if samples != [] {
      hide Inv, Poll;
      RunKeepsInv(samples[..|samples| - 1]);
      PollExactly(Run(samples[..|samples| - 1]), samples[|samples| - 1].down, samples[|samples| - 1].now);
    } else {
      StartedInv();
    }
  }

  lemma StartedInv()
    ensures Inv(STARTED)
  {
  }

  /** Over every run of polls the changes reported for each key alternate from a press, and
      together they leave held exactly what the bitmask records. */
  lemma {:induction false} PollerStream(samples: seq<Sample>, key: byte)
    ensures var s := Run(samples);
            && Alternates(OfKey(s.emitted, key))
            && Held({}, s.emitted) == s.held
            && (key in s.held <==> key in s.pressTimes)
  {
    RunKeepsInv(samples);
    EffectiveAlternates(Run(samples).emitted, key);
  }

  /** A release that falls inside the debounce is lost for good: a held key that was up at the
      last poll stays recorded as held until it is pressed again, however long it is up. */
  lemma {:induction false} MissedReleaseSticks(samples: seq<Sample>, more: seq<Sample>, key: byte)
    requires key in Run(samples).held && key !in Run(samples).pastKeys
    requires forall i :: 0 <= i < |more| ==> key !in more[i].down
    ensures key in Run(samples + more).held && key !in Run(samples + more).pastKeys
    decreases more
  {
    if more == [] {
      assert samples + more == samples;
    } else {
      var init, last := more[..|more| - 1], more[|more| - 1];
      assert (samples + more)[..|samples + more| - 1] == samples + init;
      assert (samples + more)[|samples + more| - 1] == last;
      assert forall i :: 0 <= i < |init| ==> init[i] == more[i];
      hide Poll;
      MissedReleaseSticks(samples, init, key);
      RunKeepsInv(samples + init);
      PollExactly(Run(samples + init), last.down, last.now);
    }
  }

  /** When a poll leaves a key recorded as held though it is up. */
  lemma {:induction false} StuckExactlyWhen(samples: seq<Sample>, down: set<byte>, now: int, key: byte)
    requires key !in down
    ensures var s := Run(samples);
            key in Run(samples + [Sample(down, now)]).held <==>
              key in s.held && key in s.pressTimes
              && (key !in s.pastKeys || now - s.pressTimes[key] < DEBOUNCE_MS)
  {
    hide Poll;
    assert (samples + [Sample(down, now)])[..|samples|] == samples;
    RunKeepsInv(samples);
    PollExactly(Run(samples), down, now);
  }

  // ---------------------------------------------------------------- when nothing sticks

  predicate DownAt(samples: seq<Sample>, i: int, key: byte) {
    0 <= i < |samples| && InScan(samples[i].down, key)
  }

  /** The key is down at sample `i` and was not at the one before. */
  predicate Rises(samples: seq<Sample>, i: int, key: byte) {
    DownAt(samples, i, key) && !DownAt(samples, i - 1, key)
  }

  predicate Falls(samples: seq<Sample>, i: int, key: byte) {
    0 < i < |samples| && DownAt(samples, i - 1, key) && !DownAt(samples, i, key)
  }

  /** When the key last went down. */
  function LastRise(samples: seq<Sample>, key: byte): int {
    if samples == [] then 0
    else if Rises(samples, |samples| - 1, key) then samples[|samples| - 1].now
    else LastRise(samples[..|samples| - 1], key)
  }

  /** Whenever the key comes up it has been down for the debounce time. */
  predicate HeldLongEnough(samples: seq<Sample>, key: byte) {
    forall i :: 0 < i < |samples| && Falls(samples, i, key) ==>
                  samples[i].now - LastRise(samples[..i], key) >= 5
  }

  /** The last poll leaves the key recorded as held though it is up. */
  predicate Stuck(samples: seq<Sample>, key: byte) {
    key in Run(samples).held && !DownAt(samples, |samples| - 1, key)
  }

  lemma {:induction false} FallsInPrefix(samples: seq<Sample>, n: nat, i: int, key: byte)
    requires 0 < i < n <= |samples|
    ensures Falls(samples[..n], i, key) <==> Falls(samples, i, key)
    ensures samples[..n][..i] == samples[..i] && samples[..n][i] == samples[i]
  {
    hide InScan;
  }

  lemma {:induction false} FallIsEdge(samples: seq<Sample>, key: byte)
    requires samples != [] && Falls(samples, |samples| - 1, key)
    ensures DownAt(samples[..|samples| - 1], |samples| - 2, key) && !DownAt(samples, |samples| - 1, key)
  {
    hide InScan;
  }

  lemma {:induction false} HeldLongEnoughPrefix(samples: seq<Sample>, n: nat, key: byte)
    requires n <= |samples| && HeldLongEnough(samples, key)
    ensures HeldLongEnough(samples[..n], key)
  {
    hide LastRise, Falls;
    forall i | 0 < i < n && Falls(samples[..n], i, key)
      ensures samples[..n][i].now - LastRise(samples[..n][..i], key) >= DEBOUNCE_MS
    {
      FallsInPrefix(samples, n, i, key);
    }
  }

  /** Then the record is right after every poll, press time included. */
  lemma {:induction false} RecordIsRight(samples: seq<Sample>, key: byte)
    requires HeldLongEnough(samples, key)
    ensures var s := Run(samples);
            && (key in s.held <==> DownAt(samples, |samples| - 1, key))
            && (key in s.held ==> key in s.pressTimes && s.pressTimes[key] == LastRise(samples, key))
    decreases samples
  {
    hide Inv, Poll, HeldLongEnough;
    if samples != [] {
      var init, last := samples[..|samples| - 1], samples[|samples| - 1];
      HeldLongEnoughPrefix(samples, |init|, key);
      RecordIsRight(init, key);
      RunKeepsInv(init);
      RunKeepsInv(samples);
      TimesAreHeld(Run(init));
      TimesAreHeld(Run(samples));
      PollExactly(Run(init), last.down, last.now);
      PastIsDown(init, key);
      LastFallIsLong(samples, key);
    }
  }

  lemma {:induction false} LastFallIsLong(samples: seq<Sample>, key: byte)
    requires samples != [] && HeldLongEnough(samples, key)
    ensures DownAt(samples[..|samples| - 1], |samples| - 2, key) && !DownAt(samples, |samples| - 1, key) ==>
              samples[|samples| - 1].now - LastRise(samples[..|samples| - 1], key) >= DEBOUNCE_MS
  {
    hide LastRise;
    if DownAt(samples[..|samples| - 1], |samples| - 2, key) && !DownAt(samples, |samples| - 1, key) {
      assert Falls(samples, |samples| - 1, key);
    }
  }

  lemma {:induction false} PastIsDown(samples: seq<Sample>, key: byte)
    ensures key in Run(samples).pastKeys <==> DownAt(samples, |samples| - 1, key)
  {
    hide Inv, Poll;
    if samples != [] {
      RunKeepsInv(samples[..|samples| - 1]);
      PollExactly(Run(samples[..|samples| - 1]), samples[|samples| - 1].down, samples[|samples| - 1].now);
    }
  }

  /** Over every run of polls: no poll ever leaves a key recorded as held though it is up if and
      only if the key has been down for the debounce time whenever it comes up. */
  lemma {:induction false} NeverSticksIff(samples: seq<Sample>, key: byte)
    ensures (forall n :: 0 <= n <= |samples| ==> !Stuck(samples[..n], key)) <==> HeldLongEnough(samples, key)
    decreases samples
  {
    hide HeldLongEnough, Run;
    if HeldLongEnough(samples, key) {
      forall n | 0 <= n <= |samples| ensures !Stuck(samples[..n], key) {
        HeldLongEnoughPrefix(samples, n, key);
        RecordIsRight(samples[..n], key);
      }
    } else {
      ShortPressSticks(samples, key);
    }
  }

  lemma {:induction false} ShortPressSticks(samples: seq<Sample>, key: byte)
    requires !HeldLongEnough(samples, key)
    ensures exists n :: 0 <= n <= |samples| && Stuck(samples[..n], key)
    decreases samples
  {
    hide Inv, Poll;
    if samples != [] {
      var init, last := samples[..|samples| - 1], samples[|samples| - 1];
      if !HeldLongEnough(init, key) {
        ShortPressSticks(init, key);
        var n :| 0 <= n <= |init| && Stuck(init[..n], key);
        assert samples[..n] == init[..n];
      } else {
        BadFallIsLast(samples, key);
        RecordIsRight(init, key);
        RunKeepsInv(init);
        TimesAreHeld(Run(init));
        PollExactly(Run(init), last.down, last.now);
        assert samples[..|samples|] == samples && Stuck(samples, key);
      }
    }
  }

  lemma {:induction false} BadFallIsLast(samples: seq<Sample>, key: byte)
    requires samples != [] && !HeldLongEnough(samples, key) && HeldLongEnough(samples[..|samples| - 1], key)
    ensures var last, init := |samples| - 1, samples[..|samples| - 1];
            && DownAt(init, last - 1, key) && !DownAt(samples, last, key)
            && samples[last].now - LastRise(init, key) < DEBOUNCE_MS
  {
    hide LastRise, Falls, InScan;
    var init := samples[..|samples| - 1];
    var i :| 0 < i < |samples| && Falls(samples, i, key) && samples[i].now - LastRise(samples[..i], key) < DEBOUNCE_MS;
    if i < |init| {
      FallsInPrefix(samples, |init|, i, key);
    } else {
      FallIsEdge(samples, key);
    }
  }

  /** The condition can fail: a key down at one poll and up 3 ms later. */
  lemma ReleaseCanBeMissed()
    ensures var s := Run([Sample({65}, 0), Sample({}, 3)]);
            65 in s.held && 65 !in s.pastKeys
  {
    hide Poll, Inv;
    var first, second := Sample({65}, 0), Sample({}, 3);
    assert [first, second][..1] == [first] && [first][..0] == [] && Run([]) == STARTED;
    StartedInv();
    PollExactly(STARTED, {65}, 0);
    RunKeepsInv([first]);
    TimesAreHeld(Run([first]));
    PollExactly(Run([first]), {}, 3);
  }

  // ---------------------------------------------------------------- the object

  class WindowsInput {
    const keyStatesBitmask: KeyBitmask
    var pastKeys: seq<byte>
    var currentKeys: seq<byte>
    var keyPressTimes: map<byte, int>
    ghost var emitted: seq<KeyEvent>

    constructor ()
      ensures Valid() && fresh(keyStatesBitmask) && fresh(keyStatesBitmask.bytes)
      ensures View() == STARTED
    {
      keyStatesBitmask := new KeyBitmask();
      pastKeys, currentKeys, keyPressTimes, emitted := [], [], map[], [];
    }

    predicate Valid()
      reads this, keyStatesBitmask
    {
      keyStatesBitmask.bytes.Length == 32 && 0 !in pastKeys
    }

    ghost function View(): Poller
      requires Valid()
      reads this, keyStatesBitmask, keyStatesBitmask.bytes
    {
      Poller(Keys(keyStatesBitmask.bytes[..]), pastKeys, keyPressTimes, emitted)
    }

    method FindKeyChanges(down: set<byte>, now: int) returns (changes: seq<KeyEvent>)
      requires Valid()
      modifies this, keyStatesBitmask.bytes
      ensures Valid() && View() == Poll(old(View()), down, now)
      ensures emitted == old(emitted) + changes
    {
      hide Keys, Scan, CheckRelease, CheckPress;
      ghost var start := View();
      ScanKeys(down);
      changes := [];
      assert emitted + [] == emitted;
      for i := 0 to |pastKeys|
        invariant pastKeys == start.pastKeys && currentKeys == Scan(down, 255)
        invariant View() == CheckReleases(start, down, now, pastKeys[..i])
        invariant emitted == start.emitted + changes
      {
        assert pastKeys[..i + 1][..i] == pastKeys[..i];
        var more := TryRelease(down, now, pastKeys[i]);
        changes := changes + more;
      }
      assert pastKeys[..|pastKeys|] == pastKeys;
      ghost var released := View();
      for i := 0 to |currentKeys|
        invariant pastKeys == start.pastKeys && currentKeys == Scan(down, 255)
        invariant View() == CheckPresses(released, now, currentKeys[..i])
        invariant emitted == start.emitted + changes
      {
        assert currentKeys[..i + 1][..i] == currentKeys[..i];
        assert currentKeys[i] in currentKeys;
        var more := TryPress(now, currentKeys[i]);
        changes := changes + more;
      }
      assert currentKeys[..|currentKeys|] == currentKeys;
      pastKeys := currentKeys;
    }

    /** The key codes 1 to 254, each asked of the system. */
    method ScanKeys(down: set<byte>)
      modifies this`currentKeys
      ensures currentKeys == Scan(down, 255)
    {
      currentKeys := [];
      for vkCode := 1 to 255
        invariant currentKeys == Scan(down, vkCode)
      {
        if vkCode in down {
          currentKeys := currentKeys + [vkCode];
        }
      }
    }

    method TryRelease(down: set<byte>, now: int, key: byte) returns (changes: seq<KeyEvent>)
      requires Valid()
      requires key != 0
      modifies this`keyPressTimes, this`emitted, keyStatesBitmask.bytes
      ensures View() == CheckRelease(old(View()), down, now, key)
      ensures emitted == old(emitted) + changes
    {
      hide Keys;
      changes := [];
      assert emitted + [] == emitted;
      if key !in down {
        var bit := keyStatesBitmask.IsPressed(key);
        if bit {
          if key in keyPressTimes && now - keyPressTimes[key] >= DEBOUNCE_MS {
            changes := [KeyEvent(key, false)];
            keyStatesBitmask.Update(key, false);
            keyPressTimes := keyPressTimes - {key};
          } else if key !in keyPressTimes {
            changes := [KeyEvent(key, false)];
            keyStatesBitmask.Update(key, false);
          }
          emitted := emitted + changes;
        }
      }
    }

    method TryPress(now: int, key: byte) returns (changes: seq<KeyEvent>)
      requires Valid() && key != 0
      modifies this`keyPressTimes, this`emitted, keyStatesBitmask.bytes
      ensures View() == CheckPress(old(View()), now, key)
      ensures emitted == old(emitted) + changes
    {
      hide Keys;
      changes := [];
      assert emitted + [] == emitted;
      var bit := keyStatesBitmask.IsPressed(key);
      if !bit {
        if key !in keyPressTimes || now - keyPressTimes[key] >= DEBOUNCE_MS {
          changes := [KeyEvent(key, true)];
          keyStatesBitmask.Update(key, true);
          keyPressTimes := keyPressTimes[key := now];
          emitted := emitted + changes;
        }
      }
    }
  }
}
