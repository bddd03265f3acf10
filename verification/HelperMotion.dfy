/**
  What the Linux helper makes of device events, said in terms of the events alone: which keys
  and buttons are down, where mouse motion, absolute coordinates and a finger's drag take the
  pointer, and what each report sends.
 */
module HelperMotion {
  import opened Prelude
  import opened KeyEvents
  import PS = PointerSimulation
  import opened HelperInput

  type Events = seq<(int, Event)>

  function Init(evs: Events): Events
    requires evs != []
  {
    evs[..|evs| - 1]
  }

  function Last(evs: Events): (int, Event)
    requires evs != []
  {
    evs[|evs| - 1]
  }

  // ---------------------------------------------------------------- keys

  predicate TouchDevice(devices: map<int, Device>, fd: int) {
    fd in devices && devices[fd].touchPointer
  }

  /** The last event of the keys with code `vk`, a finger's touch not being one, was not a
      release. */
  predicate KeyIsDown(toVk: nat -> byte, devices: map<int, Device>, evs: Events, vk: byte) {
    evs != [] &&
    var (fd, ev) := Last(evs);
    if ev.Key? && toVk(ev.code) == vk && !(TouchDevice(devices, fd) && ev.code == 0x14a) then
      ev.value == 1 || ev.value == 2
    else KeyIsDown(toVk, devices, Init(evs), vk)
  }

  /** What a device is, apart from what is happening on it. */
  predicate SameTraits(d: Device, r: Device) {
    r.touchPointer == d.touchPointer && r.touchpadPart == d.touchpadPart && r.absX == d.absX && r.absY == d.absY
  }

  lemma NextKeepsTraits(toVk: nat -> byte, h: Helper, fd: int, ev: Event, other: int)
    ensures SameTraits(Dev(h, other), Dev(Next(toVk, h, fd, ev), other))
  {
    hide OnKey, OnAbs, OnSyn, SameTraits;
    match ev
    case Key(code, value) => KeyKeepsTraits(toVk, h, fd, code, value, other);
    case Abs(code, value) => AbsKeepsTraits(h, fd, code, value, other);
    case SynReport => ReportKeepsTraits(h, fd, other);
    case _ => HasItsTraits(Dev(h, other));
  }

  lemma HasItsTraits(d: Device)
    ensures SameTraits(d, d)
  {
  }

  lemma KeyKeepsTraits(toVk: nat -> byte, h: Helper, fd: int, code: nat, value: int, other: int)
    ensures SameTraits(Dev(h, other), Dev(OnKey(toVk, h, fd, code, value), other))
  {
    hide Held, KeyChange, PressButtons;
  }

  lemma AbsKeepsTraits(h: Helper, fd: int, code: nat, value: int, other: int)
    ensures SameTraits(Dev(h, other), Dev(OnAbs(h, fd, code, value), other))
  {
    hide Scale;
  }

  lemma DragKeepsTraits(h: Helper, fd: int, other: int)
    ensures SameTraits(Dev(h, other), Dev(Drag(h, fd), other))
  {
    hide ScreenDelta;
  }

  lemma ReportKeepsTraits(h: Helper, fd: int, other: int)
    ensures SameTraits(Dev(h, other), Dev(OnSyn(h, fd), other))
  {
    hide Drag, Settle, OnSyn;
    DragKeepsTraits(h, fd, other);
    OnSynPlaces(h, fd);
    SettledDevices(Drag(h, fd), fd);
  }

  /** What a device is does not change. */
  lemma {:induction false} RunKeepsTraits(toVk: nat -> byte, h: Helper, evs: Events, fd: int)
    ensures SameTraits(Dev(h, fd), Dev(Run(toVk, h, evs), fd))
    decreases evs
  {
    hide Next;
    if evs != [] {
      RunKeepsTraits(toVk, h, Init(evs), fd);
      NextKeepsTraits(toVk, Run(toVk, h, Init(evs)), Last(evs).0, Last(evs).1, fd);
    }
  }

  lemma {:induction false} HeldAfterChange(held: set<byte>, vk: byte, down: bool)
    ensures Held(held, KeyChange(held, vk, down)) == if down then held + {vk} else held - {vk}
  {
    HeldSnoc(held, [], KeyEvent(vk, down));
    assert [] + [KeyEvent(vk, down)] == [KeyEvent(vk, down)];
  }

  lemma NextHolds(toVk: nat -> byte, h: Helper, fd: int, ev: Event, vk: byte)
    requires vk != 0
    ensures vk in Next(toVk, h, fd, ev).held
            <==> if ev.Key? && toVk(ev.code) == vk && !(Dev(h, fd).touchPointer && ev.code == 0x14a)
                 then ev.value == 1 || ev.value == 2
                 else vk in h.held
  {
    hide OnAbs, OnSyn, Held, KeyChange, PressButtons;
    match ev
    case Key(code, value) => HeldAfterChange(h.held, toVk(code), IsDown(value));
    case Abs(code, value) => OnAbsOnlyMoves(h, fd, code, value);
    case SynReport => OnSynSets(h, fd);
    case _ =>
  }

  /** The helper holds a key exactly if the device events say that it is down. */
  lemma {:induction false} HeldFollowsEvents(toVk: nat -> byte, width: int, height: int, devices: map<int, Device>,
                                             evs: Events, vk: byte)
    requires vk != 0
    ensures vk in Run(toVk, Start(width, height, devices), evs).held <==> KeyIsDown(toVk, devices, evs, vk)
    decreases evs
  {
    hide Next;
    var start := Start(width, height, devices);
    if evs != [] {
      HeldFollowsEvents(toVk, width, height, devices, Init(evs), vk);
      RunKeepsTraits(toVk, start, Init(evs), Last(evs).0);
      NextHolds(toVk, Run(toVk, start, Init(evs)), Last(evs).0, Last(evs).1, vk);
    }
  }

  /** The last touch event of the device was a finger coming down. */
  predicate FingerIsDown(devices: map<int, Device>, evs: Events, fd: int) {
    if evs == [] then fd in devices && devices[fd].touchActive
    else
      var (from, ev) := Last(evs);
      if from == fd && TouchDevice(devices, fd) && ev.Key? && ev.code == 0x14a then ev.value == 1 || ev.value == 2
      else FingerIsDown(devices, Init(evs), fd)
  }

  lemma NextTouches(toVk: nat -> byte, h: Helper, from: int, ev: Event, fd: int)
    ensures Dev(Next(toVk, h, from, ev), fd).touchActive
            <==> if from == fd && Dev(h, fd).touchPointer && ev.Key? && ev.code == 0x14a
                 then ev.value == 1 || ev.value == 2
                 else Dev(h, fd).touchActive
  {
    hide OnAbs, OnSyn, Held, KeyChange, PressButtons;
    match ev
    case Abs(code, value) => AbsKeepsTouch(h, from, code, value, fd);
    case SynReport => ReportKeepsTouch(h, from, fd);
    case _ =>
  }

  lemma AbsKeepsTouch(h: Helper, from: int, code: nat, value: int, fd: int)
    ensures Dev(OnAbs(h, from, code, value), fd).touchActive == Dev(h, fd).touchActive
  {
    hide Scale;
  }

  lemma ReportKeepsTouch(h: Helper, from: int, fd: int)
    ensures Dev(OnSyn(h, from), fd).touchActive == Dev(h, fd).touchActive
  {
    hide Drag, Settle, OnSyn;
    DragKeepsTouch(h, from, fd);
    OnSynPlaces(h, from);
    SettledDevices(Drag(h, from), from);
  }

  lemma DragKeepsTouch(h: Helper, from: int, fd: int)
    ensures Dev(Drag(h, from), fd).touchActive == Dev(h, fd).touchActive
  {
    hide ScreenDelta;
  }

  /** Whether a finger is taken to be down follows the touch events alone. */
  lemma {:induction false} TouchFollowsEvents(toVk: nat -> byte, width: int, height: int, devices: map<int, Device>,
                                              evs: Events, fd: int)
    ensures Dev(Run(toVk, Start(width, height, devices), evs), fd).touchActive <==> FingerIsDown(devices, evs, fd)
    decreases evs
  {
    hide Next;
    var start := Start(width, height, devices);
    if evs != [] {
      TouchFollowsEvents(toVk, width, height, devices, Init(evs), fd);
      RunKeepsTraits(toVk, start, Init(evs), fd);
      NextTouches(toVk, Run(toVk, start, Init(evs)), Last(evs).0, Last(evs).1, fd);
    }
  }

  // ---------------------------------------------------------------- buttons

  /** The last event of a button that maps to a key at all was not a release. */
  predicate ButtonIsDown(toVk: nat -> byte, evs: Events, code: nat) {
    evs != [] &&
    var ev := Last(evs).1;
    if ev.Key? && ev.code == code && toVk(code) != 0 then ev.value == 1 || ev.value == 2
    else ButtonIsDown(toVk, Init(evs), code)
  }

  /** Bits 0, 1 and 2 for the left, right and middle button. */
  function ButtonsDown(toVk: nat -> byte, evs: Events): bv8 {
    (if ButtonIsDown(toVk, evs, 0x110) then 1 else 0)
    | (if ButtonIsDown(toVk, evs, 0x111) then 2 else 0)
    | (if ButtonIsDown(toVk, evs, 0x112) then 4 else 0)
  }

  /** Since the last report some event has changed the state of one of the three. */
  predicate ReportFlips(toVk: nat -> byte, evs: Events) {
    evs != [] && !Last(evs).1.SynReport? &&
    (ReportFlips(toVk, Init(evs)) || ButtonsDown(toVk, evs) != ButtonsDown(toVk, Init(evs)))
  }

  lemma {:induction false} PressedBits(toVk: nat -> byte, evs: Events, code: nat, value: int)
    requires evs != [] && Last(evs).1 == Key(code, value) && toVk(code) != 0
    ensures PressButtons(ButtonsDown(toVk, Init(evs)), code, IsDown(value)) == ButtonsDown(toVk, evs)
  {
    var init := Init(evs);
    var l, r, m := ButtonIsDown(toVk, init, 0x110), ButtonIsDown(toVk, init, 0x111), ButtonIsDown(toVk, init, 0x112);
    PressedMask(l, r, m, code, IsDown(value));
  }

  lemma PressedMask(l: bool, r: bool, m: bool, code: nat, down: bool)
    ensures PressButtons(Mask(l, r, m), code, down)
            == Mask(if code == 0x110 then down else l, if code == 0x111 then down else r,
                    if code == 0x112 then down else m)
  {
  }

  function Mask(l: bool, r: bool, m: bool): bv8 {
    (if l then 1 else 0) | (if r then 2 else 0) | (if m then 4 else 0)
  }

  lemma {:induction false} OtherEventKeepsButtons(toVk: nat -> byte, evs: Events)
    requires evs != []
    requires var ev := Last(evs).1; !ev.Key? || toVk(ev.code) == 0 || ev.code == 0x14a
    ensures ButtonsDown(toVk, evs) == ButtonsDown(toVk, Init(evs))
  {
  }

  /** The mask holds the buttons that are down, and the report is marked exactly if one of its
      events changed them. */
  lemma {:induction false} ButtonsFollowEvents(toVk: nat -> byte, width: int, height: int, devices: map<int, Device>,
                                               evs: Events)
    ensures var h := Run(toVk, Start(width, height, devices), evs);
            h.buttons == ButtonsDown(toVk, evs) && (h.buttonsChanged <==> ReportFlips(toVk, evs))
    decreases evs
  {
    hide Next, ButtonsDown;
    if evs == [] {
      NoButtons(toVk);
    } else {
      var before, fd, ev := Run(toVk, Start(width, height, devices), Init(evs)), Last(evs).0, Last(evs).1;
      ButtonsFollowEvents(toVk, width, height, devices, Init(evs));
      NextButtons(toVk, before, fd, ev);
      if ev.Key? && toVk(ev.code) != 0 && ev.code != 0x14a {
        PressedBits(toVk, evs, ev.code, ev.value);
      } else {
        OtherEventKeepsButtons(toVk, evs);
      }
    }
  }

  lemma NoButtons(toVk: nat -> byte)
    ensures ButtonsDown(toVk, []) == 0
  {
  }

  lemma NextButtons(toVk: nat -> byte, h: Helper, fd: int, ev: Event)
    ensures var r := Next(toVk, h, fd, ev);
            && (if ev.Key? && toVk(ev.code) != 0 && ev.code != 0x14a
                then r.buttons == PressButtons(h.buttons, ev.code, IsDown(ev.value))
                else r.buttons == h.buttons)
            && (r.buttonsChanged <==> !ev.SynReport? && (h.buttonsChanged || r.buttons != h.buttons))
  {
    hide OnAbs, Held, KeyChange, Settle, Drag, Report, SendsPosition;
    match ev
    case Key(code, value) => TouchIsNoButton(h.buttons, IsDown(value));
    case Abs(code, value) => OnAbsOnlyMoves(h, fd, code, value);
    case SynReport => SettleOnlyMoves(h, fd);
    case _ =>
  }

  lemma TouchIsNoButton(buttons: bv8, down: bool)
    ensures PressButtons(buttons, 0x14a, down) == buttons
  {
  }

  // ---------------------------------------------------------------- mouse motion

  /** The pixel nearest to `v` on a screen of `dim` pixels. */
  function Nearest(v: int, dim: int): int {
    if v < 0 then 0 else if v > dim - 1 then dim - 1 else v
  }

  /** A coordinate that starts in the middle, takes every relative motion in full and is brought
      back to the screen at the end of each report. */
  function Walk(evs: Events, code: nat, dim: int): int {
    if evs == [] then dim / 2
    else
      match Last(evs).1
      case Rel(c, value) => Walk(Init(evs), code, dim) + if c == code then value else 0
      case SynReport => Nearest(Walk(Init(evs), code, dim), dim)
      case _ => Walk(Init(evs), code, dim)
  }

  predicate NoAbs(evs: Events) {
    forall i :: 0 <= i < |evs| ==> !evs[i].1.Abs?
  }

  /** Pending coordinates come from absolute events alone. */
  lemma NextKeepsPending(toVk: nat -> byte, h: Helper, fd: int, ev: Event)
    requires NoPending(h.devices) && !ev.Abs?
    ensures NoPending(Next(toVk, h, fd, ev).devices)
  {
    hide OnSyn, Held, KeyChange, PressButtons;
    if ev == SynReport {
      SynQuiets(h, fd);
    }
  }

  lemma NextWalks(toVk: nat -> byte, h: Helper, fd: int, ev: Event)
    requires NoPending(h.devices) && !ev.Abs? && Tracking(h)
    requires !h.moved ==> 0 <= h.x < h.width && 0 <= h.y < h.height
    ensures var r := Next(toVk, h, fd, ev);
            match ev
            case Rel(c, value) =>
              && r.x == h.x + (if c == 0 then value else 0)
              && r.y == h.y + (if c == 1 then value else 0)
            case SynReport => r.x == Nearest(h.x, h.width) && r.y == Nearest(h.y, h.height)
            case _ => r.x == h.x && r.y == h.y
  {
    hide OnSyn, Report, SendsPosition, Held, KeyChange, PressButtons, NoPending;
    if ev == SynReport {
      NothingPending(h, fd);
      OnSynSets(h, fd);
    }
  }

  lemma NothingPending(h: Helper, fd: int)
    requires NoPending(h.devices)
    ensures Dev(h, fd).pendingX == None && Drag(h, fd) == h
  {
  }

  lemma {:induction false} RunKeepsPending(toVk: nat -> byte, width: int, height: int, devices: map<int, Device>,
                                           evs: Events)
    requires NoPending(devices) && NoAbs(evs)
    ensures NoPending(Run(toVk, Start(width, height, devices), evs).devices)
    decreases evs
  {
    hide Next, NoPending;
    if evs != [] {
      assert forall i :: 0 <= i < |Init(evs)| ==> Init(evs)[i] == evs[i];
      RunKeepsPending(toVk, width, height, devices, Init(evs));
      NextKeepsPending(toVk, Run(toVk, Start(width, height, devices), Init(evs)), Last(evs).0, Last(evs).1);
    }
  }

  /** Without absolute events the pointer is where the mouse's motion puts it, at every point of
      every run, reported or not. */
  lemma {:induction false} MouseWalks(toVk: nat -> byte, width: int, height: int, devices: map<int, Device>,
                                      evs: Events)
    requires width > 0 && height > 0 && NoPending(devices) && NoAbs(evs)
    ensures var h := Run(toVk, Start(width, height, devices), evs);
            h.x == Walk(evs, 0, width) && h.y == Walk(evs, 1, height)
    decreases evs
  {
    hide Next, NoPending, SentPosition, Fraction;
    if evs != [] {
      var start, init := Start(width, height, devices), Init(evs);
      var before := Run(toVk, start, init);
      assert forall i :: 0 <= i < |init| ==> init[i] == evs[i];
      MouseWalks(toVk, width, height, devices, init);
      RunKeepsPending(toVk, width, height, devices, init);
      PointerKept(toVk, width, height, devices, init);
      NextWalks(toVk, before, Last(evs).0, Last(evs).1);
    }
  }

  lemma {:induction false} PointerKept(toVk: nat -> byte, width: int, height: int, devices: map<int, Device>,
                                       evs: Events)
    requires width > 0 && height > 0
    ensures var h := Run(toVk, Start(width, height, devices), evs);
            && h.width == width && h.height == height
            && (!h.moved ==> Settled(h))
  {
    hide Run, Settled;
    StartSettled(width, height, devices);
    RunKeepsPointer(toVk, Start(width, height, devices), evs);
  }

  /** Motion along one axis leaves the screen at no report. */
  predicate StaysOnScreen(evs: Events, code: nat, dim: int) {
    forall i :: 0 <= i < |evs| && evs[i].1 == SynReport ==> 0 <= dim / 2 + RelSum(evs[..i], code) < dim
  }

  lemma {:induction false} WalkAddsUp(evs: Events, code: nat, dim: int)
    requires dim > 0 && StaysOnScreen(evs, code, dim)
    ensures Walk(evs, code, dim) == dim / 2 + RelSum(evs, code)
    decreases evs
  {
    if evs != [] {
      var init := Init(evs);
      assert forall i :: 0 <= i < |init| ==> init[i] == evs[i] && init[..i] == evs[..i];
      WalkAddsUp(init, code, dim);
      if Last(evs).1 == SynReport {
        assert evs[|evs| - 1].1 == SynReport;
      }
    }
  }

  /** So long as it leaves the screen at no report, the pointer is the middle of the screen plus
      all the motion there has been. */
  lemma {:induction false} MotionAddsUp(toVk: nat -> byte, width: int, height: int, devices: map<int, Device>,
                                        evs: Events)
    requires width > 0 && height > 0 && NoPending(devices) && NoAbs(evs)
    requires StaysOnScreen(evs, 0, width) && StaysOnScreen(evs, 1, height)
    ensures var h := Run(toVk, Start(width, height, devices), evs);
            h.x == width / 2 + RelSum(evs, 0) && h.y == height / 2 + RelSum(evs, 1)
  {
    MouseWalks(toVk, width, height, devices, evs);
    WalkAddsUp(evs, 0, width);
    WalkAddsUp(evs, 1, height);
  }

  predicate OneReport(evs: Events) {
    forall i :: 0 <= i < |evs| ==> !evs[i].1.SynReport? && !evs[i].1.Abs?
  }

  lemma {:induction false} ReportMoves(toVk: nat -> byte, h: Helper, evs: Events)
    requires Tracking(h) && NoPending(h.devices) && OneReport(evs)
    requires 0 <= h.x < h.width && 0 <= h.y < h.height
    ensures var r := Run(toVk, h, evs);
            && r.x == h.x + RelSum(evs, 0) && r.y == h.y + RelSum(evs, 1)
            && r.width == h.width && r.height == h.height && NoPending(r.devices)
            && (!r.moved ==> r.x == h.x && r.y == h.y)
    decreases evs
  {
    hide Next, NoPending;
    if evs != [] {
      var init := Init(evs);
      assert forall i :: 0 <= i < |init| ==> init[i] == evs[i];
      ReportMoves(toVk, h, init);
      var before := Run(toVk, h, init);
      MotionEvent(toVk, before, Last(evs).0, Last(evs).1);
      NextKeepsPending(toVk, before, Last(evs).0, Last(evs).1);
    }
  }

  lemma MotionEvent(toVk: nat -> byte, h: Helper, fd: int, ev: Event)
    requires Tracking(h) && !ev.SynReport? && !ev.Abs?
    ensures var r := Next(toVk, h, fd, ev);
            && r.x == h.x + (if ev.Rel? && ev.code == 0 then ev.value else 0)
            && r.y == h.y + (if ev.Rel? && ev.code == 1 then ev.value else 0)
            && r.width == h.width && r.height == h.height
            && (!r.moved ==> !h.moved && r.x == h.x && r.y == h.y)
  {
    hide OnKey;
    if ev.Key? {
      OnKeyOnlyKeys(toVk, h, fd, ev.code, ev.value);
    }
  }

  /** Wherever absolute devices have taken it: a report of relative events moves the pointer from
      where the previous report left it by the motion reported, up to the edge of the screen. */
  lemma {:induction false} RelativeReport(toVk: nat -> byte, h: Helper, evs: Events, fd: int)
    requires PointerInv(h) && Tracking(h) && Quiet(h) && OneReport(evs)
    ensures var r := Run(toVk, h, evs + [(fd, SynReport)]);
            && r.x == Nearest(h.x + RelSum(evs, 0), h.width)
            && r.y == Nearest(h.y + RelSum(evs, 1), h.height)
  {
    hide Run, OnSyn, Report, SendsPosition, Fraction, SentPosition, NoPending, PressButtons;
    var all, before := evs + [(fd, SynReport)], Run(toVk, h, evs);
    ReportMoves(toVk, h, evs);
    EndsInReport(toVk, h, all);
    assert Init(all) == evs;
    NothingPending(before, fd);
    OnSynSets(before, fd);
  }

  /** So after any polls of whole reports, one more report of relative events moves the pointer
      by just its motion. */
  lemma {:induction false} PollMoves(toVk: nat -> byte, width: int, height: int, devices: map<int, Device>,
                                     polls: seq<seq<(int, seq<Event>)>>, fd: int, events: seq<Event>)
    requires width > 0 && height > 0 && NoPending(devices) && forall i :: 0 <= i < |polls| ==> Whole(polls[i])
    requires OneReport(Tagged(fd, events))
    ensures var h := PollAll(toVk, Start(width, height, devices), polls);
            var r := PollOnce(toVk, h, [(fd, events + [SynReport])]);
            && r.x == Nearest(h.x + RelSum(Tagged(fd, events), 0), width)
            && r.y == Nearest(h.y + RelSum(Tagged(fd, events), 1), height)
  {
    hide Run, PollDevices, Whole, Quiet, PointerInv, OneReport, RelSum, NoPending, Tagged;
    var start, ready := Start(width, height, devices), [(fd, events + [SynReport])];
    var h := PollAll(toVk, start, polls);
    PollsAreRun(toVk, width, height, devices, polls);
    StartSettled(width, height, devices);
    RunKeepsPointer(toVk, start, AllEvents(polls));
    QuietClears(h, fd);
    WholeReport(fd, events);
    PollIsRun(toVk, h, ready);
    TaggedAppend(fd, events, [SynReport]);
    OneTagged(fd, SynReport);
    RelativeReport(toVk, h, Tagged(fd, events), fd);
  }

  lemma {:induction false} TaggedAppend(fd: int, a: seq<Event>, b: seq<Event>)
    ensures Tagged(fd, a + b) == Tagged(fd, a) + Tagged(fd, b)
  {
  }

  lemma OneTagged(fd: int, ev: Event)
    ensures Tagged(fd, [ev]) == [(fd, ev)]
  {
  }

  lemma {:induction false} WholeReport(fd: int, events: seq<Event>)
    ensures var ready := [(fd, events + [SynReport])];
            Whole(ready) && EventsOf(ready) == Tagged(fd, events + [SynReport])
  {
    var ready := [(fd, events + [SynReport])];
    assert ready[..0] == [] && EventsOf([]) == [];
    assert [] + Tagged(fd, events + [SynReport]) == Tagged(fd, events + [SynReport]);
  }

  // ---------------------------------------------------------------- coordinates in pixels

  lemma FloorOfProduct(a: int, b: int, c: int)
    requires a >= 0 && b > 0 && c >= 0
    ensures a as real / b as real * c as real >= 0.0
    ensures (a as real / b as real * c as real).Floor == a * c / b
  {
    hide Times;
    var q, m, n := a as real / b as real * c as real, a * c, a * c / b;
    RatioTimes(a, b, c);
    TimesIs(q, b as real);
    MoreProduct(0, a, c);
    DivisionBounds(m, b);
    CastProduct(n, b);
    CastProduct(n + 1, b);
    FloorBetween(q, b, n * b, m, (n + 1) * b, n);
  }

  lemma RatioTimes(a: int, b: int, c: int)
    requires a >= 0 && b > 0 && c >= 0
    ensures a as real / b as real * c as real * b as real == (a * c) as real
  {
    var x, y, z := a as real, b as real, c as real;
    assert x / y * z * y == x / y * y * z;
    assert x / y * y == x;
    assert (a * c) as real == x * z;
  }

  lemma DivisionBounds(m: int, b: int)
    requires b > 0
    ensures m / b * b <= m < (m / b + 1) * b
    ensures m >= 0 ==> m / b * b >= 0
  {
  }

  lemma CastProduct(n: int, b: int)
    ensures (n * b) as real == Times(n as real, b as real)
  {
  }

  lemma CancelFactor(a: real, b: real, c: real)
    requires c > 0.0
    ensures Times(a, c) <= Times(b, c) ==> a <= b
    ensures Times(a, c) < Times(b, c) ==> a < b
  {
    hide Times;
    if a > b {
      TimesOfSum(b, a - b, c);
      assert b + (a - b) == a;
      PositiveTimes(a - b, c);
    }
  }

  lemma PositiveTimes(d: real, c: real)
    requires d > 0.0 && c > 0.0
    ensures Times(d, c) > 0.0
  {
  }

  lemma FloorIs(q: real, n: int)
    requires n as real <= q < n as real + 1.0
    ensures q.Floor == n
  {
  }

  /** `low` and `high` are `n` and `n + 1` times `b`. */
  lemma FloorBetween(q: real, b: int, low: int, m: int, high: int, n: int)
    requires b > 0 && Times(q, b as real) == m as real && 0 <= low <= m < high
    requires low as real == Times(n as real, b as real) && high as real == Times((n + 1) as real, b as real)
    ensures q.Floor == n && q >= 0.0
  {
    hide Times;
    CancelFactor(n as real, q, b as real);
    CancelFactor(q, (n + 1) as real, b as real);
    CancelFactor(0.0, n as real, b as real);
    ZeroTimes(b as real);
    FloorIs(q, n);
  }

  lemma ZeroTimes(c: real)
    ensures Times(0.0, c) == 0.0
  {
  }

  /** The pixel for a device coordinate, in whole numbers: the same proportion of the screen, the
      ends of the axis for what lies outside; the middle if the axis has no range. */
  function Pixel(value: int, info: AbsInfo, dim: int): int {
    if info.maximum == info.minimum then dim / 2
    else if info.maximum < info.minimum then 0
    else
      var range := info.maximum - info.minimum;
      Nearest(value - info.minimum, range + 1) * (dim - 1) / range
  }

  lemma ScaleIsPixel(value: int, info: AbsInfo, dim: int)
    requires dim > 0
    ensures Scale(value, info, dim) == Pixel(value, info, dim)
  {
    if info.maximum < info.minimum {
      ZeroOver(info.maximum - info.minimum, dim - 1);
    } else if info.maximum > info.minimum {
      FloorOfProduct(Bounded(value, info.minimum, info.maximum) - info.minimum, info.maximum - info.minimum, dim - 1);
    }
  }

  lemma ZeroOver(range: int, n: int)
    requires range != 0
    ensures 0 as real / range as real * n as real == 0.0
  {
    assert 0 as real / range as real == 0.0;
  }

  /** It is on the screen, and the first and last coordinate are the first and last pixel. */
  lemma PixelOnScreen(value: int, info: AbsInfo, dim: int)
    requires dim > 0
    ensures 0 <= Pixel(value, info, dim) < dim
    ensures info.minimum < info.maximum && value <= info.minimum ==> Pixel(value, info, dim) == 0
    ensures info.minimum < info.maximum && value >= info.maximum ==> Pixel(value, info, dim) == dim - 1
  {
    if info.maximum > info.minimum {
      var range := info.maximum - info.minimum;
      var a := Nearest(value - info.minimum, range + 1);
      FullRange(range, dim - 1);
      PartOfRange(a, range, dim - 1);
    }
  }

  lemma PartOfRange(a: int, range: int, n: int)
    requires 0 <= a <= range && range > 0 && n >= 0
    ensures 0 <= a * n / range <= n
  {
    var q := a * n / range;
    DivisionBounds(a * n, range);
    assert 0 <= a * n <= n * range by {
      MoreProduct(a, range, n);
    }
    if q > n {
      OrderedProducts(n + 1, q, range);
    } else if q < 0 {
      OrderedProducts(q + 1, 0, range);
    }
  }

  lemma MoreProduct(a: int, b: int, n: int)
    requires 0 <= a <= b && n >= 0
    ensures 0 <= a * n <= b * n
  {
  }

  lemma FullRange(range: int, n: int)
    requires range > 0
    ensures range * n / range == n && 0 * n / range == 0
  {
    var q := range * n / range;
    DivisionBounds(range * n, range);
    if q < n {
      OrderedProducts(q + 1, n, range);
    } else if q > n {
      OrderedProducts(n + 1, q, range);
    }
  }

  lemma OrderedProducts(a: int, b: int, c: int)
    requires a <= b && c > 0
    ensures a * c <= b * c
  {
  }

  /** An axis without a range says nothing: the middle of the screen is taken. */
  lemma ScaleWithoutRange(value: int, low: int, dim: int)
    requires dim > 0
    ensures Scale(value, AbsInfo(low, low), dim) == dim / 2
  {
  }

  /** The pixels a finger's way amounts to, rounded towards where it started. */
  function Way(raw: int, info: Option<AbsInfo>, dim: int): int {
    if info.None? || info.value.maximum <= info.value.minimum || dim <= 1 then 0
    else
      var range := info.value.maximum - info.value.minimum;
      if raw >= 0 then raw * (dim - 1) / range else -(-raw * (dim - 1) / range)
  }

  lemma DeltaIsWay(raw: int, info: Option<AbsInfo>, dim: int)
    ensures ScreenDelta(raw, InfoOr0(info), dim) == Way(raw, info, dim)
  {
    if info.Some? && info.value.maximum > info.value.minimum && dim > 1 {
      var range := info.value.maximum - info.value.minimum;
      if raw >= 0 {
        FloorOfProduct(raw, range, dim - 1);
      } else {
        FloorOfProduct(-raw, range, dim - 1);
        NegatedProduct(raw as real, range as real, (dim - 1) as real);
      }
    }
  }

  lemma NegatedProduct(a: real, b: real, c: real)
    requires b > 0.0
    ensures a / b * c == -(-a / b * c)
  {
    assert -a / b == -(a / b);
  }

  // ---------------------------------------------------------------- absolute coordinates

  predicate Coordinates(events: seq<Event>) {
    forall i :: 0 <= i < |events| ==> events[i].Abs? || events[i].OtherEvent?
  }

  /** The last horizontal coordinate among the events of a device, if any: its position or, when
      it has that axis, its first contact's. */
  function LastX(d: Device, events: seq<Event>): Option<int> {
    if events == [] then None
    else
      match events[|events| - 1]
      case Abs(code, value) =>
        if code == 0x00 || (code == 0x35 && d.absX.Some?) then Some(value)
        else LastX(d, events[..|events| - 1])
      case _ => LastX(d, events[..|events| - 1])
  }

  function LastY(d: Device, events: seq<Event>): Option<int> {
    if events == [] then None
    else
      match events[|events| - 1]
      case Abs(code, value) =>
        if code == 0x01 || (code == 0x36 && d.absY.Some?) then Some(value)
        else LastY(d, events[..|events| - 1])
      case _ => LastY(d, events[..|events| - 1])
  }

  lemma TaggedSnoc(fd: int, events: seq<Event>)
    requires events != []
    ensures Init(Tagged(fd, events)) == Tagged(fd, events[..|events| - 1])
    ensures Last(Tagged(fd, events)) == (fd, events[|events| - 1])
  {
  }

  lemma {:induction false} CoordinatesPlace(toVk: nat -> byte, h: Helper, fd: int, events: seq<Event>)
    requires Tracking(h) && Coordinates(events) && !(Dev(h, fd).touchPointer && Dev(h, fd).touchActive)
    ensures var r, d := Run(toVk, h, Tagged(fd, events)), Dev(h, fd);
            var x, y := LastX(d, events), LastY(d, events);
            && r.x == (if x.Some? && d.absX.Some? then Pixel(x.value, d.absX.value, h.width) else h.x)
            && r.y == (if y.Some? && d.absY.Some? then Pixel(y.value, d.absY.value, h.height) else h.y)
            && r.devices == h.devices && r.width == h.width && r.height == h.height
    decreases events
  {
    hide Scale, Pixel;
    if events != [] {
      var init, last := events[..|events| - 1], events[|events| - 1];
      assert forall i :: 0 <= i < |init| ==> init[i] == events[i];
      TaggedSnoc(fd, events);
      CoordinatesPlace(toVk, h, fd, init);
      if last.Abs? {
        if Dev(h, fd).absX.Some? {
          ScaleIsPixel(last.value, Dev(h, fd).absX.value, h.width);
        }
        if Dev(h, fd).absY.Some? {
          ScaleIsPixel(last.value, Dev(h, fd).absY.value, h.height);
        }
      }
    }
  }

  /** A report of coordinates from a device without a finger on it puts the pointer at the pixels
      of the last ones, axis by axis; an axis that is not reported stays. */
  lemma {:induction false} AbsoluteReport(toVk: nat -> byte, h: Helper, fd: int, events: seq<Event>)
    requires PointerInv(h) && Tracking(h) && Quiet(h) && Coordinates(events)
    requires !(Dev(h, fd).touchPointer && Dev(h, fd).touchActive)
    ensures var r, d := Run(toVk, h, Tagged(fd, events + [SynReport])), Dev(h, fd);
            var x, y := LastX(d, events), LastY(d, events);
            && r.x == (if x.Some? && d.absX.Some? then Pixel(x.value, d.absX.value, h.width) else h.x)
            && r.y == (if y.Some? && d.absY.Some? then Pixel(y.value, d.absY.value, h.height) else h.y)
  {
    hide Run, OnSyn, Report, SendsPosition, Fraction, SentPosition, NoPending, Pixel, LastX, LastY;
    var all, before, d := events + [SynReport], Run(toVk, h, Tagged(fd, events)), Dev(h, fd);
    var x, y := LastX(d, events), LastY(d, events);
    assert all[..|all| - 1] == events;
    TaggedSnoc(fd, all);
    EndsInReport(toVk, h, Tagged(fd, all));
    CoordinatesPlace(toVk, h, fd, events);
    NothingPending(before, fd);
    OnSynSets(before, fd);
    if x.Some? && d.absX.Some? {
      PixelOnScreen(x.value, d.absX.value, h.width);
    }
    if y.Some? && d.absY.Some? {
      PixelOnScreen(y.value, d.absY.value, h.height);
    }
  }

  // ---------------------------------------------------------------- dragging

  /** The events of reports, each with its end. */
  function Reports(reports: seq<seq<Event>>): seq<Event> {
    if reports == [] then []
    else Reports(reports[..|reports| - 1]) + (reports[|reports| - 1] + [SynReport])
  }

  /** Where the finger was at each report that gave both coordinates. */
  function Spots(d: Device, reports: seq<seq<Event>>): seq<(int, int)> {
    if reports == [] then []
    else
      var last := reports[|reports| - 1];
      var x, y := LastX(d, last), LastY(d, last);
      Spots(d, reports[..|reports| - 1]) + if x.Some? && y.Some? then [(x.value, y.value)] else []
  }

  /** What `d` has become while a finger is down that was put down with the pointer at `start`. */
  function Dragged(d: Device, start: (int, int), spots: seq<(int, int)>): Device {
    d.(touchActive := true, screenAtTouch := Some(start),
       rawAtTouch := if spots == [] then None else Some(spots[0]), pendingX := None, pendingY := None)
  }

  function DragTo(start: int, raw: int, info: Option<AbsInfo>, dim: int): int {
    Nearest(start + Way(raw, info, dim), dim)
  }

  lemma {:induction false} FingerPends(toVk: nat -> byte, h: Helper, fd: int, events: seq<Event>)
    requires Tracking(h) && Coordinates(events) && Dev(h, fd).touchPointer && Dev(h, fd).touchActive
    requires Dev(h, fd).pendingX == None && Dev(h, fd).pendingY == None
    ensures var r, d := Run(toVk, h, Tagged(fd, events)), Dev(h, fd);
            && Dev(r, fd) == d.(pendingX := LastX(d, events), pendingY := LastY(d, events))
            && r.x == h.x && r.y == h.y && r.moved == h.moved && r.width == h.width && r.height == h.height
    decreases events
  {
    hide Next, Tagged;
    if events == [] {
      assert Tagged(fd, []) == [] by { NothingTagged(fd); }
    } else {
      var init := events[..|events| - 1];
      assert forall i :: 0 <= i < |init| ==> init[i] == events[i];
      TaggedSnoc(fd, events);
      FingerPends(toVk, h, fd, init);
      FingerEvent(toVk, Run(toVk, h, Tagged(fd, init)), fd, events[|events| - 1]);
    }
  }

  lemma NothingTagged(fd: int)
    ensures Tagged(fd, []) == []
  {
  }

  lemma FingerEvent(toVk: nat -> byte, h: Helper, fd: int, ev: Event)
    requires Tracking(h) && (ev.Abs? || ev.OtherEvent?) && Dev(h, fd).touchPointer && Dev(h, fd).touchActive
    ensures var r, d := Next(toVk, h, fd, ev), Dev(h, fd);
            && r.x == h.x && r.y == h.y && r.moved == h.moved && r.width == h.width && r.height == h.height
            && Dev(r, fd) == (if ev.OtherEvent? then d
                              else if ev.code == 0x00 || (ev.code == 0x35 && d.absX.Some?) then
                                d.(pendingX := Some(ev.value))
                              else if ev.code == 0x01 || (ev.code == 0x36 && d.absY.Some?) then
                                d.(pendingY := Some(ev.value))
                              else d)
  {
    hide Scale;
  }

  predicate FingerInv(h: Helper, r: Helper, fd: int, spots: seq<(int, int)>) {
    r.width == h.width && r.height == h.height && !r.moved && Dev(r, fd) == Dragged(Dev(h, fd), (h.x, h.y), spots)
  }

  /** The pointer is at (x, y), from where it was in `h` by the finger's way. */
  predicate PlaceInv(h: Helper, x: int, y: int, fd: int, spots: seq<(int, int)>) {
    if spots == [] then x == h.x && y == h.y
    else
      var first, last := spots[0], spots[|spots| - 1];
      && x == DragTo(h.x, last.0 - first.0, Dev(h, fd).absX, h.width)
      && y == DragTo(h.y, last.1 - first.1, Dev(h, fd).absY, h.height)
  }

  ghost predicate DragInv(h: Helper, r: Helper, fd: int, spots: seq<(int, int)>) {
    FingerInv(h, r, fd, spots) && PlaceInv(h, r.x, r.y, fd, spots)
  }

  lemma WayFromItself(info: Option<AbsInfo>, dim: int)
    ensures Way(0, info, dim) == 0
  {
    if info.Some? && info.value.maximum > info.value.minimum && dim > 1 {
      FullRange(info.value.maximum - info.value.minimum, dim - 1);
    }
  }

  /** The end of a report of a device with a finger on it. */
  lemma DragCases(p: Helper, fd: int)
    requires var d := Dev(p, fd);
             d.touchPointer && d.touchActive && d.screenAtTouch.Some? && Tracking(p) && !p.moved
    requires 0 <= p.x < p.width && 0 <= p.y < p.height
    ensures var d, s := Dev(p, fd), Settle(Drag(p, fd), fd);
            if d.pendingX.None? || d.pendingY.None? then
              s.x == p.x && s.y == p.y && Dev(s, fd) == d.(pendingX := None, pendingY := None)
            else if d.rawAtTouch.None? then
              && s.x == p.x && s.y == p.y
              && Dev(s, fd) == d.(rawAtTouch := Some((d.pendingX.value, d.pendingY.value)), pendingX := None,
                                  pendingY := None)
            else
              && s.x == DragTo(d.screenAtTouch.value.0, d.pendingX.value - d.rawAtTouch.value.0, d.absX, p.width)
              && s.y == DragTo(d.screenAtTouch.value.1, d.pendingY.value - d.rawAtTouch.value.1, d.absY, p.height)
              && Dev(s, fd) == d.(pendingX := None, pendingY := None)
  {
    hide ScreenDelta, Way;
    var d := Dev(p, fd);
    if d.pendingX.Some? && d.pendingY.Some? && d.rawAtTouch.Some? {
      DeltaIsWay(d.pendingX.value - d.rawAtTouch.value.0, d.absX, p.width);
      DeltaIsWay(d.pendingY.value - d.rawAtTouch.value.1, d.absY, p.height);
    }
  }

  lemma OnSynPlaces(h: Helper, fd: int)
    ensures var s, r := Settle(Drag(h, fd), fd), OnSyn(h, fd);
            && r.x == s.x && r.y == s.y && r.devices == s.devices && !r.moved
            && r.width == h.width && r.height == h.height
  {
    hide Settle, Drag, Report, SendsPosition;
    SettleOnlyMoves(h, fd);
  }

  /** What the end of a report with these coordinates does, apart from where the pointer is. */
  lemma FingerReport(h: Helper, r: Helper, p: Helper, fd: int, spots: seq<(int, int)>, x: Option<int>,
                     y: Option<int>)
    requires Tracking(h) && Dev(h, fd).touchPointer && FingerInv(h, r, fd, spots)
    requires 0 <= r.x < r.width && 0 <= r.y < r.height
    requires p.x == r.x && p.y == r.y && p.moved == r.moved && p.width == r.width && p.height == r.height
    requires Dev(p, fd) == Dev(r, fd).(pendingX := x, pendingY := y)
    ensures var q, spots' := OnSyn(p, fd), spots + if x.Some? && y.Some? then [(x.value, y.value)] else [];
            && FingerInv(h, q, fd, spots')
            && (PlaceInv(h, r.x, r.y, fd, spots) && 0 <= h.x < h.width && 0 <= h.y < h.height ==>
                  PlaceInv(h, q.x, q.y, fd, spots'))
  {
    hide Settle, Drag, OnSyn, Way;
    var d := Dev(h, fd);
    DragCases(p, fd);
    OnSynPlaces(p, fd);
    WayFromItself(d.absX, h.width);
    WayFromItself(d.absY, h.height);
    if x.None? || y.None? {
      assert spots + [] == spots;
    } else if spots == [] {
      assert spots + [(x.value, y.value)] == [(x.value, y.value)];
    }
  }

  lemma {:induction false} ReportDrags(toVk: nat -> byte, h: Helper, fd: int, events: seq<Event>,
                                       report: seq<Event>, spots: seq<(int, int)>)
    requires Tracking(h) && Dev(h, fd).touchPointer && 0 <= h.x < h.width && 0 <= h.y < h.height
    requires DragInv(h, Run(toVk, h, Tagged(fd, events)), fd, spots) && Coordinates(report)
    ensures var x, y := LastX(Dev(h, fd), report), LastY(Dev(h, fd), report);
            DragInv(h, Run(toVk, h, Tagged(fd, events + (report + [SynReport]))), fd,
                    spots + if x.Some? && y.Some? then [(x.value, y.value)] else [])
  {
    hide Run, OnSyn, Tagged, Coordinates, LastX, LastY, FingerInv, PlaceInv;
    var r, p := Run(toVk, h, Tagged(fd, events)), Run(toVk, h, Tagged(fd, events + report));
    TaggedAppend(fd, events, report);
    RunAppend(toVk, h, Tagged(fd, events), Tagged(fd, report));
    DragInvSays(h, r, fd, spots);
    FingerPends(toVk, r, fd, report);
    SameAxes(Dev(h, fd), Dev(r, fd), report);
    FingerReport(h, r, p, fd, spots, LastX(Dev(h, fd), report), LastY(Dev(h, fd), report));
    var all := events + report + [SynReport];
    Assoc(events, report, [SynReport]);
    assert all[..|all| - 1] == events + report;
    TaggedSnoc(fd, all);
    EndsInReport(toVk, h, Tagged(fd, all));
  }

  lemma DragInvSays(h: Helper, r: Helper, fd: int, spots: seq<(int, int)>)
    requires DragInv(h, r, fd, spots)
    ensures r.width == h.width && r.height == h.height
    ensures Tracking(h) && 0 <= h.x < h.width && 0 <= h.y < h.height ==> 0 <= r.x < r.width && 0 <= r.y < r.height
    ensures var d := Dev(r, fd);
            && d.touchPointer == Dev(h, fd).touchPointer && d.touchActive && d.pendingX == None && d.pendingY == None
            && d.absX == Dev(h, fd).absX && d.absY == Dev(h, fd).absY
  {
    hide Way;
  }

  lemma {:induction false} DragKeepsInv(toVk: nat -> byte, h: Helper, fd: int, reports: seq<seq<Event>>)
    requires PointerInv(h) && Tracking(h) && Quiet(h) && Dev(h, fd).touchPointer
    requires forall i :: 0 <= i < |reports| ==> Coordinates(reports[i])
    ensures var r := Run(toVk, h, Tagged(fd, [Key(0x14a, 1)] + Reports(reports)));
            DragInv(h, r, fd, Spots(Dev(h, fd), reports))
    decreases reports
  {
    hide Next, OnSyn, Fraction, SentPosition, Coordinates, LastX, LastY, DragInv;
    if reports == [] {
      FingerDown(toVk, h, fd);
      assert [Key(0x14a, 1)] + [] == [Key(0x14a, 1)];
    } else {
      var init, last := reports[..|reports| - 1], reports[|reports| - 1];
      assert forall i :: 0 <= i < |init| ==> init[i] == reports[i];
      DragKeepsInv(toVk, h, fd, init);
      var events := [Key(0x14a, 1)] + Reports(init);
      ReportDrags(toVk, h, fd, events, last, Spots(Dev(h, fd), init));
      Assoc([Key(0x14a, 1)], Reports(init), last + [SynReport]);
    }
  }

  /** Whatever way the finger takes: from the moment it is put down the pointer is, after every
      report, where it was then plus the way from the finger's first position to its last, in
      pixels and up to the edge of the screen. Reports with one coordinate count for nothing. */
  lemma {:induction false} FingerDrags(toVk: nat -> byte, h: Helper, fd: int, reports: seq<seq<Event>>)
    requires PointerInv(h) && Tracking(h) && Quiet(h) && Dev(h, fd).touchPointer
    requires forall i :: 0 <= i < |reports| ==> Coordinates(reports[i])
    ensures var r := Run(toVk, h, Tagged(fd, [Key(0x14a, 1)] + Reports(reports)));
            var d, spots := Dev(h, fd), Spots(Dev(h, fd), reports);
            if spots == [] then r.x == h.x && r.y == h.y
            else
              var first, last := spots[0], spots[|spots| - 1];
              && r.x == Nearest(h.x + Way(last.0 - first.0, d.absX, h.width), h.width)
              && r.y == Nearest(h.y + Way(last.1 - first.1, d.absY, h.height), h.height)
  {
    hide Run, Spots, Way;
    DragKeepsInv(toVk, h, fd, reports);
  }

  lemma {:induction false} SameAxes(d: Device, r: Device, events: seq<Event>)
    requires r.absX == d.absX && r.absY == d.absY
    ensures LastX(r, events) == LastX(d, events) && LastY(r, events) == LastY(d, events)
    decreases events
  {
    if events != [] {
      SameAxes(d, r, events[..|events| - 1]);
    }
  }

  lemma {:induction false} FingerDown(toVk: nat -> byte, h: Helper, fd: int)
    requires Quiet(h) && Dev(h, fd).touchPointer
    ensures DragInv(h, Run(toVk, h, Tagged(fd, [Key(0x14a, 1)])), fd, [])
  {
    TaggedSnoc(fd, [Key(0x14a, 1)]);
    assert Tagged(fd, []) == [];
  }

  // ---------------------------------------------------------------- what a report sends

  /** Whether the payload of a report carries a position, in pixels and events: the pointer has
      come two pixels or more from the last one sent, or a button has changed. */
  predicate Placed(toVk: nat -> byte, evs: Events, before: Helper, after: Helper) {
    var dx, dy := after.x - before.lastSentX, after.y - before.lastSentY;
    dx * dx + dy * dy >= 4 || ReportFlips(toVk, evs)
  }

  /** The end of every report, in terms of its events. A position goes out exactly if the report is
      placed, and is then the pointer's; the payload is a mouse event exactly if it is placed, has
      ticks or has the key of a mouse button; and it is sent if it is one or has keys. */
  lemma {:induction false} ReportSends(toVk: nat -> byte, width: int, height: int, devices: map<int, Device>,
                                       evs: Events, fd: int)
    requires width > 0 && height > 0
    ensures var start := Start(width, height, devices);
            var before, after := Run(toVk, start, evs), Run(toVk, start, evs + [(fd, SynReport)]);
            var placed, keys := Placed(toVk, evs, before, after), before.payload.keyEvents;
            var h, v := Wrap16(ReportRel(evs, 0x06)), Wrap16(ReportRel(evs, 0x08));
            var clicks := exists i :: 0 <= i < |keys| && keys[i].code in {0x01, 0x02, 0x04, 0x05, 0x06};
            var isMouse := placed || h != 0 || v != 0 || clicks;
            && (if keys == [] && !isMouse then after.sent == before.sent
                else
                  |after.sent| == |before.sent| + 1 && after.sent[..|before.sent|] == before.sent
                  && var p := after.sent[|before.sent|];
                     && p.keyEvents == keys && p.scrollDeltaX == h && p.scrollDeltaY == v
                     && (p.isMouseEvent <==> isMouse)
                     && (isMouse ==> p.mouseButtons == ButtonsDown(toVk, evs))
                     && (if !placed then p.relativeX == -1.0
                         else p.relativeX == Fraction(after.x, width) && p.relativeY == Fraction(after.y, height)))
            && (after.lastSentX, after.lastSentY)
               == (if placed then (after.x, after.y) else (before.lastSentX, before.lastSentY))
  {
    hide Run, OnSyn, Settle, Drag, Report, Fraction, Wrap16, ReportRel, ButtonsDown, ReportFlips, SentPosition;
    hide SentScroll, ToldButtons, HasMouseButton, Significant, Gap;
    var start, all := Start(width, height, devices), evs + [(fd, SynReport)];
    var before := Run(toVk, start, evs);
    var s := Settle(Drag(before, fd), fd);
    assert Init(all) == evs;
    EndsInReport(toVk, start, all);
    OnSynSets(before, fd);
    SettleOnlyMoves(before, fd);
    StartSettled(width, height, devices);
    RunKeepsPointer(toVk, start, evs);
    SettleSettles(before, fd);
    ButtonsFollowEvents(toVk, width, height, devices, evs);
    RunScrolls(toVk, width, height, devices, evs, 0x06);
    RunScrolls(toVk, width, height, devices, evs, 0x08);
    ReportPlaces(s, fd);
    ReportFields(s, fd);
    SignificantIffFar(s);
  }

  lemma SignificantIffFar(s: Helper)
    requires Tracking(s) && (!Significant(s) ==> Gap(s) < DEADZONE_SQUARED)
    ensures var dx, dy := s.x - s.lastSentX, s.y - s.lastSentY;
            Significant(s) <==> dx * dx + dy * dy >= 4
  {
  }

  lemma ReportFields(h: Helper, fd: int)
    ensures var p, keys := Report(h, fd), h.payload.keyEvents;
            && p.keyEvents == keys
            && p.scrollDeltaX == h.payload.scrollDeltaX && p.scrollDeltaY == h.payload.scrollDeltaY
            && (p.isMouseEvent <==>
                  || SendsPosition(h) || p.scrollDeltaX != 0 || p.scrollDeltaY != 0
                  || exists i :: 0 <= i < |keys| && keys[i].code in {0x01, 0x02, 0x04, 0x05, 0x06})
            && (p.isMouseEvent ==> p.mouseButtons == h.buttons)
  {
    hide Fraction, SendsPosition;
  }

  // ---------------------------------------------------------------- mouse or trackpad

  /** The payload that the end of a report has added, if it is a mouse event, is marked so. */
  predicate Marked(before: Helper, after: Helper, source: PS.Source) {
    |after.sent| == |before.sent| + 1 ==>
      var p := after.sent[|before.sent|]; p.isMouseEvent ==> p.source == source
  }

  lemma OnSynMarks(h: Helper, fd: int)
    ensures var s := Settle(Drag(h, fd), fd);
            Marked(h, OnSyn(h, fd),
                   if (s.lastMoveWasTrackpad && s.moved) || (Dev(h, fd).touchpadPart && h.buttonsChanged)
                   then PS.TrackpadAbsolute else PS.MouseAbsolute)
  {
    hide Settle, Drag, SendsPosition, Fraction, HasMouseButton;
    SettleOnlyMoves(h, fd);
    OnSynPlaces(h, fd);
    NextKeepsTraits((n: nat) => 0, h, fd, SynReport, fd);
  }

  lemma {:induction false} MouseMoves(toVk: nat -> byte, width: int, height: int, devices: map<int, Device>,
                                      evs: Events)
    requires NoPending(devices) && NoAbs(evs)
    ensures !Run(toVk, Start(width, height, devices), evs).lastMoveWasTrackpad
    decreases evs
  {
    hide Next, NoPending;
    if evs != [] {
      var start, init := Start(width, height, devices), Init(evs);
      assert forall i :: 0 <= i < |init| ==> init[i] == evs[i];
      MouseMoves(toVk, width, height, devices, init);
      RunKeepsPending(toVk, width, height, devices, init);
      NotByTrackpad(toVk, Run(toVk, start, init), Last(evs).0, Last(evs).1);
    }
  }

  lemma NotByTrackpad(toVk: nat -> byte, h: Helper, fd: int, ev: Event)
    requires NoPending(h.devices) && !ev.Abs? && !h.lastMoveWasTrackpad
    ensures !Next(toVk, h, fd, ev).lastMoveWasTrackpad
  {
    hide Held, KeyChange, PressButtons, Report, SendsPosition, NoPending;
    if ev == SynReport {
      NothingPending(h, fd);
    }
  }

  /** Without absolute events a report is the mouse's, unless it changes a button of a touchpad. */
  lemma {:induction false} MouseIsMarked(toVk: nat -> byte, width: int, height: int, devices: map<int, Device>,
                                         evs: Events, fd: int)
    requires NoPending(devices) && NoAbs(evs)
    ensures var start, pad := Start(width, height, devices), fd in devices && devices[fd].touchpadPart;
            Marked(Run(toVk, start, evs), Run(toVk, start, evs + [(fd, SynReport)]),
                   if pad && ReportFlips(toVk, evs) then PS.TrackpadAbsolute else PS.MouseAbsolute)
  {
    hide Run, OnSyn, NoPending, Marked, ReportFlips;
    var start, all := Start(width, height, devices), evs + [(fd, SynReport)];
    var before := Run(toVk, start, evs);
    assert Init(all) == evs;
    EndsInReport(toVk, start, all);
    MouseMoves(toVk, width, height, devices, evs);
    RunKeepsPending(toVk, width, height, devices, evs);
    RunKeepsTraits(toVk, start, evs, fd);
    ButtonsFollowEvents(toVk, width, height, devices, evs);
    NothingPending(before, fd);
    OnSynMarks(before, fd);
  }

  lemma DragIsTrackpad(h: Helper, fd: int)
    requires !h.moved
    ensures var d := Drag(h, fd);
            if d.moved then d.lastMoveWasTrackpad else d.x == h.x && d.y == h.y
  {
    hide ScreenDelta;
  }

  lemma SettleKeepsMark(h: Helper, fd: int)
    ensures var s := Settle(h, fd);
            && s.moved == h.moved && s.lastMoveWasTrackpad == h.lastMoveWasTrackpad
            && (!h.moved ==> s.x == h.x && s.y == h.y)
  {
    hide Bounded, Dev;
  }

  /** A finger that moves the pointer marks the report as the trackpad's. */
  lemma DragIsMarked(h: Helper, fd: int)
    requires !h.moved
    ensures var r := OnSyn(h, fd);
            r.x != h.x || r.y != h.y ==> Marked(h, r, PS.TrackpadAbsolute)
  {
    hide Drag, Settle, OnSyn, Marked;
    DragIsTrackpad(h, fd);
    SettleKeepsMark(Drag(h, fd), fd);
    OnSynMarks(h, fd);
    OnSynPlaces(h, fd);
  }

  // ---------------------------------------------------------------- reports cut off by the end of a poll

  /** The key events recorded that are neither sent nor waiting to be. */
  function Lost(h: Helper): int {
    |h.emitted| - |SentKeys(h.sent)| - |h.payload.keyEvents|
  }

  lemma NextLosesNothing(toVk: nat -> byte, h: Helper, fd: int, ev: Event)
    ensures Lost(Next(toVk, h, fd, ev)) == Lost(h)
  {
    hide OnAbs, OnSyn, Held, KeyChange, PressButtons, SentKeys;
    match ev
    case Key(code, value) =>
    case Abs(code, value) => OnAbsOnlyMoves(h, fd, code, value);
    case SynReport =>
      var s := Settle(Drag(h, fd), fd);
      OnSynSets(h, fd);
      SettleOnlyMoves(h, fd);
      ReportKeepsKeys(s, fd);
      SentKeysSnoc(h.sent, Report(s, fd));
    case _ =>
  }

  lemma {:induction false} RunLosesNothing(toVk: nat -> byte, h: Helper, evs: Events)
    ensures Lost(Run(toVk, h, evs)) == Lost(h)
    decreases evs
  {
    hide Next, Lost;
    if evs != [] {
      RunLosesNothing(toVk, h, Init(evs));
      NextLosesNothing(toVk, Run(toVk, h, Init(evs)), Last(evs).0, Last(evs).1);
    }
  }

  lemma {:induction false} DevicesLoseNothing(toVk: nat -> byte, h: Helper, ready: seq<(int, seq<Event>)>)
    ensures Lost(PollDevices(toVk, h, ready)) == Lost(h)
    decreases ready
  {
    hide Run, SentKeys;
    if ready != [] {
      var init, last := ready[..|ready| - 1], ready[|ready| - 1];
      DevicesLoseNothing(toVk, h, init);
      RunLosesNothing(toVk, ClearPending(PollDevices(toVk, h, init), last.0), Tagged(last.0, last.1));
    }
  }

  /** A poll loses just what the one before had gathered for a report that did not end. */
  lemma {:induction false} PollLoses(toVk: nat -> byte, h: Helper, ready: seq<(int, seq<Event>)>)
    ensures Lost(PollOnce(toVk, h, ready)) == Lost(h) + |h.payload.keyEvents|
  {
    hide PollDevices, SentKeys;
    DevicesLoseNothing(toVk, Cycle(h), ready);
  }

  lemma {:induction false} LossStays(toVk: nat -> byte, h: Helper, polls: seq<seq<(int, seq<Event>)>>, n: nat)
    requires Lost(h) >= 0 && n <= |polls|
    ensures Lost(PollAll(toVk, h, polls)) >= 0
    ensures var before := PollAll(toVk, h, polls[..n]);
            n < |polls| ==> Lost(PollAll(toVk, h, polls)) >= |before.payload.keyEvents|
    decreases polls
  {
    hide PollOnce, Lost;
    if polls != [] {
      var init := polls[..|polls| - 1];
      LossStays(toVk, h, init, if n < |init| then n else |init|);
      PollLoses(toVk, PollAll(toVk, h, init), polls[|polls| - 1]);
      if n < |init| {
        assert init[..n] == polls[..n];
      } else if n == |init| {
        assert polls[..n] == init;
      }
    }
  }

  lemma {:induction false} DevicesKeepKeys(toVk: nat -> byte, h: Helper, ready: seq<(int, seq<Event>)>)
    requires KeysInv(h)
    ensures KeysInv(PollDevices(toVk, h, ready))
    decreases ready
  {
    hide Run, SentKeys, Held, Effective;
    if ready != [] {
      var init, last := ready[..|ready| - 1], ready[|ready| - 1];
      DevicesKeepKeys(toVk, h, init);
      RunKeepsKeys(toVk, ClearPending(PollDevices(toVk, h, init), last.0), Tagged(last.0, last.1));
    }
  }

  lemma {:induction false} PollsKeepKeys(toVk: nat -> byte, h: Helper, polls: seq<seq<(int, seq<Event>)>>)
    requires KeysInv(h)
    requires forall n :: 0 <= n < |polls| ==> PollAll(toVk, h, polls[..n]).payload.keyEvents == []
    ensures KeysInv(PollAll(toVk, h, polls))
    decreases polls
  {
    hide PollDevices, SentKeys, Held, Effective;
    if polls != [] {
      var init := polls[..|polls| - 1];
      assert forall n :: 0 <= n < |init| ==> init[..n] == polls[..n];
      PollsKeepKeys(toVk, h, init);
      assert PollAll(toVk, h, polls[..|init|]).payload.keyEvents == [];
      DevicesKeepKeys(toVk, Cycle(PollAll(toVk, h, init)), polls[|polls| - 1]);
    }
  }

  /** Over any polls, whatever the devices yield in each: every key change the helper has recorded
      has been sent, in order, if and only if no poll ended with key events gathered for a report
      that had not. */
  lemma {:induction false} AllKeysAreSentIff(toVk: nat -> byte, width: int, height: int, devices: map<int, Device>,
                                             polls: seq<seq<(int, seq<Event>)>>)
    ensures var start := Start(width, height, devices);
            var h := PollAll(toVk, start, polls);
            SentKeys(h.sent) == h.emitted
            <==> forall n :: 0 <= n <= |polls| ==> PollAll(toVk, start, polls[..n]).payload.keyEvents == []
  {
    hide PollAll, SentKeys, Held, Effective;
    var start := Start(width, height, devices);
    var h := PollAll(toVk, start, polls);
    assert polls[..|polls|] == polls;
    NothingLostAtFirst(width, height, devices);
    if forall n :: 0 <= n <= |polls| ==> PollAll(toVk, start, polls[..n]).payload.keyEvents == [] {
      PollsKeepKeys(toVk, start, polls);
      assert h.payload.keyEvents == [] && SentKeys(h.sent) + [] == SentKeys(h.sent);
    } else {
      var n :| 0 <= n <= |polls| && PollAll(toVk, start, polls[..n]).payload.keyEvents != [];
      LossStays(toVk, start, polls, n);
    }
  }

  lemma NothingLostAtFirst(width: int, height: int, devices: map<int, Device>)
    ensures var start := Start(width, height, devices); Lost(start) == 0 && KeysInv(start)
  {
  }

  /** It can happen: a key goes down and the poll ends before its report does. The helper holds the
      key, and no later poll sends its press. */
  lemma PressCanBeLost(toVk: nat -> byte, width: int, height: int, fd: int, code: nat)
    requires toVk(code) != 0
    ensures var h := PollAll(toVk, Start(width, height, map[]), [[(fd, [Key(code, 1)])], []]);
            toVk(code) in h.held && h.sent == []
  {
    hide Next, SentKeys;
    var start := Start(width, height, map[]);
    var pressed, key := Next(toVk, start, fd, Key(code, 1)), [Key(code, 1)];
    PressIsGathered(toVk, width, height, fd, code);
    assert Tagged(fd, key) == [(fd, Key(code, 1))] && Tagged(fd, key)[..0] == [];
    assert Run(toVk, start, Tagged(fd, key)) == pressed by { assert Run(toVk, start, []) == start; }
    var ready: seq<(int, seq<Event>)>, none: seq<(int, seq<Event>)> := [(fd, key)], [];
    var polls := [ready, none];
    assert ready[..0] == none && polls[..1] == [ready] && polls[..1][..0] == [];
    assert PollDevices(toVk, Cycle(start), ready) == pressed by { assert PollDevices(toVk, start, none) == start; }
    assert PollAll(toVk, start, []) == start && PollAll(toVk, start, [ready]) == pressed;
    assert PollAll(toVk, start, polls) == PollOnce(toVk, pressed, none) == Cycle(pressed);
  }

  lemma PressIsGathered(toVk: nat -> byte, width: int, height: int, fd: int, code: nat)
    requires toVk(code) != 0
    ensures var h := Next(toVk, Start(width, height, map[]), fd, Key(code, 1));
            toVk(code) in h.held && h.sent == []
  {
    hide PressButtons;
    NextHolds(toVk, Start(width, height, map[]), fd, Key(code, 1), toVk(code));
  }
}
