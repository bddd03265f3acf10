/**
  The Linux helper's capture of raw device events: keys recorded in the bitmask, pointer
  motion accumulated and sent once it leaves a small dead zone, one payload per report.
  A report is a run of events ended by SYN_REPORT. Screen fractions are exact reals.
 */
module HelperInput {
  import opened Prelude
  import opened KeyEvents
  import opened PointerSimulation

  const BTN_LEFT := 0x110
  const BTN_RIGHT := 0x111
  const BTN_MIDDLE := 0x112
  const BTN_TOUCH := 0x14a
  const REL_X := 0x00
  const REL_Y := 0x01
  const REL_HWHEEL := 0x06
  const REL_WHEEL := 0x08
  const ABS_X := 0x00
  const ABS_Y := 0x01
  const ABS_MT_POSITION_X := 0x35
  const ABS_MT_POSITION_Y := 0x36
  const DEADZONE_SQUARED := 4

  datatype Event =
    | Key(code: nat, value: int)
    | Rel(code: nat, value: int)
    | Abs(code: nat, value: int)
    | SynReport
    | OtherEvent

  datatype AbsInfo = AbsInfo(minimum: int, maximum: int)

  datatype Device = Device(
    touchPointer: bool,
    touchpadPart: bool,
    absX: Option<AbsInfo>,
    absY: Option<AbsInfo>,
    touchActive: bool,
    rawAtTouch: Option<(int, int)>,
    screenAtTouch: Option<(int, int)>,
    pendingX: Option<int>,
    pendingY: Option<int>)

  const UNKNOWN_DEVICE := Device(false, false, None, None, false, None, None, None, None)

  datatype Payload = Payload(
    keyEvents: seq<KeyEvent>,
    source: Source,
    isMouseEvent: bool,
    relativeX: real,
    relativeY: real,
    mouseButtons: bv8,
    scrollDeltaX: int16,
    scrollDeltaY: int16)

  const EMPTY_PAYLOAD := Payload([], OtherSource, false, -1.0, -1.0, 0, 0, 0)

  /** `payload`, `moved` and `buttonsChanged` are what the current report has gathered;
      `emitted` and `sent` are histories. */
  datatype Helper = Helper(
    width: int,
    height: int,
    x: int,
    y: int,
    buttons: bv8,
    lastSentX: int,
    lastSentY: int,
    lastMoveWasTrackpad: bool,
    held: set<byte>,
    devices: map<int, Device>,
    payload: Payload,
    moved: bool,
    buttonsChanged: bool,
    emitted: seq<KeyEvent>,
    sent: seq<Payload>)

  /** The pointer is tracked only when the screen size is known. */
  predicate Tracking(h: Helper) {
    h.width > 0 && h.height > 0
  }

  function Half(n: int): int {
    if n >= 0 then n / 2 else -(-n / 2)
  }

  function Start(width: int, height: int, devices: map<int, Device>): Helper {
    var x := if width > 0 && height > 0 then width / 2 else 0;
    var y := if width > 0 && height > 0 then height / 2 else 0;
    Helper(width, height, x, y, 0, x, y, false, {}, devices, EMPTY_PAYLOAD, false, false, [], [])
  }

  function Dev(h: Helper, fd: int): Device {
    if fd in h.devices then h.devices[fd] else UNKNOWN_DEVICE
  }

  function SetDev(h: Helper, fd: int, d: Device): Helper {
    h.(devices := h.devices[fd := d])
  }

  // ---------------------------------------------------------------- keys and buttons

  predicate IsDown(value: int) {
    value == 1 || value == 2
  }

  /** The event a key report gives rise to: only a change of the recorded state counts, so
      key repeat and a second key with the same code are silent. */
  function KeyChange(held: set<byte>, vk: byte, down: bool): seq<KeyEvent> {
    if down && vk !in held then [KeyEvent(vk, true)]
    else if !down && vk in held then [KeyEvent(vk, false)]
    else []
  }

  function ButtonMask(code: nat): bv8 {
    if code == BTN_LEFT then 1 else if code == BTN_RIGHT then 2 else if code == BTN_MIDDLE then 4 else 0
  }

  function PressButtons(buttons: bv8, code: nat, down: bool): bv8 {
    if down then buttons | ButtonMask(code) else buttons & !ButtonMask(code)
  }

  function Touch(h: Helper, fd: int, down: bool): Helper {
    var d := Dev(h, fd);
    if down then SetDev(h, fd, d.(touchActive := true, rawAtTouch := None, screenAtTouch := Some((h.x, h.y))))
    else SetDev(h, fd, d.(touchActive := false))
  }

  function OnKey(toVk: nat -> byte, h: Helper, fd: int, code: nat, value: int): Helper {
    var vk, down := toVk(code), IsDown(value);
    if Dev(h, fd).touchPointer && code == BTN_TOUCH then Touch(h, fd, down)
    else if vk == 0 then h
    else
      var change := KeyChange(h.held, vk, down);
      var buttons := PressButtons(h.buttons, code, down);
      h.(payload := h.payload.(keyEvents := h.payload.keyEvents + change),
         held := Held(h.held, change),
         emitted := h.emitted + change,
         buttons := buttons,
         buttonsChanged := h.buttonsChanged || buttons != h.buttons)
  }

  // ---------------------------------------------------------------- motion

  function OnRel(h: Helper, code: nat, value: int): Helper {
    var pointed :=
      if Tracking(h) && code == REL_X then h.(x := h.x + value, moved := true, lastMoveWasTrackpad := false)
      else if Tracking(h) && code == REL_Y then h.(y := h.y + value, moved := true, lastMoveWasTrackpad := false)
      else h;
    var p := h.payload;
    if code == REL_WHEEL then pointed.(payload := p.(scrollDeltaY := Wrap16(p.scrollDeltaY + Wrap16(value))))
    else if code == REL_HWHEEL then pointed.(payload := p.(scrollDeltaX := Wrap16(p.scrollDeltaX + Wrap16(value))))
    else pointed
  }

  /** Conversion of a floating-point number to an integer: towards zero. */
  function Trunc(r: real): int {
    if r >= 0.0 then r.Floor else -((-r).Floor)
  }

  function Bounded(v: int, low: int, high: int): int {
    var capped := if v > high then high else v;
    if capped < low then low else capped
  }

  /** A device coordinate on a screen of `dim` pixels. */
  function Scale(value: int, info: AbsInfo, dim: int): int {
    if info.maximum == info.minimum || dim <= 0 then Half(dim)
    else
      var v := Bounded(value, info.minimum, info.maximum);
      Trunc((v - info.minimum) as real / (info.maximum - info.minimum) as real * (dim - 1) as real)
  }

  predicate IsX(d: Device, code: nat) {
    code == ABS_X || (code == ABS_MT_POSITION_X && d.absX.Some?)
  }

  predicate IsY(d: Device, code: nat) {
    code == ABS_Y || (code == ABS_MT_POSITION_Y && d.absY.Some?)
  }

  /** While a finger is down the coordinates wait for the end of the report; otherwise they
      are the pointer's. */
  function OnAbs(h: Helper, fd: int, code: nat, value: int): Helper {
    var d := Dev(h, fd);
    if !Tracking(h) then h
    else if d.touchPointer && d.touchActive then
      if IsX(d, code) then SetDev(h, fd, d.(pendingX := Some(value)))
      else if IsY(d, code) then SetDev(h, fd, d.(pendingY := Some(value)))
      else h
    else if IsX(d, code) then
      if d.absX.None? then h else
      var x := Scale(value, d.absX.value, h.width);
      if x == h.x then h else h.(x := x, moved := true, lastMoveWasTrackpad := d.touchPointer)
    else if IsY(d, code) then
      if d.absY.None? then h else
      var y := Scale(value, d.absY.value, h.height);
      if y == h.y then h else h.(y := y, moved := true, lastMoveWasTrackpad := d.touchPointer)
    else h
  }

  // ---------------------------------------------------------------- the end of a report

  /** How far a finger has gone, in pixels. */
  function ScreenDelta(raw: int, info: AbsInfo, dim: int): int {
    if info.maximum > info.minimum && dim - 1 > 0 then
      Trunc(raw as real / (info.maximum - info.minimum) as real * (dim - 1) as real)
    else 0
  }

  function InfoOr0(info: Option<AbsInfo>): AbsInfo {
    if info.Some? then info.value else AbsInfo(0, 0)
  }

  /** The finger's first position of a touch is the origin; later ones move the pointer from
      where it was when the finger came down. */
  function Drag(h: Helper, fd: int): Helper {
    var d := Dev(h, fd);
    if !(d.touchPointer && d.touchActive && d.pendingX.Some? && d.pendingY.Some?) then h
    else if d.rawAtTouch.None? then
      SetDev(h, fd, d.(rawAtTouch := Some((d.pendingX.value, d.pendingY.value))))
    else if d.screenAtTouch.None? then h
    else
      var raw, start := d.rawAtTouch.value, d.screenAtTouch.value;
      var x := start.0 + ScreenDelta(d.pendingX.value - raw.0, InfoOr0(d.absX), h.width);
      var y := start.1 + ScreenDelta(d.pendingY.value - raw.1, InfoOr0(d.absY), h.height);
      if x == h.x && y == h.y then h else h.(x := x, y := y, moved := true, lastMoveWasTrackpad := true)
  }

  function Settle(h: Helper, fd: int): Helper {
    var cleared := SetDev(h, fd, Dev(h, fd).(pendingX := None, pendingY := None));
    if h.moved && Tracking(h) then
      cleared.(x := Bounded(h.x, 0, h.width - 1), y := Bounded(h.y, 0, h.height - 1))
    else cleared
  }

  function Gap(h: Helper): int {
    (h.x - h.lastSentX) * (h.x - h.lastSentX) + (h.y - h.lastSentY) * (h.y - h.lastSentY)
  }

  predicate Significant(h: Helper) {
    h.moved && Tracking(h) && Gap(h) >= DEADZONE_SQUARED
  }

  predicate IsMouseButtonVk(vk: byte) {
    vk == 0x01 || vk == 0x02 || vk == 0x04 || vk == 0x05 || vk == 0x06
  }

  predicate HasMouseButton(es: seq<KeyEvent>) {
    exists i :: 0 <= i < |es| && IsMouseButtonVk(es[i].code)
  }

  /** A pixel as a fraction of the screen. */
  function Fraction(pixel: int, dim: int): real {
    Clamp(pixel as real / (if dim - 1 > 1 then dim - 1 else 1) as real)
  }

  predicate SendsPosition(h: Helper) {
    Significant(h) || h.buttonsChanged
  }

  function Report(h: Helper, fd: int): Payload {
    var p := h.payload;
    var isMouse := p.scrollDeltaX != 0 || p.scrollDeltaY != 0 || SendsPosition(h) || HasMouseButton(p.keyEvents);
    if !isMouse then p.(isMouseEvent := false)
    else
      var touch := (h.lastMoveWasTrackpad && h.moved) || (Dev(h, fd).touchpadPart && h.buttonsChanged);
      var placed := if SendsPosition(h) && Tracking(h) then
                      p.(relativeX := Fraction(h.x, h.width), relativeY := Fraction(h.y, h.height))
                    else p;
      placed.(isMouseEvent := true, source := if touch then TrackpadAbsolute else MouseAbsolute,
              mouseButtons := h.buttons)
  }

  function OnSyn(h: Helper, fd: int): Helper {
    var s := Settle(Drag(h, fd), fd);
    var p := Report(s, fd);
    var marked := if SendsPosition(s) && Tracking(s) then s.(lastSentX := s.x, lastSentY := s.y) else s;
    marked.(sent := if p.keyEvents != [] || p.isMouseEvent then s.sent + [p] else s.sent,
            payload := EMPTY_PAYLOAD, moved := false, buttonsChanged := false)
  }

  function Next(toVk: nat -> byte, h: Helper, fd: int, ev: Event): Helper {
    match ev
    case Key(code, value) => OnKey(toVk, h, fd, code, value)
    case Rel(code, value) => OnRel(h, code, value)
    case Abs(code, value) => OnAbs(h, fd, code, value)
    case SynReport => OnSyn(h, fd)
    case OtherEvent => h
  }

  function Run(toVk: nat -> byte, h: Helper, evs: seq<(int, Event)>): Helper {
    if evs == [] then h
    else
      var last := evs[|evs| - 1];
      Next(toVk, Run(toVk, h, evs[..|evs| - 1]), last.0, last.1)
  }

  lemma {:induction false} RunAppend(toVk: nat -> byte, h: Helper, a: seq<(int, Event)>, b: seq<(int, Event)>)
    ensures Run(toVk, h, a + b) == Run(toVk, Run(toVk, h, a), b)
    decreases b
  {
    hide Next;
    if b == [] {
      assert a + b == a;
    } else {
      assert (a + b)[..|a + b| - 1] == a + b[..|b| - 1];
      RunAppend(toVk, h, a, b[..|b| - 1]);
    }
  }

  // ---------------------------------------------------------------- one poll

  /** A poll begins with an empty payload and nothing gathered. */
  function Cycle(h: Helper): Helper {
    h.(payload := EMPTY_PAYLOAD, moved := false, buttonsChanged := false)
  }

  function ClearPending(h: Helper, fd: int): Helper {
    if fd in h.devices then SetDev(h, fd, h.devices[fd].(pendingX := None, pendingY := None)) else h
  }

  function Tagged(fd: int, events: seq<Event>): (evs: seq<(int, Event)>)
    ensures |evs| == |events|
  {
    seq(|events|, i requires 0 <= i < |events| => (fd, events[i]))
  }

  /** The devices that are ready, each with the events it yields until it has no more. */
  function PollDevices(toVk: nat -> byte, h: Helper, ready: seq<(int, seq<Event>)>): Helper {
    if ready == [] then h
    else
      var last := ready[|ready| - 1];
      Run(toVk, ClearPending(PollDevices(toVk, h, ready[..|ready| - 1]), last.0), Tagged(last.0, last.1))
  }

  function PollOnce(toVk: nat -> byte, h: Helper, ready: seq<(int, seq<Event>)>): Helper {
    PollDevices(toVk, Cycle(h), ready)
  }

  function PollAll(toVk: nat -> byte, h: Helper, polls: seq<seq<(int, seq<Event>)>>): Helper {
    if polls == [] then h else PollOnce(toVk, PollAll(toVk, h, polls[..|polls| - 1]), polls[|polls| - 1])
  }

  function EventsOf(ready: seq<(int, seq<Event>)>): seq<(int, Event)> {
    if ready == [] then []
    else EventsOf(ready[..|ready| - 1]) + Tagged(ready[|ready| - 1].0, ready[|ready| - 1].1)
  }

  function AllEvents(polls: seq<seq<(int, seq<Event>)>>): seq<(int, Event)> {
    if polls == [] then [] else AllEvents(polls[..|polls| - 1]) + EventsOf(polls[|polls| - 1])
  }

  /** What a device yields ends with the end of a report. */
  predicate Whole(ready: seq<(int, seq<Event>)>) {
    forall i :: 0 <= i < |ready| ==> ready[i].1 == [] || ready[i].1[|ready[i].1| - 1] == SynReport
  }

  /** Nothing gathered, no coordinate pending except perhaps for one device. */
  predicate QuietBut(h: Helper, fd: int) {
    forall d :: d in h.devices && d != fd ==> h.devices[d].pendingX == None && h.devices[d].pendingY == None
  }

  predicate NoPending(devices: map<int, Device>) {
    forall d :: d in devices ==> devices[d].pendingX == None && devices[d].pendingY == None
  }

  predicate Quiet(h: Helper) {
    h.payload == EMPTY_PAYLOAD && !h.moved && !h.buttonsChanged && NoPending(h.devices)
  }

  lemma NextKeepsOthersQuiet(toVk: nat -> byte, h: Helper, fd: int, ev: Event)
    requires QuietBut(h, fd)
    ensures QuietBut(Next(toVk, h, fd, ev), fd)
    ensures ev.SynReport? ==> Quiet(Next(toVk, h, fd, ev))
  {
    hide QuietBut, OnKey, OnAbs, OnSyn;
    match ev
    case Key(code, value) => KeyKeepsOthersQuiet(toVk, h, fd, code, value);
    case Rel(code, value) => SameDevices(h, OnRel(h, code, value), fd);
    case Abs(code, value) => AbsKeepsOthersQuiet(h, fd, code, value);
    case SynReport => SynQuiets(h, fd);
    case OtherEvent =>
  }

  lemma SameDevices(h: Helper, r: Helper, fd: int)
    requires QuietBut(h, fd) && r.devices == h.devices
    ensures QuietBut(r, fd)
  {
  }

  lemma KeyKeepsOthersQuiet(toVk: nat -> byte, h: Helper, fd: int, code: nat, value: int)
    requires QuietBut(h, fd)
    ensures QuietBut(OnKey(toVk, h, fd, code, value), fd)
  {
    hide Held, PressButtons, KeyChange;
  }

  lemma AbsKeepsOthersQuiet(h: Helper, fd: int, code: nat, value: int)
    requires QuietBut(h, fd)
    ensures QuietBut(OnAbs(h, fd, code, value), fd)
  {
    hide Scale;
  }

  lemma SynQuiets(h: Helper, fd: int)
    requires QuietBut(h, fd)
    ensures Quiet(OnSyn(h, fd)) && QuietBut(OnSyn(h, fd), fd)
  {
    hide Drag, Settle, Report, SendsPosition;
    DragKeepsOthersQuiet(h, fd);
    SettleClears(Drag(h, fd), fd);
  }

  lemma DragKeepsOthersQuiet(h: Helper, fd: int)
    requires QuietBut(h, fd)
    ensures QuietBut(Drag(h, fd), fd)
  {
    hide ScreenDelta;
  }

  lemma SettleClears(h: Helper, fd: int)
    requires QuietBut(h, fd)
    ensures NoPending(Settle(h, fd).devices)
  {
    hide NoPending, QuietBut, Settle;
    SettledDevices(h, fd);
    ClearedLast(h, fd, Dev(h, fd).(pendingX := None, pendingY := None));
  }

  lemma SettledDevices(h: Helper, fd: int)
    ensures Settle(h, fd).devices == h.devices[fd := Dev(h, fd).(pendingX := None, pendingY := None)]
  {
    hide Bounded, Dev;
  }

  lemma ClearedLast(h: Helper, fd: int, cleared: Device)
    requires QuietBut(h, fd) && cleared.pendingX == None && cleared.pendingY == None
    ensures NoPending(h.devices[fd := cleared])
  {
  }

  lemma {:induction false} BatchKeepsQuiet(toVk: nat -> byte, h: Helper, fd: int, events: seq<Event>)
    requires QuietBut(h, fd)
    ensures var r := Run(toVk, h, Tagged(fd, events));
            && QuietBut(r, fd)
            && (events != [] && events[|events| - 1] == SynReport ==> Quiet(r))
    decreases events
  {
    hide Next, QuietBut, Quiet;
    if events != [] {
      var init := events[..|events| - 1];
      assert Tagged(fd, events)[..|events| - 1] == Tagged(fd, init);
      BatchKeepsQuiet(toVk, h, fd, init);
      NextKeepsOthersQuiet(toVk, Run(toVk, h, Tagged(fd, init)), fd, events[|events| - 1]);
    }
  }

  lemma QuietClears(h: Helper, fd: int)
    requires Quiet(h)
    ensures ClearPending(h, fd) == h && Cycle(h) == h && QuietBut(h, fd)
  {
    if fd in h.devices {
      assert h.devices[fd := h.devices[fd]] == h.devices;
    }
  }

  lemma {:induction false} PollIsRun(toVk: nat -> byte, h: Helper, ready: seq<(int, seq<Event>)>)
    requires Quiet(h) && Whole(ready)
    ensures PollDevices(toVk, h, ready) == Run(toVk, h, EventsOf(ready)) && Quiet(PollDevices(toVk, h, ready))
    decreases ready
  {
    hide Next, Quiet, QuietBut, ClearPending, Tagged;
    if ready != [] {
      var init, last := ready[..|ready| - 1], ready[|ready| - 1];
      assert forall i :: 0 <= i < |init| ==> init[i] == ready[i];
      PollIsRun(toVk, h, init);
      var before := PollDevices(toVk, h, init);
      QuietClears(before, last.0);
      BatchKeepsQuiet(toVk, before, last.0, last.1);
      RunAppend(toVk, h, EventsOf(init), Tagged(last.0, last.1));
      if last.1 == [] {
        assert Tagged(last.0, last.1) == [];
      }
    }
  }

  /** So long as devices yield whole reports, any number of polls amounts to one run over all
      the events: what holds of runs holds of the helper. */
  lemma {:induction false} PollsAreRun(toVk: nat -> byte, width: int, height: int, devices: map<int, Device>,
                                       polls: seq<seq<(int, seq<Event>)>>)
    requires NoPending(devices) && forall i :: 0 <= i < |polls| ==> Whole(polls[i])
    ensures var start := Start(width, height, devices);
            PollAll(toVk, start, polls) == Run(toVk, start, AllEvents(polls)) && Quiet(PollAll(toVk, start, polls))
    decreases polls
  {
    hide Next, PollDevices, EventsOf, Whole;
    if polls != [] {
      var init, last, start := polls[..|polls| - 1], polls[|polls| - 1], Start(width, height, devices);
      assert forall i :: 0 <= i < |init| ==> init[i] == polls[i];
      PollsAreRun(toVk, width, height, devices, init);
      QuietClears(PollAll(toVk, start, init), 0);
      PollIsRun(toVk, PollAll(toVk, start, init), last);
      RunAppend(toVk, start, AllEvents(init), EventsOf(last));
    }
  }

  // ---------------------------------------------------------------- the key stream

  function SentKeys(ps: seq<Payload>): seq<KeyEvent> {
    if ps == [] then [] else SentKeys(ps[..|ps| - 1]) + ps[|ps| - 1].keyEvents
  }

  ghost predicate KeysInv(h: Helper) {
    && Effective({}, h.emitted)
    && Held({}, h.emitted) == h.held
    && h.emitted == SentKeys(h.sent) + h.payload.keyEvents
  }

  lemma {:induction false} KeyChangeIsEffective(emitted: seq<KeyEvent>, vk: byte, down: bool)
    requires Effective({}, emitted)
    ensures var change := KeyChange(Held({}, emitted), vk, down);
            && Effective({}, emitted + change)
            && Held({}, emitted + change) == Held(Held({}, emitted), change)
  {
    HeldSnoc({}, emitted, KeyEvent(vk, down));
    var held := Held({}, emitted);
    HeldSnoc(held, [], KeyEvent(vk, down));
    assert [] + [KeyEvent(vk, down)] == [KeyEvent(vk, down)];
    assert emitted + [] == emitted;
  }

  lemma OnKeyKeepsKeys(toVk: nat -> byte, h: Helper, fd: int, code: nat, value: int)
    requires KeysInv(h)
    ensures KeysInv(OnKey(toVk, h, fd, code, value))
  {
    hide Held, Effective, SentKeys, PressButtons;
    var vk, down := toVk(code), IsDown(value);
    KeyChangeIsEffective(h.emitted, vk, down);
    Assoc(SentKeys(h.sent), h.payload.keyEvents, KeyChange(h.held, vk, down));
  }

  /** Working out where the pointer is touches nothing else. */
  lemma SettleOnlyMoves(h: Helper, fd: int)
    ensures var s := Settle(Drag(h, fd), fd);
            s == h.(x := s.x, y := s.y, moved := s.moved, lastMoveWasTrackpad := s.lastMoveWasTrackpad,
                    devices := s.devices)
  {
    hide Drag, Bounded;
    DragOnlyMoves(h, fd);
  }

  lemma DragOnlyMoves(h: Helper, fd: int)
    ensures var s := Drag(h, fd);
            s == h.(x := s.x, y := s.y, moved := s.moved, lastMoveWasTrackpad := s.lastMoveWasTrackpad,
                    devices := s.devices)
  {
    hide ScreenDelta;
  }

  lemma ReportKeepsKeys(h: Helper, fd: int)
    ensures Report(h, fd).keyEvents == h.payload.keyEvents
  {
    hide Fraction, Gap, HasMouseButton;
  }

  lemma OnSynSets(h: Helper, fd: int)
    ensures var s, r := Settle(Drag(h, fd), fd), OnSyn(h, fd);
            var p := Report(s, fd);
            && r.held == h.held && r.emitted == h.emitted && r.width == h.width && r.height == h.height
            && r.x == s.x && r.y == s.y && !r.moved && r.payload == EMPTY_PAYLOAD
            && r.sent == (if p.keyEvents != [] || p.isMouseEvent then h.sent + [p] else h.sent)
            && (if SendsPosition(s) && Tracking(s) then r.lastSentX == s.x && r.lastSentY == s.y
                else r.lastSentX == h.lastSentX && r.lastSentY == h.lastSentY)
  {
    hide Settle, Drag, Report, SendsPosition;
    SettleOnlyMoves(h, fd);
  }

  lemma OnSynKeepsKeys(h: Helper, fd: int)
    requires KeysInv(h)
    ensures KeysInv(OnSyn(h, fd)) && OnSyn(h, fd).payload.keyEvents == []
  {
    hide Held, Effective, Settle, Drag, Report, SendsPosition, OnSyn;
    var s, r := Settle(Drag(h, fd), fd), OnSyn(h, fd);
    OnSynSets(h, fd);
    SettleOnlyMoves(h, fd);
    ReportKeepsKeys(s, fd);
    SentKeysSnoc(h.sent, Report(s, fd));
    assert SentKeys(h.sent) + [] == SentKeys(h.sent);
    assert SentKeys(r.sent) + [] == SentKeys(r.sent);
  }

  lemma {:induction false} SentKeysSnoc(ps: seq<Payload>, p: Payload)
    ensures SentKeys(ps + [p]) == SentKeys(ps) + p.keyEvents
  {
    assert (ps + [p])[..|ps|] == ps;
  }

  lemma {:induction false} RunKeepsKeys(toVk: nat -> byte, h: Helper, evs: seq<(int, Event)>)
    requires KeysInv(h)
    ensures KeysInv(Run(toVk, h, evs))
    decreases evs
  {
    hide KeysInv, OnKey, OnSyn, OnRel, OnAbs;
    if evs != [] {
      var before, fd, ev := Run(toVk, h, evs[..|evs| - 1]), evs[|evs| - 1].0, evs[|evs| - 1].1;
      RunKeepsKeys(toVk, h, evs[..|evs| - 1]);
      match ev
      case Key(code, value) => OnKeyKeepsKeys(toVk, before, fd, code, value);
      case SynReport => OnSynKeepsKeys(before, fd);
      case _ => MotionKeepsKeys(toVk, before, fd, ev);
    }
  }

  lemma MotionKeepsKeys(toVk: nat -> byte, h: Helper, fd: int, ev: Event)
    requires KeysInv(h) && !ev.Key? && !ev.SynReport?
    ensures KeysInv(Next(toVk, h, fd, ev))
  {
    hide Held, Effective, SentKeys, OnAbs;
    if ev.Abs? {
      OnAbsOnlyMoves(h, fd, ev.code, ev.value);
    }
  }

  /** For every sequence of device events: the events sent for each key alternate press and
      release from a press, and together with those waiting for the end of the report they
      leave held exactly the keys the helper records. */
  lemma {:induction false} KeyStream(toVk: nat -> byte, width: int, height: int, devices: map<int, Device>,
                                     evs: seq<(int, Event)>, vk: byte)
    ensures var h := Run(toVk, Start(width, height, devices), evs);
            var stream := SentKeys(h.sent) + h.payload.keyEvents;
            && Alternates(OfKey(stream, vk))
            && Held({}, stream) == h.held
            && (evs != [] && evs[|evs| - 1].1 == SynReport ==> stream == SentKeys(h.sent))
  {
    var start := Start(width, height, devices);
    RunKeepsKeys(toVk, start, evs);
    var h := Run(toVk, start, evs);
    EffectiveAlternates(h.emitted, vk);
    if evs != [] && evs[|evs| - 1].1 == SynReport {
      RunKeepsKeys(toVk, start, evs[..|evs| - 1]);
      OnSynKeepsKeys(Run(toVk, start, evs[..|evs| - 1]), evs[|evs| - 1].0);
      assert SentKeys(h.sent) + [] == SentKeys(h.sent);
    }
  }

  // ---------------------------------------------------------------- wheel and buttons

  predicate IsWheel(code: nat) {
    code == REL_WHEEL || code == REL_HWHEEL
  }

  function Ticks(ev: Event, code: nat): int {
    if ev.Rel? && ev.code == code then ev.value else 0
  }

  /** All the movement reported on one relative axis or wheel. */
  function RelSum(evs: seq<(int, Event)>, code: nat): int {
    if evs == [] then 0 else RelSum(evs[..|evs| - 1], code) + Ticks(evs[|evs| - 1].1, code)
  }

  /** Those since the last report. */
  function ReportRel(evs: seq<(int, Event)>, code: nat): int {
    if evs == [] || evs[|evs| - 1].1.SynReport? then 0
    else ReportRel(evs[..|evs| - 1], code) + Ticks(evs[|evs| - 1].1, code)
  }

  function Scrolled(p: Payload, code: nat): int16 {
    if code == REL_HWHEEL then p.scrollDeltaX else p.scrollDeltaY
  }

  function SentScroll(ps: seq<Payload>, code: nat): int {
    if ps == [] then 0 else SentScroll(ps[..|ps| - 1], code) + Scrolled(ps[|ps| - 1], code)
  }

  /** The button state in the last mouse payload. */
  function ToldButtons(ps: seq<Payload>): bv8 {
    if ps == [] then 0
    else if ps[|ps| - 1].isMouseEvent then ps[|ps| - 1].mouseButtons
    else ToldButtons(ps[..|ps| - 1])
  }

  predicate ButtonsTold(h: Helper) {
    !h.buttonsChanged ==> ToldButtons(h.sent) == h.buttons
  }

  lemma {:induction false} SentSnoc(ps: seq<Payload>, p: Payload, code: nat)
    ensures SentScroll(ps + [p], code) == SentScroll(ps, code) + Scrolled(p, code)
    ensures ToldButtons(ps + [p]) == if p.isMouseEvent then p.mouseButtons else ToldButtons(ps)
  {
    assert (ps + [p])[..|ps|] == ps;
  }

  lemma ReportTells(h: Helper, fd: int)
    ensures var p := Report(h, fd);
            && p.scrollDeltaX == h.payload.scrollDeltaX && p.scrollDeltaY == h.payload.scrollDeltaY
            && (p.isMouseEvent ==> p.mouseButtons == h.buttons)
            && (h.buttonsChanged || p.scrollDeltaX != 0 || p.scrollDeltaY != 0 ==> p.isMouseEvent)
  {
    hide Fraction, Significant, HasMouseButton;
  }

  /** The end of a report sends the ticks gathered, or nothing if they are zero. */
  lemma {:induction false} OnSynTells(h: Helper, fd: int, code: nat)
    requires IsWheel(code) && ButtonsTold(h)
    ensures var r := OnSyn(h, fd);
            && SentScroll(r.sent, code) == SentScroll(h.sent, code) + Scrolled(h.payload, code)
            && r.payload == EMPTY_PAYLOAD && !r.buttonsChanged && ButtonsTold(r)
  {
    hide Settle, Drag, Report, SendsPosition;
    var s := Settle(Drag(h, fd), fd);
    SettleOnlyMoves(h, fd);
    ReportTells(s, fd);
    SentSnoc(h.sent, Report(s, fd), code);
  }

  /** Every other event sends nothing and adds its own ticks, in 16 bits. */
  lemma OtherEventScrolls(toVk: nat -> byte, h: Helper, fd: int, ev: Event, code: nat)
    requires IsWheel(code) && !ev.SynReport?
    ensures var r := Next(toVk, h, fd, ev);
            && r.sent == h.sent
            && Scrolled(r.payload, code) == Wrap16(Scrolled(h.payload, code) + Wrap16(Ticks(ev, code)))
            && (ButtonsTold(h) ==> ButtonsTold(r))
  {
    hide OnKey, OnAbs, Wrap16;
    match ev
    case Key(code, value) => OnKeyTells(toVk, h, fd, code, value);
    case Abs(code, value) => OnAbsOnlyMoves(h, fd, code, value);
    case _ =>
  }

  lemma OnKeyTells(toVk: nat -> byte, h: Helper, fd: int, code: nat, value: int)
    ensures var r := OnKey(toVk, h, fd, code, value);
            && r.sent == h.sent
            && r.payload.scrollDeltaX == h.payload.scrollDeltaX && r.payload.scrollDeltaY == h.payload.scrollDeltaY
            && (!r.buttonsChanged ==> !h.buttonsChanged && r.buttons == h.buttons)
  {
    hide Held, PressButtons, KeyChange;
  }

  /** At any time the current payload holds the ticks since the last report in 16 bits, and
      what has been sent of the earlier ones is right modulo 2^16. */
  lemma {:induction false} RunScrolls(toVk: nat -> byte, width: int, height: int, devices: map<int, Device>,
                                      evs: seq<(int, Event)>, code: nat)
    requires IsWheel(code)
    ensures var h := Run(toVk, Start(width, height, devices), evs);
            && Scrolled(h.payload, code) == Wrap16(ReportRel(evs, code))
            && (SentScroll(h.sent, code) + ReportRel(evs, code) - RelSum(evs, code)) % 0x1_0000 == 0
            && ButtonsTold(h)
    decreases evs
  {
    hide OnSyn, Next, SentScroll, ToldButtons, Wrap16;
    if evs == [] {
      NothingScrolled();
    } else {
      var init, last := evs[..|evs| - 1], evs[|evs| - 1];
      var before := Run(toVk, Start(width, height, devices), init);
      RunScrolls(toVk, width, height, devices, init, code);
      if last.1.SynReport? {
        EndsInReport(toVk, Start(width, height, devices), evs);
        OnSynTells(before, last.0, code);
        Multiples(SentScroll(before.sent, code) + ReportRel(init, code) - RelSum(init, code),
                  ReportRel(init, code) - Wrap16(ReportRel(init, code)));
      } else {
        OtherEventScrolls(toVk, before, last.0, last.1, code);
        Wrap16Adds(ReportRel(init, code), Ticks(last.1, code));
      }
    }
  }

  lemma NothingScrolled()
    ensures Wrap16(0) == 0 && ToldButtons([]) == 0 && forall code :: SentScroll([], code) == 0
  {
  }

  lemma Multiples(a: int, b: int)
    requires a % 0x1_0000 == 0 && b % 0x1_0000 == 0
    ensures (a - b) % 0x1_0000 == 0
  {
  }

  /** Whatever the devices do: once a report ends, the wheel ticks sent are those of the wheel
      modulo 2^16, and the last buttons told are the buttons pressed. */
  lemma {:induction false} WheelAndButtonsAreTold(toVk: nat -> byte, width: int, height: int,
                                                  devices: map<int, Device>, evs: seq<(int, Event)>, code: nat)
    requires IsWheel(code) && evs != [] && evs[|evs| - 1].1 == SynReport
    ensures var h := Run(toVk, Start(width, height, devices), evs);
            && (SentScroll(h.sent, code) - RelSum(evs, code)) % 0x1_0000 == 0
            && ToldButtons(h.sent) == h.buttons
  {
    hide Run, OnSyn, SentScroll, ToldButtons, RelSum;
    var start, init := Start(width, height, devices), evs[..|evs| - 1];
    RunScrolls(toVk, width, height, devices, evs, code);
    RunScrolls(toVk, width, height, devices, init, code);
    EndsInReport(toVk, start, evs);
    OnSynTells(Run(toVk, start, init), evs[|evs| - 1].0, code);
  }

  predicate Fits16(n: int) {
    -0x8000 <= n < 0x8000
  }

  /** A report sends what its ticks are in 16 bits; that is its own ticks exactly if their sum
      fits. */
  lemma {:induction false} ReportSendsItsTicksIff(toVk: nat -> byte, width: int, height: int,
                                                  devices: map<int, Device>, evs: seq<(int, Event)>, fd: int,
                                                  code: nat)
    requires IsWheel(code)
    ensures var start, ticks := Start(width, height, devices), ReportRel(evs, code);
            var sent := SentScroll(Run(toVk, start, evs + [(fd, SynReport)]).sent, code)
                        - SentScroll(Run(toVk, start, evs).sent, code);
            sent == Wrap16(ticks) && (sent == ticks <==> Fits16(ticks))
  {
    hide Run, OnSyn, SentScroll, ReportRel;
    var all, start := evs + [(fd, SynReport)], Start(width, height, devices);
    assert all[..|evs|] == evs;
    RunScrolls(toVk, width, height, devices, evs, code);
    EndsInReport(toVk, start, all);
    OnSynTells(Run(toVk, start, evs), fd, code);
  }

  /** So if the ticks of every report fit, every tick is sent exactly once. */
  lemma {:induction false} TicksAreSentOnce(toVk: nat -> byte, width: int, height: int, devices: map<int, Device>,
                                            evs: seq<(int, Event)>, code: nat)
    requires IsWheel(code)
    requires forall i :: 0 <= i < |evs| && evs[i].1 == SynReport ==> Fits16(ReportRel(evs[..i], code))
    ensures SentScroll(Run(toVk, Start(width, height, devices), evs).sent, code) + ReportRel(evs, code)
            == RelSum(evs, code)
    decreases evs
  {
    hide OnSyn, Next, SentScroll, Fits16;
    if evs == [] {
      NothingScrolled();
    } else {
      var init, last := evs[..|evs| - 1], evs[|evs| - 1];
      assert forall i :: 0 <= i < |init| ==> init[i] == evs[i] && init[..i] == evs[..i];
      TicksAreSentOnce(toVk, width, height, devices, init, code);
      if last.1.SynReport? {
        assert evs == init + [(last.0, SynReport)];
        ReportSendsItsTicksIff(toVk, width, height, devices, init, last.0, code);
      } else {
        OtherEventScrolls(toVk, Run(toVk, Start(width, height, devices), init), last.0, last.1, code);
      }
    }
  }

  /** The condition can fail: 40000 ticks in one report are sent as -25536, and 65536 are not
      sent at all. */
  lemma TicksCanBeLost(toVk: nat -> byte, width: int, height: int, fd: int)
    ensures var start := Start(width, height, map[]);
            && SentScroll(Run(toVk, start, [(fd, Rel(REL_WHEEL, 40000)), (fd, SynReport)]).sent, REL_WHEEL) == -25536
            && Run(toVk, start, [(fd, Rel(REL_WHEEL, 65536)), (fd, SynReport)]).sent == []
  {
    OneTurn(toVk, width, height, fd, 40000);
    OneTurn(toVk, width, height, fd, 65536);
  }

  /** One turn of the wheel and nothing else. */
  lemma OneTurn(toVk: nat -> byte, width: int, height: int, fd: int, value: int)
    ensures var sent := Run(toVk, Start(width, height, map[]), [(fd, Rel(REL_WHEEL, value)), (fd, SynReport)]).sent;
            && SentScroll(sent, REL_WHEEL) == Wrap16(value)
            && (Wrap16(value) == 0 ==> sent == [])
  {
    hide Wrap16, Drag, Settle, Report, SentScroll;
    var start, evs := Start(width, height, map[]), [(fd, Rel(REL_WHEEL, value))];
    var h := Run(toVk, start, evs);
    assert evs[..0] == [] && evs + [(fd, SynReport)] == [(fd, Rel(REL_WHEEL, value)), (fd, SynReport)];
    assert Run(toVk, start, []) == start && ReportRel(evs, REL_WHEEL) == value;
    NothingScrolled();
    assert h.sent == [] && h.payload.keyEvents == [] && !h.moved && !h.buttonsChanged;
    ReportSendsItsTicksIff(toVk, width, height, map[], evs, fd, REL_WHEEL);
    RunScrolls(toVk, width, height, map[], evs, REL_WHEEL);
    EndsInReport(toVk, start, evs + [(fd, SynReport)]);
    assert (evs + [(fd, SynReport)])[..1] == evs;
    QuietReport(h, fd);
  }

  lemma QuietReport(h: Helper, fd: int)
    requires h.payload.keyEvents == [] && !h.moved && !h.buttonsChanged
    requires h.payload.scrollDeltaX == 0 && !(Dev(h, fd).touchPointer && Dev(h, fd).touchActive)
    ensures h.payload.scrollDeltaY == 0 ==> OnSyn(h, fd).sent == h.sent
  {
  }

  lemma {:induction false} EndsInReport(toVk: nat -> byte, h: Helper, evs: seq<(int, Event)>)
    requires evs != [] && evs[|evs| - 1].1 == SynReport
    ensures Run(toVk, h, evs) == OnSyn(Run(toVk, h, evs[..|evs| - 1]), evs[|evs| - 1].0)
    ensures forall code :: RelSum(evs, code) == RelSum(evs[..|evs| - 1], code)
  {
    hide OnSyn;
  }

  // ---------------------------------------------------------------- the pointer

  /** On the screen and within the dead zone around the last position sent. */
  predicate Settled(h: Helper) {
    && 0 <= h.x < h.width && 0 <= h.y < h.height
    && Gap(h) < DEADZONE_SQUARED
  }

  /** The position in the last payload that had one. */
  function SentPosition(ps: seq<Payload>): Option<(real, real)> {
    if ps == [] then None
    else
      var last := ps[|ps| - 1];
      if last.isMouseEvent && last.relativeX >= 0.0 then Some((last.relativeX, last.relativeY))
      else SentPosition(ps[..|ps| - 1])
  }

  ghost predicate PointerInv(h: Helper) {
    Tracking(h) ==>
      && 0 <= h.lastSentX < h.width && 0 <= h.lastSentY < h.height
      && (!h.moved ==> Settled(h))
      && h.payload.relativeX == -1.0
      && (SentPosition(h.sent).Some? ==>
            SentPosition(h.sent).value == (Fraction(h.lastSentX, h.width), Fraction(h.lastSentY, h.height)))
  }

  lemma SettleSettles(h: Helper, fd: int)
    requires PointerInv(h) && Tracking(h)
    ensures var s := Settle(Drag(h, fd), fd);
            && 0 <= s.x < s.width && 0 <= s.y < s.height
            && (!Significant(s) ==> Gap(s) < DEADZONE_SQUARED)
  {
    hide ScreenDelta;
    var d := Drag(h, fd);
    assert d == h.(x := d.x, y := d.y, moved := d.moved, lastMoveWasTrackpad := d.lastMoveWasTrackpad,
                   devices := d.devices);
    assert !d.moved ==> d.x == h.x && d.y == h.y && !h.moved;
  }

  lemma {:induction false} SentPositionSnoc(ps: seq<Payload>, p: Payload)
    ensures SentPosition(ps + [p])
            == if p.isMouseEvent && p.relativeX >= 0.0 then Some((p.relativeX, p.relativeY)) else SentPosition(ps)
  {
    assert (ps + [p])[..|ps|] == ps;
  }

  lemma ReportPlaces(h: Helper, fd: int)
    requires h.payload.relativeX == -1.0
    ensures var p := Report(h, fd);
            if SendsPosition(h) && Tracking(h) then
              p.isMouseEvent && p.relativeX == Fraction(h.x, h.width) && p.relativeY == Fraction(h.y, h.height)
            else p.relativeX == -1.0
  {
    hide Fraction, SendsPosition, HasMouseButton;
  }

  lemma OnSynSettles(h: Helper, fd: int)
    requires PointerInv(h)
    ensures PointerInv(OnSyn(h, fd))
    ensures Tracking(h) ==> Settled(OnSyn(h, fd))
  {
    hide Settle, Drag, Report, Fraction, Significant, OnSyn, SentPosition;
    OnSynSets(h, fd);
    SettleOnlyMoves(h, fd);
    if Tracking(h) {
      var s := Settle(Drag(h, fd), fd);
      SettleSettles(h, fd);
      ReportPlaces(s, fd);
      SentPositionSnoc(h.sent, Report(s, fd));
      FractionInRange(s.x, s.width);
    }
  }

  lemma FractionInRange(pixel: int, dim: int)
    ensures 0.0 <= Fraction(pixel, dim) <= 1.0
  {
  }

  lemma OnKeyOnlyKeys(toVk: nat -> byte, h: Helper, fd: int, code: nat, value: int)
    ensures var r := OnKey(toVk, h, fd, code, value);
            r == h.(payload := h.payload.(keyEvents := r.payload.keyEvents), held := r.held, emitted := r.emitted,
                    buttons := r.buttons, buttonsChanged := r.buttonsChanged, devices := r.devices)
  {
    hide Held, PressButtons, KeyChange;
  }

  lemma OnAbsOnlyMoves(h: Helper, fd: int, code: nat, value: int)
    ensures var r := OnAbs(h, fd, code, value);
            && r == h.(x := r.x, y := r.y, moved := r.moved, lastMoveWasTrackpad := r.lastMoveWasTrackpad,
                       devices := r.devices)
            && (!r.moved ==> r.x == h.x && r.y == h.y && !h.moved)
  {
    hide Scale;
  }

  lemma NextKeepsPointer(toVk: nat -> byte, h: Helper, fd: int, ev: Event)
    requires PointerInv(h)
    ensures PointerInv(Next(toVk, h, fd, ev))
  {
    hide OnKey, OnAbs, OnSyn, Fraction, SentPosition;
    match ev
    case Key(code, value) => OnKeyOnlyKeys(toVk, h, fd, code, value);
    case Abs(code, value) => OnAbsOnlyMoves(h, fd, code, value);
    case SynReport => OnSynSettles(h, fd);
    case _ =>
  }

  lemma {:induction false} RunKeepsPointer(toVk: nat -> byte, h: Helper, evs: seq<(int, Event)>)
    requires PointerInv(h)
    ensures PointerInv(Run(toVk, h, evs))
    ensures Run(toVk, h, evs).width == h.width && Run(toVk, h, evs).height == h.height
    decreases evs
  {
    hide PointerInv, Next;
    if evs != [] {
      RunKeepsPointer(toVk, h, evs[..|evs| - 1]);
      var before, last := Run(toVk, h, evs[..|evs| - 1]), evs[|evs| - 1];
      NextKeepsPointer(toVk, before, last.0, last.1);
      ScreenStays(toVk, before, last.0, last.1);
    }
  }

  lemma ScreenStays(toVk: nat -> byte, h: Helper, fd: int, ev: Event)
    ensures Next(toVk, h, fd, ev).width == h.width && Next(toVk, h, fd, ev).height == h.height
  {
    hide OnKey, OnAbs, OnSyn;
    match ev
    case Key(code, value) => OnKeyOnlyKeys(toVk, h, fd, code, value);
    case Abs(code, value) => OnAbsOnlyMoves(h, fd, code, value);
    case SynReport => OnSynSets(h, fd);
    case _ =>
  }

  lemma StartSettled(width: int, height: int, devices: map<int, Device>)
    ensures PointerInv(Start(width, height, devices))
  {
  }

  /** After every report, whatever the devices did, the pointer is on the screen and less than
      two pixels from the last position sent: motion inside the dead zone adds up and is never
      lost. */
  lemma {:induction false} PointerStaysNear(toVk: nat -> byte, width: int, height: int, devices: map<int, Device>,
                                            evs: seq<(int, Event)>)
    requires width > 0 && height > 0
    requires evs != [] && evs[|evs| - 1].1 == SynReport
    ensures Settled(Run(toVk, Start(width, height, devices), evs))
  {
    StartSettled(width, height, devices);
    RunKeepsPointer(toVk, Start(width, height, devices), evs[..|evs| - 1]);
    OnSynSettles(Run(toVk, Start(width, height, devices), evs[..|evs| - 1]), evs[|evs| - 1].0);
  }

  // ---------------------------------------------------------------- what a receiver makes of it

  function Times(a: real, b: real): real {
    a * b
  }

  /** The pixel a receiver's helper moves to for a fraction of its screen. */
  function TargetPixel(fraction: real, dim: int): int {
    PixelAt(Times(fraction, (dim - 1) as real), dim - 1)
  }

  function PixelAt(position: real, last: int): int {
    Bounded(Trunc(position), 0, last)
  }

  function Span(dim: int): int {
    if dim - 1 > 1 then dim - 1 else 1
  }

  function PixelRatio(hostDim: int, receiverDim: int): (r: real)
    requires receiverDim > 0
    ensures r >= 0.0
  {
    (receiverDim - 1) as real / Span(hostDim) as real
  }

  lemma PixelIsTruncated(position: real, last: int)
    requires 0.0 <= position <= last as real
    ensures 0 <= PixelAt(position, last) <= last && 0.0 <= position - PixelAt(position, last) as real < 1.0
  {
  }

  // Products and quotients first by themselves, then under the name Times: linear steps only
  // combine them.

  lemma TimesIs(a: real, b: real)
    ensures Times(a, b) == a * b
  {
  }

  lemma UnitScaled(d: real, k: real)
    requires -1.0 <= d <= 1.0 && k >= 0.0
    ensures -k <= d * k <= k
  {
  }

  lemma FractionScaled(f: real, m: real)
    requires 0.0 <= f <= 1.0 && m >= 0.0
    ensures 0.0 <= f * m <= m
  {
  }

  lemma ProductInRange(f: real, m: real)
    requires 0.0 <= f <= 1.0 && m >= 0.0
    ensures 0.0 <= Times(f, m) <= m
  {
    hide Times;
    FractionScaled(f, m);
    TimesIs(f, m);
  }

  lemma DivideInRange(n: real, d: real)
    requires 0.0 <= n <= d && d > 0.0
    ensures 0.0 <= n / d <= 1.0
  {
  }

  lemma DivideThenMultiply(n: real, m: real, d: real)
    requires d > 0.0
    ensures n / d * m == n * (m / d)
  {
  }

  lemma ScaleIsRatio(n: real, m: real, d: real)
    requires d > 0.0
    ensures Times(n / d, m) == Times(n, m / d)
  {
    hide Times;
    DivideThenMultiply(n, m, d);
    TimesIs(n / d, m);
    TimesIs(n, m / d);
  }

  lemma TimesOfSum(q: real, d: real, k: real)
    ensures Times(q + d, k) == Times(q, k) + Times(d, k)
  {
  }

  lemma UnitTimes(d: real, k: real)
    requires -1.0 <= d <= 1.0 && k >= 0.0
    ensures -k <= Times(d, k) <= k
  {
    hide Times;
    UnitScaled(d, k);
    TimesIs(d, k);
  }

  lemma NearProduct(p: real, q: real, k: real)
    requires -1.0 <= p - q <= 1.0 && k >= 0.0
    ensures -k <= Times(p, k) - Times(q, k) <= k
  {
    hide Times;
    TimesOfSum(q, p - q, k);
    assert q + (p - q) == p;
    UnitTimes(p - q, k);
  }

  lemma FractionIs(sent: int, hostDim: int)
    requires 0 <= sent < hostDim
    ensures Fraction(sent, hostDim) == sent as real / Span(hostDim) as real
    ensures Span(hostDim) > 0 && sent <= Span(hostDim)
  {
  }

  lemma RatioIs(hostDim: int, receiverDim: int, m: real)
    requires receiverDim > 0 && m == (receiverDim - 1) as real
    ensures PixelRatio(hostDim, receiverDim) == m / Span(hostDim) as real
  {
  }

  /** A sent fraction of the receiver's screen is the sent pixel times the ratio. */
  lemma SentIsScaled(sent: int, hostDim: int, receiverDim: int, m: real)
    requires 0 <= sent < hostDim && receiverDim > 0 && m == (receiverDim - 1) as real
    ensures Times(Fraction(sent, hostDim), m) == Times(sent as real, PixelRatio(hostDim, receiverDim))
    ensures 0.0 <= Times(Fraction(sent, hostDim), m) <= m
  {
    hide PixelRatio, Fraction, Times, Span;
    FractionIs(sent, hostDim);
    RatioIs(hostDim, receiverDim, m);
    DivideInRange(sent as real, Span(hostDim) as real);
    ScaleIsRatio(sent as real, m, Span(hostDim) as real);
    ProductInRange(Fraction(sent, hostDim), m);
  }

  /** One pixel of the host is `k` pixels of the receiver. */
  lemma TargetIsClose(pixel: int, lastSent: int, hostDim: int, receiverDim: int)
    requires 0 <= lastSent < hostDim && receiverDim > 0
    requires -1 <= pixel - lastSent <= 1
    ensures var k := PixelRatio(hostDim, receiverDim);
            var target := TargetPixel(Fraction(lastSent, hostDim), receiverDim);
            && 0 <= target < receiverDim
            && -(k + 1.0) < target as real - Times(pixel as real, k) < k + 1.0
  {
    hide PixelRatio, PixelAt, Fraction, Times;
    var m := (receiverDim - 1) as real;
    SentIsScaled(lastSent, hostDim, receiverDim, m);
    PixelIsTruncated(Times(Fraction(lastSent, hostDim), m), receiverDim - 1);
    NearProduct(pixel as real, lastSent as real, PixelRatio(hostDim, receiverDim));
  }

  lemma GapIsUnit(h: Helper)
    requires Gap(h) < DEADZONE_SQUARED
    ensures -1 <= h.x - h.lastSentX <= 1 && -1 <= h.y - h.lastSentY <= 1
  {
    SmallSquare(h.x - h.lastSentX, h.y - h.lastSentY);
    SmallSquare(h.y - h.lastSentY, h.x - h.lastSentX);
  }

  lemma SmallSquare(a: int, b: int)
    requires a * a + b * b < 4
    ensures -1 <= a <= 1
  {
    assert b * b >= 0;
    assert a >= 2 ==> a * a >= 4;
    assert a <= -2 ==> a * a >= 4;
  }

  /** End to end on the mouse path: once a position has been sent, a receiver that gives the
      last one to its simulation is, after every report, within a pixel and a scaled pixel of
      where the host's pointer is. */
  lemma {:induction false} ReceiverTracksHost(toVk: nat -> byte, width: int, height: int, devices: map<int, Device>,
                                              evs: seq<(int, Event)>, sim: Sim, receiverWidth: int,
                                              receiverHeight: int)
    requires width > 0 && height > 0 && receiverWidth > 0 && receiverHeight > 0
    requires evs != [] && evs[|evs| - 1].1 == SynReport
    ensures var h := Run(toVk, Start(width, height, devices), evs);
            SentPosition(h.sent).Some? ==>
              var cursor := Receive(sim, SentPosition(h.sent).value.0, SentPosition(h.sent).value.1, MouseAbsolute);
              var kx, ky := PixelRatio(width, receiverWidth), PixelRatio(height, receiverHeight);
              && -(kx + 1.0) < TargetPixel(cursor.lastX, receiverWidth) as real - Times(h.x as real, kx) < kx + 1.0
              && -(ky + 1.0) < TargetPixel(cursor.lastY, receiverHeight) as real - Times(h.y as real, ky) < ky + 1.0
  {
    hide Run, TargetPixel, PixelRatio, Fraction, Times;
    var h := Run(toVk, Start(width, height, devices), evs);
    PointerStaysNear(toVk, width, height, devices, evs);
    StartSettled(width, height, devices);
    RunKeepsPointer(toVk, Start(width, height, devices), evs);
    if SentPosition(h.sent).Some? {
      GapIsUnit(h);
      FractionInRange(h.lastSentX, width);
      FractionInRange(h.lastSentY, height);
      TargetIsClose(h.x, h.lastSentX, width, receiverWidth);
      TargetIsClose(h.y, h.lastSentY, height, receiverHeight);
    }
  }
}
