/** The helper's event loop as it runs: its global state, updated event by event. */
module HelperPolling {
  import opened Prelude
  import opened KeyEvents
  import opened PointerSimulation
  import opened H = HelperInput

  class Helper {
    const screenWidth: int
    const screenHeight: int
    const keyStates: KeyBitmask
    var absX: int
    var absY: int
    var mouseButtons: bv8
    var lastSentAbsX: int
    var lastSentAbsY: int
    var lastMoveWasTrackpad: bool
    var devices: map<int, Device>
    var currentPayload: Payload
    var rawMouseMoved: bool
    var rawButtonChanged: bool
    ghost var emitted: seq<KeyEvent>
    // The payloads written to the main application.
    ghost var sent: seq<Payload>

    constructor (width: int, height: int, devices: map<int, Device>)
      ensures Valid() && fresh(keyStates) && fresh(keyStates.bytes)
      ensures View() == H.Start(width, height, devices)
    {
      screenWidth, screenHeight := width, height;
      keyStates := new KeyBitmask();
      absX := if width > 0 && height > 0 then width / 2 else 0;
      absY := if width > 0 && height > 0 then height / 2 else 0;
      lastSentAbsX := if width > 0 && height > 0 then width / 2 else 0;
      lastSentAbsY := if width > 0 && height > 0 then height / 2 else 0;
      mouseButtons, lastMoveWasTrackpad := 0, false;
      this.devices, currentPayload := devices, EMPTY_PAYLOAD;
      rawMouseMoved, rawButtonChanged := false, false;
      emitted, sent := [], [];
    }

    predicate Valid()
      reads keyStates
    {
      keyStates.bytes.Length == 32
    }

    ghost function View(): H.Helper
      requires Valid()
      reads this, keyStates, keyStates.bytes
    {
      H.Helper(screenWidth, screenHeight, absX, absY, mouseButtons, lastSentAbsX, lastSentAbsY,
               lastMoveWasTrackpad, Keys(keyStates.bytes[..]), devices, currentPayload, rawMouseMoved,
               rawButtonChanged, emitted, sent)
    }

    predicate Initialized()
    {
      screenWidth > 0 && screenHeight > 0
    }

    function Device(fd: int): H.Device
      reads this
    {
      if fd in devices then devices[fd] else UNKNOWN_DEVICE
    }

    /** The devices that are ready, each read until it has no more events. */
    method PollEventsOnce(toVk: nat -> byte, ready: seq<(int, seq<Event>)>)
      requires Valid()
      modifies this, keyStates.bytes
      ensures View() == H.PollOnce(toVk, old(View()), ready)
    {
      hide Keys, H.Next, H.ClearPending, Tagged;
      currentPayload := EMPTY_PAYLOAD;
      rawMouseMoved, rawButtonChanged := false, false;
      ghost var start := View();
      for i := 0 to |ready|
        invariant View() == H.PollDevices(toVk, start, ready[..i])
      {
        assert ready[..i + 1][..i] == ready[..i];
        ReadDevice(toVk, ready[i].0, ready[i].1);
      }
      assert ready[..|ready|] == ready;
    }

    method ReadDevice(toVk: nat -> byte, fd: int, events: seq<Event>)
      requires Valid()
      modifies this, keyStates.bytes
      ensures View() == H.Run(toVk, H.ClearPending(old(View()), fd), Tagged(fd, events))
    {
      hide Keys, H.Next;
      if fd in devices {
        devices := devices[fd := devices[fd].(pendingX := None, pendingY := None)];
      }
      ghost var start := View();
      for i := 0 to |events|
        invariant View() == H.Run(toVk, start, Tagged(fd, events[..i]))
      {
        assert Tagged(fd, events[..i + 1])[..i] == Tagged(fd, events[..i]);
        HandleEvent(toVk, fd, events[i]);
      }
      assert events[..|events|] == events;
    }

    method HandleEvent(toVk: nat -> byte, fd: int, ev: Event)
      requires Valid()
      modifies this, keyStates.bytes
      ensures View() == H.Next(toVk, old(View()), fd, ev)
    {
      hide H.OnKey, H.OnRel, H.OnAbs, H.OnSyn;
      match ev {
        case Key(code, value) => HandleKey(toVk, fd, code, value);
        case Rel(code, value) => HandleRel(code, value);
        case Abs(code, value) => HandleAbs(fd, code, value);
        case SynReport => HandleReport(fd);
        case OtherEvent =>
      }
    }

    method HandleKey(toVk: nat -> byte, fd: int, code: nat, value: int)
      requires Valid()
      modifies this, keyStates.bytes
      ensures View() == H.OnKey(toVk, old(View()), fd, code, value)
    {
      hide Keys, Held, KeyChange, PressButtons, H.Touch;
      var vk := toVk(code);
      var isPressed := value == 1 || value == 2;
      if Device(fd).touchPointer && code == BTN_TOUCH {
        HandleTouch(fd, isPressed);
      } else if vk != 0 {
        RecordKey(vk, isPressed);
        var oldButtons := mouseButtons;
        PressButton(code, isPressed);
        if oldButtons != mouseButtons {
          rawButtonChanged := true;
        }
      }
    }

    method HandleTouch(fd: int, isPressed: bool)
      requires Valid()
      modifies this`devices
      ensures View() == H.Touch(old(View()), fd, isPressed)
    {
      hide Keys;
      if isPressed {
        devices := devices[fd := Device(fd).(touchActive := true, rawAtTouch := None,
                                             screenAtTouch := Some((absX, absY)))];
      } else {
        devices := devices[fd := Device(fd).(touchActive := false)];
      }
    }

    method PressButton(code: nat, isPressed: bool)
      modifies this`mouseButtons
      ensures mouseButtons == PressButtons(old(mouseButtons), code, isPressed)
    {
      if code == BTN_LEFT {
        mouseButtons := if isPressed then mouseButtons | 1 else mouseButtons & !1;
      } else if code == BTN_RIGHT {
        mouseButtons := if isPressed then mouseButtons | 2 else mouseButtons & !2;
      } else if code == BTN_MIDDLE {
        mouseButtons := if isPressed then mouseButtons | 4 else mouseButtons & !4;
      }
    }

    method RecordKey(vk: byte, isPressed: bool)
      requires Valid() && vk != 0
      modifies this`currentPayload, this`emitted, keyStates.bytes
      ensures var change := KeyChange(old(Keys(keyStates.bytes[..])), vk, isPressed);
              && Keys(keyStates.bytes[..]) == Held(old(Keys(keyStates.bytes[..])), change)
              && currentPayload == old(currentPayload).(keyEvents := old(currentPayload).keyEvents + change)
              && emitted == old(emitted) + change
    {
      hide Keys;
      ghost var held := Keys(keyStates.bytes[..]);
      HeldSnoc(held, [], KeyEvent(vk, isPressed));
      assert [] + [KeyEvent(vk, isPressed)] == [KeyEvent(vk, isPressed)];
      assert emitted + [] == emitted && currentPayload.keyEvents + [] == currentPayload.keyEvents;
      var currentlyPressed := keyStates.IsPressed(vk);
      if isPressed && !currentlyPressed {
        currentPayload := currentPayload.(keyEvents := currentPayload.keyEvents + [KeyEvent(vk, true)]);
        emitted := emitted + [KeyEvent(vk, true)];
        keyStates.Update(vk, true);
      } else if !isPressed && currentlyPressed {
        currentPayload := currentPayload.(keyEvents := currentPayload.keyEvents + [KeyEvent(vk, false)]);
        emitted := emitted + [KeyEvent(vk, false)];
        keyStates.Update(vk, false);
      }
    }

    method HandleRel(code: nat, value: int)
      requires Valid()
      modifies this
      ensures View() == H.OnRel(old(View()), code, value)
    {
      if Initialized() {
        if code == REL_X {
          absX := absX + value;
          rawMouseMoved, lastMoveWasTrackpad := true, false;
        } else if code == REL_Y {
          absY := absY + value;
          rawMouseMoved, lastMoveWasTrackpad := true, false;
        }
      }
      if code == REL_WHEEL {
        currentPayload := currentPayload.(scrollDeltaY := Wrap16(currentPayload.scrollDeltaY + Wrap16(value)));
      } else if code == REL_HWHEEL {
        currentPayload := currentPayload.(scrollDeltaX := Wrap16(currentPayload.scrollDeltaX + Wrap16(value)));
      }
    }

    method HandleAbs(fd: int, code: nat, value: int)
      requires Valid()
      modifies this
      ensures View() == H.OnAbs(old(View()), fd, code, value)
    {
      hide Keys, Scale;
      if !Initialized() {
        return;
      }
      var d := Device(fd);
      var causedMove := false;
      if d.touchPointer && d.touchActive {
        if code == ABS_X || (code == ABS_MT_POSITION_X && d.absX.Some?) {
          devices := devices[fd := d.(pendingX := Some(value))];
        } else if code == ABS_Y || (code == ABS_MT_POSITION_Y && d.absY.Some?) {
          devices := devices[fd := d.(pendingY := Some(value))];
        }
      } else {
        if code == ABS_X || (code == ABS_MT_POSITION_X && d.absX.Some?) {
          if d.absX.Some? {
            var oldAbsX := absX;
            absX := Scale(value, d.absX.value, screenWidth);
            causedMove := absX != oldAbsX;
          }
        } else if code == ABS_Y || (code == ABS_MT_POSITION_Y && d.absY.Some?) {
          if d.absY.Some? {
            var oldAbsY := absY;
            absY := Scale(value, d.absY.value, screenHeight);
            causedMove := absY != oldAbsY;
          }
        }
      }
      if causedMove {
        rawMouseMoved := true;
        lastMoveWasTrackpad := d.touchPointer;
      }
    }

    method HandleReport(fd: int)
      requires Valid()
      modifies this
      ensures View() == H.OnSyn(old(View()), fd)
    {
      hide Keys, H.Drag, H.Settle, H.Report, SendsPosition;
      DragPointer(fd);
      SettlePointer(fd);
      var payload, sendMouseUpdate := BuildPayload(fd);
      if sendMouseUpdate && Initialized() {
        lastSentAbsX, lastSentAbsY := absX, absY;
      }
      if payload.keyEvents != [] || payload.isMouseEvent {
        sent := sent + [payload];
      }
      currentPayload := EMPTY_PAYLOAD;
      rawMouseMoved, rawButtonChanged := false, false;
    }

    method DragPointer(fd: int)
      requires Valid()
      modifies this
      ensures View() == H.Drag(old(View()), fd)
    {
      hide Keys, ScreenDelta;
      var d := Device(fd);
      if d.touchPointer && d.touchActive && d.pendingX.Some? && d.pendingY.Some? {
        if d.rawAtTouch.None? {
          devices := devices[fd := d.(rawAtTouch := Some((d.pendingX.value, d.pendingY.value)))];
        } else {
          var rawDeltaX := d.pendingX.value - d.rawAtTouch.value.0;
          var rawDeltaY := d.pendingY.value - d.rawAtTouch.value.1;
          if d.screenAtTouch.Some? {
            var oldAbsX, oldAbsY := absX, absY;
            absX := d.screenAtTouch.value.0 + ScreenDelta(rawDeltaX, InfoOr0(d.absX), screenWidth);
            absY := d.screenAtTouch.value.1 + ScreenDelta(rawDeltaY, InfoOr0(d.absY), screenHeight);
            if absX != oldAbsX || absY != oldAbsY {
              rawMouseMoved := true;
              lastMoveWasTrackpad := true;
            }
          }
        }
      }
    }

    method SettlePointer(fd: int)
      requires Valid()
      modifies this
      ensures View() == H.Settle(old(View()), fd)
    {
      hide Keys;
      devices := devices[fd := Device(fd).(pendingX := None, pendingY := None)];
      if rawMouseMoved && Initialized() {
        absX := Bounded(absX, 0, screenWidth - 1);
        absY := Bounded(absY, 0, screenHeight - 1);
      }
    }

    method BuildPayload(fd: int) returns (payload: Payload, sendMouseUpdate: bool)
      requires Valid()
      ensures payload == H.Report(View(), fd)
      ensures sendMouseUpdate <==> SendsPosition(View())
    {
      hide Keys, Fraction;
      payload := currentPayload;
      var movedSignificantly := false;
      if rawMouseMoved && Initialized() {
        var dx, dy := absX - lastSentAbsX, absY - lastSentAbsY;
        if dx * dx + dy * dy >= DEADZONE_SQUARED {
          movedSignificantly := true;
        }
      }
      sendMouseUpdate := movedSignificantly || rawButtonChanged;
      var keyIsMouseButton := ContainsMouseButton(payload.keyEvents);
      payload := payload.(isMouseEvent := payload.scrollDeltaX != 0 || payload.scrollDeltaY != 0 ||
                                          sendMouseUpdate || keyIsMouseButton);
      if payload.isMouseEvent {
        if (lastMoveWasTrackpad && rawMouseMoved) || (Device(fd).touchpadPart && rawButtonChanged) {
          payload := payload.(source := TrackpadAbsolute);
        } else {
          payload := payload.(source := MouseAbsolute);
        }
        if sendMouseUpdate && Initialized() {
          payload := payload.(relativeX := Fraction(absX, screenWidth), relativeY := Fraction(absY, screenHeight));
        }
        payload := payload.(mouseButtons := mouseButtons);
      }
    }

    method ContainsMouseButton(es: seq<KeyEvent>) returns (found: bool)
      ensures found <==> HasMouseButton(es)
    {
      for i := 0 to |es|
        invariant forall k :: 0 <= k < i ==> !IsMouseButtonVk(es[k].code)
      {
        if IsMouseButtonVk(es[i].code) {
          return true;
        }
      }
      return false;
    }
  }
}
