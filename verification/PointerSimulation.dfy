/**
  Turning received positions into cursor positions. A mouse position is used as it is; a
  trackpad position only moves the cursor by its distance from the previous one, unless the
  finger has been put down somewhere else. Positions are exact reals here.
 */
module PointerSimulation {
  import opened Prelude

  datatype Source = MouseAbsolute | TrackpadAbsolute | OtherSource

  const JUMP_THRESHOLD := 0.02

  /** The last simulated position and the device position it was reached from; -1 when unset. */
  datatype Sim = Sim(lastX: real, lastY: real, anchorX: real, anchorY: real)

  const RESET := Sim(-1.0, -1.0, -1.0, -1.0)

  function Clamp(v: real): (r: real)
    ensures 0.0 <= r <= 1.0
    ensures 0.0 <= v <= 1.0 ==> r == v
  {
    if v < 0.0 then 0.0 else if v > 1.0 then 1.0 else v
  }

  function Square(v: real): (r: real)
    ensures r >= 0.0
  {
    v * v
  }

  function DistanceSquared(x1: real, y1: real, x2: real, y2: real): (r: real)
    ensures r >= 0.0
  {
    Square(x1 - x2) + Square(y1 - y2)
  }

  predicate Far(s: Sim, x: real, y: real) {
    DistanceSquared(x, y, s.anchorX, s.anchorY) > JUMP_THRESHOLD * JUMP_THRESHOLD
  }

  /** One received position with non-negative coordinates. */
  function Move(s: Sim, x: real, y: real, source: Source): Sim {
    if source == TrackpadAbsolute then
      if s.lastX < 0.0 || s.anchorX < 0.0 then Sim(Clamp(x), Clamp(y), x, y)
      else if Far(s, x, y) then Sim(Clamp(s.lastX), Clamp(s.lastY), x, y)
      else Sim(Clamp(s.lastX + (x - s.anchorX)), Clamp(s.lastY + (y - s.anchorY)), x, y)
    else if s.anchorX >= 0.0 then Sim(Clamp(x), Clamp(y), -1.0, -1.0)
    else Sim(Clamp(x), Clamp(y), s.anchorX, s.anchorY)
  }

  /** A position with a negative coordinate is ignored. */
  function Receive(s: Sim, x: real, y: real, source: Source): Sim {
    if x < 0.0 || y < 0.0 then s else Move(s, x, y, source)
  }

  datatype Position = Position(x: real, y: real, source: Source)

  function Run(s: Sim, ps: seq<Position>): Sim {
    if ps == [] then s
    else
      var p := ps[|ps| - 1];
      Receive(Run(s, ps[..|ps| - 1]), p.x, p.y, p.source)
  }

  /** The last position is unset or on the screen; the anchors are set together. */
  predicate Inv(s: Sim) {
    && ((s.lastX == -1.0 && s.lastY == -1.0) || (0.0 <= s.lastX <= 1.0 && 0.0 <= s.lastY <= 1.0))
    && ((s.anchorX == -1.0 && s.anchorY == -1.0) || (s.anchorX >= 0.0 && s.anchorY >= 0.0))
  }

  lemma {:induction false} RunKeepsInv(ps: seq<Position>)
    ensures Inv(Run(RESET, ps))
    decreases ps
  {
    if ps != [] {
      RunKeepsInv(ps[..|ps| - 1]);
    }
  }

  /** Clamping never takes a coordinate further from one that is already in range. */
  lemma ClampIsNearer(from: real, delta: real)
    requires 0.0 <= from <= 1.0
    ensures Square(Clamp(from + delta) - from) <= Square(delta)
  {
    var step := Clamp(from + delta) - from;
    if delta >= 0.0 {
      assert 0.0 <= step <= delta;
      MonotoneSquare(step, delta);
    } else {
      assert delta <= step <= 0.0;
      MonotoneSquare(-step, -delta);
    }
  }

  lemma MonotoneSquare(a: real, b: real)
    requires 0.0 <= a <= b
    ensures a * a <= b * b
  {
    assert b * b - a * a == (b - a) * (b + a);
  }

  /** Once position and anchors are set, a trackpad packet moves the cursor by at most the
      threshold, and one far from the anchor does not move it; either becomes the anchor. */
  lemma TrackpadStepIsSmall(s: Sim, x: real, y: real)
    requires Inv(s) && s.lastX >= 0.0 && s.anchorX >= 0.0 && x >= 0.0 && y >= 0.0
    ensures var r := Move(s, x, y, TrackpadAbsolute);
            && DistanceSquared(r.lastX, r.lastY, s.lastX, s.lastY) <= JUMP_THRESHOLD * JUMP_THRESHOLD
            && (Far(s, x, y) ==> r.lastX == s.lastX && r.lastY == s.lastY)
            && r.anchorX == x && r.anchorY == y
  {
    if !Far(s, x, y) {
      ClampIsNearer(s.lastX, x - s.anchorX);
      ClampIsNearer(s.lastY, y - s.anchorY);
    }
  }

  /** A trackpad packet close to the anchor whose move stays on the screen. */
  predicate Glides(s: Sim, p: Position) {
    && p.source == TrackpadAbsolute && p.x >= 0.0 && p.y >= 0.0
    && !Far(s, p.x, p.y)
    && 0.0 <= s.lastX + (p.x - s.anchorX) <= 1.0
    && 0.0 <= s.lastY + (p.y - s.anchorY) <= 1.0
  }

  predicate AllGlide(s: Sim, ps: seq<Position>) {
    ps == [] || (AllGlide(s, ps[..|ps| - 1]) && Glides(Run(s, ps[..|ps| - 1]), ps[|ps| - 1]))
  }

  /** Over any run of such packets nothing is lost or added: the cursor has moved by exactly
      the distance from the first anchor to the last finger position. */
  lemma {:induction false} GlideTelescopes(s: Sim, ps: seq<Position>)
    requires Inv(s) && s.lastX >= 0.0 && s.anchorX >= 0.0
    requires ps != [] && AllGlide(s, ps)
    ensures var r, last := Run(s, ps), ps[|ps| - 1];
            && r.lastX - s.lastX == last.x - s.anchorX
            && r.lastY - s.lastY == last.y - s.anchorY
            && r.anchorX == last.x && r.anchorY == last.y
    decreases ps
  {
    var init := ps[..|ps| - 1];
    if init != [] {
      GlideTelescopes(s, init);
    } else {
      assert Run(s, init) == s;
    }
  }

  // ---------------------------------------------------------------- in terms of the packets

  function OnScreen(v: real): real {
    if v <= 0.0 then 0.0 else if v >= 1.0 then 1.0 else v
  }

  /** The last packet with no negative coordinate. */
  function LastAccepted(ps: seq<Position>): Option<Position> {
    if ps == [] then None
    else
      var p := ps[|ps| - 1];
      if p.x >= 0.0 && p.y >= 0.0 then Some(p) else LastAccepted(ps[..|ps| - 1])
  }

  predicate FromTrackpad(p: Option<Position>) {
    p.Some? && p.value.source == TrackpadAbsolute
  }

  /** The anchor is the last accepted packet if that came from a trackpad, and unset otherwise; the
      cursor is set once a packet has been accepted. */
  lemma {:induction false} AnchorIsLastTrackpad(ps: seq<Position>)
    ensures var s, last := Run(RESET, ps), LastAccepted(ps);
            && (s.anchorX, s.anchorY) == (if FromTrackpad(last) then (last.value.x, last.value.y) else (-1.0, -1.0))
            && (last.Some? <==> s.lastX >= 0.0 && s.lastY >= 0.0)
            && (last.Some? ==> 0.0 <= s.lastX <= 1.0 && 0.0 <= s.lastY <= 1.0)
            && (last.None? ==> s == RESET)
            && (last.Some? ==> last.value.x >= 0.0 && last.value.y >= 0.0)
    decreases ps
  {
    if ps != [] {
      AnchorIsLastTrackpad(ps[..|ps| - 1]);
    }
  }

  predicate LongStep(dx: real, dy: real) {
    dx * dx + dy * dy > 0.0004
  }

  /** Where each packet takes the cursor, given the packets before it. A mouse's goes to its own
      position; so does a trackpad's when no packet or a mouse's came before, that is when there
      is no finger to follow. Otherwise the cursor takes over the finger's step, unless that is
      longer than 0.02: the finger has been put down elsewhere. */
  lemma {:induction false} PacketMovesCursor(ps: seq<Position>, p: Position)
    ensures var s, r, last := Run(RESET, ps), Run(RESET, ps + [p]), LastAccepted(ps);
            if p.x < 0.0 || p.y < 0.0 then r == s
            else if p.source != TrackpadAbsolute || !FromTrackpad(last) then
              r.lastX == OnScreen(p.x) && r.lastY == OnScreen(p.y)
            else
              var dx, dy := p.x - last.value.x, p.y - last.value.y;
              if LongStep(dx, dy) then r.lastX == s.lastX && r.lastY == s.lastY
              else r.lastX == OnScreen(s.lastX + dx) && r.lastY == OnScreen(s.lastY + dy)
  {
    hide Far, LongStep;
    assert (ps + [p])[..|ps|] == ps;
    AnchorIsLastTrackpad(ps);
    FarIsLongStep(Run(RESET, ps), p.x, p.y);
  }

  lemma FarIsLongStep(s: Sim, x: real, y: real)
    ensures Far(s, x, y) <==> LongStep(x - s.anchorX, y - s.anchorY)
  {
  }

  // ---------------------------------------------------------------- the two implementations

  /** The base class of the input managers. Its out-parameters keep the caller's values when
      the position is ignored. */
  class InputManager {
    var lastSimulatedRelativeX: real
    var lastSimulatedRelativeY: real
    var anchorDeviceRelativeX: real
    var anchorDeviceRelativeY: real

    constructor ()
      ensures View() == RESET
    {
      lastSimulatedRelativeX, lastSimulatedRelativeY := -1.0, -1.0;
      anchorDeviceRelativeX, anchorDeviceRelativeY := -1.0, -1.0;
    }

    function View(): Sim
      reads this
    {
      Sim(lastSimulatedRelativeX, lastSimulatedRelativeY, anchorDeviceRelativeX, anchorDeviceRelativeY)
    }

    method ProcessSimulatedMouseCoordinates(payloadX: real, payloadY: real, source: Source, inX: real, inY: real)
      returns (outX: real, outY: real)
      modifies this
      ensures View() == Receive(old(View()), payloadX, payloadY, source)
      ensures if payloadX < 0.0 || payloadY < 0.0 then outX == inX && outY == inY
              else outX == View().lastX && outY == View().lastY
    {
      var lastSimX, lastSimY := lastSimulatedRelativeX, lastSimulatedRelativeY;
      var anchorDevX, anchorDevY := anchorDeviceRelativeX, anchorDeviceRelativeY;
      outX, outY := inX, inY;
      if payloadX < 0.0 || payloadY < 0.0 {
        return;
      }
      if source == TrackpadAbsolute {
        if lastSimX < 0.0 || anchorDevX < 0.0 {
          outX, outY := payloadX, payloadY;
          anchorDeviceRelativeX := payloadX;
          anchorDeviceRelativeY := payloadY;
        } else {
          var deltaX := payloadX - anchorDevX;
          var deltaY := payloadY - anchorDevY;
          var distanceSquared := Square(deltaX) + Square(deltaY);
          var thresholdSquared := JUMP_THRESHOLD * JUMP_THRESHOLD;
          if distanceSquared > thresholdSquared {
            outX, outY := lastSimX, lastSimY;
            anchorDeviceRelativeX := payloadX;
            anchorDeviceRelativeY := payloadY;
          } else {
            outX, outY := lastSimX + deltaX, lastSimY + deltaY;
            anchorDeviceRelativeX := payloadX;
            anchorDeviceRelativeY := payloadY;
          }
        }
      } else {
        outX, outY := payloadX, payloadY;
        if anchorDevX >= 0.0 {
          anchorDeviceRelativeX := -1.0;
          anchorDeviceRelativeY := -1.0;
        }
      }
      outX, outY := Clamp(outX), Clamp(outY);
      lastSimulatedRelativeX := outX;
      lastSimulatedRelativeY := outY;
    }
  }

  /** The Linux helper's own copy. It answers an ignored position with the last one, or the
      middle of the screen. */
  class HelperSimulation {
    var lastSimulatedRelativeX: real
    var lastSimulatedRelativeY: real
    var anchorDeviceRelativeX: real
    var anchorDeviceRelativeY: real

    constructor ()
      ensures View() == RESET
    {
      lastSimulatedRelativeX, lastSimulatedRelativeY := -1.0, -1.0;
      anchorDeviceRelativeX, anchorDeviceRelativeY := -1.0, -1.0;
    }

    function View(): Sim
      reads this
    {
      Sim(lastSimulatedRelativeX, lastSimulatedRelativeY, anchorDeviceRelativeX, anchorDeviceRelativeY)
    }

    method ProcessSimulatedMouseCoordinates(payloadX: real, payloadY: real, source: Source)
      returns (outX: real, outY: real)
      modifies this
      ensures View() == Receive(old(View()), payloadX, payloadY, source)
      ensures if payloadX < 0.0 || payloadY < 0.0 then
                && outX == (if View().lastX >= 0.0 then View().lastX else 0.5)
                && outY == (if View().lastY >= 0.0 then View().lastY else 0.5)
              else outX == View().lastX && outY == View().lastY
    {
      var lastSimX, lastSimY := lastSimulatedRelativeX, lastSimulatedRelativeY;
      var anchorDevX, anchorDevY := anchorDeviceRelativeX, anchorDeviceRelativeY;
      if payloadX < 0.0 || payloadY < 0.0 {
        outX := if lastSimX >= 0.0 then lastSimX else 0.5;
        outY := if lastSimY >= 0.0 then lastSimY else 0.5;
        return;
      }
      if source == TrackpadAbsolute {
        if lastSimX < 0.0 || anchorDevX < 0.0 {
          outX, outY := payloadX, payloadY;
          anchorDeviceRelativeX := payloadX;
          anchorDeviceRelativeY := payloadY;
        } else {
          var deltaX := payloadX - anchorDevX;
          var deltaY := payloadY - anchorDevY;
          if Square(deltaX) + Square(deltaY) > JUMP_THRESHOLD * JUMP_THRESHOLD {
            outX, outY := lastSimX, lastSimY;
          } else {
            outX, outY := lastSimX + deltaX, lastSimY + deltaY;
          }
          anchorDeviceRelativeX := payloadX;
          anchorDeviceRelativeY := payloadY;
        }
      } else {
        outX, outY := payloadX, payloadY;
        if anchorDevX >= 0.0 {
          anchorDeviceRelativeX := -1.0;
          anchorDeviceRelativeY := -1.0;
        }
      }
      outX, outY := Clamp(outX), Clamp(outY);
      lastSimulatedRelativeX := outX;
      lastSimulatedRelativeY := outY;
    }
  }

  /** The two give the same cursor and keep in step for as long as no coordinate is negative. */
  method StepEquivalent(manager: InputManager, helper: HelperSimulation, x: real, y: real, source: Source)
    returns (mx: real, my: real, hx: real, hy: real)
    requires manager.View() == helper.View() && x >= 0.0 && y >= 0.0
    modifies manager, helper
    ensures manager.View() == helper.View()
    ensures mx == hx && my == hy
  {
    mx, my := manager.ProcessSimulatedMouseCoordinates(x, y, source, 0.0, 0.0);
    hx, hy := helper.ProcessSimulatedMouseCoordinates(x, y, source);
  }
}
