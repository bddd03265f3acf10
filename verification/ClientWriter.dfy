/**
  The client's own write queue and the way from it to the session's handler. The queue is
  guarded by the connection state instead of an activity flag, and a failed connection leaves
  it as it is; up to that it is the session's writer, so what is proved of that one holds here.
 */
module ClientWriter {
  import opened Prelude
  import opened Packets
  import opened Wire
  import opened ClientConnection
  import E = EndToEnd
  import R = SessionReader
  import W = SessionWriter

  /** `posted` are the sends not yet run; `sent` and `flushed` count and record the bytes put
      on the pipe; `accepted`, `started` and `completed` are histories as in SessionWriter. */
  datatype Sender = Sender(
    state: ConnState,
    posted: seq<Msg>,
    queue: seq<seq<byte>>,
    writing: bool,
    outstanding: seq<seq<byte>>,
    accepted: seq<Msg>,
    started: seq<seq<byte>>,
    completed: seq<seq<byte>>,
    sent: nat,
    flushed: seq<byte>)

  /** The secure channel is up and the application handshake about to be sent. */
  const OPENING := Sender(Connecting, [], [], false, [], [], [], [], 0, [])

  /** Until the server has answered, nothing but a handshake may be sent. */
  predicate MaySend(state: ConnState, m: Msg) {
    !Stopped(state) && (state == Connected || m.kind == HANDSHAKE)
  }

  function AfterDoWrite(s: Sender): Sender {
    if Stopped(s.state) || s.queue == [] then s.(writing := false)
    else
      s.(writing := true,
         queue := s.queue[0 := W.MOVED_OUT],
         outstanding := s.outstanding + [s.queue[0]],
         started := s.started + [s.queue[0]])
  }

  function AfterRunPosted(s: Sender): Sender
    requires s.posted != []
  {
    var m := s.posted[0];
    var rest := s.(posted := s.posted[1..]);
    if Stopped(s.state) then rest
    else
      var pushed := rest.(queue := s.queue + [Frame(m)], accepted := s.accepted + [m]);
      if s.queue == [] && !s.writing then AfterDoWrite(pushed) else pushed
  }

  function AfterClose(s: Sender): Sender {
    if s.state == Disconnected then s else s.(state := Disconnected, queue := [], writing := false)
  }

  /** The finished write's slot is dropped; `writing` stays set only to go on. */
  function Popped(s: Sender, failed: bool): Sender
    requires s.outstanding != []
  {
    var queue := if s.queue == [] then [] else s.queue[1..];
    s.(queue := queue, outstanding := s.outstanding[1..], sent := 0,
       completed := if failed then s.completed else s.completed + [s.outstanding[0]],
       writing := s.writing && !failed && queue != [])
  }

  function AfterHandleWrite(s: Sender, failed: bool): Sender
    requires s.outstanding != []
  {
    var popped := Popped(s, failed);
    if failed then AfterClose(popped.(state := Error))
    else if popped.queue == [] || Stopped(s.state) then popped.(writing := false)
    else AfterDoWrite(popped)
  }

  /** What becomes of the sender when the connection state changes elsewhere. */
  function Follow(s: Sender, state: ConnState): Sender {
    if state == Disconnected then AfterClose(s) else s.(state := state)
  }

  lemma FollowSame(s: Sender)
    ensures Follow(s, s.state) == s
  {
  }

  lemma FollowError(s: Sender)
    ensures Follow(s, Error) == s.(state := Error)
  {
  }

  lemma FollowClosed(s: Sender)
    requires !Stopped(s.state)
    ensures Follow(s, Disconnected) == AfterClose(s) == AfterClose(s.(state := Error))
  {
  }

  function AfterSend(s: Sender, m: Msg): Sender {
    if MaySend(s.state, m) then s.(posted := s.posted + [m]) else s
  }

  datatype Step =
    | Sends(m: Msg)
    | RunsPosted
    | Transmits(n: nat)
    | WriteEnds(failed: bool)
    | Answered
    | Fails
    | Closes

  predicate Enabled(s: Sender, step: Step) {
    match step
    case Sends(m) => Fits(m)
    case RunsPosted => s.posted != []
    case Transmits(n) => s.outstanding != [] && s.sent + n <= |s.outstanding[0]|
    case WriteEnds(failed) => s.outstanding != [] && (failed || s.sent == |s.outstanding[0]|)
    case Answered => s.state == Connecting
    case Fails => !Stopped(s.state)
    case Closes => true
  }

  function Next(s: Sender, step: Step): Sender
    requires Enabled(s, step)
  {
    match step
    case Sends(m) => AfterSend(s, m)
    case RunsPosted => AfterRunPosted(s)
    case Transmits(n) => s.(sent := s.sent + n, flushed := s.flushed + s.outstanding[0][s.sent..s.sent + n])
    case WriteEnds(failed) => AfterHandleWrite(s, failed)
    case Answered => s.(state := Connected)
    case Fails => s.(state := Error)
    case Closes => AfterClose(s)
  }

  ghost predicate ValidRun(s: Sender, steps: seq<Step>)
    decreases steps
  {
    steps == [] || (Enabled(s, steps[0]) && ValidRun(Next(s, steps[0]), steps[1..]))
  }

  ghost function Run(s: Sender, steps: seq<Step>): Sender
    requires ValidRun(s, steps)
    decreases steps
  {
    if steps == [] then s else Run(Next(s, steps[0]), steps[1..])
  }

  // ---------------------------------------------------------------- refinement

  /** The same situation with a session's writer in the client's place and nobody reading. A
      queue left behind by a failed connection is as good as none. */
  function AsSession(core: Core, s: Sender): E.System {
    var live := !Stopped(s.state);
    E.System(s.posted,
             W.Writer(live, if live then s.queue else [], live && s.writing, s.outstanding,
                      E.Encoded(s.accepted), s.started, s.completed),
             s.accepted, s.sent, s.flushed, s.flushed, Fresh(core), true, false, [])
  }

  /** What a step of the client is for the session's writer. */
  function AsSessionStep(s: Sender, step: Step): seq<E.Step> {
    match step
    case Sends(m) => if MaySend(s.state, m) then [E.Send(m)] else []
    case RunsPosted => [E.RunPosted]
    case Transmits(n) => [E.Transmit(n)]
    case WriteEnds(failed) => [E.WriteEnds(failed)]
    case Answered => []
    case Fails => [E.SessionCloses]
    case Closes => [E.SessionCloses]
  }

  ghost function AsSessionSteps(s: Sender, steps: seq<Step>): seq<E.Step>
    requires ValidRun(s, steps)
    decreases steps
  {
    if steps == [] then []
    else AsSessionStep(s, steps[0]) + AsSessionSteps(Next(s, steps[0]), steps[1..])
  }

  lemma StepRefines(decode: Msg -> Packet, core: Core, s: Sender, step: Step)
    requires Enabled(s, step)
    ensures var t, es := AsSession(core, s), AsSessionStep(s, step);
            if es == [] then AsSession(core, Next(s, step)) == t
            else E.Enabled(t, es[0]) && E.Next(decode, t, es[0]) == AsSession(core, Next(s, step))
  {
    hide Frame;
    if step.RunsPosted? && !Stopped(s.state) {
      assert E.Encoded(s.accepted + [s.posted[0]]) == E.Encoded(s.accepted) + [Frame(s.posted[0])];
    }
  }

  /** Every run of the client's sender is a run of a session's writer. */
  lemma {:induction false} RunRefines(decode: Msg -> Packet, core: Core, s: Sender, steps: seq<Step>)
    requires ValidRun(s, steps)
    ensures E.ValidRun(decode, AsSession(core, s), AsSessionSteps(s, steps))
    ensures E.Run(decode, AsSession(core, s), AsSessionSteps(s, steps)) == AsSession(core, Run(s, steps))
    decreases steps
  {
    hide AsSession, AsSessionStep, Next, Enabled, E.Enabled, E.Next;
    if steps != [] {
      var es, rest := AsSessionStep(s, steps[0]), AsSessionSteps(Next(s, steps[0]), steps[1..]);
      StepRefines(decode, core, s, steps[0]);
      RunRefines(decode, core, Next(s, steps[0]), steps[1..]);
      AtMostOneStep(s, steps[0]);
      if es == [] {
        assert es + rest == rest;
      } else {
        assert es + rest == [es[0]] + rest;
        TailOfCons(es[0], rest);
      }
    }
  }

  lemma AtMostOneStep(s: Sender, step: Step)
    ensures |AsSessionStep(s, step)| <= 1
  {
  }

  /** Over every run: at most one write is outstanding, and while the connection is neither lost
      nor failed everything accepted is completed, in flight or queued behind the moved-out
      slot, with no wake-up lost. */
  lemma {:induction false} SenderSafety(core: Core, steps: seq<Step>)
    requires ValidRun(OPENING, steps)
    ensures E.WriterInv(AsSession(core, Run(OPENING, steps)))
  {
    hide AsSessionSteps, AsSession, E.WriterInv, E.ClientInv;
    var decode := (m: Msg) => OtherPacket(m.kind, m.body);
    OpeningIsIdle(core);
    RunRefines(decode, core, OPENING, steps);
    E.StartInv(decode, core);
    E.RunKeepsInv(decode, core, E.Start(core), AsSessionSteps(OPENING, steps));
  }

  lemma OpeningIsIdle(core: Core)
    ensures AsSession(core, OPENING) == E.Start(core)
  {
    assert E.Encoded([]) == [];
  }

  /** A closed connection keeps nothing to write, and never opens again. */
  lemma {:induction false} ClosedIsEmpty(s: Sender, steps: seq<Step>)
    requires ValidRun(s, steps) && s.state == Disconnected && s.queue == [] && !s.writing
    ensures var r := Run(s, steps);
            r.state == Disconnected && r.queue == [] && !r.writing && r.started == s.started
    decreases steps
  {
    hide Frame;
    if steps != [] {
      ClosedIsEmpty(Next(s, steps[0]), steps[1..]);
    }
  }

  /** Closing, whether asked for or by a failed write, makes it so. */
  lemma CloseEmpties(s: Sender, step: Step)
    requires Enabled(s, step) && s.state != Disconnected && (step.Closes? || step == WriteEnds(true))
    ensures var r := Next(s, step); r.state == Disconnected && r.queue == [] && !r.writing
  {
  }

  // ---------------------------------------------------------------- the handshake comes first

  predicate AllHandshakes(ms: seq<Msg>) {
    forall i :: 0 <= i < |ms| ==> ms[i].kind == HANDSHAKE
  }

  /** Before the server's answer only handshakes are posted or accepted. */
  lemma {:induction false} OnlyHandshakesBeforeAnswer(s: Sender, steps: seq<Step>)
    requires ValidRun(s, steps) && forall i :: 0 <= i < |steps| ==> steps[i] != Answered
    requires s.state != Connected && AllHandshakes(s.posted) && AllHandshakes(s.accepted)
    ensures var r := Run(s, steps);
            r.state != Connected && AllHandshakes(r.posted) && AllHandshakes(r.accepted)
    decreases steps
  {
    hide Next;
    if steps != [] {
      assert forall i :: 0 <= i < |steps[1..]| ==> steps[1..][i] == steps[i + 1];
      StepSendsHandshakes(s, steps[0]);
      OnlyHandshakesBeforeAnswer(Next(s, steps[0]), steps[1..]);
    }
  }

  lemma StepSendsHandshakes(s: Sender, step: Step)
    requires Enabled(s, step) && step != Answered
    requires s.state != Connected && AllHandshakes(s.posted) && AllHandshakes(s.accepted)
    ensures var r := Next(s, step);
            r.state != Connected && AllHandshakes(r.posted) && AllHandshakes(r.accepted)
  {
    hide Frame;
  }

  // ---------------------------------------------------------------- what is sent is accepted

  /** The messages given to `Send` that may leave the client: handshakes at any time, and from
      the server's answer on every message. */
  function Submitted(steps: seq<Step>, answered: bool): seq<Msg>
    decreases steps
  {
    if steps == [] then []
    else
      match steps[0]
      case Sends(m) =>
        (if answered || m.kind == HANDSHAKE then [m] else []) + Submitted(steps[1..], answered)
      case Answered => Submitted(steps[1..], true)
      case _ => Submitted(steps[1..], answered)
  }

  /** The connection meets no failure, no close and no failed write. */
  predicate Undisturbed(steps: seq<Step>) {
    forall i :: 0 <= i < |steps| ==> !steps[i].Fails? && !steps[i].Closes? && steps[i] != WriteEnds(true)
  }

  lemma StepSubmits(s: Sender, step: Step)
    requires Enabled(s, step) && !Stopped(s.state) && Undisturbed([step])
    ensures var r := Next(s, step);
            && !Stopped(r.state)
            && (r.state == Connected <==> s.state == Connected || step == Answered)
            && r.accepted + r.posted == s.accepted + s.posted + Submitted([step], s.state == Connected)
  {
    hide Frame;
    assert [step][0] == step && [step][1..] == [];
    match step
    case Sends(m) =>
      Assoc(s.accepted, s.posted, [m]);
    case RunsPosted =>
      assert s.posted == [s.posted[0]] + s.posted[1..];
      Assoc(s.accepted, [s.posted[0]], s.posted[1..]);
    case _ =>
  }

  /** Nothing is lost and nothing reordered on the way into the queue: over every undisturbed run
      the messages accepted, followed by those still posted, are exactly those submitted. */
  lemma {:induction false} AllSubmittedIsAccepted(s: Sender, steps: seq<Step>)
    requires ValidRun(s, steps) && !Stopped(s.state) && Undisturbed(steps)
    ensures var r := Run(s, steps);
            && !Stopped(r.state)
            && r.accepted + r.posted == s.accepted + s.posted + Submitted(steps, s.state == Connected)
    decreases steps
  {
    hide Next, Enabled;
    if steps == [] {
      assert s.accepted + s.posted + [] == s.accepted + s.posted;
    } else {
      var next, answered := Next(s, steps[0]), s.state == Connected || steps[0] == Answered;
      assert Undisturbed([steps[0]]);
      UndisturbedTail(steps);
      StepSubmits(s, steps[0]);
      AllSubmittedIsAccepted(next, steps[1..]);
      SubmittedFirst(steps, s.state == Connected);
      Assoc(s.accepted + s.posted, Submitted([steps[0]], s.state == Connected), Submitted(steps[1..], answered));
    }
  }

  lemma UndisturbedTail(steps: seq<Step>)
    requires steps != [] && Undisturbed(steps)
    ensures Undisturbed(steps[1..])
  {
  }

  lemma SubmittedFirst(steps: seq<Step>, answered: bool)
    requires steps != []
    ensures Submitted(steps, answered)
            == Submitted([steps[0]], answered) + Submitted(steps[1..], answered || steps[0] == Answered)
  {
    assert [steps[0]][1..] == [];
  }

  /** In every run, disturbed or not, the queue accepts a front of what was submitted. */
  lemma {:induction false} AcceptedIsFrontOfSubmitted(s: Sender, steps: seq<Step>)
    requires ValidRun(s, steps)
    ensures Run(s, steps).accepted <= s.accepted + s.posted + Submitted(steps, s.state == Connected)
    ensures Stopped(s.state) ==> Run(s, steps).accepted == s.accepted
    decreases steps
  {
    hide Next, Enabled;
    if steps != [] {
      var next := Next(s, steps[0]);
      AcceptedIsFrontOfSubmitted(next, steps[1..]);
      if Stopped(s.state) || !Undisturbed([steps[0]]) {
        DisturbedAcceptsNothing(s, steps[0]);
      } else {
        var answered := s.state == Connected || steps[0] == Answered;
        StepSubmits(s, steps[0]);
        SubmittedFirst(steps, s.state == Connected);
        Assoc(s.accepted + s.posted, Submitted([steps[0]], s.state == Connected), Submitted(steps[1..], answered));
      }
    }
  }

  lemma DisturbedAcceptsNothing(s: Sender, step: Step)
    requires Enabled(s, step) && (Stopped(s.state) || !Undisturbed([step]))
    ensures Stopped(Next(s, step).state) && Next(s, step).accepted == s.accepted
  {
    hide Frame;
  }

  // ---------------------------------------------------------------- what the server handles

  /** Whatever part of the client's bytes has reached the session, in whatever pieces and with
      whatever closes: its handler has been given the front of the messages the client's queue
      accepted, and nothing unless the first of those is a handshake. */
  lemma {:induction false} ServerHandlesPrefix(steps: seq<Step>, events: seq<R.Event>)
    requires ValidRun(OPENING, steps)
    requires R.Arrivals(events) <= Run(OPENING, steps).flushed
    ensures R.Run(R.WAITING_FOR_HELLO, events).handled <= R.Gated(WithReuse([], Run(OPENING, steps).accepted))
  {
    hide Run, R.Run, R.Gated, WithReuse, Frames;
    var s, arrived := Run(OPENING, steps), R.Arrivals(events);
    SenderSafety(Core(Connecting, "", 0, 0, 0), steps);
    R.HandledIsGatedPrefix(events);
    R.ArrivedIsArrivals(R.WAITING_FOR_HELLO, events);
    assert [] + arrived == arrived;
    FramesOfStreamPrefix(arrived, s.accepted);
    E.ReusePrefix(Frames(arrived), s.accepted);
    GatedPrefix(WithReuse([], Frames(arrived)), WithReuse([], s.accepted));
  }

  lemma GatedPrefix(a: seq<Msg>, b: seq<Msg>)
    requires a <= b
    ensures R.Gated(a) <= R.Gated(b)
  {
  }

  /** Completeness: with the connection up, nothing in flight, every byte arrived and read and
      no close at the other end, the handler has been given all of them. */
  lemma {:induction false} ServerHandlesAll(steps: seq<Step>, events: seq<R.Event>)
    requires ValidRun(OPENING, steps)
    requires var s := Run(OPENING, steps);
             !Stopped(s.state) && s.queue == [] && s.outstanding == [] && R.Arrivals(events) == s.flushed
    requires R.NoClose(events) && R.Quiet(R.Run(R.WAITING_FOR_HELLO, events))
    ensures R.Run(R.WAITING_FOR_HELLO, events).handled == R.Gated(WithReuse([], Run(OPENING, steps).accepted))
  {
    hide Run, R.Run, R.Gated, R.Quiet, WithReuse, Frames, Stream;
    var s := Run(OPENING, steps);
    var core := Core(Connecting, "", 0, 0, 0);
    SenderSafety(core, steps);
    assert s.completed + [] + [] == s.completed;
    E.ConcatEncoded(s.accepted);
    assert Stream(s.accepted) + [] == Stream(s.accepted);
    FramesOfStream(s.accepted, []);
    NoFrames();
    assert s.accepted + [] == s.accepted;
    assert Concat([s.flushed]) == s.flushed + [] == s.flushed;
    R.ReadersAgree((m: Msg) => OtherPacket(m.kind, m.body), core, events, [s.flushed]);
  }

  lemma NoFrames()
    ensures Frames([]) == []
  {
  }

  /** The whole way: once an undisturbed run has emptied the queue and every byte has been read,
      the session's handler has been given what the client submitted, bodies reused, provided
      that begins with a handshake; and it is just that iff no empty body follows a full one. */
  lemma {:induction false} ServerHandlesAllSubmitted(steps: seq<Step>, events: seq<R.Event>)
    requires ValidRun(OPENING, steps) && Undisturbed(steps)
    requires var s := Run(OPENING, steps);
             s.posted == [] && s.queue == [] && s.outstanding == [] && R.Arrivals(events) == s.flushed
    requires R.NoClose(events) && R.Quiet(R.Run(R.WAITING_FOR_HELLO, events))
    ensures var submitted := Submitted(steps, false);
            var handled := R.Run(R.WAITING_FOR_HELLO, events).handled;
            if submitted != [] && submitted[0].kind != HANDSHAKE then handled == []
            else
              && handled == WithReuse([], submitted)
              && (handled == submitted <==> EmptyBodiesFirst(submitted))
  {
    hide Run, R.Run, R.Quiet, WithReuse, EmptyBodiesFirst, Submitted;
    var s, submitted := Run(OPENING, steps), Submitted(steps, false);
    AllSubmittedIsAccepted(OPENING, steps);
    assert s.accepted + [] == s.accepted && [] + [] + submitted == submitted;
    ServerHandlesAll(steps, events);
    ReuseIsHarmlessIff(submitted);
    if submitted == [] {
      ReusesNothing();
    } else {
      R.ReuseKeepsKind([], submitted);
      ReuseIsNonEmpty(submitted);
    }
  }

  lemma ReusesNothing()
    ensures WithReuse([], []) == []
  {
  }

  lemma {:induction false} ReuseIsNonEmpty(ms: seq<Msg>)
    requires ms != []
    ensures WithReuse([], ms) != []
  {
  }
}
