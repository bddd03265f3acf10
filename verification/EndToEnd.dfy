/**
  One direction of a connection, end to end: posted sends, the session's write queue, a
  reliable byte pipe that may split the stream anywhere, and the client's reassembly loop;
  with every interleaving of sends, partial transmissions, completions, errors and closes.
 */
module EndToEnd {
  import opened Prelude
  import opened Packets
  import opened Wire
  import opened ClientConnection
  import W = SessionWriter

  /** The client reads at most this many bytes at a time. */
  const READ_BUFFER_SIZE := 4096

  /** `sent` counts the bytes of the outstanding write already on the pipe. `reading` says that
      a client read is outstanding. `accepted`, `flushed` and `fed` are histories: messages
      enqueued, bytes ever put on the pipe, bytes ever read from it. */
  datatype System = System(
    posted: seq<Msg>,
    writer: W.Writer,
    accepted: seq<Msg>,
    sent: nat,
    pipe: seq<byte>,
    flushed: seq<byte>,
    client: Reader,
    reading: bool,
    userClosed: bool,
    fed: seq<byte>)

  function Start(core: Core): System {
    System([], W.IDLE, [], 0, [], [], Fresh(core), true, false, [])
  }

  datatype Step =
    | Send(m: Msg)
    | RunPosted
    | Transmit(n: nat)
    | WriteEnds(failed: bool)
    | SessionCloses
    | ClientReads(n: nat)
    | ClientCloses

  predicate Enabled(s: System, step: Step) {
    match step
    case Send(m) => Fits(m) && s.writer.active
    case RunPosted => s.posted != []
    case Transmit(n) => s.writer.outstanding != [] && s.sent + n <= |s.writer.outstanding[0]|
    case WriteEnds(failed) =>
      s.writer.outstanding != [] && (failed || s.sent == |s.writer.outstanding[0]|)
    case SessionCloses => true
    case ClientReads(n) => s.reading && 0 < n <= |s.pipe| && n <= READ_BUFFER_SIZE
    case ClientCloses => true
  }

  function Next(decode: Msg -> Packet, s: System, step: Step): System
    requires Enabled(s, step)
  {
    match step
    case Send(m) => s.(posted := s.posted + [m])
    case RunPosted =>
      var m := s.posted[0];
      s.(posted := s.posted[1..],
         writer := W.Push(s.writer, Frame(m)),
         accepted := if s.writer.active then s.accepted + [m] else s.accepted)
    case Transmit(n) =>
      var bytes := s.writer.outstanding[0][s.sent..s.sent + n];
      s.(sent := s.sent + n, pipe := s.pipe + bytes, flushed := s.flushed + bytes)
    case WriteEnds(failed) => s.(writer := W.HandleWrite(s.writer, failed), sent := 0)
    case SessionCloses => s.(writer := W.Close(s.writer))
    case ClientReads(n) =>
      var client := Feed(decode, s.client, s.pipe[..n]);
      s.(client := client, reading := !Stopped(client.core.conn),
         pipe := s.pipe[n..], fed := s.fed + s.pipe[..n])
    case ClientCloses =>
      s.(client := s.client.(core := s.client.core.(conn := Disconnected)), userClosed := true)
  }

  ghost predicate ValidRun(decode: Msg -> Packet, s: System, steps: seq<Step>)
    decreases steps
  {
    steps == [] || (Enabled(s, steps[0]) && ValidRun(decode, Next(decode, s, steps[0]), steps[1..]))
  }

  ghost function Run(decode: Msg -> Packet, s: System, steps: seq<Step>): System
    requires ValidRun(decode, s, steps)
    decreases steps
  {
    if steps == [] then s else Run(decode, Next(decode, s, steps[0]), steps[1..])
  }

  // ---------------------------------------------------------------- invariant

  function Encoded(ms: seq<Msg>): (e: seq<seq<byte>>)
    ensures |e| == |ms|
  {
    seq(|ms|, i requires 0 <= i < |ms| => Frame(ms[i]))
  }

  lemma {:induction false} ConcatEncoded(ms: seq<Msg>)
    ensures Concat(Encoded(ms)) == Stream(ms)
  {
    hide Frame;
    if ms != [] {
      ConcatEncoded(ms[1..]);
      assert Encoded(ms)[1..] == Encoded(ms[1..]);
    }
  }

  ghost predicate WriterInv(s: System) {
    && W.Inv(s.writer)
    && AllFit(s.accepted)
    && AllFit(s.posted)
    && s.writer.accepted == Encoded(s.accepted)
    && s.flushed <= Stream(s.accepted)
    && (s.writer.outstanding == [] && s.writer.active ==> s.sent == 0 && s.flushed == Concat(s.writer.completed))
    && (s.writer.outstanding != [] ==>
          && s.sent <= |s.writer.outstanding[0]|
          && s.flushed == Concat(s.writer.completed) + s.writer.outstanding[0][..s.sent])
  }

  ghost predicate ClientInv(decode: Msg -> Packet, core: Core, s: System) {
    var whole := Feed(decode, Fresh(core), s.fed);
    && s.flushed == s.fed + s.pipe
    && (!s.userClosed ==> s.client == whole)
    && (s.userClosed ==> Stopped(s.client.core.conn) && s.client.delivered <= whole.delivered)
    && (!Stopped(s.client.core.conn) ==> s.reading)
  }

  /** What is completed and what is in flight is the front of the accepted stream. */
  lemma {:induction false} FlightIsPrefix(w: W.Writer, ms: seq<Msg>, n: nat)
    requires W.Inv(w) && w.accepted == Encoded(ms)
    requires w.outstanding != [] && n <= |w.outstanding[0]|
    ensures Concat(w.completed) + w.outstanding[0][..n] <= Stream(ms)
  {
    ConcatEncoded(ms);
    var front, back := w.completed + w.outstanding, w.accepted[|w.completed| + 1..];
    assert w.accepted == front + back;
    ConcatAppend(front, back);
    ConcatAppend(w.completed, w.outstanding);
    assert Concat(w.outstanding) == w.outstanding[0] + [] == w.outstanding[0];
  }

  lemma RunPostedKeepsInv(decode: Msg -> Packet, s: System)
    requires WriterInv(s) && s.posted != []
    ensures WriterInv(Next(decode, s, RunPosted))
  {
    hide Frame;
    var m := s.posted[0];
    W.PushKeepsInv(s.writer, Frame(m));
    if s.writer.active {
      StreamAppend(s.accepted, [m]);
      assert Encoded(s.accepted + [m]) == Encoded(s.accepted) + [Frame(m)];
      assert AllFit(s.accepted + [m]);
      if s.writer.outstanding == [] {
        assert s.flushed + [] == s.flushed;
      }
    }
  }

  lemma TransmitKeepsInv(decode: Msg -> Packet, s: System, n: nat)
    requires WriterInv(s) && Enabled(s, Transmit(n))
    ensures WriterInv(Next(decode, s, Transmit(n)))
  {
    var data := s.writer.outstanding[0];
    FlightIsPrefix(s.writer, s.accepted, s.sent + n);
    assert data[..s.sent] + data[s.sent..s.sent + n] == data[..s.sent + n];
    Assoc(Concat(s.writer.completed), data[..s.sent], data[s.sent..s.sent + n]);
  }

  lemma WriteEndsKeepsInv(decode: Msg -> Packet, s: System, failed: bool)
    requires WriterInv(s) && Enabled(s, WriteEnds(failed))
    ensures WriterInv(Next(decode, s, WriteEnds(failed)))
  {
    var w := s.writer;
    var data := w.outstanding[0];
    W.HandleWriteKeepsInv(w, failed);
    if !failed {
      assert data[..s.sent] == data;
      ConcatAppend(w.completed, w.outstanding);
      assert w.outstanding == [data] && Concat(w.outstanding) == data + [] == data;
      var w' := W.HandleWrite(w, failed);
      assert w'.completed == w.completed + w.outstanding;
      if w'.outstanding != [] {
        assert s.flushed + w'.outstanding[0][..0] == s.flushed;
      }
    }
  }

  lemma WriterStepKeepsInv(decode: Msg -> Packet, s: System, step: Step)
    requires WriterInv(s) && Enabled(s, step)
    ensures WriterInv(Next(decode, s, step))
  {
    hide Frame, Stream;
    match step
    case RunPosted => RunPostedKeepsInv(decode, s);
    case Transmit(n) => TransmitKeepsInv(decode, s, n);
    case WriteEnds(failed) => WriteEndsKeepsInv(decode, s, failed);
    case _ =>
  }

  lemma FeedExtends(decode: Msg -> Packet, r: Reader, a: seq<byte>, b: seq<byte>)
    ensures Feed(decode, r, a).delivered <= Feed(decode, r, a + b).delivered
  {
    var mid := Feed(decode, r, a);
    FeedTwice(decode, r, a, b);
    DrainDelivers(decode, mid.(partial := mid.partial + b));
  }

  lemma StoppedDeliversNothing(decode: Msg -> Packet, r: Reader, chunk: seq<byte>)
    requires Stopped(r.core.conn)
    ensures Feed(decode, r, chunk).delivered == r.delivered
    ensures Feed(decode, r, chunk).core == r.core
  {
  }

  lemma ClientStepKeepsInv(decode: Msg -> Packet, core: Core, s: System, step: Step)
    requires ClientInv(decode, core, s) && Enabled(s, step)
    ensures ClientInv(decode, core, Next(decode, s, step))
  {
    hide Drain, Frame, W.HandleWrite, W.Push, W.Close;
    match step
    case Transmit(n) =>
      Assoc(s.fed, s.pipe, s.writer.outstanding[0][s.sent..s.sent + n]);
    case ClientReads(n) =>
      var chunk := s.pipe[..n];
      assert s.pipe == chunk + s.pipe[n..];
      Assoc(s.fed, chunk, s.pipe[n..]);
      FeedTwice(decode, Fresh(core), s.fed, chunk);
      FeedExtends(decode, Fresh(core), s.fed, chunk);
      if s.userClosed {
        StoppedDeliversNothing(decode, s.client, chunk);
      }
    case _ =>
  }

  lemma {:induction false} RunKeepsInv(decode: Msg -> Packet, core: Core, s: System, steps: seq<Step>)
    requires WriterInv(s) && ClientInv(decode, core, s) && ValidRun(decode, s, steps)
    ensures WriterInv(Run(decode, s, steps)) && ClientInv(decode, core, Run(decode, s, steps))
    decreases steps
  {
    hide WriterInv, ClientInv, Next, Enabled;
    if steps != [] {
      WriterStepKeepsInv(decode, s, steps[0]);
      ClientStepKeepsInv(decode, core, s, steps[0]);
      RunKeepsInv(decode, core, Next(decode, s, steps[0]), steps[1..]);
    }
  }

  lemma StartInv(decode: Msg -> Packet, core: Core)
    ensures WriterInv(Start(core)) && ClientInv(decode, core, Start(core))
  {
    DrainIsIdempotentOnEmpty(decode, Fresh(core));
  }

  // ---------------------------------------------------------------- delivery

  lemma {:induction false} ReusePrefix(a: seq<Msg>, b: seq<Msg>)
    requires a <= b
    ensures WithReuse([], a) <= WithReuse([], b)
  {
    assert b == a + b[|a|..];
    WithReuseAppend([], a, b[|a|..]);
  }

  lemma {:induction false} FedDelivers(decode: Msg -> Packet, core: Core, fed: seq<byte>)
    ensures var r := Feed(decode, Fresh(core), fed);
            var seen := WithReuse([], Frames(fed));
            && r.delivered == Handled(decode, core, seen)
            && (!Stopped(r.core.conn) ==> r.delivered == seen)
  {
    StreamOfFrames(fed);
    Reassembly(decode, core, [fed], Frames(fed), Remainder(fed));
    assert Concat([fed]) == fed + [] == fed;
    FeedAllOne(decode, Fresh(core), fed);
  }

  lemma {:induction false} FeedAllOne(decode: Msg -> Packet, r: Reader, chunk: seq<byte>)
    ensures FeedAll(decode, r, [chunk]) == Feed(decode, r, chunk)
  {
    assert [chunk][1..] == [];
  }

  /** Safety over every run: the messages the client has handled are the front of those the
      session accepted for sending, in order, none lost in between, none twice (a message
      sent with an empty body showing the body before it). */
  lemma {:induction false} DeliveredIsPrefix(decode: Msg -> Packet, core: Core, steps: seq<Step>)
    requires ValidRun(decode, Start(core), steps)
    ensures var s := Run(decode, Start(core), steps);
            s.client.delivered <= WithReuse([], s.accepted)
  {
    StartInv(decode, core);
    RunKeepsInv(decode, core, Start(core), steps);
    InvDeliversPrefix(decode, core, Run(decode, Start(core), steps));
  }

  lemma {:induction false} InvDeliversPrefix(decode: Msg -> Packet, core: Core, s: System)
    requires WriterInv(s) && ClientInv(decode, core, s)
    ensures s.client.delivered <= WithReuse([], s.accepted)
  {
    FedDelivers(decode, core, s.fed);
    FramesOfStreamPrefix(s.fed, s.accepted);
    ReusePrefix(Frames(s.fed), s.accepted);
  }

  /** Nothing is queued, being written or on the pipe. */
  predicate NothingInFlight(s: System) {
    s.writer.queue == [] && s.writer.outstanding == [] && s.pipe == []
  }

  /** Completeness: with the session open, the client running and nothing in flight, every
      accepted message has been handled. */
  lemma {:induction false} AllDelivered(decode: Msg -> Packet, core: Core, steps: seq<Step>)
    requires ValidRun(decode, Start(core), steps)
    ensures var s := Run(decode, Start(core), steps);
            s.writer.active && !Stopped(s.client.core.conn) && NothingInFlight(s) ==>
              && s.client.delivered == WithReuse([], s.accepted)
              && (s.client.delivered == s.accepted <==> EmptyBodiesFirst(s.accepted))
  {
    StartInv(decode, core);
    RunKeepsInv(decode, core, Start(core), steps);
    var s := Run(decode, Start(core), steps);
    if s.writer.active && !Stopped(s.client.core.conn) && NothingInFlight(s) {
      assert s.fed + [] == s.fed;
      assert s.writer.completed + [] + [] == s.writer.completed;
      ConcatEncoded(s.accepted);
      assert s.fed == Stream(s.accepted);
      assert Stream(s.accepted) + [] == Stream(s.accepted);
      FramesOfStream(s.accepted, []);
      assert s.accepted + [] == s.accepted;
      FedDelivers(decode, core, s.fed);
      ReuseIsHarmlessIff(s.accepted);
    }
  }

  /** The messages the application gave to an open session. */
  function Sent(steps: seq<Step>): seq<Msg>
    decreases steps
  {
    if steps == [] then []
    else (match steps[0] case Send(m) => [m] case _ => []) + Sent(steps[1..])
  }

  /** The session meets no close and no failed write. */
  predicate Undisturbed(steps: seq<Step>) {
    forall i :: 0 <= i < |steps| ==> steps[i] != SessionCloses && steps[i] != WriteEnds(true)
  }

  lemma StepAccepts(decode: Msg -> Packet, s: System, step: Step)
    requires Enabled(s, step) && s.writer.active && Undisturbed([step])
    ensures var r := Next(decode, s, step);
            r.writer.active && r.accepted + r.posted == s.accepted + s.posted + Sent([step])
  {
    hide Frame, Feed;
    assert [step][0] == step && [step][1..] == [];
    match step
    case Send(m) =>
      Assoc(s.accepted, s.posted, [m]);
    case RunPosted =>
      assert s.posted == [s.posted[0]] + s.posted[1..];
      Assoc(s.accepted, [s.posted[0]], s.posted[1..]);
    case _ =>
  }

  /** Over every undisturbed run the messages accepted, followed by those still posted, are
      exactly those given to the session, in order. */
  lemma {:induction false} AllSentIsAccepted(decode: Msg -> Packet, s: System, steps: seq<Step>)
    requires ValidRun(decode, s, steps) && s.writer.active && Undisturbed(steps)
    ensures var r := Run(decode, s, steps);
            r.writer.active && r.accepted + r.posted == s.accepted + s.posted + Sent(steps)
    decreases steps
  {
    hide Next, Enabled, Undisturbed, Sent;
    if steps == [] {
      NothingSent();
      assert s.accepted + s.posted + [] == s.accepted + s.posted;
    } else {
      UndisturbedParts(steps);
      StepAccepts(decode, s, steps[0]);
      AllSentIsAccepted(decode, Next(decode, s, steps[0]), steps[1..]);
      SentFirst(steps);
      Assoc(s.accepted + s.posted, Sent([steps[0]]), Sent(steps[1..]));
    }
  }

  lemma UndisturbedParts(steps: seq<Step>)
    requires steps != [] && Undisturbed(steps)
    ensures Undisturbed([steps[0]]) && Undisturbed(steps[1..])
  {
  }

  lemma NothingSent()
    ensures Sent([]) == []
  {
  }

  lemma {:induction false} SentFirst(steps: seq<Step>)
    requires steps != []
    ensures Sent(steps) == Sent([steps[0]]) + Sent(steps[1..])
  {
    assert [steps[0]][1..] == [];
  }

  /** What was sent is handled: after an undisturbed run with the client still running, nothing
      posted and nothing in flight, the client has handled every message sent, bodies reused. */
  lemma {:induction false} AllSentIsDelivered(decode: Msg -> Packet, core: Core, steps: seq<Step>)
    requires ValidRun(decode, Start(core), steps) && Undisturbed(steps)
    requires var s := Run(decode, Start(core), steps);
             !Stopped(s.client.core.conn) && s.posted == [] && NothingInFlight(s)
    ensures var delivered := Run(decode, Start(core), steps).client.delivered;
            && delivered == WithReuse([], Sent(steps))
            && (delivered == Sent(steps) <==> EmptyBodiesFirst(Sent(steps)))
  {
    hide Run, WithReuse, EmptyBodiesFirst, Sent;
    var s := Run(decode, Start(core), steps);
    AllSentIsAccepted(decode, Start(core), steps);
    assert s.accepted + [] == s.accepted && [] + [] + Sent(steps) == Sent(steps);
    AllDelivered(decode, core, steps);
  }

  /** No wake-up is lost anywhere on the way: while the session is open and the client running,
      either everything accepted has been read or some part of the system can move. */
  lemma {:induction false} NeverStuck(decode: Msg -> Packet, core: Core, steps: seq<Step>)
    requires ValidRun(decode, Start(core), steps)
    ensures var s := Run(decode, Start(core), steps);
            s.writer.active && !Stopped(s.client.core.conn) && s.fed != Stream(s.accepted) ==>
              || Enabled(s, ClientReads(1))
              || Enabled(s, WriteEnds(false))
              || Enabled(s, Transmit(1))
  {
    StartInv(decode, core);
    RunKeepsInv(decode, core, Start(core), steps);
    var s := Run(decode, Start(core), steps);
    if s.writer.active && s.writer.outstanding == [] && s.pipe == [] {
      assert s.fed + [] == s.fed;
      assert s.writer.completed + [] + [] == s.writer.completed;
      ConcatEncoded(s.accepted);
    }
  }
}
