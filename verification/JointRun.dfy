/**
  The server and one client's connection in one run: what the server sends the client's session
  is posted on the connection, a close at either place is a close at the other. Names agree
  over the whole of it.
 */
module JointRun {
  import opened Prelude
  import opened Packets
  import opened Authority
  import opened AuthorityProofs
  import opened ClientConnection
  import opened NameAgreement
  import opened Wire
  import E = EndToEnd
  import W = SessionWriter

  datatype Joint = Joint(server: Server, wire: E.System)

  function JointStart(password: string, tree: Option<seq<byte>>, name: string): Joint {
    Joint(Started(password, tree), E.Start(Connects(name)))
  }

  /** A packet that is written into a message with a body and read back from it. */
  predicate Sendable(encode: Packet -> Msg, decode: Msg -> Packet, p: Packet) {
    decode(encode(p)) == p && Fits(encode(p)) && encode(p).body != []
  }

  predicate AllSendable(encode: Packet -> Msg, decode: Msg -> Packet, ps: seq<Packet>) {
    forall i :: 0 <= i < |ps| ==> Sendable(encode, decode, ps[i])
  }

  function Encoded(encode: Packet -> Msg, ps: seq<Packet>): (ms: seq<Msg>)
    ensures |ms| == |ps|
  {
    seq(|ps|, i requires 0 <= i < |ps| => encode(ps[i]))
  }

  /** An active session posts what it is told to send, message by message. */
  function Posted(decode: Msg -> Packet, t: E.System, ms: seq<Msg>): E.System
    requires forall i :: 0 <= i < |ms| ==> Fits(ms[i])
    decreases ms
  {
    if ms == [] || !t.writer.active then t else Posted(decode, E.Next(decode, t, E.Send(ms[0])), ms[1..])
  }

  datatype JointStep = AtServer(step: Step) | OnTheWire(event: E.Step)

  /** Messages are sent and the session is closed by the server; everything else on the
      connection happens once the session has been accepted. Any other step changes nothing. */
  predicate JointEnabled(encode: Packet -> Msg, decode: Msg -> Packet, id: uint32, j: Joint, step: JointStep) {
    match step
    case AtServer(st) => AllSendable(encode, decode, Inbox(Added(j.server, st), id))
    case OnTheWire(e) => id in j.server.info && !e.Send? && !e.SessionCloses? && E.Enabled(j.wire, e)
  }

  function JointNext(encode: Packet -> Msg, decode: Msg -> Packet, id: uint32, j: Joint, step: JointStep): Joint {
    if !JointEnabled(encode, decode, id, j, step) then j
    else
      match step
      case AtServer(st) =>
        var s, sent := Next(j.server, st), Inbox(Added(j.server, st), id);
        assert forall i :: 0 <= i < |sent| ==> Sendable(encode, decode, sent[i]);
        var t := Posted(decode, j.wire, Encoded(encode, sent));
        Joint(s, if id in s.info && !s.info[id].active then E.Next(decode, t, E.SessionCloses) else t)
      case OnTheWire(e) =>
        var t := E.Next(decode, j.wire, e);
        Joint(if t.writer.active then j.server else Next(j.server, SessionCloses(id)), t)
  }

  function JointRun(encode: Packet -> Msg, decode: Msg -> Packet, id: uint32, j: Joint, steps: seq<JointStep>): Joint
    decreases steps
  {
    if steps == [] then j
    else JointRun(encode, decode, id, JointNext(encode, decode, id, j, steps[0]), steps[1..])
  }

  // ---------------------------------------------------------------- invariant

  predicate HaveBodies(ms: seq<Msg>) {
    forall i :: 0 <= i < |ms| ==> ms[i].body != []
  }

  /** Both machines keep what they keep by themselves, agree on whether the session is open, and
      while it is, the connection has been given exactly what the server sent. */
  ghost predicate JointInv(decode: Msg -> Packet, id: uint32, name: string, j: Joint) {
    var s, t := j.server, j.wire;
    && Inv(s) && Agree(s, id, name)
    && E.WriterInv(t) && E.ClientInv(decode, Connects(name), t)
    && HaveBodies(t.accepted) && HaveBodies(t.posted)
    && (if id in s.info then s.info[id].active == t.writer.active
        else t.writer.active && t.accepted + t.posted == [])
    && (t.writer.active ==> Decoded(decode, t.accepted + t.posted) == Inbox(s.log, id))
  }

  lemma LogGrows(s: Server, step: Step)
    ensures s.log <= Next(s, step).log && Next(s, step).log == s.log + Added(s, step)
  {
    hide Next;
    StepGrows(s, step, e => true);
  }

  /** A closed session stays closed. */
  lemma ClosedStaysClosed(s: Server, step: Step, id: uint32)
    requires Inv(s) && Next(s, step).accepts < TWO_TO_THE_32
    requires id in s.info
    ensures id in Next(s, step).info && (!s.info[id].active ==> !Next(s, step).info[id].active)
  {
    hide FromSession, HandleDisconnect;
    if Enabled(s, step) {
      match step
      case AcceptCompletes(admitted) =>
        if admitted { NextIdIsNew(s); }
      case MessageArrives(from, p) => FromSessionKeepsClosed(s, from, p, id);
      case DisconnectReported(from) => DisconnectSets(s, from);
      case _ =>
    }
  }

  lemma FromSessionKeepsClosed(s: Server, from: uint32, p: Packet, id: uint32)
    requires from in s.info && s.info[from].active && id in s.info
    ensures var r := FromSession(s, from, p);
            id in r.info && (!s.info[id].active ==> !r.info[id].active)
  {
    hide ProcessHandshake, ProcessCommand, ProcessLimitedCommand, Send, Broadcast;
    if p.Handshake? {
      HandshakeSets(Greeting(s, from), from, p.payload);
    } else if p.Command? {
      CommandSets(s, from, p.text);
      LimitedCommandSets(s, from, p.text);
    } else {
      OtherPacketSets(s, from, p);
    }
  }

  lemma {:induction false} PostedKeepsInv(decode: Msg -> Packet, core: Core, t: E.System, ms: seq<Msg>)
    requires E.WriterInv(t) && E.ClientInv(decode, core, t)
    requires forall i :: 0 <= i < |ms| ==> Fits(ms[i])
    ensures var r := Posted(decode, t, ms);
            && E.WriterInv(r) && E.ClientInv(decode, core, r)
            && r.writer == t.writer && r.accepted == t.accepted && r.client == t.client
            && r.userClosed == t.userClosed
            && r.posted == if t.writer.active then t.posted + ms else t.posted
    decreases ms
  {
    hide E.WriterInv, E.ClientInv;
    if ms == [] {
      assert t.posted + [] == t.posted;
    } else if t.writer.active {
      var next := E.Next(decode, t, E.Send(ms[0]));
      E.WriterStepKeepsInv(decode, t, E.Send(ms[0]));
      E.ClientStepKeepsInv(decode, core, t, E.Send(ms[0]));
      PostedKeepsInv(decode, core, next, ms[1..]);
      assert t.posted + [ms[0]] + ms[1..] == t.posted + ms;
    }
  }

  lemma {:induction false} EncodedDecodes(encode: Packet -> Msg, decode: Msg -> Packet, ps: seq<Packet>)
    requires AllSendable(encode, decode, ps)
    ensures var ms := Encoded(encode, ps);
            && Decoded(decode, ms) == ps && HaveBodies(ms)
            && forall i :: 0 <= i < |ms| ==> Fits(ms[i])
  {
    assert forall i :: 0 <= i < |ps| ==> Sendable(encode, decode, ps[i]);
  }

  lemma {:induction false} AtServerKeepsInv(encode: Packet -> Msg, decode: Msg -> Packet, id: uint32, name: string,
                                            j: Joint, step: Step)
    requires JointInv(decode, id, name, j) && SaysName(step, id, name)
    requires JointEnabled(encode, decode, id, j, AtServer(step)) && Next(j.server, step).accepts < TWO_TO_THE_32
    ensures JointInv(decode, id, name, JointNext(encode, decode, id, j, AtServer(step)))
  {
    hide Next, Added, Inv, Agree, Inbox, Decoded, Posted, E.WriterInv, E.ClientInv, SaysName, W.Close, AllSendable;
    var s, t, core := j.server, j.wire, Connects(name);
    var sent := Inbox(Added(s, step), id);
    var ms := Encoded(encode, sent);
    EncodedDecodes(encode, decode, sent);
    var posted := Posted(decode, t, ms);
    PostedKeepsInv(decode, core, t, ms);
    E.WriterStepKeepsInv(decode, posted, E.SessionCloses);
    E.ClientStepKeepsInv(decode, core, posted, E.SessionCloses);
    CloseKeepsRest(decode, posted);
    NextKeepsInv(s, step);
    NextKeepsAgree(s, step, id, name);
    LogGrows(s, step);
    InboxAppend(s.log, Added(s, step), id);
    if id in s.info {
      ClosedStaysClosed(s, step, id);
    } else {
      StrangersInbox(s, step, id, name);
    }
    if t.writer.active {
      Assoc(t.accepted, t.posted, ms);
      DecodedAppend(decode, t.accepted + t.posted, ms);
    }
  }

  lemma CloseKeepsRest(decode: Msg -> Packet, t: E.System)
    ensures var r := E.Next(decode, t, E.SessionCloses);
            !r.writer.active && r == t.(writer := r.writer)
  {
  }

  /** A session not yet accepted is sent nothing; once accepted it is open. */
  lemma {:induction false} StrangersInbox(s: Server, step: Step, id: uint32, name: string)
    requires Agree(s, id, name) && id !in s.info
    ensures Inbox(Added(s, step), id) == []
    ensures id in Next(s, step).info ==> Next(s, step).info[id].active
  {
    hide Next, Added;
    StrangerGetsNothing(s, step, id);
    FreshHasNoHello(s, step, id);
    LogGrows(s, step);
    InboxAppend(s.log, Added(s, step), id);
  }

  lemma {:induction false} OnTheWireKeepsInv(encode: Packet -> Msg, decode: Msg -> Packet, id: uint32, name: string,
                                             j: Joint, e: E.Step)
    requires JointInv(decode, id, name, j) && JointEnabled(encode, decode, id, j, OnTheWire(e))
    ensures JointInv(decode, id, name, JointNext(encode, decode, id, j, OnTheWire(e)))
  {
    hide Next, Inv, Agree, Inbox, Decoded, E.WriterInv, E.ClientInv, E.Next;
    var s, t, core := j.server, j.wire, Connects(name);
    var r := E.Next(decode, t, e);
    E.WriterStepKeepsInv(decode, t, e);
    E.ClientStepKeepsInv(decode, core, t, e);
    WireKeepsMessages(decode, t, e);
    if !r.writer.active {
      ClosingSets(s, id);
      NextKeepsInv(s, SessionCloses(id));
      NextKeepsAgree(s, SessionCloses(id), id, name);
    }
  }

  lemma ClosingSets(s: Server, id: uint32)
    requires id in s.info && Inv(s)
    ensures var r := Next(s, SessionCloses(id));
            && r.accepts == s.accepts < TWO_TO_THE_32 && r.log == s.log
            && id in r.info && !r.info[id].active
  {
  }

  /** Apart from sends, nothing on the connection opens it or changes what it has been given. */
  lemma WireKeepsMessages(decode: Msg -> Packet, t: E.System, e: E.Step)
    requires E.Enabled(t, e) && !e.Send? && HaveBodies(t.accepted) && HaveBodies(t.posted)
    ensures var r := E.Next(decode, t, e);
            && HaveBodies(r.accepted) && HaveBodies(r.posted)
            && (r.writer.active ==> t.writer.active && r.accepted + r.posted == t.accepted + t.posted)
  {
    hide Feed, Frame;
    if e.RunPosted? {
      assert t.posted == [t.posted[0]] + t.posted[1..];
      Assoc(t.accepted, [t.posted[0]], t.posted[1..]);
    }
  }

  lemma {:induction false} JointRunKeepsInv(encode: Packet -> Msg, decode: Msg -> Packet, id: uint32, name: string,
                                            j: Joint, steps: seq<JointStep>)
    requires JointInv(decode, id, name, j)
    requires forall i :: 0 <= i < |steps| && steps[i].AtServer? ==> SaysName(steps[i].step, id, name)
    requires JointRun(encode, decode, id, j, steps).server.accepts < TWO_TO_THE_32
    ensures JointInv(decode, id, name, JointRun(encode, decode, id, j, steps))
    decreases steps
  {
    hide JointInv, JointNext, SaysName;
    if steps != [] {
      var next := JointNext(encode, decode, id, j, steps[0]);
      assert forall i :: 0 <= i < |steps[1..]| ==> steps[1..][i] == steps[i + 1];
      AcceptsGrowOnly(encode, decode, id, next, steps[1..]);
      StepKeepsInv(encode, decode, id, name, j, steps[0]);
      JointRunKeepsInv(encode, decode, id, name, next, steps[1..]);
    }
  }

  lemma {:induction false} StepKeepsInv(encode: Packet -> Msg, decode: Msg -> Packet, id: uint32, name: string,
                                        j: Joint, step: JointStep)
    requires JointInv(decode, id, name, j)
    requires step.AtServer? ==> SaysName(step.step, id, name)
    requires JointNext(encode, decode, id, j, step).server.accepts < TWO_TO_THE_32
    ensures JointInv(decode, id, name, JointNext(encode, decode, id, j, step))
  {
    hide JointInv, JointEnabled, SaysName, Next, E.Next, Posted;
    if JointEnabled(encode, decode, id, j, step) {
      match step
      case AtServer(st) => AtServerKeepsInv(encode, decode, id, name, j, st);
      case OnTheWire(e) => OnTheWireKeepsInv(encode, decode, id, name, j, e);
    }
  }

  lemma {:induction false} AcceptsGrowOnly(encode: Packet -> Msg, decode: Msg -> Packet, id: uint32, j: Joint,
                                           steps: seq<JointStep>)
    ensures j.server.accepts <= JointRun(encode, decode, id, j, steps).server.accepts
    decreases steps
  {
    hide JointNext;
    if steps != [] {
      StepAcceptsGrow(encode, decode, id, j, steps[0]);
      AcceptsGrowOnly(encode, decode, id, JointNext(encode, decode, id, j, steps[0]), steps[1..]);
    }
  }

  lemma StepAcceptsGrow(encode: Packet -> Msg, decode: Msg -> Packet, id: uint32, j: Joint, step: JointStep)
    ensures j.server.accepts <= JointNext(encode, decode, id, j, step).server.accepts
  {
    hide Next, E.Next, Posted;
    match step
    case AtServer(st) => AcceptsOnlyGrow(j.server, st);
    case OnTheWire(_) => AcceptsOnlyGrow(j.server, SessionCloses(id));
  }

  lemma JointStartInv(password: string, tree: Option<seq<byte>>, decode: Msg -> Packet, id: uint32, name: string)
    ensures JointInv(decode, id, name, JointStart(password, tree, name))
  {
    hide Inv, Agree, E.WriterInv, E.ClientInv;
    StartedInv(password, tree);
    StartAgrees(password, tree, id, name);
    E.StartInv(decode, Connects(name));
    assert Decoded(decode, []) == [] && Inbox([], id) == [];
  }

  /** In every reachable state of server and connection, for an active session with its one
      handshake accepted: wherever the messages are, handling those the client has not handled
      leaves it connected, under its id, with the server's name for it. */
  lemma {:induction false} NamesAgreeOverTheWire(password: string, tree: Option<seq<byte>>, encode: Packet -> Msg,
                                                 decode: Msg -> Packet, id: uint32, name: string,
                                                 steps: seq<JointStep>)
    requires forall i :: 0 <= i < |steps| && steps[i].AtServer? ==> SaysName(steps[i].step, id, name)
    requires JointRun(encode, decode, id, JointStart(password, tree, name), steps).server.accepts < TWO_TO_THE_32
    ensures var j := JointRun(encode, decode, id, JointStart(password, tree, name), steps);
            var s, t := j.server, j.wire;
            id in s.info && s.info[id].active && s.info[id].greeted && s.info[id].hellos == 1 && !t.userClosed ==>
              && |t.client.delivered| <= |t.accepted + t.posted|
              && var rest := (t.accepted + t.posted)[|t.client.delivered|..];
                 var settled := AfterMessages(t.client.core, Decoded(decode, rest));
                 settled.conn == Connected && settled.name == s.info[id].name && settled.clientId == id
  {
    hide Inv, Agree, E.WriterInv, E.ClientInv, JointRun, JointStart;
    var start := JointStart(password, tree, name);
    JointStartInv(password, tree, decode, id, name);
    JointRunKeepsInv(encode, decode, id, name, start, steps);
    var j := JointRun(encode, decode, id, start, steps);
    if id in j.server.info && j.server.info[id].active && !j.wire.userClosed {
      WireAgrees(j.server, id, name, decode, j.wire);
    }
  }
}
