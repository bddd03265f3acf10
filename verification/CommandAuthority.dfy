/** Exactly which steps change a session's name and role, close it, or stop the server. */
module CommandAuthority {
  import opened Prelude
  import opened Packets
  import opened HostCommands
  import opened Authority
  import opened AuthorityProofs

  /** The arrival of a host command: sent by the host, who holds the Host role. */
  predicate HostSpeaks(s: Server, step: Step) {
    && Enabled(s, step)
    && step.MessageArrives? && step.packet.Command?
    && step.id == s.host && s.info[step.id].role == Host
  }

  /** The arrival of a readable handshake with the right password. */
  predicate AcceptedHello(s: Server, step: Step) {
    && Enabled(s, step)
    && step.MessageArrives? && step.packet.Handshake? && step.packet.payload.Some?
    && Authenticated(s, step.packet.payload.value)
  }

  predicate Kicks(s: Server, step: Step, id: uint32) {
    HostSpeaks(s, step) && Parse(step.packet.text) == Kick(id) && id in s.listed && id != s.host
  }

  predicate RefusedHello(s: Server, step: Step, id: uint32) {
    && Enabled(s, step) && step.MessageArrives? && step.packet.Handshake? && step.id == id
    && !AcceptedHello(s, step)
  }

  predicate StopsListed(s: Server, step: Step, id: uint32) {
    step.StopRuns? && s.status == Running && id in s.listed
  }

  /** Any effect but one. */
  function Except(e: Effect): Effect -> bool {
    x => x != e
  }

  lemma ExceptAllowsSending(s: Server, e: Effect)
    requires !e.Sent?
    ensures AllowsNotices(s, Except(e))
    ensures forall p: Packet :: AllowsSending(s, Except(e), p)
  {
  }

  lemma NotAdded(s: Server, step: Step, e: Effect)
    requires Grows(s, Next(s, step), Except(e))
    ensures e !in Added(s, step)
  {
    hide Next;
  }

  lemma LastIsAdded(s: Server, step: Step, e: Effect)
    requires |s.log| < |Next(s, step).log| && s.log <= Next(s, step).log
    requires Next(s, step).log[|Next(s, step).log| - 1] == e
    ensures e in Added(s, step)
  {
    hide Next;
    var log := Next(s, step).log;
    assert log[|s.log|..][|log| - 1 - |s.log|] == e;
  }

  /** A session is asked to close exactly when the host kicks it, its own handshake is refused,
      or the server stops while it is listed. */
  lemma ClosesExactly(s: Server, step: Step, id: uint32)
    requires Inv(s)
    ensures CloseRequested(id) in Added(s, step) <==>
              Kicks(s, step, id) || RefusedHello(s, step, id) || StopsListed(s, step, id)
  {
    hide ProcessHandshake, ProcessCommand, ProcessLimitedCommand, HandleDisconnect, Stop, Inv, Parse;
    var e := CloseRequested(id);
    if !Enabled(s, step) {
      assert Added(s, step) == [];
    } else if step.MessageArrives? && step.packet.Handshake? {
      HelloCloses(s, step.id, step.packet.payload, id);
    } else if step.MessageArrives? && step.packet.Command? {
      CommandCloses(s, step.id, step.packet.text, id);
    } else if step.StopRuns? {
      StopCloses(s, id);
    } else {
      StepGrowsWithoutClosing(s, step, e);
      NotAdded(s, step, e);
    }
  }

  lemma StepGrowsWithoutClosing(s: Server, step: Step, e: Effect)
    requires !e.Sent? && Enabled(s, step)
    requires !step.StopRuns? && !(step.MessageArrives? && (step.packet.Handshake? || step.packet.Command?))
    ensures Grows(s, Next(s, step), Except(e))
  {
    hide HandleDisconnect, Broadcast;
    var allowed := Except(e);
    ExceptAllowsSending(s, e);
    match step
    case MessageArrives(id, Chat(data)) => BroadcastGrows(s, Everyone, Chat(data), allowed);
    case MessageArrives(id, Input(ok, data)) => BroadcastGrows(s, Receivers(true), Input(ok, data), allowed);
    case MessageArrives(id, FileUpload(saved)) => UploadGrows(s, saved, allowed);
    case MessageArrives(id, FileRequest(found, answer)) => SendGrows(s, id, FileReply(found, answer), allowed);
    case DisconnectReported(id) => DisconnectGrows(s, id, allowed);
    case _ =>
  }

  lemma HelloCloses(s: Server, from: uint32, payload: Option<HandshakePayload>, id: uint32)
    requires from in s.info && s.info[from].active
    ensures var step := MessageArrives(from, Handshake(payload));
            CloseRequested(id) in Added(s, step) <==> RefusedHello(s, step, id)
  {
    hide ProcessHandshake, Welcome, Admit;
    var step := MessageArrives(from, Handshake(payload));
    var greeting := Greeting(s, from);
    var e: Effect := CloseRequested(id);
    assert Next(s, step) == ProcessHandshake(greeting, from, payload);
    ExceptAllowsSending(greeting, e);
    if AcceptedHello(s, step) {
      AcceptedGrows(greeting, from, payload.value, Except(e));
      NotAdded(s, step, e);
    } else if from == id {
      RefusedAsksClose(greeting, from, payload);
      LastIsAdded(s, step, e);
    } else {
      HandshakeGrows(greeting, from, payload, Except(e));
      NotAdded(s, step, e);
    }
  }

  lemma AcceptedGrows(s: Server, id: uint32, h: HandshakePayload, allowed: Effect -> bool)
    requires id in s.info && Authenticated(s, h)
    requires forall x: Effect :: x.Sent? ==> allowed(x)
    ensures Grows(s, ProcessHandshake(s, id, Some(h)), allowed)
  {
    hide Welcome, Admit;
    AdmitSets(s, id, h);
    assert AllowsNotices(Admit(s, id, h), allowed);
    WelcomeGrows(Admit(s, id, h), id, allowed);
  }

  lemma RefusedAsksClose(s: Server, id: uint32, payload: Option<HandshakePayload>)
    requires id in s.info && (payload.None? || !Authenticated(s, payload.value))
    ensures var r := ProcessHandshake(s, id, payload);
            |s.log| < |r.log| && s.log <= r.log && r.log[|r.log| - 1] == CloseRequested(id)
  {
    hide Sends;
  }

  lemma CommandCloses(s: Server, from: uint32, text: string, id: uint32)
    requires Inv(s) && from in s.info && s.info[from].active
    ensures var step := MessageArrives(from, Command(text));
            CloseRequested(id) in Added(s, step) <==> Kicks(s, step, id)
  {
    hide ProcessLimitedCommand, Parse, Send, Broadcast;
    var step := MessageArrives(from, Command(text));
    var e: Effect := CloseRequested(id);
    var allowed := Except(e);
    ExceptAllowsSending(s, e);
    if Kicks(s, step, id) {
      HostIsComplete(s);
      LastIsAdded(s, step, e);
    } else {
      LimitedCommandGrows(s, from, text, allowed);
      if s.info[from].role == Host {
        if Parse(text) == Kick(id) {
          assert ProcessCommand(s, from, text).log == s.log;
        } else {
          CommandGrows(s, from, text, allowed);
        }
      }
      NotAdded(s, step, e);
    }
  }

  lemma HostIsComplete(s: Server)
    requires Inv(s) && s.host in s.info && s.info[s.host].active
    ensures s.info[s.host].appHandshakeComplete
  {
  }

  lemma StopCloses(s: Server, id: uint32)
    ensures CloseRequested(id) in Added(s, StopRuns) <==> StopsListed(s, StopRuns, id)
  {
    var step := StopRuns;
    if s.status == Running {
      var es := CloseRequests(s.listed);
      assert Added(s, step) == es;
      if id in s.listed {
        var i :| 0 <= i < |s.listed| && s.listed[i] == id;
        assert es[i] == CloseRequested(id);
      }
    } else {
      assert Added(s, step) == [];
    }
  }

  /** The server is asked to stop exactly by the host's shutdown command. */
  lemma StopsExactly(s: Server, step: Step)
    requires Inv(s)
    ensures StopRequested in Added(s, step) <==>
              HostSpeaks(s, step) && Parse(step.packet.text) == ShutdownServer
  {
    hide ProcessHandshake, ProcessLimitedCommand, HandleDisconnect, Inv, Parse, Send, Broadcast;
    var e: Effect := StopRequested;
    var allowed := Except(e);
    ExceptAllowsSending(s, e);
    if !Enabled(s, step) {
      assert Added(s, step) == [];
    } else {
      match step
      case MessageArrives(id, Handshake(payload)) =>
        var greeting := Greeting(s, id);
        HandshakeGrows(greeting, id, payload, allowed);
        NotAdded(s, step, e);
      case MessageArrives(id, Command(text)) =>
        LimitedCommandGrows(s, id, text, allowed);
        if Parse(text) == ShutdownServer {
          ShutdownStops(s, id, text);
        } else {
          CommandGrows(s, id, text, allowed);
          NotAdded(s, step, e);
        }
      case StopRuns => StopAddsCloses(s);
      case _ =>
        StepGrowsWithoutClosing(s, step, e);
        NotAdded(s, step, e);
    }
  }

  lemma StopAddsCloses(s: Server)
    ensures StopRequested !in Added(s, StopRuns)
  {
    assert Added(s, StopRuns) == if s.status == Running then CloseRequests(s.listed) else [];
  }

  lemma ShutdownStops(s: Server, from: uint32, text: string)
    requires Inv(s) && from in s.info && s.info[from].active && Parse(text) == ShutdownServer
    ensures var step := MessageArrives(from, Command(text));
            StopRequested in Added(s, step) <==> HostSpeaks(s, step)
  {
    hide ProcessLimitedCommand, Parse, Send, Broadcast;
    var step := MessageArrives(from, Command(text));
    var e: Effect := StopRequested;
    var allowed := Except(e);
    ExceptAllowsSending(s, e);
    var p := Command("server_shutdown_imminent");
    BroadcastGrows(s, Everyone, p, allowed);
    LimitedCommandGrows(s, from, text, allowed);
    if HostSpeaks(s, step) {
      HostIsComplete(s);
      LastIsAdded(s, step, e);
    } else {
      NotAdded(s, step, e);
    }
  }

  // ---------------------------------------------------------------- lists and flags

  /** The steps that send or record but list and close nobody. */
  lemma MessageKeepsLists(s: Server, from: uint32, p: Packet)
    requires from in s.info && s.info[from].active
    ensures var r := FromSession(s, from, p);
            && r.listed == s.listed && r.status == s.status && r.accepting == s.accepting && r.nextId == s.nextId
            && r.info.Keys == s.info.Keys
            && forall x :: x in s.info ==>
                 && r.info[x].left == s.info[x].left
                 && (r.info[x].active <==>
                       s.info[x].active && (x == from ==> p.Handshake? || s.info[x].appHandshakeComplete))
                 && (r.info[x].appHandshakeComplete <==>
                       s.info[x].appHandshakeComplete || (x == from && p.Handshake?))
  {
    hide FromSession, Commanded, GrantedRole, Authenticated;
    match p
    case Handshake(payload) => HelloKeepsLists(s, from, payload);
    case Command(text) =>
      CommandMessageSets(s, from, text);
      CommandedKeepsFlags(s, text);
    case _ => OtherPacketSets(s, from, p);
  }

  lemma HelloKeepsLists(s: Server, from: uint32, payload: Option<HandshakePayload>)
    requires from in s.info && s.info[from].active
    ensures var r := FromSession(s, from, Handshake(payload));
            && r.listed == s.listed && r.status == s.status && r.accepting == s.accepting && r.nextId == s.nextId
            && r.sharedTree == s.sharedTree
            && r.info.Keys == s.info.Keys
            && forall x :: x in s.info ==>
                 && r.info[x].left == s.info[x].left && r.info[x].active == s.info[x].active
                 && (r.info[x].appHandshakeComplete <==> s.info[x].appHandshakeComplete || x == from)
  {
    hide ProcessHandshake, GrantedRole, Authenticated;
    HandshakeSets(Greeting(s, from), from, payload);
  }

  lemma CommandedKeepsFlags(s: Server, text: string)
    ensures var info := Commanded(s, text);
            && info.Keys == s.info.Keys
            && forall x :: x in s.info ==>
                 && info[x].left == s.info[x].left && info[x].active == s.info[x].active
                 && info[x].appHandshakeComplete == s.info[x].appHandshakeComplete
  {
    hide Parse;
  }

  /** A session is listed from its acceptance until its disconnect is handled or the server
      stops. */
  lemma ListedExactly(s: Server, step: Step, id: uint32)
    requires Inv(s)
    ensures id in Next(s, step).listed <==>
              && (id in s.listed || (Enabled(s, step) && step == AcceptCompletes(true) && id == s.nextId))
              && !(Enabled(s, step) && step == DisconnectReported(id))
              && !(step.StopRuns? && s.status == Running)
  {
    hide FromSession, HandleDisconnect, Distinct;
    if Enabled(s, step) {
      match step
      case MessageArrives(from, p) => MessageKeepsLists(s, from, p);
      case DisconnectReported(from) => DisconnectSets(s, from);
      case _ =>
    }
  }

  /** A session is active from its acceptance until it closes or sends something else before
      its first handshake, and complete once it has sent a handshake, for as long as it is
      active. A new one is a receiver that may be sent input. */
  lemma ActiveExactly(s: Server, step: Step, id: uint32)
    requires Inv(s) && Next(s, step).accepts < TWO_TO_THE_32
    ensures id in Next(s, step).info <==>
              id in s.info || (Enabled(s, step) && step == AcceptCompletes(true) && id == s.nextId)
    ensures id in s.info ==>
              var before, after := s.info[id], Next(s, step).info[id];
              var hello := step.MessageArrives? && step.id == id && step.packet.Handshake?;
              var tooSoon := step.MessageArrives? && step.id == id && !hello && !before.appHandshakeComplete;
              && (after.active <==> before.active && !tooSoon && step != SessionCloses(id))
              && (after.appHandshakeComplete <==>
                    after.active && (before.appHandshakeComplete || hello))
              && (after.left <==> before.left || (step == DisconnectReported(id) && !before.active))
    ensures id !in s.info && id in Next(s, step).info ==>
              var newcomer := Next(s, step).info[id];
              && newcomer.name == "UnknownClient" && newcomer.role == Receiver && newcomer.canReceiveInput
              && newcomer.active && !newcomer.appHandshakeComplete && !newcomer.left
  {
    hide FromSession, HandleDisconnect, Distinct;
    if Enabled(s, step) {
      match step
      case MessageArrives(from, p) => MessageKeepsLists(s, from, p);
      case DisconnectReported(from) => DisconnectSets(s, from);
      case _ =>
    }
  }

  /** The server is stopped for good once a stop has run, an accept is outstanding until one
      completes on a stopped server, and the shared tree is that of the last file saved. */
  lemma StatusExactly(s: Server, step: Step)
    requires Inv(s)
    ensures var r := Next(s, step);
            && (r.status == Stopped <==> s.status == Stopped || step.StopRuns?)
            && (r.accepting <==> s.accepting && (step.AcceptCompletes? ==> s.status == Running))
            && r.sharedTree == if Enabled(s, step) && step.MessageArrives? && step.packet.FileUpload?
                                  && s.info[step.id].appHandshakeComplete && step.packet.saved.Some?
                               then Some(step.packet.saved.value.tree) else s.sharedTree
  {
    hide FromSession, HandleDisconnect, Distinct;
    if Enabled(s, step) {
      match step
      case MessageArrives(from, Handshake(payload)) => HelloKeepsLists(s, from, payload);
      case MessageArrives(from, Command(text)) => CommandMessageSets(s, from, text);
      case MessageArrives(from, p) =>
        MessageKeepsLists(s, from, p);
        TreeAfter(s, from, p);
      case DisconnectReported(from) => DisconnectSets(s, from);
      case _ =>
    }
  }

  lemma TreeAfter(s: Server, from: uint32, p: Packet)
    requires from in s.info && s.info[from].active && !p.Handshake? && !p.Command?
    ensures FromSession(s, from, p).sharedTree
            == if p.FileUpload? && s.info[from].appHandshakeComplete && p.saved.Some?
               then Some(p.saved.value.tree) else s.sharedTree
  {
    hide Sends, Recipients;
  }

  // ---------------------------------------------------------------- records

  lemma CommandMessageSets(s: Server, from: uint32, text: string)
    requires from in s.info && s.info[from].active
    ensures var r := FromSession(s, from, Command(text));
            r == if !s.info[from].appHandshakeComplete then Close(s, from)
                 else s.(info := if s.info[from].role == Host && from == s.host then Commanded(s, text) else s.info,
                         log := r.log)
  {
    hide ProcessCommand, ProcessLimitedCommand, Commanded;
    CommandSets(s, from, text);
    LimitedCommandSets(s, from, text);
  }

  /** A session's name changes exactly so: to the host's choice when it renames a listed
      session, and to the client's own on its accepted handshake. */
  lemma NameChangesExactly(s: Server, step: Step, id: uint32)
    requires Inv(s) && Next(s, step).accepts < TWO_TO_THE_32 && id in s.info
    ensures id in Next(s, step).info
    ensures Next(s, step).info[id].name ==
            if AcceptedHello(s, step) && step.id == id then step.packet.payload.value.clientName
            else if HostSpeaks(s, step) && Parse(step.packet.text).Rename?
                    && Parse(step.packet.text).id == id && id in s.listed
            then Parse(step.packet.text).name
            else s.info[id].name
  {
    hide FromSession, HandleDisconnect, Parse, Authenticated, Distinct;
    if Enabled(s, step) {
      match step
      case MessageArrives(from, Handshake(payload)) => HelloNames(s, from, payload, id);
      case MessageArrives(from, Command(text)) =>
        CommandMessageSets(s, from, text);
        if from == s.host { HostIsComplete(s); }
      case MessageArrives(from, p) => OtherPacketSets(s, from, p);
      case DisconnectReported(from) => DisconnectSets(s, from);
      case _ =>
    }
  }

  lemma HelloNames(s: Server, from: uint32, payload: Option<HandshakePayload>, id: uint32)
    requires from in s.info && s.info[from].active && id in s.info
    ensures var r := FromSession(s, from, Handshake(payload));
            && id in r.info
            && r.info[id].name == if payload.Some? && Authenticated(s, payload.value) && from == id
                                  then payload.value.clientName else s.info[id].name
  {
    hide ProcessHandshake, GrantedRole;
    var greeting := Greeting(s, from);
    HandshakeSets(greeting, from, payload);
  }

  /** A session's role changes only on its accepted handshake. It then holds the Host role
      exactly if it asked for it and no other session was host; asking to broadcast without a
      host makes it a receiver. */
  lemma RoleChangesExactly(s: Server, step: Step, id: uint32)
    requires Inv(s) && Next(s, step).accepts < TWO_TO_THE_32 && id in s.info
    ensures id in Next(s, step).info
    ensures var role := Next(s, step).info[id].role;
            if AcceptedHello(s, step) && step.id == id then
              var wanted := step.packet.payload.value.role;
              && (role == Host <==> wanted == Host && (s.host == 0 || s.host == id))
              && (role == Broadcaster <==> wanted == Broadcaster && s.host != 0)
              && (role != wanted ==> role == Receiver && (wanted == Host || wanted == Broadcaster))
            else role == s.info[id].role
  {
    hide FromSession, HandleDisconnect, Parse, Authenticated, Distinct;
    if Enabled(s, step) {
      match step
      case MessageArrives(from, Handshake(payload)) => HelloRoles(s, from, payload, id);
      case MessageArrives(from, Command(text)) =>
        CommandMessageSets(s, from, text);
      case MessageArrives(from, p) => OtherPacketSets(s, from, p);
      case DisconnectReported(from) => DisconnectSets(s, from);
      case _ =>
    }
  }

  lemma HelloRoles(s: Server, from: uint32, payload: Option<HandshakePayload>, id: uint32)
    requires from in s.info && s.info[from].active && id in s.info
    ensures var r := FromSession(s, from, Handshake(payload));
            && id in r.info
            && r.info[id].role == if payload.Some? && Authenticated(s, payload.value) && from == id
                                  then GrantedRole(s, id, payload.value.role) else s.info[id].role
  {
    hide ProcessHandshake, GrantedRole;
    var greeting := Greeting(s, from);
    HandshakeSets(greeting, from, payload);
    assert forall wanted :: GrantedRole(greeting, from, wanted) == GrantedRole(s, from, wanted) by {
      RoleIgnoresRecords(s, greeting, from);
    }
  }

  lemma RoleIgnoresRecords(s: Server, r: Server, id: uint32)
    requires r.host == s.host
    ensures forall wanted :: GrantedRole(r, id, wanted) == GrantedRole(s, id, wanted)
  {
  }

  // ---------------------------------------------------------------- the host's screen

  /** An accepted handshake that leaves its sender host. */
  predicate HostHello(s: Server, step: Step) {
    && AcceptedHello(s, step)
    && step.packet.payload.value.role == Host
    && (s.host == 0 || s.host == step.id)
  }

  /** The sender and screen of the last such handshake of a run. */
  function LastHostHello(start: Server, steps: seq<Step>): Option<(uint32, nat, nat)> {
    if steps == [] then None
    else
      var init, last := steps[..|steps| - 1], steps[|steps| - 1];
      if HostHello(Run(start, init), last) then
        var h := last.packet.payload.value;
        Some((last.id, h.hostScreenWidth, h.hostScreenHeight))
      else LastHostHello(start, init)
  }

  lemma HelloScreens(s: Server, from: uint32, payload: Option<HandshakePayload>)
    requires from in s.info && s.info[from].active
    ensures var r := FromSession(s, from, Handshake(payload));
            if payload.Some? && Authenticated(s, payload.value) && payload.value.role == Host
               && (s.host == 0 || s.host == from) then
              r.host == from && r.hostScreenWidth == payload.value.hostScreenWidth
              && r.hostScreenHeight == payload.value.hostScreenHeight
            else r.host == s.host
                 && r.hostScreenWidth == s.hostScreenWidth && r.hostScreenHeight == s.hostScreenHeight
  {
    hide ProcessHandshake;
    var greeting := Greeting(s, from);
    HandshakeSets(greeting, from, payload);
  }

  lemma ScreenChangesExactly(s: Server, step: Step)
    requires Inv(s)
    ensures var r := Next(s, step);
            if HostHello(s, step) then
              var h := step.packet.payload.value;
              r.host == step.id && r.hostScreenWidth == h.hostScreenWidth && r.hostScreenHeight == h.hostScreenHeight
            else r.host == 0 || (r.host == s.host && r.hostScreenWidth == s.hostScreenWidth
                                 && r.hostScreenHeight == s.hostScreenHeight)
  {
    hide FromSession, HandleDisconnect, Parse, Authenticated, Distinct;
    if Enabled(s, step) {
      match step
      case MessageArrives(from, Handshake(payload)) => HelloScreens(s, from, payload);
      case MessageArrives(from, Command(text)) => CommandMessageSets(s, from, text);
      case MessageArrives(from, p) => OtherPacketSets(s, from, p);
      case DisconnectReported(from) => DisconnectSets(s, from);
      case _ =>
    }
  }

  /** In every reachable state with a host, the recorded screen is the one the host gave in
      its last handshake as host. */
  lemma {:induction false} HostScreenIsLastGiven(password: string, tree: Option<seq<byte>>, steps: seq<Step>)
    requires Run(Started(password, tree), steps).accepts < TWO_TO_THE_32
    ensures var s := Run(Started(password, tree), steps);
            s.host != 0 ==>
              LastHostHello(Started(password, tree), steps) == Some((s.host, s.hostScreenWidth, s.hostScreenHeight))
    decreases steps
  {
    hide Next, Inv, HostHello;
    var start := Started(password, tree);
    if steps != [] {
      var init := steps[..|steps| - 1];
      AcceptsOnlyGrow(Run(start, init), steps[|steps| - 1]);
      HostScreenIsLastGiven(password, tree, init);
      ServerSafety(password, tree, init);
      ScreenChangesExactly(Run(start, init), steps[|steps| - 1]);
      if HostHello(Run(start, init), steps[|steps| - 1]) {
        HostHelloIsMessage(Run(start, init), steps[|steps| - 1]);
      }
    }
  }

  lemma HostHelloIsMessage(s: Server, step: Step)
    requires HostHello(s, step)
    ensures step.MessageArrives? && step.packet.Handshake? && step.packet.payload.Some?
  {
  }

  // ---------------------------------------------------------------- the host without its role

  /** What a session asked for in its last accepted handshake of a run. */
  function LastAsked(start: Server, steps: seq<Step>, id: uint32): Option<Role> {
    if steps == [] then None
    else
      var init, last := steps[..|steps| - 1], steps[|steps| - 1];
      if AcceptedHello(Run(start, init), last) && last.id == id then Some(last.packet.payload.value.role)
      else LastAsked(start, init, id)
  }

  /** In every reachable state the host holds the Host role, and with it may command, exactly
      if that is what it asked for in its last accepted handshake. */
  lemma {:induction false} HostHoldsRoleIff(password: string, tree: Option<seq<byte>>, steps: seq<Step>)
    requires Run(Started(password, tree), steps).accepts < TWO_TO_THE_32
    ensures var s := Run(Started(password, tree), steps);
            s.host != 0 ==>
              && s.host in s.info
              && (s.info[s.host].role == Host <==> LastAsked(Started(password, tree), steps, s.host) == Some(Host))
    decreases steps
  {
    hide Next, Inv, AcceptedHello, TakesHost;
    var start := Started(password, tree);
    if steps != [] {
      var init, last := steps[..|steps| - 1], steps[|steps| - 1];
      var before := Run(start, init);
      AcceptsOnlyGrow(before, last);
      HostHoldsRoleIff(password, tree, init);
      ServerSafety(password, tree, init);
      HostRoleAfter(before, last);
    }
  }

  /** What one step does to the host's role. */
  lemma HostRoleAfter(s: Server, step: Step)
    requires Inv(s) && Next(s, step).accepts < TWO_TO_THE_32
    ensures var r := Next(s, step);
            r.host != 0 ==>
              && r.host in r.info
              && (if AcceptedHello(s, step) && step.id == r.host
                  then r.info[r.host].role == Host <==> step.packet.payload.value.role == Host
                  else s.host == r.host && r.host in s.info && r.info[r.host].role == s.info[r.host].role)
  {
    hide Next;
    HostChangesExactly(s, step);
    var id := Next(s, step).host;
    if id in s.info {
      RoleChangesExactly(s, step, id);
    }
  }

  /** A host can lose the role: accepted, it asks to be host and then to be a receiver. It
      stays the host, but its commands are no longer the host's. */
  lemma HostCanLoseRole(password: string, tree: Option<seq<byte>>, first: HandshakePayload, second: HandshakePayload)
    requires first.password == password && first.role == Host
    requires second.password == password && second.role == Receiver
    ensures var s := Run(Started(password, tree),
                         [AcceptCompletes(true), MessageArrives(1, Handshake(Some(first))),
                          MessageArrives(1, Handshake(Some(second)))]);
            && s.host == 1 && 1 in s.info && s.info[1].active && s.info[1].role == Receiver
            && forall text :: !HostSpeaks(s, MessageArrives(1, Command(text)))
  {
    hide Run, Welcome, HandleDisconnect, Stop, ProcessCommand;
    var accept, host, receiver :=
      AcceptCompletes(true), MessageArrives(1, Handshake(Some(first))), MessageArrives(1, Handshake(Some(second)));
    var start := Started(password, tree);
    RunThree(start, accept, host, receiver);
    var accepted := Next(start, accept);
    WelcomeSets(Admit(Greeting(accepted, 1), 1, first), 1);
    var hosted := Next(accepted, host);
    assert hosted.host == 1 && hosted.info[1].active && hosted.info[1].role == Host;
    WelcomeSets(Admit(Greeting(hosted, 1), 1, second), 1);
  }

  lemma {:induction false} RunThree(s: Server, a: Step, b: Step, c: Step)
    ensures Run(s, [a, b, c]) == Next(Next(Next(s, a), b), c)
  {
    hide Next;
    RunSnoc(s, [], a);
    RunSnoc(s, [a], b);
    RunSnoc(s, [a, b], c);
    assert [] + [a] == [a] && [a] + [b] == [a, b] && [a, b] + [c] == [a, b, c];
  }

  lemma {:induction false} RunSnoc(s: Server, steps: seq<Step>, step: Step)
    ensures Run(s, steps + [step]) == Next(Run(s, steps), step)
  {
    hide Next;
    assert (steps + [step])[..|steps|] == steps;
  }
}
