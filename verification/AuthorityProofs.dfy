/** What holds of the server in every reachable state, and what single steps can change. */
module AuthorityProofs {
  import opened Prelude
  import opened Packets
  import opened HostCommands
  import opened Authority

  // ---------------------------------------------------------------- host authority

  /** A session whose disconnect is still to be handled. */
  predicate Present(s: Server, id: uint32) {
    id in s.info && !s.info[id].left
  }

  ghost predicate IdsInv(s: Server) {
    && s.accepts < TWO_TO_THE_32
    && s.nextId == (s.accepts + 1) % TWO_TO_THE_32
    && (forall id :: id in s.info ==> 1 <= id <= s.accepts)
    && (forall i :: 0 <= i < |s.listed| ==> Present(s, s.listed[i]))
    && Distinct(s.listed)
  }

  ghost predicate HostInv(s: Server) {
    && (s.host != 0 ==> Present(s, s.host) && s.info[s.host].greeted)
    && (s.host == 0 ==> s.hostScreenWidth == 0 && s.hostScreenHeight == 0)
    && (forall id :: Present(s, id) && s.info[id].role == Host ==> id == s.host)
  }

  ghost predicate SessionsInv(s: Server) {
    forall id :: id in s.info ==>
      && (s.info[id].appHandshakeComplete <==> s.info[id].active && s.info[id].hellos > 0)
      && (s.info[id].left ==> !s.info[id].active)
      && (s.info[id].greeted ==> s.info[id].hellos > 0)
  }

  ghost predicate Inv(s: Server) {
    IdsInv(s) && HostInv(s) && SessionsInv(s)
  }

  lemma AcceptKeepsInv(s: Server, admitted: bool)
    requires Inv(s) && Accept(s, admitted).accepts < TWO_TO_THE_32
    ensures Inv(Accept(s, admitted))
  {
    var r := Accept(s, admitted);
    if s.accepting && admitted {
      assert s.nextId == s.accepts + 1 && s.nextId !in s.info;
    }
  }

  // What the compound handlers do apart from sending.

  lemma WelcomeSets(s: Server, id: uint32)
    requires id in s.info
    ensures var r := Welcome(s, id);
            r == s.(info := s.info[id := s.info[id].(appHandshakeComplete := true)], log := r.log)
  {
    hide Sends, Recipients, Response, JoinedText, ClientListText;
  }

  lemma HandshakeSets(s: Server, id: uint32, payload: Option<HandshakePayload>)
    requires id in s.info
    ensures var r := ProcessHandshake(s, id, payload);
            if payload.Some? && Authenticated(s, payload.value) then
              var admitted := Admit(s, id, payload.value);
              r == admitted.(info := admitted.info[id := admitted.info[id].(appHandshakeComplete := true)],
                             log := r.log)
            else r == s.(log := r.log)
  {
    hide Sends, Welcome, Admit;
    if payload.Some? && Authenticated(s, payload.value) {
      AdmitSets(s, id, payload.value);
      WelcomeSets(Admit(s, id, payload.value), id);
    }
  }

  /** Which records a host command changes, and how. */
  function Commanded(s: Server, text: string): map<uint32, Sess> {
    match Parse(text)
    case Rename(target, name) =>
      if target in s.listed && target in s.info then s.info[target := s.info[target].(name := name)]
      else s.info
    case ToggleInput(target, enabled) =>
      if target in s.listed && target in s.info && s.info[target].role == Receiver then
        s.info[target := s.info[target].(canReceiveInput := enabled)]
      else s.info
    case _ => s.info
  }

  lemma CommandSets(s: Server, id: uint32, text: string)
    requires id in s.info
    ensures var r := ProcessCommand(s, id, text);
            r == s.(info := if id == s.host then Commanded(s, text) else s.info, log := r.log)
  {
    hide Parse, Sends, Recipients, Text.ToString;
  }

  lemma LimitedCommandSets(s: Server, id: uint32, text: string)
    ensures var r := ProcessLimitedCommand(s, id, text); r == s.(log := r.log)
  {
    hide Sends, HostInfo;
  }

  lemma {:induction false} DisconnectSets(s: Server, id: uint32)
    requires id in s.info
    ensures var r := HandleDisconnect(s, id);
            var left := s.(info := s.info[id := s.info[id].(left := true)],
                           listed := Without(s.listed, id), log := r.log);
            r == if id == s.host && s.host != 0
                 then left.(host := 0, hostScreenWidth := 0, hostScreenHeight := 0) else left
  {
    hide Sends, Recipients, LeftText, Without;
  }

  /** The packet kinds that touch no record. */
  lemma OtherPacketSets(s: Server, id: uint32, p: Packet)
    requires id in s.info && s.info[id].active && !p.Handshake? && !p.Command?
    ensures var r := FromSession(s, id, p);
            r == if s.info[id].appHandshakeComplete then s.(log := r.log, sharedTree := r.sharedTree) else Close(s, id)
  {
    hide Sends, Recipients;
  }

  // ---------------------------------------------------------------- the invariant is kept

  /** The record of one session may change, except for having left. */
  predicate SameButFor(s: Server, r: Server, id: uint32) {
    && id in s.info
    && r.listed == s.listed && r.nextId == s.nextId && r.accepts == s.accepts
    && r.info.Keys == s.info.Keys
    && (forall x :: x in s.info && x != id ==> r.info[x] == s.info[x])
    && r.info[id].left == s.info[id].left
  }

  lemma UpdateKeepsIds(s: Server, r: Server, id: uint32)
    requires IdsInv(s) && SameButFor(s, r, id)
    ensures IdsInv(r)
  {
    forall i | 0 <= i < |r.listed| ensures Present(r, r.listed[i]) {
      assert Present(s, s.listed[i]);
    }
    assert forall x :: x in r.info ==> x in s.info;
  }

  lemma AdmitSets(s: Server, id: uint32, h: HandshakePayload)
    requires id in s.info
    ensures SameButFor(s, Admit(s, id, h), id)
    ensures Admit(s, id, h).status == s.status && Admit(s, id, h).log == s.log
  {
  }

  lemma AdmitKeepsInv(s: Server, id: uint32, h: HandshakePayload)
    requires Inv(s) && id in s.info && s.info[id].active && s.info[id].hellos > 0
    ensures Inv(Admit(s, id, h))
    ensures Admit(s, id, h).info[id].active && Admit(s, id, h).info[id].hellos > 0
  {
    AdmitSets(s, id, h);
    UpdateKeepsIds(s, Admit(s, id, h), id);
  }

  lemma HandshakeKeepsInv(s: Server, id: uint32, payload: Option<HandshakePayload>)
    requires Inv(s) && id in s.info && s.info[id].active && s.info[id].hellos > 0
    ensures Inv(ProcessHandshake(s, id, payload))
  {
    hide ProcessHandshake, Admit, Authenticated, IdsInv, HostInv;
    HandshakeSets(s, id, payload);
    var log := ProcessHandshake(s, id, payload).log;
    if payload.Some? && Authenticated(s, payload.value) {
      var admitted := Admit(s, id, payload.value);
      AdmitSets(s, id, payload.value);
      AdmitKeepsInv(s, id, payload.value);
      assert admitted.info[id := admitted.info[id].(appHandshakeComplete := true)] == admitted.info;
      LogIsFree(admitted, log);
    } else {
      LogIsFree(s, log);
    }
  }

  lemma CommandKeepsInv(s: Server, id: uint32, text: string)
    requires Inv(s) && id in s.info
    ensures Inv(ProcessCommand(s, id, text))
  {
    hide Parse, ProcessCommand;
    CommandSets(s, id, text);
    var r := ProcessCommand(s, id, text);
    match Parse(text)
    case Rename(target, name) => if r.info != s.info { UpdateKeepsIds(s, r, target); }
    case ToggleInput(target, enabled) => if r.info != s.info { UpdateKeepsIds(s, r, target); }
    case _ =>
  }

  lemma FromSessionKeepsInv(s: Server, id: uint32, p: Packet)
    requires Inv(s) && id in s.info && s.info[id].active
    ensures Inv(FromSession(s, id, p))
  {
    hide Inv, ProcessHandshake, ProcessCommand, ProcessLimitedCommand, Sends, Recipients, Close;
    if !p.Handshake? && !s.info[id].appHandshakeComplete {
      CloseKeepsInv(s, id);
    } else {
      match p
      case Handshake(payload) =>
        var greeting := Greeting(s, id);
        GreetingKeepsInv(s, id);
        HandshakeKeepsInv(greeting, id, payload);
      case Command(text) =>
        if s.info[id].role == Host {
          CommandKeepsInv(s, id, text);
        } else {
          LimitedCommandSets(s, id, text);
          LogIsFree(s, FromSession(s, id, p).log);
        }
      case _ =>
        OtherPacketSets(s, id, p);
        LogIsFree(s, FromSession(s, id, p).log);
        TreeIsFree(s.(log := FromSession(s, id, p).log), FromSession(s, id, p).sharedTree);
    }
  }

  lemma TreeIsFree(s: Server, tree: Option<seq<byte>>)
    requires Inv(s)
    ensures Inv(s.(sharedTree := tree))
  {
  }

  lemma LogIsFree(s: Server, log: seq<Effect>)
    requires Inv(s)
    ensures Inv(s.(log := log))
  {
  }

  lemma GreetingKeepsInv(s: Server, id: uint32)
    requires Inv(s) && id in s.info && s.info[id].active
    ensures Inv(Greeting(s, id))
  {
    UpdateKeepsIds(s, Greeting(s, id), id);
  }

  lemma CloseKeepsInv(s: Server, id: uint32)
    requires Inv(s) && id in s.info
    ensures Inv(Close(s, id))
  {
    UpdateKeepsIds(s, Close(s, id), id);
  }

  predicate Distinct(ids: seq<uint32>) {
    forall i, j :: 0 <= i < j < |ids| ==> ids[i] != ids[j]
  }

  lemma {:induction false} WithoutKeepsDistinct(ids: seq<uint32>, id: uint32)
    requires Distinct(ids)
    ensures Distinct(Without(ids, id))
  {
    if ids != [] {
      DistinctTail(ids);
      WithoutKeepsDistinct(ids[1..], id);
      assert ids[0] !in Without(ids[1..], id);
    }
  }

  lemma DistinctTail(ids: seq<uint32>)
    requires Distinct(ids) && ids != []
    ensures Distinct(ids[1..]) && ids[0] !in ids[1..]
  {
    assert forall i :: 0 <= i < |ids[1..]| ==> ids[1..][i] == ids[i + 1];
  }

  lemma DisconnectKeepsInv(s: Server, id: uint32)
    requires Inv(s) && id in s.info && !s.info[id].active
    ensures Inv(HandleDisconnect(s, id))
  {
    hide HandleDisconnect, Without, Distinct;
    DisconnectSets(s, id);
    WithoutKeepsDistinct(s.listed, id);
    var r := HandleDisconnect(s, id);
    forall i | 0 <= i < |r.listed| ensures Present(r, r.listed[i]) {
      assert r.listed[i] in s.listed && r.listed[i] != id;
    }
    assert r.info.Keys == s.info.Keys;
  }

  lemma NextKeepsInv(s: Server, step: Step)
    requires Inv(s) && Next(s, step).accepts < TWO_TO_THE_32
    ensures Inv(Next(s, step))
  {
    hide Inv, Accept, FromSession, Close, HandleDisconnect;
    if Enabled(s, step) {
      match step
      case AcceptCompletes(admitted) => AcceptKeepsInv(s, admitted);
      case MessageArrives(id, p) => FromSessionKeepsInv(s, id, p);
      case SessionCloses(id) => CloseKeepsInv(s, id);
      case DisconnectReported(id) => DisconnectKeepsInv(s, id);
      case StopRuns => StopKeepsInv(s);
    }
  }

  lemma StopKeepsInv(s: Server)
    requires Inv(s)
    ensures Inv(Stop(s))
  {
  }

  lemma AcceptsOnlyGrow(s: Server, step: Step)
    ensures s.accepts <= Next(s, step).accepts
  {
    hide Parse;
    if step.MessageArrives? && Enabled(s, step) {
      FromSessionKeepsAccepts(s, step.id, step.packet);
    }
  }

  lemma FromSessionKeepsAccepts(s: Server, id: uint32, p: Packet)
    requires id in s.info && s.info[id].active
    ensures FromSession(s, id, p).accepts == s.accepts
  {
    hide ProcessHandshake, Admit, ProcessCommand, ProcessLimitedCommand, Sends, Recipients;
    match p
    case Handshake(payload) =>
      var greeting := Greeting(s, id);
      HandshakeSets(greeting, id, payload);
      if payload.Some? {
        AdmitSets(greeting, id, payload.value);
      }
    case Command(text) =>
      CommandSets(s, id, text);
      LimitedCommandSets(s, id, text);
    case _ =>
  }

  /** With fewer than 2^32 accepts, every reachable state has distinct ids below the next one,
      at most one host, and a host that is a session not yet disconnected; no host means no
      host screen. */
  lemma {:induction false} ServerSafety(password: string, tree: Option<seq<byte>>, steps: seq<Step>)
    requires Run(Started(password, tree), steps).accepts < TWO_TO_THE_32
    ensures Inv(Run(Started(password, tree), steps))
    decreases steps
  {
    hide Next, Inv;
    if steps != [] {
      var before := Run(Started(password, tree), steps[..|steps| - 1]);
      AcceptsOnlyGrow(before, steps[|steps| - 1]);
      ServerSafety(password, tree, steps[..|steps| - 1]);
      NextKeepsInv(before, steps[|steps| - 1]);
    } else {
      StartedInv(password, tree);
    }
  }

  lemma StartedInv(password: string, tree: Option<seq<byte>>)
    ensures Inv(Started(password, tree))
  {
  }

  lemma AtMostOneHost(s: Server, a: uint32, b: uint32)
    requires Inv(s)
    requires Present(s, a) && s.info[a].role == Host
    requires Present(s, b) && s.info[b].role == Host
    ensures a == b
  {
  }

  /** Who becomes host: the sender of an authenticated handshake that asks for it while there
      is none. */
  predicate TakesHost(s: Server, step: Step) {
    && s.host == 0
    && step.MessageArrives? && Enabled(s, step)
    && step.packet.Handshake? && step.packet.payload.Some?
    && Authenticated(s, step.packet.payload.value)
    && step.packet.payload.value.role == Host
  }

  /** The host id changes exactly so: from none to a session on that session's own handshake,
      and from a session to none when that session's disconnect is handled. */
  lemma HostChangesExactly(s: Server, step: Step)
    requires Inv(s)
    ensures Next(s, step).host ==
            if TakesHost(s, step) then step.id
            else if step.DisconnectReported? && Enabled(s, step) && step.id == s.host then 0
            else s.host
  {
    hide ProcessHandshake, ProcessCommand, ProcessLimitedCommand, HandleDisconnect, Sends, Recipients;
    if Enabled(s, step) {
      match step
      case MessageArrives(id, Handshake(payload)) =>
        var greeting := Greeting(s, id);
        HandshakeSets(greeting, id, payload);
      case MessageArrives(id, Command(text)) =>
        CommandSets(s, id, text);
        LimitedCommandSets(s, id, text);
      case DisconnectReported(id) => DisconnectSets(s, id);
      case _ =>
    }
  }

  // ---------------------------------------------------------------- what a step may cause

  /** The log keeps what it has and grows only by effects that are allowed. */
  ghost predicate Grows(s: Server, r: Server, allowed: Effect -> bool) {
    && s.log <= r.log
    && forall i :: |s.log| <= i < |r.log| ==> allowed(r.log[i])
  }

  /** The packet may be sent to any known session. */
  ghost predicate AllowsSending(s: Server, allowed: Effect -> bool, p: Packet) {
    forall to :: to in s.info ==> allowed(Sent(to, p))
  }

  /** Every packet but relayed input and chat may be sent. */
  ghost predicate AllowsNotices(s: Server, allowed: Effect -> bool) {
    forall p: Packet :: !p.Input? && !p.Chat? ==> AllowsSending(s, allowed, p)
  }

  lemma {:induction false} SendsAre(s: Server, ids: seq<uint32>, p: Packet)
    ensures forall i :: 0 <= i < |Sends(s, ids, p)| ==>
              Sends(s, ids, p)[i].Sent? && Sends(s, ids, p)[i].packet == p && Sends(s, ids, p)[i].to in s.info
  {
    if ids != [] {
      SendsAre(s, ids[1..], p);
    }
  }

  lemma SendGrows(s: Server, to: uint32, p: Packet, allowed: Effect -> bool)
    requires AllowsSending(s, allowed, p)
    ensures Grows(s, Send(s, to, p), allowed)
    ensures Send(s, to, p) == s.(log := Send(s, to, p).log)
  {
    SendsAre(s, [to], p);
  }

  lemma BroadcastGrows(s: Server, audience: Audience, p: Packet, allowed: Effect -> bool)
    requires AllowsSending(s, allowed, p)
    ensures Grows(s, Broadcast(s, audience, p), allowed)
    ensures Broadcast(s, audience, p) == s.(log := Broadcast(s, audience, p).log)
  {
    SendsAre(s, Recipients(s, audience, s.listed), p);
  }

  lemma UploadGrows(s: Server, saved: Option<SavedFile>, allowed: Effect -> bool)
    requires AllowsNotices(s, allowed)
    ensures var r := ProcessFileUpload(s, saved);
            Grows(s, r, allowed) && r == s.(log := r.log, sharedTree := r.sharedTree)
  {
    hide Broadcast;
    if saved.Some? {
      var shared, p := s.(sharedTree := Some(saved.value.tree)), FileSystemUpdate(saved.value.tree);
      assert AllowsSending(s, allowed, p);
      BroadcastGrows(shared, Everyone, p, allowed);
    }
  }

  lemma WelcomeGrows(s: Server, id: uint32, allowed: Effect -> bool)
    requires id in s.info && AllowsNotices(s, allowed)
    ensures Grows(s, Welcome(s, id), allowed)
  {
    hide Send, Broadcast, Response, JoinedText, ClientListText;
    var response := Response(s, id);
    assert AllowsSending(s, allowed, response);
    SendGrows(s, id, response, allowed);
    var answered := Send(s, id, response);
    var complete := Update(answered, id, answered.info[id].(appHandshakeComplete := true));
    var joined := Command(JoinedText(id, complete.info[id]));
    assert AllowsSending(s, allowed, joined);
    BroadcastGrows(complete, EveryoneBut(id), joined, allowed);
    var announced := Broadcast(complete, EveryoneBut(id), joined);
    var list := Command(ClientListText(announced));
    assert AllowsSending(s, allowed, list);
    SendGrows(announced, id, list, allowed);
    if s.sharedTree.Some? {
      var tree := FileSystemUpdate(s.sharedTree.value);
      assert AllowsSending(s, allowed, tree);
      SendGrows(Send(announced, id, list), id, tree, allowed);
    }
  }

  lemma HandshakeGrows(s: Server, id: uint32, payload: Option<HandshakePayload>, allowed: Effect -> bool)
    requires id in s.info && AllowsNotices(s, allowed) && allowed(CloseRequested(id))
    ensures Grows(s, ProcessHandshake(s, id, payload), allowed)
  {
    hide Send, Welcome, Admit;
    if payload.Some? {
      AdmitSets(s, id, payload.value);
      var admitted := Admit(s, id, payload.value);
      assert forall p: Packet :: AllowsSending(s, allowed, p) ==> AllowsSending(admitted, allowed, p);
      WelcomeGrows(admitted, id, allowed);
      assert AllowsSending(s, allowed, Command("auth_failed"));
      SendGrows(s, id, Command("auth_failed"), allowed);
    }
  }

  lemma LimitedCommandGrows(s: Server, id: uint32, text: string, allowed: Effect -> bool)
    requires AllowsNotices(s, allowed)
    ensures Grows(s, ProcessLimitedCommand(s, id, text), allowed)
  {
    hide Send, HostInfo;
    var info, unknown := HostInfo(s), Command("unknown_limited_command: " + text);
    assert AllowsSending(s, allowed, info) && AllowsSending(s, allowed, unknown);
    SendGrows(s, id, info, allowed);
    SendGrows(s, id, unknown, allowed);
  }

  lemma CommandGrows(s: Server, id: uint32, text: string, allowed: Effect -> bool)
    requires id in s.info && AllowsNotices(s, allowed)
    requires HostCommands.Parse(text).ShutdownServer? ==> allowed(StopRequested)
    requires HostCommands.Parse(text).Kick? ==> allowed(CloseRequested(HostCommands.Parse(text).id))
    ensures Grows(s, ProcessCommand(s, id, text), allowed)
  {
    hide Send, Broadcast, HostCommands.Parse;
    if id == s.host {
      match HostCommands.Parse(text)
      case ShutdownServer =>
        var p := Command("server_shutdown_imminent");
        assert AllowsSending(s, allowed, p);
        BroadcastGrows(s, Everyone, p, allowed);
      case Rename(target, name) =>
        if target in s.listed && target in s.info {
          var renamed := Update(s, target, s.info[target].(name := name));
          var you := Command("you_were_renamed:" + name);
          var all := Command("client_renamed:" + Text.ToString(target) + ":" + name);
          assert AllowsSending(s, allowed, you) && AllowsSending(s, allowed, all);
          SendGrows(renamed, target, you, allowed);
          BroadcastGrows(Send(renamed, target, you), Everyone, all, allowed);
        }
      case Unrecognized =>
        var p := Command("unknown_command:" + text);
        assert AllowsSending(s, allowed, p);
        SendGrows(s, id, p, allowed);
      case _ =>
    }
  }

  lemma DisconnectGrows(s: Server, id: uint32, allowed: Effect -> bool)
    requires id in s.info && AllowsNotices(s, allowed)
    ensures Grows(s, HandleDisconnect(s, id), allowed)
  {
    hide Broadcast, LeftText, Without;
    var left, gone := Command("host_left"), Command(LeftText(id, s.info[id]));
    assert AllowsSending(s, allowed, left) && AllowsSending(s, allowed, gone);
    var hostless := s.(host := 0, hostScreenWidth := 0, hostScreenHeight := 0);
    BroadcastGrows(hostless, Everyone, left, allowed);
    BroadcastGrows(Broadcast(hostless, Everyone, left), Everyone, gone, allowed);
    BroadcastGrows(s, Everyone, gone, allowed);
  }

  /** A step causes only notices, closes, a stop and the relaying of its own packet. */
  lemma StepGrows(s: Server, step: Step, allowed: Effect -> bool)
    requires AllowsNotices(s, allowed)
    requires allowed(StopRequested) && forall x: uint32 :: allowed(CloseRequested(x))
    requires step.MessageArrives?
             && (step.packet.Chat? || (step.packet.Input? && step.packet.parses && step.id == s.host))
             ==> AllowsSending(s, allowed, step.packet)
    ensures Grows(s, Next(s, step), allowed)
  {
    hide ProcessHandshake, ProcessCommand, ProcessLimitedCommand, HandleDisconnect, Broadcast;
    if Enabled(s, step) {
      match step
      case MessageArrives(id, Handshake(payload)) =>
        var greeting := Greeting(s, id);
        assert forall p: Packet :: AllowsSending(s, allowed, p) ==> AllowsSending(greeting, allowed, p);
        HandshakeGrows(greeting, id, payload, allowed);
      case MessageArrives(id, Command(text)) =>
        CommandGrows(s, id, text, allowed);
        LimitedCommandGrows(s, id, text, allowed);
      case MessageArrives(id, Chat(data)) => BroadcastGrows(s, Everyone, Chat(data), allowed);
      case MessageArrives(id, Input(ok, data)) =>
        if ok && id == s.host {
          BroadcastGrows(s, Receivers(true), Input(ok, data), allowed);
        }
      case MessageArrives(id, FileUpload(saved)) => UploadGrows(s, saved, allowed);
      case MessageArrives(id, FileRequest(found, answer)) => SendGrows(s, id, FileReply(found, answer), allowed);
      case DisconnectReported(id) => DisconnectGrows(s, id, allowed);
      case _ =>
    }
  }

  /** No message from a session other than the host changes another session, the list or the
      server's status, and all it can cause is sending and the closing of that session. */
  lemma OthersCannotCommand(s: Server, id: uint32, p: Packet)
    requires Inv(s) && Present(s, id) && s.info[id].active && id != s.host
    ensures var r := FromSession(s, id, p);
            && Grows(s, r, (e: Effect) => e.Sent? || e == CloseRequested(id))
            && r.listed == s.listed && r.status == s.status
            && r.info.Keys == s.info.Keys
            && (forall x :: x in s.info && x != id ==> r.info[x] == s.info[x])
  {
    hide ProcessHandshake, Admit, Welcome, ProcessCommand, ProcessLimitedCommand, Broadcast;
    var allowed := (e: Effect) => e.Sent? || e == CloseRequested(id);
    if p.Handshake? {
      var greeting := Greeting(s, id);
      HandshakeSets(greeting, id, p.payload);
      HandshakeGrows(greeting, id, p.payload, allowed);
      if p.payload.Some? {
        AdmitSets(greeting, id, p.payload.value);
      }
    } else if s.info[id].appHandshakeComplete {
      match p
      case Chat(_) => BroadcastGrows(s, Everyone, p, allowed);
      case FileUpload(saved) => UploadGrows(s, saved, allowed);
      case FileRequest(found, answer) => SendGrows(s, id, FileReply(found, answer), allowed);
      case Command(text) =>
        LimitedCommandSets(s, id, text);
        LimitedCommandGrows(s, id, text, allowed);
      case _ =>
    }
  }
}
