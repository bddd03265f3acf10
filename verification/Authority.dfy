/**
  The server's decisions: who is the host, who may command, who receives what. A state
  machine over every session ever accepted; each step is one handler run to completion.
 */
module Authority {
  import opened Prelude
  import opened Text
  import opened Packets
  import opened HostCommands
  import opened Wire

  /** A session as the server sees it. `left` records that its disconnect has been handled,
      `hellos` and `greeted` how many handshakes it has sent and whether one was accepted. */
  datatype Sess = Sess(
    name: string,
    role: Role,
    canReceiveInput: bool,
    appHandshakeComplete: bool,
    active: bool,
    left: bool,
    hellos: nat,
    greeted: bool)

  const NEW_SESSION := Sess("UnknownClient", Receiver, true, false, true, false, 0, false)

  datatype Effect =
    | Sent(to: uint32, packet: Packet)
    | CloseRequested(id: uint32)
    | StopRequested

  datatype Status = Running | Stopped

  /** `listed` is the server's session list; `info` keeps every session, also those no longer
      listed but still able to deliver a message. `accepting` says an accept is outstanding.
      `accepts` and `log` are histories. */
  datatype Server = Server(
    password: string,
    sharedTree: Option<seq<byte>>,
    listed: seq<uint32>,
    info: map<uint32, Sess>,
    nextId: uint32,
    host: uint32,
    hostScreenWidth: nat,
    hostScreenHeight: nat,
    status: Status,
    accepting: bool,
    accepts: nat,
    log: seq<Effect>)

  function Started(password: string, sharedTree: Option<seq<byte>>): Server {
    Server(password, sharedTree, [], map[], 1, 0, 0, 0, Running, true, 0, [])
  }

  // ---------------------------------------------------------------- sending

  /** An inactive session drops what is sent to it. */
  function Sends(s: Server, ids: seq<uint32>, p: Packet): seq<Effect> {
    if ids == [] then []
    else (if ids[0] in s.info && s.info[ids[0]].active then [Sent(ids[0], p)] else [])
         + Sends(s, ids[1..], p)
  }

  function Send(s: Server, id: uint32, p: Packet): Server {
    s.(log := s.log + Sends(s, [id], p))
  }

  /** Input is kept from the host, other messages to receivers are not. */
  datatype Audience = Everyone | EveryoneBut(id: uint32) | Receivers(input: bool)

  predicate Wanted(s: Server, audience: Audience, id: uint32) {
    && id in s.info
    && s.info[id].appHandshakeComplete
    && (match audience
        case Everyone => true
        case EveryoneBut(other) => id != other
        case Receivers(input) =>
          && s.info[id].canReceiveInput
          && (s.info[id].role == Receiver || s.info[id].role == Broadcaster)
          && (input ==> id != s.host))
  }

  function Recipients(s: Server, audience: Audience, ids: seq<uint32>): seq<uint32> {
    if ids == [] then []
    else (if Wanted(s, audience, ids[0]) then [ids[0]] else []) + Recipients(s, audience, ids[1..])
  }

  function Broadcast(s: Server, audience: Audience, p: Packet): Server {
    s.(log := s.log + Sends(s, Recipients(s, audience, s.listed), p))
  }

  function RequestClose(s: Server, id: uint32): Server {
    s.(log := s.log + [CloseRequested(id)])
  }

  function Update(s: Server, id: uint32, sess: Sess): Server {
    s.(info := s.info[id := sess])
  }

  // ---------------------------------------------------------------- texts

  function RoleString(role: Role): string {
    match role
    case Host => "Host"
    case Broadcaster => "Broadcaster"
    case Receiver => "Receiver"
    case OtherRole(_) => "UnknownRole"
  }

  function JoinedText(id: uint32, sess: Sess): string {
    "client_joined:" + ToString(id) + ":" + sess.name + ":" + RoleString(sess.role)
  }

  function LeftText(id: uint32, sess: Sess): string {
    "client_left:" + ToString(id) + ":" + sess.name
  }

  function ListEntries(s: Server, ids: seq<uint32>): string {
    if ids == [] then ""
    else
      (if ids[0] in s.info && s.info[ids[0]].appHandshakeComplete then
         ToString(ids[0]) + "," + s.info[ids[0]].name + "," + RoleString(s.info[ids[0]].role) + ";"
       else "")
      + ListEntries(s, ids[1..])
  }

  /** The list of clients, without the semicolon after the last. */
  function ClientListText(s: Server): string {
    var all := "current_clients:" + ListEntries(s, s.listed);
    if all[|all| - 1] == ';' then all[..|all| - 1] else all
  }

  // ---------------------------------------------------------------- handlers

  function Accept(s: Server, admitted: bool): Server {
    if !s.accepting then s
    else
      var again := s.(accepting := s.status == Running);
      if !admitted then again
      else again.(info := s.info[s.nextId := NEW_SESSION], listed := s.listed + [s.nextId],
                  nextId := (s.nextId + 1) % TWO_TO_THE_32, accepts := s.accepts + 1)
  }

  predicate Authenticated(s: Server, h: HandshakePayload) {
    s.password == "" || h.password == s.password
  }

  /** The role a handshake is given: one host only, and no broadcaster before there is one. */
  function GrantedRole(s: Server, id: uint32, wanted: Role): Role {
    if wanted == Host then (if s.host == 0 || s.host == id then Host else Receiver)
    else if s.host == 0 && wanted == Broadcaster then Receiver
    else wanted
  }

  /** The server state once the name, role and host of an accepted handshake are recorded. */
  function Admit(s: Server, id: uint32, h: HandshakePayload): Server
    requires id in s.info
  {
    var role := GrantedRole(s, id, h.role);
    var named := Update(s, id, s.info[id].(name := h.clientName, role := role, greeted := true));
    if role == Host then
      named.(host := id, hostScreenWidth := h.hostScreenWidth, hostScreenHeight := h.hostScreenHeight)
    else named
  }

  function Response(s: Server, id: uint32): (p: Packet)
    requires id in s.info
    ensures p.Handshake?
  {
    Handshake(Some(HandshakePayload(s.info[id].role, "Server", "", id,
                                    if s.host != 0 then s.hostScreenWidth else 0,
                                    if s.host != 0 then s.hostScreenHeight else 0)))
  }

  /** What a newly admitted session and the others are told. */
  function Welcome(s: Server, id: uint32): Server
    requires id in s.info
  {
    var answered := Send(s, id, Response(s, id));
    var complete := Update(answered, id, answered.info[id].(appHandshakeComplete := true));
    var announced := Broadcast(complete, EveryoneBut(id), Command(JoinedText(id, complete.info[id])));
    var informed := Send(announced, id, Command(ClientListText(announced)));
    if s.info[id].role != Host && s.sharedTree.Some? then
      Send(informed, id, FileSystemUpdate(s.sharedTree.value))
    else informed
  }

  function ProcessHandshake(s: Server, id: uint32, payload: Option<HandshakePayload>): Server
    requires id in s.info
  {
    match payload
    case None => RequestClose(s, id)
    case Some(h) =>
      if Authenticated(s, h) then Welcome(Admit(s, id, h), id)
      else RequestClose(Send(s, id, Command("auth_failed")), id)
  }

  function ProcessCommand(s: Server, id: uint32, text: string): Server
    requires id in s.info
  {
    if id != s.host then s
    else
      match Parse(text)
      case ShutdownServer =>
        var told := Broadcast(s, Everyone, Command("server_shutdown_imminent"));
        told.(log := told.log + [StopRequested])
      case Kick(target) =>
        if target in s.listed && target != s.host then RequestClose(s, target) else s
      case Rename(target, name) =>
        if target in s.listed && target in s.info then
          var renamed := Update(s, target, s.info[target].(name := name));
          var told := Send(renamed, target, Command("you_were_renamed:" + name));
          Broadcast(told, Everyone, Command("client_renamed:" + ToString(target) + ":" + name))
        else s
      case ToggleInput(target, enabled) =>
        if target in s.listed && target in s.info && s.info[target].role == Receiver then
          Update(s, target, s.info[target].(canReceiveInput := enabled))
        else s
      case Malformed => s
      case Unrecognized => Send(s, id, Command("unknown_command:" + text))
  }

  function HostInfo(s: Server): (p: Packet)
    ensures p.Handshake?
  {
    Handshake(Some(HandshakePayload(Host,
                                    if s.host == 0 || s.listed == [] then "No Host"
                                    else if s.host in s.listed && s.host in s.info then s.info[s.host].name
                                    else "Host",
                                    "", s.host, s.hostScreenWidth, s.hostScreenHeight)))
  }

  function ProcessLimitedCommand(s: Server, id: uint32, text: string): Server {
    if text == "request_host_info" then Send(s, id, HostInfo(s))
    else Send(s, id, Command("unknown_limited_command: " + text))
  }

  /** A saved file shows in the shared tree, which everyone may be sent. */
  function ProcessFileUpload(s: Server, saved: Option<SavedFile>): Server {
    if saved.None? then s
    else
      var shared := s.(sharedTree := Some(saved.value.tree));
      if saved.value.announced && s.status == Running then
        Broadcast(shared, Everyone, FileSystemUpdate(saved.value.tree))
      else shared
  }

  function FileReply(found: bool, answer: seq<byte>): Packet {
    OtherPacket(if found then FILE_RESPONSE else FILE_ERROR, answer)
  }

  function HandleMessage(s: Server, id: uint32, p: Packet): Server
    requires id in s.info
  {
    match p
    case Handshake(payload) => ProcessHandshake(s, id, payload)
    case Input(parses, _) =>
      if parses && id == s.host && s.host != 0 then Broadcast(s, Receivers(true), p) else s
    case FileUpload(saved) => ProcessFileUpload(s, saved)
    case FileRequest(found, answer) => Send(s, id, FileReply(found, answer))
    case Chat(_) => Broadcast(s, Everyone, p)
    case Command(text) =>
      if s.info[id].role == Host then ProcessCommand(s, id, text) else ProcessLimitedCommand(s, id, text)
    case _ => s
  }

  function Close(s: Server, id: uint32): Server
    requires id in s.info
  {
    Update(s, id, s.info[id].(active := false, appHandshakeComplete := false))
  }

  /** The session has received a handshake and is about to pass it on. */
  function Greeting(s: Server, id: uint32): Server
    requires id in s.info
  {
    Update(s, id, s.info[id].(appHandshakeComplete := true, hellos := s.info[id].hellos + 1))
  }

  /** The session's own gate in front of the server's handler. */
  function FromSession(s: Server, id: uint32, p: Packet): Server
    requires id in s.info && s.info[id].active
  {
    if p.Handshake? then
      HandleMessage(Greeting(s, id), id, p)
    else if s.info[id].appHandshakeComplete then HandleMessage(s, id, p)
    else Close(s, id)
  }

  function Without(ids: seq<uint32>, id: uint32): (r: seq<uint32>)
    ensures forall x :: x in r <==> x in ids && x != id
    ensures forall i :: 0 <= i < |r| ==> r[i] in ids
  {
    if ids == [] then []
    else (if ids[0] == id then [] else [ids[0]]) + Without(ids[1..], id)
  }

  function HandleDisconnect(s: Server, id: uint32): Server
    requires id in s.info
  {
    var unhosted :=
      if id == s.host && s.host != 0 then
        Broadcast(s.(host := 0, hostScreenWidth := 0, hostScreenHeight := 0), Everyone, Command("host_left"))
      else s;
    var told := Broadcast(unhosted, Everyone, Command(LeftText(id, s.info[id])));
    Update(told.(listed := Without(s.listed, id)), id, s.info[id].(left := true))
  }

  function CloseRequests(ids: seq<uint32>): (es: seq<Effect>)
    ensures |es| == |ids|
  {
    seq(|ids|, i requires 0 <= i < |ids| => CloseRequested(ids[i]))
  }

  function Stop(s: Server): Server {
    if s.status == Stopped then s
    else s.(status := Stopped, listed := [], log := s.log + CloseRequests(s.listed))
  }

  /** A message is handled only while its session is active; a disconnect once, after the
      session has closed; a session may close at any time, asked to or not. */
  datatype Step =
    | AcceptCompletes(admitted: bool)
    | MessageArrives(id: uint32, packet: Packet)
    | SessionCloses(id: uint32)
    | DisconnectReported(id: uint32)
    | StopRuns

  predicate Enabled(s: Server, step: Step) {
    match step
    case AcceptCompletes(_) => s.accepting
    case MessageArrives(id, _) => id in s.info && s.info[id].active
    case SessionCloses(id) => id in s.info && s.info[id].active
    case DisconnectReported(id) => id in s.info && !s.info[id].active && !s.info[id].left
    case StopRuns => true
  }

  function Next(s: Server, step: Step): Server {
    if !Enabled(s, step) then s
    else
      match step
      case AcceptCompletes(admitted) => Accept(s, admitted)
      case MessageArrives(id, p) => FromSession(s, id, p)
      case SessionCloses(id) => Close(s, id)
      case DisconnectReported(id) => HandleDisconnect(s, id)
      case StopRuns => Stop(s)
  }

  /** What a step adds to the log. */
  function Added(s: Server, step: Step): seq<Effect> {
    var log := Next(s, step).log;
    if |s.log| <= |log| then log[|s.log|..] else []
  }

  function Run(s: Server, steps: seq<Step>): Server {
    if steps == [] then s else Next(Run(s, steps[..|steps| - 1]), steps[|steps| - 1])
  }
}
