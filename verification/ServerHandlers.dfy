/** The server object: its handlers, each shown to do what Authority says of it. */
module ServerHandlers {
  import opened Prelude
  import opened Packets
  import opened HostCommands
  import Text
  import A = Authority
  import Wire

  // The specification functions recurse from the front of the session list; loops go along it.

  lemma {:induction false} RecipientsSnoc(s: A.Server, audience: A.Audience, ids: seq<uint32>, id: uint32)
    ensures A.Recipients(s, audience, ids + [id])
            == A.Recipients(s, audience, ids) + if A.Wanted(s, audience, id) then [id] else []
  {
    hide A.Wanted;
    if ids == [] {
      assert [] + [id] == [id] && [id][1..] == [];
    } else {
      RecipientsSnoc(s, audience, ids[1..], id);
      TailOfAppend(ids, [id]);
    }
  }

  lemma {:induction false} SendsSnoc(s: A.Server, ids: seq<uint32>, id: uint32, p: Packet)
    ensures A.Sends(s, ids + [id], p)
            == A.Sends(s, ids, p) + if id in s.info && s.info[id].active then [A.Sent(id, p)] else []
  {
    if ids == [] {
      assert [] + [id] == [id] && [id][1..] == [];
    } else {
      SendsSnoc(s, ids[1..], id, p);
      TailOfAppend(ids, [id]);
    }
  }

  lemma {:induction false} SendsOne(s: A.Server, id: uint32, p: Packet)
    ensures A.Sends(s, [id], p) == if id in s.info && s.info[id].active then [A.Sent(id, p)] else []
  {
    SendsSnoc(s, [], id, p);
    assert [] + [id] == [id];
  }

  lemma {:induction false} WithoutSnoc(ids: seq<uint32>, id: uint32, gone: uint32)
    ensures A.Without(ids + [id], gone) == A.Without(ids, gone) + if id == gone then [] else [id]
  {
    if ids == [] {
      assert [] + [id] == [id] && [id][1..] == [];
    } else {
      WithoutSnoc(ids[1..], id, gone);
      TailOfAppend(ids, [id]);
    }
  }

  /** The receivers a message is sent to: input is kept from the host. */
  function Kept(input: bool, ids: seq<uint32>, host: uint32): seq<uint32> {
    if input then A.Without(ids, host) else ids
  }

  lemma {:induction false} KeptSnoc(input: bool, ids: seq<uint32>, id: uint32, host: uint32)
    ensures Kept(input, ids + [id], host) == Kept(input, ids, host) + if input && id == host then [] else [id]
  {
    WithoutSnoc(ids, id, host);
  }

  lemma {:induction false} NobodyKept(s: A.Server, input: bool, host: uint32)
    ensures Kept(input, [], host) == [] == A.Recipients(s, A.Receivers(input), [])
  {
  }

  lemma {:induction false} NothingSent(s: A.Server, p: Packet)
    ensures A.Sends(s, [], p) == []
  {
  }

  function Entry(s: A.Server, id: uint32): string {
    if id in s.info && s.info[id].appHandshakeComplete then
      Text.ToString(id) + "," + s.info[id].name + "," + A.RoleString(s.info[id].role) + ";"
    else ""
  }

  lemma {:induction false} ListEntriesSnoc(s: A.Server, ids: seq<uint32>, id: uint32)
    ensures A.ListEntries(s, ids + [id]) == A.ListEntries(s, ids) + Entry(s, id)
  {
    hide Text.ToString;
    if ids == [] {
      assert [] + [id] == [id] && [id][1..] == [];
      assert A.ListEntries(s, [id]) == Entry(s, id) + "";
    } else {
      ListEntriesSnoc(s, ids[1..], id);
      TailOfAppend(ids, [id]);
      Assoc(Entry(s, ids[0]), A.ListEntries(s, ids[1..]), Entry(s, id));
    }
  }

  lemma Prefix<T>(s: seq<T>, i: nat)
    requires i < |s|
    ensures s[..i + 1] == s[..i] + [s[i]]
  {
  }

  class Server {
    const password: string
    var sharedTree: Option<seq<byte>>
    var sessions: seq<uint32>
    var info: map<uint32, A.Sess>
    var nextClientId: uint32
    var hostClientId: uint32
    var hostScreenWidth: nat
    var hostScreenHeight: nat
    var status: A.Status
    var accepting: bool
    ghost var accepts: nat
    ghost var log: seq<A.Effect>

    constructor (password: string, sharedTree: Option<seq<byte>>)
      ensures View() == A.Started(password, sharedTree)
    {
      this.password, this.sharedTree := password, sharedTree;
      sessions, info, nextClientId := [], map[], 1;
      hostClientId, hostScreenWidth, hostScreenHeight := 0, 0, 0;
      status, accepting, accepts, log := A.Running, true, 0, [];
    }

    ghost function View(): A.Server
      reads this
    {
      A.Server(password, sharedTree, sessions, info, nextClientId, hostClientId, hostScreenWidth,
               hostScreenHeight, status, accepting, accepts, log)
    }

    /** Every listed session has a record. */
    ghost predicate Valid()
      reads this
    {
      forall i :: 0 <= i < |sessions| ==> sessions[i] in info
    }

    // ---------------------------------------------------------------- sending

    method Send(id: uint32, message: Packet)
      requires id in info
      modifies this`log
      ensures View() == A.Send(old(View()), id, message)
      ensures log == old(log) + if info[id].active then [A.Sent(id, message)] else []
    {
      ghost var was := View();
      SendsOne(was, id, message);
      if info[id].active {
        log := log + [A.Sent(id, message)];
      } else {
        assert log + [] == log;
      }
    }

    method Broadcast(message: Packet)
      requires Valid()
      modifies this`log
      ensures View() == A.Broadcast(old(View()), A.Everyone, message)
    {
      ghost var was := View();
      var current: seq<uint32> := [];
      for i := 0 to |sessions|
        invariant View() == was
        invariant current == A.Recipients(was, A.Everyone, sessions[..i])
        invariant forall k :: 0 <= k < |current| ==> current[k] in info
      {
        Prefix(sessions, i);
        RecipientsSnoc(was, A.Everyone, sessions[..i], sessions[i]);
        if info[sessions[i]].appHandshakeComplete {
          current := current + [sessions[i]];
        }
      }
      assert sessions[..|sessions|] == sessions;
      SendToEach(current, message);
    }

    method BroadcastExcept(message: Packet, exceptSession: uint32)
      requires Valid()
      modifies this`log
      ensures View() == A.Broadcast(old(View()), A.EveryoneBut(exceptSession), message)
    {
      ghost var was := View();
      var current: seq<uint32> := [];
      for i := 0 to |sessions|
        invariant View() == was
        invariant current == A.Recipients(was, A.EveryoneBut(exceptSession), sessions[..i])
        invariant forall k :: 0 <= k < |current| ==> current[k] in info
      {
        Prefix(sessions, i);
        RecipientsSnoc(was, A.EveryoneBut(exceptSession), sessions[..i], sessions[i]);
        if info[sessions[i]].appHandshakeComplete && sessions[i] != exceptSession {
          current := current + [sessions[i]];
        }
      }
      assert sessions[..|sessions|] == sessions;
      SendToEach(current, message);
    }

    method SendToEach(current: seq<uint32>, message: Packet)
      requires forall k :: 0 <= k < |current| ==> current[k] in info
      modifies this`log
      ensures log == old(log) + A.Sends(old(View()), current, message)
    {
      ghost var was := View();
      assert log + A.Sends(was, [], message) == log;
      for i := 0 to |current|
        invariant log == was.log + A.Sends(was, current[..i], message)
      {
        Prefix(current, i);
        SendsSnoc(was, current[..i], current[i], message);
        Assoc(was.log, A.Sends(was, current[..i], message),
              if info[current[i]].active then [A.Sent(current[i], message)] else []);
        Send(current[i], message);
      }
      assert current[..|current|] == current;
    }

    /** Input is not sent back to the host. */
    method BroadcastToReceivers(message: Packet)
      requires Valid()
      modifies this`log
      ensures View() == A.Broadcast(old(View()), A.Receivers(message.Input?), message)
    {
      hide A.Sends, A.Recipients, Kept;
      var current := CurrentReceivers(message.Input?);
      SendUnlessHost(current, message);
    }

    method CurrentReceivers(ghost input: bool) returns (current: seq<uint32>)
      requires Valid()
      ensures Kept(input, current, hostClientId) == A.Recipients(View(), A.Receivers(input), sessions)
      ensures forall k :: 0 <= k < |current| ==> current[k] in info
    {
      hide A.Recipients, Kept;
      current := [];
      NobodyKept(View(), input, hostClientId);
      for i := 0 to |sessions|
        invariant Kept(input, current, hostClientId) == A.Recipients(View(), A.Receivers(input), sessions[..i])
        invariant forall k :: 0 <= k < |current| ==> current[k] in info
      {
        var id := sessions[i];
        ghost var kept := A.Recipients(View(), A.Receivers(input), sessions[..i]);
        assert kept + [] == kept;
        Prefix(sessions, i);
        RecipientsSnoc(View(), A.Receivers(input), sessions[..i], id);
        KeptSnoc(input, current, id, hostClientId);
        if info[id].appHandshakeComplete && info[id].canReceiveInput
           && (info[id].role == Receiver || info[id].role == Broadcaster) {
          current := current + [id];
        }
      }
      assert sessions[..|sessions|] == sessions;
    }

    method SendUnlessHost(current: seq<uint32>, message: Packet)
      requires forall k :: 0 <= k < |current| ==> current[k] in info
      modifies this`log
      ensures log == old(log) + A.Sends(old(View()), Kept(message.Input?, current, hostClientId), message)
    {
      hide A.Sends, Kept;
      ghost var was := View();
      NobodyKept(was, message.Input?, hostClientId);
      NothingSent(was, message);
      assert log + [] == log;
      for i := 0 to |current|
        invariant log == was.log + A.Sends(was, Kept(message.Input?, current[..i], hostClientId), message)
      {
        var id := current[i];
        ghost var before := Kept(message.Input?, current[..i], hostClientId);
        Prefix(current, i);
        KeptSnoc(message.Input?, current[..i], id, hostClientId);
        if message.Input? && id == hostClientId {
          assert before + [] == before;
          continue;
        }
        SendsSnoc(was, before, id, message);
        Assoc(was.log, A.Sends(was, before, message), if info[id].active then [A.Sent(id, message)] else []);
        Send(id, message);
      }
      assert current[..|current|] == current;
    }

    // ---------------------------------------------------------------- sessions come and go

    method HandleAccept(admitted: bool)
      modifies this
      ensures View() == A.Accept(old(View()), admitted)
      ensures old(Valid()) ==> Valid()
    {
      if !accepting {
        return;
      }
      if admitted {
        var newClientId := nextClientId;
        nextClientId := (nextClientId + 1) % TWO_TO_THE_32;
        info := info[newClientId := A.NEW_SESSION];
        sessions := sessions + [newClientId];
        accepts := accepts + 1;
      }
      accepting := status == A.Running;
    }

    method HandleDisconnect(id: uint32)
      requires Valid() && id in info
      modifies this
      ensures View() == A.HandleDisconnect(old(View()), id)
      ensures Valid()
    {
      hide A.Broadcast, A.LeftText, A.Without;
      if id == hostClientId && hostClientId != 0 {
        hostClientId := 0;
        hostScreenWidth := 0;
        hostScreenHeight := 0;
        Broadcast(Command("host_left"));
      }
      Broadcast(Command(A.LeftText(id, info[id])));
      sessions := A.Without(sessions, id);
      info := info[id := info[id].(left := true)];
    }

    method Stop()
      modifies this
      ensures View() == A.Stop(old(View()))
      ensures old(Valid()) ==> Valid()
    {
      if status == A.Stopped {
        return;
      }
      status := A.Stopped;
      var sessionsToClose := sessions;
      sessions := [];
      ghost var logged := log;
      assert log == logged + A.CloseRequests([]);
      for i := 0 to |sessionsToClose|
        invariant log == logged + A.CloseRequests(sessionsToClose[..i])
        invariant View() == old(View()).(status := A.Stopped, listed := [], log := log)
      {
        Prefix(sessionsToClose, i);
        assert A.CloseRequests(sessionsToClose[..i + 1])
               == A.CloseRequests(sessionsToClose[..i]) + [A.CloseRequested(sessionsToClose[i])];
        RequestClose(sessionsToClose[i]);
      }
      assert sessionsToClose[..|sessionsToClose|] == sessionsToClose;
    }

    /** Posts a close of the session. */
    method RequestClose(id: uint32)
      modifies this`log
      ensures View() == A.RequestClose(old(View()), id)
    {
      log := log + [A.CloseRequested(id)];
    }

    // ---------------------------------------------------------------- messages

    method HandleMessage(id: uint32, message: Packet)
      requires Valid() && id in info
      modifies this
      ensures View() == A.HandleMessage(old(View()), id, message)
      ensures Valid()
    {
      match message {
        case Handshake(payload) => ProcessHandshake(id, payload);
        case Input(parses, _) =>
          if parses {
            if id == hostClientId && hostClientId != 0 {
              BroadcastToReceivers(message);
            }
          }
        case FileUpload(saved) => ProcessFileUpload(saved);
        case FileRequest(found, answer) => ProcessFileRequest(id, found, answer);
        case Chat(_) => Broadcast(message);
        case Command(text) =>
          if info[id].role == Host {
            ProcessCommand(id, text);
          } else {
            ProcessLimitedCommand(id, text);
          }
        case _ =>
      }
    }

    /** Panel and disk included: what was saved is shown and announced. */
    method ProcessFileUpload(saved: Option<SavedFile>)
      requires Valid()
      modifies this`sharedTree, this`log
      ensures View() == A.ProcessFileUpload(old(View()), saved)
    {
      if saved.None? {
        return;
      }
      sharedTree := Some(saved.value.tree);
      if saved.value.announced {
        if status == A.Running {
          Broadcast(FileSystemUpdate(saved.value.tree));
        }
      }
    }

    method ProcessFileRequest(id: uint32, found: bool, answer: seq<byte>)
      requires Valid() && id in info
      modifies this`log
      ensures View() == A.Send(old(View()), id, A.FileReply(found, answer))
    {
      if !found {
        Send(id, OtherPacket(Wire.FILE_ERROR, answer));
        return;
      }
      Send(id, OtherPacket(Wire.FILE_RESPONSE, answer));
    }

    method ProcessHandshake(id: uint32, payload: Option<HandshakePayload>)
      requires Valid() && id in info
      modifies this
      ensures View() == A.ProcessHandshake(old(View()), id, payload)
      ensures Valid()
    {
      match payload {
        case None => RequestClose(id);
        case Some(h) =>
          if password == "" || h.password == password {
            AdmitSession(id, h);
            WelcomeSession(id);
          } else {
            Send(id, Command("auth_failed"));
            RequestClose(id);
          }
      }
    }

    method AdmitSession(id: uint32, h: HandshakePayload)
      requires Valid() && id in info
      modifies this`info, this`hostClientId, this`hostScreenWidth, this`hostScreenHeight
      ensures View() == A.Admit(old(View()), id, h)
      ensures Valid()
    {
      var session := info[id].(name := h.clientName, role := h.role, greeted := true);
      if h.role == Host {
        if hostClientId == 0 {
          hostClientId := id;
          hostScreenWidth := h.hostScreenWidth;
          hostScreenHeight := h.hostScreenHeight;
          session := session.(role := Host);
        } else if hostClientId == id {
          session := session.(role := Host);
          hostScreenWidth := h.hostScreenWidth;
          hostScreenHeight := h.hostScreenHeight;
        } else {
          session := session.(role := Receiver);
        }
      } else {
        if hostClientId == 0 && h.role == Broadcaster {
          session := session.(role := Receiver);
        } else {
          session := session.(role := h.role);
        }
      }
      info := info[id := session];
    }

    method WelcomeSession(id: uint32)
      requires Valid() && id in info
      modifies this`info, this`log
      ensures View() == A.Welcome(old(View()), id)
      ensures Valid()
    {
      hide A.Send, A.Broadcast, A.JoinedText, A.ClientListText;
      var response := HandshakePayload(info[id].role, "Server", "", id,
                                       if hostClientId != 0 then hostScreenWidth else 0,
                                       if hostClientId != 0 then hostScreenHeight else 0);
      Send(id, Handshake(Some(response)));
      info := info[id := info[id].(appHandshakeComplete := true)];
      BroadcastExcept(Command(A.JoinedText(id, info[id])), id);
      var clientList := ClientList();
      Send(id, Command(clientList));
      if info[id].role != Host {
        if sharedTree.Some? {
          Send(id, FileSystemUpdate(sharedTree.value));
        }
      }
    }

    method ClientList() returns (text: string)
      requires Valid()
      ensures text == A.ClientListText(View())
    {
      hide Text.ToString;
      text := "current_clients:";
      assert text == "current_clients:" + A.ListEntries(View(), []);
      for i := 0 to |sessions|
        invariant text == "current_clients:" + A.ListEntries(View(), sessions[..i])
      {
        var id := sessions[i];
        Prefix(sessions, i);
        ListEntriesSnoc(View(), sessions[..i], id);
        Assoc("current_clients:", A.ListEntries(View(), sessions[..i]), Entry(View(), id));
        if info[id].appHandshakeComplete {
          text := text + (Text.ToString(id) + "," + info[id].name + "," + A.RoleString(info[id].role) + ";");
        } else {
          assert text + "" == text;
        }
      }
      assert sessions[..|sessions|] == sessions;
      if text[|text| - 1] == ';' {
        text := text[..|text| - 1];
      }
    }

    method FindSession(id: uint32) returns (found: bool)
      ensures found <==> id in sessions
    {
      for i := 0 to |sessions|
        invariant id !in sessions[..i]
      {
        if sessions[i] == id {
          return true;
        }
        Prefix(sessions, i);
      }
      assert sessions[..|sessions|] == sessions;
      return false;
    }

    method ProcessCommand(id: uint32, text: string)
      requires Valid() && id in info
      modifies this
      ensures View() == A.ProcessCommand(old(View()), id, text)
      ensures Valid()
    {
      hide A.Send, A.Broadcast, HostCommands.Parse, Text.ToString;
      if id != hostClientId {
        return;
      }
      match Parse(text) {
        case ShutdownServer =>
          Broadcast(Command("server_shutdown_imminent"));
          log := log + [A.StopRequested];
        case Kick(target) =>
          var sessionToKick := FindSession(target);
          if sessionToKick && target != hostClientId {
            RequestClose(target);
          }
        case Rename(target, name) =>
          var sessionToRename := FindSession(target);
          if sessionToRename {
            assert target in info by { TargetKnown(target); }
            info := info[target := info[target].(name := name)];
            Send(target, Command("you_were_renamed:" + name));
            Broadcast(Command("client_renamed:" + Text.ToString(target) + ":" + name));
          }
        case ToggleInput(target, enabled) =>
          var sessionToToggle := FindSession(target);
          if sessionToToggle {
            assert target in info by { TargetKnown(target); }
            if info[target].role == Receiver {
              info := info[target := info[target].(canReceiveInput := enabled)];
            }
          }
        case Malformed =>
        case Unrecognized => Send(id, Command("unknown_command:" + text));
      }
    }

    lemma TargetKnown(target: uint32)
      requires Valid() && target in sessions
      ensures target in info
    {
    }

    method ProcessLimitedCommand(id: uint32, text: string)
      requires Valid() && id in info
      modifies this`log
      ensures View() == A.ProcessLimitedCommand(old(View()), id, text)
    {
      if text == "request_host_info" {
        var name := "No Host";
        if hostClientId != 0 && sessions != [] {
          var found := FindSession(hostClientId);
          name := if found then info[hostClientId].name else "Host";
        }
        Send(id, Handshake(Some(HandshakePayload(Host, name, "", hostClientId, hostScreenWidth, hostScreenHeight))));
      } else {
        Send(id, Command("unknown_limited_command: " + text));
      }
    }
  }
}
