/**
  The client and the server agree on the client's name: what the client will call itself once
  it has read everything sent to it is what the server calls its session.
 */
module NameAgreement {
  import opened Prelude
  import opened Packets
  import opened HostCommands
  import opened Authority
  import opened AuthorityProofs
  import opened ClientConnection
  import Wire
  import EndToEnd

  /** The packets sent to one session, in order. */
  function Inbox(es: seq<Effect>, id: uint32): seq<Packet> {
    if es == [] then []
    else (if es[0].Sent? && es[0].to == id then [es[0].packet] else []) + Inbox(es[1..], id)
  }

  lemma {:induction false} InboxAppend(a: seq<Effect>, b: seq<Effect>, id: uint32)
    ensures Inbox(a + b, id) == Inbox(a, id) + Inbox(b, id)
  {
    if a == [] {
      assert a + b == b;
    } else {
      InboxAppend(a[1..], b, id);
      TailOfAppend(a, b);
      Assoc(if a[0].Sent? && a[0].to == id then [a[0].packet] else [], Inbox(a[1..], id), Inbox(b, id));
    }
  }

  lemma {:induction false} AfterMessagesAppend(c: Core, a: seq<Packet>, b: seq<Packet>)
    ensures AfterMessages(c, a + b) == AfterMessages(AfterMessages(c, a), b)
    decreases b
  {
    if b == [] {
      assert a + b == a;
    } else {
      var init := b[..|b| - 1];
      assert (a + b)[..|a + b| - 1] == a + init;
      AfterMessagesAppend(c, a, init);
    }
  }

  /** The client once it has handled everything sent to it. */
  function Settled(s: Server, id: uint32, c: Core): Core {
    AfterMessages(c, Inbox(s.log, id))
  }

  lemma {:induction false} SendsSettle(s: Server, ids: seq<uint32>, p: Packet, id: uint32, c: Core)
    requires id in ids ==> AfterMessage(c, p) == c
    ensures AfterMessages(c, Inbox(Sends(s, ids, p), id)) == c
    decreases ids
  {
    hide AfterMessage;
    if ids != [] {
      var head := if ids[0] in s.info && s.info[ids[0]].active then [Sent(ids[0], p)] else [];
      SendsSettle(s, ids[1..], p, id, c);
      InboxAppend(head, Sends(s, ids[1..], p), id);
      AfterMessagesAppend(c, Inbox(head, id), Inbox(Sends(s, ids[1..], p), id));
      if head != [] && ids[0] == id {
        assert Inbox(head, id) == [p];
        AfterOne(c, p);
      } else {
        assert Inbox(head, id) == [];
      }
    }
  }

  lemma {:induction false} AfterOne(c: Core, p: Packet)
    ensures AfterMessages(c, [p]) == AfterMessage(c, p)
  {
    assert [p][..0] == [];
    assert AfterMessages(c, []) == c;
  }

  /** A packet that would change nothing, or that goes to others, changes nothing. */
  lemma SendSettles(s: Server, to: uint32, p: Packet, id: uint32, c: Core)
    requires to == id ==> AfterMessage(Settled(s, id, c), p) == Settled(s, id, c)
    ensures Settled(Send(s, to, p), id, c) == Settled(s, id, c)
  {
    hide AfterMessages, AfterMessage, Inbox;
    InboxAppend(s.log, Sends(s, [to], p), id);
    AfterMessagesAppend(c, Inbox(s.log, id), Inbox(Sends(s, [to], p), id));
    SendsSettle(s, [to], p, id, Settled(s, id, c));
  }

  lemma SendArrives(s: Server, p: Packet, id: uint32, c: Core)
    requires id in s.info && s.info[id].active
    ensures Settled(Send(s, id, p), id, c) == AfterMessage(Settled(s, id, c), p)
  {
    hide AfterMessages, AfterMessage;
    assert Sends(s, [id], p) == [Sent(id, p)];
    InboxAppend(s.log, [Sent(id, p)], id);
    assert Inbox([Sent(id, p)], id) == [p];
    AfterMessagesAppend(c, Inbox(s.log, id), [p]);
    AfterOne(Settled(s, id, c), p);
  }

  lemma {:induction false} RecipientsExclude(s: Server, audience: Audience, ids: seq<uint32>, id: uint32)
    requires !Wanted(s, audience, id)
    ensures id !in Recipients(s, audience, ids)
  {
    if ids != [] {
      RecipientsExclude(s, audience, ids[1..], id);
    }
  }

  lemma BroadcastSettles(s: Server, audience: Audience, p: Packet, id: uint32, c: Core)
    requires Wanted(s, audience, id) ==> AfterMessage(Settled(s, id, c), p) == Settled(s, id, c)
    ensures Settled(Broadcast(s, audience, p), id, c) == Settled(s, id, c)
  {
    hide AfterMessages, AfterMessage, Inbox, Wanted;
    var to := Recipients(s, audience, s.listed);
    InboxAppend(s.log, Sends(s, to, p), id);
    AfterMessagesAppend(c, Inbox(s.log, id), Inbox(Sends(s, to, p), id));
    if !Wanted(s, audience, id) {
      RecipientsExclude(s, audience, s.listed, id);
    }
    SendsSettle(s, to, p, id, Settled(s, id, c));
  }

  /** Adding an effect that is no send. */
  lemma EffectSettles(s: Server, es: seq<Effect>, id: uint32, c: Core)
    requires forall i :: 0 <= i < |es| ==> !es[i].Sent?
    ensures Settled(s.(log := s.log + es), id, c) == Settled(s, id, c)
  {
    InboxAppend(s.log, es, id);
    NoSendsNoInbox(es, id);
    assert Inbox(s.log, id) + [] == Inbox(s.log, id);
  }

  lemma {:induction false} NoSendsNoInbox(es: seq<Effect>, id: uint32)
    requires forall i :: 0 <= i < |es| ==> !es[i].Sent?
    ensures Inbox(es, id) == []
  {
    if es != [] {
      NoSendsNoInbox(es[1..], id);
    }
  }

  // ---------------------------------------------------------------- the agreement

  /** What a client starts from when it connects under a name. */
  function Connects(name: string): Core {
    Core(Connecting, name, 0, 0, 0)
  }

  /** Before its one handshake nothing sent to the client has changed it; once that handshake
      is accepted the settled client is connected under the session's name and id. */
  ghost predicate Agree(s: Server, id: uint32, name: string) {
    var c := Settled(s, id, Connects(name));
    if id !in s.info then Inbox(s.log, id) == []
    else
      && (s.info[id].hellos == 0 ==> c == Connects(name))
      && (s.info[id].active && s.info[id].greeted && s.info[id].hellos == 1 ==>
            c.conn == Connected && c.name == s.info[id].name && c.clientId == id)
  }

  /** A text that is neither a rename nor an authentication failure. */
  predicate Notice(text: string) {
    !(YOU_WERE_RENAMED <= text) && text != AUTH_FAILED
  }

  lemma NoticeByFirstLetter(text: string)
    requires text != [] && text[0] != 'y' && text[0] != 'a'
    ensures Notice(text)
  {
    assert YOU_WERE_RENAMED[0] == 'y' && AUTH_FAILED[0] == 'a';
  }

  /** Packets that leave a client alone, whether still connecting or connected. */
  predicate Harmless(p: Packet) {
    match p
    case Handshake(_) => false
    case Command(text) => Notice(text)
    case _ => true
  }

  lemma HarmlessLeavesAlone(c: Core, p: Packet)
    requires Harmless(p)
    ensures AfterMessage(c, p) == c
  {
  }

  /** Renamed before its handshake is answered, a client ignores it; after, it obeys. */
  lemma RenameEffect(c: Core, newName: string)
    ensures var r := AfterMessage(c, Command(YOU_WERE_RENAMED + newName));
            r == if c.conn == Connected then c.(name := newName) else c
  {
    var text := YOU_WERE_RENAMED + newName;
    assert text[0] == YOU_WERE_RENAMED[0] != AUTH_FAILED[0];
    assert text[|YOU_WERE_RENAMED|..] == newName;
  }

  /** The records and the settled client are as before: nothing to re-establish. */
  lemma AgreeFrame(s: Server, r: Server, id: uint32, name: string)
    requires Agree(s, id, name)
    requires id in s.info && id in r.info
    requires Settled(r, id, Connects(name)) == Settled(s, id, Connects(name))
    requires r.info[id].hellos == s.info[id].hellos
    requires r.info[id].active && r.info[id].greeted ==>
               s.info[id].active && s.info[id].greeted && r.info[id].name == s.info[id].name
    ensures Agree(r, id, name)
  {
  }

  lemma CommandKeepsAgree(s: Server, from: uint32, text: string, id: uint32, name: string)
    requires Inv(s) && Agree(s, id, name) && from in s.info && id in s.info
    ensures Agree(ProcessCommand(s, from, text), id, name)
  {
    hide Parse, Send, Broadcast, Settled, AfterMessage, Inv, Harmless, Text.ToString;
    var r, c := ProcessCommand(s, from, text), Connects(name);
    CommandSets(s, from, text);
    if from == s.host {
      match Parse(text)
      case ShutdownServer =>
        var p := Command("server_shutdown_imminent");
        NoticeByFirstLetter(p.text);
        NoticeSettles(s, Everyone, p.text, id, c);
        BroadcastGrows(s, Everyone, p, e => true);
        EffectSettles(Broadcast(s, Everyone, p), [StopRequested], id, c);
        AgreeFrame(s, r, id, name);
      case Kick(target) =>
        EffectSettles(s, [CloseRequested(target)], id, c);
        AgreeFrame(s, r, id, name);
      case Rename(target, newName) =>
        if target in s.listed && target in s.info {
          RenameKeepsAgree(s, target, newName, id, name);
        }
      case Unrecognized =>
        var t := "unknown_command:" + text;
        assert t[0] == 'u';
        NoticeByFirstLetter(t);
        HarmlessSend(s, from, t, id, c);
        AgreeFrame(s, r, id, name);
      case _ =>
        SameLog(s, r, id, c);
        AgreeFrame(s, r, id, name);
    }
  }

  lemma SameLog(s: Server, r: Server, id: uint32, c: Core)
    requires r.log == s.log
    ensures Settled(r, id, c) == Settled(s, id, c)
  {
  }

  lemma NoticeSettles(s: Server, audience: Audience, text: string, id: uint32, c: Core)
    requires Notice(text)
    ensures Settled(Broadcast(s, audience, Command(text)), id, c) == Settled(s, id, c)
  {
    HarmlessLeavesAlone(Settled(s, id, c), Command(text));
    BroadcastSettles(s, audience, Command(text), id, c);
  }

  lemma HarmlessSend(s: Server, to: uint32, text: string, id: uint32, c: Core)
    requires Notice(text)
    ensures Settled(Send(s, to, Command(text)), id, c) == Settled(s, id, c)
  {
    HarmlessLeavesAlone(Settled(s, id, c), Command(text));
    SendSettles(s, to, Command(text), id, c);
  }

  lemma {:induction false} RenameKeepsAgree(s: Server, target: uint32, newName: string, id: uint32, name: string)
    requires Inv(s) && Agree(s, id, name) && target in s.info && id in s.info
    ensures var renamed := Update(s, target, s.info[target].(name := newName));
            var told := Send(renamed, target, Command(YOU_WERE_RENAMED + newName));
            var notice := Command("client_renamed:" + Text.ToString(target) + ":" + newName);
            Agree(Broadcast(told, Everyone, notice), id, name)
  {
    hide Send, Broadcast, Settled, AfterMessage, Text.ToString;
    var c := Connects(name);
    var renamed := Update(s, target, s.info[target].(name := newName));
    var you := Command(YOU_WERE_RENAMED + newName);
    var told := Send(renamed, target, you);
    var all := "client_renamed:" + Text.ToString(target) + ":" + newName;
    SameLog(s, renamed, id, c);
    SendGrows(renamed, target, you, e => true);
    RenameEffect(Settled(s, id, c), newName);
    if target == id && s.info[id].active {
      SendArrives(renamed, you, id, c);
    } else if target == id {
      InactiveSend(renamed, you, id, c);
    } else {
      SendSettles(renamed, target, you, id, c);
    }
    assert all[0] == 'c';
    NoticeByFirstLetter(all);
    NoticeSettles(told, Everyone, all, id, c);
    BroadcastGrows(told, Everyone, Command(all), e => true);
  }

  lemma InactiveSend(s: Server, p: Packet, id: uint32, c: Core)
    requires id in s.info && !s.info[id].active
    ensures Settled(Send(s, id, p), id, c) == Settled(s, id, c)
  {
    assert Sends(s, [id], p) == [];
    assert s.log + [] == s.log;
  }

  lemma ClientListIsNotice(s: Server)
    ensures Notice(ClientListText(s))
  {
    hide ListEntries;
    assert ClientListText(s)[0] == 'c';
    NoticeByFirstLetter(ClientListText(s));
  }

  /** A welcome tells the new client its handshake is accepted and nothing else that matters;
      to anyone else it is harmless. */
  lemma WelcomeSettles(s: Server, from: uint32, id: uint32, c: Core)
    requires from in s.info && s.info[from].active
    ensures Settled(Welcome(s, from), id, c)
            == if from == id then AfterMessage(Settled(s, id, c), Response(s, id)) else Settled(s, id, c)
  {
    hide Send, Broadcast, Settled, AfterMessage, Response, JoinedText, ClientListText;
    var answered := Send(s, from, Response(s, from));
    SendGrows(s, from, Response(s, from), e => true);
    if from == id {
      SendArrives(s, Response(s, from), id, c);
    } else {
      SendSettles(s, from, Response(s, from), id, c);
    }
    var complete := Update(answered, from, answered.info[from].(appHandshakeComplete := true));
    SameLog(answered, complete, id, c);
    var joined := JoinedText(from, complete.info[from]);
    JoinedIsNotice(from, complete.info[from]);
    NoticeSettles(complete, EveryoneBut(from), joined, id, c);
    BroadcastGrows(complete, EveryoneBut(from), Command(joined), e => true);
    var announced := Broadcast(complete, EveryoneBut(from), Command(joined));
    var list := ClientListText(announced);
    ClientListIsNotice(announced);
    HarmlessSend(announced, from, list, id, c);
    if s.sharedTree.Some? {
      var informed, tree := Send(announced, from, Command(list)), FileSystemUpdate(s.sharedTree.value);
      HarmlessLeavesAlone(Settled(informed, id, c), tree);
      SendSettles(informed, from, tree, id, c);
    }
  }

  lemma JoinedIsNotice(id: uint32, sess: Sess)
    ensures Notice(JoinedText(id, sess))
  {
    hide Text.ToString;
    assert JoinedText(id, sess)[0] == 'c';
    NoticeByFirstLetter(JoinedText(id, sess));
  }

  /** The handshakes a client object sends carry its own name. */
  predicate SaysName(step: Step, id: uint32, name: string) {
    step.MessageArrives? && step.id == id && step.packet.Handshake? ==>
      step.packet.payload.Some? && step.packet.payload.value.clientName == name
  }

  lemma OwnHelloKeepsAgree(s: Server, id: uint32, h: HandshakePayload, name: string)
    requires Inv(s) && id in s.info && s.info[id].active && Agree(s, id, name) && h.clientName == name
    ensures Agree(FromSession(s, id, Handshake(Some(h))), id, name)
  {
    hide Welcome, Admit, Settled, AfterMessages, Authenticated, Inv, Send;
    var c := Connects(name);
    var greeting := Greeting(s, id);
    SameLog(s, greeting, id, c);
    HandshakeSets(greeting, id, Some(h));
    AdmitNames(greeting, id, h);
    var admitted := Admit(greeting, id, h);
    if Authenticated(greeting, h) {
      SameLog(greeting, admitted, id, c);
      WelcomeSettles(admitted, id, id, c);
    } else {
      GreetedNeedsHello(s, id);
    }
  }

  lemma GreetedNeedsHello(s: Server, id: uint32)
    requires Inv(s) && id in s.info
    ensures s.info[id].greeted ==> s.info[id].hellos > 0
  {
  }

  lemma AdmitNames(s: Server, id: uint32, h: HandshakePayload)
    requires id in s.info
    ensures var r := Admit(s, id, h);
            && r.log == s.log && r.info.Keys == s.info.Keys
            && r.info[id].name == h.clientName
            && r.info[id].hellos == s.info[id].hellos && r.info[id].active == s.info[id].active
            && forall x :: x in s.info && x != id ==> r.info[x] == s.info[x]
  {
  }

  lemma OtherHelloKeepsAgree(s: Server, from: uint32, payload: Option<HandshakePayload>, id: uint32, name: string)
    requires from in s.info && s.info[from].active && id in s.info && from != id && Agree(s, id, name)
    ensures Agree(FromSession(s, from, Handshake(payload)), id, name)
  {
    hide Welcome, Admit, Settled, Authenticated, Send;
    var c := Connects(name);
    var greeting := Greeting(s, from);
    var r := FromSession(s, from, Handshake(payload));
    SameLog(s, greeting, id, c);
    HandshakeSets(greeting, from, payload);
    match payload
    case None => EffectSettles(greeting, [CloseRequested(from)], id, c);
    case Some(h) =>
      AdmitNames(greeting, from, h);
      if Authenticated(greeting, h) {
        SameLog(greeting, Admit(greeting, from, h), id, c);
        WelcomeSettles(Admit(greeting, from, h), from, id, c);
      } else {
        SendSettles(greeting, from, Command("auth_failed"), id, c);
        EffectSettles(Send(greeting, from, Command("auth_failed")), [CloseRequested(from)], id, c);
      }
    AgreeFrame(s, r, id, name);
  }

  lemma LimitedCommandKeepsAgree(s: Server, from: uint32, text: string, id: uint32, name: string)
    requires Inv(s) && from in s.info && s.info[from].appHandshakeComplete && id in s.info && Agree(s, id, name)
    ensures Agree(ProcessLimitedCommand(s, from, text), id, name)
  {
    hide Send, HostInfo, Settled, AfterMessages;
    var c, r := Connects(name), ProcessLimitedCommand(s, from, text);
    LimitedCommandSets(s, from, text);
    if text == "request_host_info" {
      if from != id || (s.info[id].greeted && s.info[id].hellos == 1) {
        SendSettles(s, from, HostInfo(s), id, c);
      }
    } else {
      var t := "unknown_limited_command: " + text;
      assert t[0] == 'u';
      NoticeByFirstLetter(t);
      HarmlessSend(s, from, t, id, c);
    }
  }

  lemma DisconnectKeepsAgree(s: Server, from: uint32, id: uint32, name: string)
    requires from in s.info && id in s.info && Agree(s, id, name)
    ensures Agree(HandleDisconnect(s, from), id, name)
  {
    hide Broadcast, LeftText, Settled;
    var c, r := Connects(name), HandleDisconnect(s, from);
    DisconnectSets(s, from);
    var hostless := s.(host := 0, hostScreenWidth := 0, hostScreenHeight := 0);
    var left := LeftText(from, s.info[from]);
    LeftIsNotice(from, s.info[from]);
    NoticeByFirstLetter("host_left");
    SameLog(s, hostless, id, c);
    NoticeSettles(hostless, Everyone, "host_left", id, c);
    NoticeSettles(Broadcast(hostless, Everyone, Command("host_left")), Everyone, left, id, c);
    NoticeSettles(s, Everyone, left, id, c);
    var unhosted := if from == s.host && s.host != 0 then Broadcast(hostless, Everyone, Command("host_left")) else s;
    SameLog(Broadcast(unhosted, Everyone, Command(left)), r, id, c);
    AgreeFrame(s, r, id, name);
  }

  lemma LeftIsNotice(id: uint32, sess: Sess)
    ensures Notice(LeftText(id, sess))
  {
    hide Text.ToString;
    assert LeftText(id, sess)[0] == 'c';
    NoticeByFirstLetter(LeftText(id, sess));
  }

  lemma FromSessionKeepsAgree(s: Server, from: uint32, p: Packet, id: uint32, name: string)
    requires Inv(s) && from in s.info && s.info[from].active && id in s.info && Agree(s, id, name)
    requires SaysName(MessageArrives(from, p), id, name)
    ensures Agree(FromSession(s, from, p), id, name)
  {
    hide ProcessCommand, ProcessLimitedCommand, ProcessHandshake, Broadcast, Settled, AfterMessages, Inv;
    var c, r := Connects(name), FromSession(s, from, p);
    if p.Handshake? {
      if from == id {
        OwnHelloKeepsAgree(s, id, p.payload.value, name);
      } else {
        OtherHelloKeepsAgree(s, from, p.payload, id, name);
      }
    } else if !s.info[from].appHandshakeComplete {
      SameLog(s, r, id, c);
      AgreeFrame(s, r, id, name);
    } else {
      match p
      case Command(text) =>
        CommandKeepsAgree(s, from, text, id, name);
        LimitedCommandKeepsAgree(s, from, text, id, name);
      case Chat(data) =>
        HarmlessLeavesAlone(Settled(s, id, c), p);
        BroadcastSettles(s, Everyone, p, id, c);
        BroadcastGrows(s, Everyone, p, e => true);
      case Input(ok, data) =>
        HarmlessLeavesAlone(Settled(s, id, c), p);
        BroadcastSettles(s, Receivers(true), p, id, c);
        BroadcastGrows(s, Receivers(true), p, e => true);
      case FileUpload(saved) =>
        UploadSettles(s, saved, id, c);
        UploadGrows(s, saved, e => true);
      case FileRequest(found, answer) =>
        HarmlessLeavesAlone(Settled(s, id, c), FileReply(found, answer));
        SendSettles(s, from, FileReply(found, answer), id, c);
        SendGrows(s, from, FileReply(found, answer), e => true);
      case _ =>
    }
  }

  lemma UploadSettles(s: Server, saved: Option<SavedFile>, id: uint32, c: Core)
    ensures Settled(ProcessFileUpload(s, saved), id, c) == Settled(s, id, c)
  {
    hide Broadcast, AfterMessages;
    if saved.Some? {
      var shared, p := s.(sharedTree := Some(saved.value.tree)), FileSystemUpdate(saved.value.tree);
      SameLog(s, shared, id, c);
      HarmlessLeavesAlone(Settled(shared, id, c), p);
      BroadcastSettles(shared, Everyone, p, id, c);
    }
  }

  lemma NextKeepsAgree(s: Server, step: Step, id: uint32, name: string)
    requires Inv(s) && Agree(s, id, name) && SaysName(step, id, name)
    requires Next(s, step).accepts < TWO_TO_THE_32
    ensures Agree(Next(s, step), id, name)
  {
    hide FromSession, HandleDisconnect, AfterMessages, Inv;
    var c, r := Connects(name), Next(s, step);
    if Enabled(s, step) {
      if id !in s.info {
        StrangerGetsNothing(s, step, id);
        assert AfterMessages(c, []) == c by { AfterNone(c); }
        FreshHasNoHello(s, step, id);
      } else {
        match step
        case AcceptCompletes(admitted) =>
          if admitted { NextIdIsNew(s); }
          AgreeFrame(s, r, id, name);
        case MessageArrives(from, p) => FromSessionKeepsAgree(s, from, p, id, name);
        case SessionCloses(from) => AgreeFrame(s, r, id, name);
        case DisconnectReported(from) => DisconnectKeepsAgree(s, from, id, name);
        case StopRuns =>
          if s.status == Running {
            EffectSettles(s, CloseRequests(s.listed), id, c);
            SameLog(s.(log := s.log + CloseRequests(s.listed)), r, id, c);
          }
          AgreeFrame(s, r, id, name);
      }
    }
  }

  lemma {:induction false} AfterNone(c: Core)
    ensures AfterMessages(c, []) == c
  {
  }

  lemma NextIdIsNew(s: Server)
    requires Inv(s) && s.accepts + 1 < TWO_TO_THE_32
    ensures s.nextId !in s.info
  {
  }

  lemma FreshHasNoHello(s: Server, step: Step, id: uint32)
    requires id !in s.info
    ensures id in Next(s, step).info ==> Next(s, step).info[id] == NEW_SESSION
  {
    hide ProcessHandshake, Admit, ProcessCommand, ProcessLimitedCommand, HandleDisconnect, Broadcast;
    if Enabled(s, step) {
      match step
      case MessageArrives(from, Handshake(payload)) =>
        var greeting := Greeting(s, from);
        HandshakeSets(greeting, from, payload);
        if payload.Some? {
          AdmitNames(greeting, from, payload.value);
        }
      case MessageArrives(from, Command(text)) =>
        CommandSets(s, from, text);
        LimitedCommandSets(s, from, text);
      case MessageArrives(from, Chat(data)) => BroadcastGrows(s, Everyone, Chat(data), e => true);
      case MessageArrives(from, Input(ok, data)) => BroadcastGrows(s, Receivers(true), Input(ok, data), e => true);
      case MessageArrives(from, FileUpload(saved)) => UploadGrows(s, saved, e => true);
      case MessageArrives(from, FileRequest(found, answer)) =>
        SendGrows(s, from, FileReply(found, answer), e => true);
      case DisconnectReported(from) => DisconnectSets(s, from);
      case _ =>
    }
  }

  lemma {:induction false} StrangerGetsNothing(s: Server, step: Step, id: uint32)
    requires id !in s.info && Inbox(s.log, id) == []
    ensures Inbox(Next(s, step).log, id) == []
  {
    var r := Next(s, step);
    StepGrows(s, step, (e: Effect) => e.Sent? ==> e.to in s.info);
    var added := r.log[|s.log|..];
    assert r.log == s.log + added;
    InboxAppend(s.log, added, id);
    NotAddressed(added, id);
  }

  lemma {:induction false} NotAddressed(es: seq<Effect>, id: uint32)
    requires forall i :: 0 <= i < |es| ==> es[i].Sent? ==> es[i].to != id
    ensures Inbox(es, id) == []
  {
    if es != [] {
      NotAddressed(es[1..], id);
    }
  }

  lemma {:induction false} RunKeepsAgree(password: string, tree: Option<seq<byte>>, steps: seq<Step>, id: uint32,
                                         name: string)
    requires Run(Started(password, tree), steps).accepts < TWO_TO_THE_32
    requires forall i :: 0 <= i < |steps| ==> SaysName(steps[i], id, name)
    ensures Agree(Run(Started(password, tree), steps), id, name)
    decreases steps
  {
    hide Next, Inv, Agree, SaysName;
    var start := Started(password, tree);
    if steps != [] {
      var init := steps[..|steps| - 1];
      AcceptsOnlyGrow(Run(start, init), steps[|steps| - 1]);
      RunKeepsAgree(password, tree, init, id, name);
      ServerSafety(password, tree, init);
      NextKeepsAgree(Run(start, init), steps[|steps| - 1], id, name);
    } else {
      assert Agree(start, id, name) by { StartAgrees(password, tree, id, name); }
    }
  }

  lemma StartAgrees(password: string, tree: Option<seq<byte>>, id: uint32, name: string)
    ensures Agree(Started(password, tree), id, name)
  {
  }

  /** In every reachable state, for a session that is active and whose client's one handshake
      has been accepted: wherever the client is in reading what was sent to it, applying the
      packets still in transit leaves it connected under the server's name for it. */
  lemma {:induction false} NamesAgree(password: string, tree: Option<seq<byte>>, steps: seq<Step>, id: uint32,
                                      name: string, read: seq<Packet>, transit: seq<Packet>)
    requires Run(Started(password, tree), steps).accepts < TWO_TO_THE_32
    requires forall i :: 0 <= i < |steps| ==> SaysName(steps[i], id, name)
    requires Inbox(Run(Started(password, tree), steps).log, id) == read + transit
    ensures var s := Run(Started(password, tree), steps);
            id in s.info && s.info[id].active && s.info[id].greeted && s.info[id].hellos == 1 ==>
              var now := AfterMessages(Connects(name), read);
              var settled := AfterMessages(now, transit);
              settled.conn == Connected && settled.name == s.info[id].name && settled.clientId == id
  {
    RunKeepsAgree(password, tree, steps, id, name);
    AfterMessagesAppend(Connects(name), read, transit);
  }

  // ---------------------------------------------------------------- over the wire

  /** The client's fields are those its handled messages make of the initial ones. */
  lemma {:induction false} CoreFollowsDelivered(decode: Wire.Msg -> Packet, core: Core, r: Reader)
    requires r.core == AfterMessages(core, Decoded(decode, r.delivered))
    ensures var d := Drain(decode, r);
            d.core == AfterMessages(core, Decoded(decode, d.delivered))
  {
    hide Drain, Handled, AfterMessages, Decoded, Wire.WithReuse, Wire.Frames;
    DrainDelivers(decode, r);
    var h := Handled(decode, r.core, Wire.WithReuse(r.body, Wire.Frames(r.partial)));
    DecodedAppend(decode, r.delivered, h);
    AfterMessagesAppend(core, Decoded(decode, r.delivered), Decoded(decode, h));
  }

  /** The same agreement through the write queue, the byte pipe and the reassembly loop: if what
      the transport has accepted or still has posted is what the server sent, in messages with
      bodies, handling all that is not yet handled settles on the server's name. */
  lemma {:induction false} WireAgrees(s: Server, id: uint32, name: string, decode: Wire.Msg -> Packet,
                                      t: EndToEnd.System)
    requires Agree(s, id, name) && id in s.info
    requires EndToEnd.WriterInv(t) && EndToEnd.ClientInv(decode, Connects(name), t) && !t.userClosed
    requires Decoded(decode, t.accepted + t.posted) == Inbox(s.log, id)
    requires forall i :: 0 <= i < |t.accepted| ==> t.accepted[i].body != []
    ensures |t.client.delivered| <= |t.accepted + t.posted|
    ensures s.info[id].active && s.info[id].greeted && s.info[id].hellos == 1 ==>
              var rest := (t.accepted + t.posted)[|t.client.delivered|..];
              var settled := AfterMessages(t.client.core, Decoded(decode, rest));
              settled.conn == Connected && settled.name == s.info[id].name && settled.clientId == id
  {
    hide Inbox, AfterMessages, Decoded, EndToEnd.WriterInv;
    var core := Connects(name);
    EndToEnd.InvDeliversPrefix(decode, core, t);
    Wire.WithReuseKeepsFull([], t.accepted);
    var done, all := t.client.delivered, t.accepted + t.posted;
    var rest := all[|done|..];
    assert all == done + rest;
    DecodedAppend(decode, done, rest);
    var initial := Fresh(core);
    EmptyDecoded(decode, core);
    CoreFollowsDelivered(decode, core, initial.(partial := initial.partial + t.fed));
    AfterMessagesAppend(core, Decoded(decode, done), Decoded(decode, rest));
  }

  lemma DecodedAppend(decode: Wire.Msg -> Packet, a: seq<Wire.Msg>, b: seq<Wire.Msg>)
    ensures Decoded(decode, a + b) == Decoded(decode, a) + Decoded(decode, b)
  {
  }

  lemma {:induction false} EmptyDecoded(decode: Wire.Msg -> Packet, core: Core)
    ensures AfterMessages(core, Decoded(decode, [])) == core
  {
  }
}
