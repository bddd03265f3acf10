/**
  What every step of the server tells every session, written down per recipient and apart from
  the handlers that do the sending; and what a connecting client makes of it.
 */
module Notices {
  import opened Prelude
  import opened Text
  import opened Packets
  import opened HostCommands
  import opened Authority
  import opened AuthorityProofs
  import opened InputRouting
  import opened NameAgreement
  import C = ClientConnection

  /** A listed session that has completed its handshake. */
  predicate Hears(s: Server, x: uint32) {
    x in s.listed && x in s.info && s.info[x].appHandshakeComplete
  }

  function RoleName(role: Role): string {
    match role
    case Host => "Host"
    case Broadcaster => "Broadcaster"
    case Receiver => "Receiver"
    case OtherRole(_) => "UnknownRole"
  }

  /** One entry for each of these sessions that has completed its handshake, in order. */
  function Entries(s: Server, ids: seq<uint32>): seq<string> {
    if ids == [] then []
    else
      var id := ids[|ids| - 1];
      Entries(s, ids[..|ids| - 1])
      + if id in s.info && s.info[id].appHandshakeComplete then
          [ToString(id) + "," + s.info[id].name + "," + RoleName(s.info[id].role)]
        else []
  }

  /** The texts with a separator between each and the next. */
  function Separated(texts: seq<string>, separator: string): string {
    if texts == [] then ""
    else if |texts| == 1 then texts[0]
    else Separated(texts[..|texts| - 1], separator) + separator + texts[|texts| - 1]
  }

  /** The answer to an accepted handshake: the role it was given, the session's id and the
      recorded screen of the host, if there is one. */
  function Answer(after: Server, id: uint32): Packet
    requires id in after.info
  {
    var width := if after.host == 0 then 0 else after.hostScreenWidth;
    var height := if after.host == 0 then 0 else after.hostScreenHeight;
    Handshake(Some(HandshakePayload(after.info[id].role, "Server", "", id, width, height)))
  }

  /** What an accepted handshake under `name` tells `x`, given the state after it: to the sender
      the answer, the list of clients, and the file tree exactly if it is not the host and one is
      shared; to every other session that its sender has joined. */
  function ToldOfHello(after: Server, id: uint32, name: string, x: uint32): seq<Packet>
    requires id in after.info
  {
    if x == id then
      [Answer(after, id), Command("current_clients:" + Separated(Entries(after, after.listed), ";"))]
      + if after.info[id].role != Host && after.sharedTree.Some? then
          [FileSystemUpdate(after.sharedTree.value)]
        else []
    else if Hears(after, x) then
      [Command("client_joined:" + ToString(id) + ":" + name + ":" + RoleName(after.info[id].role))]
    else []
  }

  /** What a command of the host tells `x`. */
  function ToldOfCommand(s: Server, id: uint32, text: string, x: uint32): seq<Packet> {
    match Parse(text)
    case ShutdownServer => if Hears(s, x) then [Command("server_shutdown_imminent")] else []
    case Rename(target, name) =>
      if target in s.listed then
        (if x == target && Reachable(s, x) then [Command("you_were_renamed:" + name)] else [])
        + (if Hears(s, x) then [Command("client_renamed:" + ToString(target) + ":" + name)] else [])
      else []
    case Unrecognized => if x == id then [Command("unknown_command:" + text)] else []
    case Kick(_) => []
    case ToggleInput(_, _) => []
    case Malformed => []
  }

  predicate Reachable(s: Server, x: uint32) {
    x in s.info && s.info[x].active
  }

  /** What the others' commands tell their sender. */
  function ToldOfLimitedCommand(s: Server, text: string): Packet {
    if text == "request_host_info" then
      var name := if s.listed == [] || s.host == 0 then "No Host"
                  else if s.host in s.listed && s.host in s.info then s.info[s.host].name
                  else "Host";
      Handshake(Some(HandshakePayload(Host, name, "", s.host, s.hostScreenWidth, s.hostScreenHeight)))
    else Command("unknown_limited_command: " + text)
  }

  /** What a message tells `x` once its sender may send more than a handshake. */
  function ToldOfMessage(s: Server, id: uint32, p: Packet, x: uint32): seq<Packet>
    requires id in s.info && !p.Handshake?
  {
    match p
    case Input(parses, _) => if parses && id == s.host && Eligible(s, x) then [p] else []
    case Chat(_) => if Hears(s, x) then [p] else []
    case Command(text) =>
      if s.info[id].role != Host then (if x == id then [ToldOfLimitedCommand(s, text)] else [])
      else if id == s.host then ToldOfCommand(s, id, text, x)
      else []
    case FileUpload(saved) =>
      if saved.Some? && saved.value.announced && s.status == Running && Hears(s, x) then
        [FileSystemUpdate(saved.value.tree)]
      else []
    case FileRequest(found, answer) => if x == id then [OtherPacket(if found then 12 else 13, answer)] else []
    case _ => []
  }

  /** What a step tells `x`, in order. */
  function Told(s: Server, step: Step, x: uint32): seq<Packet> {
    if !Enabled(s, step) then []
    else
      match step
      case MessageArrives(id, Handshake(Some(h))) =>
        if s.password != "" && h.password != s.password then (if x == id then [Command("auth_failed")] else [])
        else if id in Next(s, step).info then ToldOfHello(Next(s, step), id, h.clientName, x)
        else []
      case MessageArrives(_, Handshake(None)) => []
      case MessageArrives(id, p) => if s.info[id].appHandshakeComplete then ToldOfMessage(s, id, p, x) else []
      case DisconnectReported(id) =>
        if Hears(s, x) then
          (if id == s.host then [Command("host_left")] else [])
          + [Command("client_left:" + ToString(id) + ":" + s.info[id].name)]
        else []
      case _ => []
  }

  // ---------------------------------------------------------------- what sending adds

  /** From `s` to `r` the log grows, by `ps` as far as `x` is concerned. */
  ghost predicate Tells(s: Server, r: Server, x: uint32, ps: seq<Packet>) {
    s.log <= r.log && Inbox(r.log[|s.log|..], x) == ps
  }

  lemma {:induction false} TellsTwice(s: Server, t: Server, r: Server, x: uint32, a: seq<Packet>, b: seq<Packet>)
    requires Tells(s, t, x, a) && Tells(t, r, x, b)
    ensures Tells(s, r, x, a + b)
  {
    hide Inbox;
    assert r.log[|s.log|..] == t.log[|s.log|..] + r.log[|t.log|..];
    InboxAppend(t.log[|s.log|..], r.log[|t.log|..], x);
  }

  lemma {:induction false} TellsNothing(s: Server, r: Server, x: uint32, es: seq<Effect>)
    requires r.log == s.log + es && forall i :: 0 <= i < |es| ==> !es[i].Sent?
    ensures Tells(s, r, x, [])
  {
    assert r.log[|s.log|..] == es;
    NoSendsNoInbox(es, x);
  }

  lemma {:induction false} SameLog(s: Server, r: Server, x: uint32)
    requires r.log == s.log
    ensures Tells(s, r, x, [])
  {
    assert r.log == s.log + [];
    TellsNothing(s, r, x, []);
  }

  lemma {:induction false} InboxOfSends(s: Server, ids: seq<uint32>, p: Packet, x: uint32)
    requires Distinct(ids)
    ensures Inbox(Sends(s, ids, p), x) == if x in ids && Reachable(s, x) then [p] else []
  {
    if ids != [] {
      var head := if ids[0] in s.info && s.info[ids[0]].active then [Sent(ids[0], p)] else [];
      DistinctTail(ids);
      InboxOfSends(s, ids[1..], p, x);
      InboxAppend(head, Sends(s, ids[1..], p), x);
      if head != [] {
        assert head[1..] == [] && Inbox(head, x) == (if ids[0] == x then [p] else []) + [];
      }
      if x == ids[0] {
        assert x !in ids[1..];
      }
    }
  }

  lemma {:induction false} SendTells(s: Server, id: uint32, p: Packet, x: uint32)
    ensures Tells(s, Send(s, id, p), x, if x == id && Reachable(s, x) then [p] else [])
  {
    hide Inbox, Sends;
    InboxOfSends(s, [id], p, x);
    assert (s.log + Sends(s, [id], p))[|s.log|..] == Sends(s, [id], p);
  }

  lemma {:induction false} BroadcastTells(s: Server, audience: Audience, p: Packet, x: uint32)
    requires Distinct(s.listed)
    ensures Tells(s, Broadcast(s, audience, p), x,
                  if x in s.listed && Wanted(s, audience, x) && Reachable(s, x) then [p] else [])
  {
    hide Inbox, Sends, Recipients, Wanted, Distinct;
    var to := Recipients(s, audience, s.listed);
    RecipientsAreWanted(s, audience, s.listed);
    InboxOfSends(s, to, p, x);
    assert (s.log + Sends(s, to, p))[|s.log|..] == Sends(s, to, p);
  }

  /** A completed session is active, so a broadcast reaches all that hear. */
  lemma {:induction false} EveryoneHears(s: Server, p: Packet, x: uint32)
    requires Distinct(s.listed) && (x in s.info && s.info[x].appHandshakeComplete ==> s.info[x].active)
    ensures Tells(s, Broadcast(s, Everyone, p), x, if Hears(s, x) then [p] else [])
  {
    hide Tells, Broadcast, Distinct;
    BroadcastTells(s, Everyone, p, x);
  }

  // ---------------------------------------------------------------- the list of clients

  lemma {:induction false} ListEntriesSnoc(s: Server, ids: seq<uint32>, id: uint32)
    ensures ListEntries(s, ids + [id]) == ListEntries(s, ids) + ListEntries(s, [id])
  {
    hide RoleString, ToString;
    if ids == [] {
      assert [] + [id] == [id] && "" + ListEntries(s, [id]) == ListEntries(s, [id]);
    } else {
      TailOfAppend(ids, [id]);
      ListEntriesSnoc(s, ids[1..], id);
      Assoc(ListEntries(s, [ids[0]]), ListEntries(s, ids[1..]), ListEntries(s, [id]));
      OneEntry(s, ids[0]);
    }
  }

  lemma {:induction false} OneEntry(s: Server, id: uint32)
    ensures ListEntries(s, [id])
            == if id in s.info && s.info[id].appHandshakeComplete then
                 ToString(id) + "," + s.info[id].name + "," + RoleName(s.info[id].role) + ";"
               else ""
  {
    hide ToString;
    assert [id][1..] == [] && ListEntries(s, []) == "";
  }

  /** The entries each followed by a semicolon are the separated ones and a last semicolon. */
  lemma {:induction false} EntriesAreSeparated(s: Server, ids: seq<uint32>)
    ensures var entries := Entries(s, ids);
            ListEntries(s, ids) == if entries == [] then "" else Separated(entries, ";") + ";"
    decreases ids
  {
    hide ToString, RoleName;
    if ids != [] {
      var init, id := ids[..|ids| - 1], ids[|ids| - 1];
      assert ids == init + [id];
      EntriesAreSeparated(s, init);
      ListEntriesSnoc(s, init, id);
      OneEntry(s, id);
      var before, entries := Entries(s, init), Entries(s, ids);
      if entries != before && before != [] {
        assert entries[..|entries| - 1] == before;
        Assoc(Separated(before, ";") + ";", entries[|entries| - 1], ";");
      }
    }
  }

  lemma {:induction false} ClientListIsSeparated(s: Server)
    ensures ClientListText(s) == "current_clients:" + Separated(Entries(s, s.listed), ";")
  {
    hide ListEntries, Entries, Separated;
    var entries := Entries(s, s.listed);
    EntriesAreSeparated(s, s.listed);
    NothingSeparated();
    if entries != [] {
      Assoc("current_clients:", Separated(entries, ";"), ";");
    }
  }

  lemma NothingSeparated()
    ensures Separated([], ";") == ""
  {
  }

  // ---------------------------------------------------------------- the handlers

  /** No session is listed twice and none that has completed its handshake is closed. */
  ghost predicate Orderly(s: Server) {
    Distinct(s.listed) && forall x :: x in s.info && s.info[x].appHandshakeComplete ==> s.info[x].active
  }

  lemma InvIsOrderly(s: Server)
    requires Inv(s)
    ensures Orderly(s)
  {
  }

  lemma {:induction false} SameEntries(s: Server, r: Server, ids: seq<uint32>)
    requires r.info == s.info
    ensures Entries(r, ids) == Entries(s, ids)
  {
    if ids != [] {
      SameEntries(s, r, ids[..|ids| - 1]);
    }
  }

  /** To whom the announcement of a newcomer goes. */
  lemma {:induction false} OthersHear(s: Server, id: uint32, p: Packet, x: uint32)
    requires Orderly(s)
    ensures Tells(s, Broadcast(s, EveryoneBut(id), p), x, if x != id && Hears(s, x) then [p] else [])
  {
    hide Tells, Broadcast, Distinct;
    BroadcastTells(s, EveryoneBut(id), p, x);
  }

  /** What the steps of a welcome tell one after the other. */
  function Welcomed(s: Server, id: uint32, x: uint32, list: string): seq<Packet>
    requires id in s.info
  {
    (if x == id then [Response(s, id)] else [])
    + (if x != id && Hears(s, x) then [Command(JoinedText(id, s.info[id]))] else [])
    + (if x == id then [Command(list)] else [])
    + (if x == id && s.info[id].role != Host && s.sharedTree.Some? then [FileSystemUpdate(s.sharedTree.value)] else [])
  }

  lemma {:induction false} WelcomeChain(s: Server, id: uint32, x: uint32)
    requires Orderly(s) && id in s.info && s.info[id].active && s.info[id].appHandshakeComplete
    ensures var r := Welcome(s, id);
            r == s.(log := r.log) && Tells(s, r, x, Welcomed(s, id, x, ClientListText(r)))
  {
    hide Tells, Orderly, Sends, Recipients, ClientListText, JoinedText, Response;
    var answered := Send(s, id, Response(s, id));
    var joined := Command(JoinedText(id, s.info[id]));
    var announced := Broadcast(answered, EveryoneBut(id), joined);
    var list := Command(ClientListText(announced));
    var informed := Send(announced, id, list);
    var r := Welcome(s, id);
    var one := if x == id then [Response(s, id)] else [];
    var two := if x != id && Hears(s, x) then [joined] else [];
    var three := if x == id then [list] else [];
    var shares := s.info[id].role != Host && s.sharedTree.Some?;
    var four := if x == id && shares then [FileSystemUpdate(s.sharedTree.value)] else [];
    AlreadyComplete(answered, id);
    OrderlyLog(s, answered.log);
    SendTells(s, id, Response(s, id), x);
    OthersHear(answered, id, joined, x);
    SendTells(announced, id, list, x);
    TellsTwice(s, answered, announced, x, one, two);
    TellsTwice(s, announced, informed, x, one + two, three);
    if shares {
      SendTells(informed, id, FileSystemUpdate(s.sharedTree.value), x);
      TellsTwice(s, informed, r, x, one + two + three, four);
    } else {
      assert one + two + three + [] == one + two + three;
    }
    ListIgnoresLog(announced, r);
  }

  lemma {:induction false} ListIgnoresLog(s: Server, r: Server)
    requires r.info == s.info && r.listed == s.listed
    ensures ClientListText(r) == ClientListText(s)
  {
    hide Entries, Separated, ClientListText;
    ClientListIsSeparated(s);
    ClientListIsSeparated(r);
    SameEntries(s, r, s.listed);
  }

  lemma {:induction false} JoinedTextIs(id: uint32, sess: Sess)
    ensures JoinedText(id, sess) == "client_joined:" + ToString(id) + ":" + sess.name + ":" + RoleName(sess.role)
  {
    hide ToString;
  }

  lemma {:induction false} WelcomeTells(s: Server, id: uint32, x: uint32)
    requires Orderly(s) && id in s.info && s.info[id].active && s.info[id].appHandshakeComplete
    ensures var r := Welcome(s, id);
            id in r.info && Tells(s, r, x, ToldOfHello(r, id, s.info[id].name, x))
  {
    hide Tells, Orderly, Welcome, ToString, Entries, Separated, ClientListText, RoleName, JoinedText;
    var r := Welcome(s, id);
    WelcomeChain(s, id, x);
    ClientListIsSeparated(r);
    JoinedTextIs(id, s.info[id]);
    assert Response(s, id) == Answer(r, id);
    if x == id {
      var list := Command(ClientListText(r));
      assert [Response(s, id)] + [] + [list] == [Response(s, id), list];
    } else if Hears(s, x) {
      var joined := Command(JoinedText(id, s.info[id]));
      assert [] + [joined] + [] + [] == [joined];
    } else {
      assert Welcomed(s, id, x, ClientListText(r)) == [];
    }
  }

  /** Recording the name and role of an admitted session sends nothing. */
  lemma AdmitIsQuiet(s: Server, id: uint32, h: HandshakePayload)
    requires id in s.info && s.info[id].active && Orderly(s)
    ensures var r := Admit(Greeting(s, id), id, h);
            && Orderly(r) && r.log == s.log
            && id in r.info && r.info[id].active && r.info[id].appHandshakeComplete && r.info[id].name == h.clientName
  {
    hide Distinct, GrantedRole;
  }

  lemma {:induction false} HelloTells(s: Server, id: uint32, h: HandshakePayload, x: uint32)
    requires Orderly(s) && id in s.info && s.info[id].active
    ensures var r := FromSession(s, id, Handshake(Some(h)));
            if s.password != "" && h.password != s.password then
              Tells(s, r, x, if x == id then [Command("auth_failed")] else [])
            else id in r.info && Tells(s, r, x, ToldOfHello(r, id, h.clientName, x))
  {
    hide Tells, Orderly, Welcome, Admit, ToldOfHello;
    var greeted := Greeting(s, id);
    SameLog(s, greeted, x);
    if s.password != "" && h.password != s.password {
      var refused := Send(greeted, id, Command("auth_failed"));
      var told := if x == id then [Command("auth_failed")] else [];
      SendTells(greeted, id, Command("auth_failed"), x);
      TellsTwice(s, greeted, refused, x, [], told);
      TellsNothing(refused, RequestClose(refused, id), x, [CloseRequested(id)]);
      TellsTwice(s, refused, RequestClose(refused, id), x, [] + told, []);
      assert [] + told + [] == told;
    } else {
      var admitted := Admit(greeted, id, h);
      AdmitIsQuiet(s, id, h);
      SameLog(s, admitted, x);
      WelcomeTells(admitted, id, x);
      var told := ToldOfHello(Welcome(admitted, id), id, h.clientName, x);
      TellsTwice(s, admitted, Welcome(admitted, id), x, [], told);
      assert [] + told == told;
    }
  }

  lemma {:induction false} LimitedCommandTells(s: Server, id: uint32, text: string, x: uint32)
    requires id in s.info && s.info[id].active
    ensures Tells(s, ProcessLimitedCommand(s, id, text), x, if x == id then [ToldOfLimitedCommand(s, text)] else [])
  {
    hide Tells, Send;
    SendTells(s, id, HostInfo(s), x);
    SendTells(s, id, Command("unknown_limited_command: " + text), x);
  }

  lemma {:induction false} RenameTells(s: Server, target: uint32, name: string, x: uint32)
    requires Orderly(s) && target in s.info
    ensures var renamed := Update(s, target, s.info[target].(name := name));
            var told := Send(renamed, target, Command("you_were_renamed:" + name));
            var announced := Broadcast(told, Everyone, Command("client_renamed:" + ToString(target) + ":" + name));
            Tells(s, announced, x,
                  (if x == target && Reachable(s, x) then [Command("you_were_renamed:" + name)] else [])
                  + (if Hears(s, x) then [Command("client_renamed:" + ToString(target) + ":" + name)] else []))
  {
    hide Tells, ToString, Sends, Recipients, Distinct;
    var renamed := Update(s, target, s.info[target].(name := name));
    var you, all := Command("you_were_renamed:" + name), Command("client_renamed:" + ToString(target) + ":" + name);
    var told := Send(renamed, target, you);
    SameLog(s, renamed, x);
    SendTells(renamed, target, you, x);
    EveryoneHears(told, all, x);
    var one := if x == target && Reachable(s, x) then [you] else [];
    TellsTwice(s, renamed, told, x, [], one);
    assert [] + one == one;
    TellsTwice(s, told, Broadcast(told, Everyone, all), x, one, if Hears(s, x) then [all] else []);
  }

  lemma {:induction false} CommandTells(s: Server, id: uint32, text: string, x: uint32)
    requires Orderly(s) && id in s.info && s.info[id].active && id == s.host
    requires forall i :: 0 <= i < |s.listed| ==> s.listed[i] in s.info
    ensures Tells(s, ProcessCommand(s, id, text), x, ToldOfCommand(s, id, text, x))
  {
    hide Tells, Parse, Send, Broadcast, ToString, Distinct;
    match Parse(text)
    case ShutdownServer =>
      var p := Command("server_shutdown_imminent");
      var told := Broadcast(s, Everyone, p);
      var hears := if Hears(s, x) then [p] else [];
      EveryoneHears(s, p, x);
      TellsNothing(told, told.(log := told.log + [StopRequested]), x, [StopRequested]);
      TellsTwice(s, told, told.(log := told.log + [StopRequested]), x, hears, []);
      assert hears + [] == hears;
    case Kick(target) =>
      TellsNothing(s, RequestClose(s, target), x, [CloseRequested(target)]);
      SameLog(s, s, x);
    case Rename(target, name) =>
      SameLog(s, s, x);
      if target in s.info {
        RenameTells(s, target, name, x);
      }
    case ToggleInput(target, enabled) => SameLog(s, ProcessCommand(s, id, text), x);
    case Malformed => SameLog(s, s, x);
    case Unrecognized => SendTells(s, id, Command("unknown_command:" + text), x);
  }

  lemma OrderlyLog(s: Server, log: seq<Effect>)
    ensures Orderly(s.(log := log)) <==> Orderly(s)
  {
  }

  lemma AlreadyComplete(s: Server, id: uint32)
    requires id in s.info && s.info[id].appHandshakeComplete
    ensures Update(s, id, s.info[id].(appHandshakeComplete := true)) == s
  {
  }

  lemma {:induction false} MessageTells(s: Server, id: uint32, p: Packet, x: uint32)
    requires Inv(s) && id in s.info && s.info[id].active && s.info[id].appHandshakeComplete && !p.Handshake?
    ensures Tells(s, HandleMessage(s, id, p), x, ToldOfMessage(s, id, p, x))
  {
    hide Tells, ProcessCommand, ProcessLimitedCommand, ToldOfCommand, ToldOfLimitedCommand, Send, Broadcast, Distinct;
    InvIsOrderly(s);
    SameLog(s, s, x);
    match p
    case Input(parses, _) => BroadcastTells(s, Receivers(true), p, x);
    case Chat(_) => EveryoneHears(s, p, x);
    case Command(text) =>
      if s.info[id].role == Host {
        if id == s.host {
          ListedIsKnown(s);
          CommandTells(s, id, text, x);
        }
      } else {
        LimitedCommandTells(s, id, text, x);
      }
    case FileUpload(saved) =>
      if saved.Some? {
        UploadTells(s, saved.value, x);
      }
    case FileRequest(found, answer) => SendTells(s, id, FileReply(found, answer), x);
    case _ =>
  }

  lemma ListedIsKnown(s: Server)
    requires Inv(s)
    ensures forall i :: 0 <= i < |s.listed| ==> s.listed[i] in s.info
  {
    forall i | 0 <= i < |s.listed| ensures s.listed[i] in s.info {
      assert Present(s, s.listed[i]);
    }
  }

  lemma {:induction false} UploadTells(s: Server, saved: SavedFile, x: uint32)
    requires Orderly(s)
    ensures Tells(s, ProcessFileUpload(s, Some(saved)), x,
                  if saved.announced && s.status == Running && Hears(s, x) then [FileSystemUpdate(saved.tree)] else [])
  {
    hide Tells, Broadcast, Distinct;
    var shared := s.(sharedTree := Some(saved.tree));
    SameLog(s, shared, x);
    if saved.announced && s.status == Running {
      var told := if Hears(s, x) then [FileSystemUpdate(saved.tree)] else [];
      EveryoneHears(shared, FileSystemUpdate(saved.tree), x);
      TellsTwice(s, shared, Broadcast(shared, Everyone, FileSystemUpdate(saved.tree)), x, [], told);
      assert [] + told == told;
    }
  }

  lemma {:induction false} DisconnectTells(s: Server, id: uint32, x: uint32)
    requires Inv(s) && id in s.info
    ensures Tells(s, HandleDisconnect(s, id), x,
                  if Hears(s, x) then
                    (if id == s.host then [Command("host_left")] else [])
                    + [Command("client_left:" + ToString(id) + ":" + s.info[id].name)]
                  else [])
  {
    hide Tells, Sends, Recipients, ToString, Distinct, Without;
    InvIsOrderly(s);
    HostIsNotZero(s, id);
    var cleared := s.(host := 0, hostScreenWidth := 0, hostScreenHeight := 0);
    var unhosted := if id == s.host then Broadcast(cleared, Everyone, Command("host_left")) else s;
    var left := Command(LeftText(id, s.info[id]));
    var told := Broadcast(unhosted, Everyone, left);
    var r := HandleDisconnect(s, id);
    var one := if Hears(s, x) && id == s.host then [Command("host_left")] else [];
    var two := if Hears(s, x) then [left] else [];
    SameLog(s, s, x);
    SameLog(s, cleared, x);
    if id == s.host {
      EveryoneHears(cleared, Command("host_left"), x);
      TellsTwice(s, cleared, unhosted, x, [], one);
      assert [] + one == one;
    }
    EveryoneHears(unhosted, left, x);
    TellsTwice(s, unhosted, told, x, one, two);
    SameLog(told, r, x);
    TellsTwice(s, told, r, x, one + two, []);
    assert one + two + [] == one + two;
  }

  lemma HostIsNotZero(s: Server, id: uint32)
    requires Inv(s) && id in s.info
    ensures id != 0
  {
  }

  lemma {:induction false} UnreadableTells(s: Server, id: uint32, x: uint32)
    requires id in s.info && s.info[id].active
    ensures Tells(s, FromSession(s, id, Handshake(None)), x, [])
  {
    hide Tells;
    TellsNothing(s, FromSession(s, id, Handshake(None)), x, [CloseRequested(id)]);
  }

  lemma {:induction false} FromSessionTells(s: Server, id: uint32, p: Packet, x: uint32)
    requires Inv(s) && id in s.info && s.info[id].active && !p.Handshake?
    ensures Tells(s, FromSession(s, id, p), x,
                  if s.info[id].appHandshakeComplete then ToldOfMessage(s, id, p, x) else [])
  {
    hide Tells, HandleMessage, ToldOfMessage;
    if s.info[id].appHandshakeComplete {
      MessageTells(s, id, p, x);
    } else {
      SameLog(s, Close(s, id), x);
    }
  }

  lemma {:induction false} StopTells(s: Server, x: uint32)
    ensures Tells(s, Stop(s), x, [])
  {
    hide Tells;
    if s.status == Stopped {
      SameLog(s, s, x);
    } else {
      TellsNothing(s, Stop(s), x, CloseRequests(s.listed));
    }
  }

  /** In every state the server can reach: each step adds to what each session is sent exactly
      what is written down above for it, in that order. */
  lemma {:induction false} ToldExactly(s: Server, step: Step, x: uint32)
    requires Inv(s)
    ensures s.log <= Next(s, step).log
    ensures Inbox(Added(s, step), x) == Told(s, step, x)
  {
    hide FromSession, HandleDisconnect, ToldOfHello, ToldOfMessage, Inbox;
    InvIsOrderly(s);
    var r := Next(s, step);
    assert Tells(s, r, x, Told(s, step, x)) by {
      hide Tells;
      if !Enabled(s, step) {
        SameLog(s, r, x);
      } else {
        match step
        case MessageArrives(id, Handshake(Some(h))) => HelloTells(s, id, h, x);
        case MessageArrives(id, Handshake(None)) => UnreadableTells(s, id, x);
        case MessageArrives(id, p) => FromSessionTells(s, id, p, x);
        case DisconnectReported(id) => DisconnectTells(s, id, x);
        case StopRuns => StopTells(s, x);
        case _ => SameLog(s, r, x);
      }
    }
  }

  // ---------------------------------------------------------------- the newcomer's side

  /** So the answer to its handshake leaves a connecting client connected under its own name and
      the session's id, with the host's screen; a wrong password leaves it in error. */
  lemma {:induction false} HelloConnects(s: Server, id: uint32, h: HandshakePayload)
    requires Inv(s) && id in s.info && s.info[id].active
    ensures var step := MessageArrives(id, Handshake(Some(h)));
            var r, c := Next(s, step), C.AfterMessages(Connects(h.clientName), Inbox(Added(s, step), id));
            if s.password == "" || h.password == s.password then
              && c.conn == C.Connected && c.name == h.clientName && c.clientId == id
              && c.hostScreenWidth == (if r.host == 0 then 0 else r.hostScreenWidth)
              && c.hostScreenHeight == (if r.host == 0 then 0 else r.hostScreenHeight)
            else c == C.Core(C.Error, h.clientName, 0, 0, 0)
  {
    hide Next, Inbox, C.AfterMessages, C.LastRename, Entries, Separated;
    var step := MessageArrives(id, Handshake(Some(h)));
    ToldExactly(s, step, id);
    C.EndsAsToldBy(h.clientName, Told(s, step, id));
    HelloTells(s, id, h, id);
    NextIsFromSession(s, id, h);
    if s.password == "" || h.password == s.password {
      var told := Told(s, step, id);
      NotRenamed(h.clientName, told);
    }
  }

  lemma NextIsFromSession(s: Server, id: uint32, h: HandshakePayload)
    requires id in s.info && s.info[id].active
    ensures Next(s, MessageArrives(id, Handshake(Some(h)))) == FromSession(s, id, Handshake(Some(h)))
  {
    hide FromSession;
  }

  /** Nothing in a welcome renames its receiver. */
  lemma {:induction false} NotRenamed(name: string, told: seq<Packet>)
    requires 2 <= |told| <= 3 && (|told| == 3 ==> told[2].FileSystemUpdate?)
    requires told[1].Command? && told[1].text != "" && told[1].text[0] == 'c'
    ensures C.LastRename(name, told[1..]) == name
  {
    var rest := told[1..];
    assert C.LastRename(name, []) == name;
    assert C.LastRename(name, rest[..1]) == name by {
      assert rest[..1][..0] == [];
      if |told[1].text| >= 17 {
        assert told[1].text[..17][0] == told[1].text[0];
      }
    }
    if |told| == 3 {
      assert rest[..|rest| - 1] == rest[..1];
    } else {
      assert rest[..1] == rest;
    }
  }
}
