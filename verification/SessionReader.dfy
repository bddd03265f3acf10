/**
  The session's exact-length reader: nine bytes for a header, then exactly the declared body,
  with the rule that the first message must be a handshake. Compared with the client's
  buffered reader over the same bytes.
 */
module SessionReader {
  import opened Prelude
  import opened Packets
  import opened Wire
  import ClientConnection

  /** `inBody` says which of the two reads is outstanding. `inbox` holds the bytes that have
      arrived and are not consumed; `arrived` and `handled` are histories, `raw` that of the
      frames read in full, with their own bodies. */
  datatype Reader = Reader(
    active: bool,
    appHandshakeComplete: bool,
    inBody: bool,
    kind: byte,
    clientId: uint32,
    bodySize: uint32,
    body: seq<byte>,
    inbox: seq<byte>,
    arrived: seq<byte>,
    raw: seq<Msg>,
    handled: seq<Msg>)

  /** The state in which the secure channel is up and the first header read is started. */
  const WAITING_FOR_HELLO := Reader(true, false, false, UNKNOWN, 0, 0, [], [], [], [], [])

  function Awaited(r: Reader): nat {
    if r.inBody then r.bodySize else HEADER_LENGTH
  }

  function Close(r: Reader): Reader {
    if !r.active then r else r.(active := false, appHandshakeComplete := false)
  }

  /** The message in the reused object goes to the handler if the session has seen its
      handshake or this is it; otherwise the session closes. */
  function Dispatch(r: Reader): Reader {
    var m := Msg(r.kind, r.clientId, r.body);
    if r.appHandshakeComplete || r.kind == HANDSHAKE then
      r.(appHandshakeComplete := true, inBody := false, handled := r.handled + [m])
    else Close(r.(inBody := false))
  }

  function HandleReadHeader(r: Reader, bytes: seq<byte>): Reader
    requires |bytes| == HEADER_LENGTH
  {
    if !r.active then r
    else
      var h := r.(kind := bytes[0], clientId := BytesU32(bytes[1..5]), bodySize := BytesU32(bytes[5..9]));
      if h.bodySize > 0 then h.(inBody := true)
      else Dispatch(h.(raw := h.raw + [Msg(h.kind, h.clientId, [])]))
  }

  function HandleReadBody(r: Reader, bytes: seq<byte>): Reader
    requires |bytes| == r.bodySize
  {
    if !r.active then r
    else Dispatch(r.(body := bytes, raw := r.raw + [Msg(r.kind, r.clientId, bytes)]))
  }

  datatype Event = Arrives(bytes: seq<byte>) | ReadCompletes | Closes

  /** A read completes once its exact number of bytes has arrived. */
  function Next(r: Reader, e: Event): Reader {
    match e
    case Arrives(bytes) => r.(inbox := r.inbox + bytes, arrived := r.arrived + bytes)
    case Closes => Close(r)
    case ReadCompletes =>
      if !r.active || |r.inbox| < Awaited(r) then r
      else
        var n := Awaited(r);
        var rest := r.(inbox := r.inbox[n..]);
        if r.inBody then HandleReadBody(rest, r.inbox[..n]) else HandleReadHeader(rest, r.inbox[..n])
  }

  function Run(r: Reader, events: seq<Event>): Reader {
    if events == [] then r else Next(Run(r, events[..|events| - 1]), events[|events| - 1])
  }

  /** What may reach the handler out of a sequence of messages. */
  function Gated(ms: seq<Msg>): seq<Msg> {
    if ms != [] && ms[0].kind == HANDSHAKE then ms else []
  }

  /** The bytes of the frame whose header has been read. */
  function PendingHeader(r: Reader): seq<byte> {
    if r.inBody then Header(r.kind, r.clientId, r.bodySize) else []
  }

  ghost predicate Inv(r: Reader) {
    && AllFit(r.raw)
    && r.arrived == Stream(r.raw) + (PendingHeader(r) + r.inbox)
    && r.body == LastBody([], r.raw)
    && r.handled == Gated(WithReuse([], r.raw))
    && (r.inBody ==> r.bodySize > 0)
    && (r.active ==> (r.appHandshakeComplete <==> r.raw != []))
    && (r.active ==> (r.raw == [] || r.raw[0].kind == HANDSHAKE))
  }

  lemma ArrivesKeepsInv(r: Reader, bytes: seq<byte>)
    requires Inv(r)
    ensures Inv(Next(r, Arrives(bytes)))
  {
    hide Header, WithReuse, LastBody;
    Assoc(PendingHeader(r), r.inbox, bytes);
    Assoc(Stream(r.raw), PendingHeader(r) + r.inbox, bytes);
  }

  lemma {:induction false} LastReused(raw: seq<Msg>, m: Msg)
    ensures var last := if m.body == [] then LastBody([], raw) else m.body;
            && LastBody([], raw + [m]) == last
            && WithReuse([], raw + [m]) == WithReuse([], raw) + [m.(body := last)]
  {
    WithReuseAppend([], raw, [m]);
    var prev := LastBody([], raw);
    assert WithReuse(prev, [m]) == [if m.body == [] then m.(body := prev) else m] + [];
  }

  lemma {:induction false} ReuseKeepsKind(prev: seq<byte>, ms: seq<Msg>)
    requires ms != []
    ensures WithReuse(prev, ms)[0].kind == ms[0].kind
  {
  }

  lemma StreamOne(m: Msg)
    ensures Stream([m]) == Frame(m)
  {
    hide Frame;
    assert Stream([m]) == Frame(m) + Stream([]);
  }

  lemma InitInv()
    ensures Inv(WAITING_FOR_HELLO)
  {
    assert Stream([]) + ([] + []) == [];
  }

  /** A completed frame `m` extends the history by its bytes and is dispatched. */
  lemma DispatchKeepsInv(r: Reader, m: Msg, before: Reader)
    requires Inv(before) && before.active && Fits(m)
    requires r == before.(kind := m.kind, clientId := m.clientId, bodySize := r.bodySize,
                          body := if m.body == [] then before.body else m.body,
                          inbox := r.inbox, raw := before.raw + [m])
    requires PendingHeader(before) + before.inbox == Frame(m) + r.inbox
    ensures Inv(Dispatch(r))
  {
    hide Frame, Header, Stream, WithReuse, LastBody;
    StreamAppend(before.raw, [m]);
    StreamOne(m);
    Assoc(Stream(before.raw), Frame(m), r.inbox);
    LastReused(before.raw, m);
    if before.raw != [] {
      ReuseKeepsKind([], before.raw);
    }
  }

  lemma BodyReadKeepsInv(r: Reader)
    requires Inv(r) && r.active && r.inBody && |r.inbox| >= r.bodySize
    ensures Inv(Next(r, ReadCompletes))
  {
    hide Header, U32Bytes, BytesU32, Stream, WithReuse, LastBody, Dispatch;
    var bytes, rest := r.inbox[..r.bodySize], r.inbox[r.bodySize..];
    assert r.inbox == bytes + rest;
    var m := Msg(r.kind, r.clientId, bytes);
    Assoc(Header(r.kind, r.clientId, r.bodySize), bytes, rest);
    DispatchKeepsInv(r.(body := bytes, inbox := rest, raw := r.raw + [m]), m, r);
  }

  lemma HeaderReadKeepsInv(r: Reader)
    requires Inv(r) && r.active && !r.inBody && |r.inbox| >= HEADER_LENGTH
    ensures Inv(Next(r, ReadCompletes))
  {
    hide Header, U32Bytes, BytesU32, Stream, WithReuse, LastBody, Dispatch;
    var bytes, rest := r.inbox[..HEADER_LENGTH], r.inbox[HEADER_LENGTH..];
    assert r.inbox == bytes + rest && [] + r.inbox == r.inbox;
    var h := r.(kind := bytes[0], clientId := BytesU32(bytes[1..5]), bodySize := BytesU32(bytes[5..9]),
                inbox := rest);
    HeaderRebuilds(bytes);
    var header := Header(h.kind, h.clientId, h.bodySize);
    assert bytes[9..] == [] && header + [] == header;
    if h.bodySize == 0 {
      var m := Msg(h.kind, h.clientId, []);
      DispatchKeepsInv(h.(raw := h.raw + [m]), m, r);
    }
  }

  lemma {:induction false} RunKeepsInv(r: Reader, events: seq<Event>)
    requires Inv(r)
    ensures Inv(Run(r, events))
    decreases events
  {
    if events != [] {
      var before := Run(r, events[..|events| - 1]);
      RunKeepsInv(r, events[..|events| - 1]);
      match events[|events| - 1]
      case Arrives(bytes) => ArrivesKeepsInv(before, bytes);
      case ReadCompletes =>
        if before.active && |before.inbox| >= Awaited(before) {
          if before.inBody { BodyReadKeepsInv(before); } else { HeaderReadKeepsInv(before); }
        }
      case Closes =>
    }
  }

  /** The frames read so far are the first frames of what arrived. */
  lemma RawIsPrefix(r: Reader)
    requires Inv(r)
    ensures Frames(r.arrived) == r.raw + Frames(PendingHeader(r) + r.inbox)
    ensures r.handled <= Gated(WithReuse([], Frames(r.arrived)))
  {
    var tail := PendingHeader(r) + r.inbox;
    FramesOfStream(r.raw, tail);
    WithReuseAppend([], r.raw, Frames(tail));
    if r.raw != [] {
      ReuseKeepsKind([], r.raw);
    }
  }

  /** Nothing reaches the handler but a prefix of the messages on the wire, and nothing at all
      unless the first of them is a handshake; whatever arrives or closes, in any order. */
  lemma {:induction false} HandledIsGatedPrefix(events: seq<Event>)
    ensures var r := Run(WAITING_FOR_HELLO, events);
            && r.handled <= Gated(WithReuse([], Frames(r.arrived)))
            && (r.handled != [] ==> Frames(r.arrived) != [] && Frames(r.arrived)[0].kind == HANDSHAKE)
  {
    InitInv();
    RunKeepsInv(WAITING_FOR_HELLO, events);
    var r := Run(WAITING_FOR_HELLO, events);
    RawIsPrefix(r);
    if Frames(r.arrived) != [] {
      ReuseKeepsKind([], Frames(r.arrived));
    }
  }

  /** After a close nothing more reaches the handler. */
  lemma {:induction false} NothingHandledAfterClose(r: Reader, events: seq<Event>)
    requires !r.active
    ensures Run(r, events).handled == r.handled && !Run(r, events).active
    decreases events
  {
    if events != [] {
      NothingHandledAfterClose(r, events[..|events| - 1]);
    }
  }

  /** All the bytes of a run. */
  function Arrivals(events: seq<Event>): seq<byte> {
    if events == [] then []
    else
      var last := events[|events| - 1];
      Arrivals(events[..|events| - 1]) + if last.Arrives? then last.bytes else []
  }

  lemma {:induction false} ArrivedIsArrivals(r: Reader, events: seq<Event>)
    ensures Run(r, events).arrived == r.arrived + Arrivals(events)
    decreases events
  {
    if events == [] {
      assert r.arrived + [] == r.arrived;
    } else {
      var init, last := events[..|events| - 1], events[|events| - 1];
      ArrivedIsArrivals(r, init);
      Assoc(r.arrived, Arrivals(init), if last.Arrives? then last.bytes else []);
      assert Run(r, init).arrived + [] == Run(r, init).arrived;
    }
  }

  predicate NoClose(events: seq<Event>) {
    forall i :: 0 <= i < |events| ==> events[i] != Closes
  }

  /** Without a close from outside, the session closes only on a first frame that is no
      handshake. */
  lemma {:induction false} OnlyBadHelloCloses(events: seq<Event>)
    requires NoClose(events)
    ensures var r := Run(WAITING_FOR_HELLO, events);
            !r.active ==> r.raw != [] && r.raw[0].kind != HANDSHAKE
    decreases events
  {
    hide Header, BytesU32, Stream, WithReuse, LastBody;
    if events != [] {
      var init := events[..|events| - 1];
      assert forall i :: 0 <= i < |init| ==> init[i] == events[i];
      OnlyBadHelloCloses(init);
      InitInv();
      RunKeepsInv(WAITING_FOR_HELLO, init);
    }
  }

  /** No read can complete with the bytes that have arrived. */
  predicate Quiet(r: Reader) {
    !r.active || |r.inbox| < Awaited(r)
  }

  lemma QuietHasNoFrame(r: Reader)
    requires Inv(r) && r.active && Quiet(r)
    ensures Frames(r.arrived) == r.raw
  {
    RawIsPrefix(r);
    var tail := PendingHeader(r) + r.inbox;
    if r.inBody {
      HeaderFields(r.kind, r.clientId, r.bodySize, r.inbox);
    }
    assert !HasFrame(tail);
    assert r.raw + [] == r.raw;
  }

  /** Both readers see the same messages. Once every byte that can be read has been, the
      session has handled the frames of the stream behind its handshake gate, and the client
      fed the same bytes in any chunks has handled those frames up to one that stops it. */
  lemma {:induction false} ReadersAgree(decode: Msg -> Packet, core: ClientConnection.Core, events: seq<Event>,
                                        chunks: seq<seq<byte>>)
    requires NoClose(events) && Quiet(Run(WAITING_FOR_HELLO, events))
    requires Concat(chunks) == Arrivals(events)
    ensures var seen := WithReuse([], Frames(Arrivals(events)));
            && Run(WAITING_FOR_HELLO, events).handled == Gated(seen)
            && ClientConnection.FeedAll(decode, ClientConnection.Fresh(core), chunks).delivered
               == ClientConnection.Handled(decode, core, seen)
  {
    var r := Run(WAITING_FOR_HELLO, events);
    var stream := Arrivals(events);
    ArrivedIsArrivals(WAITING_FOR_HELLO, events);
    assert [] + stream == stream;
    InitInv();
    RunKeepsInv(WAITING_FOR_HELLO, events);
    if r.active {
      QuietHasNoFrame(r);
    } else {
      OnlyBadHelloCloses(events);
      RawIsPrefix(r);
      ReuseKeepsKind([], r.raw);
      ReuseKeepsKind([], Frames(stream));
    }
    StreamOfFrames(stream);
    ClientConnection.Reassembly(decode, core, chunks, Frames(stream), Remainder(stream));
  }
}
