/**
  The client's side of a connection: the loop that cuts arbitrary chunks of the stream back
  into messages, and what each message does to the client.
 */
module ClientConnection {
  import opened Prelude
  import opened Packets
  import opened Wire

  datatype ConnState = Disconnected | Connecting | Connected | Error

  /** The fields a received message may change. */
  datatype Core = Core(
    conn: ConnState,
    name: string,
    clientId: uint32,
    hostScreenWidth: nat,
    hostScreenHeight: nat)

  const AUTH_FAILED := "auth_failed"
  const YOU_WERE_RENAMED := "you_were_renamed:"

  predicate Stopped(conn: ConnState) {
    conn == Disconnected || conn == Error
  }

  /** A handshake counts only while connecting; before it, every other message but the
      authentication failure is ignored. An unreadable handshake ends in Disconnected because
      the error handler closes the connection. */
  function AfterMessage(c: Core, p: Packet): Core {
    match p
    case Handshake(payload) =>
      if c.conn != Connecting then c
      else (
        match payload
        case None => c.(conn := Disconnected)
        case Some(h) => c.(conn := Connected, clientId := h.clientId,
                           hostScreenWidth := h.hostScreenWidth,
                           hostScreenHeight := h.hostScreenHeight)
      )
    case Command(text) =>
      if c.conn == Connecting && text == AUTH_FAILED then c.(conn := Error)
      else if c.conn == Connected && YOU_WERE_RENAMED <= text then
        c.(name := text[|YOU_WERE_RENAMED|..])
      else c
    case _ => c
  }

  function AfterMessages(c: Core, ps: seq<Packet>): Core {
    if ps == [] then c
    else AfterMessage(AfterMessages(c, ps[..|ps| - 1]), ps[|ps| - 1])
  }

  lemma {:induction false} AfterMessagesCons(c: Core, p: Packet, ps: seq<Packet>)
    ensures AfterMessages(c, [p] + ps) == AfterMessages(AfterMessage(c, p), ps)
  {
    var all := [p] + ps;
    if ps == [] {
      assert all == [p] && AfterMessages(c, all[..0]) == c;
    } else {
      assert all[..|all| - 1] == [p] + ps[..|ps| - 1];
      AfterMessagesCons(c, p, ps[..|ps| - 1]);
    }
  }

  /** The name a connected client has after these packets. */
  function LastRename(name: string, ps: seq<Packet>): string {
    if ps == [] then name
    else
      match ps[|ps| - 1]
      case Command(text) =>
        if |text| >= 17 && text[..17] == "you_were_renamed:" then text[17..]
        else LastRename(name, ps[..|ps| - 1])
      case _ => LastRename(name, ps[..|ps| - 1])
  }

  /** A client that connected under `name`, by the packets it has had: the first handshake or
      authentication failure decides. */
  function Outcome(name: string, ps: seq<Packet>): Core {
    if ps == [] then Core(Connecting, name, 0, 0, 0)
    else
      match ps[0]
      case Handshake(Some(h)) =>
        Core(Connected, LastRename(name, ps[1..]), h.clientId, h.hostScreenWidth, h.hostScreenHeight)
      case Handshake(None) => Core(Disconnected, name, 0, 0, 0)
      case Command(text) => if text == "auth_failed" then Core(Error, name, 0, 0, 0) else Outcome(name, ps[1..])
      case _ => Outcome(name, ps[1..])
  }

  lemma {:induction false} StoppedIgnores(c: Core, ps: seq<Packet>)
    requires Stopped(c.conn)
    ensures AfterMessages(c, ps) == c
    decreases ps
  {
    if ps != [] {
      StoppedIgnores(c, ps[..|ps| - 1]);
    }
  }

  lemma {:induction false} ConnectedIsRenamed(c: Core, ps: seq<Packet>)
    requires c.conn == Connected
    ensures AfterMessages(c, ps) == c.(name := LastRename(c.name, ps))
    decreases ps
  {
    if ps != [] {
      var init, last := ps[..|ps| - 1], ps[|ps| - 1];
      ConnectedIsRenamed(c, init);
      if last.Command? {
        PrefixIsFront(last.text);
      }
    }
  }

  lemma PrefixIsFront(text: string)
    ensures YOU_WERE_RENAMED <= text <==> |text| >= 17 && text[..17] == "you_were_renamed:"
  {
  }

  /** Whatever packets come: the client ends up as they say. */
  lemma {:induction false} EndsAsToldBy(name: string, ps: seq<Packet>)
    ensures AfterMessages(Core(Connecting, name, 0, 0, 0), ps) == Outcome(name, ps)
    decreases ps
  {
    hide LastRename;
    var start := Core(Connecting, name, 0, 0, 0);
    if ps != [] {
      var first, rest := ps[0], ps[1..];
      assert ps == [first] + rest;
      AfterMessagesCons(start, first, rest);
      if Stopped(AfterMessage(start, first).conn) {
        StoppedIgnores(AfterMessage(start, first), rest);
      } else if AfterMessage(start, first).conn == Connected {
        ConnectedIsRenamed(AfterMessage(start, first), rest);
      } else {
        EndsAsToldBy(name, rest);
      }
    }
  }

  /** Everything the read loop works on: `partial` is the unconsumed buffer, the next four
      fields are the reused message object, `delivered` is the history of messages handed
      to the handler. */
  datatype Reader = Reader(
    core: Core,
    partial: seq<byte>,
    kind: byte,
    clientId: uint32,
    bodySize: nat,
    body: seq<byte>,
    delivered: seq<Msg>)

  function Fresh(core: Core): Reader {
    Reader(core, [], UNKNOWN, 0, 0, [], [])
  }

  function ReadHeader(r: Reader): Reader
    requires |r.partial| >= HEADER_LENGTH
  {
    r.(kind := r.partial[0], clientId := BytesU32(r.partial[1..5]),
       bodySize := FrameLength(r.partial) - HEADER_LENGTH)
  }

  /** The message object once the frame at the front of the buffer is decoded into it. */
  function NextMsg(r: Reader): Msg
    requires HasFrame(r.partial)
  {
    var m := FirstFrame(r.partial);
    if m.body == [] then m.(body := r.body) else m
  }

  /** The frame at the front of the buffer is decoded, handled and dropped. */
  function ReadFrame(decode: Msg -> Packet, r: Reader): (r': Reader)
    requires HasFrame(r.partial)
    ensures |r'.partial| < |r.partial|
  {
    var m := NextMsg(r);
    ReadHeader(r).(body := m.body,
                   core := AfterMessage(r.core, decode(m)),
                   delivered := r.delivered + [m],
                   partial := r.partial[FrameLength(r.partial)..])
  }

  function Drain(decode: Msg -> Packet, r: Reader): Reader
    decreases |r.partial|
  {
    if Stopped(r.core.conn) || |r.partial| < HEADER_LENGTH then r
    else if HasFrame(r.partial) then Drain(decode, ReadFrame(decode, r))
    else ReadHeader(r)
  }

  /** One completed read of `chunk`. */
  function Feed(decode: Msg -> Packet, r: Reader, chunk: seq<byte>): Reader {
    Drain(decode, r.(partial := r.partial + chunk))
  }

  /** How a read completes: with bytes, at the end of the connection, with another error, or
      because it was cancelled. */
  datatype ReadResult = Bytes(chunk: seq<byte>) | PeerGone | ReadFailed | Cancelled

  function AfterRead(decode: Msg -> Packet, r: Reader, result: ReadResult): Reader {
    match result
    case Bytes(chunk) => Feed(decode, r, chunk)
    case Cancelled => r
    case _ => if Stopped(r.core.conn) then r else r.(core := r.core.(conn := Disconnected))
  }

  function FeedAll(decode: Msg -> Packet, r: Reader, chunks: seq<seq<byte>>): Reader
    decreases chunks
  {
    if chunks == [] then r
    else FeedAll(decode, Feed(decode, r, chunks[0]), chunks[1..])
  }

  // ---------------------------------------------------------------- chunking does not matter

  lemma {:induction false} DrainIsIdempotentOnEmpty(decode: Msg -> Packet, r: Reader)
    requires r.partial == []
    ensures Drain(decode, r) == r
  {
  }

  lemma {:induction false} DrainThenAppend(decode: Msg -> Packet, r: Reader, more: seq<byte>)
    ensures var d := Drain(decode, r);
            Drain(decode, d.(partial := d.partial + more))
            == Drain(decode, r.(partial := r.partial + more))
    decreases |r.partial|
  {
    if !Stopped(r.core.conn) && |r.partial| >= HEADER_LENGTH {
      var whole := r.partial + more;
      assert whole[1..5] == r.partial[1..5] && whole[5..9] == r.partial[5..9];
      if HasFrame(r.partial) {
        var n := FrameLength(r.partial);
        var next := ReadFrame(decode, r);
        assert whole[9..n] == r.partial[9..n];
        assert whole[n..] == r.partial[n..] + more;
        assert ReadFrame(decode, r.(partial := whole)) == next.(partial := next.partial + more);
        DrainThenAppend(decode, next, more);
      } else {
        var d := ReadHeader(r);
        var a, b := d.(partial := whole), r.(partial := whole);
        assert ReadHeader(a) == ReadHeader(b);
        if HasFrame(whole) {
          assert ReadFrame(decode, a) == ReadFrame(decode, b);
        }
      }
    }
  }

  lemma FeedTwice(decode: Msg -> Packet, r: Reader, a: seq<byte>, b: seq<byte>)
    ensures Feed(decode, Feed(decode, r, a), b) == Feed(decode, r, a + b)
  {
    DrainThenAppend(decode, r.(partial := r.partial + a), b);
    assert r.partial + a + b == r.partial + (a + b);
  }

  /** A buffer that has been drained: nothing more to do without more bytes. */
  predicate Drained(decode: Msg -> Packet, r: Reader) {
    Drain(decode, r) == r
  }

  /** However the stream is cut into reads, the outcome is that of one read of all of it. */
  lemma {:induction false} ChunkingIsIrrelevant(decode: Msg -> Packet, r: Reader, chunks: seq<seq<byte>>)
    requires Drained(decode, r)
    ensures FeedAll(decode, r, chunks) == Feed(decode, r, Concat(chunks))
    decreases chunks
  {
    if chunks == [] {
      assert r.partial + [] == r.partial;
    } else {
      var next := Feed(decode, r, chunks[0]);
      FeedIsDrained(decode, r, chunks[0]);
      ChunkingIsIrrelevant(decode, next, chunks[1..]);
      FeedTwice(decode, r, chunks[0], Concat(chunks[1..]));
    }
  }

  lemma FeedIsDrained(decode: Msg -> Packet, r: Reader, chunk: seq<byte>)
    ensures Drained(decode, Feed(decode, r, chunk))
  {
    FeedTwice(decode, r, chunk, []);
    var d := Feed(decode, r, chunk);
    assert d.partial + [] == d.partial;
    assert chunk + [] == chunk;
  }

  // ---------------------------------------------------------------- reads that fail

  function AfterReads(decode: Msg -> Packet, r: Reader, results: seq<ReadResult>): Reader {
    if results == [] then r
    else AfterRead(decode, AfterReads(decode, r, results[..|results| - 1]), results[|results| - 1])
  }

  predicate Ends(result: ReadResult) {
    result == PeerGone || result == ReadFailed
  }

  /** The bytes read before a read ends the connection. */
  function BytesRead(results: seq<ReadResult>): seq<byte> {
    if results == [] then []
    else
      match results[0]
      case Bytes(chunk) => chunk + BytesRead(results[1..])
      case Cancelled => BytesRead(results[1..])
      case _ => []
  }

  /** Whatever reads complete: the client has handled what it would from the bytes before the
      first read that ended the connection, and is stopped exactly if a message stopped it or
      there was such a read. */
  lemma {:induction false} ReadsUntilEnd(decode: Msg -> Packet, r: Reader, results: seq<ReadResult>)
    requires Drained(decode, r)
    ensures var d, whole := AfterReads(decode, r, results), Feed(decode, r, BytesRead(results));
            && d.delivered == whole.delivered
            && (Stopped(d.core.conn) <==>
                  Stopped(whole.core.conn) || exists i :: 0 <= i < |results| && Ends(results[i]))
    decreases results
  {
    hide Drain, AfterRead;
    if results == [] {
      assert r.partial + [] == r.partial;
    } else {
      var next, rest := AfterRead(decode, r, results[0]), results[1..];
      AfterReadsFirst(decode, r, results);
      match results[0]
      case Bytes(chunk) =>
        FeedIsDrained(decode, r, chunk);
        BytesAreFed(decode, r, chunk);
        ReadsUntilEnd(decode, next, rest);
        FeedTwice(decode, r, chunk, BytesRead(rest));
        assert !Ends(results[0]);
      case Cancelled =>
        CancelledIsNothing(decode, r);
        ReadsUntilEnd(decode, r, rest);
        assert !Ends(results[0]);
      case _ =>
        EndStops(decode, r, results[0]);
        NothingAfterStop(decode, next, rest);
        assert r.partial + [] == r.partial;
        assert Ends(results[0]);
      SomeEnds(results);
    }
  }

  lemma SomeEnds(results: seq<ReadResult>)
    requires results != []
    ensures (exists i :: 0 <= i < |results| && Ends(results[i]))
            <==> Ends(results[0]) || exists i :: 0 <= i < |results[1..]| && Ends(results[1..][i])
  {
    hide Ends;
    if i :| 0 <= i < |results[1..]| && Ends(results[1..][i]) {
      assert results[i + 1] == results[1..][i];
    }
    if i :| 0 < i < |results| && Ends(results[i]) {
      assert results[1..][i - 1] == results[i];
    }
  }

  lemma BytesAreFed(decode: Msg -> Packet, r: Reader, chunk: seq<byte>)
    ensures AfterRead(decode, r, Bytes(chunk)) == Feed(decode, r, chunk)
  {
  }

  lemma CancelledIsNothing(decode: Msg -> Packet, r: Reader)
    ensures AfterRead(decode, r, Cancelled) == r
  {
  }

  lemma EndStops(decode: Msg -> Packet, r: Reader, result: ReadResult)
    requires Ends(result)
    ensures var d := AfterRead(decode, r, result); Stopped(d.core.conn) && d.delivered == r.delivered
  {
  }

  lemma {:induction false} AfterReadsFirst(decode: Msg -> Packet, r: Reader, results: seq<ReadResult>)
    requires results != []
    ensures AfterReads(decode, r, results) == AfterReads(decode, AfterRead(decode, r, results[0]), results[1..])
    decreases results
  {
    hide AfterRead;
    if |results| == 1 {
      assert results[..0] == [] && results[1..] == [];
    } else {
      var init := results[..|results| - 1];
      AfterReadsFirst(decode, r, init);
      assert results[1..][..|results| - 2] == init[1..];
    }
  }

  lemma {:induction false} NothingAfterStop(decode: Msg -> Packet, r: Reader, results: seq<ReadResult>)
    requires Stopped(r.core.conn)
    ensures var d := AfterReads(decode, r, results); Stopped(d.core.conn) && d.delivered == r.delivered
    decreases results
  {
    if results != [] {
      NothingAfterStop(decode, r, results[..|results| - 1]);
    }
  }

  // ---------------------------------------------------------------- what is delivered

  /** The messages handled before the client stops: all of them, or up to and including the
      one that moves it to Error or Disconnected. */
  function Handled(decode: Msg -> Packet, c: Core, ms: seq<Msg>): (h: seq<Msg>)
    ensures h <= ms
    decreases ms
  {
    if ms == [] || Stopped(c.conn) then []
    else [ms[0]] + Handled(decode, AfterMessage(c, decode(ms[0])), ms[1..])
  }

  function Decoded(decode: Msg -> Packet, ms: seq<Msg>): (ps: seq<Packet>)
    ensures |ps| == |ms|
  {
    seq(|ms|, i requires 0 <= i < |ms| => decode(ms[i]))
  }

  /** Draining hands over exactly the frames of the buffer, bodies reused, up to the first
      that stops the client; if none does, what stays buffered is the incomplete tail. */
  lemma {:induction false} DrainDelivers(decode: Msg -> Packet, r: Reader)
    ensures var d := Drain(decode, r);
            var h := Handled(decode, r.core, WithReuse(r.body, Frames(r.partial)));
            d.delivered == r.delivered + h && d.core == AfterMessages(r.core, Decoded(decode, h))
    ensures var d := Drain(decode, r);
            !Stopped(d.core.conn) ==>
              && Handled(decode, r.core, WithReuse(r.body, Frames(r.partial)))
                 == WithReuse(r.body, Frames(r.partial))
              && d.partial == Remainder(r.partial)
    decreases |r.partial|
  {
    hide Frames, Remainder, WithReuse, FirstFrame, FrameLength, NextMsg, Decoded, AfterMessage;
    if !HasFrame(r.partial) {
      NoFrame(r.body, r.partial);
    } else if !Stopped(r.core.conn) {
      var next, m := ReadFrame(decode, r), NextMsg(r);
      DrainDelivers(decode, next);
      NextMsgIsFirst(decode, r);
      var rest := WithReuse(next.body, Frames(next.partial));
      TailOfCons(m, rest);
      var h := Handled(decode, next.core, rest);
      Assoc(r.delivered, [m], h);
      AfterMessagesCons(r.core, decode(m), Decoded(decode, h));
      DecodedCons(decode, m, h);
    }
  }

  lemma DecodedCons(decode: Msg -> Packet, m: Msg, ms: seq<Msg>)
    ensures Decoded(decode, [m] + ms) == [decode(m)] + Decoded(decode, ms)
  {
  }

  lemma {:induction false} NoFrame(body: seq<byte>, s: seq<byte>)
    requires !HasFrame(s)
    ensures WithReuse(body, Frames(s)) == [] && Remainder(s) == s
  {
  }

  lemma NextMsgIsFirst(decode: Msg -> Packet, r: Reader)
    requires HasFrame(r.partial)
    ensures var next := ReadFrame(decode, r);
            && WithReuse(r.body, Frames(r.partial)) == [NextMsg(r)] + WithReuse(next.body, Frames(next.partial))
            && Remainder(r.partial) == Remainder(next.partial)
  {
    TailOfCons(FirstFrame(r.partial), Frames(r.partial[FrameLength(r.partial)..]));
  }

  /** Reassembly. Any chunks that together make up the frames of `ms` and an incomplete tail
      deliver `ms`, bodies reused, in order and once each, and leave the tail buffered; if a
      message stops the client, delivery ends right after it. */
  lemma {:induction false} Reassembly(decode: Msg -> Packet, core: Core, chunks: seq<seq<byte>>, ms: seq<Msg>,
                                      tail: seq<byte>)
    requires AllFit(ms) && !HasFrame(tail)
    requires Concat(chunks) == Stream(ms) + tail
    ensures var r := FeedAll(decode, Fresh(core), chunks);
            && r.delivered == Handled(decode, core, WithReuse([], ms))
            && (!Stopped(r.core.conn) ==> r.delivered == WithReuse([], ms) && r.partial == tail)
  {
    var r := Fresh(core);
    ChunkingIsIrrelevant(decode, r, chunks);
    var all := r.(partial := r.partial + Concat(chunks));
    assert all.partial == Stream(ms) + tail;
    FramesOfStream(ms, tail);
    assert Frames(tail) == [] && ms + Frames(tail) == ms;
    DrainDelivers(decode, all);
    assert Feed(decode, r, Concat(chunks)) == Drain(decode, all);
    var h := Handled(decode, core, WithReuse([], ms));
    assert [] + h == h;
  }
}
