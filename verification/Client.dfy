/**
  The client object: its two halves share the connection state. Each handler is shown to be a
  step of the reader in ClientConnection and of the sender in ClientWriter.
 */
module Client {
  import opened Prelude
  import opened Packets
  import opened Wire
  import opened C = ClientConnection
  import S = ClientWriter
  import W = SessionWriter

  class Client {
    var state: ConnState
    var clientName: string
    var clientId: uint32
    var hostScreenWidth: nat
    var hostScreenHeight: nat
    var partialMessage: seq<byte>
    const currentReadMessage: Message
    const decode: Msg -> Packet
    var posted: seq<Msg>
    var writeQueue: seq<seq<byte>>
    var writing: bool

    // The socket writes not yet completed, and the histories the machines keep.
    ghost var outstanding: seq<seq<byte>>
    ghost var accepted: seq<Msg>
    ghost var started: seq<seq<byte>>
    ghost var completed: seq<seq<byte>>
    ghost var sent: nat
    ghost var flushed: seq<byte>
    ghost var delivered: seq<Msg>

    constructor (decode: Msg -> Packet, name: string)
      ensures fresh(currentReadMessage)
      ensures this.decode == decode
      ensures ReaderView() == Fresh(Core(Connecting, name, 0, 0, 0))
      ensures SenderView() == S.OPENING
    {
      state, clientName, clientId := Connecting, name, 0;
      hostScreenWidth, hostScreenHeight := 0, 0;
      partialMessage, delivered := [], [];
      this.decode := decode;
      currentReadMessage := new Message();
      posted, writeQueue, writing := [], [], false;
      outstanding, accepted, started, completed, sent, flushed := [], [], [], [], 0, [];
    }

    function CoreView(): Core
      reads this
    {
      Core(state, clientName, clientId, hostScreenWidth, hostScreenHeight)
    }

    ghost function ReaderView(): Reader
      reads this, currentReadMessage
    {
      Reader(CoreView(), partialMessage, currentReadMessage.kind, currentReadMessage.clientId,
             currentReadMessage.bodySize, currentReadMessage.body, delivered)
    }

    ghost function SenderView(): S.Sender
      reads this
    {
      S.Sender(state, posted, writeQueue, writing, outstanding, accepted, started, completed, sent, flushed)
    }

    /** Closing clears the write queue, once. */
    method DoClose()
      modifies this`state, this`writeQueue, this`writing
      ensures state == Disconnected
      ensures SenderView() == S.AfterClose(old(SenderView()))
    {
      if state == Disconnected {
        return;
      }
      state := Disconnected;
      writeQueue := [];
      writing := false;
    }

    // ---------------------------------------------------------------- writing

    method Send(m: Msg)
      modifies this`posted
      ensures SenderView() == S.AfterSend(old(SenderView()), m)
    {
      if state != Connected && m.kind != HANDSHAKE {
        return;
      }
      if state == Disconnected || state == Error {
        return;
      }
      posted := posted + [m];
    }

    method RunPostedSend()
      requires posted != []
      modifies this`posted, this`writeQueue, this`writing, this`accepted, this`outstanding, this`started
      ensures SenderView() == S.AfterRunPosted(old(SenderView()))
    {
      hide Frame;
      var m := posted[0];
      posted := posted[1..];
      if state == Disconnected || state == Error {
        return;
      }
      var shouldStartWrite := writeQueue == [] && !writing;
      writeQueue := writeQueue + [Frame(m)];
      accepted := accepted + [m];
      if shouldStartWrite {
        DoWrite();
      }
    }

    method DoWrite()
      modifies this`writeQueue, this`writing, this`outstanding, this`started
      ensures SenderView() == S.AfterDoWrite(old(SenderView()))
    {
      if state == Disconnected || state == Error {
        writing := false;
        return;
      }
      if writeQueue == [] {
        writing := false;
        return;
      }
      writing := true;
      var dataToSend := writeQueue[0];
      writeQueue := writeQueue[0 := W.MOVED_OUT];
      outstanding := outstanding + [dataToSend];
      started := started + [dataToSend];
    }

    /** A failed write closes the connection for the reader as well. */
    method HandleWrite(failed: bool)
      requires outstanding != []
      modifies this`state, this`writeQueue, this`writing, this`outstanding, this`started, this`completed, this`sent
      ensures SenderView() == S.AfterHandleWrite(old(SenderView()), failed)
      ensures ReaderView() == old(ReaderView()).(core := old(CoreView()).(conn := state))
    {
      hide S.Popped;
      var shouldContinueWriting := PopWritten(failed);
      if !failed && shouldContinueWriting {
        if state != Disconnected && state != Error {
          DoWrite();
        } else {
          writing := false;
        }
      } else if failed {
        state := Error;
        DoClose();
      }
    }

    method PopWritten(failed: bool) returns (shouldContinueWriting: bool)
      requires outstanding != []
      modifies this`writeQueue, this`writing, this`outstanding, this`completed, this`sent
      ensures SenderView() == S.Popped(old(SenderView()), failed)
      ensures shouldContinueWriting <==> !failed && writeQueue != []
      ensures !shouldContinueWriting ==> !writing
    {
      if !failed {
        completed := completed + [outstanding[0]];
      }
      outstanding := outstanding[1..];
      sent := 0;
      shouldContinueWriting := false;
      if writeQueue != [] {
        writeQueue := writeQueue[1..];
      }
      if !failed {
        if writeQueue != [] {
          shouldContinueWriting := true;
        } else {
          writing := false;
        }
      } else {
        writing := false;
      }
    }

    // ---------------------------------------------------------------- reading

    method HandleMessage(message: Msg)
      modifies this`state, this`clientName, this`clientId, this`hostScreenWidth,
               this`hostScreenHeight, this`delivered, this`writeQueue, this`writing
      ensures CoreView() == AfterMessage(old(CoreView()), decode(message))
      ensures SenderView() == S.Follow(old(SenderView()), state)
      ensures delivered == old(delivered) + [message]
    {
      hide S.Follow;
      S.FollowSame(SenderView());
      S.FollowError(SenderView());
      delivered := delivered + [message];
      var currentState := state;
      match decode(message) {
        case Handshake(payload) =>
          if currentState == Connecting {
            HandleResponse(payload);
          }
        case Command(text) =>
          if currentState == Connecting && text == AUTH_FAILED {
            state := Error;
            return;
          }
          if currentState != Connected {
            return;
          }
          if YOU_WERE_RENAMED <= text {
            clientName := text[|YOU_WERE_RENAMED|..];
          }
        case _ =>
      }
    }

    /** The server's answer to the handshake; None when it cannot be read. */
    method HandleResponse(payload: Option<HandshakePayload>)
      requires state == Connecting
      modifies this`state, this`clientId, this`hostScreenWidth, this`hostScreenHeight,
               this`writeQueue, this`writing
      ensures CoreView() == AfterMessage(old(CoreView()), Handshake(payload))
      ensures SenderView() == S.Follow(old(SenderView()), state)
    {
      match payload {
        case Some(response) =>
          hostScreenWidth := response.hostScreenWidth;
          hostScreenHeight := response.hostScreenHeight;
          clientId := response.clientId;
          state := Connected;
        case None =>
          state := Error;
          DoClose();
      }
    }

    /** One round of the read loop on the unprocessed bytes: how many were consumed, zero
        when no complete frame is there. */
    method HandleFrontFrame(window: seq<byte>) returns (consumed: nat)
      requires !Stopped(state)
      modifies this, currentReadMessage
      ensures partialMessage == old(partialMessage)
      ensures consumed <= |window|
      ensures var was := old(ReaderView()).(partial := window);
              var now := ReaderView().(partial := window[consumed..]);
              if HasFrame(window) then consumed > 0 && now == ReadFrame(decode, was)
              else consumed == 0 && now == Drain(decode, was) && Drain(decode, now) == now
      ensures SenderView() == S.Follow(old(SenderView()), state)
    {
      hide BytesU32;
      assert window[0..] == window;
      if |window| < HEADER_LENGTH {
        return 0;
      }
      var header := currentReadMessage.DecodeHeader(window[..HEADER_LENGTH]);
      if !header {
        assert false;
      }
      assert window[..HEADER_LENGTH][1..5] == window[1..5] && window[..HEADER_LENGTH][5..9] == window[5..9];
      var totalMessageSize := HEADER_LENGTH + currentReadMessage.bodySize;
      if |window| < totalMessageSize {
        return 0;
      }
      if currentReadMessage.bodySize > 0 {
        var decoded := currentReadMessage.DecodeBody(window[HEADER_LENGTH..totalMessageSize]);
        if !decoded {
          assert false;
        }
      }
      ghost var was := old(ReaderView()).(partial := window);
      assert currentReadMessage.Value() == NextMsg(was);
      HandleMessage(currentReadMessage.Value());
      assert ReaderView().(partial := window[totalMessageSize..]) == ReadFrame(decode, was);
      return totalMessageSize;
    }

    /** A completed read; the result says whether another one is started. */
    method HandleRead(result: ReadResult) returns (rearm: bool)
      modifies this, currentReadMessage
      ensures ReaderView() == AfterRead(decode, old(ReaderView()), result)
      ensures SenderView() == if Stopped(old(state)) then old(SenderView()) else S.Follow(old(SenderView()), state)
      ensures rearm <==> result.Bytes? && !Stopped(state)
    {
      hide Feed, S.Follow;
      S.FollowSame(SenderView());
      match result {
        case Bytes(chunk) =>
          HandleBytes(chunk);
          return !Stopped(state);
        case PeerGone =>
          if state != Disconnected && state != Error {
            S.FollowClosed(SenderView());
            DoClose();
          }
          return false;
        case ReadFailed =>
          if state != Disconnected && state != Error {
            S.FollowClosed(SenderView());
            state := Error;
            DoClose();
          }
          return false;
        case Cancelled =>
          return false;
      }
    }

    method HandleBytes(chunk: seq<byte>)
      modifies this, currentReadMessage
      ensures ReaderView() == Feed(decode, old(ReaderView()), chunk)
      ensures SenderView() == if Stopped(old(state)) then old(SenderView()) else S.Follow(old(SenderView()), state)
    {
      hide FrameLength, NextMsg, ReadFrame, ReadHeader;
      partialMessage := partialMessage + chunk;
      var processed := 0;
      ghost var start := ReaderView();
      while !Stopped(state)
        invariant processed <= |partialMessage|
        invariant partialMessage == start.partial
        invariant Drain(decode, ReaderView().(partial := partialMessage[processed..])) == Drain(decode, start)
        invariant SenderView() == if Stopped(old(state)) then old(SenderView()) else S.Follow(old(SenderView()), state)
        invariant Stopped(old(state)) ==> state == old(state)
        decreases |partialMessage| - processed
      {
        var consumed := HandleFrontFrame(partialMessage[processed..]);
        if consumed == 0 {
          break;
        }
        processed := processed + consumed;
      }
      if processed > 0 {
        partialMessage := partialMessage[processed..];
      }
    }
  }
}
