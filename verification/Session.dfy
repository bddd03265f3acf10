/**
  The server's end of one connection: the handlers of its write queue and of its exact-length
  reader, each shown to be a step of the machines in SessionWriter and SessionReader.
 */
module Session {
  import opened Prelude
  import opened Wire
  import W = SessionWriter
  import R = SessionReader

  class Session {
    var active: bool
    var sslHandshakeComplete: bool
    var appHandshakeComplete: bool
    var writeQueue: seq<seq<byte>>
    var writing: bool
    const currentReadMessage: Message
    // Which of the two reads is outstanding.
    var readingBody: bool

    // The socket writes not yet completed, and the histories the machines keep.
    ghost var outstanding: seq<seq<byte>>
    ghost var accepted: seq<seq<byte>>
    ghost var started: seq<seq<byte>>
    ghost var completed: seq<seq<byte>>
    ghost var raw: seq<Msg>
    ghost var handled: seq<Msg>

    constructor ()
      ensures active && !sslHandshakeComplete && fresh(currentReadMessage)
      ensures currentReadMessage.bodySize == 0
      ensures WriterView() == W.IDLE
      ensures ReaderView([], []) == R.WAITING_FOR_HELLO
    {
      active, sslHandshakeComplete, appHandshakeComplete := true, false, false;
      writeQueue, writing, readingBody := [], false, false;
      outstanding, accepted, started, completed, raw, handled := [], [], [], [], [], [];
      currentReadMessage := new Message();
    }

    ghost function WriterView(): W.Writer
      reads this
    {
      W.Writer(active, writeQueue, writing, outstanding, accepted, started, completed)
    }

    /** The reader's state, with the bytes the socket holds for it. */
    ghost function ReaderView(inbox: seq<byte>, arrived: seq<byte>): R.Reader
      reads this, currentReadMessage
      requires currentReadMessage.bodySize < TWO_TO_THE_32
    {
      R.Reader(active, appHandshakeComplete, readingBody, currentReadMessage.kind,
               currentReadMessage.clientId, currentReadMessage.bodySize, currentReadMessage.body,
               inbox, arrived, raw, handled)
    }

    /** Reads are started only once the secure channel is up. */
    ghost predicate Reading()
      reads this, currentReadMessage
    {
      && currentReadMessage.bodySize < TWO_TO_THE_32
      && (active ==> sslHandshakeComplete)
    }

    method HandleSslHandshake(failed: bool)
      requires currentReadMessage.bodySize < TWO_TO_THE_32
      modifies this
      ensures old(active) ==> Reading() && active == !failed
      ensures !old(active) ==> Reading() && unchanged(this)
      ensures WriterView() == if failed then W.Close(old(WriterView())) else old(WriterView())
      ensures old(active) && !failed ==> !readingBody
      ensures raw == old(raw) && handled == old(handled)
    {
      if !active {
        return;
      }
      if !failed {
        sslHandshakeComplete := true;
        readingBody := false;
      } else {
        DoClose();
      }
    }

    // ---------------------------------------------------------------- writing

    /** The bytes to post, or nothing when the session is not active. */
    method Send(message: Message) returns (posted: Option<seq<byte>>)
      ensures posted == if active then Some(Frame(message.Value())) else None
    {
      if !active {
        return None;
      }
      var data := message.Serialize();
      return Some(data[..]);
    }

    method RunPostedSend(data: seq<byte>)
      modifies this`writeQueue, this`writing, this`outstanding, this`accepted, this`started
      ensures WriterView() == W.Push(old(WriterView()), data)
    {
      if !active {
        return;
      }
      var shouldStartWrite := writeQueue == [] && !writing;
      writeQueue := writeQueue + [data];
      accepted := accepted + [data];
      if shouldStartWrite {
        DoWrite();
      }
    }

    method DoWrite()
      modifies this`writeQueue, this`writing, this`outstanding, this`started
      ensures WriterView() == W.DoWrite(old(WriterView()))
    {
      if !active {
        writing := false;
        return;
      }
      if writeQueue == [] {
        writing := false;
        return;
      }
      writing := true;
      var dataToSend := writeQueue[0];
      writeQueue := writeQueue[0 := W.MOVED_OUT];
      outstanding := outstanding + [dataToSend];
      started := started + [dataToSend];
    }

    method HandleWrite(failed: bool)
      requires outstanding != []
      modifies this
      ensures WriterView() == W.HandleWrite(old(WriterView()), failed)
      ensures old(Reading()) ==> Reading()
      ensures currentReadMessage.bodySize < TWO_TO_THE_32 ==>
                forall inbox, arrived :: ReaderView(inbox, arrived) ==
                  if failed then R.Close(old(ReaderView(inbox, arrived))) else old(ReaderView(inbox, arrived))
    {
      var shouldContinueWriting := false;
      if !failed {
        completed := completed + [outstanding[0]];
      }
      outstanding := outstanding[1..];
      if writeQueue != [] {
        writeQueue := writeQueue[1..];
      }
      if !failed {
        if writeQueue != [] {
          shouldContinueWriting := true;
        } else {
          writing := false;
        }
      } else {
        writing := false;
      }
      if !failed && shouldContinueWriting {
        if active {
          DoWrite();
        } else {
          writing := false;
        }
      } else if failed {
        DoClose();
      }
    }

    method DoClose()
      modifies this`active, this`writeQueue, this`writing, this`appHandshakeComplete,
               this`sslHandshakeComplete
      ensures WriterView() == W.Close(old(WriterView()))
      ensures !active
      ensures currentReadMessage.bodySize < TWO_TO_THE_32 ==>
                forall inbox, arrived :: ReaderView(inbox, arrived) == R.Close(old(ReaderView(inbox, arrived)))
      ensures old(active) ==> !appHandshakeComplete && !sslHandshakeComplete
      ensures !old(active) ==> appHandshakeComplete == old(appHandshakeComplete)
    {
      if !active {
        return;
      }
      active := false;
      writeQueue := [];
      writing := false;
      appHandshakeComplete := false;
      sslHandshakeComplete := false;
    }

    // ---------------------------------------------------------------- reading

    method HandleReadHeader(failed: bool, bytes: seq<byte>)
      requires Reading() && !readingBody
      modifies this, currentReadMessage
      ensures Reading()
      ensures forall inbox, arrived :: ReaderView(inbox, arrived) ==
                if failed || |bytes| != HEADER_LENGTH then R.Close(old(ReaderView(inbox, arrived)))
                else R.HandleReadHeader(old(ReaderView(inbox, arrived)), bytes)
      ensures WriterView() == if active then old(WriterView()) else W.Close(old(WriterView()))
    {
      if !active {
        return;
      }
      if !failed && |bytes| == HEADER_LENGTH {
        var decoded := currentReadMessage.DecodeHeader(bytes);
        assert decoded;
        if currentReadMessage.bodySize > 0 {
          if currentReadMessage.bodySize > MAX_BODY_LENGTH {
            assert false;
          }
          readingBody := true;
        } else {
          raw := raw + [Msg(currentReadMessage.kind, currentReadMessage.clientId, [])];
          Dispatch();
        }
      } else {
        DoClose();
      }
    }

    method HandleReadBody(failed: bool, bytes: seq<byte>)
      requires Reading() && readingBody
      modifies this, currentReadMessage
      ensures Reading()
      ensures forall inbox, arrived :: ReaderView(inbox, arrived) ==
                if failed || |bytes| != old(currentReadMessage.bodySize) then R.Close(old(ReaderView(inbox, arrived)))
                else R.HandleReadBody(old(ReaderView(inbox, arrived)), bytes)
      ensures WriterView() == if active then old(WriterView()) else W.Close(old(WriterView()))
    {
      if !active {
        return;
      }
      if !failed && |bytes| == currentReadMessage.bodySize {
        currentReadMessage.SetBody(bytes);
        raw := raw + [currentReadMessage.Value()];
        Dispatch();
      } else {
        DoClose();
      }
    }

    /** Pass the message to the handler and start the next header read, or close. */
    method Dispatch()
      requires Reading() && active
      modifies this
      ensures Reading()
      ensures forall inbox, arrived ::
                ReaderView(inbox, arrived) == R.Dispatch(old(ReaderView(inbox, arrived)))
      ensures WriterView() == if active then old(WriterView()) else W.Close(old(WriterView()))
    {
      readingBody := false;
      if sslHandshakeComplete && !appHandshakeComplete && currentReadMessage.kind == HANDSHAKE {
        appHandshakeComplete := true;
        handled := handled + [currentReadMessage.Value()];
      } else if appHandshakeComplete {
        handled := handled + [currentReadMessage.Value()];
      } else {
        DoClose();
      }
    }
  }
}
