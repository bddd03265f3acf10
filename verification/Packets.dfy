/**
  Messages as the handlers see them once the body has been parsed. The archive format of the
  handshake, input and file-tree bodies belongs to a library: a body that does not parse is
  a packet of its own.
 */
module Packets {
  import opened Prelude

  /** The role byte of a handshake is not range-checked, so any other value can occur. */
  datatype Role = Broadcaster | Receiver | Host | OtherRole(code: byte)

  datatype HandshakePayload = HandshakePayload(
    role: Role,
    clientName: string,
    password: string,
    clientId: uint32,
    hostScreenWidth: nat,
    hostScreenHeight: nat)

  /** What an upload leads to once it is on the disk: the scanned tree, and whether the panel
      of this process is the host's and announces it. */
  datatype SavedFile = SavedFile(tree: seq<byte>, announced: bool)

  /** What the disk makes of an upload or a request is part of the packet here: nothing saved,
      or the file; the content found, or why there is none. */
  datatype Packet =
    | Handshake(payload: Option<HandshakePayload>)
    | Input(parses: bool, data: seq<byte>)
    | Chat(data: seq<byte>)
    | Command(text: string)
    | FileSystemUpdate(data: seq<byte>)
    | FileUpload(saved: Option<SavedFile>)
    | FileRequest(found: bool, answer: seq<byte>)
    | OtherPacket(kind: byte, data: seq<byte>)
}
