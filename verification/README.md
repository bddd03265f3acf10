# LocalTether, modelled and proved in Dafny

LocalTether shares one computer's keyboard and mouse with others: a server, a host client whose
input is captured, and receivers on which it is simulated. This project models the parts that
carry protocol and state, each as a specification on values with imperative classes proved
against it, and proves what holds over whole runs.

* **Framed transport** (`Wire`, `SessionWriter`, `SessionReader`, `Session`, `ClientConnection`,
  `ClientWriter`, `Client`, `EndToEnd`). Nine-byte headers and bodies; the session's and the client's write
  queues; the session's exact-length reader; the client's reassembly of arbitrary chunks; and the
  composition of these over a byte pipe that may split the stream anywhere. Handlers run one at a
  time, posted handlers in order (src/ui/UIState.cpp:46-49); everything else (sends, completions,
  errors, closes, partial transmissions, reads) interleaves freely.
* **Server authority** (`Authority`, `AuthorityProofs`, `CommandAuthority`, `InputRouting`,
  `NameAgreement`, `Notices`, `JointRun`, `ServerHandlers`, `HostCommands`). An unbounded set of
  sessions being accepted, greeted, commanded, disconnected and stopped in any order: who is host,
  who may command, who is told what, who receives input, and what a client thinks it is called.
* **Input capture and simulation** (`KeyEvents`, `HelperInput`, `HelperMotion`,
  `HelperPolling`, `PointerSimulation`, `PauseCombo`, `WindowsPoller`, `WindowsHook`). The Linux
  helper's key bitmask and pointer tracker, the trackpad anchors, the pause combination on both systems, and the
  Windows key poller.
* **Codecs and files** (`PayloadCodec`, `FileBodies`, `ConfigFile`, `Text`) and **tree search**
  (`FileTree`).

A class in a module mirrors the source's object: same fields, same branches, same early returns.
Its methods state their whole new state as a function of the old one; the theorems are about those
functions, and the main ones say in terms of the inputs alone (the steps, events, packets or
directory entries of a run) what comes out. Ghost fields are histories. `dafny verify dfyconfig.toml` checks everything. Every lemma
to which Dafny would apply automatic induction switches it off: inductions are written out.

## What the proofs brought to light

* A frame with an empty body leaves the previous body in the reused message object, in both
  readers. Handlers see exactly what was sent if and only if no empty body follows a non-empty one
  (`Wire.ReuseIsHarmlessIff`).
* `MAX_BODY_LENGTH` is larger than any length the header can hold, so the branches that refuse a
  received message as too large are never taken; a body of 2^32 bytes or more is truncated instead
  (`Wire.FrameRoundTrip`).
* Wheel ticks are added in 16 bits: 40000 ticks in one report are sent as -25536 and 65536 are not
  sent at all (`HelperInput.TicksCanBeLost`). A report sends its own ticks if and only if their sum
  fits in 16 bits (`HelperInput.ReportSendsItsTicksIff`); then every tick is sent exactly once
  (`HelperInput.TicksAreSentOnce`).
* Loading a configuration throws, uncaught, when the key codes of the pause combination cannot be
  read to their end, as in `input.pause_combo_vk=17,18` (`ConfigFile.LoadCanThrow`): the warning asks
  a failed stream for its position. That is the only way (`ConfigFile.Config.LoadFromFile`), and a
  file saved from restorable settings never does it (`ConfigFile.SaveThenLoad`).
* A key released within the 5 ms debounce of the Windows poller stays recorded as held until it is
  pressed again (`WindowsPoller.ReleaseCanBeMissed`, `WindowsPoller.MissedReleaseSticks`). Over a run
  this never happens if and only if the key has been down for the debounce time whenever it comes
  up (`WindowsPoller.NeverSticksIff`).
* A key that receivers hold and that is released while the Windows hook has input paused stays held
  at the receivers (`WindowsHook.KeyCanStick`); only the keys of the combination are released for
  them. Over a run a key gets stuck if and only if some step releases it so
  (`WindowsHook.SticksIff`).
* A host that handshakes again asking for another role keeps the host id and screen but loses the
  Host role, and with it its right to command (`CommandAuthority.HostCanLoseRole`). In every
  reachable state the host holds the role if and only if it asked for it in its last accepted
  handshake (`CommandAuthority.HostHoldsRoleIff`).
* The helper drops the key events of a report that has not ended when a poll does, while it goes on
  recording the keys: a press can be lost so (`HelperMotion.PressCanBeLost`). Every key change is
  sent if and only if no poll ends with key events gathered (`HelperMotion.AllKeysAreSentIff`).
* A float of which a whole number is printed comes back from the configuration file as an int
  (`ConfigFile.WholeFloatIsReadAsInt`).
* `kick_client:-5` is read as a kick of client 2^32 - 5 (`HostCommands.NegativeIdWraps`).

## Model

| member | source | states |
|---|---|---|
| Wire.FramesOfStream | src/network/Message.cpp:69-130 | parsing the serialization of any messages whose bodies fit, followed by any bytes, gives those messages and then whatever the rest gives |
| Wire.StreamOfFrames | src/network/Message.cpp:92-130 | any byte stream is the serialization of the frames parsed from it followed by a remainder that holds no frame |
| Wire.FrameRoundTrip | src/network/Message.cpp:69-90 | one message survives serialization and parsing if and only if its body is shorter than 2^32 |
| Wire.FirstFrameRebuilds | src/network/Message.cpp:92-130 | the bytes of a decoded frame are determined by the decoded message |
| Wire.FrameLayout | src/network/Message.cpp:69-90 | byte by byte: the kind, the client id and the body length (modulo 2^32) with the highest byte first, then the body |
| Wire.FramesOfStreamPrefix | src/network/Message.cpp:92-130 | a prefix of a serialized run holds only a prefix of its messages |
| Wire.WithReuseAppend | src/network/Client.cpp:585-595 | the effect of body reuse on a concatenation is that on its parts, the second starting from the body the first leaves |
| Wire.ReuseIsHarmlessIff | src/network/Client.cpp:585-595 | decoding into one reused message object loses nothing if and only if no empty body comes after a non-empty one |
| Wire.Message.Serialize | src/network/Message.cpp:69-90 | the buffer filled by offsets is exactly the frame: kind, client id and body length in network order, body |
| Wire.Message.DecodeHeader | src/network/Message.cpp:92-119 | fails exactly on fewer than nine bytes; otherwise sets kind, id and length and leaves the body alone |
| Wire.Message.DecodeBody | src/network/Message.cpp:121-131 | takes exactly the declared number of bytes, or fails and changes nothing |
| ClientConnection.ChunkingIsIrrelevant | src/network/Client.cpp:537-605 | feeding a drained reader any chunks ends in the same state as feeding it their concatenation at once |
| ClientConnection.DrainDelivers | src/network/Client.cpp:546-605 | the read loop hands over exactly the frames in the buffer, with reused bodies, up to and including the first that stops the client; the incomplete tail stays |
| ClientConnection.Reassembly | src/network/Client.cpp:537-605 | any split of serialized messages and an incomplete tail delivers those messages once each and in order and keeps the tail, or stops right after the message that moves the client to Error or Disconnected |
| ClientConnection.ReadsUntilEnd | src/network/Client.cpp:537-645 | over any sequence of completed, failed, cancelled and end-of-connection reads: the client has handled what it would from the bytes before the first read that ended the connection, and is stopped if and only if a message stopped it or there was such a read |
| ClientConnection.EndsAsToldBy | src/network/Client.cpp:648-809 | by the packets alone: the first handshake or authentication failure decides between Connected (with its id and host screen), Disconnected (unreadable) and Error; afterwards a connected client has the name of the last rename; nothing else changes it |
| SessionWriter.WriterSafety | src/network/Session.cpp:107-186 | over every interleaving of posted sends, write completions, errors and closes: at most one write outstanding; while active, writing, an outstanding write and a non-empty queue headed by the moved-out slot coincide, and accepted = completed + in flight + queued |
| SessionWriter.HandleWriteKeepsInv | src/network/Session.cpp:152-186 | a completed or failed write keeps that invariant |
| SessionWriter.PushKeepsInv | src/network/Session.cpp:107-120 | a posted push keeps that invariant, also while a write is outstanding |
| SessionWriter.NothingStartsAfterClose | src/network/Session.cpp:313-359 | once closed, a session accepts and starts nothing, whatever still happens; its last write may only end |
| SessionWriter.QueueDrains | src/network/Session.cpp:123-186 | no wake-up is lost: as many completions as the queue has slots write out everything ever accepted |
| SessionReader.HandledIsGatedPrefix | src/network/Session.cpp:188-303 | whatever arrives or closes, the handler has been given a prefix of the messages in the bytes, and none unless the first is a handshake |
| SessionReader.NothingHandledAfterClose | src/network/Session.cpp:201-303 | after a close nothing more is handled |
| SessionReader.OnlyBadHelloCloses | src/network/Session.cpp:223-245 | the reader closes the session by itself only on a first frame that is no handshake |
| SessionReader.ReadersAgree | src/network/Client.cpp:551-599 | on the same bytes, once all that can be read has been, the exact-length reader has handled the same frames, empty-body reuse included, as the buffered reader fed in any chunks, up to the gate of the one and the stop of the other |
| Session.Session.Send | src/network/Session.cpp:91-121 | what is posted is the serialized message, nothing when inactive |
| Session.Session.RunPostedSend | src/network/Session.cpp:107-120 | is the push of the specified writer |
| Session.Session.DoWrite | src/network/Session.cpp:123-150 | moves the front of the queue into a write and leaves its slot, unless inactive or empty |
| Session.Session.HandleWrite | src/network/Session.cpp:152-186 | is the completion step of the specified writer; for the reader a failed write is a close and a good one nothing |
| Session.Session.DoClose | src/network/Session.cpp:313-359 | clears the queue and the flags once; it is the close of both machines |
| Session.Session.HandleSslHandshake | src/network/Session.cpp:66-79 | the first header read starts only after a successful secure handshake |
| Session.Session.HandleReadHeader | src/network/Session.cpp:201-256 | is the header step of the specified reader; a short or failed read closes; for the writer closing is a close and anything else nothing |
| Session.Session.HandleReadBody | src/network/Session.cpp:258-303 | is the body step of the specified reader; a short or failed read closes; for the writer closing is a close and anything else nothing |
| Session.Session.Dispatch | src/network/Session.cpp:223-245 | a message reaches the handler exactly when the application handshake is complete or it is the handshake; otherwise reader and writer close |
| EndToEnd.DeliveredIsPrefix | src/network/Client.cpp:537-613 | in every run of session writer, splitting pipe and client, the messages handled are a prefix, in order, without loss or duplication, of those the session accepted |
| EndToEnd.AllDelivered | src/network/Session.cpp:107-186 | with session and client running and nothing in flight everything accepted has been handled, unaltered if and only if no empty body follows a non-empty one |
| EndToEnd.AllSentIsAccepted | src/network/Session.cpp:91-121 | over every run without a close or a failed write, the messages accepted followed by those still posted are exactly those given to Send, in order |
| EndToEnd.AllSentIsDelivered | src/network/Client.cpp:537-613 | so with nothing posted or in flight and the client running, it has handled exactly the messages sent, unaltered if and only if no empty body follows a non-empty one |
| EndToEnd.NeverStuck | src/network/Session.cpp:123-186 | while both ends run, either everything accepted has been read or a read, a transmission or a completion is enabled |
| EndToEnd.RunKeepsInv | src/network/Session.cpp:107-186 | the invariant tying queue, bytes on the pipe and client state survives every step |
| ClientWriter.RunRefines | src/network/Client.cpp:423-521 | every run of the client's sender, guarded by the connection state and with its queue left behind on errors, is a run of the session's writer |
| ClientWriter.SenderSafety | src/network/Client.cpp:436-521 | hence over every run: one outstanding write, accepted = completed + in flight + queued, no lost wake-up |
| ClientWriter.OnlyHandshakesBeforeAnswer | src/network/Client.cpp:428-433 | until the server's answer nothing but handshakes is posted or accepted |
| ClientWriter.AllSubmittedIsAccepted | src/network/Client.cpp:423-457 | over every run without failure, close or failed write, the messages accepted followed by those still posted are exactly the handshakes sent before the answer and everything sent after it, in order |
| ClientWriter.AcceptedIsFrontOfSubmitted | src/network/Client.cpp:423-457 | in every run at all, the accepted messages are a prefix of those |
| ClientWriter.ClosedIsEmpty | src/network/Client.cpp:375-417 | once disconnected with nothing to write, as closing leaves it, a connection stays so and starts nothing, whatever still runs |
| ClientWriter.ServerHandlesPrefix | src/network/Session.cpp:188-303 | whatever part of the client's bytes has arrived, in any pieces and with any closes, the session's handler has been given a prefix of what the client's queue accepted, behind the handshake gate |
| ClientWriter.ServerHandlesAll | src/network/Session.cpp:188-303 | with nothing in flight, all bytes arrived and no close, it has been given all of it |
| ClientWriter.ServerHandlesAllSubmitted | src/network/Session.cpp:188-303 | after an undisturbed run with nothing posted or in flight, all bytes read and no close, the session has handled exactly what the client submitted (nothing, if that does not begin with a handshake), unaltered if and only if no empty body follows a non-empty one |
| Client.Client.HandleRead | src/network/Client.cpp:537-645 | a completed read is the specified feed of its bytes, the loss of the connection or another error closes unless already stopped, a cancelled read does nothing; another read is started exactly after bytes that leave the client running; the sender follows the connection state |
| Client.Client.HandleBytes | src/network/Client.cpp:544-605 | the offset loop with its early exits computes the specified feed of the chunk |
| Client.Client.HandleFrontFrame | src/network/Client.cpp:551-599 | one round of the loop reads exactly one frame, or none when it is incomplete |
| Client.Client.HandleMessage | src/network/Client.cpp:648-809 | connection state, client name, id and host screen change as specified for the message, and the write queue is cleared exactly if it closes the connection |
| Client.Client.Send | src/network/Client.cpp:423-457 | is the specified send, of which AllSubmittedIsAccepted says what gets through: handshakes before the answer, everything after it |
| Client.Client.RunPostedSend | src/network/Client.cpp:444-456 | is the push of the specified sender |
| Client.Client.DoWrite | src/network/Client.cpp:459-485 | is the start of a write of the specified sender |
| Client.Client.HandleWrite | src/network/Client.cpp:487-521 | is the completion step of the specified sender; a failed write closes the connection for the reader too and changes nothing else of it |
| Client.Client.DoClose | src/network/Client.cpp:375-417 | ends Disconnected and clears the write queue, unless already disconnected |
| Text.ValueOfToString | src/ui/panels/ControlsPanel.cpp:171-196 | printed numbers have the value printed |
| Text.StoulOfToString | src/network/Server.cpp:762-797 | numbers as printed are read back |
| HostCommands.KickRoundTrip | src/network/Server.cpp:762-785 | a kick as the panel prints it is read as a kick of that id |
| HostCommands.RenameRoundTrip | src/network/Server.cpp:786-823 | a rename as printed is read back if and only if the name has 1 to 63 characters; colons in it do no harm |
| HostCommands.RenameShape | src/network/Server.cpp:786-823 | a text is read as a rename if and only if it has that shape with a readable id |
| HostCommands.ToggleRoundTrip | src/network/Server.cpp:824-854 | a toggle as printed is read back with id and state |
| HostCommands.KickShape | src/network/Server.cpp:762-785 | a text is read as a kick of an id if and only if it is `kick_client:` and a number text read as that id modulo 2^32 |
| HostCommands.ToggleShape | src/network/Server.cpp:824-854 | a text is read as a toggle if and only if it is `toggle_input_client:`, a colon-free number text, a colon and a state; only `true` enables |
| HostCommands.OtherShapes | src/network/Server.cpp:753-861 | the shutdown is one word exactly; a text is unrecognized if and only if it is not that and starts with no other command word |
| HostCommands.NegativeIdWraps | src/network/Server.cpp:762-785 | a minus sign is accepted and the id wraps around |
| AuthorityProofs.ServerSafety | src/network/Server.cpp:167-671 | with fewer than 2^32 accepts, in every reachable state: ids distinct and below the next one; role Host implies being the host; the host is a session not yet disconnect-handled whose handshake was accepted; no host means a 0x0 host screen; handshake flags consistent with what each session sent |
| AuthorityProofs.NextKeepsInv | src/network/Server.cpp:167-671 | every single handler keeps this |
| AuthorityProofs.AtMostOneHost | src/network/Server.cpp:549-584 | two sessions not yet disconnect-handled cannot both hold the Host role |
| AuthorityProofs.HostChangesExactly | src/network/Server.cpp:549-584 | the host id changes exactly from none to the sender of an authenticated handshake asking for it, and to none on the host's own disconnect |
| AuthorityProofs.OthersCannotCommand | src/network/Server.cpp:289-375 | no message of another session than the host changes any other session, the list or the server's status, and it causes only sends and the closing of that session |
| CommandAuthority.ClosesExactly | src/network/Server.cpp:762-785 | a session is asked to close exactly when the host kicks it (never itself), its handshake is refused, or the server stops |
| CommandAuthority.StopsExactly | src/network/Server.cpp:753-761 | the server is asked to stop exactly by the host's shutdown command |
| CommandAuthority.NameChangesExactly | src/network/Server.cpp:786-823 | a session's name changes exactly on its own accepted handshake and on the host's rename of it while it is listed |
| CommandAuthority.RoleChangesExactly | src/network/Server.cpp:549-592 | a role changes only on the session's own accepted handshake, to Host exactly if asked for and free or already its own, to Broadcaster exactly if asked for and there is a host, and otherwise as asked or Receiver |
| CommandAuthority.HostHoldsRoleIff | src/network/Server.cpp:549-584 | in every reachable state with a host, the host holds the Host role if and only if it asked for it in its last accepted handshake |
| CommandAuthority.HostCanLoseRole | src/network/Server.cpp:574-583 | accepted, asking to be host and then to be a receiver, a session stays the host but no command of it is the host's |
| CommandAuthority.HostScreenIsLastGiven | src/network/Server.cpp:549-584 | in every reachable state with a host the recorded screen is the one in the host's last handshake as host |
| CommandAuthority.ListedExactly | src/network/Server.cpp:167-286 | a session is in the list after a step if and only if it was or is accepted now, and neither its disconnect is handled nor a running server stops |
| CommandAuthority.ActiveExactly | src/network/Session.cpp:223-245 | which step opens, completes, closes and disconnects a session, in both directions; a new one is a receiver with input enabled |
| CommandAuthority.StatusExactly | src/network/Server.cpp:167-286 | stopped if and only if a stop has run; an accept stays outstanding unless one completes on a stopped server; the shared tree changes exactly with a saved upload |
| InputRouting.InputReachesExactlyEligible | src/network/Server.cpp:690-719 | a step sends a session an Input message exactly once if it relays readable input of the host and the session is another listed one with completed handshake, role Receiver or Broadcaster and input enabled; otherwise not at all |
| InputRouting.FlagChangesExactly | src/network/Server.cpp:824-854 | the input flag changes exactly by the host's accepted toggle for that session |
| InputRouting.FlagIsLastToggle | src/network/Server.cpp:824-854 | in every reachable state the flag is the last accepted toggle, or true |
| InputRouting.DisabledGetsNoInput | src/network/Server.cpp:343-352 | a session whose last accepted toggle was off gets no Input from any step |
| NameAgreement.RunKeepsAgree | src/network/Server.cpp:593-599 | every step of the server keeps the agreement of names |
| NameAgreement.NamesAgree | src/network/Client.cpp:767-770 | in every reachable state, for an active session with its one handshake accepted: applying whatever is still in transit leaves the client connected, under its id, with the server's name for it, whatever it has read so far |
| Notices.ToldExactly | src/network/Server.cpp:289-898 | in every reachable state, for every step and every session: exactly which packets the step sends it, in order, written per recipient apart from the handlers. An accepted handshake sends its sender one answer (granted role, id, host screen), one client list, and the tree if and only if it is not the host and one is shared, and every other completed listed session one join notice; likewise refusals, chat, input, renames, shutdown, uploads, file replies, host information and departures |
| Notices.ClientListIsSeparated | src/network/Server.cpp:871-883 | the list of clients is one `id,name,role` entry per completed listed session, separated by semicolons |
| Notices.HelloConnects | src/network/Server.cpp:542-634 | a client that handles what its handshake is answered is connected under its own name, with the session id and the host screen, if the password was right, and in error otherwise |
| JointRun.JointRunKeepsInv | src/network/Server.cpp:542-671 | over every joint run of server and connection: server, queue, pipe and client keep what each keeps by itself, both places agree on whether the session is open, and while it is the connection has been given exactly the packets the server sent, in order |
| JointRun.NamesAgreeOverTheWire | src/network/Client.cpp:723-727 | in every reachable state of server and connection together, for an active session with its one handshake accepted: handling whatever is not yet handled, wherever it is on its way, leaves the client connected, under its id, with the server's name |
| ServerHandlers.Server.HandleAccept | src/network/Server.cpp:194-286 | the state afterwards is the specified accept |
| ServerHandlers.Server.HandleMessage | src/network/Server.cpp:289-375 | dispatch by kind and role is the specified one, file uploads and requests included |
| ServerHandlers.Server.ProcessFileUpload | src/network/Server.cpp:378-459 | a saved file changes the shared tree, which is announced to everyone exactly when this process is the host's and the server runs; nothing saved, nothing done |
| ServerHandlers.Server.ProcessFileRequest | src/network/Server.cpp:461-505 | the sender alone is answered, with the content or with an error |
| ServerHandlers.Server.ProcessHandshake | src/network/Server.cpp:542-634 | is the specified handshake, refusals included |
| ServerHandlers.Server.AdmitSession | src/network/Server.cpp:549-592 | name, role, host id and host screen become as specified |
| ServerHandlers.Server.WelcomeSession | src/network/Server.cpp:593-634 | is the specified welcome, of which ToldExactly says who is sent what |
| ServerHandlers.Server.ClientList | src/network/Server.cpp:863-889 | the loop builds the list of completed sessions without the last semicolon |
| ServerHandlers.Server.HandleDisconnect | src/network/Server.cpp:636-671 | is the specified disconnect |
| ServerHandlers.Server.Stop | src/network/Server.cpp:167-192 | asks every listed session to close, once |
| ServerHandlers.Server.Broadcast | src/network/Server.cpp:673-688 | sends to every listed session whose handshake is complete, in list order |
| ServerHandlers.Server.BroadcastExcept | src/network/Server.cpp:722-737 | the same without one session |
| ServerHandlers.Server.BroadcastToReceivers | src/network/Server.cpp:690-719 | any message goes exactly to the completed receivers and broadcasters with input enabled, in list order, input not to the host |
| ServerHandlers.Server.ProcessCommand | src/network/Server.cpp:739-861 | the host's commands have the specified effect, everyone else's none |
| ServerHandlers.Server.ProcessLimitedCommand | src/network/Server.cpp:507-540 | host information is answered, anything else refused |
| KeyEvents.EffectiveAlternates | src/input/LinuxInputHelper.cpp:165-186 | a stream in which every event changes something strictly alternates press and release for each key, and the key is held after an odd number of them |
| KeyEvents.HeldIffDown | src/input/LinuxInputHelper.cpp:165-186 | a key is held after a stream if and only if its last event is a press, and, where every event changes something, if and only if it has an odd number of events |
| KeyEvents.WithBitApplies | src/input/LinuxInputHelper.cpp:165-176 | setting or clearing one bit of the 32-byte mask changes the recorded set by exactly that key |
| KeyEvents.KeyBitmask.Update | src/input/LinuxInputHelper.cpp:165-176 | records exactly that key's new state; code 0 changes nothing |
| KeyEvents.KeyBitmask.IsPressed | src/input/LinuxInputHelper.cpp:178-186 | tells whether the key is recorded |
| HelperInput.KeyStream | src/input/LinuxInputHelper.cpp:578-608 | for every event sequence the events sent for each code alternate from a press, also where two keys share a code, and leave held exactly the set in the bitmask; at the end of a report none is unsent |
| HelperInput.WheelAndButtonsAreTold | src/input/LinuxInputHelper.cpp:578-783 | after every report the wheel ticks sent are those of the wheel modulo 2^16, and the last buttons told are the buttons pressed |
| HelperInput.ReportSendsItsTicksIff | src/input/LinuxInputHelper.cpp:622-623 | a report sends its ticks in 16 bits; that is exactly its ticks if and only if their sum lies from -32768 to 32767 |
| HelperInput.TicksAreSentOnce | src/input/LinuxInputHelper.cpp:622-623 | if the ticks of every report fit, every tick of a run is sent exactly once or still gathered |
| HelperInput.TicksCanBeLost | src/input/LinuxInputHelper.cpp:622-623 | 40000 ticks in one report are sent as -25536; 65536 cause no payload |
| HelperInput.PollsAreRun | src/input/LinuxInputHelper.cpp:540-790 | so long as devices yield whole reports, any number of polls, each over any ready devices, amounts to one run over all their events |
| HelperInput.PointerStaysNear | src/input/LinuxInputHelper.cpp:665-762 | after every report the pointer is on the screen and less than two pixels from the last position sent |
| HelperInput.ReceiverTracksHost | src/input/LinuxInputHelper.cpp:715-762 | once a position has been sent, a receiver on the mouse path is within (W'-1)/(W-1) + 1 pixels of the scaled host pointer after every report, and likewise vertically |
| HelperInput.TargetIsClose | src/input/LinuxInputHelper.cpp:810-825 | fraction, scaling and truncation of a sent position are off by less than one pixel and one scaled pixel |
| HelperMotion.HeldFollowsEvents | src/input/LinuxInputHelper.cpp:578-600 | the helper holds a key if and only if the last device event of a key with that code, a touch not counted, was not a release |
| HelperMotion.TouchFollowsEvents | src/input/LinuxInputHelper.cpp:580-590 | a finger is taken to be down if and only if the last touch event of the device says so |
| HelperMotion.ButtonsFollowEvents | src/input/LinuxInputHelper.cpp:601-607 | bit 0, 1 or 2 of the buttons is set if and only if the last event of the left, right or middle button was not a release; a report counts as changing buttons if and only if one of its events did |
| HelperMotion.MouseWalks | src/input/LinuxInputHelper.cpp:609-621 | over every run without absolute events, at every point: each coordinate is that of a walk from the middle that takes each REL_X (REL_Y) value in full and returns to the screen at each report |
| HelperMotion.MotionAddsUp | src/input/LinuxInputHelper.cpp:609-621 | so if the motion leaves the screen at no report, the pointer is the middle plus the sum of all REL_X and REL_Y values |
| HelperMotion.RelativeReport | src/input/LinuxInputHelper.cpp:609-720 | wherever other devices have taken it, a report of relative events moves the pointer to the pixel of the screen nearest to its last place plus the sums of the REL_X and REL_Y values of the report |
| HelperMotion.PollMoves | src/input/LinuxInputHelper.cpp:540-790 | and so does one such report polled after any polls of whole reports |
| HelperMotion.ScaleIsPixel | src/input/LinuxInputHelper.cpp:188-195 | a device coordinate is the pixel at its proportion of the axis, computed in whole numbers, for every axis |
| HelperMotion.PixelOnScreen | src/input/LinuxInputHelper.cpp:188-195 | that pixel is on the screen; the first and last coordinate of an axis are the first and last pixel |
| HelperMotion.AbsoluteReport | src/input/LinuxInputHelper.cpp:625-720 | a report of coordinates without a finger puts the pointer at the pixels of the last ones; an axis not reported stays |
| HelperMotion.DeltaIsWay | src/input/LinuxInputHelper.cpp:690-706 | a finger's way in pixels is its proportion of the axis, in whole numbers rounded towards zero |
| HelperMotion.FingerDrags | src/input/LinuxInputHelper.cpp:665-720 | from a finger coming down, over any reports, the pointer is where it was plus the way from the finger's first position to its last, up to the edge of the screen; reports with one coordinate count for nothing |
| HelperMotion.ReportSends | src/input/LinuxInputHelper.cpp:722-783 | for the end of every report of every run, what is sent, field by field: a position if and only if the pointer is two pixels or more from the last one sent or a button changed; a mouse event if and only if that, ticks or a mouse button's key; a payload if and only if a mouse event or keys |
| HelperMotion.MouseIsMarked | src/input/LinuxInputHelper.cpp:742-753 | without absolute events a mouse payload is marked as the mouse's unless a button of a touchpad changed |
| HelperMotion.DragIsMarked | src/input/LinuxInputHelper.cpp:742-753 | a report whose drag moves the pointer is marked as the trackpad's |
| HelperMotion.AllKeysAreSentIff | src/input/LinuxInputHelper.cpp:553-783 | over any polls, whole reports or not: all recorded key changes have been sent, in order, if and only if no poll ended with key events gathered |
| HelperMotion.PressCanBeLost | src/input/LinuxInputHelper.cpp:553-783 | a key pressed in a report that the end of the poll cuts off is held by the helper and its press never sent |
| HelperPolling.Helper.HandleEvent | src/input/LinuxInputHelper.cpp:566-783 | one raw event changes the helper's globals as specified |
| HelperPolling.Helper.PollEventsOnce | src/input/LinuxInputHelper.cpp:550-790 | the loops over the ready devices and their events compute the specified poll |
| HelperPolling.Helper.HandleKey | src/input/LinuxInputHelper.cpp:578-608 | touch state, key events, bitmask and buttons change as specified |
| HelperPolling.Helper.HandleRel | src/input/LinuxInputHelper.cpp:609-624 | is the specified event, of which MouseWalks and WheelAndButtonsAreTold say where it takes the pointer and the wheels |
| HelperPolling.Helper.HandleAbs | src/input/LinuxInputHelper.cpp:625-663 | absolute positions are scaled, or kept pending during a touch, as specified |
| HelperPolling.Helper.HandleReport | src/input/LinuxInputHelper.cpp:665-783 | what a report sends and resets is the specified end of a report |
| PointerSimulation.RunKeepsInv | src/input/InputManager.cpp:22-91 | over every run the last position is unset or on the screen, and the anchors are both unset or both non-negative |
| PointerSimulation.AnchorIsLastTrackpad | src/input/InputManager.cpp:22-91 | after any packets the anchor is the last accepted packet if that came from a trackpad and unset otherwise |
| PointerSimulation.PacketMovesCursor | src/input/InputManager.cpp:22-91 | where each packet takes the cursor, by the packets before it: a mouse's, or a trackpad's without a trackpad packet just before, to its own position; other trackpad packets by their step, unless that is longer than 0.02 |
| PointerSimulation.TrackpadStepIsSmall | src/input/InputManager.cpp:22-91 | a trackpad packet moves a set cursor by at most 0.02 despite clamping, a far one by nothing, and becomes the anchor |
| PointerSimulation.GlideTelescopes | src/input/InputManager.cpp:22-91 | over any run of close unclamped packets the cursor moves by exactly last position minus first anchor |
| PointerSimulation.InputManager.ProcessSimulatedMouseCoordinates | src/input/InputManager.cpp:22-91 | is the specified machine; an ignored position leaves state and outputs |
| PointerSimulation.HelperSimulation.ProcessSimulatedMouseCoordinates | src/input/LinuxInputHelper.cpp:112-163 | is the same machine; an ignored position is answered with the last one or the middle |
| PointerSimulation.StepEquivalent | src/input/LinuxInputHelper.cpp:112-163 | both give the same cursor and stay in step on non-negative positions |
| PauseCombo.FlagsAndGrabAgree | src/input/LinuxInput.cpp:593-610 | over every run, changes of the combination included, local and global pause flags agree, a host's grab commands alternate from a grab, the last is Grab exactly when not paused while connected, and only a host gives any |
| PauseCombo.PauseIsParityOfEdges | src/input/LinuxInput.cpp:461-556 | with a fixed combination: paused after an odd number of polls at which all its keys have come to be down, a key being down if its last polled event (of its left or right code, for a modifier's common code) is a press; the payloads returned are exactly the batches of the polls that end unpaused, in order |
| PauseCombo.HeldIffAllDown | src/input/LinuxInput.cpp:472-498 | the combination is held by the recorded keys if and only if every one of its keys is down by the events polled |
| PauseCombo.TogglesIff | src/input/LinuxInput.cpp:461-511 | a poll toggles if and only if all keys are down after it and were not before; with some key up, on both sides, it toggles nothing |
| PauseCombo.ClearingLiftsIff | src/input/LinuxInput.cpp:616-633 | taking the combination away ends a pause if and only if it was held at the last poll |
| PauseCombo.NeverPausesWithoutCombo | src/input/LinuxInput.cpp:513-556 | without a combination nothing pauses and polls return every payload received, in order |
| PauseCombo.NothingAfterLoss | src/input/LinuxInput.cpp:513-610 | once the helper is lost polls return nothing and no command is given |
| PauseCombo.LinuxInput.PollEvents | src/input/LinuxInput.cpp:513-556 | is the specified poll and returns what it adds to the history |
| PauseCombo.LinuxInput.CheckAndTogglePauseCombo | src/input/LinuxInput.cpp:461-511 | is the specified check, of which TogglesIff says when it toggles; without a combination it lifts the pause it caused |
| PauseCombo.LinuxInput.SetInputPaused | src/input/LinuxInput.cpp:593-610 | changes flag and grab once per change |
| PauseCombo.LinuxInput.SetPauseKeyCombo | src/input/LinuxInput.cpp:616-633 | resets the keys; without a combination lifts the pause it caused |
| WindowsPoller.PollerStream | src/input/WindowsInput.cpp:152-195 | over every run of polls the changes of each key alternate, their fold is the bitmask, and a key's bit is set if and only if it has a press time |
| WindowsPoller.CheckReleaseExactly | src/input/WindowsInput.cpp:165-180 | the branch for a missing press time is never taken |
| WindowsPoller.CheckPressExactly | src/input/WindowsInput.cpp:182-192 | a press is never held back by the debounce |
| WindowsPoller.PollExactly | src/input/WindowsInput.cpp:152-195 | which keys are recorded as held after a poll, key by key |
| WindowsPoller.StuckExactlyWhen | src/input/WindowsInput.cpp:165-180 | a key that is up stays recorded as held if and only if it was already up at the last poll or is within the debounce |
| WindowsPoller.MissedReleaseSticks | src/input/WindowsInput.cpp:165-180 | such a key stays recorded however long it is up |
| WindowsPoller.NeverSticksIff | src/input/WindowsInput.cpp:152-195 | over a run of polls, none leaves a key recorded as held though it is up if and only if at every falling edge the key has been down for the debounce time |
| WindowsPoller.ReleaseCanBeMissed | src/input/WindowsInput.cpp:165-180 | a key down at one poll and up 3 ms later stays recorded |
| WindowsPoller.WindowsInput.FindKeyChanges | src/input/WindowsInput.cpp:152-195 | the loops compute the specified poll and return the changes |
| WindowsHook.PauseIsParityOfEdges | src/input/WindowsInput.cpp:660-713 | with a fixed combination, pausing is toggled whenever all its keys come to be down, by the last event seen of each (common, left or right code), and by nothing else |
| WindowsHook.HeldIffAllDown | src/input/WindowsInput.cpp:672-701 | the combination is held by the recorded keys if and only if every one of its keys is down by the events seen |
| WindowsHook.ClearedComboUnpauses | src/input/WindowsInput.cpp:129-150 | after any run, taking the combination away ends a pause until there is one again; replacing it keeps the pause |
| WindowsHook.StuckExactly | src/input/WindowsInput.cpp:502-538 | after any step receivers hold a key that is not down if and only if it is not down, was stuck before or is released now during a pause, and no pause starting now releases it |
| WindowsHook.NothingSticks | src/input/WindowsInput.cpp:502-538 | if no key receivers hold is ever released during a pause, they never hold a key that is not down |
| WindowsHook.SticksIff | src/input/WindowsInput.cpp:502-538 | a key is stuck after some prefix of a run if and only if some step of it releases the key, held by the receivers, during a pause |
| WindowsHook.KeyCanStick | src/input/WindowsInput.cpp:502-538 | any other key pressed, input paused with a one-key combination and the key released, sticks |
| WindowsHook.ComboIsReleased | src/input/WindowsInput.cpp:715-744 | while paused the receivers hold no key of the combination |
| WindowsHook.PollsReturnAll | src/input/WindowsInput.cpp:226-236 | polls hand out all queued key events, in order |
| WindowsHook.WindowsInput.LowLevelKeyboardProc | src/input/WindowsInput.cpp:425-460 | is the specified step; the key is passed on exactly when input is paused afterwards |
| WindowsHook.WindowsInput.ProcessKeyFromHook | src/input/WindowsInput.cpp:502-538 | records the key always, queues it only when it changed something and input is not paused |
| WindowsHook.WindowsInput.CheckPauseComboFromHook | src/input/WindowsInput.cpp:660-746 | toggles on the rising edge and queues the releases when that pauses |
| WindowsHook.WindowsInput.SetPauseKeyCombo | src/input/WindowsInput.cpp:129-150 | clearing the combination lifts a pause |
| PayloadCodec.DecodeOfEncode | src/utils/Serialization.cpp:6-76 | a payload followed by any bytes is read back if and only if it has fewer than 2^32 key events |
| PayloadCodec.PrefixesAreRejected | src/utils/Serialization.cpp:42-76 | no strict prefix of an encoded payload is accepted |
| PayloadCodec.EncodeOfDecode | src/utils/Serialization.cpp:42-76 | accepted bytes start with the encoding of the payload read if and only if every bool in them is 0 or 1 |
| PayloadCodec.PayloadLayout | src/utils/Serialization.cpp:6-40 | byte by byte: every field at its offset, numbers with the lowest byte first, the count at 15, code and state of each key event from 19 on |
| PayloadCodec.SerializeInputPayload | src/utils/Serialization.cpp:6-40 | the appending loop produces the format |
| PayloadCodec.DeserializeInputPayload | src/utils/Serialization.cpp:42-76 | the offset loop accepts exactly the specified bytes, in bounds, for every input |
| FileBodies.UploadRoundTrip | src/network/Message.cpp:235-312 | path, name and content are recovered if and only if path and name hold no NUL |
| FileBodies.ResponseRoundTrip | src/network/Message.cpp:247-323 | path and content are recovered if and only if the path holds no NUL; creation fails exactly when path and content are too long |
| FileBodies.ErrorRoundTrip | src/network/Message.cpp:260-347 | message and path are recovered if and only if the message holds no NUL |
| FileBodies.FileMessageLayout | src/network/Message.cpp:235-270 | the kinds and the order of the fields of the three file messages, each but the last followed by a NUL |
| ConfigFile.SaveThenLoad | src/utils/Config.cpp:35-177 | for every map and every order of its entries, saving and loading goes through and restores it if and only if every entry is restorable: a trimmed one-line key without '='; under the pause key a non-empty list of non-zero codes; elsewhere an int, a bool, a string that reads as a string, or a float whose printed text is no whole number and reads back |
| ConfigFile.RestorableIff | src/utils/Config.cpp:60-120 | an entry that makes one line is restorable if and only if something is printed of it and reads as it |
| ConfigFile.WholeFloatIsReadAsInt | src/utils/Config.cpp:88-112 | a float printed as a whole number is read back as that int |
| ConfigFile.TrimDropsBlanks | src/utils/Config.cpp:59-62 | trimming takes away blanks at both ends and nothing else |
| ConfigFile.PauseLineThrowsIff | src/utils/Config.cpp:66-82 | a line of the pause key throws if and only if reading its codes stops, at something that is no number in range, short of the end of the text |
| ConfigFile.LoadCanThrow | src/utils/Config.cpp:76-80 | codes separated by a comma make loading throw |
| ConfigFile.ShowReadsBack | src/utils/Config.cpp:60-120 | the printed text of a restorable value reads back as that value, type included |
| ConfigFile.LoadReadsPrinted | src/utils/Config.cpp:35-126 | loading one-line entries gives exactly those of which something was printed, as what the text reads as |
| ConfigFile.ReadIntsOfJoinKeys | src/utils/Config.cpp:66-85 | the blank-separated key codes are read back as printed |
| ConfigFile.Config.LoadFromFile | src/utils/Config.cpp:35-126 | misses the file, throws or loads: it throws if and only if some line of the pause key cannot be read to its end; the settings are then those of the lines before it, otherwise those of all; a missing file changes nothing |
| ConfigFile.Config.ReadLine | src/utils/Config.cpp:46-122 | one line sets, skips or throws as specified; throwing, it sets nothing |
| ConfigFile.Config.SaveToFile | src/utils/Config.cpp:129-177 | the loop writes the specified file; nothing when it cannot be opened |
| FileTree.FindIsExhaustive | src/ui/panels/FileExplorerPanel.cpp:264-279 | on a tree whose descendants' paths extend their ancestors', the prefix-pruned lookup finds what a full preorder search finds, for every target |
| FileTree.LookupOnScannedTree | src/ui/panels/FileExplorerPanel.cpp:145-219 | the scan builds such a tree with any sort, so the lookup on it is exhaustive |
| FileTree.ScanIsSortedPermutation | src/ui/panels/FileExplorerPanel.cpp:162-219 | whatever arrangement the sort chooses, the children are one per entry and, after a complete iteration, in order: directories first, then by name |
| FileTree.ScanHasContents | src/ui/panels/FileExplorerPanel.cpp:162-219 | the nodes of the scanned tree, at every depth, are exactly the entries below the directory, each once, with joined path, name and kind |
| FileTree.FoundIffEntry | src/ui/panels/FileExplorerPanel.cpp:264-279 | the lookup on a scanned tree succeeds if and only if the target is the storage path or the path of an entry at any depth |
| FileTree.FoundHasPath | src/ui/panels/FileExplorerPanel.cpp:264-279 | what it finds is a node of the tree, reached through directories, with the path asked for |
| FileTree.DirectoriesComeFirst | src/ui/panels/FileExplorerPanel.cpp:215-218 | after a complete iteration no file is before a directory and names ascend among each |
| FileTree.TextLessIff | src/ui/panels/FileExplorerPanel.cpp:217 | names are ordered as in a dictionary: a proper prefix first, otherwise by the first difference |
| FileTree.JoinEndsInName | src/ui/panels/FileExplorerPanel.cpp:171-174 | the path of an entry is its directory's, a separator unless there is one, and its name |
| FileTree.BeforeIsStrictWeakOrder | src/ui/panels/FileExplorerPanel.cpp:215-218 | the comparison is irreflexive and transitive and its incomparability is transitive, as std::sort requires |
| FileTree.SortedIsUnique | src/ui/panels/FileExplorerPanel.cpp:215-218 | two sorted arrangements of the same nodes with distinct names are equal |
| FileTree.ScanIsDetermined | src/ui/panels/FileExplorerPanel.cpp:162-219 | when names differ within each directory, as in a file system, the whole scanned tree is the same for every sort |
| FileTree.ScanDirectory | src/ui/panels/FileExplorerPanel.cpp:162-219 | the recursive loop computes the specified scan; its nodes at every depth are exactly the entries below the directory |
| FileTree.SortChildren | src/ui/panels/FileExplorerPanel.cpp:215-218 | the result of any sort: a sorted permutation of the children, and the only one when their names differ |

## Left out

- asio, OpenSSL, sockets, resolver and acceptor: their completions and errors are steps that may happen at any time; TCP and TLS are a reliable byte pipe.
- Memory order of the atomics and the mutexes: handlers run on one thread, one at a time.
- Cereal archives (handshakes, network input, file system updates): `decode` is a parameter, or the payload is read or unreadable.
- Shared ownership of sessions: the server's sessions are records in a map by id, not objects shared with the transport.
- The asynchronous secure shutdown: a close is one step, and the disconnect handler runs at any later time.
- The disk: what an upload or a request finds there is part of the packet (`FileUpload`, `FileRequest`); downloads at the client.
- Several connections of one client object: its buffers are not cleared in between; one connection is modelled.
- The order of steps before the application handshake (resolve, connect, secure handshake) on the client side.
- AuthorityProofs.ServerSafety: for fewer than 2^32 accepted connections; afterwards ids wrap and the source does not promise distinctness. The same holds of the theorems that use it.
- NameAgreement.NamesAgree: for clients whose handshakes carry the name they connected with and of which one has been sent, as the source's client does.
- JointRun.NamesAgreeOverTheWire: for packets that travel as messages with bodies of fewer than 2^32 bytes, because an empty body shows the body before it, and a client that is not closed by its user.
- HelperInput.PointerStaysNear: for a known screen size, and whole reports: a stream with dropped events (SYN_DROPPED) is not modelled.
- HelperInput.ReceiverTracksHost: floats are exact reals and coordinates unbounded; rounding, NaN and 32-bit overflow of deltas are not modelled.
- HelperInput.PollsAreRun: for devices that yield whole reports; of unfinished ones only the key events are followed (`HelperMotion.AllKeysAreSentIff`).
- HelperMotion.MouseWalks: for runs without absolute events; with them the pointer is followed report by report (`HelperMotion.RelativeReport`, `HelperMotion.AbsoluteReport`, `HelperMotion.FingerDrags`), each report being all motion, all coordinates, or a touch and then coordinates.
- PointerSimulation.GlideTelescopes: on exact reals, like everything in that module.
- HelperInput.KeyStream: the table from device codes to key codes is a parameter, so it holds for any.
- The helper process: its launch, shared memory, device discovery and grabbing, and the unframed local socket between it and the application; the payload codec is per buffer.
- The Windows mouse hook, the mouse half of the Windows poll and its pause check, and the system calls that inject input.
- WindowsHook.ComboIsReleased: for a combination that is not changed meanwhile, and for the codes the source releases: a modifier seen under its common code rather than a left or right one is not among them.
- FileTree.ScanIsDetermined: for names that differ within each directory; otherwise std::sort may leave equal names in any order.
- ConfigFile.SaveThenLoad: reading and printing floats is a parameter, of which only is asked that it prints one non-empty line without blanks around it; that six digits lose precision is the case in which the text does not read back.
- The file system under the tree scan: entries and their order are given; sizes, times, relative paths and symbolic links are not modelled.
- The user interface, logging, certificates and the network scan.
