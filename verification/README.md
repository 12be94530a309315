# Verified model of the CLI chat application

A chat server with one event loop, clients with three threads, packets framed by a 32-bit length
and messages sealed under a group key. The project models both programs and the network wrapper
they share, and proves what their users rely on: every client sees one and the same order of
messages, also when broken connections set off nested disconnections; the server's tables always
agree; what is framed and sealed on one side is what is opened on the other; and the client's
shutdown ends cleanly in every interleaving.

`dafny verify dfyconfig.toml` checks everything. Start with `ServerState.dfy`.

| file | contents |
|---|---|
| `Octets.dfy` | byte strings |
| `Framing.dfy` | frames, reading them back, links that fail |
| `NetworkSession.dfy` | the session class: partial transfers, `SendPacket`, `RecvPacket` |
| `Secretbox.dfy` | ideal sealing and opening, as parameters |
| `ServerState.dfy` | the server's state and what each event may do to it |
| `Cascades.dfy` | nested broadcasts: who is removed, and that no order matters |
| `ServerRuns.dfy` | the invariant and its preservation along every run |
| `Delivery.dfy` | total order, accounting, agreement of the tables, the shape of every wire, runs of conforming clients |
| `Effects.dfy` | what each event does to tables, links and log, and a run in which somebody gets into the chat |
| `Server.dfy` | the server class, proved against `ServerState.dfy` |
| `Client.dfy` | the client class: handshake, sealed messages, thread loops |
| `Greeting.dfy` | key agreement, for every part of the handshake and every way it can end |
| `EndToEnd.dfy` | from the server's log to the client's screen, and from the client's input to the server |
| `Shutdown.dfy` | the three threads of the client as interleaved statements |
| `LineEditor.dfy`, `MessageQueue.dfy` | the input line and the message queue of the screen |

## How the model is built

- A link has a budget: how many more bytes the kernel takes before the link fails for good. A send
  succeeds exactly when the frame fits. Budgets are arbitrary, so every pattern of permanent
  failures, at every byte, is a choice of budgets. How many bytes one system call transfers is
  arbitrary as well.
- `NetworkSession` transfers bytes through a buffer; its `SendPacket` is proved equal to one
  `Link.Send`. The server class keeps one `Link` per open descriptor and sends on it. The iteration
  order of its table and all nonces are arbitrary.
- `Cascade` states the whole effect of a broadcast, nested broadcasts included, without mentioning
  any recursion. The recursive methods are proved to have exactly this effect. Dafny's termination
  check of the two methods, on the number of clients, is the termination proof of the cascade.
- The predicates that specify the steps of the server are not the last word: `Effects.dfy` states what
  each event does without them, and so do `HandledInOrder` for the event loop, `SaysLines` for the
  input loop, `LengthBytes` for the wire format and `KeyActsAt` for the keys.
- The log of everything distributed, the place where each client joined, and the records of closed
  connections are history: ghost fields of the server class, ordinary fields of `State`.
- `Inv` is proved for every state of every run (`RunsKeepInv`), and `EventLoop` is proved to perform
  a run. Everything in `Delivery.dfy`, `Greeting.dfy` and `EndToEnd.dfy` follows from `Inv`.
- A client that behaves like the client program is a matter of what the server receives from it
  (`ConformingEvent`): a readable name is at most 24 bytes long, and everything later is a sealed
  `name: text` short enough to be framed. That a run of such clients never distributes anything
  else is proved (`ConformingRuns`), and so is that what the client program sends arrives as such
  packets (`ClientStreamConforms`). What a clean end of file inside a frame makes of the frame is
  not a packet of the client program; what it can do is stated by `ListenersGoOnExactly`.
- The threads of the client are modelled three times: as interleaved statements in `Shutdown.dfy`;
  as loops in `Client.dfy`, where at the points named there the other threads print the queue and
  execute any part of `Stop` (`OtherThreads`); and as turns between the server's steps in `EndToEnd.dfy`.
- Encryption is ideal (`Ideal`): opening inverts sealing and nothing else opens. The assumption is
  shown to be satisfiable.

## What the code does not do

These are consequences of the code as it is, each with the exact condition.

- A packet survives framing exactly when it is shorter than 2^32 bytes (`RoundTripExactly`).
- After a clean end of file inside a frame, `RecvPacket` returns a packet filled up with zero bytes
  instead of failing; what it returns was sent exactly when a whole frame was there
  (`GenuineExactly`, `FailsExactly`, `TruncatedHeaderReadsAsEmptyPacket`).
- A clean end of file inside the handshake makes the client read outside its buffers exactly when
  it cuts one of the two length fields, that is after 1 to 3 or 37 to 39 bytes. If it cuts the boxed
  group key itself, the client goes on with whatever the key, filled up with zero bytes, opens to;
  with the nonce whole that is the server's key exactly when all the missing bytes are zero
  (`KeyAgreement`, `CutHeaderIsUndefined`, `CutKeyExactly`).
- One packet that cannot be read ends the receiving thread of every client it is forwarded to; a
  clean end of file in the header of one client's frame is enough (`ListenersGoOnExactly`,
  `CutHeaderEndsEverybody`).
- An empty message is sealed and sent but never received (`SealedRoundTripExactly`).
- A username packet of 24 to 39 bytes makes the server's size computation wrap around to more than
  can be allocated; the server does not survive it (`SizeWrapsExactly`, `FaultIsReachable`,
  `HandleClientEvent`).
- A connection that ends before it has exchanged its key is not taken out: its entry and its socket
  stay, however often the server is told (`EndedIsRemovedExactly`, `UnkeyedStays`).
- The client can close the same descriptor twice: testing and setting `m_stopping` are separate, so
  two threads can execute the body of `Stop` together. There is a run in which they do
  (`ClosedTwice`). Close is called exactly once if and only if no two threads ever are between
  finding the socket set and forgetting it, and for that it is enough that no two are past the test
  of `m_stopping` together (`ClosedOnceExactly`).
- A line still being typed when the screen stops is returned as if Enter had ended it, and can still
  be sent while the socket is open (`PromptInput`, `UnfinishedLooksEntered`).
- Stopping the server leaves the accepted sockets open; tables and kernel agree afterwards exactly
  if nobody was connected (`Stop`, `SocketsOutliveStop`, `SomebodyConnects`).
- The keyboard codes of the editing keys are also code points of letters: typing a text yields that
  text exactly when it has no such letter (`TypingYieldsTextExactly`, `LetterActsAsBackspace`).

## Model

| member | source | states |
|---|---|---|
| Framing.BigEndianRoundTrip | common/src/network_session.cpp:17-18 | decoding the big-endian bytes of a number gives the number, whenever it fits the width |
| Framing.BytesRoundTrip | common/src/network_session.cpp:51 | encoding a decoded number gives the bytes back, for any width |
| Framing.LengthBytes | common/src/network_session.cpp:17-18 | the four bytes of every length, the most significant first |
| Framing.LengthOfBytes | common/src/network_session.cpp:51 | the length that any four bytes stand for |
| Framing.FrameLayout | common/src/network_session.cpp:17-23 | every frame byte by byte: four bytes of length, then the packet |
| Framing.ReadFrame | common/src/network_session.cpp:31-66 | what is read from any frame, whose length field may have wrapped, and what is left unread |
| Framing.RoundTripExactly | common/src/network_session.cpp:15-66 | one packet is read back, with exactly the rest unread, if and only if it is shorter than 2^32 bytes |
| Framing.SequenceRoundTrip | common/src/network_session.cpp:15-66 | any list of packets, empty ones included, is read back in order and leaves exactly the unread suffix |
| Framing.FramesArePrefixFree | common/src/network_session.cpp:17-23 | no frame is a proper prefix of another frame |
| Framing.FramingIsInjective | common/src/network_session.cpp:17-23 | the bytes of a list of packets determine the list |
| Framing.GenuineExactly | common/src/network_session.cpp:34-65 | a returned packet is the one framed at the head of the stream if and only if a whole frame was there |
| Framing.TruncatedHeaderReadsAsEmptyPacket | common/src/network_session.cpp:34-56 | two zero bytes and end of file are returned as an empty packet that nobody sent |
| Framing.FailsExactly | common/src/network_session.cpp:37-63 | the exact streams on which receiving a packet fails |
| Framing.FailureIsPermanent | common/src/network_session.cpp:25-28 | nothing sent on a failed link changes it |
| Framing.SendAllExactly | common/src/network_session.cpp:15-29 | after any list of sends the wire holds exactly the packets that fitted, whole, and then at most one proper prefix of the next frame |
| Framing.FitsAllExactly | common/src/network_session.cpp:25-28 | all of a list of packets is sent if and only if its frames together fit the budget |
| Framing.SendWire | common/src/network_session.cpp:20-28 | one send appends exactly the part of the frame that the budget covers and reports failure exactly when that is not all |
| Framing.ReaderGetsWhatWasSent | common/src/network_session.cpp:15-66 | the reader of any link, failed or not, first gets exactly the packets reported as sent |
| Framing.UnfinishedFrameFails | common/src/network_session.cpp:43-63 | an unfinished frame followed by an error is never returned as a packet |
| Framing.UnfinishedFrameIsCompleted | common/src/network_session.cpp:34-65 | what is returned for every proper part of a frame followed by a clean end of file: nothing, an empty packet if only zero bytes of the header are there, or the payload filled up with zero bytes |
| Network.NetworkSession.RecvAll | common/src/network_session.cpp:83-106 | for every chunking the buffer receives exactly the head of the stream, the rest of it is untouched, and the result tells success, end of file and error apart |
| Network.NetworkSession.SendAll | common/src/network_session.cpp:108-128 | for every chunking exactly a prefix of the buffer goes out, and success is reported exactly when it is all of it |
| Network.NetworkSession.SendPacket | common/src/network_session.cpp:15-29 | equals one send on the abstract link; fails and sends nothing on a closed socket |
| Network.NetworkSession.RecvPacket | common/src/network_session.cpp:31-66 | equals ReadPacket on the stream, for every chunking |
| Network.NetworkSession.CloseSession | common/src/network_session.cpp:68-76 | the descriptor is invalid afterwards, and closing again changes nothing |
| Network.NetworkSession.Recv | common/src/network_session.cpp:89 | one system call transfers an arbitrary positive part of what was asked for and is there |
| Network.NetworkSession.Send | common/src/network_session.cpp:114 | one system call takes an arbitrary positive part of what is offered and fits the budget |
| Secretbox.IdealIsSatisfiable | server/src/server.cpp:409-415 | the assumptions on the primitives are consistent |
| Secretbox.OpensExactly | server/src/server.cpp:346-357 | a packet opens to a text if and only if it is a nonce followed by the sealed text; it is 40 bytes longer |
| Secretbox.NonceComesFirst | server/src/server.cpp:346-357 | a packet opens to a text if and only if its bytes from the 25th on are the text sealed under its first 24 |
| ServerProgram.Server.Accept | server/src/server.cpp:201 | the kernel hands out a descriptor that is not in use |
| ServerProgram.Server.Close | server/src/server.cpp:223 | a descriptor is closed only while it is open, so never twice before it is handed out again |
| ServerProgram.Server.SendSecretbox | server/src/server.cpp:402-431 | the packet sent opens to the message under the group key; success is reported exactly when the link has not failed |
| ServerProgram.Server.BroadcastEncrypted | server/src/server.cpp:433-455 | terminates and has exactly the effect Cascade, for every iteration order, with the tables agreeing at entry and exit also when nested; no client is disconnected twice |
| ServerProgram.Server.SendToAll | server/src/server.cpp:435-444 | every registered client is sent the message once, nobody else anything; the remove list is exactly those whose link has failed |
| ServerProgram.Server.DisconnectClient | server/src/server.cpp:234-262 | an absent client is left alone; a present one is dropped, its socket closed while still open, and if it was registered everybody else is told by a cascade |
| ServerProgram.Server.HandleNewConnection | server/src/server.cpp:197-232 | all pending connections are accepted, one by one and in order, as steps of a run; one that epoll refuses is closed again |
| ServerProgram.Server.HandleClientEvent | server/src/server.cpp:264-399 | performs the step that the phase of the connection and the packet call for; is not survived exactly when the buffer for the name cannot be allocated |
| ServerProgram.Server.ExchangeKeys | server/src/server.cpp:290-322 | both handshake packets go out in order, or the client is dropped when no key can be shared |
| ServerProgram.Server.Register | server/src/server.cpp:337-388 | the buffer size is computed modulo 2^64 and faults if it cannot be allocated; an unreadable name means leaving, a taken one refusal, a free one admission and a cascade |
| ServerProgram.Server.ForwardToAll | server/src/server.cpp:392-398 | the packet itself goes once to every registered client, failures are ignored |
| ServerProgram.Server.EventLoop | server/src/server.cpp:156-195 | the events of its run are, one to one and in order, the client entries with their descriptors and packets and the pending connections of the listening entries; the loop is left early exactly at an entry for a descriptor that is gone or at a fault, with everything before it handled |
| ServerProgram.Server.Stop | server/src/server.cpp:121-150 | both tables are emptied, the accepted sockets stay as they are, so that tables and kernel agree exactly if nobody was connected; a second call does nothing |
| ServerState.SizeWrapsExactly | server/src/server.cpp:348-349 | for every packet that can be received, the size wraps around to an impossible one if and only if the packet is 24 to 39 bytes long |
| Effects.FaultsExactly | server/src/server.cpp:337-349 | of what can be received exactly a username packet of 24 to 39 bytes is not survived |
| Effects.AcceptedExactly | server/src/server.cpp:197-232 | in every state: a new descriptor, an empty entry and an open socket; nothing at all if epoll refuses it |
| Effects.NotAKeyIsIgnored | server/src/server.cpp:278-288 | whatever is not a key of 32 bytes changes nothing before the key exchange |
| Effects.KeyIsAnswered | server/src/server.cpp:290-322 | a key is noted and answered by the server's key and a packet that opens to the group key, 112 bytes if the link takes them |
| Effects.UnusableKeyIsDropped | server/src/server.cpp:301-313 | a key that cannot be used costs the client its connection, after the server's key was sent |
| Effects.NamelessLeavesSilently | server/src/server.cpp:328-364 | an unreadable name, and an end before there is a name, take the client out of both tables and leave the log alone |
| Effects.TakenNameIsRefused | server/src/server.cpp:370-378 | a taken name is answered by the control message, and the connection closed and recorded as refused |
| Effects.FreeNameIsAdmitted | server/src/server.cpp:379-387 | a free name is admitted: its arrival is next in the log and the next thing everybody left in the chat is sent, and the client is registered under it from there on, or has left a record with a failed link |
| Effects.FreeNameGetsIn | server/src/server.cpp:379-387 | if the links in the chat and the client's own have room for the notice, it gets in and nobody is removed |
| Effects.ForwardedExactly | server/src/server.cpp:392-398 | a registered client's packet goes once and unchanged to every registered client; nothing else changes but the log |
| Effects.DepartureIsTold | server/src/server.cpp:234-261 | a registered client whose connection ends is out of both tables and recorded, its name free, its departure next in the log and the next thing everybody left in the chat is sent |
| Effects.SomebodyGetsIn | server/src/server.cpp:264-399 | a run from the start in which a client connects, exchanges keys, gets in and is sent its own arrival and what it says |
| Effects.NoticesAreLiteral | server/src/server.cpp:259 | the texts of the notices, the control message and the separator |
| Cascades.FedExactly | server/src/server.cpp:437-444 | a link survives being sent a list of messages if and only if they cost at most its budget |
| Cascades.NestedCascade | server/src/server.cpp:446-454 | a round of sends followed by one disconnection with all it sets off is the whole cascade; no other client whose send failed is left, so the rest of the remove list is stale |
| Cascades.QuietCascade | server/src/server.cpp:437-446 | a round without failures is the whole cascade |
| Cascades.CascadeKeepsStructure | server/src/server.cpp:249-254 | after a cascade the tables and the kernel agree again |
| Cascades.RemovedIsLeastFatal | server/src/server.cpp:433-455 | the removed clients are the least set such that whoever cannot afford the message and all their farewells is in it |
| Cascades.CascadeIsOrderIndependent | server/src/server.cpp:433-455 | any two iteration orders remove the same clients, leave the same tables and link capacities, and log the same notices up to order |
| Cascades.ExactlyTheBrokenAreRemoved | server/src/server.cpp:433-455 | for a fixed set of broken links exactly the registered clients on them are removed, with one notice each |
| Cascades.SurvivorsSeeTheSame | server/src/server.cpp:437-443 | every survivor is sent the message once and first, then one farewell per removed client, all in the same order |
| ServerRuns.StepKeepsInv | server/src/server.cpp:264-399 | every event, with every packet, failure and order, keeps the invariant |
| ServerRuns.RunsKeepInv | server/src/server.cpp:156-195 | the invariant holds in every state of every run |
| ServerRuns.CascadeKeepsInv | server/src/server.cpp:433-455 | a cascade keeps slices, handshakes, accounts and tables in order, for survivors and for removed clients |
| ServerRuns.SyncFed | server/src/server.cpp:437-443 | a connection that is sent what is appended to the log stays a contiguous slice of it, complete unless a send failed |
| ServerRuns.FarewellsAccounted | server/src/server.cpp:249-259 | the farewells of a cascade take exactly the names of the removed clients out of the account |
| ServerRuns.HandshakeKeepsInv | server/src/server.cpp:273-323 | the handshake starts the stream of a connection and concerns nobody else |
| ServerRuns.FaultIsReachable | server/src/server.cpp:337-349 | from the start, a connection, a handshake and any packet of 24 to 39 bytes bring the server to its fault |
| ServerRuns.SomebodyConnects | server/src/server.cpp:197-232 | the server can reach a state in which somebody is connected |
| Delivery.DeliveredIsSlice | server/src/server.cpp:382-398 | what a client was ever sent after registering is one contiguous slice of the log, starting at its own arrival, packet by packet with the meaning the log gives |
| Delivery.TotalOrder | server/src/server.cpp:392-455 | in every state of every run any two clients, present or gone, were sent what both were sent in the same order |
| Delivery.NothingIsMissed | server/src/server.cpp:437-443 | a registered client without a failed send has been sent the whole log from its arrival on |
| Delivery.StreamShape | server/src/server.cpp:290-323 | the wire of every connection, open or over: the handshake pair or a part of it, once and first; then, of a client in the chat, its slice of the log, of a refused one the control message, otherwise nothing; then, only if a send failed, a proper part of the frame of the very next packet |
| Delivery.HistoryAlternates | server/src/server.cpp:246-259 | the notices of one name alternate, starting with an arrival |
| Delivery.Accounting | server/src/server.cpp:372-385 | in every reachable state each name's notices strictly alternate, names present are exactly the table, arrivals minus departures is its size |
| Delivery.IndexAgreement | server/src/server.cpp:367-383 | the name table is exactly the names of the registered clients, equally many; the open sockets are exactly the table of clients, and every entry and its session hold their own descriptor |
| Delivery.SocketsOutliveStop | server/src/server.cpp:149-150 | stopping keeps sockets and table in agreement if and only if nobody was connected |
| Delivery.RefusalIsLocal | server/src/server.cpp:372-378 | a refused duplicate changes no name, no log entry and no other connection |
| Delivery.StepGrows | server/src/server.cpp:392-398 | from one state to the next logs and streams only grow, a registered client keeps its name and place, and one that goes is recorded |
| Delivery.ForwardedIsReceived | server/src/server.cpp:392-398 | in every run the packets forwarded are exactly those received from clients that were in the chat at that moment, each once, unchanged and in order |
| Delivery.EndedIsRemovedExactly | server/src/server.cpp:278-288 | a connection that ends is taken out and its socket closed if and only if it has exchanged its key; otherwise nothing happens |
| Delivery.UnkeyedStays | server/src/server.cpp:273-288 | whatever the server is told of, a connection that sends no key keeps its entry and its socket |
| Delivery.ControlMessageIsUnambiguous | client/src/client.cpp:316 | no notice and nothing said can equal the control message |
| Delivery.ConformingRuns | client/src/client.cpp:295-318 | in every run in which each client sends what the client program sends, all that is ever distributed is short names and things said |
| Delivery.ControlMessageMeansRefused | server/src/server.cpp:372-377 | in every run of conforming clients only a connection that was refused its name was ever sent the control message |
| Delivery.NobodyInTheChatIsTold | client/src/client.cpp:349-355 | in every run of conforming clients no open connection has been sent the control message |
| ClientProgram.SealedRoundTripExactly | client/src/client.cpp:264-292 | a sealed message is received as sent if and only if it is not empty |
| ClientProgram.DecryptsExactly | client/src/client.cpp:255-293 | a packet is received as a text if and only if the text is not empty and the packet is a nonce of 24 bytes and the text sealed under it |
| ClientProgram.GreetFrames | client/src/client.cpp:58-79 | the outcome of the handshake for any two packets of any size, unchecked sizes included |
| ClientProgram.Client.ExchangeKeys | client/src/client.cpp:53-79 | our key goes out, then two packets are read by position; the outcome is Greet on the stream, failures and unchecked sizes included |
| ClientProgram.Client.SendUsername | client/src/client.cpp:85-100 | only a name of 1 to 24 bytes is sent, sealed; the client runs exactly if that succeeded |
| ClientProgram.Client.SendEncrypted | client/src/client.cpp:229-253 | exactly one packet is sent and it opens to the text; nothing is sent on a closed session |
| ClientProgram.Client.RecvDecrypted | client/src/client.cpp:255-293 | the next packet, opened, or nothing; no length subtraction wraps and the plaintext has exactly the size of its buffer |
| ClientProgram.Client.OtherThreads | client/src/client.cpp:165-182 | the interference of the other threads: they may print the queue and execute any part of Stop, in its order; it happens before and after a receive and a send, after the tests of m_stopping, around the queueing of a message and between the statements of Stop |
| ClientProgram.Client.ReceiveOne | client/src/client.cpp:335-358 | with the other threads at work, one message is taken, and shown unless the screen was stopped, and the rest is still to be heard; or the reason that Listen gives is noted, which for any packet that cannot be read is that the server closed |
| ClientProgram.Client.HandleBroadcast | client/src/client.cpp:333-361 | with the other threads at work, what is shown is always a beginning, in order, of what there is to hear, and any reason noted is the one that Listen gives; left alone, all of it is shown and the client stopped |
| ClientProgram.Client.ClientLoop | client/src/client.cpp:295-320 | with the other threads at work, the packets open, one to one and in order, to the name, a colon, a space and a line, for the first ones of the non-empty lines before the first end of input or exit command, leaving none of them out; left alone, for all of these lines, and the client is stopped |
| ClientProgram.Client.Stop | client/src/client.cpp:165-182 | past the test of m_stopping, both flags are false and the session has no socket in the end, whatever the other threads do between the statements; with m_stopping set, nothing happens |
| Greeting.KeyAgreement | client/src/client.cpp:53-79 | for every connection, open or over, and every part of its wire, ending in an error or cleanly: with both packets the client gets the server's group key; on an error it fails; on a clean end it reads outside its buffer if and only if a length field is cut, and gets through if and only if the cut key packet, filled up with zeros, opens |
| Greeting.CutKeyExactly | client/src/client.cpp:62-79 | a cut key packet whose nonce is whole gives the server's key if and only if all missing bytes are zero |
| Greeting.CutHeaderIsUndefined | client/src/client.cpp:58-60 | one zero byte and a clean end of file make the client read outside its buffer |
| EndToEnd.SeenIsLog | client/src/client.cpp:333-358 | for a client in step with a log of conforming entries: printed, queued, just decrypted and in flight together are that log from the client's arrival on |
| EndToEnd.SessionsSeeTheLog | server/src/server.cpp:385-398 | after any run of conforming clients, in every state of every interleaving of the server with one client's threads: what that client has printed, queued, decrypted and in flight is the server's log from its arrival on |
| EndToEnd.SessionsReceive | client/src/client.cpp:337-355 | and there, whenever something is unread, it is received as a message other than the control message |
| EndToEnd.SessionsShowWhatIsReceived | server/src/server.cpp:392-398 | along every such interleaving a client's view only grows, by the meaning of a piece of log whose forwarded packets are exactly those received meanwhile from clients in the chat, each once and in order |
| EndToEnd.SessionsCanCatchUp | client/src/client.cpp:322-361 | and in every state of it the client's own threads can go on until exactly that log is printed and nothing is left anywhere |
| EndToEnd.ListenToFrames | client/src/client.cpp:333-358 | of any packets that decrypt, none to the control message, the receiving thread shows every one, in order, and then goes on |
| EndToEnd.ListenerShowsLog | client/src/client.cpp:333-358 | in every run of conforming clients, what the receiving thread of any client that got into the chat, present or gone, makes of its whole wire is exactly its slice of the log; only a clean end of file within a frame can add one made-up message |
| EndToEnd.ListenersGoOnExactly | server/src/server.cpp:392-398 | every receiving thread goes on past a forwarded packet if and only if it decrypts to something other than the control message; otherwise it ends there, for the reason that follows |
| EndToEnd.CutHeaderEndsEverybody | client/src/client.cpp:337-347 | a clean end of file in the header of one client's frame ends the receiving thread of every other client |
| EndToEnd.NameTakenExactly | client/src/client.cpp:349-355 | in every run of conforming clients, a client that reads its whole wire, whatever happened to its link, ends because its name is taken if and only if the server refused it that name and the control message went out whole, or a clean end of file within a frame made that message up |
| EndToEnd.SayingsConform | client/src/client.cpp:300-316 | every packet that the input thread sends is one of a conforming registered client |
| EndToEnd.ClientStreamConforms | client/src/client.cpp:53-100 | the whole stream of a client is read back by the server as its key, its name and conforming packets, up to the point at which the link failed |
| Shutdown.StepKeepsInv | client/src/client.cpp:165-182 | every statement of every thread keeps the invariant |
| Shutdown.ShutdownIsClean | client/src/client.cpp:121-148 | in every interleaving: finished implies stopping; stopping implies settled or a thread inside Stop; all finished implies flags false and socket closed |
| Shutdown.ClosedOnceExactly | common/src/network_session.cpp:68-76 | when all threads have finished, close was called as often as threads held the socket at the same time, hence once if and only if no two ever did, and for that it is enough that no two were past the test in Stop together; the descriptor itself was closed once if and only if no two had ever closed it before either forgot it |
| Shutdown.ClosedTwice | client/src/client.cpp:167-179 | a complete run in which the same descriptor is closed twice |
| Shutdown.LoopGoesOnExactly | client/src/client.cpp:295-361 | each thread goes round its loop if and only if its blocking call gave no reason to end and running is true |
| Shutdown.ReasonIsFinal | client/src/client.cpp:337-360 | in every run, after a reason to end a thread never gets back into its loop, has finished after at most 20 statements of its own, and then stopping has begun |
| Shutdown.NobodyStopsWithoutReason | client/src/client.cpp:295-361 | in every run, before any thread met a reason to end all are in their loops and nothing is cleared |
| Shutdown.ReasonEndsEverybody | client/src/client.cpp:121-148 | in every run, one reason in one thread ends all three, flags cleared and socket closed, given that each gets to go on |
| Shutdown.RefusalIsNoted | client/src/client.cpp:349-355 | in every run, the control message is noted as the reason, for good |
| Shutdown.EndIsNotedExactly | client/src/client.cpp:339-347 | in every run, a receive without a message is noted as the server's doing, for good, if and only if nobody has begun to stop when the receiver looks |
| Shutdown.ServerGoesAway | client/src/client.cpp:337-360 | a complete run in which the server goes away, the client says so and ends |
| Shutdown.ShutdownTerminates | client/src/client.cpp:295-361 | once running is false, no interleaving goes on for more than 66 statements, given that the blocking calls return |
| Shutdown.OnlyFinishedIsFinal | client/src/client.cpp:144-148 | the threads come to rest exactly when all have finished |
| LineEditor.HandleKey | client/src/ncursesUI.cpp:196-235 | one key changes text and cursor as it changes the two stacks |
| LineEditor.KeyActsAt | client/src/ncursesUI.cpp:196-235 | what each key, by its number, does to the text and to the position of the cursor |
| LineEditor.LandsAfterLefts | client/src/ncursesUI.cpp:207-210 | a character typed after n times Left stands n characters before the end, or first |
| LineEditor.LandsAfterHome | client/src/ncursesUI.cpp:211-224 | after Home and n times Right it stands n characters behind the start, or last |
| LineEditor.LandsAfterEnd | client/src/ncursesUI.cpp:225-227 | after End it is the last one |
| LineEditor.DeletesAfterLefts | client/src/ncursesUI.cpp:198-221 | after n times Left, Delete takes out the n-th last character and Backspace the one before it |
| LineEditor.PromptInput | client/src/ncursesUI.cpp:174-240 | the line returned is that of the two stacks after all keys up to Enter, and the cursor was drawn behind the left one; it was ended by Enter if and only if Enter is among the polls |
| LineEditor.UnfinishedLooksEntered | client/src/ncursesUI.cpp:185-239 | a line that the end of the screen cut off is returned exactly as if Enter had followed |
| LineEditor.RedrawInputLine | client/src/ncursesUI.cpp:146-172 | the column is 1, the prompt's length and the display width of the text left of the cursor |
| LineEditor.WidthAddsUp | client/src/ncursesUI.cpp:161-168 | the width of a text is the sum of the widths of its parts |
| LineEditor.WidthOfOne | client/src/ncursesUI.cpp:163-167 | one character is as wide as the terminal says, and takes nothing if that is negative |
| LineEditor.TypingYieldsTextExactly | client/src/ncursesUI.cpp:187-235 | typing a printable text and Enter returns that text if and only if none of its characters has the number of an editing key |
| LineEditor.LetterActsAsBackspace | client/src/ncursesUI.cpp:198-205 | typing a, U+0107 and Enter returns the empty line |
| MessageQueue.Screen.PushMessage | client/src/ncursesUI.cpp:107-114 | a message is queued last while the screen runs, dropped otherwise |
| MessageQueue.Screen.PrintBufferedMessages | client/src/ncursesUI.cpp:116-143 | everything queued is printed in order and the queue is empty, while the screen runs |

## Left out

- The mutex of the server: on the path of a taken name it is held at server/src/server.cpp:370 and locked again at server/src/server.cpp:236; the model performs the intended step, without the mutex.
- Sockets, epoll, accept errors, failing system calls other than send, recv and epoll registration, and signals: they are parameters (what RecvPacket returned, which connections are pending) or arbitrary choices.
- Links that fail and recover: a failed send is permanent.
- EndToEnd.SessionsSeeTheLog: speaks of the time while the client's link works and its screen runs; a screen that stops drops messages.
- EndToEnd.ClientStreamConforms: assumes that every line typed, with the longest name and sealed, is shorter than 2^32 bytes, the bound of the length field.
- ClientProgram.Client.OtherThreads: neither sends nor receives, as each of these is done by one thread only, and does not interfere within a receive, a send, PushMessage or CloseSession.
- ServerProgram.Server: uses the abstract link that NetworkSession.SendPacket is proved equal to, not session objects; aliasing of session pointers is not modelled.
- ServerProgram.Server.HandleClientEvent: takes what RecvPacket returned as a parameter, so a read that blocks the event loop is not modelled.
- Secrecy, random numbers, key generation and failures of encryption for messages beyond the library's size limit.
- Failing epoll_wait, which stops the server, and the listening socket's setup and teardown.
- The client's start up to the handshake, its exit codes, and the destructor.
- UTF-8 conversion (invalid text would end the screen's thread), windows, colours, flushing, logging and argument parsing.
