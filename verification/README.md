# TFTP read transfers, modelled and proved in Dafny

This project models the read-transfer (RRQ) path of the TFTP server and the
legacy client it talks to, and proves what they promise together: section 6 of
RFC 1350 for the transfer, section 5 for the packets.

Four pieces are modelled.

- **The protocol.** The sender is the event-driven transfer state machine; the
  receiver is the download loop of `legacy/TFTP_Client.c`. Between them is a
  network that may lose, duplicate, delay and reorder: two growing sets of
  everything ever sent, from which a delivery picks any member. Other endpoints
  may send the server anything at any time.
- **Ownership.** The transfer, file and two-slot transport pools and the reactor
  table point into each other; starting, stopping, serving and releasing must
  keep them consistent on every early return.
- **The packet codec** and the request scanner.
- **The reactor table**: removal in place, and the dispatch loop.

## Layout

Each source module has a file. It holds the module's state as values, a function
on values for each operation, and classes whose methods update fields, arrays and
pool slots step by step and are proved to compute those functions. A pointer into
a pool is an object whose `slot` is its index; the value of a pointer is that index.
The table below has no rows for the straight-line methods of a single socket, file or
transfer object; each is proved equal to the function on values the theorems use.

| file | holds |
|---|---|
| `Wire.dfy` | bytes, statuses, endpoints, the outcomes the system can report |
| `Packet.dfy`, `PacketLaws.dfy` | codec and request scanner; inverses and grammar |
| `Reactor.dfy`, `ReactorLaws.dfy` | table and dispatch; removal and pairing laws |
| `UdpTransport.dfy`, `TftpFile.dfy` | sockets and files, and their pools |
| `Transfer.dfy` | transfer state machine, setup, cleanup, handler; objects over the pools |
| `Server.dfy` | start, stop, request handling; the server object |
| `Ownership.dfy`, `Requests.dfy`, `Runs.dfy` | the ownership invariant, request atomicity and the answer to every request, every run |
| `Listening.dfy` | exactly when a start succeeds, what a stop keeps, how the sockets of a run are configured |
| `App.dfy` | the boot of the program, which ends in an initial state |
| `EventLoop.dfy`, `Pairing.dfy` | one reactor pass over the real handlers; exactly when it calls what it owes |
| `SenderStream.dfy`, `Sessions.dfy` | the sender against an arbitrary peer; every accepted transfer inside a run of the program |
| `LegacyClient.dfy`, `LegacyLaws.dfy` | download and upload loops, encoders |
| `SenderEquivalence.dfy`, `LockStep.dfy` | the two senders compared, the loss-free exchange |
| `Protocol.dfy`, `Completion.dfy` | the whole system: safety of every run, and which downloads can complete |

Check everything with `dafny verify dfyconfig.toml`.

## Modelling decisions

- What the operating system reports is a parameter of each step: `SocketIo`,
  `SendIo`, `RecvIo`, `ReadIo`, `PollIo`, and a `disk` that maps the paths that can
  be opened to their contents. Whether a close succeeds is left open where it
  cannot matter. A descriptor `socket` hands out is assumed not to be that of a
  socket still open. In the whole-system theorems the requested file has one
  content whenever it can be opened, and a datagram that carries the client's
  address is one the client sent.
- `TFTP_MAX_TRANSFERS` and `TFTP_MAX_FILENAME_LENGTH` are parameters: the size of
  the pools and `maxFilename`.
- Plain `char` is signed on some platforms, which decides how
  `legacy/TFTP_Client.c:83` decodes a block number. Every client function takes
  `signed`, and every result covers both.
- The client reads the opcode and block of a datagram without checking its length
  (`legacy/TFTP_Client.c:75-83`), so it reads a short one together with what its buffer
  held before. The download loop is modelled on that buffer, whose first contents are
  whatever the stack held. If a short datagram matches that way, the count to write is
  negative (`legacy/TFTP_Client.c:86`) and the loop's behaviour is undefined; that outcome
  is the status `Overrun`. In the whole system it cannot arise
  (`Protocol.ClientDatagramsHaveHeaders`, `LegacyClient.HeadersHideTheBuffer`).
- Handlers are called with the table entry the loop finds at its index, and beyond
  the entries polled `revents` is arbitrary, as the code re-reads
  `registration_count` on every turn.

## Where the code and its documentation differ

The code is followed. Line numbers are those of the repository's own README.md.

- Line 616 has a duplicate ACK ignored. Any ACK but that of the outstanding
  block releases the transfer (`src/tftp/transfer/tftp_transfer.c:411-420, 489-501`);
  `PeerDatagramStep` says exactly which datagrams keep it alive.
- Lines 610 and 615 and the state diagrams have lost packets retransmitted and
  duplicate DATA acknowledged again. No code does either, so progress is claimed on a
  loss-free channel only.
- Every transfer "must eventually" end (line 1608): it does after at most
  len / 512 + 1 datagrams from its peer, a bound that is reached
  (`CooperativePeersReleaseAtTheBound`), but a silent peer keeps it for ever
  (`SilentPeerKeepsTheTransfer`), and with it the server closed to every other request
  (`SilentPeerClosesTheServer`).
- An error event or failed receive marks a transfer failed without releasing it
  (`src/tftp/transfer/tftp_transfer.c:451-474`); it keeps its slots until the next
  datagram from its peer.
- A reactor pass should call every ready handler for its own events. The loop re-reads
  the table while handlers change it (`src/tftp/reactor/reactor.c:246-264`), so a transfer
  that ends can make it skip the server, and a request accepted can make it call the new
  transfer with whatever the unused part of the poll array held.
  `PassIsPairedExactlyWhen` says exactly when; both situations are reached.
- The server's `max_transfers` is stored and never consulted
  (`src/tftp/server/tftp_server.c:154-160`, `TransferLimitLimitsNothing`); what limits
  transfers is the pool of two sockets.

## Model

| member | source | states |
|---|---|---|
| `Protocol.OutputIsAlwaysAPrefix` | legacy/TFTP_Client.c:56-101 | at every point of every run of the server program, the downloading client and a network that loses, duplicates, delays and reorders, with arbitrary other endpoints and I/O failures, the client's output is a prefix of the file, and the whole file once its loop ended on a short block; for every file length, 16-bit block wrap included |
| `Protocol.CompletionAgrees` | src/tftp/transfer/tftp_transfer.c:425-429 | whenever the client's transfer reaches COMPLETE, in any run, the client has already written exactly the whole file |
| `Protocol.ErrorEndsTheClient` | legacy/TFTP_Client.c:70-81 | in every run of the whole system, a receiving client that gets an ERROR packet, or whose receive fails, leaves its loop with its output unchanged, and writes and acknowledges nothing for the rest of the run |
| `Completion.CompletesExactlyBelowTheBound` | legacy/TFTP_Client.c:65-94 | from any initial state of a server that would serve the request, over a network that may do anything, some run completes the download if and only if the file is shorter than 65535 * 512 bytes (127 * 512 where plain `char` is signed) |
| `Completion.ExchangeIsARun` | src/tftp/transfer/tftp_transfer.c:411-431 | below that bound, the start, the request and the loss-free exchange, 2 * (len / 512 + 1) deliveries, are a run of the whole system that ends with the transfer COMPLETE |
| `Protocol.InvAtEveryPoint` | src/tftp/transfer/tftp_transfer.c:81-135 | the invariant behind both: every datagram sent to the client is "File not found" or a block at most one ahead of the client, every acknowledgement on the network is of a block the client has, and every live transfer to the client is at block n with n at most one ahead |
| `Protocol.ClientStep` | legacy/TFTP_Client.c:68-98 | any datagram the server can have sent brings the client exactly the next block, appended and acknowledged once, or nothing written and nothing acknowledged; a block it already has changes nothing at all |
| `Protocol.BlockStep` | legacy/TFTP_Client.c:83-94 | what a receiving client does with any block of the file at most one ahead of it: it takes the expected block if its number is decodable, and ignores every other |
| `Protocol.AckIsHonest` | src/tftp/transfer/tftp_transfer.c:408-420 | an ACK that the sender would match at logical block n, under its 16-bit counter, was sent by a client that has n blocks |
| `Protocol.OwnTransferStep` | src/tftp/transfer/tftp_transfer.c:434-502 | a handler run on the client's transfer sends it only admissible datagrams, stays at most one block ahead, and completes only when the client has the file |
| `Protocol.ClientDatagramsHaveHeaders` | legacy/TFTP_Client.c:75-83 | every datagram the server ever sends the client has the four header bytes the client reads without checking |
| `Protocol.ServeKeepsTransfers` | src/tftp/server/tftp_server.c:298-375 | serving any endpoint's request leaves every transfer in use and its file unchanged, starts the client's own at block 1 of its file, and sends the client only admissible datagrams |
| `Protocol.ServeSparesOthers` | src/tftp/server/tftp_server.c:344-375 | only the transfer a request started differs afterwards; a refused request changes no transfer and no file of one |
| `Protocol.HandlerSparesOthers` | src/tftp/transfer/tftp_transfer.c:434-502 | a handler run on one transfer leaves every other transfer and its file unchanged |
| `LockStep.FinishesBelowTheBound` | src/tftp/transfer/tftp_transfer.c:98-113 | on a loss-free in-order channel both sides finish if and only if the file is shorter than 65535 * 512 bytes (127 * 512 where plain `char` is signed) |
| `LockStep.BelowTheBoundItCompletes` | legacy/TFTP_Client.c:83-94 | then the client has the file, and exactly len / 512 + 1 DATA and as many ACK datagrams were sent |
| `LockStep.AboveTheBoundItStalls` | src/tftp/transfer/tftp_transfer.c:411-431 | at or above the bound both sides wait for ever, nothing in flight, the client holding the first 65535 (127) blocks |
| `LockStep.ExchangeIsPredicted` | legacy/TFTP_Client.c:68-98 | the state after any number of deliveries, in closed form |
| `LockStep.AtMostOneInFlight` | legacy/TFTP_Client.c:68-98 | never more than one datagram is in flight, so the channel has no choice to make |
| `LockStep.ClientTakesBlock` | legacy/TFTP_Client.c:83-94 | expecting block n, the client appends block n, acknowledges it, and ends exactly on the last one |
| `LockStep.SenderTurn` | src/tftp/transfer/tftp_transfer.c:425-431 | the ACK of block n brings block n + 1, or completion when n is the last block |
| `LockStep.AcceptedRequestOpens` | src/tftp/server/tftp_server.c:361-370 | a request the server accepts yields exactly the opening state of such an exchange |
| `SenderStream.SendsTheFileInOrder` | src/tftp/transfer/tftp_transfer.c:81-135 | whatever arrives and whatever fails, the DATA datagrams sent are blocks 1, 2, 3, ... of the file, each once; while waiting at block n, the file position is min(512 n, len), `block` is n mod 65536, the packet buffer holds block n, and the final flag says whether n is the last |
| `SenderStream.SendsPrefixes` | src/tftp/transfer/tftp_transfer.c:81-135 | the payloads sent concatenate to the file's first min(512 n, len) bytes, and at completion to the file |
| `SenderStream.PeerDatagramStep` | src/tftp/transfer/tftp_transfer.c:401-431 | exactly what a peer datagram does: it advances to block n + 1 if and only if it is the ACK of n, n is not last and the I/O succeeds; completes if and only if it is the ACK of the last block; anything else releases the transfer as failed |
| `SenderStream.PacketRefusals` | src/tftp/transfer/tftp_transfer.c:384-420 | why a datagram is refused while an ACK is awaited: it does not parse, it is no ACK, or it acknowledges another block |
| `SenderStream.DuplicateAckIsFatal` | src/tftp/transfer/tftp_transfer.c:411-420 | a repeated ACK of the block before is not ignored but releases the transfer (the repository's README.md:616 says it is ignored) |
| `SenderStream.OneDataForEachAck` | src/tftp/transfer/tftp_transfer.c:401-431 | no duplicated DATA: while a block is outstanding one more DATA was sent than ACKs were accepted, at completion as many |
| `SenderStream.AckStep` | src/tftp/transfer/tftp_transfer.c:411-431 | while waiting, a handler run sends DATA only if it accepted the ACK of the outstanding block |
| `SenderStream.PeerDatagramsReleaseTheTransfer` | src/tftp/transfer/tftp_transfer.c:476-501 | with block n outstanding, any LastBlock - n + 1 datagrams from the peer, whatever they are, release the transfer |
| `SenderStream.CooperativePeersReleaseAtTheBound` | src/tftp/transfer/tftp_transfer.c:411-431 | that bound is sharp: a peer that acknowledges in order, with nothing failing, has the transfer released exactly when LastBlock - n + 1 datagrams have come from it, and before that it is at block n plus their number |
| `SenderEquivalence.ReleaseBoundIsReached` | src/tftp/transfer/tftp_transfer.c:411-431 | for every k up to LastBlock - n there are k datagrams from the peer that leave the transfer active at block n + k |
| `SenderStream.CompletesExactlyWhen` | src/tftp/transfer/tftp_transfer.c:401-431 | with block n outstanding, a list of notices completes the transfer if and only if it begins with the ACKs of the blocks n, n + 1, ..., LastBlock in order, every next block can be read and sent, and nothing that arrives in between reports a failure |
| `SenderStream.SilentPeerKeepsTheTransfer` | src/tftp/transfer/tftp_transfer.c:445-487 | without a datagram from its peer a transfer is never released and sends nothing, whatever else arrives |
| `SenderStream.ReleasedExactlyWhen` | src/tftp/transfer/tftp_transfer.c:451-501 | one handler run releases the transfer if and only if a datagram from the peer arrives and the transfer had failed, or it is not the expected ACK, or the block was the last, or the next one cannot be read or sent |
| `SenderStream.ForeignDatagramsDoNothing` | src/tftp/transfer/tftp_transfer.c:476-481 | the state and everything sent after any list of notices equal those after the same list without the datagrams of other endpoints |
| `SenderStream.FailedStep` | src/tftp/transfer/tftp_transfer.c:470-474 | a failed transfer stays as it is, sending nothing, until a datagram from its peer releases it |
| `SenderStream.StopsForGood` | src/tftp/transfer/tftp_transfer.c:496-501 | a failed or released transfer sends nothing more and never completes |
| `SenderStream.SendNextDataSendsChunk` | src/tftp/transfer/tftp_transfer.c:81-135 | sending from block n - 1 reads, numbers, encodes and sends exactly block n, or reports the failure and sends nothing |
| `SenderStream.OnlyTheLastBlockIsShort` | src/tftp/packet/tftp_packet.c:303-306 | a block is final exactly when it is block len / 512 + 1, the empty closing block included |
| `Runs.HandlerRunsItsSession` | src/tftp/transfer/tftp_transfer.c:434-502 | inside the program the handler does to a transfer and its slots exactly what it does to the transfer on its own |
| `Sessions.NoticesDriveTheTransfer` | src/tftp/transfer/tftp_transfer.c:434-502 | over any stretch of a run in which a transfer is in use, whatever else happens, its notices drive it exactly as they drive a transfer on its own: same datagrams, same state, released at the same point |
| `Sessions.OtherEventsSpareIt` | src/tftp/server/tftp_server.c:171-375 | starts, stops, requests and other transfers' notices leave a transfer in use, its file and its socket unchanged |
| `Sessions.AcceptedTransfersStreamTheirFile` | src/tftp/server/tftp_server.c:361-370 | every transfer the server ever accepts, in every run: it sends the endpoint that asked the requested file's blocks in order, each once; while in use it has received fewer than LastBlock datagrams from it; foreign datagrams make no difference; and completing means having sent the file |
| `Sessions.SilentPeerClosesTheServer` | src/tftp/server/tftp_server.c:298-375 | in every run, from any point at which a transfer is in use and for as long as its peer sends nothing, whoever else sends what and even across a stop and a start, the transfer stays in use, sends nothing, and no request is accepted |
| `SenderEquivalence.SendersAgree` | legacy/TFTP_Client.c:125-149 | the blocking upload loop and the event-driven sender send the same DATA datagrams for every list of acknowledgements if and only if the file has at most 65536 blocks (128 where `char` is signed) |
| `SenderEquivalence.SendersAgreeFrom` | legacy/TFTP_Client.c:125-149 | below that size, their agreement from any block on |
| `Runs.ReachableStatesAreOwned` | src/tftp/transfer/tftp_transfer.c:217-366 | in every state reached by starts, stops, requests and handler runs: every used socket slot has exactly one owner, every used file slot exactly one transfer, and the reactor table has exactly one entry for each owner, with its descriptor, all distinct |
| `App.Boot` | src/tftp/app/tftp_app.c:45-112 | the program comes up in a state runs start from, the reactor empty with room for 16 handlers, or reports INVALID_ARGUMENT for port 0 |
| `Runs.SingleActiveTransfer` | src/tftp/transport/udp_transport.c:33-65 | in every such state at most one transfer is active |
| `Runs.StepKeepsOwned` | src/tftp/server/tftp_server.c:171-295 | each single step keeps that invariant |
| `EventLoop.PassIsARun` | src/tftp/reactor/reactor.c:246-264 | one reactor pass, whatever the stale part of the poll array holds and whatever the handlers do to the table, is a run of these steps |
| `EventLoop.PassKeepsOwned` | src/tftp/reactor/reactor.c:246-264 | so a pass keeps the ownership invariant and the single active transfer |
| `EventLoop.RunHandlers` | src/tftp/reactor/reactor.c:246-264 | the loop over the server and transfer objects reaches exactly the state of that pass |
| `EventLoop.CallHandler` | src/tftp/reactor/reactor.c:258-261 | calling a registered handler on the objects is exactly one step |
| `Requests.FailedRequestsLeaveNoTrace` | src/tftp/server/tftp_server.c:344-375 | when serving a request fails at any of its points, the server, the reactor table, the files, the transfers and every used socket slot are what they were; at most one unused socket slot has been cleared |
| `Requests.FailedStartsLeaveNoTrace` | src/tftp/server/tftp_server.c:245-257 | the same for a failed start |
| `Requests.ReleaseReturnsTheLease` | src/tftp/transfer/tftp_transfer.c:513-541 | cleanup gives back everything a transfer had acquired, at whatever step its setup stopped |
| `Requests.ProcessLeases` | src/tftp/transfer/tftp_transfer.c:217-366 | at every exit of the setup, the state differs from the original only in what this transfer acquired; on success it is fully established |
| `Requests.RunningServerAccepts` | src/tftp/server/tftp_server.c:298-375 | a running server accepts a request if and only if it has no transfer, the datagram is a well-formed read request for a valid name that can be opened, and no system call fails |
| `Requests.ServeAnswers` | src/tftp/server/tftp_server.c:298-375 | in every owned state the status reported and the datagrams sent for any request are those of one flat list of conditions on the request's bytes, the pools and the system's reports |
| `Requests.ServerReadyAnswers` | src/tftp/server/tftp_server.c:28-93 | the handler answers only for the running server's own socket, readable and without error, and then the datagram cut to 1500 bytes; otherwise it does nothing |
| `Requests.NamesStayUnderTheRoot` | src/tftp/transfer/tftp_transfer.c:50-64 | a read request is refused for its name if and only if that is empty, ".", "..", too long, or contains byte 47 or 92; an accepted one streams the file of that name directly under "tftp_root/" |
| `Requests.MissingFilesAreReported` | src/tftp/transfer/tftp_transfer.c:277-341 | a refusal sends ERROR 1 "File not found", byte for byte, exactly when a running server without transfers is asked for a valid name that cannot be opened and socket and send succeed; every other refusal sends nothing |
| `Requests.BusyServerRefuses` | src/tftp/transport/udp_transport.c:33-65 | while a transfer exists no request is accepted, because the two socket slots are taken |
| `Requests.ServeSends` | src/tftp/transfer/tftp_transfer.c:273-341 | the answer is the one of `ServeAnswers`; an accepted request is answered with block 1 of the file "tftp_root/" plus the requested name, and its transfer waits there |
| `Requests.AcceptedRequest` | src/tftp/server/tftp_server.c:317-370 | an accepted request was a read request to a running server and established the first free transfer on the fresh socket |
| `Requests.NamesAreNotTruncated` | src/tftp/transfer/tftp_transfer.c:234-238 | `snprintf` never truncates the name or the path of an accepted request |
| `Ownership.StartKeepsOwned` | src/tftp/server/tftp_server.c:171-257 | starting the server keeps the ownership invariant, and succeeds exactly when the server then runs |
| `Listening.StartSucceedsExactlyWhen` | src/tftp/server/tftp_server.c:171-257 | a start succeeds if and only if the server is initialised and not running, a socket slot is free, `socket`, `fcntl` and `bind` succeed and the table has room, and otherwise reports the first of these that is missing; then the first free slot holds a non-blocking socket bound to the server's port, with one new entry for input and errors |
| `Listening.StopUndoesStart` | src/tftp/server/tftp_server.c:259-295 | stopping a server just started restores the whole state but for a cleared slot |
| `Listening.StopKeepsTheRest` | src/tftp/server/tftp_server.c:259-295 | a stop gives back the server's socket and its entry and no other, leaves files, transfers and their sockets alone, and keeps the port for the next start |
| `Listening.SocketsStayConfigured` | src/tftp/transport/udp_transport.c:67-196 | in every state of every run a running server's socket is open, non-blocking and bound to the configured port, every transfer's is open, non-blocking and bound to none in particular, and no event changes the configuration |
| `Listening.SocketsArePolledForInput` | src/tftp/reactor/reactor.c:35-56 | in every owned state every entry of the poll set asks for POLLIN and POLLERR and for nothing else, on an open socket |
| `Ownership.StopKeepsOwned` | src/tftp/server/tftp_server.c:259-295 | stopping the server keeps it, always reports OK, and leaves the server not running |
| `Ownership.TransferReadyKeepsOwned` | src/tftp/transfer/tftp_transfer.c:434-502 | every run of a transfer's handler keeps it |
| `Ownership.ReleaseKeepsOwned` | src/tftp/transfer/tftp_transfer.c:513-541 | releasing a transfer keeps the invariant, clears its socket slot and its file slot and no other, zeroes it, and leaves exactly the table entries of the other owners |
| `Ownership.ReleaseForgets` | src/tftp/transfer/tftp_transfer.c:539 | what a transfer wrote into its own fields does not outlive its release |
| `PacketLaws.DataBijection` | src/tftp/packet/tftp_packet.c:80-91 | a datagram parses as DATA with a block and payload if and only if it is what the DATA builder writes for them |
| `PacketLaws.AckBijection` | src/tftp/packet/tftp_packet.c:93-101 | the same for ACK |
| `PacketLaws.ErrorBijection` | src/tftp/packet/tftp_packet.c:103-114 | the same for ERROR and its message |
| `PacketLaws.ParseIsExact` | src/tftp/packet/tftp_packet.c:45-121 | for every byte string and packet: which of the five formats of RFC 1350 section 5, byte by byte, parse as what |
| `PacketLaws.ParseRefusals` | src/tftp/packet/tftp_packet.c:45-121 | a datagram is refused for its opcode exactly when its first two bytes are none of the five, and otherwise for its form |
| `PacketLaws.RequestParserIsExact` | src/tftp/packet/tftp_packet.c:123-210 | the request parser accepts with an opcode and a name if and only if the datagram is opcode 1 or 2, a NUL-free name of 1 to 255 bytes, NUL, "octet" in any case, NUL and nothing more |
| `PacketLaws.GrammarIsAccepted` | src/tftp/packet/tftp_packet.c:154-209 | every datagram of that grammar is accepted with exactly its opcode and name |
| `PacketLaws.AcceptedIsGrammar` | src/tftp/packet/tftp_packet.c:154-209 | every accepted datagram has that form |
| `PacketLaws.RequestRefusals` | src/tftp/packet/tftp_packet.c:123-210 | which refused request has which status: a protocol error exactly when both words are there but more follows or the mode is not octet, INVALID_OPCODE exactly for unknown opcodes and well-formed other packets |
| `PacketLaws.OctetIsCaseBlind` | src/tftp/packet/tftp_packet.c:17-43 | the modes accepted are the 32 spellings of "octet" |
| `LegacyLaws.RequestRoundTrip` | legacy/TFTP_Client.c:26-39 | parsing the request the client encodes gives back its opcode and name |
| `LegacyLaws.DecodingIsExact` | legacy/TFTP_Client.c:83 | a block number read through plain `char` is right if and only if `char` is unsigned or both its bytes are below 128 |
| `LegacyLaws.DecodesUpToTheMax` | legacy/TFTP_Client.c:83 | every number up to 65535 (127 where `char` is signed) is decoded correctly |
| `LegacyLaws.DecodingNeverConfuses` | legacy/TFTP_Client.c:83 | a wrongly decoded number is negative, so it never passes for another block |
| `LegacyLaws.AckDatagramIsAck` | legacy/TFTP_Client.c:47-54 | the client's ACK is the codec's ACK of the number modulo 65536 |
| `Packet.ScanRequest` | src/tftp/packet/tftp_packet.c:123-210 | the scanner over the receive buffer computes the request parse, each error status included |
| `Packet.ScanToNul` | src/tftp/packet/tftp_packet.c:154-163 | the scan stops at the first NUL or at the length, and counts what it passed |
| `Packet.IsOctetMode` | src/tftp/packet/tftp_packet.c:17-43 | the loop decides exactly "octet" in any mixture of cases |
| `Packet.BuildData` | src/tftp/packet/tftp_packet.c:235-269 | writes exactly the DATA encoding and leaves the rest of the buffer; the too-long and too-small cases change nothing |
| `Packet.BuildAck` | src/tftp/packet/tftp_packet.c:212-233 | writes exactly the ACK encoding, or changes nothing |
| `Packet.BuildError` | src/tftp/packet/tftp_packet.c:271-301 | writes exactly the ERROR encoding with its NUL, or changes nothing |
| `ReactorLaws.DispatchIsPaired` | src/tftp/reactor/reactor.c:246-264 | up to and including the first handler that changes the table, every call is the one owed to the table polled: own descriptor, own context, own translated events, in table order; if none changes it, exactly the owed calls are made |
| `ReactorLaws.RemovalSkipsTheNextEntry` | src/tftp/reactor/reactor.c:246-264 | for every table: behind a handler that unregisters itself the entries are called for their predecessors' events, so the pass pairs if and only if no later entry had events |
| `ReactorLaws.AdditionMeetsUnpolledEvents` | src/tftp/reactor/reactor.c:246-264 | a handler that registers an entry makes the pass call it too exactly when the part of the poll array never written has one of the five bits there |
| `ReactorLaws.OwedCallsReport` | src/tftp/reactor/reactor.c:61-81 | a call is owed to exactly the entries with one of the five poll bits, and reports input as read, output as write, and error, hang-up or bad descriptor as error |
| `ReactorLaws.TableRefusals` | src/tftp/reactor/reactor.c:119-199 | the status of every registration and removal, and that a refused one changes nothing |
| `Pairing.PassIsPairedExactlyWhen` | src/tftp/reactor/reactor.c:246-264 | from every owned state with at most one transfer, a pass over the real handlers makes exactly the calls it owes if and only if neither of two things happens: the first entry is a transfer whose handler ends it while the second has events (which is then not called), or the server, alone in the table, accepts a request while the next place of the poll array holds events (for which the new transfer is then called) |
| `Pairing.SkipsAreReached` | src/tftp/reactor/reactor.c:179-195 | every initial state with room for a transfer reaches the first situation: start, accept, stop, start again, and a datagram that ends the transfer |
| `Pairing.NewcomersAreMet` | src/tftp/reactor/reactor.c:205-229 | every such state, once started, is one request away from the second: the poll array beyond the polled entries is never written |
| `Pairing.StaleErrorFailsTheNewcomer` | src/tftp/transfer/tftp_transfer.c:451-455 | in the second situation an error among those events marks the transfer just accepted as failed |
| `Pairing.ServerCallStep` | src/tftp/server/tftp_server.c:28-93 | a call of the server's handler appends exactly the new transfer's entry when the request is acceptable, and otherwise keeps the table |
| `Pairing.TransferCallStep` | src/tftp/transfer/tftp_transfer.c:434-502 | a call of a transfer's handler removes its own entry when it ends the transfer, and otherwise keeps the table |
| `ReactorLaws.UnregisterUndoesRegister` | src/tftp/reactor/reactor.c:119-198 | registering a fresh descriptor and unregistering it restores the table |
| `ReactorLaws.WithoutKeepsTheRest` | src/tftp/reactor/reactor.c:179-195 | with distinct descriptors, removal leaves exactly the other entries, still distinct |
| `Reactors.Reactor.Unregister` | src/tftp/reactor/reactor.c:163-198 | the in-place shift equals deleting the first entry with that descriptor, keeping the order of the rest |
| `Reactors.Reactor.Register` | src/tftp/reactor/reactor.c:119-161 | appends the entry, or reports why not and changes nothing; never beyond the bound |
| `Reactors.Reactor.Init` | src/tftp/reactor/reactor.c:84-116 | an empty table with a bound of at most 16 |
| `Reactors.Reactor.PollSet` | src/tftp/reactor/reactor.c:219-229 | the poll set lists, in order, each entry's descriptor, with POLLIN, POLLOUT and POLLERR asked for exactly when the entry wants read, write and error events |
| `Reactors.Reactor.CallHandlers` | src/tftp/reactor/reactor.c:246-264 | the dispatch loop, re-reading the count, equals the recursive dispatch for every behaviour of the handlers |
| `Reactors.Reactor.RunOnce` | src/tftp/reactor/reactor.c:201-267 | one pass: what is polled, what is called, the resulting table and status |
| `LegacyClient.HandleRrq` | legacy/TFTP_Client.c:56-101 | the download loop's output, status and acknowledgements for every list of received datagrams, of any length, and receive failures, and for every first content of its buffer |
| `LegacyClient.HeadersHideTheBuffer` | legacy/TFTP_Client.c:68-83 | while every datagram has its four header bytes, what the buffer held before makes no difference |
| `LegacyClient.DownloadEnds` | legacy/TFTP_Client.c:73-81 | once the loop has ended nothing more is written or acknowledged |
| `LegacyLaws.DatagramByBytes` | legacy/TFTP_Client.c:74-98 | exactly what any datagram with a header does to a receiving client: DATA (byte 1 is 3) with the expected number is appended and acknowledged, and ends the loop when shorter than 516 bytes; ERROR (5) ends it with nothing written; anything else does nothing |
| `LegacyLaws.ShortDatagramByBytes` | legacy/TFTP_Client.c:68-86 | the same for a datagram shorter than its header, read together with what lay behind it in the buffer; it is never written or acknowledged |
| `LegacyLaws.BufferKeepsItsTail` | legacy/TFTP_Client.c:68-73 | a datagram overwrites the buffer with its own first 516 bytes and leaves the rest |
| `LegacyLaws.ErrorEndsAnyDownload` | legacy/TFTP_Client.c:70-81 | wherever an ERROR packet or a failed receive comes in a download that is still going on, the result is what had been written and acknowledged by then, whatever follows |
| `LegacyClient.SendRequest` | legacy/TFTP_Client.c:26-39 | the buffer sent is opcode, name, NUL, "octet", NUL |
| `LegacyClient.UploadBlocks` | legacy/TFTP_Client.c:125-149 | the do-while loop's DATA datagrams for every list of replies |
| `LegacyClient.HandleWrq` | legacy/TFTP_Client.c:103-153 | the upload: the request, and the blocks only after ACK 0 |
| `LegacyClient.FillBlock` | legacy/TFTP_Client.c:127-132 | the shared buffer holds the header of the block number and the next chunk |
| `SenderEquivalence.UploadSendsExactly` | legacy/TFTP_Client.c:103-153 | the whole upload for every list of replies: the request, and then as many blocks in order as ACKs came in order from ACK 0 on, up to the last block; any other reply stops it |
| `Transports.TransportPool.Acquire` | src/tftp/transport/udp_transport.c:33-65 | takes and clears the first free of the two slots, or reports NO_RESOURCE |
| `Transports.TransportPool.Release` | src/tftp/transport/udp_transport.c:265-297 | the slot ends cleared and free whatever `close` reports |
| `Files.FilePool.Acquire` | src/tftp/file/tftp_file.c:19-46 | takes the first free file object, closed, or reports NO_RESOURCE |
| `Transports.SocketCallsSucceedWhen` | src/tftp/transport/udp_transport.c:67-262 | when each call on a socket object succeeds, and that a close or deinitialisation leaves it closed whatever the system reports |
| `Transports.SocketLifeCycle` | src/tftp/transport/udp_transport.c:67-262 | initialised, opened, bound and deinitialised, a socket object takes exactly what it was given and ends as a cleared one |
| `Files.ReadsAreConsecutive` | src/tftp/file/tftp_file.c:105-139 | two reads in a row give what one read of both sizes gives |
| `Transfers.Statics.AcquireTransfer` | src/tftp/transfer/tftp_transfer.c:137-159 | takes and zeroes the first free transfer, or reports NO_RESOURCE |
| `Transfers.Statics.TransferProcess` | src/tftp/transfer/tftp_transfer.c:217-366 | the whole setup over the three pools and the reactor, at each of its exits |
| `Transfers.Statics.Cleanup` | src/tftp/transfer/tftp_transfer.c:513-541 | whatever the closes report, entry, file, socket and object are given back, and nothing else changes |
| `Transfers.Statics.TransferUdpHandler` | src/tftp/transfer/tftp_transfer.c:434-502 | the handler with its release, over the pools |
| `Servers.TftpServer.Init` | src/tftp/server/tftp_server.c:133-169 | the initialised server, its transfer limit clamped to the pool size; or the refusal and no change |
| `Servers.TftpServer.Start` | src/tftp/server/tftp_server.c:171-257 | the started server, or everything undone after any failing step |
| `Servers.TftpServer.Stop` | src/tftp/server/tftp_server.c:259-295 | socket closed and freed, entry removed, not running |
| `Servers.TftpServer.ProcessEvent` | src/tftp/server/tftp_server.c:298-375 | the served request over all the objects, with the transfer released after any failure |
| `Servers.TftpServer.UdpHandler` | src/tftp/server/tftp_server.c:28-93 | the server's handler: ignored events, failed receives, and the datagram cut to 1500 bytes and served |

## Left out

- NULL arguments: the types are non-null, so the branches that answer them with INVALID_ARGUMENT do not exist.
- The timer, `retry_count`, and the ERROR and TIMEOUT events of `tftp_transfer_handle_event`: nothing raises them.
- The WRQ path of the new server, which is refused, and the states WRQ, WAIT_DATA and CLEANUP, which no path sets.
- `tftp_file_write` and write mode; the mode check of a read is always passed.
- A sticky `ferror`: a transfer whose read failed never reads again.
- The destination argument of a send: `sent` lists datagrams only, and `Protocol.SentTo` has a transfer send to its peer, as every call in the source does.
- A UDP send that reports a short count: it counts as failed, with nothing sent.
- `reactor_run`, `reactor_stop` and the acquire, release and deinit calls of the reactor and the server: plain lifecycle flags.
- The app beyond its initialisation, and the client and error modules: lifecycle plumbing, a stub and a string table.
- Printing, and a client whose own output file cannot be opened or written.
- Request names so long that the legacy client's `strcpy` would leave its 516-byte buffer: `SendRequest` excludes them.
- `legacy/TFTP_Server.c` and the other legacy programs: they duplicate the ones modelled or do not keep the stream property.
- The UDP echo programs, the keyboard matrix and the files under `tests/`: unrelated.
- `Reactors.Reactor.RunOnce`: a handler there is an arbitrary list of registrations and unregistrations; the real handlers are in `EventLoop.RunHandlers` and `Pairing`, which take up after a successful `poll`.
- `LockStep.FinishesBelowTheBound`: one exchange on one channel, with reads and sends that succeed; what failures and other traffic can do is the subject of the whole-system theorems, and `Completion.ExchangeIsARun` places the exchange among them.
