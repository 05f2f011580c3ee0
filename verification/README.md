# A model of the Sponge TCP/IP stack

Sponge is a user-space TCP/IP stack. This project models the protocol logic of `libsponge/` in Dafny and proves what
it keeps: the stream reassembler, the sender with its retransmission timer, the receiver, the connection, two
connections joined by an unreliable network, the ARP network interface, the router, and the wire formats.

Each component has two forms.

- A value: a datatype for its state and a function for each of its calls (`Reassembly`, `Sending`, `Receiving`,
  `Connections`, `Interfaces`, `Routing`, `SegmentFormat`, `DatagramFormat`). The lemmas are about these functions and
  about whole runs of them.
- An object: a class whose methods change fields in place, with the loops, iterators, erasures and early returns of the
  original (`StreamReassembler`, `TCPSender`, `TCPReceiver`, `TCPConnection`, `NetworkInterface`, `Router`,
  `ByteStream`, `InternetChecksum`, `NetParser`). Each method is proved to take the object's state to the value that
  the function gives. Large C++ functions are split into several methods, one for each loop or round of a loop.

## How to read the main results

| result | lemma |
|---|---|
| two endpoints, any loss, duplication and reordering: what is received is a prefix of what was written, and nothing given up for retransmission is missing | `NetworkProofs.EndToEnd` |
| the reassembler's output is a prefix of the stream for any order, overlap and repetition | `ReassemblyRuns.RunContent` |
| exactly which bytes each push in the window adds, and so exactly what every run of them holds and writes | `ReassemblyHeld.PushHolds`, `ReassemblyRuns.RunHolds`, `RunComplete` |
| waiting entries stay sorted and disjoint and never exceed the capacity | `ReassemblyRuns.RunInv` |
| a push that covers the awaited byte advances exactly if the output is open and less than the capacity is stored | `ReassemblyProofs.Progress` |
| over a network, while a sender has not given up after eight retries, time and the network alone can always advance a receiver that has been read empty and lacks a byte | `NetworkAdvance.CanAdvance`, `NetworkProgress.NeverStuck` |
| comparing wrapped numbers, the sender drops exactly the segments below the acknowledgement | `SendingProofs.AckReceivedExact` |
| a tick closes a connection cleanly exactly when both streams are over and there is nothing to linger for, whatever segments arrive | `CleanClose.CloseStep`, `ClosesOnlyWhenDone` |
| datagrams are neither lost nor reordered per hop; requests are throttled; addresses are fresh | `InterfaceRuns.RunConserves`, `Throttled`, `Fresh` |
| each datagram is routed once, by the first longest matching prefix | `Routing.Router.Route`, `MatchesIffTopBits` |
| parsing undoes serializing through both layers; any corrupted byte of a segment is reported | `TcpOverIp.ThroughIp`, `SegmentFormat.CorruptionDetected` |

## Where the code does not do what one would expect

These are modelled as they are, each with the exact condition under which it happens.

- The receiver ends its input as soon as a FIN has been seen and no byte is waiting, even if a gap precedes the FIN
  (`libsponge/tcp_receiver.cc:29-33`). `ReceivingProofs.EndsEarly` gives an input; `EndsCompleteIff` says exactly when
  the input ends with all bytes written, by a test on the receiver and the segment before the call. Then an
  acknowledgement may run one byte ahead of what was received, which is why `NetworkProofs.NothingLost` has two
  clauses. `EarlyEnd.LosesByte` is a run of two endpoints that loses a byte so.
- The reassembler's right edge is computed by a 64-bit subtraction that wraps for an index beyond the edge
  (`libsponge/stream_reassembler.cc:63`). So bytes can be stored outside the window: `ReassemblyProofs.BeyondEdge` is
  an input and `PushWindowIff` the exact condition. They can take all the room, so that an empty output refuses its
  next byte: `Stuck` is an input and `Progress` the exact condition.
- At the edge an empty entry is stored, and an occupied key keeps its value (`libsponge/stream_reassembler.cc:119`).
  `ReassemblyHeld.PushCompleteIff` says exactly which pushes keep the map free of empty entries and of bytes
  outside the window.
- Bytes pushed again count twice against the capacity (`libsponge/stream_reassembler.cc:64`), so an in-order push can
  lose bytes for which there is room: `ReassemblyHeld.CountedTwice` is an input and `KeptWholeIff` the exact condition.
- `unwrap` passes 2^64 for some checkpoints above 2^64 - 2^31. `Wrapping.UnwrapOverflows` is an
  input and `UnwrapNearestIff` gives the exact condition.
- The header parser's result is ignored by both `TCPSegment::parse` and `IPv4Datagram::parse`
  (`libsponge/tcp_helpers/tcp_segment.cc:20`, `libsponge/tcp_helpers/ipv4_datagram.cc:13`). So a segment whose data
  offset is too small is accepted (`SegmentFormat.AcceptedIff`, `ShortOffsetAccepted`), and so is a datagram with a
  wrong header checksum (`DatagramFormat.AcceptedIff`, `HeaderCorruptionAccepted`).

## Assumptions

Counters of 64 bits do not overflow (`nextSeqno < 2^64 - 2^31`, capacities and window edges below 2^64); where the
arithmetic itself is the point (sequence numbers, the timeout, the checksum, lengths in 16 bits) the width is written
out. The end-to-end results are for fewer than 2^31 bytes in each direction, where wrapped numbers are unambiguous
whatever is repeated. What concerns one endpoint alone (its bookkeeping, the timeout, closing) has no such bound and
is proved for any segments at all. Clocks, the initial sequence number and the network are parameters or steps of a
run. Exceptions become a missing result. Prefix lengths are at most 32 and rules name existing interfaces; the original
has no defined behaviour otherwise.

## Model

| member | source | states |
|---|---|---|
| Wrapping.UnwrapNearestIff | libsponge/wrapping_integers.cc:23-43 | the result is the closest to the checkpoint, the lower of two, of all non-negative numbers that wrap to `n`, if and only if the last sum stays below 2^64; for checkpoints below 2^64 - 2^31 it always does |
| Wrapping.UnwrapOverflows | libsponge/wrapping_integers.cc:39-42 | an input: for the checkpoint 2^64 - 1 the initial number unwraps to 0, which is not the nearest |
| Wrapping.UnwrapWrapIff | libsponge/wrapping_integers.cc:8-43 | for checkpoints below 2^64 - 2^31, unwrapping undoes wrapping for exactly the numbers at most 2^31 below the checkpoint and less than 2^31 above it (or in the first turn of the ring) |
| Wrapping.NearestIffWithinHalf | libsponge/wrapping_integers.cc:13-23 | the closest number is the one that wraps to `n` and is less than half the ring above the checkpoint, or the lowest there is, and at most half the ring below |
| Wrapping.WrapPredecessor | libsponge/wrapping_integers.hh:58-62 | subtracting one from a wrapped number wraps the predecessor |
| ByteStreams.FifoOverRuns | libsponge/byte_stream.cc:7-42 | over any run of writes, reads and closing: bytes taken, then bytes buffered, are the bytes accepted, in order; counters agree; capacity is kept |
| ByteStreams.ByteStream.Write | libsponge/byte_stream.cc:7-15 | accepts what fits, nothing after the end, and returns how much |
| ByteStreams.ByteStream.PeekOutput | libsponge/byte_stream.cc:18-21 | the first bytes, at most as many as there are |
| ByteStreams.ByteStream.PopOutput | libsponge/byte_stream.cc:24-28 | removes from the front and counts as read |
| ByteStreams.ByteStream.Read | libsponge/byte_stream.cc:33-40 | what is returned, followed by what is left, is what was buffered |
| ByteStreams.ByteStream.EndInput | libsponge/byte_stream.cc:42 | only the end mark changes |
| Reassembly.LowerBound | libsponge/stream_reassembler.cc:39 | the first position whose key is not below the one looked for |
| ReassemblyProofs.ScanKeepsOrder | libsponge/stream_reassembler.cc:89-116 | meeting new bytes leaves a sorted, disjoint part of the old entries |
| ReassemblyProofs.ScanApart | libsponge/stream_reassembler.cc:89-116 | after all erasures and merges the merged bytes overlap no remaining entry |
| ReassemblyProofs.ScanAgrees | libsponge/stream_reassembler.cc:89-116 | left and right merges keep the merged bytes equal to the stream at their index |
| ReassemblyProofs.ScanCovers | libsponge/stream_reassembler.cc:89-116 | merging neither loses nor invents a byte position |
| ReassemblyProofs.InsertInv | libsponge/stream_reassembler.cc:85-121 | inserting keeps the map sorted, disjoint and above the awaited index, and the total within capacity |
| ReassemblyProofs.TruncSizeExact | libsponge/stream_reassembler.cc:55-66 | the room left is never negative; inside the window no difference wraps |
| ReassemblyProofs.DrainInv | libsponge/stream_reassembler.cc:37-46 | draining ends with every key above the awaited index and keeps the capacity |
| ReassemblyProofs.PushInv | libsponge/stream_reassembler.cc:11-53 | every push keeps the map and capacity invariant and never moves the awaited index back |
| ReassemblyProofs.PushContent | libsponge/stream_reassembler.cc:11-121 | a push that agrees with the stream keeps buffer and entries equal to the stream |
| ReassemblyProofs.PushWindowIff | libsponge/stream_reassembler.cc:55-121 | of a push, waiting bytes stay before the edge if and only if it is empty, starts at or before the edge, finds no room at all or finds its key occupied |
| ReassemblyProofs.BeyondEdge | libsponge/stream_reassembler.cc:63 | an input: a byte pushed beyond the edge of an empty reassembler is stored there |
| ReassemblyProofs.CountDisjoint | libsponge/stream_reassembler.cc:123-129 | disjoint entries inside an interval hold no more bytes than it has |
| ReassemblyProofs.RoomForNext | libsponge/stream_reassembler.cc:55-66 | while the output has room there is room for the next byte in order |
| ReassemblyProofs.Progress | libsponge/stream_reassembler.cc:29-66 | a push covering the awaited byte of an open output writes at least all its new bytes or all there is room for; the awaited index advances if and only if the output is open and less than the capacity is stored |
| ReassemblyProofs.Stuck | libsponge/stream_reassembler.cc:63-64 | an input: bytes beyond the edge take all the room, and an empty open output refuses its next byte |
| ReassemblyHeld.PushHolds | libsponge/stream_reassembler.cc:11-121 | a push in the window leaves held exactly what was held and what it adds: out of order everything before the edge, in order as many new bytes as there is room for beside all that waits |
| ReassemblyHeld.InOrderHolds | libsponge/stream_reassembler.cc:31-46 | the same for a push in order, whatever waits and wherever |
| ReassemblyHeld.PushCompleteIff | libsponge/stream_reassembler.cc:85-121 | exactly the pushes that start before the edge, or at or before the awaited index, keep the map free of empty entries and of bytes outside the window |
| ReassemblyHeld.KeptWholeIff | libsponge/stream_reassembler.cc:55-66 | a push in the window is held whole if and only if each of its bytes is old, waits already or is within what is added |
| ReassemblyHeld.CountedTwice | libsponge/stream_reassembler.cc:64 | an input: of four bytes for an empty output of capacity four the last is lost, because one of the others was waiting |
| ReassemblyHeld.LostIff | libsponge/stream_reassembler.cc:85-121 | an out-of-order push leaves no byte waiting if and only if it takes the place of all that waited and is itself refused, for lack of room or by an empty entry with its key |
| ReassemblyRuns.RunInv | libsponge/stream_reassembler.cc:11-129 | the map and capacity invariant over every run, for arbitrary substrings |
| ReassemblyRuns.RunContent | libsponge/stream_reassembler.cc:11-121 | over every run of agreeing pushes and reads, bytes read and buffered are the stream up to the awaited index, and each waiting entry is the stream at its key |
| ReassemblyRuns.RunEnds | libsponge/stream_reassembler.cc:12-52 | over every run, the output is ended if and only if an end of stream was seen and all bytes were written |
| ReassemblyRuns.RunHolds | libsponge/stream_reassembler.cc:11-121 | over every run of pushes in the window and reads, exactly the bytes that some push added are written or waiting |
| ReassemblyRuns.RunComplete | libsponge/stream_reassembler.cc:11-121 | and every byte below the written count was added while the next one was not |
| ReassemblyRuns.RunOrderFree | libsponge/stream_reassembler.cc:11-121 | if moreover every push was kept whole, the output is the longest pushed prefix, whatever order, overlap and repetition |
| ReassemblyRuns.RunWindow | libsponge/stream_reassembler.cc:55-66 | over every run of pushes that start at or before the edge, all that waits is in the window |
| StreamReassemblers.StreamReassembler.UnassembledBytes | libsponge/stream_reassembler.cc:123-129 | the sum of the waiting lengths |
| StreamReassemblers.StreamReassembler.TruncateData | libsponge/stream_reassembler.cc:55-66 | the prefix that may be stored, as the specification gives it |
| StreamReassemblers.StreamReassembler.MeetEntry | libsponge/stream_reassembler.cc:89-116 | one round: erase, clear, merge right, merge left or pass by |
| StreamReassemblers.StreamReassembler.ScanMap | libsponge/stream_reassembler.cc:86-116 | the loop with erasures leaves the map and the bytes the specification gives |
| StreamReassemblers.StreamReassembler.CheckedInsert | libsponge/stream_reassembler.cc:85-121 | loop and insertion refine the specified insertion |
| StreamReassemblers.StreamReassembler.CutFirst | libsponge/stream_reassembler.cc:70-78 | the first entry is cut at the awaited index; the outer iterator ends behind the rest, or at the front if nothing is left of it |
| StreamReassemblers.StreamReassembler.UpdateWaitmap | libsponge/stream_reassembler.cc:68-83 | the loop with nested insertion is the simple cut of the map at the awaited index |
| StreamReassemblers.StreamReassembler.DrainMap | libsponge/stream_reassembler.cc:36-46 | the drain loop terminates and writes every entry that has become contiguous |
| StreamReassemblers.StreamReassembler.PushSubstring | libsponge/stream_reassembler.cc:11-53 | refines the specified push and keeps the invariant |
| SendingProofs.NextSegmentAt | libsponge/tcp_sender.cc:61-82 | the next segment starts at the next sequence number and carries the next bytes of the stream |
| SendingProofs.FillWindowInv | libsponge/tcp_sender.cc:49-97 | keeps the bookkeeping, never raises what is in flight above the window (1 if closed), stops only at a full window or with nothing left |
| SendingProofs.FillWindowSends | libsponge/tcp_sender.cc:49-97 | the new segments' payloads concatenate to the bytes read, none above 1000, and go to both queues |
| SendingProofs.DropAckedExact | libsponge/tcp_sender.cc:110-121 | the loop over wrapped numbers drops exactly the segments that end at or before the acknowledgement |
| SendingProofs.AckReceivedExact | libsponge/tcp_sender.cc:101-128 | an acceptable acknowledgement drops exactly the segments wholly below it; one beyond the next number changes only the window; what is in flight never rises above the window announced |
| SendingProofs.TickInv | libsponge/tcp_sender.cc:131-142 | a tick keeps the bookkeeping, the timer rule included |
| SendingProofs.TickExpiry | libsponge/tcp_sender.cc:131-142 | an expiry resends exactly the oldest outstanding segment, restarts the timer and counts a retry unless the window is closed; otherwise nothing is sent |
| SendingProofs.BackedOffPower | libsponge/tcp_sender.cc:136-140 | the timeout is the initial one times 2^count in 32 bits |
| SendingProofs.BackedOffExact | libsponge/tcp_sender.cc:136-140 | no wrap for up to 16 doublings |
| SendingProofs.SendEmptyInv | libsponge/tcp_sender.cc:146-159 | empty segments without SYN and FIN leave the bookkeeping alone |
| SendingProofs.SummaryExact | libsponge/tcp_helpers/tcp_state.cc:94-110 | the counter-based summary names the real state: SYN sent, something acknowledged, FIN sent, something outstanding |
| SendingRuns.RunInv | libsponge/tcp_sender.cc:41-159 | the bookkeeping in every reachable state, whatever numbers the peer acknowledges |
| TCPSenders.RetransmissionTimer.Start | libsponge/tcp_sender.cc:9-14 | a running timer with nothing elapsed |
| TCPSenders.RetransmissionTimer.Update | libsponge/tcp_sender.cc:16-23 | adds the elapsed time in 32 bits and expires at the timeout; an idle timer is refused and unchanged |
| TCPSenders.RetransmissionTimer.Reset | libsponge/tcp_sender.cc:25-30 | an idle timer |
| TCPSenders.TCPSender.BytesInFlight | libsponge/tcp_sender.cc:41-47 | the sequence numbers of the outstanding segments |
| TCPSenders.TCPSender.BuildSegment | libsponge/tcp_sender.cc:57-82 | SYN first, then payload, then FIN if there is space |
| TCPSenders.TCPSender.FillWindow | libsponge/tcp_sender.cc:49-97 | the loop refines the specified filling |
| TCPSenders.TCPSender.AckReceived | libsponge/tcp_sender.cc:101-128 | refines the specified handling and keeps the bookkeeping |
| TCPSenders.TCPSender.Tick | libsponge/tcp_sender.cc:131-142 | refines the specified passing of time and keeps the bookkeeping |
| TCPSenders.TCPSender.SendEmptySegment | libsponge/tcp_sender.cc:146-159 | queues an empty segment at the next sequence number |
| ReceivingProofs.TrueIndex | libsponge/tcp_receiver.cc:20-24 | under 2^31 bytes the wrapped number yields the true stream index, and no data segment is taken for the SYN |
| ReceivingProofs.ReceiveInv | libsponge/tcp_receiver.cc:5-34 | a segment of the peer keeps the receiver's content a part of what the peer sent |
| ReceivingProofs.ReceiveAdvances | libsponge/tcp_receiver.cc:5-34 | a segment that covers the awaited byte advances the receiver if and only if its input is open and it stores less than its capacity |
| ReceivingProofs.EndsCompleteIff | libsponge/tcp_receiver.cc:27-33 | the input ends with all bytes written unless a FIN is in the segment or was seen and the segment leaves a gap with nothing waiting behind it, by a test on receiver and segment before the call; and only then |
| ReceivingProofs.EndsEarly | libsponge/tcp_receiver.cc:27-46 | an input on which a missing byte is skipped and acknowledged |
| ReceivingProofs.NoGapOutOfOrder | libsponge/tcp_receiver.cc:27-33 | in the window, a segment out of order never ends the input early |
| TCPReceivers.TCPReceiver.SegmentReceived | libsponge/tcp_receiver.cc:5-34 | refines the specified reception and keeps the reassembler's invariant |
| TCPReceivers.TCPReceiver.GetAckno | libsponge/tcp_receiver.cc:36-47 | nothing before the SYN, then the awaited number, one more once the input has ended |
| TCPReceivers.TCPReceiver.GetWindowSize | libsponge/tcp_receiver.cc:49 | the free part of the capacity, never negative |
| ConnectionProofs.ReactInv | libsponge/tcp_connection.cc:29-49 | the sender's bookkeeping survives any segment, honest or not, and no retry is counted for it |
| ConnectionProofs.Answered | libsponge/tcp_connection.cc:33-50 | every segment that occupies sequence numbers is answered, and all that goes out reports the receiver's new acknowledgement and window |
| ConnectionProofs.ResetBreaks | libsponge/tcp_connection.cc:22-25 | a reset makes the connection inactive and puts both streams in error |
| ConnectionProofs.GiveUpBreaks | libsponge/tcp_connection.cc:93-97 | after eight retries a reset goes out and the connection is in error |
| TCPConnections.TCPConnection.ClearSendbuf | libsponge/tcp_connection.cc:57-78 | moves the sender's queue out in order, each segment stamped with acknowledgement and clamped window |
| TCPConnections.TCPConnection.SegmentReceived | libsponge/tcp_connection.cc:17-55 | refines the specified handling and keeps both halves valid |
| TCPConnections.TCPConnection.Write | libsponge/tcp_connection.cc:82-87 | accepts a prefix of the data, returns its length and sends what the window allows |
| TCPConnections.TCPConnection.Connect | libsponge/tcp_connection.cc:124-127 | sends what the window allows |
| TCPConnections.TCPConnection.EndInputStream | libsponge/tcp_connection.cc:118-122 | ends the stream and sends what the window allows |
| TCPConnections.TCPConnection.MustShutdown | libsponge/tcp_connection.cc:112-116 | whether both streams are over by the counters |
| TCPConnections.TCPConnection.DoShutdown | libsponge/tcp_connection.cc:134-140 | inactive, with error marks unless clean |
| TCPConnections.TCPConnection.GiveUp | libsponge/tcp_connection.cc:93-97 | refines the specified reset |
| TCPConnections.TCPConnection.Tick | libsponge/tcp_connection.cc:90-110 | refines the specified passing of time |
| NetworkProofs.RunKeeps | libsponge/tcp_helpers/lossy_fd_adapter.hh:42-57 | in every run of two endpoints over a dropping, repeating and reordering network: everything on the wire carries the bytes that belong to its number, receivers hold only sent bytes in order, acknowledgements never exceed progress |
| NetworkProofs.EndToEnd | libsponge/tcp_connection.cc:17-127 | received bytes are a prefix of accepted bytes; until a FIN has been seen every byte given up by the sender has been received, and at most one is missing after |
| NetworkProofs.AckNumberExact | libsponge/tcp_receiver.cc:36-47 | the acknowledgement, wrapped on the way, unwraps to the receiver's exact progress |
| NetworkProofs.AckTakesEffect | libsponge/tcp_sender.cc:101-128 | the peer's acknowledgement makes the sender give up exactly what is wholly acknowledged |
| EndpointRuns.TimeoutNeverWraps | libsponge/tcp_connection.cc:90-99 | over every run of one endpoint, whatever segments arrive, at most eight retries are counted, and the timeout is exactly the initial one doubled that often |
| EndpointRuns.RunOrderly | libsponge/tcp_connection.cc:17-127 | over every run of one endpoint, whatever segments arrive, the sender's bookkeeping and the retry limit |
| EndpointRuns.RunIsAlone | libsponge/tcp_helpers/lossy_fd_adapter.hh:42-57 | each endpoint of every run over a network is one of these runs |
| NetworkProgress.RunFair | libsponge/tcp_sender.cc:49-128 | over every run of two endpoints, no sender has more in flight than its peer's capacity (or one probe), although acknowledgements that arrive again restore old windows |
| NetworkProgress.NeverStuck | libsponge/tcp_sender.cc:101-142 | over every run, for a receiver that is open, read empty and lacks a byte that was sent: once its peer has its acknowledgement, with any window, the oldest segment kept, which is the one sent again, advances it |
| NetworkAdvance.CanAdvance | libsponge/tcp_connection.cc:17-110 | from every reachable state with such a receiver, and a peer that has counted fewer than eight retries, some ticks, transmissions and arrivals advance the receiver; no application need do anything |
| NetworkAdvance.RunSound | libsponge/tcp_receiver.cc:27-33 | over every run, a FIN that was seen and has not ended the input has bytes waiting behind a gap, and no reset is kept for retransmission, beside all the above |
| EarlyEnd.LosesByte | libsponge/tcp_receiver.cc:27-46 | a run of two endpoints at whose end a byte is acknowledged and given up, the input at the other end is over, and the byte was never received |
| CleanClose.ShouldShutdownIff | libsponge/tcp_connection.cc:112-116 | the counters say both streams are over exactly when SYN, every byte and FIN are sent and acknowledged and the inbound stream has ended with nothing waiting |
| CleanClose.CloseStep | libsponge/tcp_connection.cc:90-110 | only a tick closes an active connection cleanly, and it does exactly if it does not give up, there is no error, both streams are over, and lingering is off or ten timeouts have passed |
| CleanClose.LingerOff | libsponge/tcp_connection.cc:52-54 | over every run, whatever segments arrive, lingering is off only if at some moment the inbound stream had ended and the outbound one had not |
| CleanClose.QuietIsSince | libsponge/tcp_connection.cc:18-91 | over every run, the clock counts the milliseconds ticked since a segment last arrived |
| CleanClose.ClosesOnlyWhenDone | libsponge/tcp_connection.cc:52-116 | over every run, whatever segments arrive, the event that closes cleanly is a tick that finds both streams over, and either the inbound stream once ended first or ten timeouts passed in silence |
| InterfaceRuns.RunFrames | libsponge/network_interface.cc:21-129 | over every run, the queued frames are exactly those of the log, in order |
| InterfaceRuns.RunConserves | libsponge/network_interface.cc:21-120 | for each hop, the datagrams of the send calls are those sent followed by those waiting, in order; requests are outstanding for exactly the hops with waiting datagrams, none of them known |
| InterfaceRuns.Throttled | libsponge/network_interface.cc:29-45 | successive requests for a hop are more than 5000 ms apart unless it was learned in between |
| InterfaceRuns.AskedRecently | libsponge/network_interface.cc:29-46 | whenever a datagram has to wait, its hop was asked for within the last 5000 ms |
| InterfaceRuns.Fresh | libsponge/network_interface.cc:64-109 | every datagram goes to the address last learned for its hop, at most 30000 ms before |
| InterfaceRuns.RunLearned | libsponge/network_interface.cc:51-76 | what the log has learned, and when, is exactly the sender addresses of the ARP frames for this interface in order of arrival |
| NetworkInterfaces.NetworkInterface.SendDatagram | libsponge/network_interface.cc:21-48 | refines the specified sending |
| NetworkInterfaces.NetworkInterface.TrySendWaiting | libsponge/network_interface.cc:111-120 | the erasing loop sends, in order, exactly the waiting datagrams of the hop and keeps the others in order |
| NetworkInterfaces.NetworkInterface.TakeArp | libsponge/network_interface.cc:61-90 | learns, sends what waited, and replies to requests for its own address |
| NetworkInterfaces.NetworkInterface.RecvFrame | libsponge/network_interface.cc:51-94 | refines the specified reception; only frames for this interface count |
| NetworkInterfaces.NetworkInterface.RemoveExpiredCache | libsponge/network_interface.cc:102-109 | keeps exactly the entries at most 30000 ms old |
| NetworkInterfaces.NetworkInterface.Tick | libsponge/network_interface.cc:97-100 | refines the specified passing of time |
| Routing.MatchesIffTopBits | libsponge/router.cc:59-62 | the mask test is agreement on the top bits, for every prefix length from 0 to 32 |
| Routing.Router.PickRule | libsponge/router.cc:28-35 | the first of the rules with the longest matching prefix, or none if none matches |
| Routing.Router.RouteOneDatagram | libsponge/router.cc:23-46 | the interface of the picked rule, and no other, is handed the datagram with one hop less; without a rule or hops left none is |
| Routing.Router.Route | libsponge/router.cc:48-57 | empties every inbox; each interface is handed, once and in order, exactly the datagrams that its rules select |
| Checksums.FoldExact | libsponge/util/util.cc:100-108 | folding the carries is the remainder modulo 65535, with 65535 in place of 0 for every positive multiple |
| Checksums.ByteChangeDetected | libsponge/util/util.cc:89-108 | changing any single byte of data with checksum zero makes it non-zero, for data short enough for the 32-bit sum |
| Checksums.WordChangeUndetectedIff | libsponge/util/util.cc:89-108 | a change of one aligned word of data with checksum zero goes unnoticed exactly if it turns 0x0000 into 0xffff, or 0xffff into 0x0000 while the rest does not sum to zero |
| Checksums.CompletedChecksum | libsponge/util/util.cc:75-86 | data completed by its own checksum has the checksum zero |
| Checksums.InternetChecksum.Add | libsponge/util/util.cc:89-98 | the loop adds the 16-bit words, whatever the parity so far |
| Checksums.InternetChecksum.Value | libsponge/util/util.cc:100-108 | the complement of the folded sum |
| Parsing.TakeBack | libsponge/util/parser.cc:26-60 | an integer written in network byte order is read back, and the parser stands behind it |
| Parsing.NetParser.ParseInt | libsponge/util/parser.cc:26-43 | the big-endian value, or zero and an error if there are too few bytes or was an error before |
| Parsing.NetParser.RemovePrefix | libsponge/util/parser.cc:45-51 | skips, or marks an error if there are too few bytes |
| Parsing.UnparseInt | libsponge/util/parser.cc:53-60 | appends the bytes, highest first |
| SegmentFormat.FieldsBack | libsponge/tcp_helpers/tcp_header.cc:17-78 | parsing a written header returns every field and skips its padding |
| SegmentFormat.SerializedChecksum | libsponge/tcp_helpers/tcp_segment.cc:30-45 | a serialized segment has the checksum zero |
| SegmentFormat.RoundTrip | libsponge/tcp_helpers/tcp_segment.cc:12-45 | parsing a serialized segment (header of 5 to 15 words, at most a datagram long) succeeds and returns every field but the recomputed checksum |
| SegmentFormat.CorruptionDetected | libsponge/tcp_helpers/tcp_segment.cc:12-17 | any change of one byte, so of one bit, of a serialized segment is reported as a bad checksum |
| SegmentFormat.AcceptedIff | libsponge/tcp_helpers/tcp_segment.cc:12-23 | exactly which byte strings are accepted, given that the header parser's verdict is ignored |
| SegmentFormat.ShortOffsetAccepted | libsponge/tcp_helpers/tcp_segment.cc:19-22 | a data offset that is too small is accepted as if the header had twenty bytes, although the header parser refuses it |
| SegmentFormat.ZerosAccepted | libsponge/tcp_helpers/tcp_segment.cc:12-23 | an input: twenty zeros |
| SegmentFormat.ReadHeader | libsponge/tcp_helpers/tcp_header.cc:17-48 | the step-by-step parser refines the specified one, short input included |
| SegmentFormat.WriteHeader | libsponge/tcp_helpers/tcp_header.cc:51-78 | the specified bytes, or nothing for a header too short for its fields |
| SegmentFormat.ReadSegment | libsponge/tcp_helpers/tcp_segment.cc:12-23 | for every byte string, the verdict and segment of the specified parse |
| SegmentFormat.WriteSegment | libsponge/tcp_helpers/tcp_segment.cc:30-45 | the specified bytes, or nothing for a header too short for its fields |
| DatagramFormat.RoundTrip | libsponge/tcp_helpers/ipv4_datagram.cc:11-41 | parsing a serialized well-formed datagram succeeds, header checks included, and returns every field but the checksum |
| DatagramFormat.AcceptedIff | libsponge/tcp_helpers/ipv4_datagram.cc:11-21 | exactly which byte strings are accepted, given that the header's verdict is ignored |
| DatagramFormat.HeaderCorruptionAccepted | libsponge/tcp_helpers/ipv4_datagram.cc:11-21 | any changed byte of a serialized header behind its first four is accepted, although the header parser finds the checksum wrong |
| DatagramFormat.PseudoHeaderSum | libsponge/tcp_helpers/ipv4_header.cc:112-131 | the pseudo-checksum is the 16-bit sum of the twelve bytes of the pseudo-header |
| DatagramFormat.ReadHeader | libsponge/tcp_helpers/ipv4_header.cc:23-75 | the step-by-step parser refines the specified one, each early return included |
| DatagramFormat.WriteHeader | libsponge/tcp_helpers/ipv4_header.cc:78-110 | the specified bytes, or nothing for another version or a header too short for its fields |
| DatagramFormat.ReadDatagram | libsponge/tcp_helpers/ipv4_datagram.cc:11-21 | for every byte string, the verdict and datagram of the specified parse |
| DatagramFormat.WriteDatagram | libsponge/tcp_helpers/ipv4_datagram.cc:23-41 | the specified bytes, or nothing if the header cannot be written or announces another payload size |
| TcpOverIp.ThroughIp | libsponge/tcp_helpers/tcp_over_ip.cc:26-90 | a segment that fits a datagram, wrapped and serialized at one end, is parsed and unwrapped at the other to the same segment with its ports and checksum filled in |

## Left out

- ReassemblyRuns.RunHolds: for runs of pushes in the window, which by `PushCompleteIff` are exactly those that keep the states it speaks of; outside them it says nothing of the whole run.
- ReassemblyRuns.RunComplete: the same.
- NetworkProgress.NeverStuck: fewer than 2^31 bytes in each direction, as `EndToEnd`.
- NetworkAdvance.CanAdvance: the same; and it advances a receiver once, since a segment that a small receiver takes in parts may use up the retries before it is wholly acknowledged.
- NetworkProofs.EndToEnd: fewer than 2^31 bytes in each direction; an old segment may always arrive again, and by `Wrapping.UnwrapWrapIff` its number is misread once it is more than 2^31 behind.
- Applications, the event loop, file descriptors, sockets, TUN/TAP devices and threads: system calls; the network is a set of steps instead.
- Liveness over unbounded time (that every byte arrives in the end): `CanAdvance` proves that a continuation exists from every state, not that a fair network takes it. All that waits being in the window is not among them, since an old acknowledgement that arrives again may restore a larger window (`libsponge/tcp_sender.cc:102`).
- Destructors: the reset sent by a destroyed connection.
- Encoding of Ethernet frames and ARP messages: fixed-length copies; frames carry records, and anything that does not parse is one unreadable payload.
- Listening for a peer with unknown addresses in `unwrap_tcp_in_ip`: `TcpOverIp` starts from known addresses and ports.
- The names of the official TCP states (`TCPState::State`) and printing.
- The receiver's state summary (`libsponge/tcp_helpers/tcp_state.cc:82-92`): it reads off three flags.
- Buffers that share storage: payloads are byte sequences.
- Frames removed from the interface's queue by its owner: the log keeps all frames ever queued.
- Aliasing inside the router: its interfaces are values in a sequence, as they are in the original's vector.
