# A verified model of libsponge

This project models the TCP/IP stack of `libsponge` in Dafny and proves what it promises: that two TCP
endpoints deliver a byte stream over a network that loses, duplicates and reorders segments; that segments
survive the trip through TCP and IPv4 headers and checksums; and that the Ethernet interface and the router
lose, duplicate and misdirect nothing.

Each component has two layers. A value-level specification (a datatype with step functions) says what an
operation does, and lemmas over all runs of those steps prove the properties. A class beside it has the
fields and loops of the C++ object, and its methods are proved to perform the specified step.

| files | contents |
|---|---|
| `Machine`, `WrappingIntegers`, `Segments` | fixed-width integers, sequence numbers, headers and segments |
| `ByteStreams`, `Reassembly`, `StreamReassemblers` | the bounded stream; reassembly position by position; the interval-merging code |
| `Receivers`, `ReceiverRuns`, `TcpReceivers`, `Senders`, `SenderRuns`, `SenderTimers`, `TcpSenders` | the two halves of an endpoint, all their runs, time at a sender |
| `Connections`, `ConnectionSteps`, `ConnectionEffects`, `SenderEffects`, `ConnectionRuns`, `EndpointCalls`, `Answers`, `LateWrites`, `TcpConnections` | an endpoint, all its runs against an arbitrary peer, what it sends and when, and writes after the FIN |
| `Protocol`, `Theorems`, `Transfers`, `Retransmissions`, `Windows` | two endpoints and the network; the theorems about every reachable state; what the applications see; the retransmission loop; flow control |
| `Checksums`, `Parsers`, `Headers`, `Datagrams`, `Adapters` | the Internet checksum, the wire formats, TCP in IPv4 |
| `Interfaces`, `InterfaceRuns`, `ArpExchanges`, `NetworkInterfaces` | the ARP interface, all its runs, which frame calls for which |
| `Routing`, `Routers` | longest-prefix match and forwarding |

`dafny verify dfyconfig.toml` checks everything.

## How the network is modelled

`Protocol.System` holds two endpoints and the sets of all packets either has ever sent. A move lets one endpoint
write, read, end its stream, connect, tick, be destroyed, or receive any packet of the other's set, at any
time and any number of times. Packets carry, besides their 32-bit numbers, the absolute numbers these
stand for; the code never reads those. In the classes they are ghost fields.

A delivery assumes the segment lifetime of section 3.3 of RFC 793 (`Protocol.Timely`): the absolute
numbers in the packet lie within 2^31 of the receiver's and the sender's own. No assumption is made about
windows: the unsigned subtraction in `fill_window` wraps as it does in the code, and the theorems hold
nevertheless. An exception is an outcome of the operation, with the state it leaves behind.

## Where the code does less than its documentation says

The model follows the code. Lemmas give the exact condition for each of these differences.

- `unwrap` promises the value closest to the checkpoint. Near 2^64 its last addition overflows: `UnwrapClosestIff`.
- `fill_window` is to stay inside the window. When a stale acknowledgment has shrunk the window below what is in
  flight, the unsigned difference wraps and it does not: `FillWindowStaysInside`, `StaysInsideIff`,
  `StaleAckOverruns`, `OverrunIsReached`.
- A stale acknowledgment can also open the window further than the peer has room: `WithinStepIff`, `WithinIff`.
- `write` accepts bytes after the FIN has gone out. They are never sent, the derived sender state falls back to
  SynAcked, lingering may be given up, and an endpoint still active never closes cleanly: `OpLateIff`, `WriteFallsBackIff`,
  `LateWriteStopsLingering`, `LateIff`, `LateNeverSent`, `LateNeverCloses`, `LateWriteHistory`. All theorems about runs
  cover such writes; what holds exactly as long as there is none is stated as an if-and-only-if: `AllSentIff`,
  `EndToEndSafety`, `EveryStateIsSound`, `StatesMoveForward`, `TimeWaitEndsIff`.
- A retransmitted FIN is refused once a FIN was taken, even if its payload had been cut off at the window:
  `DeliveryProgress`, `FrontMakesProgress`, `RefusedFinStalls`. Progress needs no condition for other segments.
- The header parsers check version, lengths and the IPv4 checksum, but `IPv4Datagram::parse` and
  `TCPSegment::parse` do not look at their verdict: `HeaderChecksumIgnored`. As a consequence a
  datagram without options whose length no longer fits 16 bits still makes the round trip:
  `DatagramRoundTripIff`, `WrapSerializesIff`.
- A data offset above 15, a header length above 15 and a fragment offset above 8191 are cut on the wire:
  `SegmentRoundTripIff`, `DatagramRoundTripIff`.
- `prefix_match` masks the address but not the prefix, so a route with a host bit set never matches:
  `PrefixMatchIff`. Among different longest matches the first in the table wins: `OrderMattersIff`.
- A datagram of another version, or with a header length below 5, parses and cannot be serialized:
  `ParsedSendableIff`, `UnserializableArrives`. Sending it to a known neighbour throws. The router then stops
  with the datagram at the front of its queue: `RouteAll`, `AllPassIff`, `UnserializableStopsRouting`. If it waits for
  an address, the ARP reply throws in mid-flush: the rest of the queue is stranded for good, and later
  datagrams overtake it: `AnnouncementEmptiesQueueIff`, `KeysAgreeIff`, `OrderKeptIff`, `StalledForGood`,
  `StrandingHistory`.

Two more are matters of reading the source.

- The comment at libsponge/router.hh:28 says that an ARP reply teaches the "target" fields; the code learns the
  sender's, and so does the model.
- libsponge/stream_reassembler.cc:95 does not test for the end of the set, and lines 47-49 and 52-64 step an
  erased iterator. The model moves to the next segment and stops after the last one.

## Model

| member | source | states |
|---|---|---|
| WrappingIntegers.UnwrapWraps | libsponge/wrapping_integers.cc:33-55 | whatever the checkpoint, the result is a 64-bit number that wraps to the input |
| WrappingIntegers.UnwrapClosestIff | libsponge/wrapping_integers.cc:20-55 | the result is the candidate closest to the checkpoint if and only if the last addition does not leave the 64-bit range, a test on the arguments alone |
| WrappingIntegers.OverflowIsNotClosest | libsponge/wrapping_integers.cc:50-55 | in the overflowing case the result is the smallest candidate, and it is not the closest |
| WrappingIntegers.UnwrapWrap | libsponge/wrapping_integers.cc:16-55 | round trip: a number less than 2^31 away from the checkpoint survives wrapping and unwrapping |
| WrappingIntegers.UnwrapNotBelow | libsponge/wrapping_integers.cc:33-55 | however far a number lies behind the checkpoint, it is never unwrapped to a smaller one |
| WrappingIntegers.WrapCounts | libsponge/wrapping_integers.cc:16-20 | the numbers on the wire count up from the initial one and go on at zero after the last |
| ByteStreams.ReadsAreAPrefix | libsponge/byte_stream.cc:28-44 | chunks read one after the other concatenate to a prefix of the unread bytes, whatever the chunk sizes |
| ByteStreams.WriteTakesFront | libsponge/byte_stream.cc:19-25 | a write takes the longest front part of the data that fits: all of it, or until the stream is full |
| ByteStreams.WritesResume | libsponge/byte_stream.cc:19-44 | a writer that goes on after the returned counts, with writes and reads of any sizes: the bytes stored are the data from its beginning, each once and in order, and the writer has exactly the rest left |
| ByteStreams.ByteStream.constructor | libsponge/byte_stream.cc:16 | an empty stream of the given capacity |
| ByteStreams.ByteStream.Write | libsponge/byte_stream.cc:19-25 | appends the first bytes of the data, as many as there is room for, and returns how many that is |
| ByteStreams.ByteStream.PeekOutput | libsponge/byte_stream.cc:28 | the next unread bytes, at most `len` of them, without consuming them |
| ByteStreams.ByteStream.PopOutput | libsponge/byte_stream.cc:31-34 | drops `len` bytes and counts them as read; the stream stays consistent if and only if that many were unread |
| ByteStreams.ByteStream.Read | libsponge/byte_stream.cc:39-44 | returns and consumes the next unread bytes |
| ByteStreams.ByteStream.EndInput | libsponge/byte_stream.cc:46 | marks the input as ended and changes nothing else |
| Reassembly.ReplayHoldsPositions | libsponge/stream_reassembler.cc:75-115 | for every history of arriving excerpts of one stream and reads: the output is the longest contiguous prefix of the positions that arrived inside the capacity, the pending bytes are exactly the other arrived positions with the right bytes, and the output has ended if and only if the end was seen and everything is written |
| Reassembly.ArriveHoldsPositions | libsponge/stream_reassembler.cc:75-115 | one arrival keeps the position-by-position description |
| Reassembly.PushMatches | libsponge/stream_reassembler.cc:75-115 | an excerpt of the stream contradicts nothing stored, and leaves only genuine bytes stored |
| Reassembly.AcceptedIsEither | libsponge/stream_reassembler.cc:75-105 | for any excerpt, be it at odds with what is stored: exactly the stored and the offered positions are held, each with its stored or its offered byte |
| Reassembly.PushSplits | libsponge/stream_reassembler.cc:86-105 | a push moves a run of held positions to the output and keeps all others; none is lost |
| Reassembly.PushProgress | libsponge/stream_reassembler.cc:90-101 | an excerpt that starts at or before the write position and fits the capacity is written through to its end |
| Reassembly.PushNothing | libsponge/stream_reassembler.cc:84-85 | an excerpt with no position between the write position and the capacity changes nothing but, possibly, the end mark |
| Reassembly.PushValid | libsponge/stream_reassembler.cc:76-101 | the output only grows, and the capacity limit does not move |
| StreamReassemblers.MergeLeft | libsponge/stream_reassembler.cc:37-50 | joining the new segment with its left neighbour, whose bytes prevail, keeps the merged bytes and the gaps of the rest |
| StreamReassemblers.LeftSurvives | libsponge/stream_reassembler.cc:39-48 | where bytes contradict, the left neighbour's survive and the new ones prevail behind it |
| StreamReassemblers.NewPrevails | libsponge/stream_reassembler.cc:52-68 | with no left neighbour to run into, the new bytes prevail, unless all of the segment is stored already |
| StreamReassemblers.MergeRight | libsponge/stream_reassembler.cc:52-65 | erasing a right neighbour that the merged segment has swallowed or extended keeps the merged bytes |
| StreamReassemblers.AbsorbStep | libsponge/stream_reassembler.cc:52-65 | one turn of the merging loop, with the loop's fixed `size`, keeps the representation |
| StreamReassemblers.AbsorbIncluded | libsponge/stream_reassembler.cc:54-57 | the early return inside the loop loses nothing |
| StreamReassemblers.IncludedIsHeld | libsponge/stream_reassembler.cc:40-41 | the early return on the left changes nothing: the positions are all held already, and their bytes survive |
| StreamReassemblers.AbsorbDone | libsponge/stream_reassembler.cc:66-68 | inserting the merged segment restores sorted, strictly gapped segments that hold the old and the new bytes |
| StreamReassemblers.TotalIsPositions | libsponge/stream_reassembler.cc:46-68 | the total length of gapped segments is the number of positions they hold |
| StreamReassemblers.DrainStep | libsponge/stream_reassembler.cc:95-101 | one turn of the draining loop, with its fixed end point, keeps output plus pending equal to the accepted positions |
| StreamReassemblers.DrainDone | libsponge/stream_reassembler.cc:95-101 | when draining stops, the output ends at the first missing position and the rest is still pending |
| StreamReassemblers.PendingFits | libsponge/stream_reassembler.cc:76-89 | buffered plus pending bytes never exceed the capacity, so no write to the output is cut short |
| StreamReassemblers.StreamReassembler.constructor | libsponge/stream_reassembler.cc:16-22 | an empty reassembler |
| StreamReassemblers.StreamReassembler.LowerBound | libsponge/stream_reassembler.cc:34 | the first segment not before the given start |
| StreamReassemblers.StreamReassembler.Insert | libsponge/stream_reassembler.cc:25-69 | the interval merge, for any bytes: afterwards the segments are sorted with strict gaps, hold exactly the old and new positions with the bytes that the merge rule selects, and the byte counter is their total length |
| StreamReassemblers.StreamReassembler.WriteThrough | libsponge/stream_reassembler.cc:90-101 | writes the excerpt and drains the pending segments it reaches: the new state is that of the specification |
| StreamReassemblers.StreamReassembler.Drain | libsponge/stream_reassembler.cc:93-101 | the loop writes and erases every pending segment that the write has reached |
| StreamReassemblers.StreamReassembler.PushSubstring | libsponge/stream_reassembler.cc:75-115 | for any excerpt: truncation, writing, draining, inserting and the end test together do what the position-by-position specification does |
| StreamReassemblers.StreamReassembler.UnassembledBytes | libsponge/stream_reassembler.cc:117-119 | the counter is the number of pending positions, and with the buffered bytes stays within the capacity |
| Receivers.ReceivedValid | libsponge/tcp_receiver.cc:13-53 | whatever segment arrives, the receiver's fields stay consistent, its output only grows, and SYN, ISN and FIN are never taken back |
| Receivers.RightEdgeNeverShrinks | libsponge/tcp_receiver.cc:13-72 | over any mix of arrivals and reads, neither the acknowledgment nor the advertised right edge (with the 16-bit window) moves left |
| Receivers.WindowTestIsTight | libsponge/tcp_receiver.cc:44-46 | the window test refuses only data without a position in the window, and while the window is open exactly that data; before the end of the stream the window is what the reassembler can use, afterwards it lies one further |
| Receivers.DroppedWouldChangeNothing | libsponge/tcp_receiver.cc:44-49 | pushing what the test refuses would have left the reassembler as it was |
| Receivers.ReceivedFollows | libsponge/tcp_receiver.cc:13-53 | a genuine segment numbered within 2^31 keeps everything stored genuine, and the end mark in the right place |
| Receivers.GenuineAccepted | libsponge/tcp_receiver.cc:32-49 | segments of one peer never contradict each other |
| Receivers.DeliveryProgress | libsponge/tcp_receiver.cc:32-67 | a segment that starts at or before the acknowledged point and fits the window moves that point to its end; for a FIN this holds if and only if no FIN had been taken or nothing was left to acknowledge |
| Receivers.RefusedFinStalls | libsponge/tcp_receiver.cc:36-39 | a concrete history in which the retransmitted FIN is refused and the acknowledged point stays short of its end |
| ReceiverRuns.SegmentPositions | libsponge/tcp_receiver.cc:13-53 | before the end of the stream, an arbitrary segment adds exactly the positions of its payload below the capacity, in order or not, and loses none; only what comes before a SYN, a second SYN and a second FIN add nothing |
| ReceiverRuns.GenuinePositions | libsponge/tcp_receiver.cc:13-53 | a genuine, recent segment keeps the position-by-position description, and sets the SYN and FIN marks exactly when it brings them |
| ReceiverRuns.LiveHoldsPositions | libsponge/tcp_receiver.cc:13-53 | for every history of segments of one peer and reads: the output is the longest contiguous prefix of the positions that have come since the SYN and inside the capacity, the rest of them is pending with the right bytes, and the output has ended if and only if a FIN and everything before it has come |
| ReceiverRuns.AcknowledgesWhatCame | libsponge/tcp_receiver.cc:55-67 | over every such history the acknowledgment is the number after the first position that has not come, and one more after the end |
| TcpReceivers.TcpReceiver.constructor | libsponge/tcp_receiver.hh:32 | a receiver that waits for a SYN |
| TcpReceivers.TcpReceiver.SegmentReceived | libsponge/tcp_receiver.cc:13-53 | the object becomes the specified next receiver: SYN taken once, second FIN refused, data outside the window dropped, the rest pushed and the base recomputed |
| TcpReceivers.TcpReceiver.Ackno | libsponge/tcp_receiver.cc:55-67 | nothing before the SYN; afterwards the wrapped number of the first byte missing, past the FIN once the stream has ended |
| TcpReceivers.TcpReceiver.WindowSize | libsponge/tcp_receiver.cc:69-72 | the capacity not taken by unread bytes |
| Senders.FillWindowKeeps | libsponge/tcp_sender.cc:28-67 | filling the window keeps the accounting: next number = SYN + bytes read + FIN, a contiguous chain of genuine copies, payloads of at most 1452 bytes that concatenate to the bytes read |
| Senders.FillLoopKeeps | libsponge/tcp_sender.cc:53-66 | the loop never exceeds its space and stops only with the space used, the FIN sent, or the stream drained and open |
| Senders.FillWindowStaysInside | libsponge/tcp_sender.cc:28-67 | a call stays within the peer's window if and only if it starts within it or has nothing to send |
| Senders.FillWindowIsMaximal | libsponge/tcp_sender.cc:41-66 | with the SYN out, afterwards the window is full, the FIN is sent, or the stream is empty and not ended |
| Senders.FillWindowSendsFull | libsponge/tcp_sender.cc:53-66 | of the payloads that a call sends all but the last have 1452 bytes: one is cut short only by the space or the bytes at hand |
| Senders.AckRefills | libsponge/tcp_sender.cc:84-97 | after an acknowledgment that moves the base the window is full, the FIN is sent, or the stream is empty and not ended |
| Senders.PopKeeps | libsponge/tcp_sender.cc:87-95 | popping removes only acknowledged segments, however far behind their numbers lie, and keeps the chain |
| Senders.PopStraddles | libsponge/tcp_sender.cc:87-95 | with less than 2^31 in the chain, exactly the acknowledged segments are popped |
| Senders.AckAdvances | libsponge/tcp_sender.cc:71-105 | any acknowledgment from anyone keeps the sender consistent; it moves the base exactly when it lies above the base and not beyond the next number, and only then restarts the timer afresh; the window is taken unless the number lies beyond the next one, and then nothing changes |
| Senders.TickAdvances | libsponge/tcp_sender.cc:108-122 | a tick queues the oldest copy again exactly when the timer has run out, then restarts it, doubled and counted unless the window was zero, and changes neither numbers nor copies |
| Senders.EmptyAdvances | libsponge/tcp_sender.cc:126-131 | an empty segment carries exactly the next number, uses none up and leaves everything else alone |
| SenderRuns.RunFromNew | libsponge/tcp_sender.cc:26-144 | in every run of a fresh sender: the next number counts SYN, bytes read and FIN; first-time payloads equal the bytes read; the copies are a contiguous chain reaching back to the base; the timer runs if and only if there are copies, with the timeout doubled per retransmission |
| SenderRuns.AllSentIff | libsponge/tcp_sender.cc:28-67 | in every run of a fresh sender whose FIN is out, the payloads sent concatenate to everything written if and only if no write was accepted after the FIN |
| SenderRuns.RunLateIff | libsponge/tcp_sender.cc:28-67 | bytes are left behind the FIN if and only if there were some at the start or a write of the run was accepted with the FIN out |
| SenderRuns.CallLateIff | libsponge/tcp_sender.cc:28-67 | one call leaves bytes behind the FIN if and only if there were some before, or it is a write of which something is accepted with the FIN out |
| SenderRuns.StaysInsideIff | libsponge/tcp_sender.cc:26-144 | at every moment of a run the flight fits the window, the oldest copy straddles the base and there are copies exactly while something is in flight, if and only if no acknowledgment takes back room |
| SenderRuns.StaleAckOverruns | libsponge/tcp_sender.cc:76-84 | an old acknowledgment with a window, zero included, below what is in flight makes the next call send beyond that window, whenever there is data |
| SenderRuns.OverrunIsReached | libsponge/tcp_sender.cc:26-97 | a whole history of calls from a fresh sender that ends with more in flight than the window allows |
| SenderTimers.TickTimesOutIff | libsponge/tcp_sender.cc:76-122 | at any moment of any run of a fresh sender, a tick sends the oldest copy again if and only if the ticks since the clock last started afresh add up, with it, to the initial timeout doubled once per timeout with an open window; otherwise it sends nothing; afresh means: something is outstanding after nothing was, an acknowledgment moves the base, or a timeout |
| SenderTimers.CallInStep | libsponge/tcp_sender.cc:26-144 | every call keeps the timer, the retransmission count and the zero-window mark in step with the owner's own account of time |
| TcpSenders.RetransmissionTimer.Start | libsponge/tcp_sender.hh:26-29 | restarts the clock and keeps the timeout |
| TcpSenders.RetransmissionTimer.StartWith | libsponge/tcp_sender.hh:31-35 | restarts the clock with the given timeout |
| TcpSenders.RetransmissionTimer.DoubleRto | libsponge/tcp_sender.hh:43 | doubles the timeout |
| TcpSenders.RetransmissionTimer.Clear | libsponge/tcp_sender.hh:45-49 | stops the timer and zeroes it |
| TcpSenders.TcpSender.constructor | libsponge/tcp_sender.cc:20-24 | a sender that has sent nothing and assumes a window of one |
| TcpSenders.TcpSender.SendSegment | libsponge/tcp_sender.cc:134-144 | numbers the segment, queues it and a copy, and starts an idle timer |
| TcpSenders.TcpSender.SendEmptySegment | libsponge/tcp_sender.cc:126-131 | queues an empty segment, without a copy |
| TcpSenders.TcpSender.FillWindow | libsponge/tcp_sender.cc:28-67 | the object becomes the specified next sender (SYN alone, FIN alone, or chunks up to the space left), unsigned wrap-around included |
| TcpSenders.TcpSender.FillWithData | libsponge/tcp_sender.cc:53-66 | the loop is the recursive specification |
| TcpSenders.TcpSender.AckReceived | libsponge/tcp_sender.cc:71-105 | the object becomes the specified next sender: beyond the next number ignored, window always taken, and only a new acknowledgment pops copies, refills and restarts the timer |
| TcpSenders.TcpSender.PopAcknowledged | libsponge/tcp_sender.cc:87-95 | the loop removes the prefix that the specification removes |
| TcpSenders.TcpSender.Tick | libsponge/tcp_sender.cc:108-122 | the object becomes the specified next sender: on a timeout the oldest copy is queued again and, unless the peer's window was zero, counted and the timeout doubled |
| Connections.SenderStateMeaning | libsponge/tcp_connection.cc:181-197 | the derived sender state is never unknown, is the documented summary, and says exactly what was sent and acknowledged; bytes accepted after the FIN make it SynAcked whatever was acknowledged |
| Connections.ReceiverStateMeaning | libsponge/tcp_helpers/tcp_state.cc:82-92 | the derived receiver state is the documented summary where there is no error |
| Connections.SenderStateForward | libsponge/tcp_connection.cc:181-197 | a later sender has an earlier state if and only if the FIN was out and bytes have been accepted after it |
| ConnectionSteps.PushKeeps | libsponge/tcp_connection.cc:108-135 | everything sent is a genuine segment carrying the receiver's current acknowledgment and window, nothing is left queued, and lingering and activity change only by the shutdown rule |
| ConnectionSteps.PushSendsAll | libsponge/tcp_connection.cc:114-132 | everything queued and everything the refilled window allows goes out, one packet per segment, in order, with its numbers, flags and payload |
| ConnectionSteps.DeliverKeeps | libsponge/tcp_connection.cc:23-60 | an arbitrary incoming segment keeps the endpoint sound |
| ConnectionSteps.TickKeeps | libsponge/tcp_connection.cc:71-81 | a tick, with its reset after too many retransmissions, keeps the endpoint sound |
| ConnectionSteps.UncleanKeeps | libsponge/tcp_connection.cc:154-169 | an unclean shutdown leaves both streams in error and the endpoint inactive |
| ConnectionEffects.ResetGoesOut | libsponge/tcp_connection.cc:154-169 | a shutdown with a reset always gets a reset out, on exactly one packet, the first |
| ConnectionEffects.AnswersData | libsponge/tcp_connection.cc:49-59 | a segment that uses sequence numbers is always answered by at least one packet, once a SYN was seen |
| ConnectionSteps.OpKeeps | libsponge/tcp_connection.cc:23-169 | every operation keeps the endpoint sound, sends only genuine packets with the current acknowledgment, never makes an inactive endpoint active, and moves the sender's state forward if and only if it leaves no bytes behind a FIN that was out |
| ConnectionRuns.EveryStateIsSound | libsponge/tcp_connection.cc:71-81 | in every run against any peer, whatever is written and when: an inactive endpoint has both streams in error, or both finished; at most 9 consecutive retransmissions; the timeout is the configured one doubled per retransmission, at most 512 times it; the sender's state is FinAcked if and only if the FIN is acknowledged and nothing was accepted after it |
| ConnectionRuns.LingersLongEnough | libsponge/tcp_connection.cc:137-151 | a clean close with lingering comes only after ticks adding up to 10 times the timeout since both streams were finished and since the last segment |
| ConnectionRuns.TimeWaitEndsIff | libsponge/tcp_connection.cc:137-151 | conversely, with both streams finished and nothing in flight, a tick deactivates the endpoint if and only if nothing was accepted after the FIN and it does not linger or 10 times the timeout has passed since the last segment, and without failing |
| ConnectionRuns.StatesMoveForward | libsponge/tcp_connection.cc:171-197 | over every run the derived states agree with the documented summaries and are never unknown; the receiver's moves only forward, and the sender's does if and only if no bytes are left behind a FIN that was out |
| EndpointCalls.OpWorks | libsponge/tcp_connection.cc:23-169 | every operation of an endpoint does to its sender exactly what a list of sender calls does, named by the operation and the fields of the segment |
| EndpointCalls.EndpointIsSenderRun | libsponge/tcp_connection.cc:23-169 | in every run of an endpoint its sender has gone through a run of calls from a fresh sender, so that the theorems about those runs hold for it |
| Answers.SegmentOutcome | libsponge/tcp_connection.cc:23-60 | what an arbitrary segment makes an endpoint send: nothing if out of service or acknowledged before any SYN; nothing for a reset, which fails both streams; otherwise new data and at most one empty segment, the latter only in answer to a segment that uses sequence numbers |
| Answers.EndpointTimesOutIff | libsponge/tcp_connection.cc:71-81 | at any moment of any run of an endpoint in service, a tick sends something again if and only if something is outstanding and the ticks since the clock last started afresh add up, with it, to the configured timeout doubled once per backoff |
| LateWrites.OpLateIff | libsponge/tcp_connection.cc:64-68 | an operation leaves bytes behind the FIN if and only if there were some before, or it is a write of which something is accepted with the FIN out |
| LateWrites.WriteFallsBackIff | libsponge/tcp_connection.cc:64-68 | a write takes the derived sender state back, to SynAcked, if and only if it was FinSent or FinAcked and something is accepted |
| LateWrites.LateWriteStopsLingering | libsponge/tcp_connection.cc:137-142 | such a write, once the peer has finished, makes the endpoint give up lingering |
| LateWrites.LateIff | libsponge/tcp_connection.cc:64-68 | at any moment of any run there are bytes behind the FIN if and only if a write was accepted with the FIN out before |
| LateWrites.LateNeverSent | libsponge/tcp_connection.cc:64-68 | from then on nothing more is taken from the stream, and the derived sender state is SynSent or SynAcked |
| LateWrites.LateNeverCloses | libsponge/tcp_connection.cc:137-151 | and an active endpoint goes out of service only by failing |
| LateWrites.LateWriteHistory | libsponge/tcp_connection.cc:64-92 | a whole run of an endpoint: connect, be acknowledged, end the stream, write a byte; the byte is accepted, the state falls from FinSent to SynAcked, and the byte stays behind |
| SenderEffects.OpGrew | libsponge/tcp_connection.cc:23-169 | every operation, once it has noted an acknowledgment, a write or the end of the stream, leaves base and window alone, stays inside the window if the sender is inside it, and sends nothing that is behind the FIN |
| TcpConnections.TcpConnection.constructor | libsponge/tcp_connection.hh:97 | an active endpoint that lingers and has sent nothing |
| TcpConnections.TcpConnection.RState | libsponge/tcp_connection.cc:171-179 | the receiver's state by the code's own tests |
| TcpConnections.TcpConnection.SState | libsponge/tcp_connection.cc:181-197 | the sender's state by the code's own tests |
| TcpConnections.TcpConnection.PushSegmentOut | libsponge/tcp_connection.cc:108-135 | the loop stamps and moves every queued segment, a pending reset on the first only |
| TcpConnections.TcpConnection.CleanShutdown | libsponge/tcp_connection.cc:137-151 | gives up lingering and deactivates as specified |
| TcpConnections.TcpConnection.UncleanShutdown | libsponge/tcp_connection.cc:154-169 | sets both errors, deactivates, and sends a reset if asked |
| TcpConnections.TcpConnection.SegmentReceived | libsponge/tcp_connection.cc:23-60 | the object becomes the specified next endpoint: inactive or acknowledged-while-closed ignored, reset fails both streams, anything else goes to the receiver, then the sender, then is answered |
| TcpConnections.TcpConnection.Connect | libsponge/tcp_connection.cc:89-92 | the SYN goes out |
| TcpConnections.TcpConnection.Write | libsponge/tcp_connection.cc:64-68 | the part that fits is written and as much as possible sent; returns how much was accepted |
| TcpConnections.TcpConnection.EndInputStream | libsponge/tcp_connection.cc:83-87 | the outbound stream is ended and the FIN sent if there is room |
| TcpConnections.TcpConnection.Tick | libsponge/tcp_connection.cc:71-81 | time passes in both halves; more than 8 retransmissions in a row end in a reset; whatever is queued goes out |
| TcpConnections.TcpConnection.Destroy | libsponge/tcp_connection.cc:94-105 | an active endpoint is shut down with a reset |
| Protocol.NextKeeps | libsponge/tcp_connection.cc:23-135 | every move of either endpoint over the network keeps the joint invariant |
| Protocol.ReachableInv | libsponge/tcp_connection.cc:23-169 | every reachable state of two endpoints satisfies the joint invariant |
| Theorems.EndToEndSafety | libsponge/tcp_sender.cc:28-67 | in every reachable state, in both directions, the bytes delivered are a prefix of the bytes written; the output has ended only if the input has and the FIN is out, and then it is everything that was written before the FIN; it is everything that was written if and only if nothing was accepted after the FIN |
| Transfers.WrittenBy | libsponge/tcp_connection.cc:64-68 | a write appends to the outbound stream the front of its data that there is room for; no other operation appends anything |
| Transfers.ReadBy | libsponge/byte_stream.cc:28-44 | a read takes the next unread bytes of the inbound stream; no other operation takes any, and the stream only grows |
| Transfers.ReaderGetsWhatWriterGave | libsponge/tcp_connection.cc:23-92 | over every history of two endpoints and the network, for a writer that goes through its data by the counts that `write` returns: what has been read at the other end is a prefix of what was handed in, which is a prefix of the data; a reader that has met the end has read all that was handed in if and only if nothing was accepted after the FIN, and the whole data if it was handed in to the last byte |
| Transfers.Mirrors | libsponge/tcp_connection.cc:23-169 | every history is one with the endpoints exchanged, so that this holds in both directions |
| Theorems.ArrivalsAgree | libsponge/stream_reassembler.cc:75-115 | whatever the network delivers in time never contradicts what the receiver has stored |
| Theorems.AckSandwich | libsponge/tcp_sender.cc:71-105 | in every reachable state the base is at most the peer's acknowledgment, which is at most the next number, and every number in between is still kept for retransmission |
| Theorems.FrontIsOnTheWire | libsponge/tcp_sender.cc:134-144 | in every reachable state with anything unacknowledged, a packet with the oldest unacknowledged segment is on the wire, without a reset while the sender is active |
| Theorems.TimeoutRetransmits | libsponge/tcp_connection.cc:71-81 | whenever the timer of an active endpoint runs out, the oldest unacknowledged segment is sent again, without a reset unless that was the ninth time in a row |
| Theorems.FrontMakesProgress | libsponge/tcp_receiver.cc:32-67 | delivering the oldest unacknowledged segment, if it fits the window, moves the peer's acknowledgment to its end; for a FIN if and only if no FIN was taken before or it is acknowledged already |
| Theorems.FrontIsAnswered | libsponge/tcp_connection.cc:23-59 | the same delivery, for a segment that is no FIN, makes the peer send an acknowledgment that covers it |
| Theorems.AckMakesProgress | libsponge/tcp_sender.cc:71-105 | delivering any packet with an acknowledgment moves the base to it, if it is not there already, and no further |
| Retransmissions.RetransmissionLoop | libsponge/tcp_connection.cc:23-81 | between active endpoints, from every reachable state whose oldest unacknowledged segment is overdue, no FIN and not given up: the tick sends it again; delivering that packet, if it fits the window, makes the peer answer; delivering the answer moves the base past the segment; each of the three is a move of the system |
| Windows.PromisesAreKept | libsponge/tcp_connection.cc:119-125 | in every reachable state a receiver still has room for everything that any acknowledgment ever sent has promised |
| Windows.WithinStepIff | libsponge/tcp_sender.cc:71-97 | a move leaves a sender within its peer's right edge if and only if an acknowledgment it takes neither takes back room that is in use nor opens the window beyond that edge |
| Windows.WithinIff | libsponge/tcp_sender.cc:26-105 | over every history of the two endpoints: a sender has stayed within its peer's right edge, with one number to probe a closed window, up to some moment if and only if every acknowledgment it took until then was fair in that sense |
| Windows.LatestIsFair | libsponge/tcp_sender.cc:76-84 | an acknowledgment that is up to date is always fair |
| Windows.NewIsFairIff | libsponge/tcp_sender.cc:76-84 | one that is not older than the base is fair if and only if it takes back no room that is in use |
| Windows.WithinFits | libsponge/tcp_receiver.cc:32-67 | within the edge every packet ever sent fits the peer's window, unless it is the one number that probes a closed window |
| Theorems.CloseWithoutLingering | libsponge/tcp_connection.cc:108-151 | a move that takes an endpoint out of service, without failure and without lingering, leaves a peer whose FIN is acknowledged at the peer, its own stream delivered in full, and of the peer's all that was written before the peer's FIN |
| Checksums.Fold | libsponge/util/util.cc:100-108 | folding the carries gives the residue modulo 65535, with 65535 in place of 0 for a positive sum |
| Checksums.WeightSplits | libsponge/util/util.cc:89-98 | adding two pieces is adding their concatenation, at any split and parity |
| Checksums.ChecksumIsZeroIff | libsponge/util/util.cc:100-108 | the value is zero if and only if the sum is a positive multiple of 65535 |
| Checksums.FieldAcceptedIff | libsponge/util/util.cc:76-85 | the field values that check are exactly the computed one and its other one's complement spelling |
| Checksums.FilledInChecks | libsponge/util/util.cc:76-85 | the checksum computed with the field at zero, put into the field, makes the value zero |
| Checksums.OneByteErrorDetected | libsponge/util/util.cc:89-108 | a message that checks does not check once any single byte is changed |
| Checksums.InternetChecksum.constructor | libsponge/util/util.cc:87 | starts from the given sum |
| Checksums.InternetChecksum.Add | libsponge/util/util.cc:89-98 | the object stands for the concatenation of all that was added, in 32-bit arithmetic |
| Checksums.InternetChecksum.Value | libsponge/util/util.cc:100-108 | the value depends only on that concatenation |
| Parsers.BigEndianBytes | libsponge/util/parser.cc:27-60 | an integer written in `width` bytes is read back |
| Parsers.BytesBigEndian | libsponge/util/parser.cc:27-60 | bytes read as an integer are written back |
| Parsers.ByteAt | libsponge/util/parser.cc:54-60 | the byte found by shifting right is the byte of the big-endian encoding |
| Parsers.NetParser.ParseInt | libsponge/util/parser.cc:27-43 | reads the big-endian integer at the current offset; past the end it is 0 and the parser is in error for good |
| Parsers.NetParser.U8 | libsponge/util/parser.cc:66 | the same for one byte |
| Parsers.NetParser.U16 | libsponge/util/parser.cc:64 | the same for two bytes |
| Parsers.NetParser.U32 | libsponge/util/parser.cc:62 | the same for four bytes |
| Parsers.NetParser.RemovePrefix | libsponge/util/parser.cc:45-51 | moves on, or is in error past the end |
| Parsers.UnparseInt | libsponge/util/parser.cc:54-60 | appends the big-endian encoding |
| Headers.TcpLayoutOfBytes | libsponge/tcp_helpers/tcp_header.cc:17-78 | a TCP header written and read back is the same in every field, but for the data offset, of which 4 bits survive; the payload starts where it says |
| Headers.TcpWireFormat | libsponge/tcp_helpers/tcp_header.cc:51-78 | every field stands at its offset in the header of section 3.1 of RFC 793, most significant byte first |
| Headers.ParseTcpHeader | libsponge/tcp_helpers/tcp_header.cc:17-48 | consuming the fields one by one yields the header at its RFC 793 places, on short input too, and stops after the options |
| Headers.SerializeTcpHeader | libsponge/tcp_helpers/tcp_header.cc:51-78 | the fields at their places, padded to the advertised size, or an exception |
| Headers.Ipv4LayoutOfBytes | libsponge/tcp_helpers/ipv4_header.cc:23-109 | an IPv4 header written and read back is the same, but for 4 bits of header length and 13 of fragment offset |
| Headers.Ipv4WireFormat | libsponge/tcp_helpers/ipv4_header.cc:78-109 | every field stands at its offset in the header of section 3.1 of RFC 791, most significant byte first |
| Headers.ParseIpv4Header | libsponge/tcp_helpers/ipv4_header.cc:23-75 | the header, the verdict with its five reasons in the code's order, and where the parser stops |
| Headers.SerializeIpv4Header | libsponge/tcp_helpers/ipv4_header.cc:78-109 | the fields at their places, padded to the advertised size, or an exception |
| Datagrams.SegmentChecks | libsponge/tcp_helpers/tcp_segment.cc:30-45 | the bytes of a serialized segment sum to zero with the lower layer's share |
| Datagrams.SegmentRoundTripIff | libsponge/tcp_helpers/tcp_segment.cc:12-45 | parsing undoes serializing if and only if the data offset fits its 4 bits |
| Datagrams.CorruptSegmentRejected | libsponge/tcp_helpers/tcp_segment.cc:12-18 | a serialized segment with any one byte changed is refused |
| Datagrams.ParseSegment | libsponge/tcp_helpers/tcp_segment.cc:12-23 | the checksum first, then the header, whose own verdict is not looked at |
| Datagrams.SerializeSegment | libsponge/tcp_helpers/tcp_segment.cc:30-45 | header with the checksum over header and payload, then payload, or an exception |
| Datagrams.VerdictOnOurs | libsponge/tcp_helpers/ipv4_header.cc:23-75 | the header parser accepts a serialized datagram if and only if it fits in 65535 bytes, and otherwise calls it truncated |
| Datagrams.DatagramRoundTripIff | libsponge/tcp_helpers/ipv4_datagram.cc:11-41 | parsing undoes serializing if and only if header length and fragment offset fit their bits and the datagram fits in 65535 bytes or has no options |
| Datagrams.HeaderChecksumIgnored | libsponge/tcp_helpers/ipv4_datagram.cc:11-21 | a datagram is accepted whatever its header checksum, although the header parser objects to a wrong one |
| Datagrams.ParsedSendableIff | libsponge/tcp_helpers/ipv4_datagram.cc:11-41 | what parses can be serialized again if and only if its version is 4 and its header length at least 5 |
| Datagrams.UnserializableArrives | libsponge/tcp_helpers/ipv4_datagram.cc:11-21 | twenty concrete bytes that parse and cannot be serialized |
| Datagrams.ParseDatagram | libsponge/tcp_helpers/ipv4_datagram.cc:11-21 | header and payload, refused only if the payload has not the advertised length |
| Datagrams.SerializeDatagram | libsponge/tcp_helpers/ipv4_datagram.cc:23-41 | header with its checksum, then payload, or an exception |
| Adapters.WrapSerializesIff | libsponge/tcp_helpers/tcp_over_ip.cc:75-90 | the wrapped segment can be serialized if and only if, header included, it has at most 65535 bytes |
| Adapters.WireRoundTrip | libsponge/tcp_helpers/tcp_over_ip.cc:26-90 | wrapped, serialized, parsed and unwrapped at the mirrored peer, every such segment comes out with the same fields and payload; a listening peer takes it and becomes the mirrored one if and only if it is a SYN without RST |
| Adapters.WireHeader | libsponge/tcp_helpers/tcp_over_ip.cc:75-90 | the datagram that arrives names both addresses, the protocol and, if it fits 16 bits, the length |
| Adapters.PseudoChecksumCovers | libsponge/tcp_helpers/ipv4_header.cc:125-131 | for every header and all bytes, a checksum started from it is the checksum of the pseudo header of section 3.1 of RFC 793 followed by the bytes |
| Adapters.OneByteOffIsRefused | libsponge/tcp_helpers/tcp_segment.cc:12-23 | a segment under a header that differs in one byte of the pseudo header is refused for its checksum |
| Adapters.WrongHeaderIsRefused | libsponge/tcp_helpers/tcp_over_ip.cc:26-71 | a segment under a header with another protocol, or with one byte of either address changed, never comes out at any peer |
| Adapters.UnwrapFilters | libsponge/tcp_helpers/tcp_over_ip.cc:26-71 | on any datagram, a segment comes out only if it checks and belongs to the connection as it then stands, and a set-up connection takes every such segment and never changes its ends |
| Adapters.TcpOverIpv4Adapter.WrapTcpInIp | libsponge/tcp_helpers/tcp_over_ip.cc:75-90 | sets the ports and builds the datagram as specified |
| Adapters.TcpOverIpv4Adapter.UnwrapTcpInIp | libsponge/tcp_helpers/tcp_over_ip.cc:26-71 | filters, adopts a peer when listening, and returns the segment as specified |
| InterfaceRuns.StepKeeps | libsponge/network_interface.cc:32-149 | every operation, exceptions included, keeps the tables in agreement with what happened |
| InterfaceRuns.QueueConservation | libsponge/network_interface.cc:32-122 | in every run and for every next hop: each datagram submitted has been framed once or waits once; datagrams wait exactly for addresses with a request out or with a queue cut short by an exception; with a stored mapping nothing waits if and only if the queue was not cut short; the frames are exactly those the events call for |
| InterfaceRuns.OrderKeptIff | libsponge/network_interface.cc:32-122 | datagrams framed, then those waiting, are the datagrams submitted, in order, if and only if nothing was framed for the address after its queue was cut short |
| InterfaceRuns.KeysAgreeIff | libsponge/network_interface.cc:38-122 | the two pending tables have agreed on an address all along if and only if its queue was never cut short |
| InterfaceRuns.SendOutcome | libsponge/network_interface.cc:32-73 | a call throws if and only if the address is known and the datagram cannot be serialized, and then changes nothing; it overtakes others exactly when some wait for a known address |
| InterfaceRuns.FineNeverStalls | libsponge/network_interface.cc:96-121 | as long as everything submitted for an address can be serialized, its queue is not cut short |
| InterfaceRuns.StalledForGood | libsponge/network_interface.cc:101-121 | nothing ever leaves a queue that was cut short |
| InterfaceRuns.StrandingHistory | libsponge/network_interface.cc:32-121 | a run in which a reply ends in an exception, two datagrams are stranded and a third overtakes them |
| InterfaceRuns.AnnouncementEmptiesQueueIff | libsponge/network_interface.cc:96-122 | an ARP message from an address leaves nothing waiting for it if and only if everything that waits can be serialized |
| InterfaceRuns.RequestsFarApart | libsponge/network_interface.cc:48-62 | two requests for an address without an ARP message from it in between are more than 5000 ms apart |
| InterfaceRuns.FramesAreFresh | libsponge/network_interface.cc:63-72 | every IPv4 frame goes to the Ethernet address its next hop announced last, at most 30000 ms before |
| InterfaceRuns.RequestsAreNeeded | libsponge/network_interface.cc:34-62 | an address is asked for only if its last announcement is missing, zero or more than 30000 ms old |
| InterfaceRuns.RequestIsAnswered | libsponge/network_interface.cc:85-140 | a request for the interface's address teaches it who asks, sends what waits for the asker, and is answered if and only if that does not end in an exception |
| InterfaceRuns.AnswerIsLearned | libsponge/network_interface.cc:85-121 | the answer teaches the asker the Ethernet address, and what waited goes there up to the first datagram that cannot be serialized |
| InterfaceRuns.NeighbourReceives | libsponge/network_interface.cc:63-84 | a datagram sent to a known neighbour leaves in a frame from which the neighbour recovers it |
| ArpExchanges.RepliesIff | libsponge/network_interface.cc:123-139 | a frame makes the interface send an ARP reply if and only if it is addressed to the interface or to all, is a request for its address, and nothing unserializable waits for the asker under a request of our own; the reply is one, comes last and carries our two addresses and the asker's |
| ArpExchanges.FrameOutcome | libsponge/network_interface.cc:76-84 | a frame for somebody else changes nothing and delivers nothing; a datagram is delivered if and only if the frame is for us or for all and holds one that parses, and then nothing changes |
| ArpExchanges.MessageOutcome | libsponge/network_interface.cc:85-122 | any ARP message for us or for all, whatever its opcode and target, teaches its sender's address, ends a request for it and sends what waited, in order, up to the first datagram that cannot be serialized; nothing else changes |
| ArpExchanges.RepliesAreCalledFor | libsponge/network_interface.cc:76-144 | over every run the ARP replies sent are exactly those that the requests for our address call for, in order |
| ArpExchanges.SendOutcomeByHistory | libsponge/network_interface.cc:32-73 | at any moment of any run, by the history: a datagram goes out in a frame if the next hop's last announcement is usable and at most 30000 ms old; otherwise it waits, and a broadcast request goes out if and only if none went out in the last 5000 ms without an ARP message since |
| ArpExchanges.ClockAddsUp | libsponge/network_interface.cc:147-151 | over every run the clock shows the sum of all ticks, and the interface's own addresses never change |
| NetworkInterfaces.EthernetEqual | libsponge/network_interface.hh:64-70 | the loop decides equality |
| NetworkInterfaces.NetworkInterface.constructor | libsponge/network_interface.cc:23-27 | an interface with empty tables at time zero |
| NetworkInterfaces.NetworkInterface.Lookup | libsponge/network_interface.cc:153-164 | the stored address, forgotten when more than 30000 ms old |
| NetworkInterfaces.NetworkInterface.SendArp | libsponge/network_interface.cc:166-181 | broadcasts a request |
| NetworkInterfaces.NetworkInterface.SendDatagram | libsponge/network_interface.cc:32-73 | frames the datagram, or queues it and asks, or throws, as specified |
| NetworkInterfaces.NetworkInterface.Flush | libsponge/network_interface.cc:103-121 | the loop frames the queue in order and erases it, or throws at the first datagram that cannot be serialized, which stays with all behind it |
| NetworkInterfaces.NetworkInterface.RecvFrame | libsponge/network_interface.cc:76-144 | hands up a datagram or processes an ARP message, as specified, exceptions included |
| NetworkInterfaces.NetworkInterface.ProcessArp | libsponge/network_interface.cc:85-140 | learns the sender, sends what waited for it, and answers a request for this interface unless sending threw |
| NetworkInterfaces.NetworkInterface.Tick | libsponge/network_interface.cc:147-151 | moves the clock |
| Routing.PrefixMatchIff | libsponge/router.cc:82-85 | a route matches if and only if the high bits of address and prefix agree, bit by bit, and the prefix has no host bit set |
| Routing.BestIsLongest | libsponge/router.cc:41-56 | the choice is the first of the matching routes of greatest length, and there is none if and only if none matches |
| Routing.OrderIndependent | libsponge/router.cc:41-56 | without two different routes for one prefix, the choice does not depend on the order of the table |
| Routing.OrderMattersIff | libsponge/router.cc:41-56 | for every table and destination the choice is the same in every order of the table if and only if all longest matching routes are equal |
| Routing.FrontWins | libsponge/router.cc:47-53 | a route moved to the front of the table is chosen before all others of its length |
| Routing.DecideMeaning | libsponge/router.cc:37-69 | dropped if and only if no route matches or the TTL is at most 1; otherwise forwarded along the chosen route with the TTL reduced by one and nothing else changed |
| Routing.RoutedTo | libsponge/router.cc:57-80 | each interface ends up as if given, in order, exactly the datagrams whose route leads to it |
| Routing.ManyKeepThrows | libsponge/router.cc:60-69 | whether a datagram throws does not depend on what was routed before it |
| Routing.AllPassIff | libsponge/router.cc:71-80 | all datagrams are routed if and only if none of them leads to a missing interface or, unserializable, to a known neighbour |
| Routing.UnserializableStopsRouting | libsponge/router.cc:60-68 | a packet that parses and stops a router with a default route to a known neighbour |
| Routing.ForwardedOnceOrDropped | libsponge/router.cc:71-80 | as multisets of datagrams: those bound for the interfaces, each counted once, and those dropped make up those that arrived |
| Routing.GivenAreBound | libsponge/router.cc:60-69 | what an interface is given to send is, one by one and in order, what becomes of the datagrams bound for it |
| Routers.PrefixMatches | libsponge/router.cc:82-85 | the shifts decide, bit by bit, whether the high bits agree and the prefix has no host bit set |
| Routers.Router.AddInterface | libsponge/router.hh:65-68 | appends the interface and returns its index |
| Routers.Router.AddRoute | libsponge/router.cc:25-34 | appends the route |
| Routers.Router.RecvFrame | libsponge/router.hh:31-36 | a received datagram joins the interface's queue; exceptions pass through |
| Routers.Router.FindRoute | libsponge/router.cc:41-56 | the loop finds the specified route |
| Routers.Router.RouteOneDatagram | libsponge/router.cc:37-69 | one datagram is dropped, handed to its interface with its TTL reduced, or throws; no queue changes |
| Routers.Router.RouteAll | libsponge/router.cc:71-80 | ends with all queues empty if and only if no queued datagram throws; otherwise everything before the first that does has been routed, and it stays at the front of its queue with its TTL reduced |

## Left out

- Command-line programs, scripts and build files: no protocol logic.
- Sockets, file descriptors, the event loop, TUN/TAP devices, threads and the lossy adapter: system calls and scheduling; the network of `Protocol` stands for all of them.
- The UDP adapter: it carries the same segments without the IPv4 header.
- Address lookup and printing: an address is a 32-bit number, an endpoint adds a 16-bit port.
- `Buffer` and `BufferList` sharing: payloads are byte sequences.
- `to_string`, `summary`, `hexdump`, debug output: text only.
- The random initial sequence number: any value is allowed.
- The Ethernet and ARP codecs: fixed layouts, easy beside IPv4 and TCP; frames and ARP messages are datatypes, and an ARP payload that does not parse is one without a message.
- The full connection-state names (libsponge/tcp_helpers/tcp_state.cc:17-80): a table.
- Liveness: that the network delivers a segment eventually is not assumed; `RetransmissionLoop` says what its delivery achieves.
- 64-bit counters other than those of `unwrap`, `fill_window` and the reassembler's end position are unbounded integers; runs keep the next sequence number below 2^64 - 2^32, and the interface's clock does not wrap.
- Theorems.EndToEndSafety: assumes the segment lifetime described above.
- Routers.Router.RouteAll: requires prefix lengths of at most 32 in the table, beyond which the shift in the code is undefined; so do `FindRoute` and `RouteOneDatagram`.
- Routers.Router: the interfaces are values, as in the vector that holds them, updated through the specified steps; that the interface object performs those steps is proved in `NetworkInterfaces`.
