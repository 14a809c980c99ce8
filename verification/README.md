# A verified model of a user-space TCP/IP stack

The stack carries a byte stream between two applications over a network that may lose, repeat, delay and reorder
segments. This project models its data path and proves what the stack is for.

Each class of the stack is a Dafny class with the same fields, changed in place by methods. `Model()` gives the
object's abstract value, and every method is proved to take that value to a function of the old one. The laws are
proved about those functions, over single calls, whole runs of one object, and whole runs of two endpoints joined by a
network.

| part | modules |
|---|---|
| byte streams, sequence numbers | `ByteStreams`, `WrappingIntegers`, `Integers` |
| reassembly | `Reassembly` (a map from index to byte), `StoreLists` (the interval list), `StreamReassemblers` (the class), `ReassemblyLaws` |
| TCP sender | `Senders` (value), `TcpSenders` (classes), `SenderLaws` |
| TCP receiver | `Receivers` (value), `TcpReceivers` (class) |
| TCP connection | `Connections` (value), `TcpConnections` (class), `ConnectionLaws`, `CallLaws`, `EmissionLaws`, `ReplyLaws`, `TimeoutLaws`, `TcpStates`, `ClosingLaws` |
| two endpoints and a network | `Networks`, `Directions`, `NetworkLaws`, `AcknowledgementLaws`, `CompletionLaws`, `ProgressLaws`, `WindowLaws`; single runs: `PrematureRuns`, `GapRuns`, `WindowRuns` |
| wire format | `Parsers`, `Checksums`, `TcpSegments`, `TcpWire`, `Ipv4Wire`, `WireLayouts`, `TcpOverIp` |
| Ethernet interface | `ArpWire`, `Interfaces` (value), `NetworkInterfaces` (class), `InterfaceLaws`, `RequestLaws`, `FrameLaws`, `ArpExchanges` |

Main results:

- **End-to-end safety** (`NetworkLaws.PrefixSafety`): in every reachable state of two full endpoints, in both
  directions at once, what one application can read is a prefix of what the other wrote.
- **Flow control** (`NetworkLaws.FlowControl`): whatever was ever sent still fits the window of the peer's store, from the
  first unwritten index up to the capacity, whenever it arrives. So the bound the reassembler needs of its caller always
  holds between two endpoints. The window a peer advertises is smaller, and `WindowLaws` says exactly when it is kept.
- **Possible progress** (`ProgressLaws.ProgressIsPossible`): whatever happened before, four more events, of which two are
  deliveries, get something more acknowledged.
- **Acknowledgement** (`AcknowledgementLaws`, `CompletionLaws`): in every run where no empty segment announces the end
  too early, what is acknowledged was delivered, the acknowledgement never decreases, and a stream has ended exactly when
  its FIN was seen and all of it was delivered. Two whole runs show that the condition is needed
  (`OvertakingFinLosesData`, `StaleAckEndsStream`), and `NextHonest` that it is exact at every step.
- **Reassembly** (`StreamReassemblers.StreamReassembler.PushSubstring` with `ReassemblyLaws`): the interval list edited
  in place refines a plain set of known indices; delivery is greedy, so arrival order does not matter to what is
  delivered. It can matter to the end of the stream, and the exact condition is proved (`EndedExactly`).
- **Timeouts** (`TimeoutLaws.AbortBound`): giving up takes nine retransmissions in a row, and 511 initial timeouts since
  the running timer was last without backoff.
- **Closing** (`ClosingLaws`, `CompletionLaws.CloseIsDelivered`): the counters and the flags tell the same state exactly
  when nothing was written after the FIN; the state only moves forward; what is over stays over, and without a reset
  everything written has then been delivered to the peer.
- **Calls** (`CallLaws`, `EmissionLaws`, `ReplyLaws`): whatever call is made, nothing waiting or new is dropped,
  repeated or reordered on the way out, and it acknowledges and offers what the receiver has then; a window is used as
  soon as it is heard of; an open endpoint is silent exactly on an empty, plausible segment inside its window; and both
  streams fail exactly when the connection is reset.
- **Wire format** (`TcpOverIp.FullStackRoundTrip`, `TcpOverIp.WrappedChecks`, `WireLayouts`): a segment survives
  wrapping, serializing, parsing and unwrapping, its bytes are laid out and covered by the checksum as the standards
  say, and nothing with a wrong checksum is handed up.
- **ARP** (`InterfaceLaws`, `FrameLaws`, `ArpExchanges`): datagrams are neither lost nor duplicated, go to the latest
  address learned within 30 seconds, and leave in order unless a request upsets it; every request heard for the
  interface's own address is answered once, and nothing else is.

Where the code and its documentation disagree, the model follows the code, and lemmas say when it matters:

- `unwrap` adds in 64 bits and misses the nearest position near 2^64 (`Unwrap64Nearest` gives the exact condition).
- An empty FIN that overtakes data is acknowledged too early; an empty segment landing on a gap, and a final piece cut by
  the window, end the stream early (`EndExactness` gives the exact condition, `ClippedEndIsEarly` the third case). A
  final piece that brings nothing new is dropped without ending the stream (`EndedExactly`, `EndDependsOnOrder`).
- The capacity is documented to bound the bytes waiting in the output and in the store together. It bounds each alone;
  `JointCapacity` gives the exact condition for both after a push, `CapacityExceeded` an instance.
- A stale acknowledgement overwrites the window before its number is looked at, so the sender can go past the window its
  peer advertises (`NextWithin` gives the exact condition, `StaleWindowOverrun` a run).
- The header parsers' verdicts are ignored by their callers: a TCP data offset below 5, another IP version or a wrong IP
  header checksum can be accepted (`SegmentAcceptance`, `ShortOffsetAccepted`, `DatagramAcceptance`,
  `WrongVersionAccepted`).
- The checksum field checks even when the 32-bit sum overflows (`FilledFieldChecks`). Only the sum itself is then no
  longer the exact ones' complement sum (`ChecksumExactly`).
- An ARP request teaches an address but does not release what waits for it (`CalmStep`, `RequestOvertakes`).
- The scan of ARP requests stops at the first one on record, so after 5 seconds without an answer every datagram sends
  another request (`AsksTooSoon` gives the exact condition, `RequestsRepeat` an instance).

Modelling decisions:

- Positions, byte counters, clocks and the retransmission count are unbounded. `Unwrap64Nearest` and `WrapsAgree` show
  that the 64-bit code agrees with the unbounded one below 2^64 - 2^32. The timeout doubles in 64 bits, the advertised
  window is cut to 16 bits, and the IPv4 length and payload length wrap in 16 bits.
- `SenderRep.log` records every segment made by filling the window. It is used by the laws only.
- A pushed piece must start below the first unwritten index plus the capacity, and the capacity must be positive. The
  unsigned subtraction that trims the store needs both (libsponge/stream_reassembler.cc:119).
- Erasing a list element and stepping the iterator back means: erase at `i`, do not advance.
- Comparisons that read through an end iterator (libsponge/network_interface.cc:40,44,47) are modelled as found or not
  found.
- Exceptions become `None`; `NetworkInterface.SendDatagram` requires a datagram that can be serialized.
- Addresses are pairs of an IP number and a port. The initial sequence number is arbitrary.

## Model

| member | source | states |
|---|---|---|
| NetworkLaws.PrefixSafety | libsponge/tcp_connection.cc:26-104 | in every run of two endpoints over a lossy, duplicating, reordering network, with fewer than 2^31 - 2 bytes a side, each inbound stream is a prefix of what the peer's application wrote |
| NetworkLaws.RunSafe | libsponge/tcp_connection.cc:26-152 | every reachable state keeps both directions' invariants: in transit are only logged or empty segments and truthful acknowledgements, and nothing is sent past the window of the peer's store |
| NetworkLaws.NextSafe | libsponge/tcp_connection.cc:26-104 | any one call on either endpoint, with any segment in transit however old, keeps both directions safe |
| NetworkLaws.InitialSafe | libsponge/tcp_connection.hh:12-30 | two fresh endpoints with any sequence numbers and timeouts are safe |
| NetworkLaws.FlowControl | libsponge/tcp_sender.cc:33-51 | whatever was ever sent meets the receiver's precondition and fits the window of its store, up to the first unwritten index plus the capacity, whole and at any later time, stale windows notwithstanding |
| WindowLaws.NextWithin | libsponge/tcp_sender.cc:82-118 | one event keeps the sender within the advertised edge if and only if it is not an acknowledgement below the acknowledged position whose window, counted from there, reaches past the edge |
| WindowLaws.AdvertisedWindow | libsponge/tcp_sender.cc:40-51 | in every run without such an acknowledgement, nothing is sent past 1 + bytes read by the peer + its capacity, but for one position that probes a closed window |
| WindowRuns.StaleWindowOverrun | libsponge/tcp_sender.cc:82-90 | nine events from fresh endpoints: the SYN+ACK arrives a second time, and the sender goes a thousand positions past the advertised edge |
| NetworkLaws.Emissions | libsponge/tcp_connection.cc:125-152 | each call puts out only logged or empty segments, stamped with the receiver's current acknowledgement and window |
| Directions.AckKeeps | libsponge/tcp_sender.cc:82-118 | any acknowledgement in transit, even one that overwrites the window before its number is checked, keeps flow control and the queue invariants |
| Directions.SegmentKeeps | libsponge/tcp_receiver.cc:13-54 | any segment in transit keeps the receiver's bytes those of the sender's stream |
| Directions.Located | libsponge/tcp_receiver.cc:29-33 | the receiver's 32-bit arithmetic recovers the exact stream index of every logged segment's payload |
| Directions.InTransitFits | libsponge/stream_reassembler.cc:115-124 | a segment in transit starts inside, and ends within, the store's window |
| Directions.EmittedIsTruthful | libsponge/tcp_connection.cc:125-131 | a stamped acknowledgement claims no more than the receiver has, and its window is at most the capacity |
| AcknowledgementLaws.AcknowledgedIsDelivered | libsponge/tcp_receiver.cc:57-65 | in every run without a premature empty segment, acknowledged bytes are delivered, an ended stream is complete, and the acknowledgement is 1 + bytes delivered, + 1 exactly when FIN was seen and all is delivered |
| AcknowledgementLaws.AckIsExact | libsponge/tcp_receiver.cc:57-65 | the acknowledgement is exact if and only if it is not the case that FIN was seen, nothing is stored and the last byte is unknown |
| AcknowledgementLaws.SegmentHonest | libsponge/tcp_receiver.cc:13-54 | a segment leaves the end and every acknowledgement honest if and only if it is not premature; if it is not, the acknowledged position does not decrease |
| AcknowledgementLaws.NextHonest | libsponge/tcp_connection.cc:26-56 | one event on either endpoint keeps everything honest if and only if it does not deliver a premature segment without RST |
| AcknowledgementLaws.RunHonest | libsponge/tcp_connection.cc:26-56 | every run without a premature segment keeps every acknowledgement in transit honest |
| PrematureRuns.OvertakingFinLosesData | libsponge/stream_reassembler.cc:30-38 | seven events from fresh endpoints: a FIN overtakes one byte and is acknowledged although nothing was delivered, and the sender drops the byte from its queue, never to send it again |
| GapRuns.StaleAckEndsStream | libsponge/stream_reassembler.cc:30-38 | ten events from fresh endpoints: a stale bare acknowledgement lands on the gap while the final bytes are stored, and the stream ends with nothing delivered |
| CompletionLaws.AckNeverDecreases | libsponge/tcp_receiver.cc:57-65 | between any state of a run without a premature segment and its end, the acknowledged position does not decrease |
| CompletionLaws.CompleteEnds | libsponge/stream_reassembler.cc:149-151 | in every run, once the FIN was seen and all bytes sent are delivered, the stream has ended, and none of the FIN's bytes is known before the FIN |
| CompletionLaws.EndedIffComplete | libsponge/stream_reassembler.cc:149-151 | in every run without a premature segment, the stream has ended if and only if the FIN was seen and all bytes sent are delivered |
| CompletionLaws.CloseIsDelivered | libsponge/tcp_connection.cc:58-71 | in every run, an endpoint that is over without a reset, nothing written after its FIN, has had every byte it wrote delivered to its peer |
| CompletionLaws.ReceiverNamesInRuns | libsponge/tcp_helpers/tcp_state.cc:82-92 | in every run without a premature segment, the receiver's name is FIN_RECV if and only if the FIN was seen and all bytes sent are delivered, SYN_RECV from the SYN until then, LISTEN before the SYN, ERROR exactly on an error |
| ProgressLaws.Advances | libsponge/tcp_receiver.cc:13-65 | with room in the output, the first unacknowledged segment takes the receiver beyond what was acknowledged |
| ProgressLaws.ProgressIsPossible | libsponge/tcp_sender.cc:82-135 | from every state of a run without a premature segment, with something in flight, both sides open and fewer than eight retransmissions, a read by the peer, one timeout, the resent segment and its answer raise the acknowledged position |
| ReassemblyLaws.PushKnows | libsponge/stream_reassembler.cc:40-151 | after a push, an index is written or stored if and only if it was before or lies in the pushed range below the old window's end |
| ReassemblyLaws.PushAgrees | libsponge/stream_reassembler.cc:40-151 | pushing slices of one stream stores and writes only that stream's bytes at their own indices |
| ReassemblyLaws.PushGreedy | libsponge/stream_reassembler.cc:126-147 | a push that reaches the store leaves the output full or the next byte missing |
| ReassemblyLaws.PushKeeps | libsponge/stream_reassembler.cc:27-152 | a push keeps the window bounds, never loses a written byte and never takes back the end |
| ReassemblyLaws.KnowledgeDecides | libsponge/stream_reassembler.cc:97-147 | two greedy reassemblers of one stream that know the same indices have written and stored the same |
| ReassemblyLaws.OrderIndependence | libsponge/stream_reassembler.cc:97-147 | any two arrival sequences of unclipped pieces that cover the same indices give the same output bytes and the same store |
| ReassemblyLaws.PermutationIndependence | libsponge/stream_reassembler.cc:97-147 | in particular any permutation of the same pieces |
| ReassemblyLaws.EndExactness | libsponge/stream_reassembler.cc:30-38 | a push keeps the end honest if and only if it is neither an empty piece announcing the end before the last byte is known or landing on the gap, nor a final piece reaching past the window |
| ReassemblyLaws.ClippedEndIsEarly | libsponge/stream_reassembler.cc:115-151 | any stream larger than the capacity, pushed whole with its end, ends the output with its tail cut off |
| ReassemblyLaws.EndedExactly | libsponge/stream_reassembler.cc:30-151 | a push keeps "ended exactly when announced and complete" if and only if it is not premature, not clipped and not a final piece that brings nothing new |
| ReassemblyLaws.EndIndependence | libsponge/stream_reassembler.cc:30-151 | any two orders of the same pieces in which no piece makes the end wrong also agree on whether the output has ended |
| ReassemblyLaws.EndDependsOnOrder | libsponge/stream_reassembler.cc:44-45 | for any stream of two bytes or more that fits: its last byte, announced as last, ends the output before the whole stream arrives and does nothing after it |
| ReassemblyLaws.PushHeld | libsponge/stream_reassembler.cc:27-152 | a push adds to the bytes held exactly the indices of the piece that are in the window and not stored; delivery only moves them |
| ReassemblyLaws.JointCapacity | libsponge/stream_reassembler.cc:115-124 | after a push the bytes in output and store together fit the capacity if and only if what is new in the window fits beside what was held |
| ReassemblyLaws.CapacityExceeded | libsponge/stream_reassembler.cc:115-124 | for any capacity of at least 2: fill the output unread, push one byte past the gap, and one byte more than the capacity is held |
| StoreLists.InsertShaped | libsponge/stream_reassembler.cc:52-102 | merging keeps the list sorted, entries non-empty, and a missing index between any two |
| StoreLists.InsertIsOverlay | libsponge/stream_reassembler.cc:52-102 | the merged list holds exactly the old and the new indices; where both have a byte, the stored one stays exactly when every index from the start of the new data up to it was stored |
| StoreLists.TrimIsClip | libsponge/stream_reassembler.cc:105-124 | the two trims leave exactly the bytes inside the window and keep the shape |
| StoreLists.TrimNeedsWindow | libsponge/stream_reassembler.cc:115-124 | with its 64-bit subtraction, the back trim of an entry that reaches the window's end leaves bounds that match its bytes if and only if the entry starts below that end |
| StoreLists.FrontIsRun | libsponge/stream_reassembler.cc:126-144 | the first entry, if it starts at the window, is the whole contiguous run there; otherwise the next byte is missing |
| StoreLists.DropIsClip | libsponge/stream_reassembler.cc:126-144 | taking bytes off the front entry leaves exactly the bytes past them |
| StoreLists.TotalIsSize | libsponge/stream_reassembler.cc:155-156 | the sum of the entries' sizes is the number of distinct stored indices |
| Reassembly.StoreFits | libsponge/stream_reassembler.cc:115-124 | a store inside the window holds at most capacity bytes |
| StreamReassemblers.StreamReassembler.PushSubstring | libsponge/stream_reassembler.cc:27-152 | the list edited in place and the output take the specified map-and-stream step; shape, byte count and the first index are kept in agreement |
| StreamReassemblers.StreamReassembler.StoreAndFlush | libsponge/stream_reassembler.cc:48-151 | a new non-empty piece is absorbed exactly as the map specification says |
| StreamReassemblers.StreamReassembler.Merge | libsponge/stream_reassembler.cc:48-102 | the erase-while-walking loop computes the merged list and keeps the byte count |
| StreamReassemblers.StreamReassembler.Union | libsponge/stream_reassembler.cc:74-91 | the four overlap cases together give the union of two touching entries |
| StreamReassemblers.StreamReassembler.Flush | libsponge/stream_reassembler.cc:126-151 | as many leading bytes as the output has room for move to it, and the output ends exactly when the store empties after the end was announced |
| StreamReassemblers.StreamReassembler.ModelWf | libsponge/stream_reassembler.cc:52-147 | every stored index lies in the window and the counter equals the number of stored indices |
| StreamReassemblers.StreamReassembler.UnassembledBytes | libsponge/stream_reassembler.cc:155-156 | the count is the number of distinct stored indices, at most the capacity |
| StreamReassemblers.StreamReassembler.Empty | libsponge/stream_reassembler.cc:158-159 | empty means no index is stored |
| WrappingIntegers.Unwrap64Nearest | libsponge/wrapping_integers.cc:34-51 | unwrap returns the nearest 64-bit position of that name if and only if the name lies closer behind the checkpoint than ahead or the sum ahead fits 64 bits; it agrees with the unbounded form for checkpoints up to 2^64 - 2^32 |
| WrappingIntegers.Unwrap64Overflows | libsponge/wrapping_integers.cc:34-51 | at checkpoint 2^64 - 1 the name 0 is taken for position 0, which is not the nearest |
| WrappingIntegers.UnwrapIsNearest | libsponge/wrapping_integers.cc:34-51 | the position chosen wraps to the name given and none of that name is nearer |
| WrappingIntegers.RoundTrip | libsponge/wrapping_integers.cc:16-51 | exactly which positions survive wrap then unwrap: those above checkpoint - 2^31 and at most checkpoint + 2^31, and small ones with no position below |
| WrappingIntegers.WrapsAgree | libsponge/wrapping_integers.cc:16-22 | 64-bit overflow in wrap does not show in 32 bits |
| SenderLaws.FillWindowInv | libsponge/tcp_sender.cc:30-77 | filling keeps all invariants: segments tile the sequence space, the queue is the log's tail, the timer runs exactly while something is unacknowledged |
| SenderLaws.FillWindowDone | libsponge/tcp_sender.cc:30-77 | filling stops only with FIN sent, the window full, or an open stream with nothing buffered |
| SenderLaws.FillWindowFrame | libsponge/tcp_sender.cc:30-77 | filling only appends, never exceeds max(1, window) in flight by new segments, and does nothing after FIN |
| SenderLaws.PopFrom | libsponge/tcp_sender.cc:101-110 | the pop loop's 32-bit comparisons leave exactly the log's tail from the first segment ending after the acknowledgement |
| SenderLaws.AckPopsExactly | libsponge/tcp_sender.cc:97-110 | a queued segment stays if and only if it ends after the acknowledged position |
| SenderLaws.QueueEmptyIffIdle | libsponge/tcp_sender.cc:26-28 | the retransmission queue is empty if and only if nothing is in flight |
| SenderLaws.AckReceivedInv | libsponge/tcp_sender.cc:82-118 | any acknowledgement number and window, valid or not, keeps every sender invariant |
| SenderLaws.TickInv | libsponge/tcp_sender.cc:121-135 | a tick of any length keeps every sender invariant, the timeout being the initial one doubled once per retransmission |
| SenderLaws.Conservation | libsponge/tcp_sender.cc:57-69 | first transmissions followed by what is buffered are all the bytes written |
| SenderLaws.PayloadsUpTo | libsponge/tcp_sender.cc:57-69 | the first segments' payloads are the stream up to the position they reach, so a segment at position a carries the stream from max(a, 1) - 1 |
| SenderLaws.FinPosition | libsponge/tcp_sender.cc:61-65 | FIN is on the last segment alone, at the position after the last byte taken from the stream |
| SenderLaws.RetransmissionRepeats | libsponge/tcp_sender.cc:121-135 | a timeout resends exactly the logged segment holding the first unacknowledged position, and nothing else is sent by a tick |
| SenderLaws.AckUsesWindow | libsponge/tcp_sender.cc:82-118 | an acknowledgement between what is acknowledged and what is sent, a repeated one included, becomes the acknowledged position, its window is stored, and what it has room for is sent: afterwards the FIN is out, the window of at least one is in flight, or nothing is buffered |
| SenderLaws.NewAckRestarts | libsponge/tcp_sender.cc:97-117 | a new acknowledgement ends the backoff, and the timer runs from now exactly when something stays queued |
| SenderLaws.FullSegments | libsponge/tcp_sender.cc:30-77 | each filling makes segments of exactly 1000 bytes, but for the last, which may be shorter |
| TcpSenders.TcpSender.FillWindow | libsponge/tcp_sender.cc:30-77 | the recursive filler ends, in the state the window specification says |
| TcpSenders.TcpSender.ChoosePayload | libsponge/tcp_sender.cc:40-55 | the payload size is the least of the room left in the window, the bytes buffered and the maximum |
| TcpSenders.TcpSender.PopAcknowledged | libsponge/tcp_sender.cc:101-110 | the pop loop leaves the specified rest of the queue |
| TcpSenders.TcpSender.AckReceived | libsponge/tcp_sender.cc:82-118 | all four cases of an acknowledgement, the window stored first, with the verdict returned |
| TcpSenders.TcpSender.Tick | libsponge/tcp_sender.cc:121-135 | retransmission and backoff on expiry; the front is read only when the queue is not empty |
| TcpSenders.TcpSender.SendEmptySegment | libsponge/tcp_sender.cc:141-144 | an empty segment with the next sequence number is queued and nothing else changes |
| TcpReceivers.TcpReceiver.SegmentReceived | libsponge/tcp_receiver.cc:13-54 | the receiver takes the specified step, the verdict says whether the segment overlapped the window |
| TcpReceivers.TcpReceiver.Ackno | libsponge/tcp_receiver.cc:57-65 | the name of the first position not yet had, or none before the SYN |
| ConnectionLaws.ApplyInv | libsponge/tcp_connection.cc:26-104 | every call, with any segment from anyone, keeps the sender's invariants |
| ConnectionLaws.ApplyStep | libsponge/tcp_connection.cc:26-104 | every call only extends the log and the stream, sends nothing after FIN, and moves the acknowledged position only to what an acknowledgement says |
| CallLaws.SegmentUsesWindow | libsponge/tcp_connection.cc:26-56 | the same of a whole endpoint and any segment it takes; without an acknowledgement the window is filled as well |
| CallLaws.LocalCallFills | libsponge/tcp_connection.cc:73-104 | connecting, writing and ending the input leave nothing unsent that could be sent |
| CallLaws.WriteAccepts | libsponge/tcp_connection.cc:73-78 | a write adds to the stream the longest prefix there is room for, and no other call adds anything |
| CallLaws.NewAckTimerRestarts | libsponge/tcp_sender.cc:97-117 | whatever segment raises the acknowledged position leaves no retransmissions counted, the initial timeout, and a timer that runs from now if something is unacknowledged |
| CallLaws.ResetMeansError | libsponge/tcp_connection.cc:26-93 | in every run from a fresh endpoint, with any segments from anyone, at every state: reset if and only if the outbound stream is in error, and if and only if the inbound one is |
| CallLaws.ResetExactly | libsponge/tcp_connection.cc:81-93 | a call resets the connection if and only if it takes a segment with RST or is a tick that leaves more than 8 retransmissions |
| CallLaws.ResetIsSent | libsponge/tcp_connection.cc:81-93 | a tick that leaves more than 8 retransmissions puts out exactly one segment with RST, the first; no other call puts one out |
| EmissionLaws.SendsExactly | libsponge/tcp_connection.cc:26-152 | whatever call is made, what was waiting and what is new goes out once each, in order, headers and payloads unchanged but for acknowledgement, window and RST, or waits on when a segment needs no reply; only an expired timer repeats a segment, and an empty one goes out only when nothing else does |
| ReplyLaws.EverythingTells | libsponge/tcp_connection.cc:125-140 | every segment any call puts out acknowledges 1 + bytes delivered, + 1 for a FIN seen with nothing stored, and offers the space left in the inbound stream cut to 16 bits, both as they are after the call; before the SYN it acknowledges nothing |
| ReplyLaws.EmptyNumbers | libsponge/tcp_sender.cc:141-144 | whatever call is made, a segment it puts out that occupies no sequence number carries the number of the next position to be sent |
| ReplyLaws.VerdictMeans | libsponge/tcp_receiver.cc:13-54 | the receiver's verdict: before the SYN, whether the segment has a SYN or a FIN; afterwards, whether the segment, one number at least, overlaps the space left, one at least, from the position expected next |
| ReplyLaws.AnswersExactly | libsponge/tcp_connection.cc:39-55 | once open, a segment without RST is left unanswered if and only if it is empty, inside the window and acknowledges nothing unsent |
| ReplyLaws.SilentBeforeSyn | libsponge/tcp_connection.cc:39 | before the SYN a segment that occupies no number changes nothing but the time of the last segment |
| TcpConnections.TcpConnection.SegmentReceived | libsponge/tcp_connection.cc:26-56 | the whole connection takes the specified step, through reset, early return, linger, acknowledgement, delivery and reply |
| TcpConnections.TcpConnection.SegmentOut | libsponge/tcp_connection.cc:133-140 | the loop moves every queued segment out, in order, each stamped with the receiver's state |
| TcpConnections.TcpConnection.SendReset | libsponge/tcp_connection.cc:142-152 | exactly one segment, the first queued or an empty one, goes out with RST |
| TcpConnections.TcpConnection.Tick | libsponge/tcp_connection.cc:81-93 | time passes for sender and connection, and past the retransmission limit both streams fail and a reset goes out |
| TcpConnections.TcpConnection.Write | libsponge/tcp_connection.cc:73-78 | as much as fits is written and sent as far as the window allows; the count accepted is returned |
| TcpConnections.TcpConnection.EndInputStream | libsponge/tcp_connection.cc:95-99 | the input ends and the window is filled |
| TcpConnections.TcpConnection.Connect | libsponge/tcp_connection.cc:101-104 | the window is filled, which sends the SYN of a fresh connection |
| TimeoutLaws.AbortBound | libsponge/tcp_connection.cc:81-93 | for every sequence of calls, a tick resets a live connection only on the ninth retransmission in a row, at least 511 initial timeouts after the start of the timer in the last state without backoff, in which it was running, with nothing acknowledged since |
| TimeoutLaws.Backoff | libsponge/tcp_sender.cc:124-133 | after k retransmissions in a row the timer restarted at least 2^k - 1 initial timeouts after its start in the last state without backoff, in which it was running |
| TimeoutLaws.ExactRto | libsponge/tcp_sender.hh:26-42 | up to nine retransmissions, the 64-bit timeout is exactly the initial one times 2^k |
| TimeoutLaws.ApplyTimer | libsponge/tcp_sender.cc:71-135 | every call leaves no backoff, leaves the timer be, or backs off once after a full timeout |
| TimeoutLaws.TraceEndpoint | libsponge/tcp_sender.cc:30-135 | in every run, with any segments from anyone, all sender invariants hold at every method boundary and each call takes one timer step |
| TimeoutLaws.ApplyEndpoint | libsponge/tcp_connection.cc:26-104 | every call keeps both clocks together and a live connection within its retransmission limit |
| ClosingLaws.SummaryMatchesFlags | libsponge/tcp_helpers/tcp_state.cc:94-110 | once the SYN is acknowledged, the counters tell the same state as the flags if and only if nothing was written after the FIN |
| ClosingLaws.SummaryBeforeAck | libsponge/tcp_helpers/tcp_state.cc:94-110 | before that they always agree |
| ClosingLaws.LateWrite | libsponge/tcp_connection.cc:73-78 | a write after the FIN upsets that agreement if and only if a byte is accepted |
| ClosingLaws.StateProgress | libsponge/tcp_helpers/tcp_state.cc:94-110 | no call moves the sender's state backward, unless the application writes after ending its input |
| ClosingLaws.ReceiverProgress | libsponge/tcp_helpers/tcp_state.cc:82-92 | no call, with any segment from anyone, moves the receiver's state backward |
| ClosingLaws.RunProgress | libsponge/tcp_helpers/tcp_state.cc:94-110 | in every run without writes after the end of input, the sender's state only moves forward while the stream has no error |
| ClosingLaws.OrderlyRun | libsponge/tcp_connection.cc:58-71 | in every such run the counters tell the flags' state, and being over without a reset means everything written + 2 is sent and acknowledged and the inbound stream has ended |
| ClosingLaws.CleanClose | libsponge/tcp_connection.cc:58-71 | over without a reset means everything sent, bytes written + 2, is acknowledged and the inbound stream has ended |
| ClosingLaws.OverStaysOver | libsponge/tcp_connection.cc:58-104 | no tick, write, read or end of input makes a finished connection active |
| ClosingLaws.OverForGood | libsponge/tcp_connection.cc:58-104 | nor does any number of them |
| ClosingLaws.SegmentRevives | libsponge/tcp_connection.cc:26-71 | a segment makes a finished connection active again if and only if it lingers, the segment is no reset and the timeout is not zero |
| ClosingLaws.LingerTime | libsponge/tcp_connection.cc:58-71 | in every run, a finished endpoint that lingers is active if and only if fewer than ten initial timeouts have passed since the last segment came |
| ClosingLaws.LingersUnlessFirst | libsponge/tcp_connection.cc:43 | in every run, the endpoint lingers unless some segment it took came after its inbound stream had ended and before its own FIN |
| ClosingLaws.ListensUntilSyn | libsponge/tcp_receiver.cc:13-28 | in every run, the receiver has a sequence number to acknowledge if and only if a SYN without RST has come |
| ClosingLaws.ReceiverNames | libsponge/tcp_helpers/tcp_state.cc:82-92 | each name, if and only if: in error; not, and no SYN yet; SYN seen and not ended; ended |
| ByteStreams.ByteStream.Write | libsponge/byte_stream.cc:17-24 | the longest prefix that fits is appended, its length returned |
| ByteStreams.ByteStream.PeekOutput | libsponge/byte_stream.cc:27-33 | the first bytes not yet read, as many as asked and available |
| ByteStreams.ByteStream.PopOutput | libsponge/byte_stream.cc:36-43 | that many bytes are consumed and the history of written bytes is kept |
| ByteStreams.ByteStream.Read | libsponge/byte_stream.cc:48-55 | peek and pop together |
| Checksums.InternetChecksum.Add | libsponge/util/util.cc:89-98 | the 32-bit running sum of 16-bit words, the parity carried over between calls |
| Checksums.InternetChecksum.Value | libsponge/util/util.cc:100-108 | the folding loop ends and leaves the complement of the ones' complement residue |
| Checksums.SplitInvariance | libsponge/util/util.cc:89-98 | splitting the data over several calls, even at odd points, does not change the sum |
| Checksums.FilledFieldChecks | libsponge/tcp_helpers/tcp_segment.cc:30-38 | the value placed in a zeroed even-offset field makes recomputation give 0, for data of any length and any initial sum |
| Checksums.WrapKeepsResidue | libsponge/util/util.cc:95 | a sum wrapped to 32 bits keeps its ones' complement residue if and only if no carry was lost, or a multiple of 0xffff carries with something left |
| Checksums.ChecksumExactly | libsponge/util/util.cc:89-108 | for data of any length, the checksum is the exact ones' complement sum if and only if that holds of the sum of its words |
| Checksums.ShortDataExact | libsponge/util/util.cc:89-108 | on at most 65535 bytes the checksum is the exact ones' complement of the sum of words |
| Parsers.NetParser.ParseInt | libsponge/util/parser.cc:26-43 | the loop yields the big-endian integer and consumes it, or yields 0 and records the error |
| Parsers.NetParser.RemovePrefix | libsponge/util/parser.cc:45-51 | the prefix is dropped, or the error recorded and nothing dropped |
| Parsers.UnparseInt | libsponge/util/parser.cc:53-60 | the loop appends the big-endian bytes |
| Parsers.BytesRoundTrip | libsponge/util/parser.cc:26-60 | reading back n written bytes gives the value modulo 256^n |
| Parsers.IntRoundTrip | libsponge/util/parser.cc:26-60 | writing back what was read gives the same bytes |
| Parsers.ParseBack | libsponge/util/parser.cc:26-60 | a value that fits parses back and leaves what followed it |
| TcpWire.ReadTcpHeader | libsponge/tcp_helpers/tcp_header.cc:17-48 | every field, what is left and the verdict, also on short input |
| TcpWire.WriteTcpHeader | libsponge/tcp_helpers/tcp_header.cc:51-78 | the header's bytes padded to its advertised size, or a refusal when that is below 20 |
| TcpWire.ReadSegment | libsponge/tcp_helpers/tcp_segment.cc:12-23 | checksum first, then header and payload |
| TcpWire.WriteSegment | libsponge/tcp_helpers/tcp_segment.cc:30-45 | the checksum over header and payload in two calls equals the one over the whole segment |
| TcpWire.TcpHeaderRoundTrip | libsponge/tcp_helpers/tcp_header.cc:17-78 | for data offsets 5 to 15 a serialized header parses back and leaves exactly what followed |
| TcpWire.SegmentRoundTrip | libsponge/tcp_helpers/tcp_segment.cc:12-45 | a serialized segment passes its own checksum and parses back, checksum field aside |
| TcpWire.SegmentAcceptance | libsponge/tcp_helpers/tcp_segment.cc:12-23 | exactly which buffers are accepted, data offsets below 5 included |
| TcpWire.ShortOffsetAccepted | libsponge/tcp_helpers/tcp_segment.cc:12-23 | a segment with data offset 0 is accepted |
| Ipv4Wire.ReadIpv4Header | libsponge/tcp_helpers/ipv4_header.cc:23-75 | every field, what is left and the verdict, the checks in the code's order |
| Ipv4Wire.WriteIpv4Header | libsponge/tcp_helpers/ipv4_header.cc:78-110 | the header's bytes padded to its advertised size, or a refusal |
| Ipv4Wire.ReadDatagram | libsponge/tcp_helpers/ipv4_datagram.cc:11-21 | header, payload and verdict, the header's own verdict ignored |
| Ipv4Wire.WriteDatagram | libsponge/tcp_helpers/ipv4_datagram.cc:23-41 | refusal of a payload of the wrong size; otherwise checksum filled in and payload appended |
| Ipv4Wire.Ipv4HeaderRoundTrip | libsponge/tcp_helpers/ipv4_header.cc:23-110 | a header with a right checksum and length parses back |
| Ipv4Wire.DatagramRoundTrip | libsponge/tcp_helpers/ipv4_datagram.cc:11-41 | a serialized datagram parses back with its checksum filled in, and its header is found in order |
| Ipv4Wire.HeaderAcceptance | libsponge/tcp_helpers/ipv4_header.cc:23-75 | a header is found in order if and only if version, sizes and checksum are right |
| Ipv4Wire.DatagramAcceptance | libsponge/tcp_helpers/ipv4_datagram.cc:11-21 | exactly which buffers are accepted as datagrams, some misshapen ones included |
| Ipv4Wire.WrongVersionAccepted | libsponge/tcp_helpers/ipv4_datagram.cc:11-21 | a buffer of IP version 6 with a wrong checksum is accepted |
| WireLayouts.SegmentBytes | libsponge/tcp_helpers/tcp_header.cc:51-78 | every byte of a serialized segment: ports, numbers, data offset, the six flag bits, window, checksum, urgent pointer, zero options, payload; the checksum is taken with its own field zero |
| WireLayouts.DatagramOnWire | libsponge/tcp_helpers/ipv4_header.cc:78-110 | every byte of a serialized datagram likewise, the checksum over the header alone |
| TcpOverIp.FullStackRoundTrip | libsponge/tcp_helpers/tcp_over_ip.cc:26-90 | for data offsets 5 to 15 and a total length that fits, the mirrored peer gets the same header fields, ports filled in, and payload; a listener gets a SYN and becomes the mirrored peer |
| TcpOverIp.OnePeer | libsponge/tcp_helpers/tcp_over_ip.cc:26-71 | over any arrivals a connected adapter keeps its addresses, a listener hands up nothing before the SYN that connects it, and everything handed up came in a datagram between its two IP addresses, to and from its two ports |
| TcpOverIp.WrappedChecks | libsponge/tcp_helpers/ipv4_header.cc:125-131 | for a sendable segment, the datagram's header field by field, and a checksum of 0 over source, destination, zero, protocol 6, length and the segment's bytes |
| TcpOverIp.CorruptDropped | libsponge/tcp_helpers/tcp_over_ip.cc:38-46 | whatever bytes arrive, a segment is handed up only out of a TCP datagram for which that sum is right, and otherwise nothing changes |
| TcpOverIp.TcpOverIpv4Adapter.WrapTcpInIp | libsponge/tcp_helpers/tcp_over_ip.cc:75-90 | ports, addresses, 16-bit length and payload of the datagram, or a refusal; the caller's segment is left with the ports set |
| TcpOverIp.TcpOverIpv4Adapter.UnwrapTcpInIp | libsponge/tcp_helpers/tcp_over_ip.cc:26-71 | the segment accepted, if any, and the addresses and listening flag afterwards |
| ArpWire.ReadArp | libsponge/tcp_helpers/arp_message.cc:9-39 | every field and the verdict; short and unsupported messages are refused |
| ArpWire.WriteArp | libsponge/tcp_helpers/arp_message.cc:47-73 | the 28 bytes of a supported message, or a refusal |
| ArpWire.ArpRoundTrip | libsponge/tcp_helpers/arp_message.cc:9-73 | a serialized message parses back |
| ArpWire.ArpLayout | libsponge/tcp_helpers/arp_message.cc:47-73 | every byte of a serialized message; exactly requests (1) and replies (2) for IPv4 over Ethernet are written |
| ArpWire.ArpAcceptance | libsponge/tcp_helpers/arp_message.cc:9-39 | a buffer is accepted if and only if it has 28 bytes and starts with the eight of a request or a reply, and at which byte each field is read |
| NetworkInterfaces.NetworkInterface.SendDatagram | libsponge/network_interface.cc:32-77 | sent at once to a fresh address, otherwise queued, with a request unless the first one on record is recent |
| NetworkInterfaces.NetworkInterface.RecvFrame | libsponge/network_interface.cc:80-144 | frames for others ignored, datagrams handed up, ARP messages learned, answered and acted on |
| NetworkInterfaces.NetworkInterface.ReleaseUnsent | libsponge/network_interface.cc:120-134 | the erase-while-walking loop sends exactly what waited for the address, in queue order, and keeps the rest in order |
| NetworkInterfaces.NetworkInterface.EraseRequests | libsponge/network_interface.cc:135-139 | exactly the requests for that address are forgotten |
| NetworkInterfaces.NetworkInterface.FindRequest | libsponge/network_interface.cc:42-44 | the scan stops at the first request on record for the address |
| InterfaceLaws.Conserved | libsponge/network_interface.cc:32-144 | in every run, each datagram given is exactly once either still queued or in the log of what was sent |
| InterfaceLaws.FramesMatch | libsponge/network_interface.cc:32-144 | in every run, the IPv4 frames ever put out are exactly the logged ones, in order, each with its datagram's bytes |
| InterfaceLaws.CacheIsLatest | libsponge/network_interface.cc:95-98 | in every run, the cache holds for each address the mapping most recently heard and when |
| InterfaceLaws.AlwaysTimely | libsponge/network_interface.cc:32-140 | in every run, every IPv4 frame goes to the address most recently learned for its hop, learned at most 30000 ms before |
| InterfaceLaws.CalmStep | libsponge/network_interface.cc:91-140 | an event leaves datagrams waiting for a known hop if and only if it is a request from a hop that has datagrams waiting |
| InterfaceLaws.FirstInFirstOut | libsponge/network_interface.cc:32-140 | in every run without such a request, a hop's datagrams leave in the order they were given |
| InterfaceLaws.OthersIgnored | libsponge/network_interface.cc:83-84 | a frame addressed neither to the interface nor to ff:ff:ff:ff:ff:ff changes nothing and hands nothing up |
| InterfaceLaws.HandsUpExactly | libsponge/network_interface.cc:83-89 | a datagram is handed up if and only if the frame is for the interface or everyone, of type 0x800, and parses to it |
| FrameLaws.AllFrames | libsponge/network_interface.cc:32-140 | in every run, the ARP replies put out are exactly one per request heard for the interface's own address, to the byte and in order; the ARP requests are exactly those on the list of questions; every frame has the interface's source address |
| FrameLaws.PromptWhenKnown | libsponge/network_interface.cc:37-75 | in every run, a datagram leaves at once, to the address last heard for its hop, if that was at most 30000 ms ago; otherwise it is queued and no IPv4 frame leaves |
| FrameLaws.PutsOut | libsponge/network_interface.cc:32-140 | exactly which frames each event adds, with their literal types, addresses and ARP bytes |
| RequestLaws.RunAccounts | libsponge/network_interface.cc:42-66 | in every run, every request put out is still on record or its address was learned since, and nothing else is on record |
| RequestLaws.RecordStep | libsponge/network_interface.cc:32-140 | a request comes on record exactly when it is put out, and goes off it exactly when a reply from its address is heard |
| RequestLaws.AsksTooSoon | libsponge/network_interface.cc:42-66 | in every run, a datagram makes the interface repeat a request at most 5000 ms old if and only if the hop is not known, the first request on record is older and a later one is not |
| RequestLaws.RequestsRepeat | libsponge/network_interface.cc:42-66 | a datagram, 5001 ms, and two more datagrams for the same hop: two identical requests go out at the same instant |
| ArpExchanges.RequestOvertakes | libsponge/network_interface.cc:97-118 | with such a request, a later datagram leaves while the earlier one stays queued |
| ArpExchanges.Resolution | libsponge/network_interface.cc:32-140 | request, answer and release between two interfaces: everything that waited for the hop, the new datagram last, is put out in order and handed up intact by the hop |

## Left out

- Sockets, file descriptors, TUN/TAP devices, the event loop, threads, applications and name lookup: input and output only.
- Printing, the random choice of the initial sequence number and reference-counted buffers.
- Liveness of a whole connection: nothing is assumed about the network delivering anything (`ProgressIsPossible` says what two deliveries achieve).
- StreamReassemblers.StreamReassembler.PushSubstring: does not model non-empty pieces that start at or past the first unwritten index plus the capacity, because the unsigned subtraction wraps there and leaves an entry whose bounds no longer match its bytes (`TrimNeedsWindow`); no endpoint of this stack causes one (`FlowControl`).
- StreamReassemblers.StreamReassembler.StoreAndFlush: the same pieces.
- TcpReceivers.TcpReceiver.SegmentReceived: does not model payloads from a foreign peer that start there.
- TcpConnections.TcpConnection.SegmentReceived: the same payloads.
- NetworkInterfaces.NetworkInterface.SendDatagram: does not model datagrams whose payload does not have the size their header says, because serializing one throws, at once or when it is released.
- Ethernet header bytes and ARP padding: a frame is its addresses, its type and its payload bytes.
- `Router`: one loop choosing the longest prefix.
- The destructor's warning text and the combined state names of libsponge/tcp_helpers/tcp_state.cc:17-74.
