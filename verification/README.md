# Sessions over a fabric of routers: a verified model

This project models, in Dafny, how the OpenZiti fabric carries a session from one router to another, and
proves what the design of it promises: what every step of the transport protocol keeps, that path
selection is optimal and its result is forwarded as selected, that set-up cleans up after itself, and
that the cost arithmetic says what it means. It is written for Dafny 4.11;
`dafny verify dfyconfig.toml` checks all of it.

| file | what it models |
|---|---|
| `Words.dfy`, `Basics.dfy`, `Sequences.dfy`, `Payloads.dfy` | machine integers and their wrap-around, small types, removal from a sequence, bytes held by payloads |
| `ReceiveBuffer.dfy`, `SendBuffer.dfy`, `Xgress.dfy` | the two buffers and the two loops of an xgress, as classes |
| `Transport.dfy`, `TransportProof.dfy` | one direction of a session over a network that loses, duplicates and reorders, as a transition system; its invariant and what follows |
| `Endpoints.dfy` | the loops of both sides, as the classes describe them, are runs of that system |
| `Stall.dfy`, `Release.dfy`, `WindowWrap.dfy` | how one lost message stops a session, when a stopped one can go on, and how a long session loses its window |
| `RetransmitQueue.dfy`, `RetransmitProtocol.dfy` | the retransmitter's intrusive list in the heap, and the interleavings of the goroutines that share a payload's counter |
| `Messages.dfy` | the wire form of payloads and acknowledgements |
| `LinkController.dfy`, `Paths.dfy`, `ShortestPath.dfy` | the link table and its adjacency index, weighted paths, Dijkstra's search |
| `Circuits.dfy`, `Forwarding.dfy` | links for a path, route messages, forward tables, and a payload that follows them |
| `SessionSetup.dfy` | one route attempt, the retry loop and its cleanups |
| `Costs.dfy`, `FailureCosts.dfy` | precedence bands, the choice among terminators, failure and dynamic costs |

## How to read it

Code that changes state is a class or a method, and its contract equates the new state with a function of
the old one (`Received`, `Acked`, `Deleted`, `Listed`, `Charged`, ...). Properties of whole runs are
lemmas about these functions or about the transition systems built on them. The main results are:

- transport: `EndToEndOrder`, `NothingMissing`, `NoLoss`, `LeavesOnlyStored`, `FlowControl`,
  `ReceiverConservation`, `OnlyThePeerStalls`, `WindowBounds`, `DuplicateNarrows`,
  `RetransmissionNarrows`, `QueueSendsIsARun`, `TransmitOneIsARun`,
  `RoundIsARun`, `OneLossStalls`, `OneLostPayloadStalls`, `ReleasedExactly`;
- retransmission: `Retransmitter.Delete` and its companions, `CounterAndPlaces`, `NoStaleEntries`,
  `NeverResentAfterAck`, `PushIsFresh`, `NoDeadlock`, `DrainEnds`;
- wire form: `AcknowledgementRoundTrip`, `PayloadRoundTrip`;
- routes: `AlwaysAgree`, `RemoveUndoesAdd`, `CheapestExactly`, `SameWeights`, `ShortestPath`,
  `TravelsToEgress`, `TravelsToIngress`, `SelectedPathCarries`, `OtherSessionsUndisturbed`;
- set-up and costs: `TableExactly`, `EndsExactly`, `UnroutesExactly`, `RoutesLeftBehind`,
  `RefusedExactly`, `AlienAnswersIgnored`, `NeverConfirmedBlocks`, `BiasedOrder`, `PrecedenceDominates`, `LedgerExactly`,
  `FailuresAddUp`, `DynamicExactly`, `RemovalRestarts`.

## Where the code does not do what one expects

All of these are theorems: that it can happen, and, where it does not always, exactly when.

- A sender that is blocked because the receiver's buffer was full learns that it has drained from one
  acknowledgement that nothing repeats. If that one is lost, a session with the default options never
  writes another byte until it is closed (`OneLossStalls`, `DefaultsAreOrdinary`, `StuckForever`).
  `DrainIsReported` says when the report is made at all, `ReleasedExactly` when a shut-out sender can go on.
- A payload is on the network before it is in the send buffer, and nothing retransmits one that waits in the
  queue. With two slots in that queue it is enough that this payload is lost and the next one arrives
  (`OneLostPayloadStalls`).
- The window can fall below its configured minimum when the 32-bit sum of window and accumulator wraps;
  with the default options 4 GB of payloads suffice (`DefaultsWrap`). `WindowBounds` says exactly when it
  happens, `FewBytesFit` up to how many bytes it cannot.
- `attendance` keeps the entries of earlier attempts, so that a router that was asked once and never
  confirms blocks every later attempt, also over paths that it is not on (`NeverConfirmedBlocks`,
  `RetryFailsNeedlessly`). `EndsExactly` says on the answers alone how set-up ends.
- When a retry finds no service, terminator, path or link, set-up returns at once, and routers that had
  confirmed keep their routes (`GivenUpLeavesRoutes`).
- An answer that comes after its attempt has ended, because another router refused it or its time was over,
  is ignored, and its router keeps the route (`LateAnswerLeavesRoute`, `UnreadAnswerLeavesRoute`).
  `RoutesLeftBehind` says exactly when routes are left that no session uses, `LeftBehindBy` on which routers.
- If one failure costs more than the maximum, the first one is charged in full, and the next one reports
  a charge of almost 2^16 (`LedgerExactly`, `FirstFailureOvercharges`).
- `leastExpensiveLink` never lowers the bound it compares with and so takes the last usable link of a list
  whose order is arbitrary: any of several parallel links may be taken (`AnyMayWin`), and it is sure to be
  a cheapest one if and only if they all cost the same (`CheapestExactly`). Optimality of paths is therefore
  stated for the weights that a run has looked up (`Observed`); `SameWeights` says when there is only one
  such weighting.
- The weighted strategy never chooses a third terminator (`WeightedChoice`), and it does not clear its
  ledger when a terminator is removed, as smart routing does (`LedgerOutlivesCost`, `RemovalRestarts`).
- Timed credits lower the failure cost but not the dynamic cost; `DynamicExactly` accounts for the
  difference (`forgiven`).

One more is a reading of the language and not a theorem: in `successWithCredit` the test `val == 0` compares
an interface that holds a `uint16` with an `int` and is never true, so that an entry of zero is never
removed. The model follows the code.

## Model

| member | source | states |
|---|---|---|
| ReceiveBuffer.LinkReceiveBuffer.ReceiveUnordered | router/xgress/link_receive_buffer.go:45-66 | Refuses exactly what is beyond every sequence seen while size exceeds the maximum; otherwise the payload is stored afterwards or was released before, and only a new one changes size and highest sequence. |
| ReceiveBuffer.LinkReceiveBuffer.PeekHead | router/xgress/link_receive_buffer.go:68-76 | Looking only at the leftmost payload finds the next expected one whenever the tree holds it. |
| ReceiveBuffer.LinkReceiveBuffer.Remove | router/xgress/link_receive_buffer.go:78-81 | Releasing the head advances the sequence by one and keeps the order invariant. |
| ReceiveBuffer.ReceivedKeeps | router/xgress/link_receive_buffer.go:45-66 | Keys stay within (sequence, maxSequence]; a payload ends up stored if and only if it is not refused, and no other payload is affected. |
| ReceiveBuffer.RemovedKeeps | router/xgress/link_receive_buffer.go:78-81 | Releasing loses nothing: what was stored or released stays so, and keys stay beyond the released sequence. |
| ReceiveBuffer.NoSelfInflictedStall | router/xgress/link_receive_buffer.go:45-76 | If the next expected payload is refused, the tree is empty. |
| ReceiveBuffer.ReceivedSize | router/xgress/link_receive_buffer.go:50-64 | Duplicates, old and refused payloads leave size alone; a new one adds its own length: size minus bytes held never changes (modulo 2^32). |
| SendBuffer.LinkSendBuffer.IsBlocked | router/xgress/link_send_buffer.go:146-176 | Blocked exactly when the window is smaller than the receiver's reported buffer or than what is buffered here. |
| SendBuffer.LinkSendBuffer.Scale | router/xgress/link_send_buffer.go:322-331 | By a factor up to 1 leaves the larger of the minimum and the product, rounded down; by a larger one the smaller of the maximum and the product. |
| SendBuffer.LinkSendBuffer.ReceiveSequence | router/xgress/link_send_buffer.go:249-285 | The full effect of one acknowledged sequence on buffer, sizes, counters and window, for known and duplicate sequences. |
| SendBuffer.LinkSendBuffer.ReceiveAcknowledgement | router/xgress/link_send_buffer.go:245-288 | Handles the sequences in order, then takes over the receiver's buffer size; marks as acked exactly the buffered payloads among them, once each even if repeated. |
| SendBuffer.LinkSendBuffer.Retransmit | router/xgress/link_send_buffer.go:295-315 | Queueing payloads for retransmission changes only counters, accumulator and window, as often as payloads are due. |
| SendBuffer.LinkSendBuffer.Round | router/xgress/link_send_buffer.go:188-224 | A payload is taken in exactly when the select offers one and the buffer was not blocked at the top of the loop or is closing, whatever the acks of the same round do; and what each choice of the select does. |
| SendBuffer.AckedAllBuffer | router/xgress/link_send_buffer.go:248-257 | Exactly the acknowledged sequences leave the buffer, whatever their order and repetitions. |
| SendBuffer.BufferedSize | router/xgress/link_send_buffer.go:217-220 | linkSendBufferSize stays the byte total of the buffer (modulo 2^32) when a new payload comes in. |
| SendBuffer.AckedSize | router/xgress/link_send_buffer.go:249-260 | linkSendBufferSize stays that total when a sequence is acknowledged, and the total does not grow. |
| SendBuffer.DuplicateNarrows | router/xgress/link_send_buffer.go:276-285 | For every state: the duplicate ack that reaches its threshold leaves the scaled window, no accumulator and no counter; any other one only counts. |
| SendBuffer.RetransmissionNarrows | router/xgress/link_send_buffer.go:305-311 | The same for the retransmission that reaches its threshold, after any number of others. |
| SendBuffer.AckedOneMore | router/xgress/link_send_buffer.go:248-286 | The sequences of an acknowledgement are handled one by one, in order, also those that are not buffered. |
| SendBuffer.AckWidens | router/xgress/link_send_buffer.go:249-275 | For every state: an acked payload leaves the buffer and its bytes go to the accumulator; the ack that reaches its threshold widens the window by the scaled accumulator up to the maximum and lowers the retransmission scale, and the accumulator stays. |
| SendBuffer.ScaledBounds | router/xgress/link_send_buffer.go:322-331 | A scaled window never exceeds the maximum, and stays at or above the minimum if and only if scaling up does not overflow to something smaller. |
| SendBuffer.GrownBounds | router/xgress/link_send_buffer.go:264-270 | A grown window never exceeds the maximum, and stays at or above the minimum if and only if the sum fits or wraps to something large enough. |
| SendBuffer.EventWindow | router/xgress/link_send_buffer.go:245-331 | The same for each single event: ack, duplicate ack, buffering, retransmission. |
| SendBuffer.WindowBounds | router/xgress/link_send_buffer.go:264-331 | Over any run the window never exceeds TxPortalMaxSize, and it is never below TxPortalMinSize if and only if no enlargement overflows to below it. |
| SendBuffer.FewBytesFit | router/xgress/link_send_buffer.go:255-270 | As long as the acknowledged bytes, scaled, and the maximum window stay below 2^32 nothing overflows, so the window stays within its bounds. |
| SendBuffer.AccumulatorBound | router/xgress/link_send_buffer.go:255-284 | The accumulator never exceeds the bytes acknowledged so far. |
| WindowWrap.DefaultsWrap | router/xgress/options.go:145-169 | With the default options, 65408 payloads of 64 KB and 224 smaller ones, each acknowledged at once, leave a window of 96 bytes. |
| WindowWrap.AfterPair | router/xgress/link_send_buffer.go:217-274 | What one payload, buffered and then acknowledged, does to accumulator, ack counter and window of an idle sender. |
| WindowWrap.LargePayloads | router/xgress/link_send_buffer.go:255-274 | The accumulator adds up over all growths, since growing does not reset it. |
| Xgress.CutsRestoreTheRead | router/xgress/xgress.go:486-511 | The MTU slices of a read concatenate back to the read. |
| Xgress.CutsAreNumbered | router/xgress/xgress.go:489-511 | They are numbered consecutively, all but the last are exactly the MTU long, and none is empty unless the read was. |
| Xgress.RxLoop.ForwardRead | router/xgress/xgress.go:486-511 | The loop forwards exactly these slices, in order, and uses up one sequence number for each. |
| Xgress.RxLoop.NextReceiveSequence | router/xgress/xgress.go:534-542 | Hands out each number once, in order. |
| Xgress.TxSide.PayloadReceived | router/xgress/xgress.go:544-560 | An ack of exactly this sequence, with the new size, is made if and only if the payload is stored or was released. |
| Xgress.TxSide.QueueSends | router/xgress/xgress.go:342-353 | Moves the contiguous run after the last released sequence to the queue, in order and unchanged, and stops only at a gap or a full queue; the rest of the buffer is untouched. |
| Xgress.TxSide.TransmitOne | router/xgress/xgress.go:403-435 | An end of session ends the loop, a session start is not written, everything else is written once; adding ^uint32(n-1) takes exactly n off the size; an empty ack with the new size goes out exactly when more than 10000 was last reported and more than half of it is gone. |
| Xgress.TxSide.SendEmptyAck | router/xgress/xgress.go:562-568 | An ack of no sequence with the present size, which is remembered. |
| Xgress.MovedNext | router/xgress/xgress.go:344-348 | Moving one more head keeps the run in order and the rest untouched. |
| Words.ComplementSubtracts | router/xgress/xgress.go:428-429 | Adding the complement of n-1 is subtraction of n modulo 2^32, also for n = 0. |
| TransportProof.StepKeeps | router/xgress/xgress.go:342-560 | Every step of every goroutine and of the network (send, deliver, duplicate, drop, retransmit, ack, release, write) keeps the transport invariant. |
| TransportProof.RunKeeps | router/xgress/xgress.go:342-560 | The invariant holds after every run. |
| TransportProof.EndToEndOrder | router/xgress/xgress.go:342-514 | For every run over a network that loses, duplicates and reorders, the bytes written to the receiver's peer are a prefix of those read from the sender's, for all options. |
| TransportProof.NothingMissing | router/xgress/xgress.go:380-515 | When every numbered payload has been handled, all that was read has been written. |
| TransportProof.NoLoss | router/xgress/link_send_buffer.go:209-224 | Every sequence accepted for sending is on its way into the send buffer, in it, or stored or released by the receiver, with its own payload. |
| TransportProof.LeavesOnlyStored | router/xgress/link_send_buffer.go:245-262 | A payload leaves the send buffer only by an ack that names it, and only when the receiver has stored or released it. |
| TransportProof.FlowControl | router/xgress/link_send_buffer.go:146-233 | linkSendBufferSize is the byte total of the buffer modulo 2^32; with sensible options and until closeWhenEmpty it is exact and at most TxPortalMaxSize + Mtu. |
| TransportProof.ReceiverConservation | router/xgress/xgress.go:342-437 | The receive buffer's size is the bytes in its tree, in txQueue and in tx's hand (modulo 2^32), in every reachable state. |
| TransportProof.OnlyThePeerStalls | router/xgress/link_receive_buffer.go:45-66 | If the next expected payload is refused, nothing is stored out of order and more than RxBufferSize bytes wait for the receiver's peer. |
| TransportProof.CutFollowsCuts | router/xgress/xgress.go:489-511 | One payload at a time, the receive loop's steps number exactly the slices that the loop of a read makes. |
| TransportProof.PayloadsTravelFreely | router/forwarder/forwarder.go:142-163 | In every state the network may lose or repeat any payload that it carries, or deliver it next. |
| TransportProof.AcksTravelFreely | router/forwarder/forwarder.go:165-183 | The same for acknowledgements. |
| Endpoints.QueueSendsIsARun | router/xgress/xgress.go:342-353 | A call of queueSends is a run of pushes to the queue and removals from the tree, one pair per payload. |
| Endpoints.PayloadReceivedIsADelivery | router/xgress/xgress.go:544-560 | Whatever payloadReceived may do by its contract is the delivery of that payload. |
| Endpoints.TransmitOneIsARun | router/xgress/xgress.go:395-435 | Whatever a round of tx may do by its contract is a run of taking, writing and, when due, reporting. |
| Endpoints.AcksAreARun | router/xgress/link_send_buffer.go:195-205 | Acknowledgements taken in one after the other are as many steps. |
| Endpoints.RoundIsARun | router/xgress/link_send_buffer.go:188-228 | Whatever a round of the run loop may do by its contract is a run of setting the gate, taking in acknowledgements, and taking in a payload or retransmitting. |
| Endpoints.ReachedReachable | router/xgress/xgress.go:342-560 | What the steps lead to from a reachable state is reachable. |
| Stall.StuckStep | router/xgress/link_send_buffer.go:188-232 | When nothing is on its way, nothing unacked is buffered, the receiver has nothing to release, the queue is full and the window is below the last report, no step other than closing changes that. |
| Stall.StuckForever | router/xgress/link_send_buffer.go:146-234 | So over any further run nothing is ever written. |
| Stall.DrainIsReported | router/xgress/xgress.go:428-435 | After the write that empties the receiver, the report is made if and only if more than 10000 bytes were last reported. |
| Stall.DefaultsAreOrdinary | router/xgress/options.go:145-169 | With the default options two reads of 10240 bytes, as the transport peer makes them, are enough for the stall. |
| Stall.OneLossStalls | router/xgress/xgress.go:432-435 | For any two payloads that together exceed the window and 10000 bytes: a reachable state from which losing one empty ack stops the session. |
| Stall.OneLostPayloadStalls | router/xgress/link_send_buffer.go:117-121 | With two slots in the queue: a reachable state from which losing one payload stops the session before anything is written. |
| Release.AllResent | router/xgress/link_send_buffer.go:295-315 | A shut-out sender with unacked payloads, all of which the receiver has, can retransmit them all and so learns a size that opens its gate. |
| Release.ReleasedExactly | router/xgress/link_send_buffer.go:188-217 | A shut-out sender that has the awaited payload to offer can go on without closing if and only if it has something unacked or its queue has room. |
| Release.DefaultsAreUsual | router/xgress/options.go:145-169 | The default options are among those for which this is shown. |
| RetransmitQueue.Retransmitter.PopHead | router/xgress/retransmitter.go:53-73 | Returns and takes off the first element, nil when empty; links, ends and size counter stay consistent. |
| RetransmitQueue.Retransmitter.PushTail | router/xgress/retransmitter.go:75-88 | Appends a payload that is not in the list; its links and the head tell correctly when it is. |
| RetransmitQueue.Retransmitter.Delete | router/xgress/retransmitter.go:90-105 | Removes a member from any position, keeping the order of the others; a non-member changes nothing; the payload ends up detached. |
| RetransmitQueue.Retransmitter.AcceptRetransmit | router/xgress/retransmitter.go:134-140 | An acked payload is out of the list afterwards, an unacked one is in it once. |
| RetransmitQueue.FirstInFirstOut | router/xgress/retransmitter.go:53-105 | No operation moves a queued payload back, and pops and deletions ahead of it bring it one place closer to the head. |
| Sequences.DeletedAt | router/xgress/retransmitter.go:90-105 | Deletion closes the gap and keeps the order of the rest. |
| Sequences.DeletedMembers | router/xgress/retransmitter.go:90-105 | Deletion takes out exactly the payload asked for and leaves no second copy. |
| RetransmitProtocol.StepKeeps | router/xgress/link_send_buffer.go:74-93 | Every step of the run loops, the ingester and the sender keeps counter and places consistent. |
| RetransmitProtocol.RunKeeps | router/xgress/retransmitter.go:107-168 | So they are consistent after every interleaving. |
| RetransmitProtocol.CounterAndPlaces | router/xgress/link_send_buffer.go:74-93 | retxQueued is (1 if queued and not dequeued) + (2 if acked), always 0 to 3; an unacked payload is in exactly one place when queued and in none when not. |
| RetransmitProtocol.NoStaleEntries | router/xgress/link_send_buffer.go:249-252 | An acked payload can be in the list only while the copy that removes it is on the way. |
| RetransmitProtocol.TestsDecide | router/xgress/link_send_buffer.go:250-302 | In every reachable state each test of the counter decides what it is for: only an unqueued payload is found retransmittable, an ack sends a second copy exactly if the payload is queued, and ingester and sender see whether it is acked. |
| RetransmitProtocol.ForwardsUnacked | router/xgress/retransmitter.go:142-168 | In every reachable state a step that makes the sender forward a payload finds it unacked. |
| RetransmitProtocol.NeverResentAfterAck | router/xgress/retransmitter.go:142-168 | Over every interleaving: each retransmission was decided at a moment when the payload was unacked; an acked payload still in the queues is never sent. |
| RetransmitProtocol.PushIsFresh | router/xgress/retransmitter.go:134-140 | When the ingester pushes, the payload is nowhere in or behind the list, so it is never queued twice at once. |
| RetransmitProtocol.NoDeadlock | router/xgress/retransmitter.go:107-168 | While a copy of a payload is anywhere in the retransmitter, some goroutine can move one. |
| RetransmitProtocol.DrainEnds | router/xgress/retransmitter.go:107-168 | Without new work every movement brings the copies closer to the end, so the queues drain. |
| Messages.EncodeDecode | router/xgress/messages.go:147-152 | A number that fits the width is read back from its big-endian bytes. |
| Messages.DecodeEncode | router/xgress/messages.go:166-170 | Bytes are restored from the number they stand for. |
| Messages.MarshallSequence | router/xgress/messages.go:143-154 | Four bytes for each sequence, in order, the most significant first. |
| Messages.UnmarshallSequence | router/xgress/messages.go:156-172 | Fails exactly if the length is no multiple of four; otherwise each sequence is the number that its four bytes stand for, the most significant first. |
| Messages.SequenceBytesInjective | router/xgress/messages.go:143-172 | Different lists of sequences, of any sign, have different bytes. |
| Messages.SequencePositions | router/xgress/messages.go:149-152 | The four bytes of each sequence, most significant first, make up its low 32 bits. |
| Messages.SequenceRoundTrip | router/xgress/messages.go:143-172 | Unmarshalling what was marshalled restores the list. |
| Messages.HeaderEntries | router/xgress/messages.go:112-123 | Each entry is under its key with its number; flags and round trip time are there exactly if they are not zero; user keys are left alone. |
| Messages.HeaderRoundTrip | router/xgress/messages.go:92-110 | A header comes back from those entries, with zero flags and RTT, which are not sent. |
| Messages.EntryBytes | controller/handler_ctrl/route_result.go:47-55 | Header entries of two, four and eight bytes have the least significant byte first. |
| Messages.MissingEntries | router/xgress/messages.go:98-107 | Entries that are missing read as no flags, a buffer of 2^32-1 and no round trip time. |
| Messages.UnmarshallAcknowledgement | router/xgress/messages.go:180-191 | Succeeds exactly with a session id and a body of whole words. |
| Messages.AcknowledgementRoundTrip | router/xgress/messages.go:174-191 | An acknowledgement comes back with the same header and sequences, for any length and sign. |
| Messages.MarshallPayload | router/xgress/messages.go:213-224 | The message holds the header with the sending time, the sequence sign-extended to 64 bits under key 2257, exactly the user's headers from key 2000 on, and the data as body. |
| Messages.UnmarshallPayload | router/xgress/messages.go:226-254 | Succeeds exactly with a session id and an eight-byte sequence; collects exactly the entries of keys 2000 to 2255. |
| Messages.PayloadRoundTrip | router/xgress/messages.go:213-254 | A payload comes back with flags, sequence, data and user headers intact (an empty map as nil) and the sending time as RTT. |
| Messages.PayloadEntries | router/xgress/messages.go:29-37 | The header, the sequence and the user headers 2000 to 2255 share a message and never collide. |
| Messages.ReadBack | router/xgress/messages.go:226-254 | A payload is read back from any message that holds its entries. |
| Messages.ReadAckBack | router/xgress/messages.go:180-191 | An acknowledgement is read back from any message that holds its entries and bytes. |
| Messages.OriginatorFlag | router/xgress/messages.go:256-273 | The originator flag is read back, and the other flags are untouched. |
| LinkController.CostBounds | controller/network/link.go:90-97 | A cost leaves room for a path's distance below 2^63, and it is not negative when no part of it is. |
| LinkController.Controller.LinkConnected | controller/network/network.go:305-319 | Puts the new mode in front for a link of the table; otherwise reports that there is none. |
| LinkController.Controller.SetCosts | controller/network/link.go:67-93 | The cost is recalculated from static cost and latencies, whatever they are, in milliseconds rounded toward zero; other links keep theirs. |
| LinkController.Controller.Add | controller/network/link_controller.go:40-43 | Adding a fresh link, which is pending, keeps table and index in agreement. |
| LinkController.Controller.Remove | controller/network/link_controller.go:58-61 | Removing a link, there or not, keeps table and index in agreement. |
| LinkController.Controller.AddLinkForRouter | controller/network/link_controller.go:240-259 | One half of an addition: the link is appended to the list of the pair. |
| LinkController.Controller.RemoveLinkFromRouter | controller/network/link_controller.go:269-291 | One half of a removal: the link leaves its list, and a list or table that becomes empty goes too. |
| LinkController.AddKeeps | controller/network/link_controller.go:240-259 | The index after an addition lists exactly the links of the table, each under both ends, without empty parts. |
| LinkController.RemoveKeeps | controller/network/link_controller.go:269-291 | The same after a removal. |
| LinkController.RemoveUndoesAdd | controller/network/link_controller.go:240-291 | Removing a link just added restores table and index exactly. |
| LinkController.AlwaysAgree | controller/network/link_controller.go:240-366 | The agreement holds after any sequence of additions of fresh non-self links and removals. |
| LinkController.ListedRouters | controller/network/link_controller.go:261-291 | A router has a table in the index if and only if some link ends at it. |
| LinkController.Controller.AllLinksForRouter | controller/network/link_controller.go:63-68 | Exactly the links of the table with this router as source or destination, once each. |
| LinkController.Controller.LinksById | controller/network/link_controller.go:324-331 | Gathers exactly the links listed for a router, by id. |
| LinkController.Controller.ConnectedNeighborsOfRouter | controller/network/link_controller.go:70-91 | Exactly the routers at the other end of a usable link, once each. |
| LinkController.NeighborsByFields | controller/network/link.go:49-54 | Routers are neighbours if and only if a link of the table joins them whose newest mode is connected and that is not down. |
| LinkController.PendingJoinsNothing | controller/network/link.go:37-47 | A link that has just been added makes no pair of routers neighbours and parts none. |
| LinkController.Controller.PickLink | controller/network/link_controller.go:98-113 | Of a list of links the last usable one of the pair. |
| LinkController.Controller.LeastExpensiveLink | controller/network/link_controller.go:93-120 | Some usable link between the two routers, if and only if there is one: the last one of the router's links in some order. |
| LinkController.AnyMayWin | controller/network/link_controller.go:93-120 | For every usable link of the pair there is an order of the list in which it is taken. |
| LinkController.CheapestExactly | controller/network/link_controller.go:93-120 | The link taken is a cheapest one in every order if and only if all usable links of the pair cost the same. |
| LinkController.Controller.LinkCost | controller/network/path.go:51-54 | The cost of a usable link of the pair; the largest number only if there is none. |
| LinkController.Controller.DisconnectRouter | controller/network/network.go:290-295 | All links of the router go and no other, and the index forgets the router. |
| ShortestPath.Network.MinCost | controller/network/path.go:90-105 | An unvisited router of least distance. |
| ShortestPath.Network.Nearest | controller/network/path.go:44-46 | While routers are unvisited one is selected, and none of the others is nearer. |
| ShortestPath.Network.LookUp | controller/network/path.go:50-54 | By the symmetry of the index a neighbour always has a link back, so the fallback cost is never used. |
| ShortestPath.Network.Neighbors | controller/network/path.go:48-48 | The routers that a usable link joins to this one, once each. |
| ShortestPath.Network.Relax | controller/network/path.go:56-60 | Distance plus cost fits 64 bits, and the step keeps the search invariant. |
| ShortestPath.Network.Expand | controller/network/path.go:45-62 | Visiting a router keeps the search invariant and covers all its links. |
| ShortestPath.Network.Search | controller/network/path.go:34-63 | The loop ends with every router visited, distances that nothing shortens, and predecessors visited earlier. |
| ShortestPath.Network.WalkBack | controller/network/path.go:72-78 | The walk along predecessors ends, even with links of cost zero, and gives a path whose cost is the distance. |
| ShortestPath.Network.ShortestPath | controller/network/path.go:25-88 | Between distinct routers: a path is returned if and only if some path costs less than 2147483647; it is simple, over usable links, and no path costs less by the weights looked up; the cost returned is its cost. |
| Paths.DistanceIsLowerBound | controller/network/path.go:44-63 | After the search no path to a router costs less than its distance. |
| Paths.VisitKeeps | controller/network/path.go:44-46 | Visiting the nearest unvisited router keeps the search invariant. |
| Paths.LookUpKeeps | controller/network/path.go:49-61 | Looking up a link to an unvisited router keeps it and does not touch visited routers. |
| Paths.ExpandSkip | controller/network/path.go:50-50 | A neighbour that was visited already has looked up its link to this router, so skipping it misses nothing. |
| Paths.TrailGrows | controller/network/path.go:73-77 | Every predecessor was visited strictly earlier, so following them cannot loop. |
| Paths.TrailEnds | controller/network/path.go:80-87 | Where the walk ends decides: at the source the path is a shortest one, elsewhere the destination is out of reach. |
| Paths.SameWeights | controller/network/link_controller.go:93-120 | There is only one weighting that a run can look up if and only if parallel links between connected routers cost the same. |
| Circuits.SetLinks | controller/network/network.go:647-658 | One usable link for each step; fails if and only if some step has none. |
| Circuits.CreateCircuitWithPath | controller/network/network.go:605-625 | The circuit has the given path and such links, or there is none because some step has no usable link. |
| Circuits.UpdateCircuit | controller/network/network.go:627-645 | The circuit keeps its ends and takes the shortest path; it fails only when the search does, never for want of a link. |
| Circuits.CreateRouteMessages | controller/network/circuit.go:75-144 | One message per router in path order, each forwarding both ways between its two addresses; only the last has the egress. |
| Circuits.ChosenLinksAreWellFormed | controller/network/network.go:647-658 | A simple path with links chosen from the table makes a circuit whose addresses are distinct where they must be. |
| Circuits.HopsDiffer | controller/network/circuit.go:96-142 | On each router of such a circuit the two addresses differ. |
| Forwarding.Forwarder.Route | router/forwarder/forwarder.go:115-127 | Merges the forwards into the session's table and leaves other sessions alone. |
| Forwarding.Forwarder.RegisterDestination | router/forwarder/forwarder.go:80-83 | The address is a destination and belongs to the session. |
| Forwarding.Forwarder.UnregisterDestinations | router/forwarder/forwarder.go:85-100 | Exactly the session's own addresses stop being destinations, and exactly those registered are told. |
| Forwarding.Forwarder.Unroute | router/forwarder/forwarder.go:129-140 | The session's forward table and its own destinations go; nothing else does. |
| Forwarding.Forwarder.ForwardPayload | router/forwarder/forwarder.go:142-163 | Which destination is found and takes the payload, and otherwise which of the three lookups fails or that the destination refuses it. |
| Forwarding.RoutedBetween | router/forwarder/forwarder.go:115-127 | After a message the table holds both directions whatever it held before, and is otherwise as before. |
| Forwarding.InstalledTable | router/forwarder/forwarder.go:115-163 | On each router of the circuit lookups from its two addresses lead to each other, over any stale table. |
| Forwarding.TravelsToEgress | router/forwarder/forwarder.go:115-163 | From IngressId repeated lookup visits exactly the path, hop by hop, and ends at EgressId. |
| Forwarding.TravelsToIngress | router/forwarder/forwarder.go:115-163 | From EgressId it visits the reverse and ends at IngressId. |
| Forwarding.SelectedPathCarries | controller/network/network.go:605-658 | A path found by the search, with links chosen for it and its messages installed, carries payloads between source and destination both ways. |
| Forwarding.OtherSessionsUndisturbed | router/forwarder/tables.go:39-50 | Installing a circuit's messages changes no lookup of any other session on any router. |
| SessionSetup.RouteSender.Route | controller/network/routesender.go:78-143 | Takes the answers to this attempt in order until one refuses, all entries are true, or the time is over, and ignores those to others; after a failure the cleanups are the confirmed routers of the path. |
| SessionSetup.RouteSender.Cleanups | controller/network/routesender.go:156-165 | Exactly the routers of the path whose entry is true. |
| SessionSetup.FailedAttempt | controller/network/routesender.go:89-140 | A failed attempt leaves true exactly the entries that were true before or confirmed this attempt before it was refused. |
| SessionSetup.SucceedsExactly | controller/network/routesender.go:81-137 | An attempt succeeds if and only if before any refusal every router with an entry has confirmed this attempt or was true from an earlier one. |
| SessionSetup.RefusedExactly | controller/network/routesender.go:97-120 | An attempt is refused if and only if some answer to this very attempt is a failure and the answers before it do not complete the attempt. |
| SessionSetup.AlienAnswersIgnored | controller/network/routesender.go:104-120 | Outcome and attendance are those of the same answers without the ones to other attempts. |
| SessionSetup.SuccessIsConfirmed | controller/network/routesender.go:78-143 | Success means that every router on this circuit reported success for this very attempt. |
| SessionSetup.StaleEntryBlocks | controller/network/routesender.go:81-85 | One attempt: an entry that is false when it begins keeps it from succeeding, unless that router confirms it too. |
| SessionSetup.TableExactly | controller/network/routesender.go:78-113 | Before an attempt a router has an entry if and only if it was asked or confirmed, and it is true if and only if the router confirmed since it was last asked. |
| SessionSetup.PassesExactly | controller/network/routesender.go:78-143 | Whether an attempt succeeds, on the answers to it and to the attempts before it. |
| SessionSetup.CreateSession | controller/network/network.go:338-448 | The retry loop ends as the specification says, for every sequence of outcomes of the attempts. |
| SessionSetup.SendUnroutes | controller/network/network.go:411-430 | One unroute for each collected router that is not used. |
| SessionSetup.EndsExactly | controller/network/network.go:342-448 | On the answers alone: at most max(1, CreateSessionRetries) attempts; the first that succeeds or finds no circuit ends set-up, and it is exhausted if and only if all fail. |
| SessionSetup.UnroutesExactly | controller/network/network.go:380-430 | After success exactly the routers off the final path that an earlier attempt asked and that confirmed it before its refusal get an unroute, after exhaustion exactly those that an attempt asked and that confirmed it before its refusal, after an early return none. |
| SessionSetup.NeverConfirmedBlocks | controller/network/routesender.go:81-85 | A router that was asked and from then on never confirms keeps every later attempt from succeeding. |
| SessionSetup.RetryFailsNeedlessly | controller/network/routesender.go:81-137 | A set-up that is exhausted although every router of its second path confirmed. |
| SessionSetup.LeftBehindBy | controller/network/network.go:342-448 | After an early return every router that installed a route keeps it, after exhaustion those whose every answer came too late for its attempt, after success those of them off the final path. |
| SessionSetup.RoutesLeftBehind | controller/network/network.go:342-448 | A router keeps a route no session uses if and only if a retry finds no circuit after a route was installed, or an answer came too late for its attempt and set-up ends without that router on the final path. |
| SessionSetup.LateAnswerLeavesRoute | controller/network/routesender.go:97-117 | Two attempts over different paths, both failed, after which a router that answered late keeps its route. |
| SessionSetup.UnreadAnswerLeavesRoute | controller/network/routesender.go:97-117 | The same with a single attempt. |
| SessionSetup.GivenUpLeavesRoutes | controller/network/network.go:342-364 | Two attempts for which that happens. |
| Costs.BandExactly | controller/xt/costs.go:76-82 | A biased cost is in its precedence's band if and only if the 32-bit sum does not wrap. |
| Costs.UnbiasUndoesBias | controller/xt/costs.go:52-54 | Unbiasing a biased cost gives the cost back, up to the width of a band. |
| Costs.BiasedOrder | controller/xt/costs.go:76-122 | Biased costs order by precedence first and by cost second, as far as a band can tell costs apart. |
| Costs.RouteCostFits | controller/network/network.go:498-505 | No addition on the way to a route cost wraps: it is the beginning of the precedence's band plus the sum of the terminator's cost, its dynamic cost and the path's, clipped to the band. |
| Costs.Weigh | controller/network/network.go:464-519 | Costs exactly the terminators of the identity that can be reached, with the cached path costs, and tells the three kinds of failure apart. |
| Costs.GetRelatedTerminators | controller/xt/costs.go:172-185 | The longest leading run of terminators of the first one's precedence. |
| Costs.LeadingIsAll | controller/xt/costs.go:172-185 | In a list sorted by costs in bands, the leading run is every terminator of that precedence. |
| Costs.PrecedenceDominates | controller/network/network.go:498-529 | After any sort by route cost the first terminator has the best precedence present and least cost in it, and the related ones are all those of its precedence. |
| Costs.WeightedChoice | controller/xt_weighted/impl.go:58-89 | Of several terminators the first one when the random number is below 1 less its share of the total weight, and otherwise the second; never a third. |
| Costs.TwoTerminators | controller/xt_weighted/impl.go:66-86 | Of two terminators with unbiased costs a and b the first is chosen for random numbers below b/(a+b). |
| FailureCosts.FailureLedger.Failure | controller/xt/failure.go:42-59 | Raises an entry by the failure cost and reports that while the sum is at most the maximum, and otherwise leaves the maximum; without an entry charges the failure cost. |
| FailureCosts.FailureLedger.Success | controller/xt/failure.go:61-63 | Credits the configured success credit. |
| FailureCosts.FailureLedger.SuccessWithCredit | controller/xt/failure.go:65-99 | Credits at most what is owed and reports it; nothing happens to a terminator without an entry. |
| FailureCosts.FailureLedger.Clear | controller/xt/failure.go:38-40 | Forgets the terminator and no other. |
| FailureCosts.LedgerModulo | controller/xt/failure.go:42-99 | Over any trace the cost agrees with charges less credits since the last clear, modulo 2^16. |
| FailureCosts.LedgerExactly | controller/xt/failure.go:42-99 | Over all traces the cost is exactly that and at most the maximum, if and only if one failure costs no more than the maximum. |
| FailureCosts.FailuresAddUp | controller/xt/failure.go:42-59 | Without credits between, n failures raise the cost by n times the failure cost, up to the maximum, after any trace. |
| FailureCosts.CreditsTakeOff | controller/xt/failure.go:61-99 | Without failures between, credits lower the cost by their sum, down to zero, after any trace. |
| FailureCosts.FirstFailureOvercharges | controller/xt/failure.go:45-53 | What two failures do otherwise. |
| FailureCosts.GlobalCosts.UpdateDynamicCost | controller/xt/costs.go:155-163 | Applies the update to the current dynamic cost, or to 0. |
| FailureCosts.CostVisitor.VisitDialFailed | controller/xt_common/cost_visitor.go:13-24 | The dynamic cost rises by the charge reported, saturating; other terminators keep theirs. |
| FailureCosts.CostVisitor.VisitDialSucceeded | controller/xt_common/cost_visitor.go:26-49 | It moves by session cost less credit, saturating at both ends. |
| FailureCosts.CostVisitor.VisitSessionEnded | controller/xt_common/cost_visitor.go:51-60 | It falls by the session cost, not below 0. |
| FailureCosts.GlobalCosts.ClearCost | controller/xt/costs.go:143-145 | Forgets the terminator's dynamic cost and no other. |
| FailureCosts.CostVisitor.Handle | controller/xt_smartrouting/impl.go:54-75 | Ledger and dynamic costs follow the trace of events, timed credits and removals, whatever the trace. |
| FailureCosts.DynamicExactly | controller/xt_common/cost_visitor.go:13-60 | At every moment of a trace the dynamic cost is failure cost, forgiven failure cost and SessionCost per open session, counted since it was last cleared, if and only if that sum always fits 16 bits. |
| FailureCosts.RemovalRestarts | controller/network/terminator.go:121-127 | After a removal, which clears ledger and dynamic cost, the terminator's account is that of a new one. |
| FailureCosts.LedgerOutlivesCost | controller/xt_weighted/impl.go:95-97 | Where the strategy does not clear its ledger the entry survives the removal and the dynamic cost does not. |
| FailureCosts.DynamicIsFailuresAndSessions | controller/xt_common/cost_visitor.go:13-60 | Without timed credits and saturation, from the start or the last removal on, it is failure cost plus SessionCost times (dial successes less session ends). |

## Left out

What the model abstracts from:

- Routers, links, sessions and addresses are identified by their ids, which are taken to be unique; where the source compares pointers the model compares ids or link values.
- Sequences are unbounded integers in the transport; the 32-bit counter is not modelled beyond 2^31 payloads.
- The network carries only what the endpoints sent; `RandomDrops` is loss by the network.
- Real time, tickers and timeouts: retransmission, gating and closing may happen at any moment; `age`, `retxThreshold` and RTT are not modelled.
- Floating point: scale factors are reals; a product that no `uint32` can hold becomes whatever the platform makes of it, a parameter (`outOfRange`) that the proofs do not restrict.
- The transport over-approximates: a session may start and end at any moment, a run loop may test its gate at any moment, and an unbuffered queue counts as having one slot (with `TxQueueSize` 0 the source hands over directly).
- The write to the peer and the update of the receive buffer's size are one step of the transmit loop.
- The end-of-session payload that the close handler sends past the send buffer (`router/handler_xgress/close.go`) and its second sequence number.
- User headers of payloads inside the transport model; they are in `Messages.dfy`.
- Metrics, gauges and the two flags that only feed them in `isBlocked`.
- The message library is not part of this model: its header entries are taken to be of fixed width, and an entry of another width counts as absent; their byte order is that in which `controller/handler_ctrl/route_result.go:55` reads the entry that `ctrl_msg/messages.go:47` puts, least significant first.
- One path computation sees one snapshot of routers and links, in which no link cost is negative; no link joins a router to itself.
- `shortestPath` never compares parallel links properly, so the claim that the chosen link is the cheapest of several is not made.
- `EqualPath`, `usesLink`, `missingLinks`, `firstDirectedLink`, trace filters, session indexes, peek handlers: they would only add easy members.
- Delayed unroute (`unrouteTimeout`): immediate unroute only.
- Sending of unroutes to routers that have gone, and errors while sending them.
- Answers of routers that come when set-up is over: `RoutesLeftBehind` speaks of the routers whose answers came during one of its attempts, read or not.
- Which sort `sort.Slice` performs: the results hold for every sorted arrangement.
- Terminator strategies other than the weighted choice; the randomness of that one is a parameter.
- Setting of a dynamic cost by an operator (`controller/handler_mgmt/set_terminator_cost.go`).
- Control and management channels, storage, configuration, events.

Contracts that say less than one might want:

- LinkController.Controller.LeastExpensiveLink: promises some usable link of the pair, not the cheapest one, because the source does not give that.
- ShortestPath.Network.ShortestPath: is optimal for the weights that the run looked up, for the same reason.
- RetransmitQueue.Retransmitter.AcceptRetransmit: takes whether the payload was acked as a parameter; the counter that tells is in `RetransmitProtocol.dfy`.
- SendBuffer.LinkSendBuffer.Retransmit: takes the payloads that are due as a parameter, since their age is not modelled.
- Release.ReleasedExactly: is about a minimum window of at least 10000 bytes, as by default, a receiver that has all that is unacked and less than 5000 bytes out of order, and a window that what is unacked cannot overflow; a payload that is unacked and that the receiver lacks may bring new reports by itself.
- Costs.WeightedChoice: is over reals where the source uses `float32`; with two terminators rounding could make the last share fall short of 1, and the source then falls back to the first terminator.
- Costs.Weigh: takes the cost of the cheapest path to each reachable router as a parameter; the search itself is `ShortestPath.Network.ShortestPath`.
- Forwarding.Forwarder.Unroute: is the immediate unroute; the delayed one waits for the session to be idle and then does the same.
- TransportProof.NothingMissing: says what has arrived once all payloads are handled, not that they will be: the network may lose everything.
- FailureCosts.FailureLedger.SuccessWithCredit: is one atomic step; a removal between its two accesses to the map is not modelled.
