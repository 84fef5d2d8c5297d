/** One direction of a session as a whole: the sender's receive loop and send buffer, a network that
    may lose, duplicate and reorder, and the receiver's reorder buffer, queue and transmit loop.
    Every step of every goroutine involved is a transition; a run is any sequence of them. */
module Transport {
  import opened Basics
  import opened Words
  import opened Payloads
  import opened ReceiveBuffer
  import opened SendBuffer
  import opened Xgress

  datatype Sender = Sender(
    read: seq<byte>,              // history: all that ReadPayload has returned
    pending: Option<seq<byte>>,   // what is still to be cut of the current read
    rxDone: bool,                 // the receive loop has ended
    issued: seq<Payload>,         // history: the payload with number i, at index i
    held: set<int>,               // numbered, not yet offered to the send buffer
    newlyBuffered: seq<Payload>,  // the channel into the send buffer
    accepted: set<int>,           // history: went into that channel
    toForward: set<int>,          // accepted, not yet forwarded for the first time
    requeued: set<int>,           // queued for retransmission and not dequeued
    resending: set<int>,          // of these, found unacked by the retransmitter's sender
    send: SendState,
    open: bool,                   // the run loop's local variable `buffered` is not nil
    closeWhenEmpty: bool,
    closed: bool)

  datatype Receiver = Receiver(
    recv: RecvState,
    lastSent: uint32,             // the size in the last acknowledgement
    removing: Option<Payload>,    // sent to the queue, not yet removed from the tree
    txQueue: seq<Payload>,
    hand: Option<Payload>,        // taken from the queue by the transmit loop
    owesAck: bool,                // the transmit loop is about to send an empty acknowledgement
    done: bool,                   // the transmit loop has ended
    written: seq<byte>,           // history: all that the peer has been given
    consumed: nat)                // history: payloads the transmit loop is through with

  datatype System = System(snd: Sender, rcv: Receiver, payloads: multiset<Payload>, acks: multiset<Ack>)

  function Initial(o: Options): System {
    System(Sender([], None, false, [], {}, [], {}, {}, {}, {}, Fresh(o), false, false, false),
           Receiver(EMPTY, 0, None, [], None, false, false, [], 0), multiset{}, multiset{})
  }

  // ----- the steps of the receive loop -----

  datatype RxStep =
    | Read(bytes: seq<byte>)        // ReadPayload returns
    | Cut                           // the next payload of the current read is numbered
    | Control(kind: Kind)           // a session start or end is numbered
    | RxStop                        // the receive loop returns

  predicate RxEnabled(o: Options, snd: Sender, step: RxStep) {
    match step
    case Read(_) => !snd.rxDone && snd.pending.None?
    case Cut => snd.pending.Some?
    case Control(kind) => !kind.SessionData?
    case RxStop => true
  }

  function Issue(snd: Sender, p: Payload): Sender {
    snd.(issued := snd.issued + [p], held := snd.held + {p.sequence})
  }

  /** The loop in `rx` ends after the payload that leaves less than one byte. */
  function NextCut(snd: Sender, mtu: nat): Sender
    requires snd.pending.Some?
  {
    var rest := snd.pending.value;
    var length := Min(|rest|, mtu);
    Issue(snd, Payload(|snd.issued|, SessionData, rest[..length]))
      .(pending := if |rest| - length < 1 then None else Some(rest[length..]))
  }

  function RxNext(o: Options, snd: Sender, step: RxStep): (snd': Sender)
    requires RxEnabled(o, snd, step)
  {
    match step
    case Read(bytes) => snd.(pending := Some(bytes), read := snd.read + bytes)
    case Cut => NextCut(snd, o.mtu)
    case Control(kind) => Issue(snd, Payload(|snd.issued|, kind, []))
    case RxStop => snd.(pending := None, rxDone := true)
  }

  // ----- the steps of the send buffer -----

  datatype BufferStep =
    | Buffer(q: int)                // BufferPayload: the send to newlyBuffered goes through
    | GiveUp(q: int)                // BufferPayload: closed
    | Gate                          // top of the run loop: isBlocked
    | TakeIn                        // run loop: a payload from newlyBuffered
    | Retransmit(due: set<int>)     // run loop: retransmit()
    | LookAgain(q: int)             // the retransmitter's sender finds the payload unacked
    | CloseWhenEmpty
    | Close

  predicate BufferEnabled(o: Options, snd: Sender, step: BufferStep) {
    match step
    case Buffer(q) => q in snd.held && 0 <= q < |snd.issued| && |snd.newlyBuffered| < Slots(o.txQueueSize)
    case GiveUp(q) => q in snd.held && snd.closed
    case Gate => !snd.closed
    case TakeIn => !snd.closed && snd.open && snd.newlyBuffered != []
    case Retransmit(due) => !snd.closed && due <= snd.send.buffer.Keys && due !! snd.requeued
    case LookAgain(q) => q in snd.requeued && q in snd.send.buffer
    case CloseWhenEmpty => true
    case Close => true
  }

  function BufferNext(o: Options, snd: Sender, step: BufferStep): (snd': Sender)
    requires BufferEnabled(o, snd, step)
  {
    match step
    case Buffer(q) =>
      snd.(held := snd.held - {q}, newlyBuffered := snd.newlyBuffered + [snd.issued[q]],
           accepted := snd.accepted + {q}, toForward := snd.toForward + {q})
    case GiveUp(q) => snd.(held := snd.held - {q})
    case Gate => snd.(open := !(Blocked(snd.send) && !snd.closeWhenEmpty))
    case TakeIn =>
      snd.(newlyBuffered := snd.newlyBuffered[1..], open := false,
           send := Buffered(snd.send, snd.newlyBuffered[0]))
    case Retransmit(due) =>
      snd.(send := Retransmitted(o, snd.send, |due|), requeued := snd.requeued + due)
    case LookAgain(q) => snd.(resending := snd.resending + {q})
    case CloseWhenEmpty => snd.(closeWhenEmpty := true)
    case Close => snd.(closed := true)
  }

  // ----- the steps that put something on the network or lose or repeat it -----

  datatype NetworkStep =
    | Forward(q: int)               // HandleXgressReceive
    | Resend(q: int)                // the retransmitter forwards a payload
    | Drop(p: Payload) | Duplicate(p: Payload) | DropAck(ack: Ack) | DuplicateAck(ack: Ack)

  predicate NetworkEnabled(s: System, step: NetworkStep) {
    match step
    case Forward(q) => q in s.snd.toForward && 0 <= q < |s.snd.issued|
    case Resend(q) => q in s.snd.resending && 0 <= q < |s.snd.issued|
    case Drop(p) => p in s.payloads
    case Duplicate(p) => p in s.payloads
    case DropAck(ack) => ack in s.acks
    case DuplicateAck(ack) => ack in s.acks
  }

  function NetworkNext(s: System, step: NetworkStep): (s': System)
    requires NetworkEnabled(s, step)
  {
    match step
    case Forward(q) =>
      s.(snd := s.snd.(toForward := s.snd.toForward - {q}), payloads := s.payloads + multiset{s.snd.issued[q]})
    case Resend(q) =>
      s.(snd := s.snd.(resending := s.snd.resending - {q}, requeued := s.snd.requeued - {q}),
         payloads := s.payloads + multiset{s.snd.issued[q]})
    case Drop(p) => s.(payloads := s.payloads - multiset{p})
    case Duplicate(p) => s.(payloads := s.payloads + multiset{p})
    case DropAck(ack) => s.(acks := s.acks - multiset{ack})
    case DuplicateAck(ack) => s.(acks := s.acks + multiset{ack})
  }

  // ----- the steps of the receiving side -----

  datatype TxStep =
    | Push                          // queueSends: the send to txQueue goes through
    | Remove                        // queueSends: the payload leaves the tree
    | Pull                          // nextPayload
    | Write                         // the transmit loop handles the payload it has
    | WriteFails(n: nat)            // WritePayload errs after n bytes
    | TxStop                        // nextPayload returns nil

  predicate TxEnabled(o: Options, rcv: Receiver, step: TxStep) {
    match step
    case Push => rcv.removing.None? && Head(rcv.recv).Some? && |rcv.txQueue| < Slots(o.txQueueSize)
    case Remove => rcv.removing.Some?
    case Pull => !rcv.done && !rcv.owesAck && rcv.hand.None? && rcv.txQueue != []
    case Write => !rcv.done && rcv.hand.Some?
    case WriteFails(n) => !rcv.done && rcv.hand.Some? && rcv.hand.value.kind.SessionData? && n <= |rcv.hand.value.data|
    case TxStop => rcv.hand.None? && !rcv.owesAck
  }

  /** An end of session ends the transmit loop; a session start is not written. */
  function NextWrite(rcv: Receiver): Receiver
    requires rcv.hand.Some?
  {
    var p := rcv.hand.value;
    if p.kind.SessionEnd? then rcv.(done := true)
    else
      var size := Low32(rcv.recv.size - |p.data|);
      rcv.(hand := None, consumed := rcv.consumed + 1,
           written := if p.kind.SessionStart? then rcv.written else rcv.written + p.data,
           recv := rcv.recv.(size := size), owesAck := WorthAnAck(rcv.lastSent, size))
  }

  function TxNext(o: Options, rcv: Receiver, step: TxStep): (rcv': Receiver)
    requires TxEnabled(o, rcv, step)
  {
    match step
    case Push => var p := Head(rcv.recv).value; rcv.(txQueue := rcv.txQueue + [p], removing := Some(p))
    case Remove => rcv.(recv := Removed(rcv.recv, rcv.removing.value), removing := None)
    case Pull => rcv.(hand := Some(rcv.txQueue[0]), txQueue := rcv.txQueue[1..])
    case Write => NextWrite(rcv)
    case WriteFails(n) => rcv.(written := rcv.written + rcv.hand.value.data[..n], done := true)
    case TxStop => rcv.(done := true)
  }

  // ----- the whole -----

  datatype Step =
    | Receiving(rx: RxStep)
    | Buffering(buffer: BufferStep)
    | AckIn(ack: Ack)               // the send buffer's run loop takes an acknowledgement
    | Carrying(network: NetworkStep)
    | Deliver(p: Payload)           // PayloadReceived
    | Transmitting(tx: TxStep)
    | EmptyAck                      // SendEmptyAck

  predicate Enabled(o: Options, s: System, step: Step) {
    match step
    case Receiving(rx) => RxEnabled(o, s.snd, rx)
    case Buffering(buffer) => BufferEnabled(o, s.snd, buffer)
    case AckIn(ack) => !s.snd.closed && ack in s.acks
    case Carrying(network) => NetworkEnabled(s, network)
    case Deliver(p) => p in s.payloads && s.rcv.removing.None?
    case Transmitting(tx) => TxEnabled(o, s.rcv, tx)
    case EmptyAck => s.rcv.owesAck
  }

  function Delivered(o: Options, s: System, p: Payload): System {
    var recv := Received(s.rcv.recv, p, o.rxBufferSize);
    var refused := Refuses(s.rcv.recv, p, o.rxBufferSize);
    s.(rcv := s.rcv.(recv := recv, lastSent := if refused then s.rcv.lastSent else recv.size), payloads := s.payloads - multiset{p},
       acks := if refused then s.acks
               else s.acks + multiset{Ack([p.sequence], recv.size)})
  }

  function Next(o: Options, s: System, step: Step): (s': System)
    requires Enabled(o, s, step)
  {
    match step
    case Receiving(rx) => s.(snd := RxNext(o, s.snd, rx))
    case Buffering(buffer) => s.(snd := BufferNext(o, s.snd, buffer))
    case AckIn(ack) => s.(snd := s.snd.(send := Acknowledged(o, s.snd.send, ack)), acks := s.acks - multiset{ack})
    case Carrying(network) => NetworkNext(s, network)
    case Deliver(p) => Delivered(o, s, p)
    case Transmitting(tx) => s.(rcv := TxNext(o, s.rcv, tx))
    case EmptyAck =>
      s.(rcv := s.rcv.(owesAck := false, lastSent := s.rcv.recv.size),
         acks := s.acks + multiset{Ack([], s.rcv.recv.size)})
  }

  ghost predicate Leads(o: Options, s: System, s': System) {
    exists step :: Enabled(o, s, step) && s' == Next(o, s, step)
  }

  ghost predicate IsRun(o: Options, run: seq<System>) {
    && run != [] && run[0] == Initial(o)
    && forall i, j :: 0 <= i < |run| && j == i + 1 < |run| ==> Leads(o, run[i], run[j])
  }

  ghost predicate Reachable(o: Options, s: System) {
    exists run :: IsRun(o, run) && run[|run| - 1] == s
  }

  /** The steps can be taken one after the other. */
  ghost predicate Follows(o: Options, s: System, steps: seq<Step>)
    decreases |steps|
  {
    steps != [] ==> Enabled(o, s, steps[0]) && Follows(o, Next(o, s, steps[0]), steps[1..])
  }

  function Reached(o: Options, s: System, steps: seq<Step>): System
    requires Follows(o, s, steps)
    decreases |steps|
  {
    if steps == [] then s else Reached(o, Next(o, s, steps[0]), steps[1..])
  }

  // ----- the invariant -----

  function Length(p: Option<Payload>): nat {
    if p.Some? then |p.value.data| else 0
  }

  function Count<T>(x: Option<T>): nat {
    if x.Some? then 1 else 0
  }

  /** The payloads are numbered consecutively, and make up what was read as far as it was cut. */
  ghost predicate IssuedRight(o: Options, snd: Sender) {
    && (forall i :: 0 <= i < |snd.issued| ==>
          && snd.issued[i].sequence == i
          && |snd.issued[i].data| <= o.mtu
          && (!snd.issued[i].kind.SessionData? ==> snd.issued[i].data == []))
    && (if snd.rxDone then snd.pending.None? && Bytes(snd.issued) <= snd.read
        else Bytes(snd.issued) + (if snd.pending.Some? then snd.pending.value else []) == snd.read)
  }

  ghost predicate Genuine(issued: seq<Payload>, p: Payload) {
    0 <= p.sequence < |issued| && issued[p.sequence] == p
  }

  ghost predicate BuffersRight(snd: Sender) {
    && (forall q :: q in snd.held || q in snd.accepted ==> 0 <= q < |snd.issued|)
    && (forall q :: q in snd.held ==> q !in snd.accepted)
    && snd.toForward <= snd.accepted && snd.requeued <= snd.accepted && snd.resending <= snd.requeued
    && (forall i :: 0 <= i < |snd.newlyBuffered| ==>
          var p := snd.newlyBuffered[i];
          Genuine(snd.issued, p) && p.sequence in snd.accepted && p.sequence !in snd.send.buffer)
    && (forall i, j :: 0 <= i < j < |snd.newlyBuffered| ==>
          snd.newlyBuffered[i].sequence != snd.newlyBuffered[j].sequence)
    && (forall q :: q in snd.send.buffer ==>
          q in snd.accepted && snd.send.buffer[q] == snd.issued[q])
  }

  ghost predicate WindowRight(o: Options, snd: Sender) {
    var total := TotalBytes(snd.send.buffer);
    && SizeRight(snd.send)
    && (Sensible(o) ==>
          && snd.send.windowsSize <= o.maxSize
          && (!snd.closeWhenEmpty ==> total <= o.maxSize + o.mtu)
          && (!snd.closeWhenEmpty && snd.open ==> total <= o.maxSize))
  }

  function Released(rcv: Receiver): int {
    rcv.recv.sequence + 1 + Count(rcv.removing)
  }

  /** Bytes received and not yet written. */
  ghost function Waiting(rcv: Receiver): int {
    TotalBytes(rcv.recv.tree) - Length(rcv.removing) + QueueBytes(rcv.txQueue) + Length(rcv.hand)
  }

  ghost predicate OrderRight(rcv: Receiver, issued: seq<Payload>) {
    && Ordered(rcv.recv)
    && (forall k :: k in rcv.recv.tree ==> Genuine(issued, rcv.recv.tree[k]))
    && (rcv.removing.Some? ==> Head(rcv.recv) == rcv.removing)
    && 0 <= Released(rcv) <= |issued|
    && rcv.consumed + Count(rcv.hand) + |rcv.txQueue| == Released(rcv)
    && (forall i :: 0 <= i < |rcv.txQueue| ==> rcv.txQueue[i] == issued[rcv.consumed + Count(rcv.hand) + i])
    && (rcv.hand.Some? ==> rcv.hand.value == issued[rcv.consumed])
  }

  ghost predicate WrittenRight(rcv: Receiver, issued: seq<Payload>) {
    if rcv.done then rcv.written <= Bytes(issued)
    else rcv.consumed <= |issued| && rcv.written == Bytes(issued[..rcv.consumed])
  }

  ghost predicate NetworkRight(s: System) {
    && (forall p :: p in s.payloads ==> Genuine(s.snd.issued, p))
    && (forall ack, q :: ack in s.acks && q in ack.sequences ==> Stored(s.rcv.recv, q))
  }

  /** Wherever a payload that was accepted for sending is, it is not lost. */
  ghost predicate Kept(s: System, q: int) {
    (exists p :: p in s.snd.newlyBuffered && p.sequence == q) || q in s.snd.send.buffer || Stored(s.rcv.recv, q)
  }

  ghost predicate Inv(o: Options, s: System) {
    && IssuedRight(o, s.snd)
    && BuffersRight(s.snd)
    && WindowRight(o, s.snd)
    && OrderRight(s.rcv, s.snd.issued)
    && WrittenRight(s.rcv, s.snd.issued)
    && s.rcv.recv.size == Low32(Waiting(s.rcv))
    && NetworkRight(s)
    && forall q :: q in s.snd.accepted ==> Kept(s, q)
  }
}
