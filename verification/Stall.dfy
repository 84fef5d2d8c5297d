/** A sender that stops because the receiver's buffer was too full goes on when it hears that the buffer
    has drained.  Nothing repeats that message, and nothing retransmits a payload that waits in the
    sender's queue; this is when a session comes to a stop for good, and that it does. */
module Stall {
  import opened Basics
  import opened Words
  import opened Payloads
  import opened ReceiveBuffer
  import opened SendBuffer
  import opened Xgress
  import opened Transport
  import opened TransportProof
  import opened Endpoints

  /** Steps that end the session or start to. */
  predicate Closes(step: Step) {
    || step == Buffering(CloseWhenEmpty)
    || step == Buffering(Close)
    || step == Transmitting(TxStop)
  }

  predicate NoneCloses(steps: seq<Step>) {
    forall i :: 0 <= i < |steps| ==> !Closes(steps[i])
  }

  /** Nothing is on its way, the receiver has given its peer all that it can, and the session is open. */
  ghost predicate Quiet(s: System) {
    && s.payloads == multiset{} && s.acks == multiset{}
    && s.snd.toForward == {} && s.snd.resending == {}
    && !s.snd.closed && !s.snd.closeWhenEmpty
    && Head(s.rcv.recv).None? && s.rcv.removing.None? && s.rcv.txQueue == [] && s.rcv.hand.None?
    && !s.rcv.owesAck && !s.rcv.done
  }

  /** The sender takes nothing in because of what the receiver last reported. */
  ghost predicate ShutOut(s: System) {
    s.snd.send.windowsSize < s.snd.send.linkRecvBufferSize && !s.snd.open
  }

  ghost predicate Full(o: Options, s: System) {
    |s.snd.newlyBuffered| >= Slots(o.txQueueSize)
  }

  ghost predicate Stuck(o: Options, s: System) {
    Quiet(s) && ShutOut(s) && s.snd.send.buffer == map[] && Full(o, s)
  }

  lemma StuckStep(o: Options, s: System, step: Step)
    requires Stuck(o, s) && Enabled(o, s, step) && !Closes(step)
    ensures Stuck(o, Next(o, s, step)) && Next(o, s, step).rcv.written == s.rcv.written
  {
    if step.Buffering? && step.buffer.Retransmit? {
      assert step.buffer.due == {};
    }
  }

  /** As long as the session is not closed nothing changes any more: no payload is ever written again. */
  lemma {:induction false} StuckForever(o: Options, s: System, steps: seq<Step>)
    requires Stuck(o, s) && Follows(o, s, steps) && NoneCloses(steps)
    ensures Stuck(o, Reached(o, s, steps)) && Reached(o, s, steps).rcv.written == s.rcv.written
    decreases |steps|
  {
    if steps != [] {
      StuckStep(o, s, steps[0]);
      StuckForever(o, Next(o, s, steps[0]), steps[1..]);
    }
  }

  // ----- when the receiver says that it has drained -----

  lemma LastWrite(rcv: Receiver)
    requires rcv.hand.Some? && !rcv.hand.value.kind.SessionEnd?
    requires rcv.recv.size == Low32(|rcv.hand.value.data|)
    ensures NextWrite(rcv).recv.size == 0 && (NextWrite(rcv).owesAck <==> rcv.lastSent > 10000)
  {
    Low32Sum(|rcv.hand.value.data|, |rcv.hand.value.data|);
  }

  /** After the write that leaves nothing, the receiver reports it if and only if what it reported last
      was more than 10000 bytes. */
  lemma DrainIsReported(o: Options, s: System)
    requires Reachable(o, s) && Enabled(o, s, Transmitting(Write)) && !s.rcv.hand.value.kind.SessionEnd?
    requires Waiting(s.rcv) == Length(s.rcv.hand)
    ensures var rcv' := Next(o, s, Transmitting(Write)).rcv;
            rcv'.recv.size == 0 && (rcv'.owesAck <==> s.rcv.lastSent > 10000)
  {
    assert s.rcv.recv.size == Low32(Waiting(s.rcv)) by {
      ReachableRight(o, s);
    }
    LastWrite(s.rcv);
  }

  // ----- it happens: a report is lost -----

  /** One slot in each queue, and thresholds that two acknowledgements do not reach. */
  ghost predicate Ordinary(o: Options) {
    Slots(o.txQueueSize) == 1 && o.increaseThresh > 1 && o.dupAckThresh > 1
  }

  /** Two payloads of which together more than 10000 bytes and more than the window holds are reported,
      the first no larger than the second. */
  ghost predicate TwoSizes(o: Options, a: Payload, b: Payload) {
    && TwoPayloads(o, a, b)
    && |a.data| <= |b.data| && |a.data| <= o.rxBufferSize
    && 10000 < |a.data| + |b.data| < TWO_32 && o.startSize < |a.data| + |b.data|
  }

  ghost predicate TwoPayloads(o: Options, a: Payload, b: Payload) {
    && a.kind.SessionData? && b.kind.SessionData? && a.sequence == 0 && b.sequence == 1
    && |a.data| <= o.mtu && |b.data| <= o.mtu
  }

  /** With the default options two reads of 10240 bytes, as the transport peer makes them, are enough. */
  lemma DefaultsAreOrdinary(outOfRange: real -> uint32, a: Payload, b: Payload)
    requires a.kind.SessionData? && b.kind.SessionData? && a.sequence == 0 && b.sequence == 1
    requires |a.data| == 10240 == |b.data|
    ensures var o := DefaultOptions(outOfRange); Ordinary(o) && Sensible(o) && TwoSizes(o, a, b)
  {
  }

  /** Both have been read and numbered. */
  function Read2(o: Options, a: Payload, b: Payload): System {
    var s := Initial(o);
    s.(snd := s.snd.(read := a.data + b.data, issued := [a, b], held := {0, 1}))
  }

  /** A read that fits one payload is cut into one. */
  lemma ReadOne(o: Options, s: System, p: Payload)
    requires Reachable(o, s) && !s.snd.rxDone && s.snd.pending.None?
    requires p.sequence == |s.snd.issued| && p.kind.SessionData? && |p.data| <= o.mtu
    ensures Reachable(o, s.(snd := s.snd.(read := s.snd.read + p.data, issued := s.snd.issued + [p],
                                          held := s.snd.held + {p.sequence})))
  {
    StepReachable(o, s, Receiving(Read(p.data)));
    var s1 := Next(o, s, Receiving(Read(p.data)));
    assert p.data[..|p.data|] == p.data;
    StepReachable(o, s1, Receiving(Cut));
    assert Next(o, s1, Receiving(Cut)).snd.issued == s.snd.issued + [p];
  }

  lemma InitialReachable(o: Options)
    ensures Reachable(o, Initial(o))
  {
    var run := [Initial(o)];
    assert IsRun(o, run) && run[|run| - 1] == Initial(o);
  }

  lemma ReadReachable(o: Options, a: Payload, b: Payload)
    requires TwoPayloads(o, a, b)
    ensures Reachable(o, Read2(o, a, b))
  {
    var s := Initial(o);
    InitialReachable(o);
    ReadOne(o, s, a);
    var s1 := s.(snd := s.snd.(read := a.data, issued := [a], held := {0}));
    assert [] + a.data == a.data && [] + [a] == [a] && {} + {0} == {0};
    ReadOne(o, s1, b);
    assert [a] + [b] == [a, b] && {0} + {1} == {0, 1};
  }

  /** The first is taken in, the second waits in the queue, and both are on the network. */
  function Sent2(o: Options, a: Payload, b: Payload): System {
    var s := Read2(o, a, b);
    s.(snd := s.snd.(held := {}, newlyBuffered := [b], accepted := {0, 1}, send := Buffered(Fresh(o), a)),
       payloads := multiset{a, b})
  }

  lemma SentReachable(o: Options, a: Payload, b: Payload)
    requires Ordinary(o) && TwoPayloads(o, a, b)
    ensures Reachable(o, Sent2(o, a, b))
  {
    ReadReachable(o, a, b);
    var s := Read2(o, a, b);
    StepReachable(o, s, Buffering(Gate));
    var s1 := Next(o, s, Buffering(Gate));
    assert s1.snd == s.snd.(open := true);
    StepReachable(o, s1, Buffering(Buffer(0)));
    var s2 := Next(o, s1, Buffering(Buffer(0)));
    assert s2.snd.newlyBuffered == [a] && s2.snd.held == {1} && s2.snd.toForward == {0} && s2.snd.accepted == {0};
    StepReachable(o, s2, Buffering(TakeIn));
    var s3 := Next(o, s2, Buffering(TakeIn));
    assert s3.snd.newlyBuffered == [] && s3.snd.send == Buffered(Fresh(o), a);
    StepReachable(o, s3, Buffering(Buffer(1)));
    var s4 := Next(o, s3, Buffering(Buffer(1)));
    assert s4.snd.newlyBuffered == [b] && s4.snd.held == {} && s4.snd.toForward == {0, 1} && s4.snd.accepted == {0, 1};
    ForwardReachable(o, s4, a, b);
  }

  lemma ForwardOne(o: Options, s: System, q: int)
    requires Reachable(o, s) && q in s.snd.toForward && 0 <= q < |s.snd.issued|
    ensures Reachable(o, s.(snd := s.snd.(toForward := s.snd.toForward - {q}),
                            payloads := s.payloads + multiset{s.snd.issued[q]}))
  {
    StepReachable(o, s, Carrying(Forward(q)));
  }

  lemma ForwardReachable(o: Options, s: System, a: Payload, b: Payload)
    requires Reachable(o, s) && s.snd.issued == [a, b] && s.snd.toForward == {0, 1} && s.payloads == multiset{}
    ensures Reachable(o, s.(snd := s.snd.(toForward := {}), payloads := multiset{a, b}))
  {
    ForwardOne(o, s, 0);
    assert {0, 1} - {0} == {1} && multiset{} + multiset{a} == multiset{a};
    ForwardOne(o, s.(snd := s.snd.(toForward := {1}), payloads := multiset{a}), 1);
    assert {1} - {1} == {} && multiset{a} + multiset{b} == multiset{a, b};
  }

  /** Both have arrived and are acknowledged; the second acknowledgement reports two payloads. */
  function Acked2(o: Options, a: Payload, b: Payload): System {
    var s, m, n := Sent2(o, a, b), |a.data|, |a.data| + |b.data|;
    s.(snd := s.snd.(send := Acked(o, Acked(o, s.snd.send, 0).(linkRecvBufferSize := Low32(m)), 1).(linkRecvBufferSize := Low32(n))),
       rcv := s.rcv.(recv := RecvState(map[0 := a, 1 := b], -1, 1, Low32(n)), lastSent := Low32(n)),
       payloads := multiset{})
  }

  lemma DeliverOne(o: Options, s: System, p: Payload)
    requires Reachable(o, s) && p in s.payloads && s.rcv.removing.None?
    requires p.sequence > s.rcv.recv.sequence && p.sequence !in s.rcv.recv.tree
    requires s.rcv.recv.size + |p.data| < TWO_32 && s.rcv.recv.size <= o.rxBufferSize
    ensures var recv := s.rcv.recv;
            var size := recv.size + |p.data|;
            Reachable(o, s.(rcv := s.rcv.(recv := RecvState(recv.tree[p.sequence := p], recv.sequence,
                                                            if p.sequence > recv.maxSequence then p.sequence else recv.maxSequence,
                                                            size),
                                          lastSent := size),
                            payloads := s.payloads - multiset{p},
                            acks := s.acks + multiset{Ack([p.sequence], size)}))
  {
    StepReachable(o, s, Deliver(p));
  }

  lemma DeliverFirst(o: Options, s: System, a: Payload, b: Payload)
    requires Ordinary(o) && TwoSizes(o, a, b)
    requires Reachable(o, s) && s.payloads == multiset{a, b} && s.acks == multiset{}
    requires s.rcv.recv == EMPTY && s.rcv.removing.None?
    ensures Reachable(o, s.(rcv := s.rcv.(recv := RecvState(map[0 := a], -1, 0, |a.data|), lastSent := |a.data|),
                            payloads := multiset{b}, acks := multiset{Ack([0], |a.data|)}))
  {
    DeliverOne(o, s, a);
    assert multiset{a, b} - multiset{a} == multiset{b};
    assert multiset{} + multiset{Ack([0], |a.data|)} == multiset{Ack([0], |a.data|)};
    assert EMPTY.tree[0 := a] == map[0 := a];
  }

  lemma DeliverReachable(o: Options, s: System, a: Payload, b: Payload)
    requires Ordinary(o) && TwoSizes(o, a, b)
    requires Reachable(o, s) && s.payloads == multiset{a, b} && s.acks == multiset{}
    requires s.rcv.recv == EMPTY && s.rcv.removing.None?
    ensures var m, n := |a.data|, |a.data| + |b.data|;
            Reachable(o, s.(rcv := s.rcv.(recv := RecvState(map[0 := a, 1 := b], -1, 1, n), lastSent := n),
                            payloads := multiset{}, acks := multiset{Ack([0], m), Ack([1], n)}))
  {
    var m, n := |a.data|, |a.data| + |b.data|;
    DeliverFirst(o, s, a, b);
    var s1 := s.(rcv := s.rcv.(recv := RecvState(map[0 := a], -1, 0, m), lastSent := m),
                 payloads := multiset{b}, acks := multiset{Ack([0], m)});
    DeliverOne(o, s1, b);
    assert multiset{b} - multiset{b} == multiset{};
    assert multiset{Ack([0], m)} + multiset{Ack([1], n)} == multiset{Ack([0], m), Ack([1], n)};
    assert map[0 := a][1 := b] == map[0 := a, 1 := b];
  }

  /** The sender takes in the two acknowledgements, the first one first. */
  lemma AcksReachable(o: Options, s: System, ack0: Ack, ack1: Ack)
    requires Reachable(o, s) && !s.snd.closed && s.acks == multiset{ack0, ack1}
    requires ack0.sequences == [0] && ack1.sequences == [1]
    ensures var send := Acked(o, s.snd.send, 0).(linkRecvBufferSize := ack0.recvBufferSize);
            Reachable(o, s.(snd := s.snd.(send := Acked(o, send, 1).(linkRecvBufferSize := ack1.recvBufferSize)),
                            acks := multiset{}))
  {
    AckReachable(o, s, ack0, 0);
    var s1 := Next(o, s, AckIn(ack0));
    assert multiset{ack0, ack1} - multiset{ack0} == multiset{ack1};
    AckReachable(o, s1, ack1, 1);
    assert multiset{ack1} - multiset{ack1} == multiset{};
  }

  lemma AckedReachable(o: Options, a: Payload, b: Payload)
    requires Ordinary(o) && TwoSizes(o, a, b)
    ensures Reachable(o, Acked2(o, a, b))
  {
    SentReachable(o, a, b);
    var s, m, n := Sent2(o, a, b), |a.data|, |a.data| + |b.data|;
    DeliverReachable(o, s, a, b);
    var s2 := s.(rcv := s.rcv.(recv := RecvState(map[0 := a, 1 := b], -1, 1, n), lastSent := n),
                 payloads := multiset{}, acks := multiset{Ack([0], m), Ack([1], n)});
    AcksReachable(o, s2, Ack([0], m), Ack([1], n));
  }

  lemma AckReachable(o: Options, s: System, ack: Ack, q: int)
    requires Reachable(o, s) && ack in s.acks && !s.snd.closed && ack.sequences == [q]
    ensures Reachable(o, Next(o, s, AckIn(ack)))
    ensures Next(o, s, AckIn(ack)).snd == s.snd.(send := Acked(o, s.snd.send, q).(linkRecvBufferSize := ack.recvBufferSize))
  {
    StepReachable(o, s, AckIn(ack));
    assert ack.sequences[..0] == [] && AckedAll(o, s.snd.send, []) == s.snd.send;
  }

  /** What `TransmitOne` makes of a receiver whose queue holds just this payload of data. */
  function RoundOf(rcv: Receiver, p: Payload): (Transmission, Option<Ack>) {
    var size := Low32(rcv.recv.size - |p.data|);
    var emptyAck := if WorthAnAck(rcv.lastSent, size) then Some(Ack([], size)) else None;
    (Transmission(rcv.recv.(size := size), if emptyAck.Some? then size else rcv.lastSent, [], rcv.written + p.data), emptyAck)
  }

  function Transmitted(s: System, p: Payload): System
    requires s.rcv.txQueue != []
  {
    var (t, emptyAck) := RoundOf(s.rcv, p);
    WithRound(s, t, false, emptyAck)
  }

  lemma WriteReachable(o: Options, s: System, p: Payload)
    requires Reachable(o, s) && s.rcv.removing.None? && s.rcv.txQueue == [] && s.rcv.hand.None?
    requires !s.rcv.done && !s.rcv.owesAck && Head(s.rcv.recv) == Some(p) && p.kind.SessionData?
    ensures Reachable(o, Transmitted(WithQueue(s, Removed(s.rcv.recv, p), [p]), p))
  {
    var s2 := WithQueue(s, Removed(s.rcv.recv, p), [p]);
    PushRemove(o, s, p);
    assert s.rcv.txQueue + [p] == [p] && [p][1..] == [];
    StepReachable(o, s, Transmitting(Push));
    StepReachable(o, Next(o, s, Transmitting(Push)), Transmitting(Remove));
    var (t, emptyAck) := RoundOf(s2.rcv, p);
    TransmitOneIsARun(o, s2, t, false, emptyAck);
    ReachedReachable(o, s2, RoundSteps(emptyAck));
  }

  /** The first payload is written. */
  function Written1(o: Options, a: Payload, b: Payload): System {
    var s := Acked2(o, a, b);
    s.(rcv := s.rcv.(recv := RecvState(map[1 := b], 0, 1, Low32(|b.data|)), written := a.data, consumed := 1))
  }

  /** Everything is written, and the receiver has said so. */
  function Written2(o: Options, a: Payload, b: Payload): System {
    var s := Acked2(o, a, b);
    s.(rcv := s.rcv.(recv := RecvState(map[], 1, 1, 0), lastSent := 0, written := a.data + b.data, consumed := 2),
       acks := multiset{Ack([], 0)})
  }

  lemma FirstRound(rcv: Receiver, p: Payload, n: nat)
    requires rcv.recv.size == rcv.lastSent == |p.data| + n && |p.data| <= n
    ensures RoundOf(rcv, p) ==
            (Transmission(rcv.recv.(size := n), rcv.lastSent, [], rcv.written + p.data), Option<Ack>.None)
  {
  }

  lemma FirstWrite(o: Options, a: Payload, b: Payload)
    requires Ordinary(o) && TwoSizes(o, a, b)
    ensures var s := Acked2(o, a, b);
            Head(s.rcv.recv) == Some(a) && Transmitted(WithQueue(s, Removed(s.rcv.recv, a), [a]), a) == Written1(o, a, b)
  {
    var s := Acked2(o, a, b);
    assert map[0 := a, 1 := b] - {0} == map[1 := b] && [] + a.data == a.data;
    FirstRound(WithQueue(s, Removed(s.rcv.recv, a), [a]).rcv, a, |b.data|);
  }

  lemma LastRound(rcv: Receiver, p: Payload)
    requires rcv.recv.size == |p.data| && rcv.lastSent > 10000
    ensures RoundOf(rcv, p) ==
            (Transmission(rcv.recv.(size := 0), 0, [], rcv.written + p.data), Some(Ack([], 0)))
  {
  }

  lemma SecondWrite(o: Options, a: Payload, b: Payload)
    requires Ordinary(o) && TwoSizes(o, a, b)
    ensures var s := Written1(o, a, b);
            Head(s.rcv.recv) == Some(b) && Transmitted(WithQueue(s, Removed(s.rcv.recv, b), [b]), b) == Written2(o, a, b)
  {
    var s := Written1(o, a, b);
    assert map[1 := b] - {1} == map[];
    assert s.acks == multiset{};
    LastRound(WithQueue(s, Removed(s.rcv.recv, b), [b]).rcv, b);
    assert multiset{} + multiset{Ack([], 0)} == multiset{Ack([], 0)};
  }

  lemma WrittenReachable(o: Options, a: Payload, b: Payload)
    requires Ordinary(o) && TwoSizes(o, a, b)
    ensures Reachable(o, Written2(o, a, b))
  {
    AckedReachable(o, a, b);
    FirstWrite(o, a, b);
    WriteReachable(o, Acked2(o, a, b), a);
    SecondWrite(o, a, b);
    WriteReachable(o, Written1(o, a, b), b);
  }

  /** With ordinary options one lost acknowledgement ends the session's progress: two payloads have been
      written, their acknowledgements have arrived, only the report that the receiver has drained is
      lost, and from then on nothing is ever written again. */
  lemma OneLossStalls(o: Options, a: Payload, b: Payload)
    requires Ordinary(o) && TwoSizes(o, a, b)
    ensures var s := Written2(o, a, b);
            && Reachable(o, s)
            && Enabled(o, s, Carrying(DropAck(Ack([], 0))))
            && Stuck(o, Next(o, s, Carrying(DropAck(Ack([], 0)))))
  {
    WrittenReachable(o, a, b);
    var s := Written2(o, a, b);
    var s' := Next(o, s, Carrying(DropAck(Ack([], 0))));
    assert multiset{Ack([], 0)} - multiset{Ack([], 0)} == multiset{};
    assert map[0 := a] - {0} == map[];
    assert s'.snd.send.buffer == map[];
  }

  // ----- it happens: a payload is lost -----

  /** Two slots in the queues, and a second payload that alone exceeds the window. */
  ghost predicate Overtaking(o: Options, a: Payload, b: Payload) {
    && TwoPayloads(o, a, b) && Slots(o.txQueueSize) == 2
    && o.dupAckThresh > 1 && o.startSize < |b.data| < TWO_32
  }

  /** Both wait in the sender's queue, and both are on the network. */
  function Queued2(o: Options, a: Payload, b: Payload): System {
    var s := Read2(o, a, b);
    s.(snd := s.snd.(held := {}, newlyBuffered := [a, b], accepted := {0, 1}), payloads := multiset{a, b})
  }

  lemma QueuedReachable(o: Options, a: Payload, b: Payload)
    requires Overtaking(o, a, b)
    ensures Reachable(o, Queued2(o, a, b))
  {
    ReadReachable(o, a, b);
    var s := Read2(o, a, b);
    StepReachable(o, s, Buffering(Buffer(0)));
    var s1 := Next(o, s, Buffering(Buffer(0)));
    assert s1.snd.newlyBuffered == [a] && s1.snd.held == {1} && s1.snd.toForward == {0} && s1.snd.accepted == {0};
    StepReachable(o, s1, Buffering(Buffer(1)));
    var s2 := Next(o, s1, Buffering(Buffer(1)));
    assert s2.snd.newlyBuffered == [a, b] && s2.snd.held == {} && s2.snd.toForward == {0, 1} && s2.snd.accepted == {0, 1};
    ForwardReachable(o, s2, a, b);
  }

  /** The first is lost, the second has arrived, out of order, and its acknowledgement too. */
  function Overtaken2(o: Options, a: Payload, b: Payload): System {
    var s, n := Queued2(o, a, b), Low32(|b.data|);
    s.(snd := s.snd.(send := Acked(o, Fresh(o), 1).(linkRecvBufferSize := n)),
       rcv := s.rcv.(recv := RecvState(map[1 := b], -1, 1, n), lastSent := n), payloads := multiset{})
  }

  /** The second has arrived out of order, and its acknowledgement is on the way. */
  function Answered2(o: Options, a: Payload, b: Payload): System {
    var s, n := Queued2(o, a, b), Low32(|b.data|);
    s.(rcv := s.rcv.(recv := RecvState(map[1 := b], -1, 1, n), lastSent := n),
       payloads := multiset{}, acks := multiset{Ack([1], n)})
  }

  lemma AnsweredReachable(o: Options, s: System, a: Payload, b: Payload)
    requires Overtaking(o, a, b) && s == Queued2(o, a, b).(payloads := multiset{b}) && Reachable(o, s)
    ensures Reachable(o, Answered2(o, a, b))
  {
    var n := |b.data|;
    DeliverOne(o, s, b);
    assert multiset{b} - multiset{b} == multiset{} && multiset{} + multiset{Ack([1], n)} == multiset{Ack([1], n)};
    assert EMPTY.tree[1 := b] == map[1 := b];
  }

  lemma OvertakenReachable(o: Options, s: System, a: Payload, b: Payload)
    requires Overtaking(o, a, b) && s == Queued2(o, a, b).(payloads := multiset{b}) && Reachable(o, s)
    ensures Reachable(o, Overtaken2(o, a, b))
  {
    AnsweredReachable(o, s, a, b);
    var ack := Ack([1], Low32(|b.data|));
    AckReachable(o, Answered2(o, a, b), ack, 1);
    assert multiset{ack} - multiset{ack} == multiset{};
  }

  /** One lost payload ends the session's progress before a single byte is written, if it waits in a queue
      of two slots and the next one overtakes it: it is in no buffer from which it could be retransmitted,
      and what overtook it keeps the gate shut. */
  lemma OneLostPayloadStalls(o: Options, a: Payload, b: Payload)
    requires Overtaking(o, a, b)
    ensures Reachable(o, Queued2(o, a, b)) && Enabled(o, Queued2(o, a, b), Carrying(Drop(a)))
    ensures Reachable(o, Overtaken2(o, a, b)) && Stuck(o, Overtaken2(o, a, b)) && Overtaken2(o, a, b).rcv.written == []
  {
    QueuedReachable(o, a, b);
    var s := Queued2(o, a, b);
    StepReachable(o, s, Carrying(Drop(a)));
    assert multiset{a, b} - multiset{a} == multiset{b};
    OvertakenReachable(o, s.(payloads := multiset{b}), a, b);
  }
}
