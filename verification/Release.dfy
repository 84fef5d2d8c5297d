/** When a sender that is shut out, while nothing is on its way, can go on without the session closing. */
module Release {
  import opened Basics
  import opened Words
  import opened Payloads
  import opened ReceiveBuffer
  import opened SendBuffer
  import opened Xgress
  import opened Transport
  import opened TransportProof
  import opened Endpoints
  import opened Stall

  /** The ways on which the sender's gate opens again without the session closing. */
  ghost predicate Releases(o: Options, s: System, steps: seq<Step>) {
    Follows(o, s, steps) && NoneCloses(steps) && Reached(o, s, steps).snd.open
  }

  lemma NoneClosesSum(a: seq<Step>, b: seq<Step>)
    requires NoneCloses(a) && NoneCloses(b)
    ensures NoneCloses(a + b)
  {
  }

  // ----- by a payload that there is room for -----

  /** The payload the receiver waits for goes into the queue, over the network and into the tree. */
  function Offering(s: System, q: int): seq<Step>
    requires 0 <= q < |s.snd.issued|
  {
    [Buffering(Buffer(q)), Carrying(Forward(q)), Deliver(s.snd.issued[q])]
  }

  /** The sender has sent all that it took in, and offers the payload that the receiver waits for; what
      the receiver holds out of order is less than 5000 bytes. */
  ghost predicate Waits(o: Options, s: System, q: int) {
    && Quiet(s) && ShutOut(s) && s.snd.send.linkSendBufferSize == 0 && s.rcv.recv.size < 5000
    && q !in s.snd.send.buffer
    && q in s.snd.held && q == s.rcv.recv.sequence + 1 && q !in s.rcv.recv.tree
    && 0 <= q < |s.snd.issued|
    && s.snd.issued[q].sequence == q && (!s.snd.issued[q].kind.SessionData? ==> s.snd.issued[q].data == [])
    && !Refuses(s.rcv.recv, s.snd.issued[q], o.rxBufferSize)
  }

  /** What the receiver reports when it has stored that payload. */
  function Reported(s: System, q: int): uint32
    requires 0 <= q < |s.snd.issued|
  {
    Plus32(s.rcv.recv.size, Low32(|s.snd.issued[q].data|))
  }

  /** What the state is after the payload was offered. */
  function Offered(s: System, q: int): System
    requires 0 <= q < |s.snd.issued|
  {
    var p, recv := s.snd.issued[q], s.rcv.recv;
    s.(snd := s.snd.(held := s.snd.held - {q}, newlyBuffered := s.snd.newlyBuffered + [p], accepted := s.snd.accepted + {q}),
       rcv := s.rcv.(recv := RecvState(recv.tree[q := p], recv.sequence,
                                       if q > recv.maxSequence then q else recv.maxSequence, Reported(s, q)),
                     lastSent := Reported(s, q)),
       acks := multiset{Ack([q], Reported(s, q))})
  }

  /** A payload that is next is not refused: only an empty tree could go with a highest sequence below it. */
  lemma WaitsWhenQuiet(o: Options, s: System, q: int)
    requires Inv(o, s) && Quiet(s) && ShutOut(s) && s.snd.send.buffer == map[] && s.rcv.recv.size < 5000
    requires q in s.snd.held && q == s.rcv.recv.sequence + 1
    ensures Waits(o, s, q)
  {
    assert TotalBytes(map[]) == 0 && Bytes([]) == [];
    if Refuses(s.rcv.recv, s.snd.issued[q], o.rxBufferSize) {
      NoSelfInflictedStall(s.rcv.recv, s.snd.issued[q], o.rxBufferSize);
    }
  }

  lemma OfferingWorks(o: Options, s: System, q: int)
    requires Waits(o, s, q) && !Full(o, s)
    ensures Follows(o, s, Offering(s, q)) && Reached(o, s, Offering(s, q)) == Offered(s, q)
  {
    var p := s.snd.issued[q];
    OneStep(o, s, Buffering(Buffer(q)));
    NextStep(o, s, [Buffering(Buffer(q))], Carrying(Forward(q)));
    var two := [Buffering(Buffer(q))] + [Carrying(Forward(q))];
    var s2 := Reached(o, s, two);
    assert s2.payloads == multiset{p} && s2.snd.toForward == {} && s2.rcv == s.rcv;
    NextStep(o, s, two, Deliver(p));
    assert two + [Deliver(p)] == Offering(s, q);
    assert s2.payloads - multiset{p} == multiset{};
  }

  lemma SmallAckOpens(o: Options, s: System, q: int)
    requires Waits(o, s, q) && Reported(s, q) <= 10000
    requires 10000 <= o.minSize <= s.snd.send.windowsSize && o.dupAckScale <= 1.0
    ensures var steps := [AckIn(Ack([q], Reported(s, q))), Buffering(Gate)];
            Follows(o, Offered(s, q), steps) && Reached(o, Offered(s, q), steps).snd.open
  {
    var s0, ack := Offered(s, q), Ack([q], Reported(s, q));
    OneStep(o, s0, AckIn(ack));
    var s1 := Next(o, s0, AckIn(ack));
    assert ack.sequences[..0] == [];
    assert AckedAll(o, s0.snd.send, []) == s0.snd.send;
    assert s1.snd.send == Acked(o, s0.snd.send, q).(linkRecvBufferSize := ack.recvBufferSize);
    NextStep(o, s0, [AckIn(ack)], Buffering(Gate));
    assert [AckIn(ack)] + [Buffering(Gate)] == [AckIn(ack), Buffering(Gate)];
  }

  const QUEUEING: seq<Step> := [Transmitting(Push), Transmitting(Remove)]
  const WRITING: seq<Step> := [Transmitting(Pull), Transmitting(Write), EmptyAck]

  /** A payload that is in the tree and next to be released moves to the queue. */
  lemma QueueOne(o: Options, s: System, tree: map<int, Payload>, p: Payload)
    requires s.rcv.recv.tree == tree[p.sequence := p] && p.sequence !in tree && p.sequence == s.rcv.recv.sequence + 1
    requires s.rcv.removing.None? && s.rcv.txQueue == []
    ensures Follows(o, s, QUEUEING)
    ensures Reached(o, s, QUEUEING) == WithQueue(s, s.rcv.recv.(tree := tree, sequence := p.sequence), [p])
  {
    PushRemove(o, s, p);
    OneStep(o, s, Transmitting(Push));
    NextStep(o, s, [Transmitting(Push)], Transmitting(Remove));
    assert [Transmitting(Push)] + [Transmitting(Remove)] == QUEUEING;
    assert tree[p.sequence := p] - {p.sequence} == tree && s.rcv.txQueue + [p] == [p];
  }

  lemma SizeBefore(size: uint32, n: nat)
    ensures Low32(Plus32(size, Low32(n)) - n) == size
  {
    hide Low32;
    Low32Sum(size + Low32(n), n);
    Low32Sum(n, n - size);
    Low32Own(size);
  }

  /** Writing it brings the size back to what it was, and the receiver reports that. */
  lemma WriteOne(o: Options, s: System, p: Payload, size: uint32)
    requires !s.rcv.done && !s.rcv.owesAck && s.rcv.hand.None? && s.rcv.txQueue == [p] && p.kind.SessionData?
    requires s.rcv.recv.size == s.rcv.lastSent == Plus32(size, Low32(|p.data|)) > 10000 && size < 5000
    ensures Follows(o, s, WRITING)
    ensures Reached(o, s, WRITING).snd == s.snd && Ack([], size) in Reached(o, s, WRITING).acks
  {
    SizeBefore(size, |p.data|);
    var (t, emptyAck) := RoundOf(s.rcv, p);
    assert [p][1..] == [];
    TransmitOneIsARun(o, s, t, false, emptyAck);
    assert RoundSteps(emptyAck) == WRITING;
  }

  lemma LargeIsReported(o: Options, s: System, q: int)
    requires Waits(o, s, q) && Reported(s, q) > 10000
    ensures Follows(o, Offered(s, q), QUEUEING + WRITING)
    ensures var s' := Reached(o, Offered(s, q), QUEUEING + WRITING);
            s'.snd == Offered(s, q).snd && Ack([], s.rcv.recv.size) in s'.acks
  {
    var p, s0 := s.snd.issued[q], Offered(s, q);
    assert p.kind.SessionData?;
    QueueOne(o, s0, s.rcv.recv.tree, p);
    WriteOne(o, Reached(o, s0, QUEUEING), p, s.rcv.recv.size);
    MoreSteps(o, s0, QUEUEING, WRITING);
  }

  function Opening(ack: Ack): seq<Step> {
    [AckIn(ack), Buffering(Gate)]
  }

  lemma EmptyAckOpens(o: Options, s: System, size: uint32)
    requires Ack([], size) in s.acks && !s.snd.closed && s.snd.send.linkSendBufferSize == 0
    requires size <= s.snd.send.windowsSize
    ensures Follows(o, s, Opening(Ack([], size))) && Reached(o, s, Opening(Ack([], size))).snd.open
  {
    var ack := Ack([], size);
    OneStep(o, s, AckIn(ack));
    NextStep(o, s, [AckIn(ack)], Buffering(Gate));
    assert [AckIn(ack)] + [Buffering(Gate)] == Opening(ack);
  }

  lemma SmallReleases(o: Options, s: System, q: int) returns (steps: seq<Step>)
    requires Waits(o, s, q) && !Full(o, s) && Reported(s, q) <= 10000
    requires 10000 <= o.minSize <= s.snd.send.windowsSize && o.dupAckScale <= 1.0
    ensures Releases(o, s, steps)
  {
    OfferingWorks(o, s, q);
    SmallAckOpens(o, s, q);
    MoreSteps(o, s, Offering(s, q), Opening(Ack([q], Reported(s, q))));
    NoneClosesSum(Offering(s, q), Opening(Ack([q], Reported(s, q))));
    steps := Offering(s, q) + Opening(Ack([q], Reported(s, q)));
  }

  /** The payload is written, the receiver reports the room that this makes, and the gate opens. */
  lemma DrainOpens(o: Options, s: System, q: int) returns (steps: seq<Step>)
    requires Waits(o, s, q) && Reported(s, q) > 10000 && 5000 <= s.snd.send.windowsSize
    ensures Follows(o, Offered(s, q), steps) && NoneCloses(steps) && Reached(o, Offered(s, q), steps).snd.open
  {
    var s0, last := Offered(s, q), Opening(Ack([], s.rcv.recv.size));
    LargeIsReported(o, s, q);
    EmptyAckOpens(o, Reached(o, s0, QUEUEING + WRITING), s.rcv.recv.size);
    MoreSteps(o, s0, QUEUEING + WRITING, last);
    NoneClosesSum(QUEUEING + WRITING, last);
    steps := QUEUEING + WRITING + last;
  }

  lemma LargeReleases(o: Options, s: System, q: int) returns (steps: seq<Step>)
    requires Waits(o, s, q) && !Full(o, s) && Reported(s, q) > 10000 && 5000 <= s.snd.send.windowsSize
    ensures Releases(o, s, steps)
  {
    OfferingWorks(o, s, q);
    var rest := DrainOpens(o, s, q);
    MoreSteps(o, s, Offering(s, q), rest);
    NoneClosesSum(Offering(s, q), rest);
    steps := Offering(s, q) + rest;
  }

  lemma RoomReleases(o: Options, s: System, q: int) returns (steps: seq<Step>)
    requires Waits(o, s, q) && !Full(o, s)
    requires 10000 <= o.minSize <= s.snd.send.windowsSize && o.dupAckScale <= 1.0
    ensures Releases(o, s, steps)
  {
    if Reported(s, q) <= 10000 {
      steps := SmallReleases(o, s, q);
    } else {
      steps := LargeReleases(o, s, q);
    }
  }

  // ----- by retransmitting what is unacked -----

  lemma {:induction false} ReachedKeeps(o: Options, s: System, steps: seq<Step>)
    requires Inv(o, s) && Follows(o, s, steps)
    ensures Inv(o, Reached(o, s, steps))
    decreases |steps|
  {
    if steps != [] {
      StepKeeps(o, s, steps[0]);
      ReachedKeeps(o, Next(o, s, steps[0]), steps[1..]);
    }
  }

  lemma RetransmitOnce(o: Options, send: SendState)
    requires Sensible(o) && o.retxWindowScale <= 1.0 && o.minSize <= send.windowsSize <= o.maxSize
    ensures var r := Retransmitted(o, send, 1);
            && r.buffer == send.buffer && r.linkSendBufferSize == send.linkSendBufferSize
            && o.minSize <= r.windowsSize <= o.maxSize && r.accumulator <= send.accumulator
  {
    assert Retransmitted(o, send, 0) == send;
    ScaledBounds(o, send.windowsSize, o.retxWindowScale);
  }

  /** What may still be acknowledged does not overflow the window. */
  ghost predicate WindowSafe(o: Options, send: SendState) {
    o.minSize <= send.windowsSize <= o.maxSize && FewBytes(o, send.accumulator + TotalBytes(send.buffer))
  }

  lemma AckOnce(o: Options, send: SendState, q: int)
    requires Sensible(o) && WindowSafe(o, send) && q in send.buffer
    ensures Acked(o, send, q).buffer == send.buffer - {q} && WindowSafe(o, Acked(o, send, q))
  {
    TotalBytesWithout(send.buffer, q);
    var accumulator := Plus32(send.accumulator, Low32(|send.buffer[q].data|));
    var total := send.accumulator + TotalBytes(send.buffer);
    FewerBytes(o, accumulator, total);
    GrownBounds(o, send.windowsSize, Increase(o, accumulator));
    FewerBytes(o, Acked(o, send, q).accumulator + TotalBytes(send.buffer - {q}), total);
  }

  /** Nothing is on its way, and the receiver has all that is unacked; what it holds fits the window. */
  ghost predicate Resendable(o: Options, s: System) {
    && Quiet(s) && Sensible(o) && o.retxWindowScale <= 1.0
    && WindowSafe(o, s.snd.send) && s.rcv.recv.size <= o.minSize
    && forall k :: k in s.snd.send.buffer ==> Stored(s.rcv.recv, k)
  }

  /** Queueing, if it is not queued already, and resending a payload. */
  function Resending(s: System, q: int): seq<Step> {
    (if q in s.snd.requeued then [] else [Buffering(Retransmit({q}))]) + [Buffering(LookAgain(q)), Carrying(Resend(q))]
  }

  function Resent(o: Options, s: System, q: int): System
    requires 0 <= q < |s.snd.issued|
  {
    s.(snd := s.snd.(send := if q in s.snd.requeued then s.snd.send else Retransmitted(o, s.snd.send, 1),
                     requeued := s.snd.requeued - {q}),
       payloads := multiset{s.snd.issued[q]})
  }

  lemma LookAndResend(o: Options, s: System, q: int)
    requires Quiet(s) && q in s.snd.send.buffer && 0 <= q < |s.snd.issued| && q in s.snd.requeued
    ensures var two := [Buffering(LookAgain(q)), Carrying(Resend(q))];
            && Follows(o, s, two)
            && Reached(o, s, two) == s.(snd := s.snd.(requeued := s.snd.requeued - {q}), payloads := multiset{s.snd.issued[q]})
  {
    OneStep(o, s, Buffering(LookAgain(q)));
    NextStep(o, s, [Buffering(LookAgain(q))], Carrying(Resend(q)));
    assert [Buffering(LookAgain(q))] + [Carrying(Resend(q))] == [Buffering(LookAgain(q)), Carrying(Resend(q))];
    assert {} + {q} - {q} == {} && multiset{} + multiset{s.snd.issued[q]} == multiset{s.snd.issued[q]};
  }

  lemma ResendingWorks(o: Options, s: System, q: int)
    requires Quiet(s) && q in s.snd.send.buffer && 0 <= q < |s.snd.issued|
    ensures Follows(o, s, Resending(s, q)) && Reached(o, s, Resending(s, q)) == Resent(o, s, q)
  {
    var two := [Buffering(LookAgain(q)), Carrying(Resend(q))];
    if q in s.snd.requeued {
      LookAndResend(o, s, q);
      assert Resending(s, q) == two;
    } else {
      OneStep(o, s, Buffering(Retransmit({q})));
      var s1 := Next(o, s, Buffering(Retransmit({q})));
      RetransmittedBuffer(o, s.snd.send, 1);
      LookAndResend(o, s1, q);
      MoreSteps(o, s, [Buffering(Retransmit({q}))], two);
      assert s.snd.requeued + {q} - {q} == s.snd.requeued - {q};
    }
  }

  lemma StoredIsKnown(o: Options, s: System, q: int)
    requires Inv(o, s) && q in s.snd.send.buffer && Stored(s.rcv.recv, q)
    ensures 0 <= q < |s.snd.issued| && s.snd.issued[q].sequence == q
    ensures Received(s.rcv.recv, s.snd.issued[q], o.rxBufferSize) == s.rcv.recv
    ensures !Refuses(s.rcv.recv, s.snd.issued[q], o.rxBufferSize)
  {
    if q in s.rcv.recv.tree {
      assert Genuine(s.snd.issued, s.rcv.recv.tree[q]);
      assert s.rcv.recv.tree[q := s.rcv.recv.tree[q]] == s.rcv.recv.tree;
    }
  }

  /** The receiver answers the payload, which it has, with its size; the acknowledgement arrives. */
  lemma AnswerResent(o: Options, s: System, p: Payload)
    requires s.payloads == multiset{p} && s.acks == multiset{} && s.rcv.removing.None? && !s.snd.closed
    requires Received(s.rcv.recv, p, o.rxBufferSize) == s.rcv.recv && !Refuses(s.rcv.recv, p, o.rxBufferSize)
    ensures var ack := Ack([p.sequence], s.rcv.recv.size);
            var two := [Deliver(p), AckIn(ack)];
            && Follows(o, s, two)
            && Reached(o, s, two) ==
               s.(snd := s.snd.(send := Acked(o, s.snd.send, p.sequence).(linkRecvBufferSize := s.rcv.recv.size)),
                  rcv := s.rcv.(lastSent := s.rcv.recv.size), payloads := multiset{})
  {
    var ack := Ack([p.sequence], s.rcv.recv.size);
    OneStep(o, s, Deliver(p));
    NextStep(o, s, [Deliver(p)], AckIn(ack));
    assert [Deliver(p)] + [AckIn(ack)] == [Deliver(p), AckIn(ack)];
    assert ack.sequences[..0] == [] && AckedAll(o, s.snd.send, []) == s.snd.send;
    assert multiset{p} - multiset{p} == multiset{};
    assert multiset{} + multiset{ack} - multiset{ack} == multiset{};
  }

  /** One unacked payload less, and the sender knows the receiver's size. */
  function AfterResend(o: Options, s: System, q: int): System
    requires 0 <= q < |s.snd.issued|
  {
    var size := s.rcv.recv.size;
    s.(snd := s.snd.(send := Acked(o, Resent(o, s, q).snd.send, q).(linkRecvBufferSize := size),
                     requeued := s.snd.requeued - {q}),
       rcv := s.rcv.(lastSent := size))
  }

  function ResendSteps(s: System, q: int): seq<Step>
    requires 0 <= q < |s.snd.issued|
  {
    Resending(s, q) + [Deliver(s.snd.issued[q]), AckIn(Ack([q], s.rcv.recv.size))]
  }

  lemma ResendWorks(o: Options, s: System, q: int)
    requires Quiet(s) && q in s.snd.send.buffer && 0 <= q < |s.snd.issued| && s.snd.issued[q].sequence == q
    requires Received(s.rcv.recv, s.snd.issued[q], o.rxBufferSize) == s.rcv.recv
    requires !Refuses(s.rcv.recv, s.snd.issued[q], o.rxBufferSize)
    ensures Follows(o, s, ResendSteps(s, q)) && Reached(o, s, ResendSteps(s, q)) == AfterResend(o, s, q)
  {
    ResendingWorks(o, s, q);
    AnswerResent(o, Resent(o, s, q), s.snd.issued[q]);
    MoreSteps(o, s, Resending(s, q), [Deliver(s.snd.issued[q]), AckIn(Ack([q], s.rcv.recv.size))]);
  }

  lemma ResendOne(o: Options, s: System, q: int)
    requires Inv(o, s) && Resendable(o, s) && q in s.snd.send.buffer
    ensures 0 <= q < |s.snd.issued|
    ensures Follows(o, s, ResendSteps(s, q)) && Reached(o, s, ResendSteps(s, q)) == AfterResend(o, s, q)
    ensures Inv(o, AfterResend(o, s, q))
  {
    StoredIsKnown(o, s, q);
    ResendWorks(o, s, q);
    ReachedKeeps(o, s, ResendSteps(s, q));
  }

  lemma ResendKeeps(o: Options, s: System, q: int)
    requires Resendable(o, s) && q in s.snd.send.buffer && 0 <= q < |s.snd.issued|
    ensures Resendable(o, AfterResend(o, s, q))
    ensures AfterResend(o, s, q).snd.send.buffer == s.snd.send.buffer - {q}
  {
    ResentSafe(o, s, q);
  }

  lemma ResentSafe(o: Options, s: System, q: int)
    requires Sensible(o) && o.retxWindowScale <= 1.0 && WindowSafe(o, s.snd.send) && q in s.snd.send.buffer
    requires 0 <= q < |s.snd.issued|
    ensures var send := Acked(o, Resent(o, s, q).snd.send, q);
            send.buffer == s.snd.send.buffer - {q} && WindowSafe(o, send)
  {
    var send1 := Resent(o, s, q).snd.send;
    if q !in s.snd.requeued {
      RetransmitOnce(o, s.snd.send);
      FewerBytes(o, send1.accumulator + TotalBytes(send1.buffer), s.snd.send.accumulator + TotalBytes(s.snd.send.buffer));
    }
    AckOnce(o, send1, q);
  }

  /** When all has been acknowledged the gate opens. */
  lemma GateOpens(o: Options, s: System)
    requires Inv(o, s) && Resendable(o, s) && s.snd.send.buffer == map[]
    requires s.snd.send.linkRecvBufferSize == s.rcv.recv.size
    ensures Follows(o, s, [Buffering(Gate)]) && Reached(o, s, [Buffering(Gate)]).snd.open
  {
    OneStep(o, s, Buffering(Gate));
    assert TotalBytes(map[]) == 0 && SizeRight(s.snd.send);
  }

  lemma ResendStepsOpen(s: System, q: int)
    requires 0 <= q < |s.snd.issued|
    ensures NoneCloses(ResendSteps(s, q))
  {
  }

  /** One payload after the other is resent; `s'` is where that leads. */
  lemma ResentOnce(o: Options, s: System, q: int) returns (steps: seq<Step>, s': System)
    requires Inv(o, s) && Resendable(o, s) && q in s.snd.send.buffer
    ensures Follows(o, s, steps) && NoneCloses(steps) && Reached(o, s, steps) == s'
    ensures Inv(o, s') && Resendable(o, s')
    ensures |s'.snd.send.buffer| < |s.snd.send.buffer| && s'.snd.send.linkRecvBufferSize == s'.rcv.recv.size
  {
    ResendOne(o, s, q);
    steps, s' := ResendSteps(s, q), AfterResend(o, s, q);
    ResendStepsOpen(s, q);
    ResendKeeps(o, s, q);
    Smaller(s.snd.send.buffer, q);
  }

  lemma {:induction false} AllResent(o: Options, s: System) returns (steps: seq<Step>)
    requires Inv(o, s) && Resendable(o, s)
    requires s.snd.send.buffer != map[] || s.snd.send.linkRecvBufferSize == s.rcv.recv.size
    ensures Releases(o, s, steps)
    decreases |s.snd.send.buffer|
  {
    if s.snd.send.buffer == map[] {
      GateOpens(o, s);
      steps := [Buffering(Gate)];
    } else {
      var first, s' := ResentOnce(o, s, AnyOf(s.snd.send.buffer.Keys));
      var rest := AllResent(o, s');
      ReleasesLater(o, s, first, rest);
      steps := first + rest;
    }
  }

  lemma ReleasesLater(o: Options, s: System, first: seq<Step>, rest: seq<Step>)
    requires Follows(o, s, first) && NoneCloses(first) && Releases(o, Reached(o, s, first), rest)
    ensures Releases(o, s, first + rest)
  {
    MoreSteps(o, s, first, rest);
    NoneClosesSum(first, rest);
  }

  // ----- exactly -----

  /** The window's minimum is at least 10000 bytes, and it is scaled down on trouble, as by default. */
  ghost predicate Usual(o: Options) {
    Sensible(o) && 10000 <= o.minSize && o.dupAckScale <= 1.0 && o.retxWindowScale <= 1.0
  }

  lemma DefaultsAreUsual(outOfRange: real -> uint32)
    ensures Usual(DefaultOptions(outOfRange))
  {
  }

  /** A sender that is shut out while nothing is on its way, that has the next payload to offer, and whose
      receiver has all that is unacked and holds less than 5000 bytes out of order, can go on without the
      session closing if and only if it has something unacked to retransmit or its queue has room: only
      what it still sends can make the receiver report again. */
  lemma ReleasedExactly(o: Options, s: System, q: int)
    requires Usual(o) && Reachable(o, s) && Quiet(s) && ShutOut(s)
    requires WindowSafe(o, s.snd.send) && s.rcv.recv.size < 5000
    requires forall k :: k in s.snd.send.buffer ==> Stored(s.rcv.recv, k)
    requires q in s.snd.held && q == s.rcv.recv.sequence + 1
    ensures (exists steps :: Releases(o, s, steps)) <==>
            s.snd.send.buffer != map[] || |s.snd.newlyBuffered| < Slots(o.txQueueSize)
  {
    ReachableRight(o, s);
    if s.snd.send.buffer != map[] {
      var steps := AllResent(o, s);
      assert Releases(o, s, steps);
    } else if Full(o, s) {
      forall steps ensures !Releases(o, s, steps) {
        if Follows(o, s, steps) && NoneCloses(steps) {
          StuckForever(o, s, steps);
        }
      }
    } else {
      WaitsWhenQuiet(o, s, q);
      var steps := RoomReleases(o, s, q);
      assert Releases(o, s, steps);
    }
  }
}
