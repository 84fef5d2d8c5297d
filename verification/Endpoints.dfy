/** The loops of both sides, as their classes describe them, are runs of the transport's steps. */
module Endpoints {
  import opened Basics
  import opened Words
  import opened Payloads
  import opened ReceiveBuffer
  import opened SendBuffer
  import opened Xgress
  import opened Transport

  lemma OneStep(o: Options, s: System, step: Step)
    requires Enabled(o, s, step)
    ensures Follows(o, s, [step]) && Reached(o, s, [step]) == Next(o, s, step)
  {
    assert [step][1..] == [];
    assert Follows(o, Next(o, s, step), []);
  }

  lemma {:induction false} MoreSteps(o: Options, s: System, steps: seq<Step>, more: seq<Step>)
    requires Follows(o, s, steps) && Follows(o, Reached(o, s, steps), more)
    ensures Follows(o, s, steps + more) && Reached(o, s, steps + more) == Reached(o, Reached(o, s, steps), more)
    decreases |steps|
  {
    if steps == [] {
      assert steps + more == more;
    } else {
      MoreSteps(o, Next(o, s, steps[0]), steps[1..], more);
      assert (steps + more)[1..] == steps[1..] + more;
    }
  }

  lemma NextStep(o: Options, s: System, steps: seq<Step>, step: Step)
    requires Follows(o, s, steps) && Enabled(o, Reached(o, s, steps), step)
    ensures Follows(o, s, steps + [step]) && Reached(o, s, steps + [step]) == Next(o, Reached(o, s, steps), step)
  {
    OneStep(o, Reached(o, s, steps), step);
    MoreSteps(o, s, steps, [step]);
  }

  lemma StepReachable(o: Options, s: System, step: Step)
    requires Reachable(o, s) && Enabled(o, s, step)
    ensures Reachable(o, Next(o, s, step))
  {
    var run :| IsRun(o, run) && run[|run| - 1] == s;
    var s' := Next(o, s, step);
    var run' := run + [s'];
    assert Leads(o, s, s');
    assert IsRun(o, run') && run'[|run'| - 1] == s';
  }

  /** What can be reached from a reachable state is reachable. */
  lemma {:induction false} ReachedReachable(o: Options, s: System, steps: seq<Step>)
    requires Reachable(o, s) && Follows(o, s, steps)
    ensures Reachable(o, Reached(o, s, steps))
    decreases |steps|
  {
    if steps != [] {
      StepReachable(o, s, steps[0]);
      ReachedReachable(o, Next(o, s, steps[0]), steps[1..]);
    }
  }

  // ----- queueSends -----

  /** The state with this reorder buffer and this queue. */
  function WithQueue(s: System, recv: RecvState, queue: seq<Payload>): System {
    s.(rcv := s.rcv.(recv := recv, txQueue := queue))
  }

  function PushAndRemove(n: nat): seq<Step> {
    if n == 0 then [] else [Transmitting(Push), Transmitting(Remove)] + PushAndRemove(n - 1)
  }

  lemma PushRemove(o: Options, s: System, p: Payload)
    requires s.rcv.removing.None? && Head(s.rcv.recv) == Some(p) && |s.rcv.txQueue| < Slots(o.txQueueSize)
    ensures Enabled(o, s, Transmitting(Push))
    ensures Enabled(o, Next(o, s, Transmitting(Push)), Transmitting(Remove))
    ensures Next(o, Next(o, s, Transmitting(Push)), Transmitting(Remove)) ==
            WithQueue(s, Removed(s.rcv.recv, p), s.rcv.txQueue + [p])
  {
  }

  lemma MovedFirst(recv: RecvState, queue: seq<Payload>, recv': RecvState, queue': seq<Payload>, slots: nat)
    requires Ordered(recv) && Moved(recv, queue, recv', queue', slots) && |queue'| > |queue|
    ensures Head(recv) == Some(queue'[|queue|]) && |queue| < slots
    ensures Ordered(Removed(recv, queue'[|queue|]))
    ensures Moved(Removed(recv, queue'[|queue|]), queue + [queue'[|queue|]], recv', queue', slots)
  {
    var p := queue'[|queue|];
    var k := recv.sequence + 1;
    assert k in recv.tree && queue'[|queue| + k - recv.sequence - 1] == recv.tree[k];
    assert queue + [p] <= queue';
  }

  lemma MovedNone(recv: RecvState, queue: seq<Payload>, recv': RecvState, queue': seq<Payload>, slots: nat)
    requires Ordered(recv) && Moved(recv, queue, recv', queue', slots) && |queue'| == |queue|
    ensures recv' == recv && queue' == queue
  {
    assert recv'.sequence == recv.sequence;
    forall k | k in recv.tree ensures k in recv'.tree {
      assert recv.sequence < k;
    }
    forall k | k in recv'.tree ensures k in recv.tree {
    }
    assert recv'.tree.Keys == recv.tree.Keys;
    assert forall k :: k in recv'.tree ==> recv'.tree[k] == recv.tree[k];
    assert recv'.tree == recv.tree;
    assert queue' == queue;
  }

  /** A call of `QueueSends` is a run of pushes and removals, one pair for each payload that moves. */
  lemma {:induction false} QueueSendsIsARun(o: Options, s: System, recv: RecvState, queue: seq<Payload>)
    requires s.rcv.removing.None? && Ordered(s.rcv.recv)
    requires RunQueued(s.rcv.recv, s.rcv.txQueue, recv, queue, Slots(o.txQueueSize))
    ensures var steps := PushAndRemove(|queue| - |s.rcv.txQueue|);
            Follows(o, s, steps) && Reached(o, s, steps) == WithQueue(s, recv, queue)
    decreases |queue| - |s.rcv.txQueue|
  {
    if |queue| == |s.rcv.txQueue| {
      MovedNone(s.rcv.recv, s.rcv.txQueue, recv, queue, Slots(o.txQueueSize));
    } else {
      var p := queue[|s.rcv.txQueue|];
      MovedFirst(s.rcv.recv, s.rcv.txQueue, recv, queue, Slots(o.txQueueSize));
      PushRemove(o, s, p);
      var s1 := Next(o, s, Transmitting(Push));
      var s2 := Next(o, s1, Transmitting(Remove));
      QueueSendsIsARun(o, s2, recv, queue);
      var rest := PushAndRemove(|queue| - |s2.rcv.txQueue|);
      var steps := PushAndRemove(|queue| - |s.rcv.txQueue|);
      assert steps[0] == Transmitting(Push) && steps[1..][0] == Transmitting(Remove) && steps[1..][1..] == rest;
      assert Follows(o, s1, steps[1..]) && Reached(o, s1, steps[1..]) == Reached(o, s2, rest);
    }
  }

  // ----- PayloadReceived -----

  /** What `PayloadReceived` makes of the state when it answers so. */
  function WithAnswer(s: System, p: Payload, recv: RecvState, lastSent: uint32, ack: Option<Ack>): System {
    s.(rcv := s.rcv.(recv := recv, lastSent := lastSent), payloads := s.payloads - multiset{p},
       acks := if ack.Some? then s.acks + multiset{ack.value} else s.acks)
  }

  /** A call of `PayloadReceived` is the delivery of the payload. */
  lemma PayloadReceivedIsADelivery(o: Options, s: System, p: Payload, recv: RecvState, lastSent: uint32, ack: Option<Ack>)
    requires Ordered(s.rcv.recv) && Enabled(o, s, Deliver(p))
    requires Answered(s.rcv.recv, s.rcv.lastSent, p, o.rxBufferSize, recv, lastSent, ack)
    ensures Next(o, s, Deliver(p)) == WithAnswer(s, p, recv, lastSent, ack)
  {
    ReceivedKeeps(s.rcv.recv, p, o.rxBufferSize);
  }

  // ----- one round of tx -----

  function ViewOf(rcv: Receiver): Transmission {
    Transmission(rcv.recv, rcv.lastSent, rcv.txQueue, rcv.written)
  }

  /** What a round of the transmit loop makes of the state when it ends so. */
  function WithRound(s: System, t: Transmission, done: bool, emptyAck: Option<Ack>): System
    requires s.rcv.txQueue != []
  {
    s.(rcv := s.rcv.(recv := t.recv, lastSent := t.lastSent, txQueue := t.queue, written := t.written,
                     done := done,
                     hand := if done then Some(s.rcv.txQueue[0]) else None,
                     consumed := if done then s.rcv.consumed else s.rcv.consumed + 1),
       acks := if emptyAck.Some? then s.acks + multiset{emptyAck.value} else s.acks)
  }

  function RoundSteps(emptyAck: Option<Ack>): seq<Step> {
    [Transmitting(Pull), Transmitting(Write)] + if emptyAck.Some? then [EmptyAck] else []
  }

  /** The state after the write, before anything is reported. */
  function Pulled(s: System): System
    requires s.rcv.txQueue != []
  {
    s.(rcv := NextWrite(s.rcv.(hand := Some(s.rcv.txQueue[0]), txQueue := s.rcv.txQueue[1..])))
  }

  lemma PullAndWrite(o: Options, s: System)
    requires !s.rcv.done && !s.rcv.owesAck && s.rcv.hand.None? && s.rcv.txQueue != []
    ensures var two := [Transmitting(Pull), Transmitting(Write)];
            Follows(o, s, two) && Reached(o, s, two) == Pulled(s)
  {
    OneStep(o, s, Transmitting(Pull));
    NextStep(o, s, [Transmitting(Pull)], Transmitting(Write));
    assert [Transmitting(Pull)] + [Transmitting(Write)] == [Transmitting(Pull), Transmitting(Write)];
  }

  lemma PulledIsRound(o: Options, s: System, t: Transmission, done: bool, emptyAck: Option<Ack>)
    requires !s.rcv.done && !s.rcv.owesAck && s.rcv.hand.None? && s.rcv.txQueue != []
    requires RoundDone(ViewOf(s.rcv), t, done, emptyAck)
    ensures Pulled(s).rcv.owesAck <==> emptyAck.Some?
    ensures WithRound(s, t, done, emptyAck) == if emptyAck.Some? then Next(o, Pulled(s), EmptyAck) else Pulled(s)
  {
    assert s.rcv.written + [] == s.rcv.written;
  }

  /** A call of `TransmitOne` is a run of taking a payload, handling it and, if it is worth it, sending
      an empty acknowledgement. */
  lemma TransmitOneIsARun(o: Options, s: System, t: Transmission, done: bool, emptyAck: Option<Ack>)
    requires !s.rcv.done && !s.rcv.owesAck && s.rcv.hand.None? && s.rcv.txQueue != []
    requires RoundDone(ViewOf(s.rcv), t, done, emptyAck)
    ensures Follows(o, s, RoundSteps(emptyAck))
    ensures Reached(o, s, RoundSteps(emptyAck)) == WithRound(s, t, done, emptyAck)
  {
    var two := [Transmitting(Pull), Transmitting(Write)];
    PullAndWrite(o, s);
    PulledIsRound(o, s, t, done, emptyAck);
    if emptyAck.Some? {
      NextStep(o, s, two, EmptyAck);
      assert RoundSteps(emptyAck) == two + [EmptyAck];
    } else {
      assert RoundSteps(emptyAck) == two;
    }
  }

  // ----- a round of the send buffer's run loop -----

  function AckSteps(acks: seq<Ack>): seq<Step> {
    if acks == [] then [] else AckSteps(acks[..|acks| - 1]) + [AckIn(acks[|acks| - 1])]
  }

  /** The state with the send buffer like this, and without these acknowledgements on the network. */
  function WithAcks(s: System, send: SendState, acks: seq<Ack>): System {
    s.(snd := s.snd.(send := send), acks := s.acks - multiset(acks))
  }

  lemma OneMoreAck(o: Options, s: System, send: SendState, acks: seq<Ack>, ack: Ack)
    requires !s.snd.closed && multiset(acks + [ack]) <= s.acks
    ensures Enabled(o, WithAcks(s, send, acks), AckIn(ack))
    ensures Next(o, WithAcks(s, send, acks), AckIn(ack)) == WithAcks(s, Acknowledged(o, send, ack), acks + [ack])
  {
    assert multiset(acks + [ack]) == multiset(acks) + multiset{ack};
    assert (s.acks - multiset(acks))[ack] > 0;
    assert s.acks - multiset(acks) - multiset{ack} == s.acks - multiset(acks + [ack]);
  }

  lemma FrontFits(acks: seq<Ack>, ack: Ack, all: multiset<Ack>)
    requires multiset(acks + [ack]) <= all
    ensures multiset(acks) <= all
  {
    assert multiset(acks + [ack]) == multiset(acks) + multiset{ack};
  }

  lemma AckStepsNext(o: Options, s: SendState, acks: seq<Ack>, ack: Ack)
    ensures AckSteps(acks + [ack]) == AckSteps(acks) + [AckIn(ack)]
    ensures AcknowledgedEach(o, s, acks + [ack]) == Acknowledged(o, AcknowledgedEach(o, s, acks), ack)
  {
    assert (acks + [ack])[..|acks|] == acks;
  }

  lemma AcksExtend(o: Options, s: System, acks: seq<Ack>, ack: Ack)
    requires !s.snd.closed && multiset(acks + [ack]) <= s.acks
    requires Follows(o, s, AckSteps(acks))
    requires Reached(o, s, AckSteps(acks)) == WithAcks(s, AcknowledgedEach(o, s.snd.send, acks), acks)
    ensures Follows(o, s, AckSteps(acks + [ack]))
    ensures Reached(o, s, AckSteps(acks + [ack])) ==
            WithAcks(s, AcknowledgedEach(o, s.snd.send, acks + [ack]), acks + [ack])
  {
    OneMoreAck(o, s, AcknowledgedEach(o, s.snd.send, acks), acks, ack);
    NextStep(o, s, AckSteps(acks), AckIn(ack));
    AckStepsNext(o, s.snd.send, acks, ack);
  }

  lemma {:induction false} AcksAreARun(o: Options, s: System, acks: seq<Ack>)
    requires !s.snd.closed && multiset(acks) <= s.acks
    ensures Follows(o, s, AckSteps(acks))
    ensures Reached(o, s, AckSteps(acks)) == WithAcks(s, AcknowledgedEach(o, s.snd.send, acks), acks)
    decreases |acks|
  {
    if acks == [] {
      assert s.acks - multiset(acks) == s.acks;
    } else {
      var front, ack := acks[..|acks| - 1], acks[|acks| - 1];
      assert acks == front + [ack];
      FrontFits(front, ack, s.acks);
      AcksAreARun(o, s, front);
      AcksExtend(o, s, front, ack);
    }
  }

  lemma {:induction false} MembersCount(due: seq<int>)
    requires forall i, j :: 0 <= i < j < |due| ==> due[i] != due[j]
    ensures |Members(due)| == |due|
  {
    if due != [] {
      var n := |due| - 1;
      MembersCount(due[..n]);
      assert due == due[..n] + [due[n]];
      assert Members(due) == Members(due[..n]) + {due[n]} && due[n] !in Members(due[..n]);
    }
  }

  function Due(choice: Choice): seq<int> {
    if choice.Offered? then [] else choice.due
  }

  /** The acknowledgements of a round, with the one that the select may choose. */
  function AcksOf(acks: seq<Ack>, choice: Choice): seq<Ack> {
    if choice.AckReceived? then acks + [choice.ack] else acks
  }

  function LastStep(choice: Choice, taken: bool): seq<Step> {
    if choice.Offered? then if taken then [Buffering(TakeIn)] else []
    else [Buffering(Retransmit(Members(choice.due)))]
  }

  /** The gate is set, the acknowledgements are taken in, and the select makes its choice. */
  function RunLoopSteps(acks: seq<Ack>, choice: Choice, taken: bool): seq<Step> {
    [Buffering(Gate)] + AckSteps(AcksOf(acks, choice)) + LastStep(choice, taken)
  }

  function Opened(snd: Sender): Sender {
    snd.(open := !(Blocked(snd.send) && !snd.closeWhenEmpty))
  }

  /** What a round of the run loop makes of the state. */
  function WithRunLoop(o: Options, s: System, acks: seq<Ack>, choice: Choice, taken: bool): System
    requires taken ==> s.snd.newlyBuffered != []
  {
    s.(snd := Opened(s.snd).(send := Chosen(o, AcknowledgedEach(o, s.snd.send, acks), choice, taken),
                             open := !taken && Opened(s.snd).open,
                             newlyBuffered := if taken then s.snd.newlyBuffered[1..] else s.snd.newlyBuffered,
                             requeued := s.snd.requeued + Members(Due(choice))),
       acks := s.acks - multiset(AcksOf(acks, choice)))
  }

  /** What the round may meet: acknowledgements that are there, the payload at the head of the queue, and
      payloads that are unacked after these acknowledgements and not queued for retransmission yet. */
  ghost predicate RoundPossible(o: Options, s: System, acks: seq<Ack>, choice: Choice) {
    && !s.snd.closed && multiset(AcksOf(acks, choice)) <= s.acks
    && (choice.Offered? ==> s.snd.newlyBuffered != [] && choice.p == s.snd.newlyBuffered[0])
    && (forall i, j :: 0 <= i < j < |Due(choice)| ==> Due(choice)[i] != Due(choice)[j])
    && Members(Due(choice)) <= AcknowledgedEach(o, s.snd.send, AcksOf(acks, choice)).buffer.Keys
    && Members(Due(choice)) !! s.snd.requeued
  }

  lemma LastStepWorks(o: Options, s: System, s2: System, acks: seq<Ack>, choice: Choice, taken: bool)
    requires RoundPossible(o, s, acks, choice) && (taken ==> choice.Offered? && Opened(s.snd).open)
    requires s2 == WithAcks(s.(snd := Opened(s.snd)), AcknowledgedEach(o, s.snd.send, AcksOf(acks, choice)), AcksOf(acks, choice))
    ensures Follows(o, s2, LastStep(choice, taken))
    ensures Reached(o, s2, LastStep(choice, taken)) == WithRunLoop(o, s, acks, choice, taken)
  {
    MembersCount(Due(choice));
    if choice.AckReceived? {
      assert (acks + [choice.ack])[..|acks|] == acks;
    }
    if choice.Offered? {
      assert s.snd.requeued + Members([]) == s.snd.requeued;
    }
    if LastStep(choice, taken) != [] {
      OneStep(o, s2, LastStep(choice, taken)[0]);
    }
  }

  /** A call of `Round` is a run of setting the gate, taking in the acknowledgements and taking in a
      payload or retransmitting what is due. */
  lemma RoundIsARun(o: Options, s: System, acks: seq<Ack>, choice: Choice, taken: bool)
    requires RoundPossible(o, s, acks, choice)
    requires taken <==> choice.Offered? && (!Blocked(s.snd.send) || s.snd.closeWhenEmpty)
    ensures Follows(o, s, RunLoopSteps(acks, choice, taken))
    ensures Reached(o, s, RunLoopSteps(acks, choice, taken)) == WithRunLoop(o, s, acks, choice, taken)
  {
    var s1 := s.(snd := Opened(s.snd));
    OneStep(o, s, Buffering(Gate));
    AcksAreARun(o, s1, AcksOf(acks, choice));
    MoreSteps(o, s, [Buffering(Gate)], AckSteps(AcksOf(acks, choice)));
    var two := [Buffering(Gate)] + AckSteps(AcksOf(acks, choice));
    LastStepWorks(o, s, Reached(o, s, two), acks, choice, taken);
    MoreSteps(o, s, two, LastStep(choice, taken));
  }
}
