/** The life of a payload between its send buffer, the retransmitter's ingester and its sender,
    as a transition system: three kinds of goroutine that meet in a counter changed atomically,
    two channels and the ingester's list.  Every send buffer has a run loop of its own. */
module RetransmitProtocol {
  import opened Basics
  import opened RetransmitQueue
  import opened Sequences

  const INGEST_CAPACITY := 16

  /** A payload of one send buffer. */
  datatype Txp = Txp(owner: nat, sequence: int)

  /** Where a run loop stands when it is not at its select: it has found `p` retransmittable and is
      about to count it as queued, or it is sending `p` to the ingest channel. */
  datatype OwnerPc = Checked(p: Txp) | Queueing(p: Txp)

  /** The ingester has taken `p` from its channel, and perhaps has looked at whether it is acked. */
  datatype IngesterPc = Selecting | Got(p: Txp) | Deciding(p: Txp, sawAcked: bool)

  /** The sender has taken `p` from its channel, and perhaps has found it unacked. */
  datatype SenderPc = Waiting | Taken(p: Txp) | Forwarding(p: Txp)

  datatype State = State(
    retxQueued: map<Txp, int>,      // the counter of every payload ever buffered
    buffered: set<Txp>,             // payloads in their send buffer's map
    owners: map<nat, OwnerPc>,      // run loops that are not at their select
    ingest: seq<Txp>,               // retransmitIngest
    ingester: IngesterPc,
    list: seq<Txp>,                 // the linked list, head first
    next: Option<Txp>,              // the ingester's local variable
    send: Option<Txp>,              // retransmitSend, a channel of capacity one
    sender: SenderPc,
    queued: set<Txp>,               // history: counted as queued and not dequeued since
    acked: set<Txp>                 // history: acknowledged
  )

  const INITIAL := State(map[], {}, map[], [], Selecting, [], None, None, Waiting, {}, {})

  datatype Step =
    | Buffer(p: Txp)          // a new payload enters its send buffer's map
    | Check(p: Txp)           // isRetransmittable() answers true
    | MarkQueued(owner: nat)  // markQueued()
    | Enqueue(owner: nat)     // the send to retransmitIngest goes through
    | Ack(p: Txp)             // markAcked(), the payload leaves the map
    | Receive                 // the ingester takes from retransmitIngest
    | Look                    // isAcked() in acceptRetransmit
    | Accept                  // delete or pushTail
    | Pop                     // popHead into next
    | Offer                   // the send to retransmitSend goes through
    | Take                    // the sender takes from retransmitSend
    | LookAgain               // isAcked() in the sender
    | Dequeue                 // dequeued(), after forwarding

  predicate Enabled(s: State, step: Step) {
    match step
    case Buffer(p) => p !in s.retxQueued && p.owner !in s.owners
    case Check(p) => p in s.buffered && p.owner !in s.owners && p in s.retxQueued && s.retxQueued[p] == 0
    case MarkQueued(o) => o in s.owners && s.owners[o].Checked? && s.owners[o].p in s.retxQueued
    case Enqueue(o) => o in s.owners && s.owners[o].Queueing? && |s.ingest| < INGEST_CAPACITY
    case Ack(p) => p in s.buffered && p.owner !in s.owners && p in s.retxQueued
    case Receive => s.ingester.Selecting? && s.ingest != [] && (s.next.Some? || s.list == [])
    case Look => s.ingester.Got? && s.ingester.p in s.retxQueued
    case Accept => s.ingester.Deciding?
    case Pop => s.ingester.Selecting? && s.next.None? && s.list != []
    case Offer => s.ingester.Selecting? && s.next.Some? && s.send.None?
    case Take => s.sender.Waiting? && s.send.Some?
    case LookAgain => s.sender.Taken? && s.sender.p in s.retxQueued
    case Dequeue => s.sender.Forwarding? && s.sender.p in s.retxQueued
  }

  /** markAcked() answers whether the payload was queued when it was acked; if so the run loop goes
      on to send a second copy of it, which is to remove the first from the list. */
  function Next(s: State, step: Step): (s': State)
    requires Enabled(s, step)
  {
    match step
    case Buffer(p) =>
      s.(retxQueued := s.retxQueued[p := 0], buffered := s.buffered + {p})
    case Check(p) =>
      s.(owners := s.owners[p.owner := Checked(p)])
    case MarkQueued(o) =>
      var p := s.owners[o].p;
      s.(retxQueued := s.retxQueued[p := s.retxQueued[p] + 1],
         owners := s.owners[o := Queueing(p)],
         queued := s.queued + {p})
    case Enqueue(o) =>
      s.(ingest := s.ingest + [s.owners[o].p], owners := s.owners - {o})
    case Ack(p) =>
      var count := s.retxQueued[p] + 2;
      s.(retxQueued := s.retxQueued[p := count],
         buffered := s.buffered - {p},
         owners := if count > 2 then s.owners[p.owner := Queueing(p)] else s.owners,
         acked := s.acked + {p})
    case Receive =>
      s.(ingest := s.ingest[1..], ingester := Got(s.ingest[0]))
    case Look =>
      s.(ingester := Deciding(s.ingester.p, s.retxQueued[s.ingester.p] > 1))
    case Accept =>
      s.(ingester := Selecting, list := Accepted(s.list, s.ingester.p, s.ingester.sawAcked))
    case Pop =>
      s.(next := Some(s.list[0]), list := PoppedHead(s.list))
    case Offer =>
      s.(send := s.next, next := None)
    case Take =>
      s.(sender := Taken(s.send.value), send := None)
    case LookAgain =>
      s.(sender := if s.retxQueued[s.sender.p] > 1 then Waiting else Forwarding(s.sender.p))
    case Dequeue =>
      var p := s.sender.p;
      s.(retxQueued := s.retxQueued[p := s.retxQueued[p] - 1],
         sender := Waiting,
         queued := s.queued - {p})
  }

  ghost predicate Leads(s: State, s': State) {
    exists step :: Enabled(s, step) && s' == Next(s, step)
  }

  ghost predicate IsRun(run: seq<State>) {
    && run != [] && run[0] == INITIAL
    && forall i, j :: 0 <= i < |run| && j == i + 1 < |run| ==> Leads(run[i], run[j])
  }

  // ----- where the copies of a payload are -----

  function Bit(b: bool): nat { if b then 1 else 0 }

  /** Copies that the ingester has still to deal with. */
  function OnTheWay(s: State, p: Txp): nat {
    Bit(p.owner in s.owners && s.owners[p.owner] == Queueing(p)) + multiset(s.ingest)[p] +
    Bit(!s.ingester.Selecting? && s.ingester.p == p)
  }

  /** Copies that the ingester has put on the way to the sender. */
  function Downstream(s: State, p: Txp): nat {
    Bit(p in s.list) + Bit(s.next == Some(p)) + Bit(s.send == Some(p)) +
    Bit(!s.sender.Waiting? && s.sender.p == p)
  }

  ghost predicate CounterRight(s: State, p: Txp) {
    && (p in s.buffered <==> p in s.retxQueued && p !in s.acked)
    && (p !in s.retxQueued ==> p !in s.queued && p !in s.acked)
    && (p in s.retxQueued ==> s.retxQueued[p] == Bit(p in s.queued) + 2 * Bit(p in s.acked))
  }

  ghost predicate PlacesRight(s: State, p: Txp) {
    && (p !in s.acked ==> OnTheWay(s, p) + Downstream(s, p) == Bit(p in s.queued))
    && (p in s.acked ==>
          && Downstream(s, p) <= Bit(p in s.queued)
          && OnTheWay(s, p) + Downstream(s, p) <= 2
          && (p in s.list ==> OnTheWay(s, p) > 0))
    && (s.ingester == Deciding(p, false) ==>
          && p in s.queued && Downstream(s, p) == 0
          && (p in s.acked ==> OnTheWay(s, p) == 2))
    && (s.ingester == Deciding(p, true) ==> p in s.acked)
    && (p.owner in s.owners && s.owners[p.owner] == Checked(p) ==> p in s.buffered && p !in s.queued)
    && (s.sender == Forwarding(p) ==> p in s.queued)
  }

  ghost predicate Inv(s: State) {
    && NoDuplicates(s.list)
    && (forall o :: o in s.owners ==> s.owners[o].p.owner == o)
    && (forall p: Txp :: CounterRight(s, p) && PlacesRight(s, p))
  }

  // ----- every step keeps the invariant -----

  lemma ListMembers(s: State, step: Step)
    requires Inv(s) && Enabled(s, step)
    ensures NoDuplicates(Next(s, step).list)
    ensures step.Pop? ==> forall p :: p in Next(s, step).list <==> p in s.list && p != s.list[0]
    ensures step.Accept? && s.ingester.sawAcked ==>
              forall p :: p in Next(s, step).list <==> p in s.list && p != s.ingester.p
    ensures step.Accept? && !s.ingester.sawAcked ==>
              forall p :: p in Next(s, step).list <==> p in s.list || p == s.ingester.p
  {
    if step.Pop? {
      assert s.list == [s.list[0]] + s.list[1..];
    } else if step.Accept? {
      DeletedMembers(s.list, s.ingester.p);
    }
  }

  lemma IngestCopies(s: State, step: Step, p: Txp)
    requires Inv(s) && Enabled(s, step)
    ensures step.Receive? ==>
              multiset(s.ingest)[p] == multiset(Next(s, step).ingest)[p] + Bit(s.ingest[0] == p)
    ensures step.Enqueue? ==>
              multiset(Next(s, step).ingest)[p] == multiset(s.ingest)[p] + Bit(s.owners[step.owner].p == p)
  {
    if step.Receive? {
      assert s.ingest == [s.ingest[0]] + s.ingest[1..];
    }
  }

  lemma RunLoopStepKeeps(s: State, step: Step, p: Txp)
    requires Inv(s) && Enabled(s, step)
    requires step.Buffer? || step.Check? || step.MarkQueued? || step.Enqueue?
    ensures CounterRight(Next(s, step), p) && PlacesRight(Next(s, step), p)
  {
    IngestCopies(s, step, p);
    assert CounterRight(s, p) && PlacesRight(s, p);
    match step
    case Buffer(q) => assert CounterRight(s, q) && PlacesRight(s, q);
    case Check(q) => assert CounterRight(s, q);
    case MarkQueued(o) => assert CounterRight(s, s.owners[o].p) && PlacesRight(s, s.owners[o].p);
    case Enqueue(_) =>
  }

  lemma AckKeeps(s: State, q: Txp, p: Txp)
    requires Inv(s) && Enabled(s, Ack(q))
    ensures CounterRight(Next(s, Ack(q)), p) && PlacesRight(Next(s, Ack(q)), p)
  {
    assert CounterRight(s, p) && PlacesRight(s, p);
    assert CounterRight(s, q);
  }

  lemma IngesterStepKeeps(s: State, step: Step, p: Txp)
    requires Inv(s) && Enabled(s, step)
    requires step.Receive? || step.Look? || step.Accept? || step.Pop? || step.Offer?
    ensures CounterRight(Next(s, step), p) && PlacesRight(Next(s, step), p)
  {
    ListMembers(s, step);
    IngestCopies(s, step, p);
    assert CounterRight(s, p) && PlacesRight(s, p);
    if step.Look? {
      assert CounterRight(s, s.ingester.p);
    }
  }

  lemma SenderStepKeeps(s: State, step: Step, p: Txp)
    requires Inv(s) && Enabled(s, step)
    requires step.Take? || step.LookAgain? || step.Dequeue?
    ensures CounterRight(Next(s, step), p) && PlacesRight(Next(s, step), p)
  {
    assert CounterRight(s, p) && PlacesRight(s, p);
    if !step.Take? {
      assert CounterRight(s, s.sender.p);
    }
  }

  lemma StepKeeps(s: State, step: Step)
    requires Inv(s) && Enabled(s, step)
    ensures Inv(Next(s, step))
  {
    ListMembers(s, step);
    forall p: Txp ensures CounterRight(Next(s, step), p) && PlacesRight(Next(s, step), p) {
      if step.Take? || step.LookAgain? || step.Dequeue? {
        SenderStepKeeps(s, step, p);
      } else if step.Receive? || step.Look? || step.Accept? || step.Pop? || step.Offer? {
        IngesterStepKeeps(s, step, p);
      } else if step.Ack? {
        AckKeeps(s, step.p, p);
      } else {
        RunLoopStepKeeps(s, step, p);
      }
    }
  }

  /** The invariant holds at the end of every interleaving. */
  lemma {:induction false} RunKeeps(run: seq<State>)
    requires IsRun(run)
    ensures Inv(run[|run| - 1])
  {
    if |run| > 1 {
      var last := |run| - 2;
      var before := run[..last + 1];
      RunKeeps(before);
      assert Leads(run[last], run[last + 1]);
      var step :| Enabled(run[last], step) && run[last + 1] == Next(run[last], step);
      StepKeeps(run[last], step);
    }
  }

  // ----- what the invariant means -----

  ghost predicate Reachable(s: State) {
    exists run :: IsRun(run) && run[|run| - 1] == s
  }

  /** The counter tells exactly whether a payload is queued and whether it is acked, and an unacked
      payload is in one place if it is queued and in none if it is not. */
  lemma CounterAndPlaces(s: State, p: Txp)
    requires Reachable(s) && p in s.retxQueued
    ensures 0 <= s.retxQueued[p] <= 3
    ensures p in s.acked <==> s.retxQueued[p] > 1
    ensures p in s.queued <==> s.retxQueued[p] == 1 || s.retxQueued[p] == 3
    ensures p in s.buffered <==> s.retxQueued[p] <= 1
    ensures s.retxQueued[p] <= 1 ==> OnTheWay(s, p) + Downstream(s, p) == s.retxQueued[p]
  {
    var run :| IsRun(run) && run[|run| - 1] == s;
    RunKeeps(run);
    assert CounterRight(s, p) && PlacesRight(s, p);
  }

  /** An acked payload stays in the list only while a copy that will remove it is on the way: when
      nothing is on the way to the ingester, everything in the list still waits for its ack. */
  lemma NoStaleEntries(s: State, p: Txp)
    requires Reachable(s) && p in s.list
    ensures p in s.acked ==> OnTheWay(s, p) > 0
    ensures s.ingest == [] && s.ingester.Selecting? && p.owner !in s.owners ==> p in s.buffered
  {
    var run :| IsRun(run) && run[|run| - 1] == s;
    RunKeeps(run);
    assert CounterRight(s, p) && PlacesRight(s, p);
  }

  /** When the ingester decides to push a payload, that payload is not in the list, nor further on:
      a payload is never queued for sending twice at once. */
  lemma PushIsFresh(s: State)
    requires Reachable(s) && s.ingester.Deciding? && !s.ingester.sawAcked
    ensures Downstream(s, s.ingester.p) == 0
    ensures Next(s, Accept).list == s.list + [s.ingester.p]
  {
    var run :| IsRun(run) && run[|run| - 1] == s;
    RunKeeps(run);
    assert PlacesRight(s, s.ingester.p);
  }

  // ----- what the counter's tests decide -----

  /** Although nobody but the run loops knows what was acked, every test of the counter decides as if it
      did: only a payload that is not queued is found retransmittable, an ack is followed by a second copy
      exactly when the payload is queued, and ingester and sender see whether it was acked. */
  lemma TestsDecide(s: State, p: Txp)
    requires Reachable(s)
    ensures Enabled(s, Check(p)) <==> p in s.buffered && p !in s.queued && p.owner !in s.owners
    ensures Enabled(s, Ack(p)) <==> p in s.buffered && p.owner !in s.owners
    ensures Enabled(s, Ack(p)) ==>
              Next(s, Ack(p)).owners == if p in s.queued then s.owners[p.owner := Queueing(p)] else s.owners
    ensures s.ingester == Got(p) ==>
              Enabled(s, Look) && Next(s, Look) == s.(ingester := Deciding(p, p in s.acked))
    ensures s.sender == Taken(p) ==>
              Enabled(s, LookAgain) && Next(s, LookAgain) == s.(sender := if p in s.acked then Waiting else Forwarding(p))
  {
    var run :| IsRun(run) && run[|run| - 1] == s;
    RunKeeps(run);
    assert CounterRight(s, p) && PlacesRight(s, p);
  }

  /** A step after which the sender forwards a payload is the one that finds it unacked. */
  lemma ForwardsUnacked(s: State, step: Step, p: Txp)
    requires Reachable(s) && Enabled(s, step)
    requires s.sender != Forwarding(p) && Next(s, step).sender == Forwarding(p)
    ensures step.LookAgain? && s.sender == Taken(p) && p !in s.acked
  {
    TestsDecide(s, p);
  }

  /** At moment `j` of the run the sender found the payload unacked, and it has been forwarding it since. */
  ghost predicate FoundUnacked(run: seq<State>, p: Txp, j: nat, i: nat) {
    && j < i < |run|
    && run[j].sender == Taken(p) && p in run[j].buffered && p !in run[j].acked
    && forall k :: j < k <= i ==> run[k].sender == Forwarding(p)
  }

  lemma RunPrefix(run: seq<State>, i: nat)
    requires IsRun(run) && i < |run|
    ensures Reachable(run[i])
  {
    var before := run[..i + 1];
    assert IsRun(before) && before[|before| - 1] == run[i];
  }

  /** Over every run: whenever the sender is forwarding a payload, that was decided at a moment when the
      payload was unacked.  An acked payload that is still in the queues is never sent again. */
  lemma {:induction false} NeverResentAfterAck(run: seq<State>, i: nat, p: Txp)
    requires IsRun(run) && i < |run| && run[i].sender == Forwarding(p)
    ensures exists j :: 0 <= j < i && FoundUnacked(run, p, j, i)
  {
    if i > 0 {
      var last := i - 1;
      assert Leads(run[last], run[i]);
      var step :| Enabled(run[last], step) && run[i] == Next(run[last], step);
      if run[last].sender == Forwarding(p) {
        NeverResentAfterAck(run, last, p);
        var j :| 0 <= j < last && FoundUnacked(run, p, j, last);
        assert FoundUnacked(run, p, j, i);
      } else {
        RunPrefix(run, last);
        ForwardsUnacked(run[last], step, p);
        CounterAndPlaces(run[last], p);
        assert FoundUnacked(run, p, last, i);
      }
    }
  }

  predicate Drains(step: Step) {
    !(step.Buffer? || step.Check? || step.MarkQueued? || step.Ack?)
  }

  function Weight(s: State): nat {
    9 * |s.owners.Keys| + 8 * |s.ingest| + IngesterWeight(s.ingester) + 5 * |s.list| +
    4 * Bit(s.next.Some?) + 3 * Bit(s.send.Some?) + SenderWeight(s.sender)
  }

  function IngesterWeight(pc: IngesterPc): nat {
    match pc case Selecting => 0 case Got(_) => 7 case Deciding(_, _) => 6
  }

  function SenderWeight(pc: SenderPc): nat {
    match pc case Waiting => 0 case Taken(_) => 2 case Forwarding(_) => 1
  }

  /** The queues never block each other for good: as long as a copy of some payload is anywhere in
      the retransmitter, one of its goroutines can move. */
  lemma NoDeadlock(s: State, p: Txp)
    requires Reachable(s) && OnTheWay(s, p) + Downstream(s, p) > 0
    ensures exists step :: Drains(step) && Enabled(s, step)
  {
    var run :| IsRun(run) && run[|run| - 1] == s;
    RunKeeps(run);
    var step :=
      if s.sender.Taken? then LookAgain
      else if s.sender.Forwarding? then Dequeue
      else if s.send.Some? then Take
      else if s.ingester.Got? then Look
      else if s.ingester.Deciding? then Accept
      else if s.next.Some? then Offer
      else if s.list != [] then Pop
      else if s.ingest != [] then Receive
      else Enqueue(p.owner);
    if s.sender.Taken? || s.sender.Forwarding? {
      assert CounterRight(s, s.sender.p) && PlacesRight(s, s.sender.p);
    }
    if s.ingester.Got? {
      assert CounterRight(s, s.ingester.p) && PlacesRight(s, s.ingester.p);
    }
    assert Drains(step) && Enabled(s, step);
  }

  /** ... and they cannot keep moving for ever without new work from a run loop. */
  lemma DrainEnds(s: State, step: Step)
    requires Drains(step) && Enabled(s, step)
    ensures Weight(Next(s, step)) < Weight(s)
  {
    if step.Enqueue? {
      OneOwnerLess(s.owners, step.owner);
    } else if step.Accept? {
      AcceptedLength(s.list, s.ingester.p, s.ingester.sawAcked);
    }
  }

  lemma OneOwnerLess(owners: map<nat, OwnerPc>, o: nat)
    requires o in owners
    ensures |(owners - {o}).Keys| == |owners.Keys| - 1
  {
    assert (owners - {o}).Keys == owners.Keys - {o};
  }

  lemma AcceptedLength(q: seq<Txp>, p: Txp, acked: bool)
    ensures |Accepted(q, p, acked)| <= |q| + 1
  {
    DeletedShorter(q, p);
  }

  lemma {:induction false} DeletedShorter(q: seq<Txp>, p: Txp)
    ensures |Deleted(q, p)| <= |q|
  {
    if q != [] {
      DeletedShorter(q[1..], p);
    }
  }
}
