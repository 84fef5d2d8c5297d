/** The retransmitter's queue: an intrusive doubly linked list threaded through the payloads of
    every send buffer.  `prev` points towards the tail and `next` towards the head. */
module RetransmitQueue {
  import opened Sequences

  // ----- the queue as a sequence, head first -----

  function PoppedHead<T>(q: seq<T>): (r: seq<T>) {
    if q == [] then [] else q[1..]
  }

  function PushedTail<T(==)>(q: seq<T>, x: T): (r: seq<T>) {
    if x in q then q else q + [x]
  }

  /** What the ingester does with a payload it has received, having seen whether it was acked. */
  function Accepted<T(==)>(q: seq<T>, x: T, acked: bool): (r: seq<T>) {
    if acked then Deleted(q, x) else PushedTail(q, x)
  }

  /** First in, first out: a queued value never moves back, and each pop that does not return it,
      like each deletion of a value ahead of it, brings it one place closer to the head. */
  lemma FirstInFirstOut<T>(q: seq<T>, k: nat, x: T)
    requires k < |q| && NoDuplicates(q)
    ensures PushedTail(q, x)[k] == q[k]
    ensures k > 0 ==> |PoppedHead(q)| > k - 1 && PoppedHead(q)[k - 1] == q[k]
    ensures x != q[k] ==>
              var k' := if x in q[..k] then k - 1 else k;
              0 <= k' < |Deleted(q, x)| && Deleted(q, x)[k'] == q[k]
  {
    if x in q {
      var j :| 0 <= j < |q| && q[j] == x;
      DeletedAt(q, j);
      if j < k { assert q[..k][j] == x; }
    } else {
      DeletedNonMember(q, x);
    }
  }

  // ----- the list in the heap -----

  class TxPayload {
    const sequence: int
    var next: TxPayload?
    var prev: TxPayload?

    constructor (sequence: int)
      ensures this.sequence == sequence && Detached()
    {
      this.sequence := sequence;
      next, prev := null, null;
    }

    ghost predicate Detached()
      reads this
    {
      next == null && prev == null
    }
  }

  ghost predicate PrevLinks(q: seq<TxPayload>)
    reads q
  {
    forall i {:trigger q[i].prev} :: 0 <= i < |q| ==> q[i].prev == if i + 1 < |q| then q[i + 1] else null
  }

  ghost predicate NextLinks(q: seq<TxPayload>)
    reads q
  {
    forall i {:trigger q[i].next} :: 0 <= i < |q| ==> q[i].next == if i > 0 then q[i - 1] else null
  }

  /** Joining the neighbours of the element at `k` makes the links those of the list without it. */
  lemma GapClosed(q: seq<TxPayload>, k: nat, r: seq<TxPayload>)
    requires 0 < k < |q| - 1 && r == q[..k] + q[k + 1..]
    requires q[k - 1].prev == q[k + 1] && q[k + 1].next == q[k - 1]
    requires forall i {:trigger q[i].prev} :: 0 <= i < |q| && i != k - 1 && i != k ==>
               q[i].prev == if i + 1 < |q| then q[i + 1] else null
    requires forall i {:trigger q[i].next} :: 0 <= i < |q| && i != k && i != k + 1 ==>
               q[i].next == if i > 0 then q[i - 1] else null
    ensures PrevLinks(r) && NextLinks(r)
  {
    assert forall i {:trigger r[i].prev} {:trigger r[i].next} :: 0 <= i < |r| ==>
      r[i] == q[if i < k then i else i + 1];
  }

  class Retransmitter {
    var retxHead: TxPayload?
    var retxTail: TxPayload?
    var retransmitsQueueSize: int

    ghost var queue: seq<TxPayload>    // the list from head to tail
    ghost var known: set<TxPayload>    // every payload that was ever handed to the retransmitter

    ghost predicate Valid()
      reads this, known
    {
      && (forall p :: p in queue ==> p in known)
      && NoDuplicates(queue)
      && retxHead == (if queue == [] then null else queue[0])
      && retxTail == (if queue == [] then null else queue[|queue| - 1])
      && PrevLinks(queue)
      && NextLinks(queue)
      && (forall p :: p in known && p !in queue ==> p.Detached())
      && retransmitsQueueSize == |queue|
    }

    constructor ()
      ensures Valid() && queue == [] && known == {}
    {
      retxHead, retxTail, retransmitsQueueSize := null, null, 0;
      queue, known := [], {};
    }

    /** Admits a payload that a send buffer has just created. */
    ghost method Admit(txp: TxPayload)
      requires Valid() && txp.Detached()
      modifies this`known
      ensures Valid() && known == old(known) + {txp} && queue == old(queue)
    {
      known := known + {txp};
    }

    method PopHead() returns (result: TxPayload?)
      requires Valid()
      modifies this, known
      ensures Valid() && known == old(known)
      ensures result == if old(queue) == [] then null else old(queue)[0]
      ensures queue == PoppedHead(old(queue))
    {
      if retxHead == null {
        return null;
      }
      var head: TxPayload := retxHead;
      assert head == queue[0];
      if head.prev == null {
        retxHead := null;
        retxTail := null;
      } else {
        retxHead := head.prev;
        head.prev.next := null;
      }
      head.prev := null;
      head.next := null;
      retransmitsQueueSize := retransmitsQueueSize - 1;
      result := head;
      queue := queue[1..];
    }

    method PushTail(txp: TxPayload)
      requires Valid() && txp in known
      modifies this, known
      ensures Valid() && known == old(known)
      ensures queue == PushedTail(old(queue), txp)
    {
      if txp.prev != null || txp.next != null || txp == retxHead {
        assert txp in queue;
        return;
      }
      assert txp !in queue;
      if retxHead == null {
        retxTail := txp;
        retxHead := txp;
      } else {
        txp.next := retxTail;
        retxTail.prev := txp;
        retxTail := txp;
      }
      retransmitsQueueSize := retransmitsQueueSize + 1;
      queue := queue + [txp];
    }

    method ClearLinks(txp: TxPayload)
      modifies txp
      ensures txp.Detached()
    {
      txp.prev := null;
      txp.next := null;
    }

    method UnlinkTail(txp: TxPayload)
      requires Valid() && |queue| > 1 && txp == queue[|queue| - 1]
      modifies this, known
      ensures Valid() && known == old(known)
      ensures queue == Deleted(old(queue), txp)
    {
      DeletedAt(queue, |queue| - 1);
      retxTail := txp.next;
      retxTail.prev := null;
      retransmitsQueueSize := retransmitsQueueSize - 1;
      queue := queue[..|queue| - 1];
      ClearLinks(txp);
    }

    /** The last branch of `Delete` on the heap alone: the two neighbours of `txp` are joined. */
    method Bypass(txp: TxPayload)
      requires txp.prev != null && txp.next != null
      requires txp.prev != txp && txp.next != txp && txp.prev != txp.next
      modifies this`retransmitsQueueSize, txp, txp.prev`next, txp.next`prev
      ensures old(txp.prev).next == old(txp.next) && old(txp.next).prev == old(txp.prev)
      ensures txp.Detached() && retransmitsQueueSize == old(retransmitsQueueSize) - 1
    {
      txp.prev.next := txp.next;
      txp.next.prev := txp.prev;
      retransmitsQueueSize := retransmitsQueueSize - 1;
      ClearLinks(txp);
    }

    method UnlinkMiddle(txp: TxPayload, ghost k: nat)
      requires Valid() && 0 < k < |queue| - 1 && txp == queue[k]
      modifies this, known
      ensures Valid() && known == old(known)
      ensures queue == Deleted(old(queue), txp)
    {
      ghost var q := queue;
      DeletedAt(q, k);
      DeletedMembers(q, txp);
      assert txp.next == q[k - 1] && txp.prev == q[k + 1];
      Bypass(txp);
      queue := Deleted(q, txp);
      GapClosed(q, k, queue);
    }

    method Delete(txp: TxPayload)
      requires Valid() && txp in known
      modifies this, known
      ensures Valid() && known == old(known)
      ensures queue == Deleted(old(queue), txp)
      ensures txp !in queue && txp.Detached()
    {
      DeletedMembers(queue, txp);
      if retxHead == txp {
        var _ := PopHead();
      } else if txp == retxTail {
        UnlinkTail(txp);
      } else if txp.prev != null {
        ghost var k :| 0 <= k < |queue| && queue[k] == txp;
        UnlinkMiddle(txp, k);
      } else {
        DeletedNonMember(queue, txp);
        ClearLinks(txp);
      }
    }

    method AcceptRetransmit(txp: TxPayload, isAcked: bool)
      requires Valid() && txp in known
      modifies this, known
      ensures Valid() && known == old(known)
      ensures queue == Accepted(old(queue), txp, isAcked)
      ensures txp in queue <==> !isAcked
    {
      if isAcked {
        Delete(txp);
      } else {
        PushTail(txp);
      }
    }
  }
}
