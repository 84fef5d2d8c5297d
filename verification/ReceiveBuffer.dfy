/** The receiver's reorder buffer: out-of-order payloads wait in a tree ordered by sequence until
    the run that follows the last released sequence is complete. */
module ReceiveBuffer {
  import opened Basics
  import opened Words
  import opened Payloads

  /** `sequence` is the last one released, `maxSequence` the highest one ever stored. */
  datatype RecvState = RecvState(tree: map<int, Payload>, sequence: int, maxSequence: int, size: uint32)

  const EMPTY := RecvState(map[], -1, 0, 0)

  predicate Refuses(s: RecvState, p: Payload, maxSize: uint32) {
    p.sequence > s.sequence && s.size > maxSize && p.sequence > s.maxSequence
  }

  /** A payload is stored once; what is released already, or refused, leaves the buffer as it is. */
  function Received(s: RecvState, p: Payload, maxSize: uint32): (r: RecvState) {
    if p.sequence <= s.sequence || Refuses(s, p, maxSize) then s
    else if p.sequence in s.tree then s.(tree := s.tree[p.sequence := p])
    else RecvState(s.tree[p.sequence := p], s.sequence,
                   if p.sequence > s.maxSequence then p.sequence else s.maxSequence,
                   Plus32(s.size, Low32(|p.data|)))
  }

  function Removed(s: RecvState, p: Payload): (r: RecvState) {
    s.(tree := s.tree - {p.sequence}, sequence := p.sequence)
  }

  /** The payload that may be released next, if it is there. */
  function Head(s: RecvState): (r: Option<Payload>) {
    if s.sequence + 1 in s.tree then Some(s.tree[s.sequence + 1]) else None
  }

  /** Every stored payload lies beyond what was released and not beyond the highest one stored. */
  ghost predicate Ordered(s: RecvState) {
    && s.sequence <= s.maxSequence
    && forall k :: k in s.tree ==> s.sequence < k <= s.maxSequence && s.tree[k].sequence == k
  }

  ghost predicate Stored(s: RecvState, sequence: int) {
    sequence <= s.sequence || sequence in s.tree
  }

  lemma ReceivedKeeps(s: RecvState, p: Payload, maxSize: uint32)
    requires Ordered(s)
    ensures Ordered(Received(s, p, maxSize))
    ensures !Refuses(s, p, maxSize) <==> Stored(Received(s, p, maxSize), p.sequence)
    ensures forall k :: k != p.sequence ==> (Stored(Received(s, p, maxSize), k) <==> Stored(s, k))
  {
  }

  lemma RemovedKeeps(s: RecvState, p: Payload)
    requires Ordered(s) && Head(s) == Some(p)
    ensures Ordered(Removed(s, p))
    ensures forall k :: Stored(Removed(s, p), k) <==> Stored(s, k)
  {
  }

  /** A full buffer never refuses a payload that would let its own contents be released: when the
      next expected payload is refused, the buffer stores nothing at all. */
  lemma NoSelfInflictedStall(s: RecvState, p: Payload, maxSize: uint32)
    requires Ordered(s) && p.sequence == s.sequence + 1 && Refuses(s, p, maxSize)
    ensures s.tree == map[]
  {
    assert forall k :: k in s.tree ==> false;
  }

  /** Only a payload seen for the first time changes `size`, and by its own length. */
  lemma ReceivedSize(s: RecvState, p: Payload, maxSize: uint32)
    requires Ordered(s)
    requires p.sequence in s.tree ==> |s.tree[p.sequence].data| == |p.data|
    ensures var s' := Received(s, p, maxSize);
            Low32(s'.size - TotalBytes(s'.tree)) == Low32(s.size - TotalBytes(s.tree))
  {
    TotalBytesWith(s.tree, p.sequence, p);
    var total := TotalBytes(s.tree);
    if !(p.sequence <= s.sequence || Refuses(s, p, maxSize)) && p.sequence !in s.tree {
      var n := |p.data|;
      Low32Sum(n, s.size);
      assert Plus32(s.size, Low32(n)) == Low32(s.size + n);
      Low32Sum(s.size + n, total + n);
    }
  }

  lemma {:induction false} Leftmost(keys: set<int>) returns (left: int)
    requires keys != {}
    ensures left in keys && forall j :: j in keys ==> left <= j
  {
    left := AnyOf(keys);
    var others := keys - {left};
    assert forall j :: j in keys ==> j == left || j in others;
    if others != {} {
      var l := Leftmost(others);
      left := if l < left then l else left;
    }
  }

  class LinkReceiveBuffer {
    var tree: map<int, Payload>
    var sequence: int
    var maxSequence: int
    var size: uint32
    var lastBufferSizeSent: uint32

    ghost function State(): RecvState
      reads this
    {
      RecvState(tree, sequence, maxSequence, size)
    }

    ghost predicate Valid()
      reads this
    {
      Ordered(State())
    }

    constructor ()
      ensures Valid() && State() == EMPTY
    {
      tree, sequence, maxSequence, size, lastBufferSizeSent := map[], -1, 0, 0, 0;
    }

    method ReceiveUnordered(payload: Payload, maxSize: uint32) returns (ok: bool)
      requires Valid()
      modifies this`tree, this`maxSequence, this`size
      ensures Valid() && State() == Received(old(State()), payload, maxSize)
      ensures ok <==> Stored(State(), payload.sequence)
      ensures ok <==> !(payload.sequence > old(sequence) && payload.sequence > old(maxSequence) && old(size) > maxSize)
      ensures tree == if !ok || payload.sequence <= old(sequence) then old(tree) else old(tree)[payload.sequence := payload]
      ensures var added := ok && payload.sequence > old(sequence) && payload.sequence !in old(tree);
              && size == (if added then Low32(old(size) + |payload.data|) else old(size))
              && maxSequence == if added && payload.sequence > old(maxSequence) then payload.sequence else old(maxSequence)
    {
      ReceivedKeeps(State(), payload, maxSize);
      Low32Sum(|payload.data|, size);
      if payload.sequence <= sequence {
        return true;
      }
      if size > maxSize && payload.sequence > maxSequence {
        return false;
      }
      var treeSize := |tree|;
      assert payload.sequence in tree ==> tree[payload.sequence := payload].Keys == tree.Keys;
      assert payload.sequence !in tree ==> tree[payload.sequence := payload].Keys == tree.Keys + {payload.sequence};
      assert |tree| == |tree.Keys| && |tree[payload.sequence := payload]| == |tree[payload.sequence := payload].Keys|;
      tree := tree[payload.sequence := payload];
      if |tree| > treeSize {
        size := Plus32(size, Low32(|payload.data|));
        if payload.sequence > maxSequence {
          maxSequence := payload.sequence;
        }
      }
      return true;
    }

    /** The leftmost payload of the tree, if it is the next one to release. */
    method PeekHead() returns (head: Option<Payload>)
      requires Valid()
      ensures head == Head(State())
      ensures head == if sequence + 1 in tree then Some(tree[sequence + 1]) else None
    {
      if tree.Keys == {} {
        return None;
      }
      ghost var l := Leftmost(tree.Keys);
      var left :| left in tree.Keys && forall j :: j in tree.Keys ==> left <= j;
      if tree[left].sequence == sequence + 1 {
        return Some(tree[left]);
      }
      return None;
    }

    method Remove(payload: Payload)
      requires Valid() && Head(State()) == Some(payload)
      modifies this`tree, this`sequence
      ensures Valid() && State() == Removed(old(State()), payload)
      ensures sequence == old(sequence) + 1 && tree == old(tree) - {sequence}
    {
      RemovedKeeps(State(), payload);
      tree := tree - {payload.sequence};
      sequence := payload.sequence;
    }
  }
}
