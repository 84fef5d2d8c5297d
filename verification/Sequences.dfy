/** Sequences without duplicates, and taking a value out of one. */
module Sequences {
  ghost predicate NoDuplicates<T>(q: seq<T>) {
    forall i, j :: 0 <= i < j < |q| ==> q[i] != q[j]
  }

  /** The sequence without the first occurrence of `x`. */
  function Deleted<T(==)>(q: seq<T>, x: T): (r: seq<T>)
    ensures forall y :: y in r ==> y in q
  {
    if q == [] then []
    else if q[0] == x then q[1..]
    else [q[0]] + Deleted(q[1..], x)
  }

  /** Deleting the element at position `k` closes the gap and keeps the order of the rest. */
  lemma {:induction false} DeletedAt<T>(q: seq<T>, k: nat)
    requires k < |q| && NoDuplicates(q)
    ensures Deleted(q, q[k]) == q[..k] + q[k + 1..]
  {
    if k > 0 {
      assert q[0] != q[k] && q[1..][k - 1] == q[k];
      DeletedAt(q[1..], k - 1);
    }
  }

  /** Deleting a value that is not queued changes nothing. */
  lemma {:induction false} DeletedNonMember<T>(q: seq<T>, x: T)
    requires x !in q
    ensures Deleted(q, x) == q
  {
    if q != [] {
      DeletedNonMember(q[1..], x);
    }
  }

  /** Deletion takes out exactly the value asked for and leaves no second copy behind. */
  lemma DeletedMembers<T>(q: seq<T>, x: T)
    requires NoDuplicates(q)
    ensures NoDuplicates(Deleted(q, x))
    ensures forall y :: y in Deleted(q, x) <==> y in q && y != x
  {
    if x in q {
      var k :| 0 <= k < |q| && q[k] == x;
      DeletedAt(q, k);
      var r := q[..k] + q[k + 1..];
      forall y | y in q && y != x ensures y in r {
        var i :| 0 <= i < |q| && q[i] == y;
        assert r[if i < k then i else i - 1] == y;
      }
    } else {
      DeletedNonMember(q, x);
    }
  }

  lemma NextElement<T>(q: seq<T>, i: nat)
    requires NoDuplicates(q) && i < |q|
    ensures q[i] in q && q[i] !in q[..i] && q[..i + 1] == q[..i] + [q[i]]
  {
  }
}
