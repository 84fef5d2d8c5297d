/** Payloads as the transport sees them, and the number of bytes that a collection of them holds. */
module Payloads {
  import opened Basics
  import opened Words

  /** The session start and end flags; neither kind of payload carries data. */
  datatype Kind = SessionStart | SessionData | SessionEnd

  datatype Payload = Payload(sequence: int, kind: Kind, data: seq<byte>)

  /** The data of consecutive payloads, in order. */
  function Bytes(ps: seq<Payload>): (r: seq<byte>) {
    if ps == [] then [] else Bytes(ps[..|ps| - 1]) + ps[|ps| - 1].data
  }

  lemma {:induction false} BytesAppend(ps: seq<Payload>, qs: seq<Payload>)
    ensures Bytes(ps + qs) == Bytes(ps) + Bytes(qs)
  {
    if qs == [] {
      assert ps + qs == ps;
    } else {
      var last := |qs| - 1;
      assert (ps + qs)[..|ps + qs| - 1] == ps + qs[..last];
      BytesAppend(ps, qs[..last]);
    }
  }

  lemma BytesPrefix(ps: seq<Payload>, n: nat)
    requires n <= |ps|
    ensures Bytes(ps[..n]) <= Bytes(ps)
  {
    assert ps == ps[..n] + ps[n..];
    BytesAppend(ps[..n], ps[n..]);
  }

  function QueueBytes(q: seq<Payload>): nat {
    |Bytes(q)|
  }

  ghost function TotalBytes(m: map<int, Payload>): nat
    decreases |m|
  {
    if m.Keys == {} then 0 else
      var k := AnyOf(m.Keys);
      assert |m - {k}| < |m| by { Smaller(m, k); }
      |m[k].data| + TotalBytes(m - {k})
  }

  lemma Smaller(m: map<int, Payload>, k: int)
    requires k in m
    ensures |m - {k}| < |m|
  {
    assert (m - {k}).Keys == m.Keys - {k};
    assert |m - {k}| == |(m - {k}).Keys| && |m| == |m.Keys|;
  }

  /** The total does not depend on the order in which the payloads are counted. */
  lemma {:induction false} TotalBytesWithout(m: map<int, Payload>, k: int)
    requires k in m
    ensures TotalBytes(m) == |m[k].data| + TotalBytes(m - {k})
    decreases |m|
  {
    var j := AnyOf(m.Keys);
    if j != k {
      Smaller(m, j);
      Smaller(m, k);
      TotalBytesWithout(m - {j}, k);
      TotalBytesWithout(m - {k}, j);
      assert m - {j} - {k} == m - {k} - {j};
    }
  }

  lemma TotalBytesWith(m: map<int, Payload>, k: int, p: Payload)
    ensures k !in m ==> TotalBytes(m[k := p]) == TotalBytes(m) + |p.data|
    ensures k in m && |m[k].data| == |p.data| ==> TotalBytes(m[k := p]) == TotalBytes(m)
  {
    TotalBytesWithout(m[k := p], k);
    if k in m {
      TotalBytesWithout(m, k);
      assert m[k := p] - {k} == m - {k};
    } else {
      assert m[k := p] - {k} == m;
    }
  }
}
