/** Terminator precedences as bands of route costs, and the choice among terminators by cost. */
module Costs {
  import opened Words

  datatype Precedence = Required | Default | Failed | Unknown

  const DEFAULT_MIN_COST := MAX_UINT16 * 4
  const FAILED_MIN_COST := MAX_UINT16 * 8
  const UNKNOWN_MIN_COST := MAX_UINT16 * 12

  function MinCost(p: Precedence): uint32 {
    match p
    case Required => 0
    case Default => DEFAULT_MIN_COST
    case Failed => FAILED_MIN_COST
    case Unknown => UNKNOWN_MIN_COST
  }

  function MaxCost(p: Precedence): uint32 {
    match p
    case Required => DEFAULT_MIN_COST - 1
    case Default => FAILED_MIN_COST - 1
    case Failed => UNKNOWN_MIN_COST - 1
    case Unknown => UNKNOWN_MIN_COST + MAX_UINT16 * 4 - 1
  }

  function GetBiasedCost(p: Precedence, cost: uint32): uint32 {
    var result := Plus32(MinCost(p), cost);
    if result > MaxCost(p) then MaxCost(p) else result
  }

  function Unbias(p: Precedence, cost: uint32): uint32 {
    Minus32(cost, MinCost(p))
  }

  /** Required terminators come first, unknown ones last. */
  function Rank(p: Precedence): nat {
    match p
    case Required => 0
    case Default => 1
    case Failed => 2
    case Unknown => 3
  }

  /** What a band can tell apart. */
  function Clipped(cost: uint32): uint32 {
    if cost < MAX_UINT16 * 4 then cost else MAX_UINT16 * 4 - 1
  }

  predicate InBand(p: Precedence, cost: uint32) {
    MinCost(p) <= cost <= MaxCost(p)
  }

  /** A biased cost lies in its band if and only if the sum does not wrap. */
  lemma BandExactly(p: Precedence, cost: uint32)
    ensures InBand(p, GetBiasedCost(p, cost)) <==> MinCost(p) + cost < TWO_32
  {
    if MinCost(p) + cost >= TWO_32 {
      Low32Shift(MinCost(p) + cost - TWO_32, 1);
    }
  }

  lemma BiasedCost(p: Precedence, cost: uint32)
    requires MinCost(p) + cost < TWO_32
    ensures GetBiasedCost(p, cost) == MinCost(p) + Clipped(cost)
    ensures Clipped(cost) < MAX_UINT16 * 4
  {
  }

  lemma UnbiasUndoesBias(p: Precedence, cost: uint32)
    requires MinCost(p) + cost < TWO_32
    ensures Unbias(p, GetBiasedCost(p, cost)) == Clipped(cost)
  {
    BandExactly(p, cost);
  }

  /** Costs in bands order terminators by precedence first and by their own cost, as far as a band can
      tell it, second. */
  lemma BiasedOrder(p: Precedence, cost: uint32, q: Precedence, other: uint32)
    requires MinCost(p) + cost < TWO_32 && MinCost(q) + other < TWO_32
    ensures GetBiasedCost(p, cost) < GetBiasedCost(q, other) <==>
            Rank(p) < Rank(q) || (p == q && Clipped(cost) < Clipped(other))
  {
    hide GetBiasedCost, Clipped;
    BiasedCost(p, cost);
    BiasedCost(q, other);
  }

  // ----- the terminators of a service -----

  datatype Terminator = Terminator(id: string, router: string, identity: string, cost: uint16, precedence: Precedence)

  datatype Costed = Costed(terminator: Terminator, routeCost: uint32)

  datatype Refusal = NoTerminators | NoneForIdentity | NoneReachable

  /** A path's cost counts for at most 2^20. */
  function PathCost(cost: int64): uint32 {
    if cost > 0x10_0000 then 0x10_0000 else Low32(cost)
  }

  function DynamicCost(costMap: map<string, uint16>, id: string): uint16 {
    if id in costMap then costMap[id] else 0
  }

  function Unbiased(t: Terminator, pathCost: uint32, dynamicCosts: map<string, uint16>): uint32 {
    Plus32(Plus32(t.cost, DynamicCost(dynamicCosts, t.id)), pathCost)
  }

  function RouteCost(t: Terminator, pathCost: uint32, dynamicCosts: map<string, uint16>): uint32 {
    GetBiasedCost(t.precedence, Unbiased(t, pathCost, dynamicCosts))
  }

  /** No addition on the way to a route cost wraps, so the route cost says precedence and cost. */
  lemma RouteCostFits(t: Terminator, cost: int64, dynamicCosts: map<string, uint16>)
    requires cost >= 0
    ensures var exact := t.cost + (if t.id in dynamicCosts then dynamicCosts[t.id] else 0) +
                         (if cost > 0x10_0000 then 0x10_0000 else cost);
            && Unbiased(t, PathCost(cost), dynamicCosts) == exact < TWO_32
            && RouteCost(t, PathCost(cost), dynamicCosts) ==
               (match t.precedence case Required => 0 case Default => 262140 case Failed => 524280 case Unknown => 786420) +
               (if exact < 262140 then exact else 262139)
            && InBand(t.precedence, RouteCost(t, PathCost(cost), dynamicCosts))
            && Unbias(t.precedence, RouteCost(t, PathCost(cost), dynamicCosts)) == Clipped(exact)
  {
    hide GetBiasedCost, Unbiased, Unbias, PathCost, DynamicCost, Clipped;
    UnbiasedExactly(t, cost, dynamicCosts);
    var unbiased := Unbiased(t, PathCost(cost), dynamicCosts);
    BandNumbers(t.precedence, unbiased);
    BandExactly(t.precedence, unbiased);
    UnbiasUndoesBias(t.precedence, unbiased);
  }

  lemma UnbiasedExactly(t: Terminator, cost: int64, dynamicCosts: map<string, uint16>)
    requires cost >= 0
    ensures var exact := t.cost + (if t.id in dynamicCosts then dynamicCosts[t.id] else 0) +
                         (if cost > 0x10_0000 then 0x10_0000 else cost);
            Unbiased(t, PathCost(cost), dynamicCosts) == exact <= 0x10_0000 + 2 * MAX_UINT16
  {
  }

  /** The bands begin at multiples of four times the largest 16-bit cost and are as wide as that. */
  lemma BandNumbers(p: Precedence, cost: uint32)
    requires cost < 0x8000_0000
    ensures GetBiasedCost(p, cost) ==
            (match p case Required => 0 case Default => 262140 case Failed => 524280 case Unknown => 786420) +
            (if cost < 262140 then cost else 262139)
  {
  }

  predicate Reachable(t: Terminator, identity: string, routes: map<string, int64>) {
    t.identity == identity && t.router in routes
  }

  /** The terminators of this identity whose router is online and can be reached, with their costs. */
  function Weighted(ts: seq<Terminator>, identity: string, routes: map<string, int64>,
                    dynamicCosts: map<string, uint16>): (r: seq<Costed>)
    ensures r == [] <==> forall t :: t in ts ==> !Reachable(t, identity, routes)
    ensures forall c :: c in r ==> c.terminator in ts && Reachable(c.terminator, identity, routes) &&
                                   c.routeCost == RouteCost(c.terminator, PathCost(routes[c.terminator.router]), dynamicCosts)
    ensures forall t :: t in ts && t.identity == identity && t.router in routes ==>
              Costed(t, RouteCost(t, PathCost(routes[t.router]), dynamicCosts)) in r
  {
    if ts == [] then []
    else
      var t := ts[|ts| - 1];
      var before := Weighted(ts[..|ts| - 1], identity, routes, dynamicCosts);
      assert ts == ts[..|ts| - 1] + [t];
      if Reachable(t, identity, routes)
      then before + [Costed(t, RouteCost(t, PathCost(routes[t.router]), dynamicCosts))]
      else before
  }

  datatype Weighing = Candidates(list: seq<Costed>) | None(why: Refusal)

  predicate Meant(ts: seq<Terminator>, identity: string) {
    exists t :: t in ts && t.identity == identity
  }

  lemma OneMoreTerminator(ts: seq<Terminator>, i: nat, identity: string, routes: map<string, int64>,
                          dynamicCosts: map<string, uint16>)
    requires i < |ts|
    ensures Meant(ts[..i + 1], identity) <==> Meant(ts[..i], identity) || ts[i].identity == identity
    ensures Weighted(ts[..i + 1], identity, routes, dynamicCosts) ==
            Weighted(ts[..i], identity, routes, dynamicCosts) +
            if Reachable(ts[i], identity, routes)
            then [Costed(ts[i], RouteCost(ts[i], PathCost(routes[ts[i].router]), dynamicCosts))] else []
  {
    assert ts[..i + 1][..i] == ts[..i] && ts[..i + 1] == ts[..i] + [ts[i]];
  }

  /** Costs the terminators for a session.  `routes` has the cost of the cheapest path to each router
      that is online and has one. */
  method Weigh(ts: seq<Terminator>, identity: string, routes: map<string, int64>, dynamicCosts: map<string, uint16>)
    returns (r: Weighing)
    ensures r.Candidates? ==> r.list == Weighted(ts, identity, routes, dynamicCosts) != []
    ensures r.Candidates? ==> forall t :: t in ts && t.identity == identity && t.router in routes ==>
              Costed(t, RouteCost(t, PathCost(routes[t.router]), dynamicCosts)) in r.list
    ensures r == None(NoTerminators) <==> ts == []
    ensures r == None(NoneForIdentity) <==> ts != [] && !Meant(ts, identity)
    ensures r == None(NoneReachable) <==> Meant(ts, identity) && forall t :: t in ts ==> !Reachable(t, identity, routes)
  {
    var paths: map<string, uint32> := map[];
    var weighted: seq<Costed> := [];
    var errors := 0;
    for i := 0 to |ts|
      invariant forall router :: router in paths ==> router in routes && paths[router] == PathCost(routes[router])
      invariant weighted == Weighted(ts[..i], identity, routes, dynamicCosts)
      invariant weighted == [] && errors == 0 <==> !Meant(ts[..i], identity)
      invariant errors >= 0
    {
      var t := ts[i];
      OneMoreTerminator(ts, i, identity, routes, dynamicCosts);
      if t.identity != identity {
        continue;
      }
      if t.router !in paths {
        if t.router !in routes {
          errors := errors + 1;
          continue;
        }
        paths := paths[t.router := PathCost(routes[t.router])];
      }
      weighted := weighted + [Costed(t, RouteCost(t, paths[t.router], dynamicCosts))];
    }
    assert ts[..|ts|] == ts;
    if |ts| == 0 {
      return None(NoTerminators);
    }
    if |weighted| == 0 && errors == 0 {
      return None(NoneForIdentity);
    }
    if |weighted| == 0 {
      return None(NoneReachable);
    }
    return Candidates(weighted);
  }

  // ----- the sorted list -----

  ghost predicate Sorts(list: seq<Costed>, weighted: seq<Costed>) {
    && multiset(list) == multiset(weighted)
    && forall i, j :: 0 <= i < j < |list| ==> list[i].routeCost <= list[j].routeCost
  }

  function Leading(list: seq<Costed>, p: Precedence): seq<Costed> {
    if list == [] || list[0].terminator.precedence != p then [] else [list[0]] + Leading(list[1..], p)
  }

  function OfPrecedence(list: seq<Costed>, p: Precedence): seq<Costed> {
    if list == [] then []
    else (if list[0].terminator.precedence == p then [list[0]] else []) + OfPrecedence(list[1..], p)
  }

  lemma {:induction false} LeadingPrefix(list: seq<Costed>, p: Precedence)
    ensures var result := Leading(list, p);
            && result <= list && (forall c :: c in result ==> c.terminator.precedence == p)
            && (|result| < |list| ==> list[|result|].terminator.precedence != p)
  {
    if list != [] && list[0].terminator.precedence == p {
      LeadingPrefix(list[1..], p);
      assert list == [list[0]] + list[1..];
    }
  }

  /** The terminators of the first one's precedence, up to the first other one. */
  method GetRelatedTerminators(list: seq<Costed>) returns (result: seq<Costed>)
    requires list != []
    ensures result == Leading(list, list[0].terminator.precedence)
    ensures result <= list && forall c :: c in result ==> c.terminator.precedence == list[0].terminator.precedence
    ensures |result| < |list| ==> list[|result|].terminator.precedence != list[0].terminator.precedence
  {
    LeadingPrefix(list, list[0].terminator.precedence);
    var first := list[0];
    result := [first];
    var i := 1;
    while i < |list|
      invariant 1 <= i <= |list|
      invariant Leading(list, first.terminator.precedence) == result + Leading(list[i..], first.terminator.precedence)
    {
      var t := list[i];
      assert list[i..][0] == t && list[i..][1..] == list[i + 1..];
      if t.terminator.precedence == first.terminator.precedence {
        result := result + [t];
      } else {
        break;
      }
      i := i + 1;
    }
  }

  lemma {:induction false} NoneLeft(list: seq<Costed>, p: Precedence)
    requires forall c :: c in list ==> c.terminator.precedence != p
    ensures OfPrecedence(list, p) == []
  {
    if list != [] {
      NoneLeft(list[1..], p);
    }
  }

  /** Stopping at the first mismatch misses nothing in a list that is sorted by costs in bands. */
  lemma {:induction false} LeadingIsAll(list: seq<Costed>, p: Precedence)
    requires forall i, j :: 0 <= i < j < |list| ==> list[i].routeCost <= list[j].routeCost
    requires forall c :: c in list ==> InBand(c.terminator.precedence, c.routeCost) && Rank(p) <= Rank(c.terminator.precedence)
    ensures Leading(list, p) == OfPrecedence(list, p)
  {
    if list != [] {
      if list[0].terminator.precedence == p {
        LeadingIsAll(list[1..], p);
      } else {
        assert list[0].routeCost > MaxCost(p);
        forall c | c in list ensures c.terminator.precedence != p {
          var i :| 0 <= i < |list| && list[i] == c;
          assert list[0].routeCost <= c.routeCost;
        }
        NoneLeft(list, p);
      }
    }
  }

  lemma {:induction false} CountOfPrecedence(list: seq<Costed>, p: Precedence, c: Costed)
    ensures multiset(OfPrecedence(list, p))[c] == if c.terminator.precedence == p then multiset(list)[c] else 0
  {
    if list != [] {
      CountOfPrecedence(list[1..], p, c);
      assert list == [list[0]] + list[1..];
    }
  }

  ghost predicate AllInBand(list: seq<Costed>) {
    forall c :: c in list ==> InBand(c.terminator.precedence, c.routeCost)
  }

  predicate AtLeastAsGood(c: Costed, d: Costed) {
    var p, q := c.terminator.precedence, d.terminator.precedence;
    Rank(p) < Rank(q) || (p == q && Unbias(p, c.routeCost) <= Unbias(p, d.routeCost))
  }

  lemma SortedFirst(list: seq<Costed>, weighted: seq<Costed>, c: Costed)
    requires Sorts(list, weighted) && AllInBand(weighted) && list != []
    requires c in list
    ensures list[0] in weighted && c in weighted
    ensures list[0].routeCost <= c.routeCost
    ensures AtLeastAsGood(list[0], c)
  {
    var i :| 0 <= i < |list| && list[i] == c;
    assert list[0] in multiset(list) && c in multiset(list);
  }

  lemma SortedRelated(list: seq<Costed>, weighted: seq<Costed>)
    requires Sorts(list, weighted) && AllInBand(weighted) && list != []
    ensures var best := list[0].terminator.precedence;
            multiset(Leading(list, best)) == multiset(OfPrecedence(weighted, best))
  {
    var best := list[0].terminator.precedence;
    forall c | c in list ensures InBand(c.terminator.precedence, c.routeCost) && Rank(best) <= Rank(c.terminator.precedence) {
      SortedFirst(list, weighted, c);
    }
    LeadingIsAll(list, best);
    forall c ensures multiset(OfPrecedence(list, best))[c] == multiset(OfPrecedence(weighted, best))[c] {
      CountOfPrecedence(list, best, c);
      CountOfPrecedence(weighted, best, c);
    }
  }

  /** After sorting, the first terminator has the best precedence present and is the cheapest of that
      precedence, and the terminators related to it are all those of its precedence. */
  lemma PrecedenceDominates(ts: seq<Terminator>, identity: string, routes: map<string, int64>,
                            dynamicCosts: map<string, uint16>, list: seq<Costed>)
    requires forall router :: router in routes ==> routes[router] >= 0
    requires list != [] && Sorts(list, Weighted(ts, identity, routes, dynamicCosts))
    ensures var weighted := Weighted(ts, identity, routes, dynamicCosts);
            var best := list[0].terminator.precedence;
            && list[0] in weighted
            && (forall c :: c in weighted ==> AtLeastAsGood(list[0], c))
            && multiset(Leading(list, best)) == multiset(OfPrecedence(weighted, best))
  {
    var weighted := Weighted(ts, identity, routes, dynamicCosts);
    forall c | c in weighted ensures InBand(c.terminator.precedence, c.routeCost) {
      RouteCostFits(c.terminator, routes[c.terminator.router], dynamicCosts);
    }
    SortedRelated(list, weighted);
    SortedFirst(list, weighted, list[0]);
    forall c | c in weighted ensures AtLeastAsGood(list[0], c) {
      assert c in multiset(weighted);
      SortedFirst(list, weighted, c);
    }
  }

  // ----- weighted choice -----

  function UnbiasedCost(c: Costed): uint32 {
    Unbias(c.terminator.precedence, c.routeCost)
  }

  /** The unbiased cost, but at least 1. */
  function Weight(c: Costed): (w: int)
    ensures w >= 1 && w >= UnbiasedCost(c) && (w == 1 || w == UnbiasedCost(c))
  {
    if UnbiasedCost(c) == 0 then 1 else UnbiasedCost(c)
  }

  function TotalWeight(list: seq<Costed>): (w: int)
    ensures w >= |list|
  {
    if list == [] then 0 else TotalWeight(list[..|list| - 1]) + Weight(list[|list| - 1])
  }

  function Share(weight: int, total: int): real
    requires total > 0
  {
    1.0 - weight as real / total as real
  }

  /** The first `n` shares added up. */
  function Shares(list: seq<Costed>, total: int, n: nat): real
    requires n <= |list| && total > 0
  {
    if n == 0 then 0.0 else Shares(list, total, n - 1) + Share(Weight(list[n - 1]), total)
  }

  method AddShares(terminators: seq<Costed>, totalCost: int) returns (costIdx: seq<real>)
    requires totalCost > 0
    ensures |costIdx| == |terminators|
    ensures forall k :: 0 <= k < |costIdx| ==> costIdx[k] == Shares(terminators, totalCost, k + 1)
  {
    var total: real := 0.0;
    costIdx := [];
    for i := 0 to |terminators|
      invariant |costIdx| == i && total == Shares(terminators, totalCost, i)
      invariant forall k :: 0 <= k < i ==> costIdx[k] == Shares(terminators, totalCost, k + 1)
    {
      total := total + Share(Weight(terminators[i]), totalCost);
      costIdx := costIdx + [total];
    }
  }

  /** The choice among related terminators, for a random number `selected` from [0, 1).  A third
      terminator is never chosen, as the shares of the first two already reach 1. */
  method WeightedChoice(terminators: seq<Costed>, selected: real) returns (chosen: nat)
    requires terminators != [] && 0.0 <= selected < 1.0
    ensures |terminators| == 1 ==> chosen == 0
    ensures |terminators| > 1 ==>
              chosen == if selected < Share(Weight(terminators[0]), TotalWeight(terminators)) then 0 else 1
  {
    if |terminators| == 1 {
      return 0;
    }
    var totalCost := 0;
    for i := 0 to |terminators|
      invariant totalCost == TotalWeight(terminators[..i])
    {
      assert terminators[..i + 1][..i] == terminators[..i];
      totalCost := totalCost + Weight(terminators[i]);
    }
    assert terminators[..|terminators|] == terminators;
    var costIdx := AddShares(terminators, totalCost);
    TwoSharesSuffice(terminators);
    assert costIdx[0] == Shares(terminators, totalCost, 1);
    assert costIdx[1] == Shares(terminators, totalCost, 2);
    chosen := 0;
    for i := 0 to |terminators|
      invariant i <= 1 && chosen == 0
      invariant i == 1 ==> selected >= costIdx[0]
    {
      if selected < costIdx[i] {
        chosen := i;
        break;
      }
    }
  }

  lemma TwoSharesSuffice(list: seq<Costed>)
    requires |list| > 1
    ensures Shares(list, TotalWeight(list), 1) == Share(Weight(list[0]), TotalWeight(list))
    ensures Shares(list, TotalWeight(list), 2) >= 1.0
  {
    var total := TotalWeight(list);
    FirstTwo(list);
    SharesOfTwo(Weight(list[0]), Weight(list[1]), total);
    assert Shares(list, total, 1) == Shares(list, total, 0) + Share(Weight(list[0]), total);
    assert Shares(list, total, 2) == Shares(list, total, 1) + Share(Weight(list[1]), total);
  }

  /** Of two terminators whose unbiased costs are `a` and `b`, a cost of 0 counting as 1, the first is
      chosen for random numbers below `b / (a + b)`: the dearer it is, the less often. */
  lemma TwoTerminators(list: seq<Costed>, selected: real)
    requires |list| == 2
    ensures var u, v := Unbias(list[0].terminator.precedence, list[0].routeCost),
                        Unbias(list[1].terminator.precedence, list[1].routeCost);
            var a, b := if u == 0 then 1 else u, if v == 0 then 1 else v;
            selected < Share(Weight(list[0]), TotalWeight(list)) <==> selected * (a + b) as real < b as real
  {
    hide Share, TotalWeight;
    TotalOfTwo(list);
    ShareOfTwo(Weight(list[0]), Weight(list[1]), selected);
  }

  lemma TotalOneMore(list: seq<Costed>, c: Costed)
    ensures TotalWeight(list + [c]) == TotalWeight(list) + Weight(c)
  {
    assert (list + [c])[..|list|] == list;
  }

  lemma TotalOfTwo(list: seq<Costed>)
    requires |list| == 2
    ensures TotalWeight(list) == Weight(list[0]) + Weight(list[1])
  {
    TotalOneMore([], list[0]);
    TotalOneMore([list[0]], list[1]);
    assert [] + [list[0]] == [list[0]] && [list[0]] + [list[1]] == list;
  }

  /** Of two terminators the first one's share is the other's part of the total. */
  lemma ShareOfTwo(a: int, b: int, selected: real)
    requires a > 0 && b > 0
    ensures selected < Share(a, a + b) <==> selected * (a + b) as real < b as real
  {
    var total := (a + b) as real;
    var part := a as real / total;
    assert part * total == a as real;
    assert (1.0 - part) * total == total - part * total == b as real;
    LessScaled(selected, 1.0 - part, total);
  }

  lemma LessScaled(x: real, y: real, z: real)
    requires z > 0.0
    ensures x < y <==> x * z < y * z
  {
    assert x < y ==> (y - x) * z > 0.0;
    assert x > y ==> (x - y) * z > 0.0;
    assert (y - x) * z == y * z - x * z;
  }

  lemma SharesOfTwo(v: int, w: int, total: int)
    requires 0 <= v && 0 <= w && v + w <= total && total > 0
    ensures Share(v, total) + Share(w, total) >= 1.0
  {
    var t := total as real;
    var rest := (total - v - w) as real;
    assert v as real / t + w as real / t + rest / t == (v as real + w as real + rest) / t == t / t;
    assert rest / t >= 0.0;
  }

  lemma {:induction false} FirstTwo(list: seq<Costed>)
    requires |list| > 1
    ensures Weight(list[0]) + Weight(list[1]) <= TotalWeight(list)
  {
    if |list| == 2 {
      assert list[..1][..0] == [];
      assert TotalWeight(list[..1]) == TotalWeight(list[..1][..0]) + Weight(list[0]);
    } else {
      FirstTwo(list[..|list| - 1]);
    }
  }
}
