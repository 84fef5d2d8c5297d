/** Weighted paths, and what a search that starts from one router may know about them. */
module Paths {
  import opened Words

  type Weights = map<(string, string), int>

  const UNREACHED := MAX_INT32

  ghost predicate IsPath(nodes: set<string>, w: Weights, p: seq<string>) {
    && p != []
    && (forall i :: 0 <= i < |p| ==> p[i] in nodes)
    && (forall i, j :: 0 <= i < |p| && j == i + 1 < |p| ==> (p[i], p[j]) in w)
  }

  ghost predicate Simple(p: seq<string>) {
    forall i, j :: 0 <= i < j < |p| ==> p[i] != p[j]
  }

  function Weight(w: Weights, a: string, b: string): int {
    if (a, b) in w then w[(a, b)] else 0
  }

  function PathCost(w: Weights, p: seq<string>): int {
    if |p| < 2 then 0
    else PathCost(w, p[..|p| - 1]) + Weight(w, p[|p| - 2], p[|p| - 1])
  }

  lemma {:induction false} PathCostFirst(w: Weights, p: seq<string>)
    requires |p| >= 2
    ensures PathCost(w, p) == Weight(w, p[0], p[1]) + PathCost(w, p[1..])
  {
    if |p| == 2 {
      assert PathCost(w, p[..1]) == 0 && PathCost(w, p[1..]) == 0;
    } else {
      var n := |p| - 1;
      PathCostFirst(w, p[..n]);
      assert p[..n][1..] == p[1..][..n - 1];
    }
  }

  ghost predicate Connects(nodes: set<string>, w: Weights, p: seq<string>, src: string, dst: string) {
    IsPath(nodes, w, p) && p[0] == src && p[|p| - 1] == dst
  }

  /** The state of the search: tentative distances, the router each was reached from, the routers
      still to be visited, the weights looked up so far, and the order of the visits. */
  datatype Search = Search(
    dist: map<string, int>,
    prev: map<string, string>,
    unvisited: set<string>,
    w: Weights,
    rank: map<string, nat>,
    visits: nat)

  ghost predicate DistancesRight(nodes: set<string>, src: string, s: Search) {
    && (forall r :: r in s.unvisited ==> r in nodes)
    && (forall r :: r in s.rank <==> r in nodes && r !in s.unvisited)
    && (forall r :: r in s.dist <==> r in nodes || r == src)
    && (forall r :: r in s.dist ==> 0 <= s.dist[r] <= UNREACHED)
    && s.dist[src] == 0
    && (forall r :: r in s.rank ==> s.rank[r] < s.visits)
    && (forall r {:trigger r in s.prev} :: r in s.dist && s.dist[r] < UNREACHED ==> r == src || r in s.prev)
    && (src !in nodes ==> forall r :: r !in s.prev)
    && (src in nodes && s.visits > 0 ==> src in s.rank)
  }

  ghost predicate WeightsRight(s: Search) {
    forall a, b {:trigger (a, b) in s.w} :: (a, b) in s.w ==>
      && (b, a) in s.w && s.w[(b, a)] == s.w[(a, b)]
      && 0 <= s.w[(a, b)]
      && (a in s.rank || b in s.rank)
  }

  ghost predicate PrevRight(nodes: set<string>, src: string, s: Search) {
    forall r {:trigger r in s.prev} {:trigger s.prev[r]} :: r in s.prev ==>
      && r in nodes && r != src && r in s.dist
      && s.prev[r] in s.rank && s.prev[r] in s.dist
      && (s.prev[r], r) in s.w
      && s.dist[r] == s.dist[s.prev[r]] + s.w[(s.prev[r], r)]
      && s.dist[r] < UNREACHED
      && (r in s.rank ==> s.rank[s.prev[r]] < s.rank[r])
  }

  /** Visited routers are no farther than the others. */
  ghost predicate Frontier(s: Search) {
    forall u, x {:trigger u in s.rank, x in s.unvisited} :: u in s.rank && x in s.unvisited && u in s.dist && x in s.dist ==> s.dist[u] <= s.dist[x]
  }

  /** No known weight shortens a distance further. */
  ghost predicate Relaxed(s: Search) {
    forall u, v {:trigger (u, v) in s.w} :: u in s.rank && (u, v) in s.w && u in s.dist && v in s.dist ==>
      s.dist[v] <= s.dist[u] + s.w[(u, v)]
  }

  ghost predicate SearchRight(nodes: set<string>, src: string, s: Search) {
    DistancesRight(nodes, src, s) && WeightsRight(s) && PrevRight(nodes, src, s) && Frontier(s) && Relaxed(s)
  }

  /** Distances are lower bounds along every path, once no weight shortens any of them. */
  lemma {:induction false} DistanceIsLowerBound(nodes: set<string>, src: string, s: Search, p: seq<string>)
    requires SearchRight(nodes, src, s) && s.unvisited == {}
    requires IsPath(nodes, s.w, p) && p[0] == src
    ensures s.dist[p[|p| - 1]] <= PathCost(s.w, p)
  {
    if |p| >= 2 {
      var n := |p| - 1;
      var front := p[..n];
      assert IsPath(nodes, s.w, front) by {
        assert forall i, j :: 0 <= i < n && j == i + 1 < n ==> (front[i], front[j]) == (p[i], p[j]);
      }
      DistanceIsLowerBound(nodes, src, s, front);
      assert (p[n - 1], p[n]) in s.w;
    }
  }

  // ----- the steps of the search -----

  function Start(nodes: set<string>, src: string): Search {
    Search((map r | r in nodes + {src} :: if r == src then 0 else UNREACHED), map[], nodes, map[], map[], 0)
  }

  function Visited(s: Search, u: string): Search {
    s.(unvisited := s.unvisited - {u}, rank := s.rank[u := s.visits], visits := s.visits + 1)
  }

  /** The link between `u` and `r` costs `cost`. */
  function LookedUp(s: Search, u: string, r: string, cost: int): Search
    requires u in s.dist && r in s.dist
  {
    var s1 := s.(w := s.w[(u, r) := cost][(r, u) := cost]);
    if s.dist[u] + cost < s.dist[r] then s1.(dist := s.dist[r := s.dist[u] + cost], prev := s.prev[r := u])
    else s1
  }

  lemma LookedUpChanges(s: Search, u: string, r: string, cost: int, alt: int)
    requires u in s.dist && r in s.dist && alt == s.dist[u] + cost
    ensures alt < s.dist[r] ==> LookedUp(s, u, r, cost).dist == s.dist[r := alt]
    ensures alt < s.dist[r] ==> LookedUp(s, u, r, cost).prev == s.prev[r := u]
    ensures alt >= s.dist[r] ==> LookedUp(s, u, r, cost).dist == s.dist
    ensures alt >= s.dist[r] ==> LookedUp(s, u, r, cost).prev == s.prev
  {
  }

  lemma StartRight(nodes: set<string>, src: string)
    ensures SearchRight(nodes, src, Start(nodes, src))
  {
  }

  /** The source is the first router to be visited, if it is one of the routers. */
  lemma FirstVisit(nodes: set<string>, src: string, s: Search, u: string)
    requires SearchRight(nodes, src, s) && u in s.unvisited && src in nodes && s.visits == 0
    requires forall x :: x in s.unvisited ==> s.dist[u] <= s.dist[x]
    ensures u == src
  {
    assert src in s.unvisited;
  }

  lemma LeastUnvisited(nodes: set<string>, src: string, s: Search, u: string)
    requires DistancesRight(nodes, src, s) && u in s.unvisited
    requires forall r :: r in s.unvisited && r in s.dist && u in s.dist ==> s.dist[u] <= s.dist[r]
    ensures forall x :: x in s.unvisited ==> x in s.dist && u in s.dist && s.dist[u] <= s.dist[x]
  {
  }

  lemma VisitDistances(nodes: set<string>, src: string, s: Search, u: string)
    requires DistancesRight(nodes, src, s) && u in s.unvisited
    requires src in nodes && s.visits == 0 ==> u == src
    ensures DistancesRight(nodes, src, Visited(s, u))
  {
  }

  lemma VisitPrev(nodes: set<string>, src: string, s: Search, u: string)
    requires PrevRight(nodes, src, s) && DistancesRight(nodes, src, s) && u in s.unvisited
    ensures PrevRight(nodes, src, Visited(s, u))
  {
  }

  lemma VisitRelaxed(nodes: set<string>, s: Search, u: string)
    requires Relaxed(s) && WeightsRight(s) && u in s.dist && u !in s.rank
    requires forall v :: v in s.rank && v in s.dist ==> s.dist[v] <= s.dist[u]
    ensures Relaxed(Visited(s, u))
  {
    forall v | (u, v) in s.w && v in s.dist ensures s.dist[v] <= s.dist[u] + s.w[(u, v)] {
      assert v in s.rank;
    }
  }

  lemma VisitKeeps(nodes: set<string>, src: string, s: Search, u: string)
    requires SearchRight(nodes, src, s) && u in s.unvisited
    requires forall x :: x in s.unvisited ==> s.dist[u] <= s.dist[x]
    ensures SearchRight(nodes, src, Visited(s, u))
    ensures forall v :: v in Visited(s, u).rank ==> s.dist[v] <= s.dist[u]
  {
    if src in nodes && s.visits == 0 {
      FirstVisit(nodes, src, s, u);
    }
    VisitDistances(nodes, src, s, u);
    VisitPrev(nodes, src, s, u);
    VisitRelaxed(nodes, s, u);
  }

  lemma LookUpDistances(nodes: set<string>, src: string, s: Search, u: string, r: string, cost: int)
    requires DistancesRight(nodes, src, s) && u in s.rank && r in s.unvisited && 0 <= cost
    ensures DistancesRight(nodes, src, LookedUp(s, u, r, cost))
    ensures r != src
  {
    if src !in nodes {
      assert u !in s.prev;
    }
  }

  lemma LookUpWeights(s: Search, u: string, r: string, cost: int)
    requires WeightsRight(s) && u in s.rank && u in s.dist && r in s.dist && 0 <= cost
    ensures WeightsRight(LookedUp(s, u, r, cost))
  {
  }

  lemma LookUpPrev(nodes: set<string>, src: string, s: Search, u: string, r: string, cost: int)
    requires PrevRight(nodes, src, s) && WeightsRight(s)
    requires u in s.rank && r !in s.rank && r in nodes && r != src && u in s.dist && r in s.dist
    requires (u, r) !in s.w && s.dist[r] <= UNREACHED
    ensures PrevRight(nodes, src, LookedUp(s, u, r, cost))
  {
    var s' := LookedUp(s, u, r, cost);
    assert (r, u) !in s.w;
    forall x | x in s.prev && x != r
      ensures s.prev[x] != r && s'.w[(s.prev[x], x)] == s.w[(s.prev[x], x)]
    {
      assert (s.prev[x], x) in s.w;
    }
  }

  lemma LookUpRelaxed(s: Search, u: string, r: string, cost: int)
    requires Relaxed(s) && u in s.rank && r !in s.rank && u in s.dist && r in s.dist
    ensures Relaxed(LookedUp(s, u, r, cost))
  {
  }

  lemma LookUpFrontier(s: Search, u: string, r: string, cost: int)
    requires Frontier(s) && u in s.rank && r !in s.rank && u in s.dist && r in s.dist && 0 <= cost
    requires forall v :: v in s.rank && v in s.dist ==> s.dist[v] <= s.dist[u]
    ensures Frontier(LookedUp(s, u, r, cost))
  {
  }

  lemma LookUpKeeps(nodes: set<string>, src: string, s: Search, u: string, r: string, cost: int)
    requires SearchRight(nodes, src, s) && u in s.rank && r in s.unvisited && (u, r) !in s.w && 0 <= cost
    requires forall v :: v in s.rank ==> s.dist[v] <= s.dist[u]
    ensures SearchRight(nodes, src, LookedUp(s, u, r, cost))
    ensures forall v :: v in s.rank ==> LookedUp(s, u, r, cost).dist[v] == s.dist[v]
  {
    LookUpDistances(nodes, src, s, u, r, cost);
    LookUpWeights(s, u, r, cost);
    LookUpPrev(nodes, src, s, u, r, cost);
    LookUpRelaxed(s, u, r, cost);
    LookUpFrontier(s, u, r, cost);
  }

  // ----- what has been looked up -----

  /** The connected routers, and for every usable link its two ends, in both orders, and its cost. */
  datatype Graph = Graph(nodes: set<string>, costs: iset<(string, string, int)>)

  ghost predicate Undirected(g: Graph) {
    forall a, b, c {:trigger (a, b, c) in g.costs} :: (a, b, c) in g.costs ==> (b, a, c) in g.costs
  }

  ghost predicate Linked(g: Graph, a: string, b: string) {
    exists c :: (a, b, c) in g.costs
  }

  /** Only links were looked up. */
  ghost predicate PairsRight(g: Graph, w: Weights) {
    forall a, b {:trigger (a, b) in w} :: (a, b) in w ==> a in g.nodes && b in g.nodes && a != b && (a, b, w[(a, b)]) in g.costs
  }

  /** All links between `u` and connected routers were looked up. */
  ghost predicate CoveredFrom(g: Graph, w: Weights, u: string) {
    forall v {:trigger Linked(g, u, v)} :: v in g.nodes && v != u && Linked(g, u, v) ==> (u, v) in w
  }

  ghost predicate Covered(g: Graph, s: Search) {
    PairsRight(g, s.w) && forall u :: u in s.rank ==> CoveredFrom(g, s.w, u)
  }

  /** `w` is what a whole search can have looked up: for each pair of connected routers that links
      join, the cost of one of these links, and nothing for any other pair. */
  ghost predicate Observed(g: Graph, w: Weights) {
    PairsRight(g, w) && BothWays(w) && forall u :: u in g.nodes ==> CoveredFrom(g, w, u)
  }

  /** A pair is looked up once, for both directions. */
  ghost predicate BothWays(w: Weights) {
    forall a, b {:trigger (a, b) in w} :: (a, b) in w ==> (b, a) in w && w[(b, a)] == w[(a, b)]
  }

  /** Where the loop over the neighbours of `u` may stand that began in `s` and has dealt with `done`. */
  ghost function Expanding(g: Graph, src: string, s: Search, u: string, done: seq<string>): iset<Search> {
    iset s' | IsExpanding(g, src, s, u, done, s')
  }

  ghost predicate IsExpanding(g: Graph, src: string, s: Search, u: string, done: seq<string>, s': Search) {
    && SearchRight(g.nodes, src, s') && PairsRight(g, s'.w) && u in s'.rank
    && s'.unvisited == s.unvisited - {u} && s'.rank == Visited(s, u).rank
    && (forall v {:trigger v in s'.rank} :: v in s'.rank ==> s'.dist[v] <= s'.dist[u])
    && (forall p {:trigger p in s.w} :: p in s.w ==> p in s'.w)
    && (forall r {:trigger r in done} :: r in done && r in g.nodes ==> (u, r) in s'.w)
    && (forall r {:trigger (u, r) in s'.w} :: r in s'.unvisited && (u, r) in s'.w ==> r in done)
  }

  lemma ExpandStart(g: Graph, src: string, s: Search, u: string)
    requires SearchRight(g.nodes, src, s) && Covered(g, s) && u in s.unvisited
    requires forall x :: x in s.unvisited ==> s.dist[u] <= s.dist[x]
    ensures Visited(s, u) in Expanding(g, src, s, u, [])
  {
    VisitKeeps(g.nodes, src, s, u);
    forall r | r in s.unvisited ensures (u, r) !in s.w {
      assert r !in s.rank && u !in s.rank;
    }
  }

  lemma PairsGrow(g: Graph, w: Weights, u: string, r: string, cost: int)
    requires PairsRight(g, w) && u in g.nodes && r in g.nodes && u != r
    requires (u, r, cost) in g.costs && (r, u, cost) in g.costs
    ensures PairsRight(g, w[(u, r) := cost][(r, u) := cost])
  {
  }

  lemma ExpandPairs(s: Search, u: string, done: seq<string>, s': Search, r: string, cost: int, nodes: set<string>)
    requires u in s'.dist && r in s'.dist
    requires forall p {:trigger p in s.w} :: p in s.w ==> p in s'.w
    requires forall x {:trigger x in done} :: x in done && x in nodes ==> (u, x) in s'.w
    requires forall x {:trigger (u, x) in s'.w} :: x in s'.unvisited && (u, x) in s'.w ==> x in done
    ensures var w' := LookedUp(s', u, r, cost).w;
            && (forall p {:trigger p in s.w} :: p in s.w ==> p in w')
            && (forall x {:trigger x in done + [r]} :: x in done + [r] && x in nodes ==> (u, x) in w')
            && (forall x {:trigger (u, x) in w'} :: x in s'.unvisited && (u, x) in w' && u != r ==> x in done + [r])
  {
    var w' := LookedUp(s', u, r, cost).w;
    assert forall x {:trigger (u, x) in w'} :: (u, x) in w' ==> (u, x) in s'.w || x == r || (u, x) == (r, u);
    assert forall x {:trigger x in done + [r]} :: x in done + [r] <==> x in done || x == r;
  }

  lemma ExpandLookUp(g: Graph, src: string, s: Search, u: string, done: seq<string>, s': Search, r: string, cost: int)
    requires s' in Expanding(g, src, s, u, done) && r in s'.unvisited && r !in done && u != r
    requires Undirected(g) && 0 <= cost && (u, r, cost) in g.costs
    ensures LookedUp(s', u, r, cost) in Expanding(g, src, s, u, done + [r])
  {
    assert (u, r) !in s'.w;
    LookUpKeeps(g.nodes, src, s', u, r, cost);
    PairsGrow(g, s'.w, u, r, cost);
    ExpandPairs(s, u, done, s', r, cost, g.nodes);
  }

  /** A neighbour visited earlier has looked up its link to `u` already. */
  lemma ExpandSkip(g: Graph, src: string, s: Search, u: string, done: seq<string>, s': Search, r: string)
    requires s' in Expanding(g, src, s, u, done) && Covered(g, s) && SearchRight(g.nodes, src, s)
    requires Undirected(g) && r != u && Linked(g, u, r) && r !in s'.unvisited
    ensures s' in Expanding(g, src, s, u, done + [r])
  {
    if r in g.nodes {
      var c :| (u, r, c) in g.costs;
      assert Linked(g, r, u);
      assert r in s.rank && CoveredFrom(g, s.w, r);
      assert (r, u) in s.w;
    }
  }

  lemma ExpandEnd(g: Graph, src: string, s: Search, u: string, done: seq<string>, s': Search)
    requires s' in Expanding(g, src, s, u, done) && Covered(g, s)
    requires forall x :: x in done <==> x != u && Linked(g, u, x)
    ensures Covered(g, s')
  {
    forall x | x in s'.rank ensures CoveredFrom(g, s'.w, x) {
      if x != u {
        assert x in s.rank && CoveredFrom(g, s.w, x);
      }
    }
  }

  // ----- reading the path off the predecessors -----

  ghost predicate Climbs(rank: map<string, nat>, q: seq<string>) {
    && (forall i :: 0 <= i < |q| ==> q[i] in rank)
    && (forall i, j :: 0 <= i < j < |q| ==> rank[q[i]] < rank[q[j]])
  }

  /** `q` leads from a router that was reached, along predecessors, to `dst`. */
  ghost predicate Trail(nodes: set<string>, s: Search, q: seq<string>, dst: string) {
    && IsPath(nodes, s.w, q) && q[|q| - 1] == dst
    && Climbs(s.rank, q)
    && q[0] in s.dist && dst in s.dist
    && s.dist[q[0]] + PathCost(s.w, q) == s.dist[dst]
    && (|q| > 1 ==> s.dist[q[0]] < UNREACHED && s.dist[dst] < UNREACHED)
  }

  lemma PathGrows(nodes: set<string>, w: Weights, p: string, q: seq<string>)
    requires IsPath(nodes, w, q) && p in nodes && (p, q[0]) in w
    ensures IsPath(nodes, w, [p] + q)
    ensures PathCost(w, [p] + q) == w[(p, q[0])] + PathCost(w, q)
  {
    var q' := [p] + q;
    assert q'[1..] == q;
    PathCostFirst(w, q');
    forall i, j | 0 <= i < |q'| && j == i + 1 < |q'| ensures (q'[i], q'[j]) in w {
      if i > 0 {
        assert (q[i - 1], q[j - 1]) in w;
      }
    }
  }

  lemma ClimbGrows(rank: map<string, nat>, p: string, q: seq<string>)
    requires Climbs(rank, q) && q != [] && p in rank && rank[p] < rank[q[0]]
    ensures Climbs(rank, [p] + q)
  {
    var q' := [p] + q;
    forall i, j | 0 <= i < j < |q'| ensures rank[q'[i]] < rank[q'[j]] {
      if i > 0 {
        assert rank[q[i - 1]] < rank[q[j - 1]];
      } else if j > 1 {
        assert rank[q[0]] < rank[q[j - 1]];
      }
    }
  }

  lemma PrevEarlier(nodes: set<string>, src: string, s: Search, r: string)
    requires PrevRight(nodes, src, s) && r in s.prev && r in s.rank
    ensures s.prev[r] in s.rank && s.rank[s.prev[r]] < s.rank[r]
  {
  }

  lemma TrailGrows(nodes: set<string>, src: string, s: Search, q: seq<string>, dst: string)
    requires SearchRight(nodes, src, s) && s.unvisited == {} && Trail(nodes, s, q, dst) && q[0] in s.prev
    ensures s.prev[q[0]] in s.rank && s.rank[s.prev[q[0]]] < s.rank[q[0]]
    ensures Trail(nodes, s, [s.prev[q[0]]] + q, dst)
  {
    var p := s.prev[q[0]];
    assert p in nodes && (p, q[0]) in s.w;
    PathGrows(nodes, s.w, p, q);
    ClimbGrows(s.rank, p, q);
  }

  // ----- what a finished search says -----

  ghost predicate Shortest(g: Graph, w: Weights, p: seq<string>, src: string, dst: string) {
    && Connects(g.nodes, w, p, src, dst)
    && Simple(p)
    && forall q :: Connects(g.nodes, w, q, src, dst) ==> PathCost(w, p) <= PathCost(w, q)
  }

  ghost predicate OutOfReach(g: Graph, w: Weights, src: string, dst: string) {
    forall q :: Connects(g.nodes, w, q, src, dst) ==> UNREACHED <= PathCost(w, q)
  }

  lemma ClimbIsSimple(rank: map<string, nat>, q: seq<string>)
    requires Climbs(rank, q)
    ensures Simple(q)
  {
    forall i, j | 0 <= i < j < |q| ensures q[i] != q[j] {
      assert rank[q[i]] < rank[q[j]];
    }
  }

  /** The trail that cannot be followed further back starts at the source, or is the destination
      alone, which then is out of reach. */
  lemma TrailEnds(g: Graph, src: string, dst: string, s: Search, q: seq<string>)
    requires SearchRight(g.nodes, src, s) && s.unvisited == {} && src != dst
    requires Trail(g.nodes, s, q, dst) && q[0] !in s.prev
    ensures q[0] == src ==> Shortest(g, s.w, q, src, dst) && PathCost(s.w, q) == s.dist[dst] < UNREACHED
    ensures q[0] != src ==> OutOfReach(g, s.w, src, dst)
  {
    forall p | Connects(g.nodes, s.w, p, src, dst) ensures s.dist[dst] <= PathCost(s.w, p) {
      DistanceIsLowerBound(g.nodes, src, s, p);
    }
    ClimbIsSimple(s.rank, q);
  }

  lemma WeightIsLinked(g: Graph, w1: Weights, w2: Weights, a: string, b: string, c: int)
    requires Observed(g, w1) && Observed(g, w2) && (a, b) in w1 && w1[(a, b)] == c
    ensures (a, b, c) in g.costs && (a, b) in w2
  {
    assert (a, b, c) in g.costs;
    assert Linked(g, a, b);
    assert CoveredFrom(g, w2, a);
  }

  /** Between no two connected routers are there links of different costs. */
  ghost predicate ParallelsAgree(g: Graph) {
    forall a, b, c, d {:trigger (a, b, c) in g.costs, (a, b, d) in g.costs} ::
      a in g.nodes && b in g.nodes && a != b && (a, b, c) in g.costs && (a, b, d) in g.costs ==> c == d
  }

  ghost function CostsBetween(g: Graph, a: string, b: string): iset<int> {
    iset c | (a, b, c) in g.costs
  }

  ghost function OneOf<T>(xs: iset<T>, other: T): (x: T)
    ensures xs != iset{} ==> x in xs
  {
    if xs == iset{} then other else
      var x :| x in xs; x
  }

  /** What a search can have looked up if each of its questions was answered in some fixed way. */
  ghost function SomeWeights(g: Graph): Weights {
    map a, b | a in g.nodes && b in g.nodes && a != b && Linked(g, a, b) :: (a, b) := OneOf(CostsBetween(g, a, b), 0)
  }

  lemma SomeWeightsObserved(g: Graph)
    requires Undirected(g)
    ensures Observed(g, SomeWeights(g))
  {
    var w := SomeWeights(g);
    forall a, b | (a, b) in w
      ensures (b, a) in w && w[(b, a)] == w[(a, b)] && (a, b, w[(a, b)]) in g.costs
    {
      var c :| (a, b, c) in g.costs;
      assert (b, a, c) in g.costs && Linked(g, b, a);
      assert c in CostsBetween(g, a, b);
      assert forall x :: (a, b, x) in g.costs <==> (b, a, x) in g.costs;
      assert CostsBetween(g, a, b) == CostsBetween(g, b, a);
    }
  }

  /** The answers may differ in one pair. */
  lemma OtherAnswer(g: Graph, w: Weights, a: string, b: string, c: int)
    requires Undirected(g) && Observed(g, w)
    requires a in g.nodes && b in g.nodes && a != b && (a, b, c) in g.costs
    ensures Observed(g, w[(a, b) := c][(b, a) := c])
  {
    PairsGrow(g, w, a, b, c);
  }

  lemma SameWhenAgreed(g: Graph, w1: Weights, w2: Weights)
    requires Observed(g, w1) && Observed(g, w2) && ParallelsAgree(g)
    ensures w1 == w2
  {
    forall a, b | (a, b) in w1 ensures (a, b) in w2 && w2[(a, b)] == w1[(a, b)] {
      WeightIsLinked(g, w1, w2, a, b, w1[(a, b)]);
    }
    forall a, b | (a, b) in w2 ensures (a, b) in w1 {
      WeightIsLinked(g, w2, w1, a, b, w2[(a, b)]);
    }
    assert forall p :: p in w1 <==> p == (p.0, p.1) && p in w2;
  }

  ghost predicate AlwaysSame(g: Graph) {
    forall w1, w2 {:trigger Observed(g, w1), Observed(g, w2)} :: Observed(g, w1) && Observed(g, w2) ==> w1 == w2
  }

  /** Every run looks up the same weights if and only if parallel links between connected routers cost
      the same. */
  lemma SameWeights(g: Graph)
    requires Undirected(g)
    ensures AlwaysSame(g) <==> ParallelsAgree(g)
  {
    if ParallelsAgree(g) {
      forall w1, w2 | Observed(g, w1) && Observed(g, w2) ensures w1 == w2 {
        SameWhenAgreed(g, w1, w2);
      }
    }
    if AlwaysSame(g) {
      forall a, b, c, d | a in g.nodes && b in g.nodes && a != b && (a, b, c) in g.costs && (a, b, d) in g.costs
        ensures c == d
      {
        SomeWeightsObserved(g);
        var w := SomeWeights(g);
        OtherAnswer(g, w, a, b, c);
        OtherAnswer(g, w, a, b, d);
        var w1, w2 := w[(a, b) := c][(b, a) := c], w[(a, b) := d][(b, a) := d];
        assert Observed(g, w1) && Observed(g, w2) && w1[(a, b)] == c && w2[(a, b)] == d;
      }
    }
  }
}
