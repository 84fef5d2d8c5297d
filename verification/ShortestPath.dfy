/** Path selection: Dijkstra's search over the link index. */
module ShortestPath {
  import opened Basics
  import opened Sequences
  import opened Words
  import opened Paths
  import opened LinkController

  datatype Error = NotRoutable | SourceUnreachable | DestinationUnreachable

  datatype Route = Route(path: seq<string>, cost: int)

  ghost function GraphOf(nodes: set<string>, links: map<string, Link>, states: States): Graph {
    Graph(nodes, iset a, b, c | IsLinkCost(links, states, a, b, c) :: (a, b, c))
  }

  lemma GraphUndirected(nodes: set<string>, links: map<string, Link>, states: States)
    ensures Undirected(GraphOf(nodes, links, states))
  {
    forall a, b, c | IsLinkCost(links, states, a, b, c) ensures IsLinkCost(links, states, b, a, c) {
      var id :| id in links && UsableBetween(links[id], states, a, b) && states[links[id].id].cost == c;
      assert UsableBetween(links[id], states, b, a);
    }
  }

  lemma LinkedMeansAdjacent(nodes: set<string>, links: map<string, Link>, states: States, a: string, b: string)
    ensures Linked(GraphOf(nodes, links, states), a, b) <==> Adjacent(links, states, a, b)
  {
    var g := GraphOf(nodes, links, states);
    if Adjacent(links, states, a, b) {
      var id :| id in links && UsableBetween(links[id], states, a, b);
      assert IsLinkCost(links, states, a, b, states[links[id].id].cost);
      assert (a, b, states[links[id].id].cost) in g.costs;
    }
  }

  lemma OneFewer(xs: set<string>, x: string)
    requires x in xs
    ensures xs == (xs - {x}) + {x} && |xs - {x}| < |xs|
  {
  }

  class Network {
    const linkController: Controller
    var connected: set<string>

    constructor (linkController: Controller, connected: set<string>)
      ensures this.linkController == linkController && this.connected == connected
    {
      this.linkController := linkController;
      this.connected := connected;
    }

    /** The routers and links as they are now. */
    ghost function View(): Graph
      reads this, linkController
    {
      GraphOf(connected, linkController.links, linkController.states)
    }

    /** Some unvisited router of least distance; a router without a distance counts as 0. */
    method MinCost(q: set<string>, dist: map<string, int>) returns (selected: Option<string>)
      requires forall r :: r in dist ==> -TWO_63 <= dist[r] <= MAX_INT64
      ensures selected.Some? <==> q != {} && dist != map[]
      ensures selected.Some? ==>
                selected.value in q && forall r :: r in q && r in dist && selected.value in dist ==> dist[selected.value] <= dist[r]
    {
      if |dist| < 1 {
        return None;
      }
      var min := MAX_INT64;
      selected := None;
      var rest := q;
      while rest != {}
        invariant rest <= q
        invariant selected.Some? ==>
                    && selected.value in q
                    && (selected.value in dist ==> min == dist[selected.value])
                    && (forall r :: r in q && r !in rest && r in dist ==> min <= dist[r])
        invariant selected.None? ==> rest == q && min == MAX_INT64
        decreases |rest|
      {
        var r :| r in rest;
        var d: int64 := if r in dist then dist[r] else 0;
        if d <= min {
          selected := Some(r);
          min := d;
        }
        rest := rest - {r};
      }
    }

    /** During the search there is a router to select, and it is a nearest one. */
    method Nearest(ghost nodes: set<string>, src: string, ghost s: Paths.Search, dist: map<string, int>, unvisited: set<string>)
      returns (u: string)
      requires SearchRight(nodes, src, s) && s.dist == dist && s.unvisited == unvisited != {}
      ensures u in unvisited && forall x :: x in s.unvisited ==> x in dist && u in dist && dist[u] <= dist[x]
    {
      assert dist != map[] by { assert src in dist; }
      var selected := MinCost(unvisited, dist);
      u := selected.value;
      LeastUnvisited(nodes, src, s, u);
    }

    /** The cost of some link of the pair; by the symmetry of the index there is one. */
    method LookUp(ghost g: Graph, u: string, r: string) returns (cost: int64)
      requires linkController.Searchable() && g == View() && Linked(g, u, r)
      ensures 0 <= cost <= MAX_LINK_COST && (u, r, cost) in g.costs
    {
      GraphUndirected(connected, linkController.links, linkController.states);
      ghost var c :| (u, r, c) in g.costs;
      assert (r, u, c) in g.costs;
      LinkedMeansAdjacent(connected, linkController.links, linkController.states, r, u);
      cost := linkController.LinkCost(r, u);
      assert (r, u, cost) in g.costs;
    }

    method Neighbors(ghost g: Graph, u: string) returns (neighbors: seq<string>)
      requires linkController.Valid() && g == View()
      ensures forall x :: x in neighbors <==> x != u && Linked(g, u, x)
      ensures NoDuplicates(neighbors)
    {
      forall x ensures Linked(g, u, x) <==> Adjacent(linkController.links, linkController.states, u, x) {
        LinkedMeansAdjacent(connected, linkController.links, linkController.states, u, x);
      }
      neighbors := linkController.ConnectedNeighborsOfRouter(u);
    }

    /** Takes the way over `u` to its unvisited neighbour `r` if it is shorter.  The sum of a distance
        and a cost fits 64 bits. */
    static method Relax(ghost g: Graph, src: string, ghost s: Search, u: string, ghost done: seq<string>,
                        ghost s': Search, r: string, cost: int64, dist: map<string, int>, prev: map<string, string>)
      returns (dist': map<string, int>, prev': map<string, string>, ghost s'': Search)
      requires s' in Expanding(g, src, s, u, done) && s'.dist == dist && s'.prev == prev
      requires Undirected(g) && r in s'.unvisited && r !in done && r != u
      requires 0 <= cost <= MAX_LINK_COST && (u, r, cost) in g.costs
      ensures s'' in Expanding(g, src, s, u, done + [r])
      ensures s''.dist == dist' && s''.prev == prev' && s''.unvisited == s'.unvisited
    {
      ExpandLookUp(g, src, s, u, done, s', r, cost);
      var alt: int64 := dist[u] + cost;
      LookedUpChanges(s', u, r, cost, alt);
      s'' := LookedUp(s', u, r, cost);
      dist', prev' := dist, prev;
      if alt < dist[r] {
        dist' := dist[r := alt];
        prev' := prev[r := u];
      }
    }

    /** The body of the main loop: visits `u` and looks up its links to unvisited routers. */
    method Expand(ghost g: Graph, src: string, ghost s: Search, u: string, dist: map<string, int>,
                  prev: map<string, string>, unvisited: set<string>)
      returns (dist': map<string, int>, prev': map<string, string>, ghost s': Search)
      requires linkController.Searchable() && g == View() && Undirected(g) && SearchRight(g.nodes, src, s) && Covered(g, s)
      requires s.dist == dist && s.prev == prev && s.unvisited == unvisited + {u} && u !in unvisited
      requires forall x :: x in s.unvisited ==> s.dist[u] <= s.dist[x]
      ensures SearchRight(g.nodes, src, s') && Covered(g, s')
      ensures s'.dist == dist' && s'.prev == prev' && s'.unvisited == unvisited
    {
      dist', prev', s' := dist, prev, Visited(s, u);
      ExpandStart(g, src, s, u);
      var neighbors := Neighbors(g, u);
      for i := 0 to |neighbors|
        invariant s' in Expanding(g, src, s, u, neighbors[..i])
        invariant s'.dist == dist' && s'.prev == prev' && s'.unvisited == unvisited
      {
        var r := neighbors[i];
        NextElement(neighbors, i);
        if r in unvisited {
          var cost := LookUp(g, u, r);
          dist', prev', s' := Relax(g, src, s, u, neighbors[..i], s', r, cost, dist', prev');
        } else {
          ExpandSkip(g, src, s, u, neighbors[..i], s', r);
        }
      }
      assert neighbors[..|neighbors|] == neighbors;
      ExpandEnd(g, src, s, u, neighbors, s');
    }

    /** The first half of `shortestPath`: visits every connected router. */
    method Search(ghost g: Graph, src: string) returns (dist: map<string, int>, prev: map<string, string>, ghost s: Paths.Search)
      requires linkController.Searchable() && g == View()
      ensures SearchRight(g.nodes, src, s) && s.unvisited == {} && Observed(g, s.w)
      ensures s.dist == dist && s.prev == prev
    {
      GraphUndirected(connected, linkController.links, linkController.states);
      dist := map r | r in connected :: UNREACHED;
      prev := map[];
      var unvisited := connected;
      dist := dist[src := 0];
      s := Start(connected, src);
      StartRight(connected, src);
      assert dist == s.dist;
      while unvisited != {}
        invariant SearchRight(g.nodes, src, s) && Covered(g, s)
        invariant s.dist == dist && s.prev == prev && s.unvisited == unvisited
        decreases |unvisited|
      {
        var u := Nearest(g.nodes, src, s, dist, unvisited);
        OneFewer(unvisited, u);
        unvisited := unvisited - {u};
        dist, prev, s := Expand(g, src, s, u, dist, prev, unvisited);
      }
    }

    /** The second half: follows the predecessors back from the destination. */
    method WalkBack(ghost g: Graph, src: string, dst: string, prev: map<string, string>, ghost s: Paths.Search)
      returns (routerPath: seq<string>)
      requires SearchRight(g.nodes, src, s) && s.unvisited == {} && s.prev == prev
      ensures routerPath != [] && routerPath[|routerPath| - 1] == dst && routerPath[0] !in prev
      ensures dst in g.nodes ==> Trail(g.nodes, s, routerPath, dst)
      ensures dst !in g.nodes ==> routerPath == [dst]
    {
      routerPath := [];
      var p := if dst in prev then Some(prev[dst]) else None;
      while p.Some?
        invariant dst in g.nodes ==> Trail(g.nodes, s, routerPath + [dst], dst)
        invariant dst !in g.nodes ==> routerPath == [] && p.None?
        invariant var first := (routerPath + [dst])[0]; p == if first in prev then Some(prev[first]) else None
        decreases if p.Some? && p.value in s.rank then s.rank[p.value] + 1 else 0
      {
        TrailGrows(g.nodes, src, s, routerPath + [dst], dst);
        assert [p.value] + (routerPath + [dst]) == ([p.value] + routerPath) + [dst];
        routerPath := [p.value] + routerPath;
        if p.value in prev {
          PrevEarlier(g.nodes, src, s, p.value);
        }
        p := if p.value in prev then Some(prev[p.value]) else None;
      }
      routerPath := routerPath + [dst];
    }

    /** Between two different routers: a path is returned if and only if some path costs less than
        2^31-1, and then it is simple, and no path costs less, by the costs that this run looked up. */
    method ShortestPath(srcR: Option<string>, dstR: Option<string>) returns (r: Result<Route, Error>, ghost w: Weights)
      requires linkController.Searchable()
      ensures srcR.None? || dstR.None? ==> r == Err(NotRoutable)
      ensures srcR.Some? && srcR == dstR ==> r == Ok(Route([srcR.value], 0))
      ensures srcR.Some? && dstR.Some? && srcR != dstR ==>
                var g := View();
                && Observed(g, w)
                && (r.Ok? ==> && Shortest(g, w, r.value.path, srcR.value, dstR.value)
                              && r.value.cost == PathCost(w, r.value.path) < 2147483647)
                && (r.Err? ==> OutOfReach(g, w, srcR.value, dstR.value))
                && (r.Err? ==> forall q :: Connects(g.nodes, w, q, srcR.value, dstR.value) ==> PathCost(w, q) >= 2147483647)
    {
      w := map[];
      if srcR.None? || dstR.None? {
        return Err(NotRoutable), w;
      }
      if srcR == dstR {
        return Ok(Route([srcR.value], 0)), w;
      }
      var src, dst := srcR.value, dstR.value;
      ghost var g := View();
      ghost var s;
      var dist, prev;
      dist, prev, s := Search(g, src);
      w := s.w;
      var routerPath := WalkBack(g, src, dst, prev, s);
      if dst in g.nodes {
        TrailEnds(g, src, dst, s, routerPath);
      }
      if routerPath[0] != src {
        return Err(SourceUnreachable), w;
      }
      if routerPath[|routerPath| - 1] != dst {
        return Err(DestinationUnreachable), w;
      }
      return Ok(Route(routerPath, dist[dst])), w;
    }
  }
}
