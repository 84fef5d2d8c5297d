/** The controller's links: a table keyed by link id, and an adjacency index that lists every link
    under both of its ends.  Routers are known by their ids. */
module LinkController {
  import opened Basics
  import opened Sequences
  import opened Words

  // ----- links -----

  datatype LinkMode = Pending | Connected | Failed

  const MAX_INT64 := TWO_63 - 1

  /** No link can cost more than this, whatever its latencies. */
  const MAX_LINK_COST := TWO_31 + 2 * (TWO_63 / 1_000_000)

  /** What a link is: it never changes. */
  datatype Link = Link(id: string, src: string, dst: string)

  /** What is known about a link at the moment, the newest mode first. */
  datatype LinkState = LinkState(
    modes: seq<LinkMode>,
    down: bool,
    staticCost: int32,
    srcLatency: int64,
    dstLatency: int64,
    cost: int)

  const NEW_LINK_STATE := LinkState([Pending], false, 1, 0, 0, 1)

  predicate Usable(s: LinkState) {
    s.modes != [] && s.modes[0].Connected? && !s.down
  }

  /** A latency in milliseconds: division truncates towards zero. */
  function Millis(latency: int64): (r: int)
    ensures latency >= 0 ==> 1_000_000 * r <= latency < 1_000_000 * (r + 1)
    ensures latency < 0 ==> 1_000_000 * (r - 1) < latency <= 1_000_000 * r
  {
    if latency >= 0 then latency / 1_000_000 else 0 - (0 - latency) / 1_000_000
  }

  ghost predicate CostRight(s: LinkState) {
    s.cost == s.staticCost + Millis(s.srcLatency) + Millis(s.dstLatency)
  }

  /** The cost fits 64 bits with room to spare, and is not negative when nothing it is made of is. */
  lemma CostBounds(s: LinkState)
    requires CostRight(s)
    ensures 0 - MAX_LINK_COST <= s.cost <= MAX_LINK_COST < MAX_INT64 - MAX_INT32
    ensures s.staticCost >= 0 && s.srcLatency >= 0 && s.dstLatency >= 0 ==> s.cost >= 0
  {
  }

  predicate Joins(l: Link, a: string, b: string) {
    (l.src == a && l.dst == b) || (l.src == b && l.dst == a)
  }

  predicate Touches(l: Link, r: string) {
    l.src == r || l.dst == r
  }

  // ----- the adjacency index as a value -----

  type Adjacency = map<string, map<string, seq<Link>>>

  function Entry(adj: Adjacency, a: string, b: string): seq<Link> {
    if a in adj && b in adj[a] then adj[a][b] else []
  }

  function Listed(adj: Adjacency, a: string, b: string, l: Link): Adjacency {
    adj[a := (if a in adj then adj[a] else map[])[b := Entry(adj, a, b) + [l]]]
  }

  function Dropped(table: map<string, seq<Link>>, b: string, l: Link): map<string, seq<Link>> {
    if b !in table then table
    else if table[b] == [l] then table - {b}
    else table[b := Deleted(table[b], l)]
  }

  function Unlisted(adj: Adjacency, a: string, b: string, l: Link): Adjacency {
    if a !in adj then adj
    else
      var table := Dropped(adj[a], b, l);
      if table != map[] then adj[a := table] else adj - {a}
  }

  /** No empty list and no empty table is kept. */
  ghost predicate Tidy(adj: Adjacency) {
    && (forall a :: a in adj ==> adj[a] != map[])
    && (forall a, b :: a in adj && b in adj[a] ==> adj[a][b] != [] && NoDuplicates(adj[a][b]))
  }

  ghost predicate InTable(links: map<string, Link>, l: Link) {
    l.id in links && links[l.id] == l
  }

  ghost predicate TableRight(links: map<string, Link>) {
    forall id :: id in links ==> links[id].id == id && links[id].src != links[id].dst
  }

  /** The index lists the links of the table, each under both of its ends, and nothing else. */
  ghost predicate Agree(links: map<string, Link>, adj: Adjacency) {
    && TableRight(links)
    && Tidy(adj)
    && NothingElse(links, adj)
    && AllListed(links, adj)
  }

  ghost predicate NothingElse(links: map<string, Link>, adj: Adjacency) {
    forall a, b, l {:trigger l in Entry(adj, a, b)} :: l in Entry(adj, a, b) ==> InTable(links, l) && Joins(l, a, b)
  }

  ghost predicate AllListed(links: map<string, Link>, adj: Adjacency) {
    forall id :: id in links ==> ListedTwice(adj, links[id])
  }

  ghost predicate ListedTwice(adj: Adjacency, l: Link) {
    l in Entry(adj, l.src, l.dst) && l in Entry(adj, l.dst, l.src)
  }

  /** What one half of `add` does to the entries. */
  lemma ListedEntries(adj: Adjacency, a: string, b: string, l: Link)
    requires Tidy(adj) && l !in Entry(adj, a, b)
    ensures Tidy(Listed(adj, a, b, l))
    ensures forall x, y, m {:trigger m in Entry(Listed(adj, a, b, l), x, y)} ::
              m in Entry(Listed(adj, a, b, l), x, y) <==>
              m in Entry(adj, x, y) || (x == a && y == b && m == l)
  {
    var adj' := Listed(adj, a, b, l);
    assert b in adj'[a] && adj'[a][b] == Entry(adj, a, b) + [l];
  }

  /** What one half of `remove` does to the entries. */
  lemma UnlistedEntries(adj: Adjacency, a: string, b: string, l: Link)
    requires Tidy(adj)
    ensures Tidy(Unlisted(adj, a, b, l))
    ensures forall x, y, m {:trigger m in Entry(Unlisted(adj, a, b, l), x, y)} ::
              m in Entry(Unlisted(adj, a, b, l), x, y) <==>
              m in Entry(adj, x, y) && !(x == a && y == b && m == l)
  {
    if a in adj && b in adj[a] {
      var table := Dropped(adj[a], b, l);
      DroppedEntries(adj[a], b, l);
      forall y, m ensures y in table && m in table[y] <==> m in Entry(adj, a, y) && !(y == b && m == l) {
        assert y in adj[a] && y != b ==> y in table && table[y] == adj[a][y];
      }
    }
  }

  lemma UnlistedTidy(adj: Adjacency, a: string, b: string, l: Link)
    requires Tidy(adj)
    ensures Tidy(Unlisted(adj, a, b, l))
  {
    UnlistedEntries(adj, a, b, l);
  }

  lemma DroppedEntries(table: map<string, seq<Link>>, b: string, l: Link)
    requires b in table && table[b] != [] && NoDuplicates(table[b])
    ensures forall m :: b in Dropped(table, b, l) && m in Dropped(table, b, l)[b] <==> m in table[b] && m != l
    ensures b in Dropped(table, b, l) ==> Dropped(table, b, l)[b] != [] && NoDuplicates(Dropped(table, b, l)[b])
  {
    var list := table[b];
    DeletedMembers(list, l);
    if list != [l] && l in list {
      var k :| 0 <= k < |list| && list[k] == l;
      DeletedAt(list, k);
      assert |list| > 1;
    }
  }

  // ----- whole operations -----

  datatype Index = Index(links: map<string, Link>, adjacency: Adjacency)

  function Added(ix: Index, l: Link): Index {
    Index(ix.links[l.id := l], Listed(Listed(ix.adjacency, l.src, l.dst, l), l.dst, l.src, l))
  }

  function Removed(ix: Index, l: Link): Index {
    Index(ix.links - {l.id}, Unlisted(Unlisted(ix.adjacency, l.src, l.dst, l), l.dst, l.src, l))
  }

  ghost predicate Right(ix: Index) {
    Agree(ix.links, ix.adjacency)
  }

  /** Links between two routers that no other link has the id of. */
  ghost predicate MayAdd(ix: Index, l: Link) {
    l.id !in ix.links && l.src != l.dst
  }

  /** No other link has the id of the one that is removed, which need not be there. */
  ghost predicate MayRemove(ix: Index, l: Link) {
    (l.id in ix.links ==> ix.links[l.id] == l) && l.src != l.dst
  }

  lemma AddAgrees(links: map<string, Link>, adj: Adjacency, l: Link, adj': Adjacency)
    requires TableRight(links) && NothingElse(links, adj) && AllListed(links, adj)
    requires l.id !in links && l.src != l.dst
    requires forall a, b, x {:trigger x in Entry(adj', a, b)} :: x in Entry(adj', a, b) <==> x in Entry(adj, a, b) || (x == l && Joins(l, a, b))
    ensures NothingElse(links[l.id := l], adj') && AllListed(links[l.id := l], adj')
  {
    var links' := links[l.id := l];
    forall a, b, x {:trigger x in Entry(adj', a, b)} | x in Entry(adj', a, b)
      ensures InTable(links', x) && Joins(x, a, b)
    {
      assert x == l || x in Entry(adj, a, b);
    }
    forall id | id in links' ensures ListedTwice(adj', links'[id]) {
      assert id != l.id ==> ListedTwice(adj, links'[id]);
    }
  }

  lemma AddKeeps(ix: Index, l: Link)
    requires Right(ix) && MayAdd(ix, l)
    ensures Right(Added(ix, l))
  {
    var adj := ix.adjacency;
    var adj1 := Listed(adj, l.src, l.dst, l);
    assert l !in Entry(adj, l.src, l.dst) && l !in Entry(adj, l.dst, l.src);
    ListedEntries(adj, l.src, l.dst, l);
    ListedEntries(adj1, l.dst, l.src, l);
    AddAgrees(ix.links, adj, l, Listed(adj1, l.dst, l.src, l));
  }

  lemma RemoveAgrees(links: map<string, Link>, adj: Adjacency, l: Link, adj': Adjacency)
    requires TableRight(links) && NothingElse(links, adj) && AllListed(links, adj)
    requires l.id in links ==> links[l.id] == l
    requires forall a, b, x {:trigger x in Entry(adj', a, b)} :: x in Entry(adj', a, b) <==> x in Entry(adj, a, b) && !(x == l && Joins(l, a, b))
    ensures NothingElse(links - {l.id}, adj') && AllListed(links - {l.id}, adj')
  {
    var links' := links - {l.id};
    forall a, b, x {:trigger x in Entry(adj', a, b)} | x in Entry(adj', a, b)
      ensures InTable(links', x) && Joins(x, a, b)
    {
      assert x in Entry(adj, a, b);
    }
    forall id | id in links' ensures ListedTwice(adj', links'[id]) {
      assert ListedTwice(adj, links'[id]);
    }
  }

  lemma RemoveKeeps(ix: Index, l: Link)
    requires Right(ix) && MayRemove(ix, l)
    ensures Right(Removed(ix, l))
  {
    var adj := ix.adjacency;
    var adj1 := Unlisted(adj, l.src, l.dst, l);
    UnlistedEntries(adj, l.src, l.dst, l);
    UnlistedEntries(adj1, l.dst, l.src, l);
    RemoveAgrees(ix.links, adj, l, Unlisted(adj1, l.dst, l.src, l));
  }

  /** Taking a new link off again leaves one half of the index as it was. */
  lemma UnlistUndoesList(adj: Adjacency, a: string, b: string, l: Link)
    requires Tidy(adj) && l !in Entry(adj, a, b)
    ensures Unlisted(Listed(adj, a, b, l), a, b, l) == adj
  {
    var list := Entry(adj, a, b);
    DeleteLast(list, l);
    var table := Listed(adj, a, b, l)[a];
    assert table[b] == list + [l];
    if a in adj && b in adj[a] {
      assert Dropped(table, b, l) == adj[a];
    } else if a in adj {
      assert Dropped(table, b, l) == adj[a];
    }
  }

  lemma {:induction false} DeleteLast(list: seq<Link>, l: Link)
    requires l !in list
    ensures Deleted(list + [l], l) == list
  {
    if list != [] {
      assert (list + [l])[1..] == list[1..] + [l];
      DeleteLast(list[1..], l);
    }
  }

  /** The two halves of an index that belong to different routers do not interfere. */
  lemma HalvesCommute(adj: Adjacency, a: string, b: string, l: Link)
    requires a != b
    ensures Unlisted(Listed(adj, b, a, l), a, b, l) == Listed(Unlisted(adj, a, b, l), b, a, l)
  {
  }

  /** Removing a link that was just added restores table and index exactly. */
  lemma RemoveUndoesAdd(ix: Index, l: Link)
    requires Right(ix) && MayAdd(ix, l)
    ensures Removed(Added(ix, l), l) == ix
  {
    var adj := ix.adjacency;
    assert l !in Entry(adj, l.src, l.dst) && l !in Entry(adj, l.dst, l.src);
    HalvesCommute(Listed(adj, l.src, l.dst, l), l.src, l.dst, l);
    UnlistUndoesList(adj, l.src, l.dst, l);
    UnlistUndoesList(adj, l.dst, l.src, l);
    assert ix.links[l.id := l] - {l.id} == ix.links;
  }

  datatype Op = Add(l: Link) | Remove(l: Link)

  function After(ix: Index, op: Op): Index {
    match op
    case Add(l) => Added(ix, l)
    case Remove(l) => Removed(ix, l)
  }

  function AfterAll(ops: seq<Op>): Index {
    if ops == [] then Index(map[], map[]) else After(AfterAll(ops[..|ops| - 1]), ops[|ops| - 1])
  }

  ghost predicate Allowed(ops: seq<Op>) {
    ops != [] ==>
      var front, op := ops[..|ops| - 1], ops[|ops| - 1];
      Allowed(front) && if op.Add? then MayAdd(AfterAll(front), op.l) else MayRemove(AfterAll(front), op.l)
  }

  /** The table and the index agree after any sequence of additions and removals. */
  lemma {:induction false} AlwaysAgree(ops: seq<Op>)
    requires Allowed(ops)
    ensures Right(AfterAll(ops))
  {
    if ops != [] {
      var front, op := ops[..|ops| - 1], ops[|ops| - 1];
      AlwaysAgree(front);
      match op
      case Add(l) => AddKeeps(AfterAll(front), l);
      case Remove(l) => RemoveKeeps(AfterAll(front), l);
    }
  }

  /** In an index that agrees, a router is listed if and only if a link touches it. */
  lemma ListedRouters(ix: Index, r: string)
    requires Right(ix)
    ensures r in ix.adjacency <==> exists id :: id in ix.links && Touches(ix.links[id], r)
  {
    if r in ix.adjacency {
      assert ix.adjacency[r].Keys != {};
      var b := AnyOf(ix.adjacency[r].Keys);
      var l := Entry(ix.adjacency, r, b)[0];
      assert l in Entry(ix.adjacency, r, b);
      assert InTable(ix.links, l) && Touches(ix.links[l.id], r);
    }
    if id :| id in ix.links && Touches(ix.links[id], r) {
      assert ListedTwice(ix.adjacency, ix.links[id]);
    }
  }

  type States = map<string, LinkState>

  /** A usable link of the table joins the two routers. */
  ghost predicate Adjacent(links: map<string, Link>, states: States, a: string, b: string) {
    exists id :: id in links && UsableBetween(links[id], states, a, b)
  }

  predicate UsableBetween(l: Link, states: States, a: string, b: string) {
    l.id in states && Usable(states[l.id]) && Joins(l, a, b)
  }

  /** A usable link of the table joins the two routers and has this cost. */
  ghost predicate IsLinkCost(links: map<string, Link>, states: States, a: string, b: string, cost: int) {
    exists id :: id in links && UsableBetween(links[id], states, a, b) && states[links[id].id].cost == cost
  }

  ghost predicate StatesRight(links: map<string, Link>, states: States) {
    && (forall id :: id in links ==> id in states)
    && (forall id :: id in states ==> CostRight(states[id]))
  }

  /** Routers are neighbours if and only if the table has a link from one to the other whose newest mode
      is connected and that is not down. */
  lemma NeighborsByFields(links: map<string, Link>, states: States, a: string, b: string)
    requires TableRight(links)
    ensures Adjacent(links, states, a, b) <==>
            exists id ::
              && id in links && id in states
              && states[id].modes != [] && states[id].modes[0] == Connected && !states[id].down
              && ((links[id].src == a && links[id].dst == b) || (links[id].src == b && links[id].dst == a))
  {
    if id :| id in links && id in states && states[id].modes != [] && states[id].modes[0] == Connected &&
             !states[id].down &&
             ((links[id].src == a && links[id].dst == b) || (links[id].src == b && links[id].dst == a)) {
      assert UsableBetween(links[id], states, a, b);
    }
  }

  /** A link that is only just there joins nobody, and disturbs no other link. */
  lemma PendingJoinsNothing(links: map<string, Link>, states: States, l: Link)
    requires TableRight(links) && l.id !in links
    ensures var links', states' := links[l.id := l], states[l.id := NEW_LINK_STATE];
            forall a, b :: Adjacent(links', states', a, b) <==> Adjacent(links, states, a, b)
  {
    var links', states' := links[l.id := l], states[l.id := NEW_LINK_STATE];
    forall a, b ensures Adjacent(links', states', a, b) <==> Adjacent(links, states, a, b) {
      if id :| id in links && UsableBetween(links[id], states, a, b) {
        assert UsableBetween(links'[id], states', a, b);
      }
      if id :| id in links' && UsableBetween(links'[id], states', a, b) {
        assert id != l.id && UsableBetween(links[id], states, a, b);
      }
    }
  }

  lemma NewState(links: map<string, Link>, states: States, l: Link)
    requires StatesRight(links, states)
    ensures StatesRight(links[l.id := l], states[l.id := NEW_LINK_STATE])
  {
  }

  /** The other ends of the usable ones among a router's links are its neighbours. */
  lemma EndsAreNeighbors(links: map<string, Link>, states: States, all: seq<Link>, r: string, ends: set<string>)
    requires TableRight(links) && StatesRight(links, states)
    requires forall l :: l in all <==> InTable(links, l) && Touches(l, r)
    requires forall l :: l in all ==> l.id in states
    requires forall x :: x in ends ==> x != r && exists l :: l in all && Usable(states[l.id]) && Touches(l, x)
    requires forall l :: l in all && Usable(states[l.id]) ==> (l.src != r ==> l.src in ends) && (l.dst != r ==> l.dst in ends)
    ensures forall x :: x in ends <==> x != r && Adjacent(links, states, r, x)
  {
    forall x | x in ends ensures Adjacent(links, states, r, x) {
      var l :| l in all && Usable(states[l.id]) && Touches(l, x);
      assert InTable(links, l) && UsableBetween(links[l.id], states, r, x);
    }
    forall x | x != r && Adjacent(links, states, r, x) ensures x in ends {
      var id :| id in links && UsableBetween(links[id], states, r, x);
      assert InTable(links, links[id]) && links[id] in all;
    }
  }

  // ----- the choice among parallel links -----

  /** The links of the table that end at the router, once each, in some order. */
  ghost predicate Lists(all: seq<Link>, links: map<string, Link>, r: string) {
    && (forall l :: l in all <==> InTable(links, l) && Touches(l, r))
    && (forall i, j :: 0 <= i < j < |all| ==> all[i].id != all[j].id)
  }

  function LastUsable(all: seq<Link>, states: States, a: string, b: string): Option<Link> {
    if all == [] then None
    else
      var n := |all| - 1;
      if UsableBetween(all[n], states, a, b) then Some(all[n]) else LastUsable(all[..n], states, a, b)
  }

  lemma {:induction false} LastUsableOf(all: seq<Link>, states: States, a: string, b: string)
    ensures var selected := LastUsable(all, states, a, b);
            && (selected.Some? ==> selected.value in all && UsableBetween(selected.value, states, a, b))
            && (selected.None? ==> forall l :: l in all ==> !UsableBetween(l, states, a, b))
  {
    if all != [] {
      LastUsableOf(all[..|all| - 1], states, a, b);
      assert all == all[..|all| - 1] + [all[|all| - 1]];
    }
  }

  lemma LastUsableOfAll(all: seq<Link>, links: map<string, Link>, states: States, a: string, b: string)
    requires Lists(all, links, a) && TableRight(links)
    ensures var selected := LastUsable(all, states, a, b);
            && (selected.Some? ==> InTable(links, selected.value) && UsableBetween(selected.value, states, a, b))
            && (selected.None? ==> !Adjacent(links, states, a, b))
  {
    LastUsableOf(all, states, a, b);
    if id :| id in links && UsableBetween(links[id], states, a, b) {
      assert InTable(links, links[id]) && links[id] in all;
    }
  }

  ghost predicate ChoosesCheapest(all: seq<Link>, states: States, a: string, b: string) {
    var selected := LastUsable(all, states, a, b);
    selected.Some? && UsableBetween(selected.value, states, a, b) ==>
      forall l :: l in all && UsableBetween(l, states, a, b) ==> states[selected.value.id].cost <= states[l.id].cost
  }

  ghost predicate Reordered(order: seq<Link>, all: seq<Link>) {
    NoDuplicates(order) && forall l :: l in order <==> l in all
  }

  ghost predicate ParallelsCostTheSame(all: seq<Link>, states: States, a: string, b: string) {
    forall l, m :: l in all && m in all && UsableBetween(l, states, a, b) && UsableBetween(m, states, a, b) ==>
      states[l.id].cost == states[m.id].cost
  }

  /** Any usable link may come last in the list and be taken, also one that costs more than another. */
  lemma AnyMayWin(all: seq<Link>, states: States, a: string, b: string, l: Link) returns (order: seq<Link>)
    requires NoDuplicates(all) && l in all && UsableBetween(l, states, a, b)
    ensures Reordered(order, all) && LastUsable(order, states, a, b) == Some(l)
  {
    DeletedMembers(all, l);
    order := Deleted(all, l) + [l];
  }

  /** The link that is taken is a cheapest one, whatever the order of the list, if and only if all usable
      links of the pair cost the same. */
  lemma CheapestExactly(all: seq<Link>, states: States, a: string, b: string)
    requires NoDuplicates(all)
    ensures (forall order :: Reordered(order, all) ==> ChoosesCheapest(order, states, a, b)) <==>
            ParallelsCostTheSame(all, states, a, b)
  {
    if ParallelsCostTheSame(all, states, a, b) {
      forall order | Reordered(order, all) ensures ChoosesCheapest(order, states, a, b) {
        LastUsableOf(order, states, a, b);
      }
    } else {
      var l, m :| l in all && m in all && UsableBetween(l, states, a, b) && UsableBetween(m, states, a, b) &&
                  states[l.id].cost != states[m.id].cost;
      var dear := if states[l.id].cost < states[m.id].cost then m else l;
      var order := AnyMayWin(all, states, a, b, dear);
      assert l in order && m in order;
      assert !ChoosesCheapest(order, states, a, b);
    }
  }

  // ----- the controller -----

  class Controller {
    var links: map<string, Link>
    var adjacency: Adjacency
    var states: States

    ghost function State(): Index
      reads this
    {
      Index(links, adjacency)
    }

    ghost predicate Valid()
      reads this
    {
      Right(State()) && StatesRight(links, states)
    }

    /** What a search for paths needs: no link has a negative cost. */
    ghost predicate Searchable()
      reads this
    {
      Valid() && forall id :: id in states ==> states[id].cost >= 0
    }

    constructor ()
      ensures Valid() && links == map[] && adjacency == map[] && states == map[]
    {
      links, adjacency, states := map[], map[], map[];
    }

    /** Records a mode for a link of the table. */
    method LinkConnected(id: string, connected: bool) returns (found: bool)
      requires Valid()
      modifies this`states
      ensures Valid() && found == (id in links)
      ensures states == if !found then old(states)
                        else old(states)[id := old(states)[id].(
                               modes := [if connected then Connected else Failed] + old(states)[id].modes)]
    {
      found := id in links;
      if found {
        var mode := if connected then Connected else Failed;
        states := states[id := states[id].(modes := [mode] + states[id].modes)];
      }
    }

    /** New measurements; the cost is recalculated. */
    method SetCosts(id: string, staticCost: int32, srcLatency: int64, dstLatency: int64)
      requires Valid() && id in states
      modifies this`states
      ensures Valid()
      ensures states.Keys == old(states).Keys && forall k :: k in states && k != id ==> states[k] == old(states)[k]
      ensures states[id].cost == staticCost + Millis(srcLatency) + Millis(dstLatency)
    {
      var cost := staticCost + Millis(srcLatency) + Millis(dstLatency);
      states := states[id := states[id].(staticCost := staticCost, srcLatency := srcLatency,
                                         dstLatency := dstLatency, cost := cost)];
    }

    method AddLinkForRouter(a: string, b: string, link: Link)
      modifies this`adjacency
      ensures adjacency == Listed(old(adjacency), a, b, link)
    {
      var table := if a in adjacency then adjacency[a] else map[];
      var list := if b in table then table[b] else [];
      adjacency := adjacency[a := table[b := list + [link]]];
    }

    /** A new link starts out pending. */
    method Add(link: Link)
      requires Valid() && MayAdd(State(), link)
      modifies this
      ensures Valid() && links == old(links)[link.id := link] && states == old(states)[link.id := NEW_LINK_STATE]
      ensures states[link.id].modes == [Pending] && !states[link.id].down && states[link.id].cost == 1
    {
      hide Listed, Agree, StatesRight, CostRight;
      AddKeeps(State(), link);
      NewState(links, states, link);
      links := links[link.id := link];
      states := states[link.id := NEW_LINK_STATE];
      AddLinkForRouter(link.src, link.dst, link);
      AddLinkForRouter(link.dst, link.src, link);
    }

    /** The position of the link is looked up, and the rest of the list closes the gap. */
    method RemoveLinkFromRouter(a: string, b: string, link: Link)
      requires Tidy(adjacency)
      modifies this`adjacency
      ensures adjacency == Unlisted(old(adjacency), a, b, link)
    {
      if a in adjacency {
        var table := adjacency[a];
        if b in table {
          var list := table[b];
          if |list| == 1 && list[0] == link {
            assert list == [link];
            table := table - {b};
          } else {
            var i := 0;
            while i < |list| && list[i] != link
              invariant 0 <= i <= |list| && link !in list[..i]
            {
              i := i + 1;
            }
            if i < |list| {
              DeletedAt(list, i);
              list := list[..i] + list[i + 1..];
            } else {
              DeletedNonMember(list, link);
            }
            table := table[b := list];
          }
        }
        if table.Keys != {} {
          adjacency := adjacency[a := table];
        } else {
          adjacency := adjacency - {a};
        }
      }
    }

    method Remove(link: Link)
      requires Valid() && MayRemove(State(), link)
      modifies this`links, this`adjacency
      ensures Valid() && links == old(links) - {link.id}
    {
      hide Unlisted;
      RemoveKeeps(State(), link);
      UnlistedTidy(adjacency, link.src, link.dst, link);
      links := links - {link.id};
      RemoveLinkFromRouter(link.src, link.dst, link);
      RemoveLinkFromRouter(link.dst, link.src, link);
    }

    /** The links of a router's table, by id. */
    method LinksById(r: string) returns (linksMap: map<string, Link>)
      requires Valid() && r in adjacency
      ensures forall id :: id in linksMap ==> linksMap[id].id == id
      ensures forall b, l :: l in Entry(adjacency, r, b) ==> l.id in linksMap
      ensures forall id :: id in linksMap ==> exists b :: b in adjacency[r] && linksMap[id] in Entry(adjacency, r, b)
    {
      linksMap := map[];
      var others := adjacency[r].Keys;
      while others != {}
        invariant others <= adjacency[r].Keys
        invariant forall id :: id in linksMap ==> linksMap[id].id == id
        invariant forall id :: id in linksMap ==> exists b :: b in adjacency[r] && linksMap[id] in Entry(adjacency, r, b)
        invariant forall b, l :: b !in others && l in Entry(adjacency, r, b) ==> l.id in linksMap
        decreases |others|
      {
        var b :| b in others;
        linksMap := WithList(linksMap, adjacency[r][b]);
        others := others - {b};
      }
    }

    static method WithList(linksMap: map<string, Link>, list: seq<Link>) returns (r: map<string, Link>)
      ensures forall id :: id in linksMap ==> id in r
      ensures forall l :: l in list ==> l.id in r
      ensures forall id :: id in r ==>
                (id in linksMap && r[id] == linksMap[id]) || (r[id].id == id && r[id] in list)
    {
      r := linksMap;
      for i := 0 to |list|
        invariant forall id :: id in linksMap ==> id in r
        invariant forall j :: 0 <= j < i ==> list[j].id in r
        invariant forall id :: id in r ==>
                    (id in linksMap && r[id] == linksMap[id]) || (r[id].id == id && r[id] in list)
      {
        r := r[list[i].id := list[i]];
      }
    }

    /** Every link of the table that ends at the router, once. */
    method AllLinksForRouter(r: string) returns (all: seq<Link>)
      requires Valid()
      ensures Lists(all, links, r)
    {
      if r !in adjacency {
        ListedRouters(State(), r);
        return [];
      }
      var linksMap := LinksById(r);
      forall id | id in links && Touches(links[id], r) ensures id in linksMap {
        assert ListedTwice(adjacency, links[id]);
      }
      all := ValuesOf(linksMap);
      forall l | l in all ensures InTable(links, l) && Touches(l, r) {
        assert l == linksMap[l.id];
      }
    }

    static method ValuesOf(linksMap: map<string, Link>) returns (all: seq<Link>)
      requires forall id :: id in linksMap ==> linksMap[id].id == id
      ensures forall l :: l in all <==> InTable(linksMap, l)
      ensures forall i, j :: 0 <= i < j < |all| ==> all[i].id != all[j].id
    {
      all := [];
      var ids := linksMap.Keys;
      while ids != {}
        invariant ids <= linksMap.Keys
        invariant forall l :: l in all ==> InTable(linksMap, l) && l.id !in ids
        invariant forall id :: id in linksMap && id !in ids ==> linksMap[id] in all
        invariant forall i, j :: 0 <= i < j < |all| ==> all[i].id != all[j].id
        decreases |ids|
      {
        var id :| id in ids;
        forall i | 0 <= i < |all| ensures all[i].id != id {
          assert all[i] in all;
        }
        all := all + [linksMap[id]];
        ids := ids - {id};
      }
    }

    method OtherEnds(all: seq<Link>, router: string) returns (ends: set<string>)
      requires forall l :: l in all ==> l.id in states
      ensures forall x :: x in ends ==> x != router && exists l :: l in all && Usable(states[l.id]) && Touches(l, x)
      ensures forall l :: l in all && Usable(states[l.id]) ==>
                (l.src != router ==> l.src in ends) && (l.dst != router ==> l.dst in ends)
    {
      ends := {};
      for i := 0 to |all|
        invariant forall x :: x in ends ==> x != router && exists l :: l in all && Usable(states[l.id]) && Touches(l, x)
        invariant forall j :: 0 <= j < i && Usable(states[all[j].id]) ==>
                    (all[j].src != router ==> all[j].src in ends) && (all[j].dst != router ==> all[j].dst in ends)
      {
        var link := all[i];
        assert link in all && Touches(link, link.src) && Touches(link, link.dst);
        if Usable(states[link.id]) {
          if link.src != router {
            ends := ends + {link.src};
          }
          if link.dst != router {
            ends := ends + {link.dst};
          }
        }
      }
    }

    static method Listing(xs: set<string>) returns (list: seq<string>)
      ensures forall x :: x in list <==> x in xs
      ensures NoDuplicates(list)
    {
      list := [];
      var rest := xs;
      while rest != {}
        invariant rest <= xs
        invariant forall x :: x in list <==> x in xs && x !in rest
        invariant NoDuplicates(list)
        decreases |rest|
      {
        var x :| x in rest;
        list := list + [x];
        rest := rest - {x};
      }
    }

    /** The other ends of the usable links of a router, once each. */
    method ConnectedNeighborsOfRouter(router: string) returns (neighbors: seq<string>)
      requires Valid()
      ensures forall x :: x in neighbors <==> x != router && Adjacent(links, states, router, x)
      ensures NoDuplicates(neighbors)
    {
      var all := AllLinksForRouter(router);
      assert forall l :: l in all ==> InTable(links, l);
      var neighborMap := OtherEnds(all, router);
      EndsAreNeighbors(links, states, all, router, neighborMap);
      neighbors := Listing(neighborMap);
    }

    /** The bound that the costs are compared with is never lowered, so of several parallel links the
        last one looked at is taken. */
    method PickLink(all: seq<Link>, a: string, b: string) returns (selected: Option<Link>)
      requires forall l :: l in all ==> l.id in states && CostRight(states[l.id])
      ensures selected == LastUsable(all, states, a, b)
    {
      selected := None;
      var cost := MAX_INT64;
      for i := 0 to |all|
        invariant selected == LastUsable(all[..i], states, a, b)
      {
        var link := all[i];
        assert all[..i + 1][..i] == all[..i] && link in all;
        if Usable(states[link.id]) {
          CostBounds(states[link.id]);
          var linkCost := states[link.id].cost;
          if link.src == a && link.dst == b {
            if linkCost < cost {
              selected := Some(link);
            }
          }
          if link.dst == a && link.src == b {
            if linkCost < cost {
              selected := Some(link);
            }
          }
        }
      }
      assert all[..|all|] == all;
    }

    /** Some usable link of the pair, the last one of a list of the router's links in some order. */
    method LeastExpensiveLink(a: string, b: string) returns (selected: Option<Link>)
      requires Valid()
      ensures exists all :: Lists(all, links, a) && selected == LastUsable(all, states, a, b)
      ensures selected.Some? ==> InTable(links, selected.value) && UsableBetween(selected.value, states, a, b)
      ensures selected.Some? ==>
                var l := selected.value;
                && l.id in states && states[l.id].modes != [] && states[l.id].modes[0] == Connected && !states[l.id].down
                && ((l.src == a && l.dst == b) || (l.src == b && l.dst == a))
      ensures selected.None? ==> !Adjacent(links, states, a, b)
    {
      var all := AllLinksForRouter(a);
      assert forall l :: l in all ==> InTable(links, l);
      selected := PickLink(all, a, b);
      LastUsableOfAll(all, links, states, a, b);
    }

    /** The search's weight of a pair: without a link it would be the largest number there is. */
    method LinkCost(a: string, b: string) returns (cost: int64)
      requires Valid()
      ensures Adjacent(links, states, a, b) ==> 0 - MAX_LINK_COST <= cost <= MAX_LINK_COST && IsLinkCost(links, states, a, b, cost)
      ensures !Adjacent(links, states, a, b) ==> cost == MAX_INT64
    {
      cost := MAX_INT64;
      var l := LeastExpensiveLink(a, b);
      if l.Some? {
        CostBounds(states[l.value.id]);
        cost := states[l.value.id].cost;
        assert UsableBetween(links[l.value.id], states, a, b);
      }
    }

    /** When a router goes away, all of its links go, and only those; the index forgets the router. */
    method DisconnectRouter(r: string)
      requires Valid()
      modifies this`links, this`adjacency
      ensures Valid() && r !in adjacency
      ensures forall id :: id in links <==> id in old(links) && !Touches(old(links)[id], r)
      ensures forall id :: id in links ==> links[id] == old(links)[id]
    {
      var all := AllLinksForRouter(r);
      ghost var before := links;
      for i := 0 to |all|
        invariant Valid()
        invariant links == before - IdsOf(all[..i])
      {
        assert all[i] in all && InTable(before, all[i]);
        OneMoreGone(before, all, i);
        Remove(all[i]);
      }
      assert all[..|all|] == all;
      Untouched(before, all, r);
      ListedRouters(State(), r);
    }
  }

  function IdsOf(all: seq<Link>): set<string> {
    set l | l in all :: l.id
  }

  lemma OneMoreGone(links: map<string, Link>, all: seq<Link>, i: nat)
    requires i < |all|
    ensures links - IdsOf(all[..i + 1]) == links - IdsOf(all[..i]) - {all[i].id}
  {
    assert all[..i + 1] == all[..i] + [all[i]];
    assert IdsOf(all[..i + 1]) == IdsOf(all[..i]) + {all[i].id};
  }

  lemma Untouched(links: map<string, Link>, all: seq<Link>, r: string)
    requires TableRight(links)
    requires forall l :: l in all <==> InTable(links, l) && Touches(l, r)
    ensures forall id :: id in links - IdsOf(all) <==> id in links && !Touches(links[id], r)
  {
    forall id | id in links ensures id in IdsOf(all) <==> Touches(links[id], r) {
      if id in IdsOf(all) {
        var l :| l in all && l.id == id;
        assert InTable(links, l);
      }
      if Touches(links[id], r) {
        assert InTable(links, links[id]);
      }
    }
  }
}
