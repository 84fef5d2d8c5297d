/** A router's forwarder, and a payload that is forwarded from router to router. */
module Forwarding {
  import opened Basics
  import opened Words
  import opened Paths
  import opened LinkController
  import opened Circuits

  /** What is registered under an address: a link, which ends at a peer, or an xgress. */
  datatype Destination = LinkTo(peer: string) | Xgress

  datatype ForwardError = NoForwardTable | NoDestinationAddress | NoDestination | NotSent

  type ForwardTable = map<string, string>

  type SessionTable = map<string, ForwardTable>

  // ----- tables as values -----

  function WithForwards(table: ForwardTable, forwards: seq<Forward>): ForwardTable {
    if forwards == [] then table
    else
      var last := forwards[|forwards| - 1];
      WithForwards(table, forwards[..|forwards| - 1])[last.srcAddress := last.dstAddress]
  }

  function TableOf(sessions: SessionTable, sessionId: string): ForwardTable {
    if sessionId in sessions then sessions[sessionId] else map[]
  }

  function Routed(sessions: SessionTable, m: RouteMessage): SessionTable {
    sessions[m.sessionId := WithForwards(TableOf(sessions, m.sessionId), m.forwards)]
  }

  function Lookup(sessions: SessionTable, destinations: map<string, Destination>, sessionId: string, srcAddress: string)
    : Result<(string, Destination), ForwardError>
  {
    if sessionId !in sessions then Err(NoForwardTable)
    else if srcAddress !in sessions[sessionId] then Err(NoDestinationAddress)
    else
      var dstAddress := sessions[sessionId][srcAddress];
      if dstAddress !in destinations then Err(NoDestination) else Ok((dstAddress, destinations[dstAddress]))
  }

  // ----- the forwarder -----

  class Forwarder {
    var sessions: SessionTable
    var destinations: map<string, Destination>
    var addresses: map<string, seq<string>>     // the xgress addresses of each session

    constructor ()
      ensures sessions == map[] && destinations == map[] && addresses == map[]
    {
      sessions, destinations, addresses := map[], map[], map[];
    }

    method RegisterDestination(sessionId: string, address: string)
      modifies this`destinations, this`addresses
      ensures destinations == old(destinations)[address := Xgress]
      ensures addresses == old(addresses)[sessionId :=
                (if sessionId in old(addresses) then old(addresses)[sessionId] else []) + [address]]
    {
      destinations := destinations[address := Xgress];
      var list := if sessionId in addresses then addresses[sessionId] else [];
      addresses := addresses[sessionId := list + [address]];
    }

    /** Adds to the session's table, or starts one; what the table says of other addresses stays. */
    method Route(route: RouteMessage)
      modifies this`sessions
      ensures sessions == Routed(old(sessions), route)
    {
      var table := if route.sessionId in sessions then sessions[route.sessionId] else map[];
      ghost var before := table;
      for i := 0 to |route.forwards|
        invariant table == WithForwards(before, route.forwards[..i])
      {
        assert route.forwards[..i + 1][..i] == route.forwards[..i];
        table := table[route.forwards[i].srcAddress := route.forwards[i].dstAddress];
      }
      assert route.forwards[..|route.forwards|] == route.forwards;
      sessions := sessions[route.sessionId := table];
    }

    /** `unrouted` are the addresses whose xgress is told. */
    method UnregisterDestinations(sessionId: string) returns (unrouted: seq<string>)
      modifies this`destinations, this`addresses
      ensures addresses == old(addresses) - {sessionId}
      ensures forall a :: a in destinations <==>
                a in old(destinations) && (sessionId in old(addresses) ==> a !in old(addresses)[sessionId])
      ensures forall a :: a in destinations ==> destinations[a] == old(destinations)[a]
      ensures forall a :: a in unrouted <==>
                a in old(destinations) && sessionId in old(addresses) && a in old(addresses)[sessionId]
    {
      unrouted := [];
      if sessionId in addresses {
        var list := addresses[sessionId];
        for i := 0 to |list|
          invariant addresses == old(addresses)
          invariant forall a :: a in destinations <==> a in old(destinations) && a !in list[..i]
          invariant forall a :: a in destinations ==> destinations[a] == old(destinations)[a]
          invariant forall a :: a in unrouted <==> a in old(destinations) && a in list[..i]
        {
          assert list[..i + 1] == list[..i] + [list[i]];
          if list[i] in destinations {
            destinations := destinations - {list[i]};
            unrouted := unrouted + [list[i]];
          }
        }
        assert list[..|list|] == list;
      }
      addresses := addresses - {sessionId};
    }

    /** Unroute without delay. */
    method Unroute(sessionId: string) returns (unrouted: seq<string>)
      modifies this
      ensures sessions == old(sessions) - {sessionId}
      ensures addresses == old(addresses) - {sessionId}
      ensures forall a :: a in destinations <==>
                a in old(destinations) && (sessionId in old(addresses) ==> a !in old(addresses)[sessionId])
      ensures forall a :: a in destinations ==> destinations[a] == old(destinations)[a]
      ensures forall a :: a in unrouted <==>
                a in old(destinations) && sessionId in old(addresses) && a in old(addresses)[sessionId]
    {
      sessions := sessions - {sessionId};
      unrouted := UnregisterDestinations(sessionId);
    }

    /** Where a payload of the session goes that comes from `srcAddress`.  `sent` is what the destinations
        make of a payload that is handed to them. */
    method ForwardPayload(srcAddress: string, sessionId: string, sent: string -> bool)
      returns (r: Result<(string, Destination), ForwardError>)
      ensures var found := Lookup(sessions, destinations, sessionId, srcAddress);
              r == if found.Ok? && !sent(found.value.0) then Err(NotSent) else found
      ensures r == Err(NoForwardTable) <==> sessionId !in sessions
      ensures r == Err(NoDestinationAddress) <==> sessionId in sessions && srcAddress !in sessions[sessionId]
      ensures r == Err(NoDestination) <==>
                sessionId in sessions && srcAddress in sessions[sessionId] && sessions[sessionId][srcAddress] !in destinations
      ensures r.Ok? ==>
                && sessionId in sessions && srcAddress in sessions[sessionId]
                && r.value.0 == sessions[sessionId][srcAddress] && sent(r.value.0)
                && r.value.0 in destinations && r.value.1 == destinations[r.value.0]
    {
      if sessionId in sessions {
        var table := sessions[sessionId];
        if srcAddress in table {
          var dstAddress := table[srcAddress];
          if dstAddress in destinations {
            if !sent(dstAddress) {
              return Err(NotSent);
            }
            return Ok((dstAddress, destinations[dstAddress]));
          } else {
            return Err(NoDestination);
          }
        } else {
          return Err(NoDestinationAddress);
        }
      } else {
        return Err(NoForwardTable);
      }
    }
  }

  // ----- a network of forwarders -----

  datatype Router = Router(sessions: SessionTable, destinations: map<string, Destination>)

  type Routers = map<string, Router>

  /** Every router of the path handles the message that was made for it. */
  function Installed(net: Routers, path: seq<string>, msgs: seq<RouteMessage>): Routers
    requires |path| == |msgs| && forall r :: r in path ==> r in net
    decreases |path|
  {
    if path == [] then net
    else
      var n := |path| - 1;
      var before := Installed(net, path[..n], msgs[..n]);
      if path[n] !in before then before
      else before[path[n] := before[path[n]].(sessions := Routed(before[path[n]].sessions, msgs[n]))]
  }

  /** A payload that came to a router from an address, or was handed to the xgress at an address. */
  datatype Place = At(router: string, address: string) | Delivered(router: string, address: string) | Lost

  function Forwarded(net: Routers, sessionId: string, p: Place): Place {
    if !p.At? || p.router !in net then Lost
    else
      match Lookup(net[p.router].sessions, net[p.router].destinations, sessionId, p.address)
      case Err(_) => Lost
      case Ok((dstAddress, LinkTo(peer))) => At(peer, dstAddress)
      case Ok((dstAddress, Xgress)) => Delivered(p.router, dstAddress)
  }

  function Travel(net: Routers, sessionId: string, p: Place, hops: nat): Place {
    if hops == 0 then p else Forwarded(net, sessionId, Travel(net, sessionId, p, hops - 1))
  }

  /** The links of the circuit are registered at both of their ends, and the two ends of the circuit
      have an xgress. */
  ghost predicate Wired(net: Routers, c: Circuit)
    requires |c.links| == |c.path| - 1
  {
    && (forall r :: r in c.path ==> r in net)
    && (forall i :: 0 <= i < |c.path| ==> WiredAt(net, c, i))
  }

  ghost predicate WiredAt(net: Routers, c: Circuit, i: nat)
    requires |c.links| == |c.path| - 1 && i < |c.path|
  {
    c.path[i] in net &&
    var d := net[c.path[i]].destinations;
    && Hop(c, i) in d && d[Hop(c, i)] == (if i == 0 then Xgress else LinkTo(c.path[i - 1]))
    && Hop(c, i + 1) in d && d[Hop(c, i + 1)] == (if i == |c.links| then Xgress else LinkTo(c.path[i + 1]))
  }

  // ----- what installing the messages does -----

  /** The session's table holds both directions, whatever it held before, and is otherwise as before. */
  lemma RoutedBetween(sessions: SessionTable, m: RouteMessage, a: string, b: string)
    requires SendsBetween(m, a, b) && a != b
    ensures var table := TableOf(Routed(sessions, m), m.sessionId);
            && m.sessionId in Routed(sessions, m)
            && a in table && table[a] == b && b in table && table[b] == a
            && forall x :: x != a && x != b ==>
                 (x in table <==> x in TableOf(sessions, m.sessionId)) &&
                 (x in table ==> table[x] == TableOf(sessions, m.sessionId)[x])
  {
    var t, f := TableOf(sessions, m.sessionId), m.forwards;
    assert f[..1] == [f[0]] && f[..1][..0] == [];
    assert WithForwards(t, []) == t;
    assert WithForwards(t, f[..1]) == t[f[0].srcAddress := f[0].dstAddress];
  }

  lemma {:induction false} InstalledElsewhere(net: Routers, path: seq<string>, msgs: seq<RouteMessage>, r: string)
    requires |path| == |msgs| && (forall x :: x in path ==> x in net) && r in net && r !in path
    ensures r in Installed(net, path, msgs) && Installed(net, path, msgs)[r] == net[r]
    decreases |path|
  {
    if path != [] {
      var n := |path| - 1;
      InstalledElsewhere(net, path[..n], msgs[..n], r);
      assert path[n] in path;
    }
  }

  /** On a path that visits no router twice, every router ends up with its own message handled. */
  lemma {:induction false} InstalledAt(net: Routers, path: seq<string>, msgs: seq<RouteMessage>, i: nat)
    requires |path| == |msgs| && Simple(path) && (forall r :: r in path ==> r in net) && i < |path|
    ensures path[i] in Installed(net, path, msgs)
    ensures Installed(net, path, msgs)[path[i]] == net[path[i]].(sessions := Routed(net[path[i]].sessions, msgs[i]))
    decreases |path|
  {
    var n := |path| - 1;
    assert path[i] != path[n] || i == n;
    if i < n {
      InstalledAt(net, path[..n], msgs[..n], i);
    } else {
      InstalledElsewhere(net, path[..n], msgs[..n], path[n]);
    }
  }

  /** What the session's table on one router of the circuit says, and what the addresses mean there. */
  lemma InstalledTable(net: Routers, c: Circuit, msgs: seq<RouteMessage>, attempt: uint32, sessionId: string,
                       egressAddress: string, i: nat)
    requires WellFormed(c) && MessagesRight(c, msgs, attempt, sessionId, egressAddress) && Wired(net, c)
    requires i < |c.path|
    ensures var after := Installed(net, c.path, msgs);
            c.path[i] in after &&
            var r := after[c.path[i]];
            && Lookup(r.sessions, r.destinations, sessionId, Hop(c, i)) ==
               Ok((Hop(c, i + 1), if i == |c.links| then Xgress else LinkTo(c.path[i + 1])))
            && Lookup(r.sessions, r.destinations, sessionId, Hop(c, i + 1)) ==
               Ok((Hop(c, i), if i == 0 then Xgress else LinkTo(c.path[i - 1])))
  {
    HopsDiffer(c, i);
    InstalledAt(net, c.path, msgs, i);
    assert WiredAt(net, c, i);
    RoutedBetween(net[c.path[i]].sessions, msgs[i], Hop(c, i), Hop(c, i + 1));
  }

  // ----- what the routers do together -----

  /** Router `i` of the circuit sends on what comes from the ingress side, and what comes back. */
  ghost predicate Relays(net: Routers, sessionId: string, c: Circuit, i: nat)
    requires |c.links| == |c.path| - 1 && i < |c.path|
  {
    && Forwarded(net, sessionId, At(c.path[i], Hop(c, i))) ==
       (if i == |c.links| then Delivered(c.path[i], c.egressId) else At(c.path[i + 1], Hop(c, i + 1)))
    && Forwarded(net, sessionId, At(c.path[i], Hop(c, i + 1))) ==
       (if i == 0 then Delivered(c.path[i], c.ingressId) else At(c.path[i - 1], Hop(c, i)))
  }

  lemma {:induction false} RelayedToEgress(net: Routers, c: Circuit, sessionId: string, hops: nat)
    requires |c.links| == |c.path| - 1 && hops <= |c.path|
    requires forall i :: 0 <= i < |c.path| ==> Relays(net, sessionId, c, i)
    ensures Travel(net, sessionId, At(c.path[0], c.ingressId), hops) ==
            if hops < |c.path| then At(c.path[hops], Hop(c, hops)) else Delivered(c.path[|c.path| - 1], c.egressId)
  {
    if hops > 0 {
      RelayedToEgress(net, c, sessionId, hops - 1);
      assert Relays(net, sessionId, c, hops - 1);
    }
  }

  lemma {:induction false} RelayedToIngress(net: Routers, c: Circuit, sessionId: string, hops: nat)
    requires |c.links| == |c.path| - 1 && hops <= |c.path|
    requires forall i :: 0 <= i < |c.path| ==> Relays(net, sessionId, c, i)
    ensures var n := |c.path|;
            Travel(net, sessionId, At(c.path[n - 1], c.egressId), hops) ==
            if hops < n then At(c.path[n - 1 - hops], Hop(c, n - hops)) else Delivered(c.path[0], c.ingressId)
  {
    if hops > 0 {
      RelayedToIngress(net, c, sessionId, hops - 1);
      assert Relays(net, sessionId, c, |c.path| - hops);
    }
  }

  /** Whatever the forward tables held before, once the messages are installed a payload handed in at
      the ingress visits the routers of the path in order and leaves at the egress. */
  lemma TravelsToEgress(net: Routers, c: Circuit, msgs: seq<RouteMessage>, attempt: uint32, sessionId: string,
                        egressAddress: string, hops: nat)
    requires WellFormed(c) && MessagesRight(c, msgs, attempt, sessionId, egressAddress) && Wired(net, c)
    requires hops <= |c.path|
    ensures Travel(Installed(net, c.path, msgs), sessionId, At(c.path[0], c.ingressId), hops) ==
            if hops < |c.path| then At(c.path[hops], Hop(c, hops)) else Delivered(c.path[|c.path| - 1], c.egressId)
  {
    forall i | 0 <= i < |c.path| ensures Relays(Installed(net, c.path, msgs), sessionId, c, i) {
      InstalledTable(net, c, msgs, attempt, sessionId, egressAddress, i);
    }
    RelayedToEgress(Installed(net, c.path, msgs), c, sessionId, hops);
  }

  /** And one handed in at the egress takes the same way back, to the ingress. */
  lemma TravelsToIngress(net: Routers, c: Circuit, msgs: seq<RouteMessage>, attempt: uint32, sessionId: string,
                         egressAddress: string, hops: nat)
    requires WellFormed(c) && MessagesRight(c, msgs, attempt, sessionId, egressAddress) && Wired(net, c)
    requires hops <= |c.path|
    ensures var n := |c.path|;
            Travel(Installed(net, c.path, msgs), sessionId, At(c.path[n - 1], c.egressId), hops) ==
            if hops < n then At(c.path[n - 1 - hops], Hop(c, n - hops)) else Delivered(c.path[0], c.ingressId)
  {
    forall i | 0 <= i < |c.path| ensures Relays(Installed(net, c.path, msgs), sessionId, c, i) {
      InstalledTable(net, c, msgs, attempt, sessionId, egressAddress, i);
    }
    RelayedToIngress(Installed(net, c.path, msgs), c, sessionId, hops);
  }

  /** From path selection to forwarding: along a path that the search has found, with links that were
      chosen for it and ends that no link is named after, a payload of the source's xgress reaches
      the destination's, and the other way round. */
  lemma SelectedPathCarries(g: Graph, w: Weights, src: string, dst: string, c: Circuit, table: map<string, Link>,
                            states: States, net: Routers, msgs: seq<RouteMessage>, attempt: uint32,
                            sessionId: string, egressAddress: string)
    requires Shortest(g, w, c.path, src, dst)
    requires TableRight(table) && LinksRight(c.path, c.links, table, states)
    requires c.ingressId !in table && c.egressId !in table && c.ingressId != c.egressId
    requires MessagesRight(c, msgs, attempt, sessionId, egressAddress) && Wired(net, c)
    ensures var after := Installed(net, c.path, msgs);
            && Travel(after, sessionId, At(src, c.ingressId), |c.path|) == Delivered(dst, c.egressId)
            && Travel(after, sessionId, At(dst, c.egressId), |c.path|) == Delivered(src, c.ingressId)
  {
    ChosenLinksAreWellFormed(c, table, states);
    TravelsToEgress(net, c, msgs, attempt, sessionId, egressAddress, |c.path|);
    TravelsToIngress(net, c, msgs, attempt, sessionId, egressAddress, |c.path|);
  }

  /** Other sessions are forwarded as before, on every router. */
  lemma {:induction false} OtherSessionsUndisturbed(net: Routers, path: seq<string>, msgs: seq<RouteMessage>,
                                                    sessionId: string, other: string, p: Place)
    requires |path| == |msgs| && forall r :: r in path ==> r in net
    requires forall m :: m in msgs ==> m.sessionId == sessionId
    requires other != sessionId
    ensures Forwarded(Installed(net, path, msgs), other, p) == Forwarded(net, other, p)
    decreases |path|
  {
    if path != [] {
      var n := |path| - 1;
      assert forall m :: m in msgs[..n] ==> m in msgs;
      assert msgs[n] in msgs;
      OtherSessionsUndisturbed(net, path[..n], msgs[..n], sessionId, other, p);
    }
  }
}
