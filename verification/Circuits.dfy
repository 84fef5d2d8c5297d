/** Circuits: the links along a path, and the route messages that tell each router of the path where
    to send what arrives from either side. */
module Circuits {
  import opened Basics
  import opened Words
  import opened Paths
  import opened LinkController
  import opened ShortestPath

  datatype Forward = Forward(srcAddress: string, dstAddress: string)

  datatype Egress = Egress(binding: string, address: string, destination: string)

  datatype RouteMessage = RouteMessage(
    sessionId: string, attempt: uint32, forwards: seq<Forward>, egress: Option<Egress>)

  datatype Circuit = Circuit(path: seq<string>, links: seq<Link>, binding: string, ingressId: string, egressId: string)

  // ----- links for a path -----

  /** One usable link of the table for each step of the path. */
  ghost predicate LinksRight(path: seq<string>, links: seq<Link>, table: map<string, Link>, states: States) {
    && |links| == (if path == [] then 0 else |path| - 1)
    && forall i :: 0 <= i < |links| ==> StepRight(path, links, table, states, i)
  }

  ghost predicate StepRight(path: seq<string>, links: seq<Link>, table: map<string, Link>, states: States, i: nat)
    requires i < |links| && i + 1 < |path|
  {
    InTable(table, links[i]) && UsableBetween(links[i], states, path[i], path[i + 1])
  }

  ghost predicate StepPossible(path: seq<string>, table: map<string, Link>, states: States, i: nat)
    requires i + 1 < |path|
  {
    Adjacent(table, states, path[i], path[i + 1])
  }

  ghost predicate StepsPossible(path: seq<string>, table: map<string, Link>, states: States, n: nat) {
    forall i :: 0 <= i < n && i + 1 < |path| ==> StepPossible(path, table, states, i)
  }

  ghost predicate LinkedSoFar(path: seq<string>, links: seq<Link>, table: map<string, Link>, states: States) {
    && |links| < |path|
    && (forall k :: 0 <= k < |links| ==> StepRight(path, links, table, states, k))
    && StepsPossible(path, table, states, |links|)
  }

  lemma OneMoreLink(path: seq<string>, links: seq<Link>, link: Link, table: map<string, Link>, states: States)
    requires LinkedSoFar(path, links, table, states) && |links| + 1 < |path|
    requires InTable(table, link) && UsableBetween(link, states, path[|links|], path[|links| + 1])
    ensures LinkedSoFar(path, links + [link], table, states)
  {
    assert UsableBetween(table[link.id], states, path[|links|], path[|links| + 1]);
    assert StepPossible(path, table, states, |links|);
    forall k | 0 <= k < |links| + 1 ensures StepRight(path, links + [link], table, states, k) {
      assert k < |links| ==> StepRight(path, links, table, states, k);
    }
  }

  lemma AllLinked(path: seq<string>, links: seq<Link>, table: map<string, Link>, states: States)
    requires LinkedSoFar(path, links, table, states) && |links| + 1 == |path|
    ensures LinksRight(path, links, table, states) && StepsPossible(path, table, states, |path|)
  {
  }

  lemma NoLink(path: seq<string>, table: map<string, Link>, states: States, i: nat)
    requires i + 1 < |path| && !Adjacent(table, states, path[i], path[i + 1])
    ensures !StepsPossible(path, table, states, |path|)
  {
    assert !StepPossible(path, table, states, i);
  }

  method LinkStep(controller: Controller, path: seq<string>, found: seq<Link>) returns (r: Option<seq<Link>>)
    requires controller.Valid()
    requires LinkedSoFar(path, found, controller.links, controller.states) && |found| + 1 < |path|
    ensures r.Some? ==> |r.value| == |found| + 1 && LinkedSoFar(path, r.value, controller.links, controller.states)
    ensures r.None? ==> !StepsPossible(path, controller.links, controller.states, |path|)
  {
    var i := |found|;
    var link := controller.LeastExpensiveLink(path[i], path[i + 1]);
    if link.None? {
      NoLink(path, controller.links, controller.states, i);
      return None;
    }
    OneMoreLink(path, found, link.value, controller.links, controller.states);
    return Some(found + [link.value]);
  }

  /** Fails at the first step that no usable link makes. */
  method SetLinks(controller: Controller, path: seq<string>) returns (links: Option<seq<Link>>)
    requires controller.Valid()
    ensures links.Some? ==> LinksRight(path, links.value, controller.links, controller.states)
    ensures links.Some? <==> StepsPossible(path, controller.links, controller.states, |path|)
  {
    var found: seq<Link> := [];
    if |path| <= 1 {
      return Some(found);
    }
    for i := 0 to |path| - 1
      invariant |found| == i && LinkedSoFar(path, found, controller.links, controller.states)
    {
      var more := LinkStep(controller, path, found);
      if more.None? {
        return None;
      }
      found := more.value;
    }
    AllLinked(path, found, controller.links, controller.states);
    return Some(found);
  }

  /** The ids of the two ends are new ones. */
  method CreateCircuitWithPath(controller: Controller, path: seq<string>, binding: string, ingressId: string, egressId: string)
    returns (circuit: Option<Circuit>)
    requires controller.Valid()
    ensures circuit.Some? ==>
              && circuit.value == Circuit(path, circuit.value.links, binding, ingressId, egressId)
              && LinksRight(path, circuit.value.links, controller.links, controller.states)
    ensures circuit.Some? <==> StepsPossible(path, controller.links, controller.states, |path|)
  {
    var links := SetLinks(controller, path);
    if links.None? {
      return None;
    }
    return Some(Circuit(path, links.value, binding, ingressId, egressId));
  }

  /** A circuit is moved to the path that is shortest now.  Only the search can fail: every step of a
      path that it finds is made by a usable link. */
  method UpdateCircuit(network: Network, circuit: Circuit) returns (r: Result<Circuit, Error>, ghost w: Weights)
    requires network.linkController.Searchable() && circuit.path != []
    ensures var src, dst := circuit.path[0], circuit.path[|circuit.path| - 1];
            && (r.Ok? ==> && LinksRight(r.value.path, r.value.links, network.linkController.links, network.linkController.states)
                          && r.value.binding == circuit.binding && r.value.ingressId == circuit.ingressId
                          && r.value.egressId == circuit.egressId)
            && (r.Ok? && src == dst ==> r.value.path == [src])
            && (r.Ok? && src != dst ==> Observed(network.View(), w) && Shortest(network.View(), w, r.value.path, src, dst))
            && (r.Err? ==> src != dst && Observed(network.View(), w) && OutOfReach(network.View(), w, src, dst))
  {
    var src, dst := circuit.path[0], circuit.path[|circuit.path| - 1];
    var route: Result<Route, Error>;
    route, w := network.ShortestPath(Some(src), Some(dst));
    if route.Err? {
      return Err(route.error), w;
    }
    var path := route.value.path;
    if src != dst {
      StepsAreAdjacent(network, w, path, src, dst);
    }
    var links := SetLinks(network.linkController, path);
    return Ok(Circuit(path, links.value, circuit.binding, circuit.ingressId, circuit.egressId)), w;
  }

  lemma StepsAreAdjacent(network: Network, w: Weights, path: seq<string>, src: string, dst: string)
    requires Observed(network.View(), w) && Shortest(network.View(), w, path, src, dst)
    ensures StepsPossible(path, network.linkController.links, network.linkController.states, |path|)
  {
    var g, c := network.View(), network.linkController;
    forall i | 0 <= i < |path| - 1 ensures StepPossible(path, c.links, c.states, i) {
      var j := i + 1;
      assert (path[i], path[j]) in w;
      var cost := w[(path[i], path[j])];
      assert (path[i], path[j], cost) in g.costs;
      assert Linked(g, path[i], path[j]);
      LinkedMeansAdjacent(network.connected, c.links, c.states, path[i], path[j]);
    }
  }

  // ----- route messages -----

  /** The addresses along a circuit: the ingress, the links, the egress. */
  function Hop(c: Circuit, i: nat): string {
    if i == 0 then c.ingressId
    else if i <= |c.links| then c.links[i - 1].id
    else c.egressId
  }

  /** The message makes its router forward in both directions between two addresses. */
  predicate SendsBetween(m: RouteMessage, a: string, b: string) {
    || m.forwards == [Forward(a, b), Forward(b, a)]
    || m.forwards == [Forward(b, a), Forward(a, b)]
  }

  ghost predicate MessagesRight(c: Circuit, msgs: seq<RouteMessage>, attempt: uint32, sessionId: string, egressAddress: string) {
    && |msgs| == |c.links| + 1
    && forall i :: 0 <= i < |msgs| ==>
         && msgs[i].sessionId == sessionId && msgs[i].attempt == attempt
         && SendsBetween(msgs[i], Hop(c, i), Hop(c, i + 1))
         && msgs[i].egress == if i == |c.links| then Some(Egress(c.binding, c.egressId, egressAddress)) else None
  }

  /** One message for each router of the path, in the order of the path; the last one carries the
      egress. */
  method CreateRouteMessages(circuit: Circuit, attempt: uint32, sessionId: string, egressAddress: string)
    returns (routeMessages: seq<RouteMessage>)
    ensures MessagesRight(circuit, routeMessages, attempt, sessionId, egressAddress)
    ensures var links, last := circuit.links, |circuit.links| - 1;
            && (links == [] ==> SendsBetween(routeMessages[0], circuit.ingressId, circuit.egressId))
            && (links != [] ==> && SendsBetween(routeMessages[0], circuit.ingressId, links[0].id)
                                && SendsBetween(routeMessages[last + 1], links[last].id, circuit.egressId))
            && (forall i :: 0 < i <= last ==> SendsBetween(routeMessages[i], links[i - 1].id, links[i].id))
  {
    routeMessages := [];
    var egress := Egress(circuit.binding, circuit.egressId, egressAddress);
    if |circuit.links| == 0 {
      // a single router
      var forwards := [Forward(circuit.ingressId, circuit.egressId)];
      forwards := forwards + [Forward(circuit.egressId, circuit.ingressId)];
      routeMessages := [RouteMessage(sessionId, attempt, forwards, Some(egress))];
      AlongLinks(circuit, routeMessages, attempt, sessionId, egressAddress);
      return;
    }
    for i := 0 to |circuit.links|
      invariant |routeMessages| == if i == 0 then 0 else i + 1
      invariant forall k :: 0 <= k < |routeMessages| ==>
                  && routeMessages[k].sessionId == sessionId && routeMessages[k].attempt == attempt
                  && SendsBetween(routeMessages[k], Hop(circuit, k), Hop(circuit, k + 1))
                  && routeMessages[k].egress == if k == |circuit.links| then Some(egress) else None
    {
      var link := circuit.links[i];
      if i == 0 {
        // ingress
        var forwards := [Forward(circuit.ingressId, link.id)];
        forwards := forwards + [Forward(link.id, circuit.ingressId)];
        routeMessages := routeMessages + [RouteMessage(sessionId, attempt, forwards, None)];
      }
      if i < |circuit.links| - 1 {
        // transit
        var nextLink := circuit.links[i + 1];
        var forwards := [Forward(link.id, nextLink.id)];
        forwards := forwards + [Forward(nextLink.id, link.id)];
        routeMessages := routeMessages + [RouteMessage(sessionId, attempt, forwards, None)];
      }
      if i == |circuit.links| - 1 {
        // egress
        var forwards := [Forward(circuit.egressId, link.id)];
        forwards := forwards + [Forward(link.id, circuit.egressId)];
        routeMessages := routeMessages + [RouteMessage(sessionId, attempt, forwards, Some(egress))];
      }
    }
    AlongLinks(circuit, routeMessages, attempt, sessionId, egressAddress);
  }

  lemma AlongLinks(c: Circuit, msgs: seq<RouteMessage>, attempt: uint32, sessionId: string, egressAddress: string)
    requires MessagesRight(c, msgs, attempt, sessionId, egressAddress)
    ensures var links, last := c.links, |c.links| - 1;
            && (links == [] ==> SendsBetween(msgs[0], c.ingressId, c.egressId))
            && (links != [] ==> && SendsBetween(msgs[0], c.ingressId, links[0].id)
                                && SendsBetween(msgs[last + 1], links[last].id, c.egressId))
            && (forall i :: 0 < i <= last ==> SendsBetween(msgs[i], links[i - 1].id, links[i].id))
  {
    var last := |c.links| - 1;
    forall i | 0 < i <= last ensures SendsBetween(msgs[i], c.links[i - 1].id, c.links[i].id) {
      assert SendsBetween(msgs[i], Hop(c, i), Hop(c, i + 1));
    }
    assert SendsBetween(msgs[0], Hop(c, 0), Hop(c, 1));
    assert SendsBetween(msgs[last + 1], Hop(c, last + 1), Hop(c, last + 2));
  }

  // ----- addresses along a circuit -----

  /** The path visits no router twice, its links join its steps and have ids of their own, and the
      two ends have addresses that no link and not the other end has. */
  ghost predicate WellFormed(c: Circuit) {
    && c.path != [] && Simple(c.path)
    && |c.links| == |c.path| - 1
    && (forall i :: 0 <= i < |c.links| ==> StepJoined(c, i))
    && (forall i, j :: 0 <= i < |c.links| && 0 <= j < |c.links| && c.links[i].id == c.links[j].id ==> c.links[i] == c.links[j])
    && (forall i :: 0 <= i < |c.links| ==> c.links[i].id != c.ingressId && c.links[i].id != c.egressId)
    && c.ingressId != c.egressId
  }

  predicate StepJoined(c: Circuit, i: nat)
    requires i < |c.links| && i + 1 < |c.path|
  {
    Joins(c.links[i], c.path[i], c.path[i + 1])
  }

  /** A path found by the search, with links chosen from one table, makes a well-formed circuit. */
  lemma ChosenLinksAreWellFormed(c: Circuit, table: map<string, Link>, states: States)
    requires c.path != [] && Simple(c.path) && TableRight(table) && LinksRight(c.path, c.links, table, states)
    requires c.ingressId !in table && c.egressId !in table && c.ingressId != c.egressId
    ensures WellFormed(c)
  {
    forall i | 0 <= i < |c.links| ensures InTable(table, c.links[i]) && StepJoined(c, i) {
      assert StepRight(c.path, c.links, table, states, i);
    }
  }

  /** On every router of a well-formed circuit the two addresses differ. */
  lemma HopsDiffer(c: Circuit, i: nat)
    requires WellFormed(c) && i < |c.path|
    ensures Hop(c, i) != Hop(c, i + 1)
  {
    if 0 < i < |c.links| {
      assert StepJoined(c, i - 1) && StepJoined(c, i);
      assert c.path[i - 1] != c.path[i] && c.path[i] != c.path[i + 1] && c.path[i - 1] != c.path[i + 1];
      assert c.links[i - 1] != c.links[i];
    }
  }
}
