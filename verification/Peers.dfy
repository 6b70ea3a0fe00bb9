/** Who learns whom: what each network operation changes in the nodes, exactly, and the routes a connect opens. */
module Peers {
  import opened Prelude
  import opened Topology
  import opened Links
  import opened Routing

  /** Node `n` of centre `c` has `m` among its peers. */
  ghost predicate Knows(net: Net, c: CentreId, n: NodeId, m: NodeId) {
    c in net && n in net[c].nodes && m in net[c].nodes[n].peers
  }

  /** The same centres with the same nodes, each as live and as good as before. */
  ghost predicate SameNodes(net: Net, net': Net) {
    && SameShape(net, net')
    && forall c, n :: c in net && n in net[c].nodes ==>
         net'[c].nodes[n].alive == net[c].nodes[n].alive && net'[c].nodes[n].score == net[c].nodes[n].score
  }

  /** The nodes `left` of `a` and `right` of `b` learned each other; nobody learned or forgot anything else. */
  ghost predicate Introduced(
      net: Net, net': Net, a: CentreId, b: CentreId, left: set<NodeId>, right: set<NodeId>)
  {
    && SameNodes(net, net')
    && forall c, n, m :: Knows(net', c, n, m)
         <==> Knows(net, c, n, m) || (c == a && n in left && m in right) || (c == b && n in right && m in left)
  }

  /** A live node of `b` that no live node of `b` beats. */
  ghost predicate BestLive(c: Centre, n: NodeId) {
    && n in c.nodes && c.nodes[n].alive
    && forall m :: m in c.nodes && c.nodes[m].alive ==> c.nodes[n].score <= c.nodes[m].score
  }

  ghost predicate LiveIn(net: Net, c: CentreId, n: NodeId) {
    c in net && n in net[c].nodes && net[c].nodes[n].alive
  }

  // ---- connecting ----

  /** Two different centres with live nodes connect, through a relay if that is a live node of the first. */
  lemma ConnectsExactly(net: Net, a: CentreId, b: CentreId, mode: Mode, order: seq<NodeId>, target: NodeId)
    ensures Apply(net, Connect(a, b, mode, order, target)).Done?
       <==> && a != b && (exists n :: LiveIn(net, a, n)) && (exists m :: LiveIn(net, b, m))
            && (mode.Relay? ==> LiveIn(net, a, mode.relay))
  {
    hide Joined;
    forall c | c in net
      ensures Live(net[c]) != {} <==> exists n :: LiveIn(net, c, n)
    {
      if Live(net[c]) != {} {
        var n :| n in Live(net[c]);
        assert LiveIn(net, c, n);
      }
      if n :| LiveIn(net, c, n) {
        assert n in Live(net[c]);
      }
    }
  }

  lemma JoinedIntroduces(net: Net, a: CentreId, b: CentreId, left: set<NodeId>, right: set<NodeId>, link: Link)
    requires a in net && b in net && a != b && left <= net[a].nodes.Keys && right <= net[b].nodes.Keys
    ensures Introduced(net, Joined(net, a, b, left, right, link), a, b, left, right)
    ensures var net' := Joined(net, a, b, left, right, link);
            && b in net'[a].linkState && a in net'[b].linkState
            && net'[a].linkState[b] == link && net'[b].linkState[a] == link
  {
    hide Teach, Grew, Introduced;
    var net' := Joined(net, a, b, left, right, link);
    Learned(net[a], left, right);
    Learned(net[b], right, left);
    SameNodesGrew(net[a], Teach(net[a], left, right), net'[a], left, right);
    SameNodesGrew(net[b], Teach(net[b], right, left), net'[b], right, left);
    GrewBoth(net, net', a, b, left, right);
  }

  /** The nodes `who` of the centre learned all of `peers`, and nothing else happened to any node. */
  ghost predicate Grew(c: Centre, c': Centre, who: set<NodeId>, peers: set<NodeId>) {
    && c'.nodes.Keys == c.nodes.Keys
    && forall n :: n in c.nodes ==>
         && c'.nodes[n].alive == c.nodes[n].alive && c'.nodes[n].score == c.nodes[n].score
         && forall m :: m in c'.nodes[n].peers <==> m in c.nodes[n].peers || (n in who && m in peers)
  }

  lemma Learned(c: Centre, who: set<NodeId>, peers: set<NodeId>)
    ensures Grew(c, Teach(c, who, peers), who, peers)
    ensures Teach(c, who, peers).links == c.links && Teach(c, who, peers).linkState == c.linkState
  {
  }

  lemma SameNodesGrew(c: Centre, d: Centre, d': Centre, who: set<NodeId>, peers: set<NodeId>)
    requires Grew(c, d, who, peers) && d'.nodes == d.nodes
    ensures Grew(c, d', who, peers)
  {
  }

  lemma GrewBoth(net: Net, net': Net, a: CentreId, b: CentreId, left: set<NodeId>, right: set<NodeId>)
    requires a != b && a in net && b in net && left <= net[a].nodes.Keys && right <= net[b].nodes.Keys
    requires net'.Keys == net.Keys && forall c :: c in net && c != a && c != b ==> net'[c] == net[c]
    requires Grew(net[a], net'[a], left, right) && Grew(net[b], net'[b], right, left)
    ensures Introduced(net, net', a, b, left, right)
  {
  }

  /** A connect introduces all live nodes of the two centres to each other, or the relay and a best live node of the
      other centre, and nobody else; both sides record the same healthy link. */
  lemma ConnectTeaches(net: Net, a: CentreId, b: CentreId, mode: Mode, order: seq<NodeId>, target: NodeId)
    requires Allowed(net, Connect(a, b, mode, order, target)) && Apply(net, Connect(a, b, mode, order, target)).Done?
    ensures var net' := After(net, Connect(a, b, mode, order, target));
            && SameNodes(net, net')
            && (mode.Relay? ==> LiveIn(net, a, mode.relay) && b in net && BestLive(net[b], target))
            && (mode.FullMesh? ==>
                  forall c, n, m :: Knows(net', c, n, m)
                    <==> || Knows(net, c, n, m)
                         || (c == a && LiveIn(net, a, n) && LiveIn(net, b, m))
                         || (c == b && LiveIn(net, b, n) && LiveIn(net, a, m)))
            && (mode.Relay? ==>
                  forall c, n, m :: Knows(net', c, n, m)
                    <==> || Knows(net, c, n, m)
                         || (c, n, m) == (a, mode.relay, target)
                         || (c, n, m) == (b, target, mode.relay))
            && a in net' && b in net' && b in net'[a].linkState && a in net'[b].linkState
            && net'[a].linkState[b].mode == net'[b].linkState[a].mode == mode
            && net'[a].linkState[b].healthy && net'[b].linkState[a].healthy
  {
    hide Joined, Introduced;
    var net' := After(net, Connect(a, b, mode, order, target));
    var left := if mode.FullMesh? then Live(net[a]) else {mode.relay};
    var right := if mode.FullMesh? then Live(net[b]) else {target};
    var link := Link(mode, if mode.FullMesh? then order else [mode.relay], true);
    JoinedIntroduces(net, a, b, left, right, link);
    assert net' == Joined(net, a, b, left, right, link);
    IntroducedMeans(net, net', a, b, left, right);
  }

  lemma IntroducedMeans(net: Net, net': Net, a: CentreId, b: CentreId, left: set<NodeId>, right: set<NodeId>)
    requires Introduced(net, net', a, b, left, right)
    ensures SameNodes(net, net')
    ensures forall c, n, m :: Knows(net', c, n, m)
              <==> Knows(net, c, n, m) || (c == a && n in left && m in right) || (c == b && n in right && m in left)
  {
  }

  /** Right after a full-mesh connect every live node of one centre reaches every live node of the other in one hop. */
  lemma MeshedAcross(net: Net, a: CentreId, b: CentreId, order: seq<NodeId>, target: NodeId, n: NodeId, m: NodeId)
    requires Allowed(net, Connect(a, b, FullMesh, order, target))
    requires Apply(net, Connect(a, b, FullMesh, order, target)).Done?
    requires LiveIn(net, a, n) && LiveIn(net, b, m)
    ensures var net' := After(net, Connect(a, b, FullMesh, order, target)); Hop(net', n, m) && Hop(net', m, n)
  {
    var net' := After(net, Connect(a, b, FullMesh, order, target));
    ConnectTeaches(net, a, b, FullMesh, order, target);
    hide Allowed, Apply, After;
    assert Knows(net', a, n, m) && Knows(net', b, m, n);
    LiveStays(net, net', a, n);
    LiveStays(net, net', b, m);
  }

  lemma LiveStays(net: Net, net': Net, c: CentreId, n: NodeId)
    requires SameNodes(net, net') && LiveIn(net, c, n)
    ensures LiveIn(net', c, n) && n in Live(net'[c])
  {
  }

  lemma MeshedStays(net: Net, net': Net, c: CentreId)
    requires SameNodes(net, net') && c in net && Meshed(net[c])
    requires forall n, m :: Knows(net, c, n, m) ==> Knows(net', c, n, m)
    ensures c in net' && Meshed(net'[c])
  {
    forall n, m | n in Live(net'[c]) && m in Live(net'[c]) && n != m
      ensures m in net'[c].nodes[n].peers
    {
      assert n in Live(net[c]) && m in Live(net[c]) && Knows(net, c, n, m);
      assert Knows(net', c, n, m);
    }
  }

  /** Right after a relay connect the relay and the chosen node know each other, and meshed centres stay meshed. */
  lemma RelayBridges(net: Net, a: CentreId, b: CentreId, relay: NodeId, order: seq<NodeId>, target: NodeId)
    requires Allowed(net, Connect(a, b, Relay(relay), order, target))
    requires Apply(net, Connect(a, b, Relay(relay), order, target)).Done?
    requires a in net && b in net && Meshed(net[a]) && Meshed(net[b])
    ensures Bridged(After(net, Connect(a, b, Relay(relay), order, target)), a, b, relay, target)
  {
    var net' := After(net, Connect(a, b, Relay(relay), order, target));
    ConnectTeaches(net, a, b, Relay(relay), order, target);
    hide Allowed, Apply, After, Meshed;
    MeshedStays(net, net', a);
    MeshedStays(net, net', b);
    LiveStays(net, net', a, relay);
    LiveStays(net, net', b, target);
    assert Knows(net', a, relay, target) && Knows(net', b, target, relay);
  }

  /**
   * Right after a successful connect `route` answers between any live node of one centre and any live node of the other,
   * in both directions: with at most two nodes after a full mesh, and with at most four after a relay connect of two
   * meshed centres.
   */
  lemma ConnectOpensRoutes(
      net: Net, a: CentreId, b: CentreId, mode: Mode, order: seq<NodeId>, target: NodeId, n: NodeId, m: NodeId,
      there: Option<seq<NodeId>>, back: Option<seq<NodeId>>)
    requires Allowed(net, Connect(a, b, mode, order, target)) && Apply(net, Connect(a, b, mode, order, target)).Done?
    requires LiveIn(net, a, n) && LiveIn(net, b, m)
    requires mode.FullMesh? || (Meshed(net[a]) && Meshed(net[b]))
    requires var net' := After(net, Connect(a, b, mode, order, target));
             RouteCorrect(net', n, m, there) && RouteCorrect(net', m, n, back)
    ensures there.Some? && |there.value| <= (if mode.FullMesh? then 2 else 4)
    ensures back.Some? && |back.value| <= (if mode.FullMesh? then 2 else 4)
  {
    hide Allowed, Apply, After, Hop, Meshed;
    var net' := After(net, Connect(a, b, mode, order, target));
    if mode.FullMesh? {
      MeshedAcross(net, a, b, order, target, n, m);
      assert NetPath(net', n, m, [n, m]) && NetPath(net', m, n, [m, n]);
    } else {
      RelayBridges(net, a, b, mode.relay, order, target);
      ConnectTeaches(net, a, b, mode, order, target);
      LiveStays(net, net', a, n);
      LiveStays(net, net', b, m);
      BridgedPath(net', a, b, mode.relay, target, n, m);
    }
  }

  // ---- failover, meshing, marking and adding ----

  /** On two-sided links a failover succeeds if and only if the link exists, the first centre has a live node that is
      not yet a relay, and the second has a live node. */
  lemma FailsOverExactly(net: Net, a: CentreId, b: CentreId, candidate: NodeId, target: NodeId)
    requires TwoSided(net)
    ensures Apply(net, Failover(a, b, candidate, target)).Done?
       <==> && a in net && b in net[a].linkState
            && (exists n :: LiveIn(net, a, n) && n !in net[a].linkState[b].relays)
            && (exists m :: LiveIn(net, b, m))
  {
    NeverPanics(net, Failover(a, b, candidate, target));
    hide Teach, PushRelay;
    if a in net && b in net[a].linkState {
      assert LinkOk(net, a, b);
      hide TwoSided, LinkOk;
      var relays := net[a].linkState[b].relays;
      var open := Live(net[a]) - Elems(relays);
      if open != {} {
        var n :| n in open;
        assert LiveIn(net, a, n) && n !in relays;
      }
      if n :| LiveIn(net, a, n) && n !in relays {
        assert n in open;
      }
      if Live(net[b]) != {} {
        var m :| m in Live(net[b]);
        assert LiveIn(net, b, m);
      }
      if m :| LiveIn(net, b, m) {
        assert m in Live(net[b]);
      }
    }
  }

  function Pushed(link: Link, relay: NodeId): Link {
    Link(link.mode, link.relays + [relay], link.healthy)
  }

  /** A failover introduces the new relay and a best live node of the other centre, and nobody else. The new relay is a
      best live node of its centre among those that were no relays, and is recorded last on both sides. */
  lemma FailoverTeaches(net: Net, a: CentreId, b: CentreId, candidate: NodeId, target: NodeId)
    requires TwoSided(net)
    requires Allowed(net, Failover(a, b, candidate, target)) && Apply(net, Failover(a, b, candidate, target)).Done?
    ensures var net' := After(net, Failover(a, b, candidate, target));
            && Introduced(net, net', a, b, {candidate}, {target})
            && a in net && b in net && b in net[a].linkState && a in net[b].linkState && BestLive(net[b], target)
            && LiveIn(net, a, candidate) && candidate !in net[a].linkState[b].relays
            && (forall n :: LiveIn(net, a, n) && n !in net[a].linkState[b].relays ==>
                  net[a].nodes[candidate].score <= net[a].nodes[n].score)
            && b in net'[a].linkState && a in net'[b].linkState
            && net'[a].linkState[b] == Pushed(net[a].linkState[b], candidate)
            && net'[b].linkState[a] == Pushed(net[b].linkState[a], candidate)
  {
    assert LinkOk(net, a, b);
    hide TwoSided, SameNodes;
    assert a != b && b in net && a in net[b].linkState && net[b].linkState[a].relays == net[a].linkState[b].relays;
    hide LinkOk;
    FailoverIntroduces(net, a, b, candidate, target);
    assert forall n :: n in net[a].linkState[b].relays <==> n in Elems(net[a].linkState[b].relays);
    assert forall n :: LiveIn(net, a, n) ==> n in Live(net[a]);
  }

  lemma FailoverIntroduces(net: Net, a: CentreId, b: CentreId, candidate: NodeId, target: NodeId)
    requires a != b && a in net && b in net && b in net[a].linkState && a in net[b].linkState
    requires candidate in net[a].nodes && target in net[b].nodes
    requires ApplyFailover(net, a, b, candidate, target).Done?
    ensures Introduced(net, ApplyFailover(net, a, b, candidate, target).net, a, b, {candidate}, {target})
  {
    hide Teach, FailoverRefusal, Grew, Introduced;
    var net' := ApplyFailover(net, a, b, candidate, target).net;
    Learned(net[a], {candidate}, {target});
    Learned(net[b], {target}, {candidate});
    SameNodesGrew(net[a], Teach(net[a], {candidate}, {target}), net'[a], {candidate}, {target});
    SameNodesGrew(net[b], Teach(net[b], {target}, {candidate}), net'[b], {target}, {candidate});
    GrewBoth(net, net', a, b, {candidate}, {target});
  }

  /** Meshing a centre makes its live nodes know each other; nobody else learns anything and no record changes. */
  lemma MeshTeaches(net: Net, id: CentreId)
    requires id in net
    ensures var net' := After(net, Mesh(id));
            && SameNodes(net, net') && SameLinks(net, net')
            && forall c, n, m :: Knows(net', c, n, m)
                 <==> Knows(net, c, n, m) || (c == id && n != m && LiveIn(net, id, n) && LiveIn(net, id, m))
  {
  }

  /** Marking changes the one node's liveness and nothing else, and is refused if there is no such node. */
  lemma MarkExactly(net: Net, id: CentreId, node: NodeId, alive: bool)
    ensures Apply(net, Mark(id, node, alive)).Done? <==> id in net && node in net[id].nodes
    ensures var net' := After(net, Mark(id, node, alive));
            && SameLinks(net, net')
            && (forall c, n, m :: Knows(net', c, n, m) <==> Knows(net, c, n, m))
            && (forall c, n :: c in net && n in net[c].nodes ==> net'[c].nodes[n].score == net[c].nodes[n].score)
            && (forall c, n :: LiveIn(net', c, n) <==>
                  if c == id && n == node then alive && id in net && node in net[id].nodes else LiveIn(net, c, n))
  {
  }

  /** A centre enters as it is, and only if none of its nodes' names is taken. */
  lemma AddExactly(net: Net, id: CentreId, centre: Centre)
    ensures Apply(net, AddCentre(id, centre)).Done?
       <==> forall c, n :: c in net && n in net[c].nodes ==> n !in centre.nodes
    ensures var net' := After(net, AddCentre(id, centre));
            if Apply(net, AddCentre(id, centre)).Done?
            then net'.Keys == net.Keys + {id} && net'[id] == centre && forall c :: c in net && c != id ==> net'[c] == net[c]
            else net' == net
  {
  }
}
