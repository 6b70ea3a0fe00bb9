/** Routes over live nodes, and why a relay failover restores them. */
module Routing {
  import opened Prelude
  import opened Topology
  import opened Links
  import opened Bfs

  ghost predicate IsLive(net: Net, n: NodeId) {
    exists c :: c in net && n in Live(net[c])
  }

  /** `m` is a peer of a live node named `n`, and live itself. */
  ghost predicate Hop(net: Net, n: NodeId, m: NodeId) {
    IsLive(net, m) && exists c :: c in net && n in Live(net[c]) && m in net[c].nodes[n].peers
  }

  ghost predicate NetPath(net: Net, src: NodeId, dst: NodeId, p: seq<NodeId>) {
    && |p| >= 1 && p[0] == src && p[|p| - 1] == dst
    && forall i :: 0 <= i < |p| - 1 ==> Hop(net, p[i], p[i + 1])
  }

  /** What `route` owes its caller. */
  ghost predicate RouteCorrect(net: Net, src: NodeId, dst: NodeId, r: Option<seq<NodeId>>) {
    match r
    case None => forall p :: !NetPath(net, src, dst, p)
    case Some(best) =>
      && NetPath(net, src, dst, best) && NoDup(best)
      && (src != dst ==> forall n :: n in best ==> IsLive(net, n))
      && forall p :: NetPath(net, src, dst, p) ==> |best| <= |p|
  }

  ghost predicate Tabulates(net: Net, adj: map<NodeId, seq<NodeId>>) {
    forall n, m :: Edge(adj, n, m) <==> Hop(net, n, m)
  }

  lemma PathsMatch(net: Net, adj: map<NodeId, seq<NodeId>>, src: NodeId, dst: NodeId, p: seq<NodeId>)
    requires Tabulates(net, adj)
    ensures PathFromTo(adj, src, dst, p) <==> NetPath(net, src, dst, p)
  {
    hide Edge, Hop;
    if NetPath(net, src, dst, p) {
      forall i | 0 <= i < |p| - 1
        ensures Edge(adj, p[i], p[i + 1])
      {
        assert Hop(net, p[i], p[i + 1]);
      }
    }
    if PathFromTo(adj, src, dst, p) {
      forall i | 0 <= i < |p| - 1
        ensures Hop(net, p[i], p[i + 1])
      {
        assert Edge(adj, p[i], p[i + 1]);
      }
    }
  }

  lemma HopLive(net: Net, n: NodeId, m: NodeId)
    requires Hop(net, n, m)
    ensures IsLive(net, n) && IsLive(net, m)
  {
  }

  lemma PathLive(net: Net, src: NodeId, dst: NodeId, p: seq<NodeId>)
    requires NetPath(net, src, dst, p) && src != dst
    ensures forall n :: n in p ==> IsLive(net, n)
  {
    hide Hop, IsLive;
    forall i | 0 <= i < |p|
      ensures IsLive(net, p[i])
    {
      if i + 1 < |p| {
        HopLive(net, p[i], p[i + 1]);
      } else {
        assert Hop(net, p[i - 1], p[i - 1 + 1]);
        HopLive(net, p[i - 1], p[i]);
      }
    }
  }

  /** A shortest route of the table is a correct route of the network. */
  lemma TableRouteCorrect(net: Net, adj: map<NodeId, seq<NodeId>>, src: NodeId, dst: NodeId, r: Option<seq<NodeId>>)
    requires Tabulates(net, adj) && ShortestRoute(adj, src, dst, r)
    ensures RouteCorrect(net, src, dst, r)
  {
    hide PathFromTo, NetPath, Tabulates;
    forall p
      ensures PathFromTo(adj, src, dst, p) <==> NetPath(net, src, dst, p)
    {
      PathsMatch(net, adj, src, dst, p);
    }
    if r.Some? && src != dst {
      PathLive(net, src, dst, r.value);
    }
  }

  // ---- failover ----

  ghost predicate Meshed(c: Centre) {
    forall n, m :: n in Live(c) && m in Live(c) && n != m ==> m in c.nodes[n].peers
  }

  ghost predicate PeersKept(c: Centre, c': Centre) {
    && c'.nodes.Keys == c.nodes.Keys
    && forall n :: n in c.nodes ==> c.nodes[n].peers <= c'.nodes[n].peers
  }

  lemma TeachKeeps(c: Centre, who: set<NodeId>, peers: set<NodeId>)
    ensures PeersKept(c, Teach(c, who, peers))
    ensures Live(Teach(c, who, peers)) == Live(c)
  {
  }

  lemma StepKeepsPeers(net: Net, op: Op, id: CentreId)
    requires id in net && Allowed(net, op)
    ensures id in After(net, op) && PeersKept(net[id], After(net, op)[id])
  {
    if Apply(net, op).Done? {
      match op
      case Connect(a, b, mode, _, target) =>
        var left := if mode.FullMesh? then Live(net[a]) else {mode.relay};
        var right := if mode.FullMesh? then Live(net[b]) else {target};
        TeachKeeps(net[a], left, right);
        TeachKeeps(net[b], right, left);
      case Failover(a, b, candidate, target) => FailoverKeepsPeers(net, a, b, candidate, target, id);
      case _ =>
    }
  }

  lemma FailoverKeepsPeers(net: Net, a: CentreId, b: CentreId, candidate: NodeId, target: NodeId, id: CentreId)
    requires ApplyFailover(net, a, b, candidate, target).Done? && id in net
    ensures var net' := ApplyFailover(net, a, b, candidate, target).net; id in net' && PeersKept(net[id], net'[id])
  {
    TeachKeeps(net[a], {candidate}, {target});
    var near := PushRelay(Teach(net[a], {candidate}, {target}), b, candidate);
    TeachKeeps(if a == b then near else net[b], {target}, {candidate});
  }

  lemma {:induction false} RunKeepsPeers(net: Net, ops: seq<Op>, id: CentreId)
    requires id in net && AllowedRun(net, ops)
    ensures id in Run(net, ops) && PeersKept(net[id], Run(net, ops)[id])
  {
    if ops != [] {
      hide Allowed, Apply;
      RunKeepsPeers(net, ops[..|ops| - 1], id);
      StepKeepsPeers(Run(net, ops[..|ops| - 1]), ops[|ops| - 1], id);
    }
  }

  /** A centre stays fully meshed as long as no node is live that was not live when it was meshed. */
  lemma MeshPersists(net: Net, ops: seq<Op>, id: CentreId)
    requires id in net && AllowedRun(After(net, Mesh(id)), ops)
    requires var now := Run(After(net, Mesh(id)), ops); id in now ==> Live(now[id]) <= Live(net[id])
    ensures var now := Run(After(net, Mesh(id)), ops); id in now && Meshed(now[id])
  {
    var meshed := After(net, Mesh(id));
    RunKeepsPeers(meshed, ops, id);
    hide AllowedRun, Run;
    assert Meshed(meshed[id]);
    assert Live(meshed[id]) == Live(net[id]);
  }

  /** The two centres are complete, and one live node of each knows the other. */
  ghost predicate Bridged(net: Net, a: CentreId, b: CentreId, x: NodeId, y: NodeId) {
    && a in net && b in net && Meshed(net[a]) && Meshed(net[b])
    && x in Live(net[a]) && y in Live(net[b])
    && y in net[a].nodes[x].peers && x in net[b].nodes[y].peers
  }

  lemma FailoverBridges(net: Net, a: CentreId, b: CentreId, candidate: NodeId, target: NodeId)
    requires a in net && b in net && a != b && Meshed(net[a]) && Meshed(net[b])
    requires Allowed(net, Failover(a, b, candidate, target)) && Apply(net, Failover(a, b, candidate, target)).Done?
    ensures Bridged(After(net, Failover(a, b, candidate, target)), a, b, candidate, target)
  {
    TeachKeeps(net[a], {candidate}, {target});
    TeachKeeps(net[b], {target}, {candidate});
  }

  lemma MeshHop(net: Net, c: CentreId, n: NodeId, m: NodeId)
    requires c in net && Meshed(net[c]) && n in Live(net[c]) && m in Live(net[c]) && n != m
    ensures Hop(net, n, m)
  {
  }

  lemma BridgeHops(net: Net, a: CentreId, b: CentreId, x: NodeId, y: NodeId)
    requires Bridged(net, a, b, x, y)
    ensures Hop(net, x, y) && Hop(net, y, x)
  {
  }

  function Via(n: NodeId, x: NodeId, y: NodeId, m: NodeId): seq<NodeId> {
    (if n == x then [x] else [n, x]) + (if m == y then [y] else [y, m])
  }

  lemma BridgedPath(net: Net, a: CentreId, b: CentreId, x: NodeId, y: NodeId, n: NodeId, m: NodeId)
    requires Bridged(net, a, b, x, y) && n in Live(net[a]) && m in Live(net[b])
    ensures NetPath(net, n, m, Via(n, x, y, m)) && NetPath(net, m, n, Via(m, y, x, n))
  {
    BridgeHops(net, a, b, x, y);
    assert a in net && b in net && Meshed(net[a]) && Meshed(net[b]) && x in Live(net[a]) && y in Live(net[b]);
    hide Hop, Bridged, Live, Meshed;
    if n != x {
      MeshHop(net, a, n, x);
      MeshHop(net, a, x, n);
    }
    if m != y {
      MeshHop(net, b, m, y);
      MeshHop(net, b, y, m);
    }
  }

  /**
   * Suppose `a` and `b` were each fully meshed at some time (from `netA` and `netB` on, `opsA` and `opsB` lead to `net`)
   * while every node of theirs that is live in `net` was live. Whatever happened in between, a successful failover of
   * their link leaves a route of at most four nodes between any live node of one and any live node of the other, and
   * `route` finds it, in both directions.
   */
  lemma FailoverRestoresRoutes(
      netA: Net, opsA: seq<Op>, netB: Net, opsB: seq<Op>, net: Net, a: CentreId, b: CentreId,
      candidate: NodeId, target: NodeId, n: NodeId, m: NodeId,
      there: Option<seq<NodeId>>, back: Option<seq<NodeId>>)
    requires a in netA && AllowedRun(After(netA, Mesh(a)), opsA) && net == Run(After(netA, Mesh(a)), opsA)
    requires b in netB && AllowedRun(After(netB, Mesh(b)), opsB) && net == Run(After(netB, Mesh(b)), opsB)
    requires a in net ==> Live(net[a]) <= Live(netA[a])
    requires b in net ==> Live(net[b]) <= Live(netB[b])
    requires TwoSided(net)
    requires Allowed(net, Failover(a, b, candidate, target)) && Apply(net, Failover(a, b, candidate, target)).Done?
    requires var net' := After(net, Failover(a, b, candidate, target));
             && a in net' && b in net' && n in Live(net'[a]) && m in Live(net'[b])
             && RouteCorrect(net', n, m, there) && RouteCorrect(net', m, n, back)
    ensures there.Some? && |there.value| <= 4 && back.Some? && |back.value| <= 4
  {
    var net' := After(net, Failover(a, b, candidate, target));
    MeshPersists(netA, opsA, a);
    MeshPersists(netB, opsB, b);
    hide AllowedRun, Run;
    assert LinkOk(net, a, b);
    FailoverBridges(net, a, b, candidate, target);
    hide Allowed, Apply, Bridged, Live;
    BridgedPath(net', a, b, candidate, target, n, m);
  }
}
