/** The network object: its loops over nodes and peers, each tied to the operation on values it carries out. */
module Network {
  import opened Prelude
  import opened Topology
  import opened Links
  import opened Routing
  import opened Bfs

  /** The elements of a set in some order; a hash map promises no particular one. */
  method Enumerate<T>(s: set<T>) returns (r: seq<T>)
    ensures NoDup(r) && Elems(r) == s
  {
    r := [];
    var left := s;
    while left != {}
      invariant NoDup(r) && Elems(r) + left == s && Elems(r) !! left
    {
      var x :| x in left;
      assert forall i :: 0 <= i < |r| ==> r[i] in Elems(r);
      assert Elems(r + [x]) == Elems(r) + {x};
      r := r + [x];
      left := left - {x};
    }
  }

  /** `min_by_key` over the live nodes outside `except`, in hash-map order. */
  method Best(c: Centre, except: set<NodeId>) returns (r: Option<NodeId>)
    ensures match r case None => Live(c) - except == {} case Some(n) => IsBest(c, except, n)
  {
    var order := Enumerate(Live(c) - except);
    if order == [] {
      assert Elems(order) == {};
      return None;
    }
    assert forall i :: 0 <= i < |order| ==> order[i] in Elems(order);
    var best := order[0];
    for i := 1 to |order|
      invariant best in Elems(order)
      invariant forall j :: 0 <= j < i ==> c.nodes[best].score <= c.nodes[order[j]].score
    {
      if c.nodes[order[i]].score < c.nodes[best].score {
        best := order[i];
      }
    }
    assert forall n :: n in Live(c) && n !in except ==> n in Elems(order);
    r := Some(best);
  }

  // ---- how single insertions add up ----

  lemma TeachNone(c: Centre, s: set<NodeId>)
    ensures Teach(c, {}, s) == c && Teach(c, s, {}) == c
  {
    forall n | n in c.nodes
      ensures Teach(c, s, {}).nodes[n] == c.nodes[n]
    {
      assert c.nodes[n].peers + {} == c.nodes[n].peers;
    }
    assert Teach(c, {}, s).nodes == c.nodes && Teach(c, s, {}).nodes == c.nodes;
  }

  lemma TeachPeers(c: Centre, who: set<NodeId>, p: set<NodeId>, q: set<NodeId>)
    ensures Teach(Teach(c, who, p), who, q) == Teach(c, who, p + q)
  {
    forall n | n in c.nodes
      ensures Teach(Teach(c, who, p), who, q).nodes[n] == Teach(c, who, p + q).nodes[n]
    {
      assert c.nodes[n].peers + p + q == c.nodes[n].peers + (p + q);
    }
    assert Teach(Teach(c, who, p), who, q).nodes == Teach(c, who, p + q).nodes;
  }

  lemma TeachWho(c: Centre, v: set<NodeId>, w: set<NodeId>, peers: set<NodeId>)
    ensures Teach(Teach(c, v, peers), w, peers) == Teach(c, v + w, peers)
  {
    assert Teach(Teach(c, v, peers), w, peers).nodes == Teach(c, v + w, peers).nodes;
  }

  lemma MeshNone(c: Centre, live: set<NodeId>)
    ensures c.(nodes := WithPeers(c.nodes, {}, live)) == c
  {
    assert WithPeers(c.nodes, {}, live) == c.nodes;
  }

  lemma MeshMore(c: Centre, seen: set<NodeId>, x: NodeId, live: set<NodeId>)
    ensures Teach(c.(nodes := WithPeers(c.nodes, seen, live)), {x}, live - {x})
         == c.(nodes := WithPeers(c.nodes, seen + {x}, live))
  {
    var l := Teach(c.(nodes := WithPeers(c.nodes, seen, live)), {x}, live - {x}).nodes;
    var r := WithPeers(c.nodes, seen + {x}, live);
    forall n | n in c.nodes
      ensures l[n] == r[n]
    {
      if n == x && n in seen {
        assert c.nodes[n].peers + (live - {n}) + (live - {x}) == c.nodes[n].peers + (live - {n});
      }
    }
    assert l == r;
  }

  function AddPeer(net: Net, id: CentreId, n: NodeId, peer: NodeId): Net
    requires id in net && n in net[id].nodes
  {
    net[id := net[id].(nodes := net[id].nodes[n := net[id].nodes[n].(peers := net[id].nodes[n].peers + {peer})])]
  }

  lemma AddPeerTeaches(net: Net, id: CentreId, n: NodeId, peer: NodeId)
    requires id in net && n in net[id].nodes
    ensures AddPeer(net, id, n, peer) == net[id := Teach(net[id], {n}, {peer})]
  {
    assert AddPeer(net, id, n, peer)[id].nodes == Teach(net[id], {n}, {peer}).nodes;
  }

  lemma ElemsSnoc<T>(s: seq<T>, i: nat)
    requires i < |s|
    ensures Elems(s[..i + 1]) == Elems(s[..i]) + {s[i]} && s[i] in Elems(s)
  {
    assert s[..i + 1] == s[..i] + [s[i]];
  }

  lemma PushTeach(c: Centre, who: set<NodeId>, peers: set<NodeId>, other: CentreId, relay: NodeId)
    requires other in c.linkState
    ensures Teach(PushRelay(c, other, relay), who, peers) == PushRelay(Teach(c, who, peers), other, relay)
  {
  }

  lemma LinksJoin(net: Net, a: CentreId, b: CentreId, left: set<NodeId>, right: set<NodeId>, link: Link)
    requires a in net && b in net && a != b
    ensures var taught := net[a := Teach(net[a], left, right)][b := Teach(net[b], right, left)];
            var near := taught[a := SetLink(taught[a], b, link)];
            near[b := SetLink(near[b], a, link)] == Joined(net, a, b, left, right, link)
  {
    hide Teach;
  }

  class AweNet {
    var centres: Net

    constructor ()
      ensures centres == map[]
    {
      centres := map[];
    }

    method AddCentre(id: CentreId, c: Centre) returns (r: Outcome)
      modifies this
      ensures r == ApplyAdd(old(centres), id, c)
      ensures centres == if r.Done? then r.net else old(centres)
    {
      var left := centres.Keys;
      while left != {}
        invariant left <= centres.Keys && centres == old(centres)
        invariant forall e :: e in centres && e !in left ==> forall n :: n in c.nodes ==> n !in centres[e].nodes
      {
        var e :| e in left;
        if exists n :: n in c.nodes && n in centres[e].nodes {
          return Refused(DuplicateNode);
        }
        left := left - {e};
      }
      centres := centres[id := c];
      r := Done(centres);
    }

    method MarkNode(id: CentreId, node: NodeId, alive: bool) returns (r: Outcome)
      modifies this
      ensures r == ApplyMark(old(centres), id, node, alive)
      ensures centres == if r.Done? then r.net else old(centres)
    {
      if id !in centres || node !in centres[id].nodes {
        return Refused(NodeNotFound);
      }
      var c := centres[id];
      centres := centres[id := c.(nodes := c.nodes[node := c.nodes[node].(alive := alive)])];
      r := Done(centres);
    }

    method ConnectCentres(a: CentreId, b: CentreId, mode: Mode)
      returns (r: Outcome, ghost order: seq<NodeId>, ghost target: NodeId)
      modifies this
      ensures Allowed(old(centres), Connect(a, b, mode, order, target))
      ensures r == ApplyConnect(old(centres), a, b, mode, order, target)
      ensures centres == if r.Done? then r.net else old(centres)
    {
      hide Teach, SetLink, Joined;
      order, target := [], "";
      if a == b || a !in centres || b !in centres {
        return Refused(InvalidPair), order, target;
      }
      var left := Enumerate(Live(centres[a]));
      var right := Enumerate(Live(centres[b]));
      if left == [] || right == [] {
        assert Elems(left) == {} || Elems(right) == {};
        return Refused(NoLiveNodes), order, target;
      }
      assert left[0] in Elems(left) && right[0] in Elems(right);
      var relays;
      match mode {
        case FullMesh =>
          TeachAcross(a, b, left, right);
          relays, order := left, left;
        case Relay(relay) =>
          if relay !in left {
            assert relay !in Elems(left);
            return Refused(RelayUnavailable), order, target;
          }
          assert relay in Elems(left);
          target := Introduce(a, b, relay);
          relays := [relay];
      }
      var link := Link(mode, relays, true);
      ghost var ls := if mode.FullMesh? then Elems(left) else {mode.relay};
      ghost var rs := if mode.FullMesh? then Elems(right) else {target};
      assert centres == old(centres)[a := Teach(old(centres)[a], ls, rs)][b := Teach(old(centres)[b], rs, ls)];
      LinksJoin(old(centres), a, b, ls, rs, link);
      centres := centres[a := SetLink(centres[a], b, link)];
      centres := centres[b := SetLink(centres[b], a, link)];
      assert centres == Joined(old(centres), a, b, ls, rs, link);
      r := Done(centres);
    }

    /** The relay and the best node of the other centre learn each other. */
    method Introduce(a: CentreId, b: CentreId, relay: NodeId) returns (ghost target: NodeId)
      requires a != b && a in centres && b in centres && relay in centres[a].nodes && Live(centres[b]) != {}
      modifies this
      ensures IsBest(old(centres)[b], {}, target)
      ensures centres == old(centres)[a := Teach(old(centres)[a], {relay}, {target})]
                                     [b := Teach(old(centres)[b], {target}, {relay})]
    {
      hide Teach, AddPeer;
      assert Live(centres[b]) - {} == Live(centres[b]);
      var best := Best(centres[b], {});
      target := best.value;
      AddPeerTeaches(centres, a, relay, best.value);
      centres := AddPeer(centres, a, relay, best.value);
      AddPeerTeaches(centres, b, best.value, relay);
      centres := AddPeer(centres, b, best.value, relay);
    }

    /** Every listed node of `a` and every listed node of `b` learn each other, one insertion at a time. */
    method TeachAcross(a: CentreId, b: CentreId, left: seq<NodeId>, right: seq<NodeId>)
      requires a != b && a in centres && b in centres
      requires Elems(left) <= centres[a].nodes.Keys && Elems(right) <= centres[b].nodes.Keys
      modifies this
      ensures centres == old(centres)[a := Teach(old(centres)[a], Elems(left), Elems(right))]
                                     [b := Teach(old(centres)[b], Elems(right), Elems(left))]
    {
      hide Teach;
      ghost var net, ca, cb, rs := centres, centres[a], centres[b], Elems(right);
      TeachNone(ca, rs);
      TeachNone(cb, rs);
      assert Elems(left[..0]) == {};
      assert net[a := ca][b := cb] == net;
      for i := 0 to |left|
        invariant centres == net[a := Teach(ca, Elems(left[..i]), rs)][b := Teach(cb, rs, Elems(left[..i]))]
      {
        var x := left[i];
        ghost var da, db := centres[a], centres[b];
        ElemsSnoc(left, i);
        TeachShape(ca, Elems(left[..i]), rs);
        TeachShape(cb, rs, Elems(left[..i]));
        TeachOne(a, b, x, right);
        TeachWho(ca, Elems(left[..i]), {x}, rs);
        TeachPeers(cb, rs, Elems(left[..i]), {x});
      }
      assert left[..|left|] == left;
    }

    method TeachOne(a: CentreId, b: CentreId, x: NodeId, right: seq<NodeId>)
      requires a != b && a in centres && b in centres
      requires x in centres[a].nodes && Elems(right) <= centres[b].nodes.Keys
      modifies this
      ensures centres == old(centres)[a := Teach(old(centres)[a], {x}, Elems(right))]
                                     [b := Teach(old(centres)[b], Elems(right), {x})]
    {
      hide Teach, AddPeer;
      ghost var net, ca, cb := centres, centres[a], centres[b];
      TeachNone(ca, {x});
      TeachNone(cb, {x});
      assert Elems(right[..0]) == {};
      assert net[a := ca][b := cb] == net;
      for j := 0 to |right|
        invariant centres == net[a := Teach(ca, {x}, Elems(right[..j]))][b := Teach(cb, Elems(right[..j]), {x})]
      {
        var y := right[j];
        ElemsSnoc(right, j);
        TeachShape(ca, {x}, Elems(right[..j]));
        TeachShape(cb, Elems(right[..j]), {x});
        AddPeerTeaches(centres, a, x, y);
        centres := AddPeer(centres, a, x, y);
        AddPeerTeaches(centres, b, y, x);
        centres := AddPeer(centres, b, y, x);
        TeachPeers(ca, {x}, Elems(right[..j]), {y});
        TeachWho(cb, Elems(right[..j]), {y}, {x});
      }
      assert right[..|right|] == right;
    }

    method FullMesh(id: CentreId)
      requires id in centres
      modifies this
      ensures centres == old(centres)[id := MeshCentre(old(centres)[id])]
    {
      ghost var net, c, live := centres, centres[id], Live(centres[id]);
      var ids := Enumerate(Live(centres[id]));
      MeshNone(c, live);
      assert Elems(ids[..0]) == {};
      assert net[id := c] == net;
      for i := 0 to |ids|
        invariant centres == net[id := c.(nodes := WithPeers(c.nodes, Elems(ids[..i]), live))]
      {
        var x := ids[i];
        ghost var seen := Elems(ids[..i]);
        ElemsSnoc(ids, i);
        MeshNode(id, x, ids);
        MeshMore(c, seen, x, live);
      }
      assert ids[..|ids|] == ids;
    }

    /** Node `x` learns every listed node but itself. */
    method MeshNode(id: CentreId, x: NodeId, ids: seq<NodeId>)
      requires id in centres && x in centres[id].nodes
      modifies this
      ensures centres == old(centres)[id := Teach(old(centres)[id], {x}, Elems(ids) - {x})]
    {
      ghost var net, c := centres, centres[id];
      TeachNone(c, {x});
      assert Elems(ids[..0]) - {x} == {};
      assert net[id := c] == net;
      for j := 0 to |ids|
        invariant centres == net[id := Teach(c, {x}, Elems(ids[..j]) - {x})]
      {
        var y := ids[j];
        ElemsSnoc(ids, j);
        if x != y {
          AddPeerTeaches(centres, id, x, y);
          TeachPeers(c, {x}, Elems(ids[..j]) - {x}, {y});
          assert Elems(ids[..j]) - {x} + {y} == Elems(ids[..j + 1]) - {x};
          centres := AddPeer(centres, id, x, y);
        } else {
          assert Elems(ids[..j]) - {x} == Elems(ids[..j + 1]) - {x};
        }
      }
      assert ids[..|ids|] == ids;
    }

    method FailoverRelay(a: CentreId, b: CentreId)
      returns (r: Outcome, ghost candidate: NodeId, ghost target: NodeId)
      modifies this
      ensures Allowed(old(centres), Failover(a, b, candidate, target))
      ensures r == ApplyFailover(old(centres), a, b, candidate, target)
      ensures !r.Panic? ==> centres == if r.Done? then r.net else old(centres)
    {
      candidate, target := "", "";
      if a !in centres || b !in centres[a].linkState {
        return Refused(LinkNotFound), candidate, target;
      }
      var state := centres[a].linkState[b];
      var chosen := Best(centres[a], Elems(state.relays));
      if chosen.None? {
        return Refused(NoHealthyRelay), candidate, target;
      }
      candidate := chosen.value;
      assert candidate in Live(centres[a]) - Elems(state.relays);
      if b !in centres {
        return Panic, candidate, target;
      }
      var far := Best(centres[b], {});
      if far.None? {
        return Refused(TargetDead), candidate, target;
      }
      target := far.value;
      assert target in Live(centres[b]);
      var bridged := Bridge(a, b, chosen.value, far.value);
      r := if bridged then Done(centres) else Panic;
    }

    /** The four writes of a failover; false where the record on the far side is missing. */
    method Bridge(a: CentreId, b: CentreId, candidate: NodeId, target: NodeId) returns (ok: bool)
      requires a in centres && b in centres[a].linkState && b in centres && FailoverRefusal(centres, a, b).None?
      requires candidate in centres[a].nodes && target in centres[b].nodes
      modifies this
      ensures if ok then ApplyFailover(old(centres), a, b, candidate, target) == Done(centres)
              else ApplyFailover(old(centres), a, b, candidate, target) == Panic
    {
      hide Teach, AddPeer, FailoverRefusal;
      TeachShape(centres[a], {candidate}, {target});
      TeachShape(centres[b], {target}, {candidate});
      TeachShape(Teach(centres[a], {candidate}, {target}), {target}, {candidate});
      PushTeach(Teach(centres[a], {candidate}, {target}), {target}, {candidate}, b, candidate);
      AddPeerTeaches(centres, a, candidate, target);
      centres := AddPeer(centres, a, candidate, target);
      AddPeerTeaches(centres, b, target, candidate);
      centres := AddPeer(centres, b, target, candidate);
      centres := centres[a := PushRelay(centres[a], b, candidate)];
      if a !in centres[b].linkState {
        return false;
      }
      centres := centres[b := PushRelay(centres[b], a, candidate)];
      ok := true;
    }

    /** The adjacency table of live nodes, gathered centre by centre and node by node in any order. */
    method Adjacency() returns (adj: map<NodeId, seq<NodeId>>)
      ensures Tabulates(centres, adj)
    {
      adj := map[];
      var order := Enumerate(centres.Keys);
      ghost var done: set<CentreId> := {};
      for i := 0 to |order|
        invariant done == Elems(order[..i])
        invariant forall n, m :: Edge(adj, n, m) <==> IsLive(centres, m) && KnownIn(done, {}, "", n, m)
      {
        ElemsSnoc(order, i);
        var id := order[i];
        var nodes := Enumerate(Live(centres[id]));
        ghost var seen: set<NodeId> := {};
        for k := 0 to |nodes|
          invariant seen == Elems(nodes[..k])
          invariant forall n, m :: Edge(adj, n, m) <==> IsLive(centres, m) && KnownIn(done, seen, id, n, m)
        {
          ElemsSnoc(nodes, k);
          var n := nodes[k];
          var peers := LivePeers(centres[id].nodes[n].peers);
          var known := if n in adj then adj[n] else [];
          ghost var before := adj;
          adj := adj[n := known + peers];
          forall u, v
            ensures Edge(adj, u, v) <==> Edge(before, u, v) || (u == n && v in Elems(peers))
          {
          }
          seen := seen + {n};
        }
        assert nodes[..|nodes|] == nodes;
        done := done + {id};
      }
      assert order[..|order|] == order;
    }

    /** `m` is a peer of live node `n` in one of the finished centres, or among the finished nodes of centre `id`. */
    ghost predicate KnownIn(done: set<CentreId>, seen: set<NodeId>, id: CentreId, n: NodeId, m: NodeId)
      reads this
    {
      || (exists c :: c in done && c in centres && n in Live(centres[c]) && m in centres[c].nodes[n].peers)
      || (id in centres && n in seen && n in centres[id].nodes && m in centres[id].nodes[n].peers)
    }

    method LivePeers(peers: set<NodeId>) returns (r: seq<NodeId>)
      ensures forall p :: p in Elems(r) <==> p in peers && IsLive(centres, p)
    {
      var order := Enumerate(peers);
      r := [];
      for i := 0 to |order|
        invariant forall p :: p in Elems(r) <==> p in Elems(order[..i]) && IsLive(centres, p)
      {
        ElemsSnoc(order, i);
        var p := order[i];
        var live := exists c :: c in centres && p in Live(centres[c]);
        if live {
          assert Elems(r + [p]) == Elems(r) + {p};
          r := r + [p];
        }
      }
      assert order[..|order|] == order;
    }

    method Route(src: NodeId, dst: NodeId) returns (r: Option<seq<NodeId>>)
      ensures RouteCorrect(centres, src, dst, r)
    {
      var adj := Adjacency();
      r := Bfs.Route(adj, src, dst);
      TableRouteCorrect(centres, adj, src, dst, r);
    }
  }
}
