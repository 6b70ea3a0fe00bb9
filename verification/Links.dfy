/** The two-sided link records of the data centres, over every run of network operations. */
module Links {
  import opened Prelude
  import opened Topology

  ghost predicate LinkOk(net: Net, a: CentreId, b: CentreId)
    requires a in net && b in net[a].linkState
  {
    && a != b && b in net && a in net[b].linkState
    && net[b].linkState[a].relays == net[a].linkState[b].relays
    && NoDup(net[a].linkState[b].relays)
    && Elems(net[a].linkState[b].relays) <= net[a].nodes.Keys + net[b].nodes.Keys
  }

  /** `a` lists `b` exactly when `b` lists `a`, and both hold the same duplicate-free relays from the two centres. */
  ghost predicate TwoSided(net: Net) {
    forall a :: a in net ==>
      && net[a].links == net[a].linkState.Keys
      && forall b :: b in net[a].linkState ==> LinkOk(net, a, b)
  }

  /** The two nets have the same centres, with the same nodes, apart from fields of the nodes. */
  ghost predicate SameShape(net: Net, net': Net) {
    && net'.Keys == net.Keys
    && forall c :: c in net ==> net'[c].nodes.Keys == net[c].nodes.Keys
  }

  ghost predicate SameLinks(net: Net, net': Net) {
    && SameShape(net, net')
    && forall c :: c in net ==> net'[c].links == net[c].links && net'[c].linkState == net[c].linkState
  }

  lemma SameLinksTwoSided(net: Net, net': Net)
    requires TwoSided(net) && SameLinks(net, net')
    ensures TwoSided(net')
  {
    forall a, b | a in net' && b in net'[a].linkState
      ensures LinkOk(net', a, b)
    {
      assert LinkOk(net, a, b);
    }
  }

  /** Only the record between `a` and `b` changed, to the same relays on both sides. */
  ghost predicate Relinked(net: Net, net': Net, a: CentreId, b: CentreId, relays: seq<NodeId>) {
    && a != b && a in net && b in net
    && SameShape(net, net')
    && (forall c :: c in net && c != a && c != b ==>
          net'[c].links == net[c].links && net'[c].linkState == net[c].linkState)
    && net'[a].links == net[a].links + {b} && net'[a].linkState.Keys == net[a].linkState.Keys + {b}
    && net'[b].links == net[b].links + {a} && net'[b].linkState.Keys == net[b].linkState.Keys + {a}
    && (forall c :: c in net[a].linkState && c != b ==> net'[a].linkState[c] == net[a].linkState[c])
    && (forall c :: c in net[b].linkState && c != a ==> net'[b].linkState[c] == net[b].linkState[c])
    && net'[a].linkState[b].relays == relays && net'[b].linkState[a].relays == relays
  }

  lemma RelinkedLink(
      net: Net, net': Net, a: CentreId, b: CentreId, relays: seq<NodeId>, c: CentreId, e: CentreId)
    requires TwoSided(net) && Relinked(net, net', a, b, relays)
    requires NoDup(relays) && Elems(relays) <= net[a].nodes.Keys + net[b].nodes.Keys
    requires c in net' && e in net'[c].linkState
    ensures LinkOk(net', c, e)
  {
    hide NoDup, Elems;
    if c == a && e == b {
    } else if c == b && e == a {
    } else {
      assert e in net[c].linkState by {
        assert c == a || c == b || net'[c].linkState == net[c].linkState;
      }
      assert LinkOk(net, c, e);
      RecordKept(net, net', a, b, relays, c, e);
      RecordKept(net, net', a, b, relays, e, c);
    }
  }

  lemma RecordKept(net: Net, net': Net, a: CentreId, b: CentreId, relays: seq<NodeId>, c: CentreId, e: CentreId)
    requires Relinked(net, net', a, b, relays)
    requires c in net && e in net[c].linkState && (c, e) != (a, b) && (c, e) != (b, a)
    ensures e in net'[c].linkState && net'[c].linkState[e] == net[c].linkState[e]
  {
  }

  lemma RelinkedTwoSided(net: Net, net': Net, a: CentreId, b: CentreId, relays: seq<NodeId>)
    requires TwoSided(net) && Relinked(net, net', a, b, relays)
    requires NoDup(relays) && Elems(relays) <= net[a].nodes.Keys + net[b].nodes.Keys
    ensures TwoSided(net')
  {
    hide LinkOk, NoDup, Elems;
    forall c, e | c in net' && e in net'[c].linkState
      ensures LinkOk(net', c, e)
    {
      RelinkedLink(net, net', a, b, relays, c, e);
    }
    assert net[a].links == net[a].linkState.Keys && net[b].links == net[b].linkState.Keys;
  }

  lemma AddTwoSided(net: Net, id: CentreId, c: Centre)
    requires TwoSided(net) && id !in net && c.links == {} && c.linkState == map[]
    ensures TwoSided(net[id := c])
  {
    var net' := net[id := c];
    forall a, b | a in net' && b in net'[a].linkState
      ensures LinkOk(net', a, b)
    {
      assert LinkOk(net, a, b);
    }
  }

  lemma TeachShape(c: Centre, who: set<NodeId>, peers: set<NodeId>)
    ensures Teach(c, who, peers).nodes.Keys == c.nodes.Keys
    ensures Teach(c, who, peers).links == c.links && Teach(c, who, peers).linkState == c.linkState
  {
  }

  lemma JoinedRelinked(net: Net, a: CentreId, b: CentreId, left: set<NodeId>, right: set<NodeId>, link: Link)
    requires a in net && b in net && a != b
    ensures Relinked(net, Joined(net, a, b, left, right, link), a, b, link.relays)
  {
    hide Teach;
    TeachShape(net[a], left, right);
    TeachShape(net[b], right, left);
  }

  lemma ConnectRelinks(net: Net, op: Op)
    requires op.Connect? && Apply(net, op).Done?
    ensures Relinked(net, After(net, op), op.a, op.b, if op.mode.FullMesh? then op.order else [op.mode.relay])
  {
    hide Joined, Relinked;
    var left := if op.mode.FullMesh? then Live(net[op.a]) else {op.mode.relay};
    var right := if op.mode.FullMesh? then Live(net[op.b]) else {op.target};
    var link := Link(op.mode, if op.mode.FullMesh? then op.order else [op.mode.relay], true);
    JoinedRelinked(net, op.a, op.b, left, right, link);
  }

  lemma FailoverRelinks(net: Net, a: CentreId, b: CentreId, candidate: NodeId, target: NodeId)
    requires a in net && b in net[a].linkState && LinkOk(net, a, b) && net[b].links == net[b].linkState.Keys
    requires net[a].links == net[a].linkState.Keys
    ensures var r := ApplyFailover(net, a, b, candidate, target);
            && r != Panic
            && (r.Done? ==> Relinked(net, r.net, a, b, net[a].linkState[b].relays + [candidate]))
  {
    hide Teach, IsBest, FailoverRefusal;
    TeachShape(net[a], {candidate}, {target});
    TeachShape(net[b], {target}, {candidate});
  }

  /** No unwrap of `failover_relay` fails while links are two-sided. */
  lemma NeverPanics(net: Net, op: Op)
    requires TwoSided(net)
    ensures Apply(net, op) != Panic
  {
    if op.Failover? {
      if op.a in net && op.b in net[op.a].linkState {
        assert LinkOk(net, op.a, op.b);
        hide TwoSided, LinkOk, Relinked, PushRelay, Teach, IsBest;
        FailoverRelinks(net, op.a, op.b, op.candidate, op.target);
      }
    } else {
      hide TwoSided;
    }
  }

  lemma FailoverStep(net: Net, op: Op)
    requires op.Failover? && Apply(net, op).Done? && TwoSided(net)
    ensures op.a in net && op.b in net[op.a].linkState && LinkOk(net, op.a, op.b)
    ensures Relinked(net, After(net, op), op.a, op.b, net[op.a].linkState[op.b].relays + [op.candidate])
  {
    hide Relinked, PushRelay, Teach;
    assert LinkOk(net, op.a, op.b);
    FailoverRelinks(net, op.a, op.b, op.candidate, op.target);
  }

  /** The relay added is a node of `a` that was not a relay before. */
  lemma FailoverExtends(net: Net, op: Op)
    requires op.Failover? && Apply(net, op).Done? && Allowed(net, op)
    requires op.a in net && op.b in net[op.a].linkState && LinkOk(net, op.a, op.b)
    ensures var relays := net[op.a].linkState[op.b].relays + [op.candidate];
            NoDup(relays) && Elems(relays) <= net[op.a].nodes.Keys + net[op.b].nodes.Keys
  {
    hide Teach, PushRelay;
    var before := net[op.a].linkState[op.b].relays;
    assert op.candidate in net[op.a].nodes && op.candidate !in Elems(before);
    assert Elems(before + [op.candidate]) == Elems(before) + {op.candidate};
  }

  lemma FailoverTwoSided(net: Net, op: Op)
    requires op.Failover? && Apply(net, op).Done? && TwoSided(net) && Allowed(net, op)
    ensures TwoSided(After(net, op))
  {
    hide TwoSided, Relinked, PushRelay, Teach, LinkOk, Allowed, ApplyFailover;
    FailoverStep(net, op);
    FailoverExtends(net, op);
    RelinkedTwoSided(net, After(net, op), op.a, op.b, net[op.a].linkState[op.b].relays + [op.candidate]);
  }

  lemma ConnectTwoSided(net: Net, op: Op)
    requires op.Connect? && Apply(net, op).Done? && TwoSided(net) && Allowed(net, op)
    ensures TwoSided(After(net, op))
  {
    hide TwoSided, Relinked, Joined;
    ConnectRelinks(net, op);
    RelinkedTwoSided(net, After(net, op), op.a, op.b, if op.mode.FullMesh? then op.order else [op.mode.relay]);
  }

  lemma NodeStepSameLinks(net: Net, op: Op)
    requires op.Mesh? || op.Mark?
    ensures SameLinks(net, After(net, op))
  {
  }

  lemma StepTwoSided(net: Net, op: Op)
    requires TwoSided(net) && Allowed(net, op)
    ensures TwoSided(After(net, op))
  {
    hide TwoSided, SameLinks;
    if Apply(net, op).Done? {
      match op
      case AddCentre(id, c) => AddTwoSided(net, id, c);
      case Mesh(_) => NodeStepSameLinks(net, op); SameLinksTwoSided(net, After(net, op));
      case Mark(_, _, _) => NodeStepSameLinks(net, op); SameLinksTwoSided(net, After(net, op));
      case Connect(_, _, _, _, _) => ConnectTwoSided(net, op);
      case Failover(_, _, _, _) => FailoverTwoSided(net, op);
    }
  }

  /** Every network reachable from an empty one is two-sided, and no operation on it panics. */
  lemma {:induction false} RunTwoSided(ops: seq<Op>)
    requires AllowedRun(map[], ops)
    ensures TwoSided(Run(map[], ops))
    ensures forall op :: Apply(Run(map[], ops), op) != Panic
  {
    if ops != [] {
      RunTwoSided(ops[..|ops| - 1]);
      StepTwoSided(Run(map[], ops[..|ops| - 1]), ops[|ops| - 1]);
    }
    forall op
      ensures Apply(Run(map[], ops), op) != Panic
    {
      NeverPanics(Run(map[], ops), op);
    }
  }

  // ---- failovers are bounded ----

  predicate OnPair(op: Op, a: CentreId, b: CentreId) {
    (op.Connect? || op.Failover?) && ((op.a == a && op.b == b) || (op.a == b && op.b == a))
  }

  /** Successful failovers between the two centres along a run. */
  function Failovers(net: Net, ops: seq<Op>, a: CentreId, b: CentreId): nat {
    if ops == [] then 0
    else
      var before := Run(net, ops[..|ops| - 1]);
      var op := ops[|ops| - 1];
      Failovers(net, ops[..|ops| - 1], a, b)
        + (if op.Failover? && OnPair(op, a, b) && Apply(before, op).Done? then 1 else 0)
  }

  ghost predicate Reconnects(net: Net, ops: seq<Op>, a: CentreId, b: CentreId) {
    exists i :: 0 <= i < |ops| && ops[i].Connect? && OnPair(ops[i], a, b) && Apply(Run(net, ops[..i]), ops[i]).Done?
  }

  function RelayCount(net: Net, a: CentreId, b: CentreId): nat {
    if a in net && b in net[a].linkState then |net[a].linkState[b].relays| else 0
  }

  /** The relays of the pair after an operation, and the nodes of its centres. */
  ghost predicate PairGrew(net: Net, net': Net, a: CentreId, b: CentreId, more: nat) {
    && a in net && b in net[a].linkState && b in net && a in net' && b in net'[a].linkState && b in net'
    && net'[a].nodes.Keys == net[a].nodes.Keys && net'[b].nodes.Keys == net[b].nodes.Keys
    && RelayCount(net', a, b) == RelayCount(net, a, b) + more
  }

  lemma RelinkedElsewhere(net: Net, net': Net, c: CentreId, e: CentreId, relays: seq<NodeId>, a: CentreId, b: CentreId)
    requires Relinked(net, net', c, e, relays) && a in net && b in net[a].linkState && b in net
    requires !((c == a && e == b) || (c == b && e == a))
    ensures PairGrew(net, net', a, b, 0)
  {
  }

  lemma RelinkedHere(net: Net, net': Net, c: CentreId, e: CentreId, relay: NodeId, a: CentreId, b: CentreId)
    requires c in net && e in net[c].linkState && LinkOk(net, c, e)
    requires Relinked(net, net', c, e, net[c].linkState[e].relays + [relay]) && a in net && b in net[a].linkState
    requires (c == a && e == b) || (c == b && e == a)
    ensures PairGrew(net, net', a, b, 1)
  {
  }

  lemma FailoverRelayCount(net: Net, op: Op, a: CentreId, b: CentreId)
    requires op.Failover? && Apply(net, op).Done?
    requires TwoSided(net) && a in net && b in net[a].linkState && b in net
    ensures PairGrew(net, After(net, op), a, b, if OnPair(op, a, b) then 1 else 0)
  {
    hide TwoSided, Relinked, PairGrew, LinkOk, ApplyFailover;
    FailoverStep(net, op);
    if OnPair(op, a, b) {
      RelinkedHere(net, After(net, op), op.a, op.b, op.candidate, a, b);
    } else {
      RelinkedElsewhere(net, After(net, op), op.a, op.b, net[op.a].linkState[op.b].relays + [op.candidate], a, b);
    }
  }

  lemma NodeStepRelayCount(net: Net, op: Op, a: CentreId, b: CentreId)
    requires (op.Mesh? || op.Mark? || (op.AddCentre? && op.id !in net)) && a in net && b in net[a].linkState && b in net
    ensures PairGrew(net, After(net, op), a, b, 0)
  {
    if !op.AddCentre? {
      NodeStepSameLinks(net, op);
    }
  }

  lemma StepRelayCount(net: Net, op: Op, a: CentreId, b: CentreId)
    requires TwoSided(net) && Allowed(net, op) && a in net && b in net[a].linkState
    requires !(op.Connect? && OnPair(op, a, b) && Apply(net, op).Done?)
    ensures PairGrew(net, After(net, op), a, b, if op.Failover? && OnPair(op, a, b) && Apply(net, op).Done? then 1 else 0)
  {
    assert LinkOk(net, a, b);
    hide TwoSided, PairGrew, Relinked, Apply;
    if Apply(net, op).Done? {
      if op.Connect? {
        ConnectRelinks(net, op);
        RelinkedElsewhere(
          net, After(net, op), op.a, op.b, if op.mode.FullMesh? then op.order else [op.mode.relay], a, b);
      } else if op.Failover? {
        FailoverRelayCount(net, op, a, b);
      } else {
        NodeStepRelayCount(net, op, a, b);
      }
    } else {
      PairUnchanged(net, a, b);
    }
  }

  lemma PairUnchanged(net: Net, a: CentreId, b: CentreId)
    requires a in net && b in net[a].linkState && b in net
    ensures PairGrew(net, net, a, b, 0)
  {
  }

  lemma PairGrewTwice(net: Net, mid: Net, net': Net, a: CentreId, b: CentreId, m: nat, n: nat)
    requires PairGrew(net, mid, a, b, m) && PairGrew(mid, net', a, b, n)
    ensures PairGrew(net, net', a, b, m + n)
  {
  }

  lemma ReconnectsPrefix(net: Net, ops: seq<Op>, a: CentreId, b: CentreId)
    requires ops != [] && Reconnects(net, ops[..|ops| - 1], a, b)
    ensures Reconnects(net, ops, a, b)
  {
    var front := ops[..|ops| - 1];
    var i :| 0 <= i < |front| && front[i].Connect? && OnPair(front[i], a, b)
             && Apply(Run(net, front[..i]), front[i]).Done?;
    assert ops[..i] == front[..i] && ops[i] == front[i];
  }

  lemma {:induction false} RunRelayCount(net: Net, ops: seq<Op>, a: CentreId, b: CentreId)
    requires TwoSided(net) && AllowedRun(net, ops) && a in net && b in net[a].linkState
    requires !Reconnects(net, ops, a, b)
    ensures TwoSided(Run(net, ops)) && PairGrew(net, Run(net, ops), a, b, Failovers(net, ops, a, b))
  {
    assert LinkOk(net, a, b);
    if ops == [] {
      PairUnchanged(net, a, b);
    } else {
      var front, op := ops[..|ops| - 1], ops[|ops| - 1];
      if Reconnects(net, front, a, b) {
        ReconnectsPrefix(net, ops, a, b);
      }
      hide TwoSided, Allowed, Apply, LinkOk;
      RunRelayCount(net, front, a, b);
      assert ops[..|front|] == front;
      var mid := Run(net, front);
      StepRelayCount(mid, op, a, b);
      StepTwoSided(mid, op);
      PairGrewTwice(net, mid, Run(net, ops), a, b, Failovers(net, front, a, b),
                    if op.Failover? && OnPair(op, a, b) && Apply(mid, op).Done? then 1 else 0);
    }
  }

  /** Between reconnects a link fails over at most as often as its two centres have nodes. */
  lemma FailoversBounded(net: Net, ops: seq<Op>, a: CentreId, b: CentreId)
    requires TwoSided(net) && AllowedRun(net, ops) && a in net && b in net[a].linkState
    requires !Reconnects(net, ops, a, b)
    ensures b in net && Failovers(net, ops, a, b) <= |net[a].nodes| + |net[b].nodes|
  {
    RunRelayCount(net, ops, a, b);
    var net' := Run(net, ops);
    assert LinkOk(net', a, b);
    var relays, all := net'[a].linkState[b].relays, net[a].nodes.Keys + net[b].nodes.Keys;
    NoDupSize(relays);
    SubsetSize(Elems(relays), all);
    assert |all| <= |net[a].nodes.Keys| + |net[b].nodes.Keys|;
    assert |net[a].nodes.Keys| == |net[a].nodes| && |net[b].nodes.Keys| == |net[b].nodes|;
  }
}
