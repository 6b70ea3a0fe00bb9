/** Data centres, their nodes and links, and what each mutating operation does to the network. */
module Topology {
  import opened Prelude

  type NodeId = string
  type CentreId = string

  /** `score` is the routing score of the node's metrics; smaller is better. */
  datatype Node = Node(peers: set<NodeId>, alive: bool, score: nat)

  datatype Mode = FullMesh | Relay(relay: NodeId)

  datatype Link = Link(mode: Mode, relays: seq<NodeId>, healthy: bool)

  datatype Centre = Centre(nodes: map<NodeId, Node>, links: set<CentreId>, linkState: map<CentreId, Link>)

  type Net = map<CentreId, Centre>

  datatype NetError =
    | DuplicateNode | NodeNotFound | InvalidPair | NoLiveNodes | RelayUnavailable
    | LinkNotFound | NoHealthyRelay | TargetDead

  /** `Panic` is an `unwrap` or an index that finds nothing. */
  datatype Outcome = Done(net: Net) | Refused(error: NetError) | Panic

  function Live(c: Centre): set<NodeId> {
    set n | n in c.nodes && c.nodes[n].alive
  }

  function WithPeers(nodes: map<NodeId, Node>, who: set<NodeId>, peers: set<NodeId>): map<NodeId, Node> {
    map n | n in nodes :: if n in who then nodes[n].(peers := nodes[n].peers + (peers - {n})) else nodes[n]
  }

  /** Every live node of the centre learns every other live node. */
  function MeshCentre(c: Centre): Centre {
    c.(nodes := WithPeers(c.nodes, Live(c), Live(c)))
  }

  /** The nodes `who` of the centre learn all of `peers`, themselves included if listed. */
  function Teach(c: Centre, who: set<NodeId>, peers: set<NodeId>): Centre {
    c.(nodes := map n | n in c.nodes :: if n in who then c.nodes[n].(peers := c.nodes[n].peers + peers) else c.nodes[n])
  }

  function SetLink(c: Centre, other: CentreId, link: Link): Centre {
    c.(links := c.links + {other}, linkState := c.linkState[other := link])
  }

  function PushRelay(c: Centre, other: CentreId, relay: NodeId): Centre
    requires other in c.linkState
  {
    var link := c.linkState[other];
    c.(linkState := c.linkState[other := link.(relays := link.relays + [relay])])
  }

  /** A live node outside `except` whose score no other such node beats; ties go either way. */
  predicate IsBest(c: Centre, except: set<NodeId>, n: NodeId) {
    && n in Live(c) && n !in except
    && forall m :: m in Live(c) && m !in except ==> c.nodes[n].score <= c.nodes[m].score
  }

  // ---- operations ----

  /** An operation together with the choices that hash-map iteration order makes for it. */
  datatype Op =
    | AddCentre(id: CentreId, centre: Centre)
    | Mesh(id: CentreId)
    | Mark(id: CentreId, node: NodeId, alive: bool)
    | Connect(a: CentreId, b: CentreId, mode: Mode, order: seq<NodeId>, target: NodeId)
    | Failover(a: CentreId, b: CentreId, candidate: NodeId, target: NodeId)

  function ApplyAdd(net: Net, id: CentreId, c: Centre): Outcome {
    if exists e :: e in net && exists n :: n in c.nodes && n in net[e].nodes then Refused(DuplicateNode)
    else Done(net[id := c])
  }

  function ApplyMark(net: Net, id: CentreId, node: NodeId, alive: bool): Outcome {
    if id !in net || node !in net[id].nodes then Refused(NodeNotFound)
    else Done(net[id := net[id].(nodes := net[id].nodes[node := net[id].nodes[node].(alive := alive)])])
  }

  function ConnectRefusal(net: Net, a: CentreId, b: CentreId, mode: Mode): Option<NetError> {
    if a == b || a !in net || b !in net then Some(InvalidPair)
    else if Live(net[a]) == {} || Live(net[b]) == {} then Some(NoLiveNodes)
    else if mode.Relay? && mode.relay !in Live(net[a]) then Some(RelayUnavailable)
    else None
  }

  function ApplyConnect(net: Net, a: CentreId, b: CentreId, mode: Mode, order: seq<NodeId>, target: NodeId): Outcome {
    var refusal := ConnectRefusal(net, a, b, mode);
    if refusal.Some? then Refused(refusal.value)
    else
      var left := if mode.FullMesh? then Live(net[a]) else {mode.relay};
      var right := if mode.FullMesh? then Live(net[b]) else {target};
      var link := Link(mode, if mode.FullMesh? then order else [mode.relay], true);
      Done(Joined(net, a, b, left, right, link))
  }

  /** Two centres after some nodes of each have learned some of the other, with a link record on both sides. */
  function Joined(net: Net, a: CentreId, b: CentreId, left: set<NodeId>, right: set<NodeId>, link: Link): Net
    requires a in net && b in net
  {
    net[a := SetLink(Teach(net[a], left, right), b, link)][b := SetLink(Teach(net[b], right, left), a, link)]
  }

  function FailoverRefusal(net: Net, a: CentreId, b: CentreId): Option<NetError> {
    if a !in net || b !in net[a].linkState then Some(LinkNotFound)
    else if Live(net[a]) - Elems(net[a].linkState[b].relays) == {} then Some(NoHealthyRelay)
    else if b in net && Live(net[b]) == {} then Some(TargetDead)
    else None
  }

  function ApplyFailover(net: Net, a: CentreId, b: CentreId, candidate: NodeId, target: NodeId): Outcome {
    var refusal := FailoverRefusal(net, a, b);
    if refusal.Some? then Refused(refusal.value)
    else if b !in net then Panic
    else
      var near := PushRelay(Teach(net[a], {candidate}, {target}), b, candidate);
      var far := Teach(if a == b then near else net[b], {target}, {candidate});
      if a !in far.linkState then Panic else Done(net[a := near][b := PushRelay(far, a, candidate)])
  }

  function Apply(net: Net, op: Op): Outcome {
    match op
    case AddCentre(id, c) => ApplyAdd(net, id, c)
    case Mesh(id) => if id in net then Done(net[id := MeshCentre(net[id])]) else Refused(InvalidPair)
    case Mark(id, node, alive) => ApplyMark(net, id, node, alive)
    case Connect(a, b, mode, order, target) => ApplyConnect(net, a, b, mode, order, target)
    case Failover(a, b, candidate, target) => ApplyFailover(net, a, b, candidate, target)
  }

  /** The choices are ones the code could make, and centres enter under a new name and without links. */
  predicate Allowed(net: Net, op: Op) {
    match op
    case AddCentre(id, c) => id !in net && c.links == {} && c.linkState == map[]
    case Mesh(_) => true
    case Mark(_, _, _) => true
    case Connect(a, b, mode, order, target) =>
      ConnectRefusal(net, a, b, mode).None? ==>
        if mode.FullMesh? then NoDup(order) && Elems(order) == Live(net[a]) else IsBest(net[b], {}, target)
    case Failover(a, b, candidate, target) =>
      FailoverRefusal(net, a, b).None? && b in net ==>
        && IsBest(net[a], Elems(net[a].linkState[b].relays), candidate)
        && IsBest(net[b], {}, target)
  }

  function After(net: Net, op: Op): Net {
    var r := Apply(net, op);
    if r.Done? then r.net else net
  }

  function Run(net: Net, ops: seq<Op>): Net {
    if ops == [] then net else After(Run(net, ops[..|ops| - 1]), ops[|ops| - 1])
  }

  ghost predicate AllowedRun(net: Net, ops: seq<Op>) {
    ops == [] || (AllowedRun(net, ops[..|ops| - 1]) && Allowed(Run(net, ops[..|ops| - 1]), ops[|ops| - 1]))
  }
}
