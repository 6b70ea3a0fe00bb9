/** Plans for a file, the health of their replicas, and the repairs planned for degraded shards. */
module Repair {
  import opened Prelude
  import opened Sorting
  import opened Replication
  import opened Rendezvous

  function BuildPlanForShards(score: Score, file: nat, nodes: seq<string>, count: nat): Result<Plan, PlanError> {
    var candidates := Canonical(nodes);
    var shards := Max(12, Min(count, REQUIRED_SHARDS));
    if |candidates| < REQUIRED_REPLICAS then Err(TooFewNodes)
    else
      Ok(Plan(file, shards, REQUIRED_REPLICAS,
              seq(shards, i requires 0 <= i < shards => Placement(i, SelectReplicas(score, file, i, candidates)))))
  }

  datatype Health = Health(shard: nat, available: seq<string>, missing: nat, healthy: bool)

  function Online(nodes: seq<string>, online: set<string>): seq<string> {
    if nodes == [] then []
    else Online(nodes[..|nodes| - 1], online)
         + (if nodes[|nodes| - 1] in online then [nodes[|nodes| - 1]] else [])
  }

  function AssessOne(p: Placement, online: set<string>): Health {
    var available := Online(p.nodes, online);
    var missing := SatSub(REQUIRED_REPLICAS, |available|);
    Health(p.shard, available, missing, missing == 0)
  }

  function Assess(plan: Plan, online: set<string>): seq<Health> {
    seq(|plan.placements|, i requires 0 <= i < |plan.placements| => AssessOne(plan.placements[i], online))
  }

  // ---- an ordered set of names as a list ----

  lemma {:induction false} LeastNameExists(s: set<string>) returns (n: string)
    requires s != {}
    ensures n in s && forall m :: m in s ==> NameLeq(n, m)
  {
    var x :| x in s;
    n := x;
    NameOrder();
    if s != {x} {
      var r := LeastNameExists(s - {x});
      n := if NameLeq(x, r) then x else r;
      assert forall m :: m in s ==> m == x || m in s - {x};
    }
  }

  function LeastName(s: set<string>): (n: string)
    requires s != {}
    ensures n in s && forall m :: m in s ==> NameLeq(n, m)
  {
    NameOrder();
    assert exists n :: n in s && forall m :: m in s ==> NameLeq(n, m) by {
      var n := LeastNameExists(s);
    }
    var n :| n in s && forall m :: m in s ==> NameLeq(n, m);
    n
  }

  function Ascending(s: set<string>): seq<string> {
    if s == {} then [] else [LeastName(s)] + Ascending(s - {LeastName(s)})
  }

  lemma PrependLeast(n: string, rest: seq<string>, s: set<string>)
    requires n in s && (forall m :: m in s ==> NameLeq(n, m))
    requires Elems(rest) == s - {n} && |rest| == |s| - 1 && NoDup(rest) && Sorted(rest, NameLeq)
    ensures Elems([n] + rest) == s && NoDup([n] + rest) && Sorted([n] + rest, NameLeq)
  {
    hide NameLeq;
    assert forall i :: 0 <= i < |rest| ==> rest[i] in Elems(rest);
    assert Elems([n] + rest) == {n} + Elems(rest);
  }

  lemma {:induction false} AscendingContents(s: set<string>)
    ensures Elems(Ascending(s)) == s && |Ascending(s)| == |s| && NoDup(Ascending(s))
    ensures Sorted(Ascending(s), NameLeq)
  {
    hide Sorted, NoDup, NameLeq;
    if s == {} {
      EmptyAscending();
    } else {
      AscendingContents(s - {LeastName(s)});
      PrependLeast(LeastName(s), Ascending(s - {LeastName(s)}), s);
    }
  }

  lemma EmptyAscending()
    ensures Elems(Ascending({})) == {} && NoDup(Ascending({})) && Sorted(Ascending({}), NameLeq)
  {
  }

  // ---- plan_repairs ----

  function Find(placements: seq<Placement>, shard: nat): Option<Placement> {
    if placements == [] then None
    else if placements[0].shard == shard then Some(placements[0])
    else Find(placements[1..], shard)
  }

  /** The repair proposed for one health record: nothing, or a shard with the nodes to copy it to. */
  function RepairOne(plan: Plan, h: Health, online: set<string>): seq<(nat, seq<string>)> {
    if h.missing == 0 then []
    else
      var p := Find(plan.placements, h.shard);
      if p.None? then []
      else
        var candidates := Ascending(online - Elems(p.value.nodes));
        var take := SatSub(REQUIRED_REPLICAS, |h.available|);
        if |candidates| < take then [] else [(h.shard, candidates[..take])]
  }

  function Repairs(plan: Plan, health: seq<Health>, online: set<string>): seq<(nat, seq<string>)> {
    if health == [] then []
    else Repairs(plan, health[..|health| - 1], online) + RepairOne(plan, health[|health| - 1], online)
  }

  method PlanRepairs(plan: Plan, health: seq<Health>, online: set<string>) returns (out: seq<(nat, seq<string>)>)
    ensures out == Repairs(plan, health, online)
  {
    out := [];
    for i := 0 to |health|
      invariant out == Repairs(plan, health[..i], online)
    {
      var h := health[i];
      assert health[..i + 1][..i] == health[..i];
      if h.missing > 0 {
        var p := Find(plan.placements, h.shard);
        if p.Some? {
          var used := Elems(p.value.nodes);
          var candidates := Ascending(online - used);
          var take := SatSub(REQUIRED_REPLICAS, |h.available|);
          candidates := candidates[..Min(take, |candidates|)];
          if |candidates| == take {
            out := out + [(h.shard, candidates)];
          }
        }
      }
    }
    assert health[..|health|] == health;
  }

  // ---- soundness and completeness ----

  lemma {:induction false} OnlineContents(nodes: seq<string>, online: set<string>)
    requires NoDup(nodes)
    ensures Elems(Online(nodes, online)) == Elems(nodes) * online && NoDup(Online(nodes, online))
  {
    if nodes != [] {
      var front, last := nodes[..|nodes| - 1], nodes[|nodes| - 1];
      OnlineContents(front, online);
      assert Elems(nodes) == Elems(front) + {last};
      var r := Online(front, online);
      assert forall i :: 0 <= i < |r| ==> r[i] in Elems(r);
      assert last !in Elems(front);
      assert Elems(Online(nodes, online)) == Elems(r) + (if last in online then {last} else {});
    }
  }

  /** A plan whose shards are numbered in order and placed on distinct nodes. */
  ghost predicate Numbered(plan: Plan) {
    forall i :: 0 <= i < |plan.placements| ==>
      && plan.placements[i].shard == i
      && |plan.placements[i].nodes| == REQUIRED_REPLICAS && NoDup(plan.placements[i].nodes)
  }

  /**
   * The plan, to the node: it exists if and only if there are three names, has the requested number of shards kept within
   * 12 and 1000, and puts shard `i` on exactly the names with fewer than three names ahead of them for that shard.
   */
  lemma BuiltPlanExactly(score: Score, file: nat, nodes: seq<string>, count: nat)
    ensures var r := BuildPlanForShards(score, file, nodes, count);
            var shards := if count < 12 then 12 else if count > 1000 then 1000 else count;
            && (|Names(nodes)| < REQUIRED_REPLICAS ==> r == Err(TooFewNodes))
            && (|Names(nodes)| >= REQUIRED_REPLICAS ==>
                  && r.Ok? && r.value.fileId == file && r.value.replicasPerShard == 3
                  && r.value.shards == shards && |r.value.placements| == shards
                  && forall i: nat :: i < shards ==>
                       var p := r.value.placements[i];
                       && p.shard == i && |p.nodes| == REQUIRED_REPLICAS && NoDup(p.nodes)
                       && (forall n :: n in p.nodes <==>
                             n in Names(nodes) && |Rivals(score, file, i, Names(nodes), n)| < REQUIRED_REPLICAS)
                       && if |Names(nodes)| == REQUIRED_REPLICAS then Sorted(p.nodes, NameLeq)
                          else Sorted(p.nodes, AheadOrder(score, file, i)))
  {
    hide SelectReplicas, Ahead, Rivals, Names, Canonical, Sorted, NoDup;
    var candidates := Canonical(nodes);
    CanonicalContents(nodes);
    CanonicalNames(nodes);
    forall i: nat
      ensures var s := SelectReplicas(score, file, i, candidates);
              && |s| == Min(REQUIRED_REPLICAS, |Names(nodes)|) && NoDup(s)
              && (forall n :: n in s <==>
                    n in Names(nodes) && |Rivals(score, file, i, Names(nodes), n)| < REQUIRED_REPLICAS)
              && if |Names(nodes)| <= REQUIRED_REPLICAS then Sorted(s, NameLeq) else Sorted(s, AheadOrder(score, file, i))
    {
      SelectedSize(score, file, i, candidates);
      SelectedOrder(score, file, i, candidates);
      forall n
        ensures n in SelectReplicas(score, file, i, candidates)
           <==> n in Names(nodes) && |Rivals(score, file, i, Names(nodes), n)| < REQUIRED_REPLICAS
      {
        SelectedExactlyWhenAhead(score, file, i, candidates, n);
      }
    }
  }

  lemma BuiltPlanNumbered(score: Score, file: nat, nodes: seq<string>, count: nat)
    ensures var r := BuildPlanForShards(score, file, nodes, count);
            && (r.Ok? <==> |Names(nodes)| >= REQUIRED_REPLICAS)
            && (r.Ok? ==> Numbered(r.value) && |r.value.placements| == r.value.shards
                          && 12 <= r.value.shards <= REQUIRED_SHARDS)
  {
    hide BuildPlanForShards, Rivals, Names;
    BuiltPlanExactly(score, file, nodes, count);
  }

  lemma CanonicalNames(nodes: seq<string>)
    ensures Names(Canonical(nodes)) == Names(nodes)
  {
    CanonicalContents(nodes);
    assert forall n :: n in Canonical(nodes) <==> n in Elems(Canonical(nodes));
  }

  lemma {:induction false} OnlineOrder(nodes: seq<string>, online: set<string>, leq: (string, string) -> bool)
    requires Sorted(nodes, leq)
    ensures Sorted(Online(nodes, online), leq) && Elems(Online(nodes, online)) <= Elems(nodes)
  {
    if nodes != [] {
      var front, last := nodes[..|nodes| - 1], nodes[|nodes| - 1];
      OnlineOrder(front, online, leq);
      var r := Online(front, online);
      assert forall i :: 0 <= i < |r| ==> r[i] in Elems(r);
      forall i | 0 <= i < |r|
        ensures leq(r[i], last)
      {
        assert r[i] in Elems(front);
        var j :| 0 <= j < |front| && front[j] == r[i];
        assert leq(nodes[j], last);
      }
      assert forall x :: x in Elems(front) ==> x in Elems(nodes);
    }
  }

  /** Health, exactly: which replicas answer, in the order of the placement, how many are missing, and the verdict. */
  lemma HealthExactly(p: Placement, online: set<string>, leq: (string, string) -> bool)
    requires |p.nodes| == REQUIRED_REPLICAS && NoDup(p.nodes) && Sorted(p.nodes, leq)
    ensures var h := AssessOne(p, online);
            && h.shard == p.shard
            && (forall n :: n in h.available <==> n in p.nodes && n in online)
            && NoDup(h.available) && Sorted(h.available, leq)
            && h.missing == |Elems(p.nodes) - online|
            && (h.healthy <==> Elems(p.nodes) <= online)
  {
    OnlineContents(p.nodes, online);
    OnlineOrder(p.nodes, online, leq);
    var h := AssessOne(p, online);
    NoDupSize(p.nodes);
    NoDupSize(h.available);
    assert Elems(p.nodes) == Elems(p.nodes) * online + (Elems(p.nodes) - online);
    assert forall n :: n in h.available <==> n in Elems(h.available);
    assert Elems(p.nodes) <= online <==> Elems(p.nodes) - online == {};
  }

  lemma {:induction false} FindNumbered(placements: seq<Placement>, i: nat)
    requires i < |placements|
    requires forall a, b :: 0 <= a < b < |placements| ==> placements[a].shard != placements[b].shard
    ensures Find(placements, placements[i].shard) == Some(placements[i])
  {
    if i > 0 {
      FindNumbered(placements[1..], i - 1);
    }
  }

  function Available(p: Placement, online: set<string>): set<string> {
    Elems(p.nodes) * online
  }

  function Spare(p: Placement, online: set<string>): set<string> {
    online - Elems(p.nodes)
  }

  /** A replica is missing, and enough other nodes are online to replace it. */
  predicate Repairable(p: Placement, online: set<string>) {
    |Available(p, online)| < REQUIRED_REPLICAS <= |Available(p, online)| + |Spare(p, online)|
  }

  /** The listed nodes and the surviving ones are exactly three distinct online nodes, and the listed ones come first by
      name among the nodes that could be listed. */
  ghost predicate Restores(p: Placement, online: set<string>, chosen: seq<string>) {
    && NoDup(chosen) && Sorted(chosen, NameLeq)
    && (forall n, m :: n in chosen && m in Spare(p, online) && m !in chosen ==> NameLeq(n, m))
    && Elems(chosen) <= Spare(p, online)
    && |Available(p, online) + Elems(chosen)| == |Available(p, online)| + |chosen| == REQUIRED_REPLICAS
  }

  /** The first names of an ascending list. */
  lemma FirstByName(s: set<string>, k: nat)
    requires k <= |s|
    ensures k <= |Ascending(s)|
    ensures var chosen := Ascending(s)[..k];
            && |chosen| == k && NoDup(chosen) && Sorted(chosen, NameLeq) && Elems(chosen) <= s
            && forall n, m :: n in chosen && m in s && m !in chosen ==> NameLeq(n, m)
  {
    hide NameLeq;
    AscendingContents(s);
    hide Ascending;
    var all, chosen := Ascending(s), Ascending(s)[..k];
    assert forall a :: 0 <= a < k ==> chosen[a] == all[a] && all[a] in Elems(all);
    assert forall a :: 0 <= a < k ==> all[a] in chosen;
    forall n, m | n in chosen && m in s && m !in chosen
      ensures NameLeq(n, m)
    {
      assert m in Elems(all);
      var a :| 0 <= a < k && chosen[a] == n;
      var b :| 0 <= b < |all| && all[b] == m;
    }
  }

  lemma FirstByNameRestores(p: Placement, online: set<string>)
    requires Repairable(p, online)
    ensures REQUIRED_REPLICAS - |Available(p, online)| <= |Ascending(Spare(p, online))|
    ensures Restores(p, online, Ascending(Spare(p, online))[..REQUIRED_REPLICAS - |Available(p, online)|])
  {
    hide Sorted, NoDup, NameLeq, Ascending;
    var k := REQUIRED_REPLICAS - |Available(p, online)|;
    FirstByName(Spare(p, online), k);
    var chosen := Ascending(Spare(p, online))[..k];
    NoDupSize(chosen);
    assert Available(p, online) !! Elems(chosen);
    assert |Available(p, online) + Elems(chosen)| == |Available(p, online)| + |Elems(chosen)|;
  }

  lemma RepairOneCorrect(plan: Plan, i: nat, online: set<string>)
    requires Numbered(plan) && i < |plan.placements|
    ensures var p := plan.placements[i];
            var r := RepairOne(plan, AssessOne(p, online), online);
            if Repairable(p, online) then |r| == 1 && r[0].0 == i && Restores(p, online, r[0].1) else r == []
  {
    var p := plan.placements[i];
    OnlineContents(p.nodes, online);
    NoDupSize(Online(p.nodes, online));
    FindNumbered(plan.placements, i);
    hide Sorted, NoDup, NameLeq, Online, Restores, Numbered, Find;
    AscendingContents(Spare(p, online));
    hide Ascending;
    if Repairable(p, online) {
      FirstByNameRestores(p, online);
    }
  }

  ghost predicate Listed(out: seq<(nat, seq<string>)>, shard: nat) {
    exists e :: 0 <= e < |out| && out[e].0 == shard
  }

  /** Of the first `k` shards, exactly the repairable ones are listed, once each and in order, with what restores them. */
  ghost predicate Exact(plan: Plan, online: set<string>, k: nat, out: seq<(nat, seq<string>)>)
    requires k <= |plan.placements|
  {
    && (forall i: nat :: i < k ==> (Listed(out, i) <==> Repairable(plan.placements[i], online)))
    && (forall e :: 0 <= e < |out| ==> out[e].0 < k && Restores(plan.placements[out[e].0], online, out[e].1))
    && (forall d, e :: 0 <= d < e < |out| ==> out[d].0 < out[e].0)
  }

  lemma ExactStep(plan: Plan, online: set<string>, k: nat, before: seq<(nat, seq<string>)>, added: seq<(nat, seq<string>)>)
    requires k < |plan.placements| && Exact(plan, online, k, before)
    requires if Repairable(plan.placements[k], online)
             then |added| == 1 && added[0].0 == k && Restores(plan.placements[k], online, added[0].1)
             else added == []
    ensures Exact(plan, online, k + 1, before + added)
  {
    hide Repairable, Restores, Listed;
    ListedStep(before, added, k);
    var out := before + added;
    assert forall e :: 0 <= e < |out| ==> out[e] == if e < |before| then before[e] else added[e - |before|];
  }

  lemma ListedStep(before: seq<(nat, seq<string>)>, added: seq<(nat, seq<string>)>, k: nat)
    requires forall e :: 0 <= e < |added| ==> added[e].0 == k
    ensures forall i: nat :: Listed(before + added, i) <==> Listed(before, i) || (i == k && added != [])
    ensures (forall e :: 0 <= e < |before| ==> before[e].0 < k) ==> !Listed(before, k)
  {
    var out := before + added;
    forall i: nat
      ensures Listed(out, i) <==> Listed(before, i) || (i == k && added != [])
    {
      if Listed(before, i) {
        var e :| 0 <= e < |before| && before[e].0 == i;
        assert out[e].0 == i;
      } else if i == k && added != [] {
        assert out[|before|].0 == i;
      }
    }
  }

  lemma {:induction false} RepairsPrefix(plan: Plan, online: set<string>, k: nat)
    requires Numbered(plan) && k <= |plan.placements|
    ensures Exact(plan, online, k, Repairs(plan, Assess(plan, online)[..k], online))
  {
    if k > 0 {
      hide Exact, RepairOne, AssessOne, Restores, Repairable;
      var health := Assess(plan, online);
      RepairsPrefix(plan, online, k - 1);
      RepairOneCorrect(plan, k - 1, online);
      assert health[..k][..k - 1] == health[..k - 1];
      ExactStep(plan, online, k - 1, Repairs(plan, health[..k - 1], online), RepairOne(plan, health[k - 1], online));
    }
  }

  /**
   * For any plan built by `BuildPlanForShards` and any set of online nodes, a shard is listed, once, exactly when it is
   * degraded and enough online nodes lie outside its placement; what is listed restores it to three online replicas.
   */
  lemma RepairsCorrect(score: Score, file: nat, nodes: seq<string>, count: nat, online: set<string>)
    requires BuildPlanForShards(score, file, nodes, count).Ok?
    ensures var plan := BuildPlanForShards(score, file, nodes, count).value;
            var out := Repairs(plan, Assess(plan, online), online);
            && (forall i: nat :: i < plan.shards ==> (Listed(out, i) <==> Repairable(plan.placements[i], online)))
            && (forall e :: 0 <= e < |out| ==>
                  out[e].0 < plan.shards && Restores(plan.placements[out[e].0], online, out[e].1))
            && (forall d, e :: 0 <= d < e < |out| ==> out[d].0 != out[e].0)
  {
    var plan := BuildPlanForShards(score, file, nodes, count).value;
    BuiltPlanNumbered(score, file, nodes, count);
    RepairsPrefix(plan, online, |plan.placements|);
    assert Assess(plan, online)[..|plan.placements|] == Assess(plan, online);
  }
}
