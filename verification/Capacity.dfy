/** The greedy capacity-limited allocator: balanced loads keep it from ever getting stuck. */
module Capacity {
  import opened Prelude
  import opened Sorting
  import opened Replication

  // ---- one shard ----

  function LoadOf(loads: seq<nat>, i: nat): nat {
    if i < |loads| then loads[i] else 0
  }

  function NameOf(names: seq<string>, i: nat): string {
    if i < |names| then names[i] else ""
  }

  /** Ranks node indices by load, then score, then name. */
  predicate RankLeq(score: Score, file: nat, shard: nat, names: seq<string>, loads: seq<nat>, i: nat, j: nat) {
    var si, sj := score(file, shard, NameOf(names, i)), score(file, shard, NameOf(names, j));
    || LoadOf(loads, i) < LoadOf(loads, j)
    || (LoadOf(loads, i) == LoadOf(loads, j) && si < sj)
    || (LoadOf(loads, i) == LoadOf(loads, j) && si == sj && NameLeq(NameOf(names, i), NameOf(names, j)))
  }

  function Rank(score: Score, file: nat, shard: nat, names: seq<string>, loads: seq<nat>): (nat, nat) -> bool {
    (i: nat, j: nat) => RankLeq(score, file, shard, names, loads, i, j)
  }

  lemma RankPreorder(score: Score, file: nat, shard: nat, names: seq<string>, loads: seq<nat>)
    ensures Preorder(Rank(score, file, shard, names, loads))
  {
    NameOrder();
  }

  /** Indices of the nodes that still have room, in ascending order. */
  function Eligible(loads: seq<nat>): seq<nat> {
    if loads == [] then []
    else
      var last := |loads| - 1;
      Eligible(loads[..last]) + (if loads[last] < MAX_SHARDS_PER_NODE then [last] else [])
  }

  lemma {:induction false} EligibleContents(loads: seq<nat>)
    ensures forall i: nat :: i in Eligible(loads) <==> i < |loads| && loads[i] < MAX_SHARDS_PER_NODE
    ensures NoDup(Eligible(loads))
  {
    if loads != [] {
      var front := Eligible(loads[..|loads| - 1]);
      EligibleContents(loads[..|loads| - 1]);
      assert forall k :: 0 <= k < |front| ==> front[k] in front;
    }
  }

  function Ranked(score: Score, file: nat, shard: nat, names: seq<string>, loads: seq<nat>): seq<nat> {
    Sort(Eligible(loads), Rank(score, file, shard, names, loads))
  }

  predicate InRange(picks: seq<nat>, n: nat) {
    forall a :: 0 <= a < |picks| ==> picks[a] < n
  }

  function Bump(loads: seq<nat>, picks: seq<nat>): (r: seq<nat>)
    requires InRange(picks, |loads|)
    ensures |r| == |loads|
  {
    if picks == [] then loads
    else
      var last := |picks| - 1;
      var r := Bump(loads, picks[..last]);
      r[picks[last] := r[picks[last]] + 1]
  }

  /** Three distinct nodes, none of them more loaded than any node left out. */
  ghost predicate LeastLoaded(loads: seq<nat>, picks: seq<nat>) {
    && |picks| == REQUIRED_REPLICAS
    && NoDup(picks)
    && InRange(picks, |loads|)
    && (forall a :: 0 <= a < |picks| ==> loads[picks[a]] < MAX_SHARDS_PER_NODE)
    && (forall a, j :: 0 <= a < |picks| && 0 <= j < |loads| && j !in picks ==> loads[picks[a]] <= loads[j])
  }

  lemma PicksLeastLoaded(score: Score, file: nat, shard: nat, names: seq<string>, loads: seq<nat>)
    requires |Ranked(score, file, shard, names, loads)| >= REQUIRED_REPLICAS
    ensures LeastLoaded(loads, Ranked(score, file, shard, names, loads)[..REQUIRED_REPLICAS])
  {
    var leq := Rank(score, file, shard, names, loads);
    var r := Ranked(score, file, shard, names, loads);
    RankPreorder(score, file, shard, names, loads);
    EligibleContents(loads);
    SortContents(Eligible(loads), leq);
    SortSorted(Eligible(loads), leq);
    NoDupFromMultiset(r, Eligible(loads));
    var picks := r[..REQUIRED_REPLICAS];
    forall a | 0 <= a < |r|
      ensures r[a] < |loads| && loads[r[a]] < MAX_SHARDS_PER_NODE
    {
      assert r[a] in Elems(r);
      assert r[a] in Elems(Eligible(loads));
    }
    forall a, j: nat | 0 <= a < |picks| && j < |loads| && j !in picks
      ensures loads[picks[a]] <= loads[j]
    {
      if loads[j] < MAX_SHARDS_PER_NODE {
        assert j in Elems(Eligible(loads));
        assert j in Elems(r);
        var b :| 0 <= b < |r| && r[b] == j;
        assert forall e :: 0 <= e < |picks| ==> r[e] == picks[e] && picks[e] in picks;
        assert leq(r[a], r[b]);
      }
    }
  }

  lemma {:induction false} BumpAdds(loads: seq<nat>, picks: seq<nat>, i: nat)
    requires InRange(picks, |loads|)
    requires NoDup(picks) && i < |loads|
    ensures Bump(loads, picks)[i] == loads[i] + (if i in picks then 1 else 0)
  {
    if picks != [] {
      var last := |picks| - 1;
      assert picks == picks[..last] + [picks[last]];
      BumpAdds(loads, picks[..last], i);
    }
  }

  function Total(loads: seq<nat>): nat {
    if loads == [] then 0 else Total(loads[..|loads| - 1]) + loads[|loads| - 1]
  }

  lemma {:induction false} TotalUpdate(loads: seq<nat>, i: nat, v: nat)
    requires i < |loads|
    ensures Total(loads[i := v]) == Total(loads) - loads[i] + v
  {
    var last := |loads| - 1;
    if i < last {
      TotalUpdate(loads[..last], i, v);
      assert loads[i := v][..last] == loads[..last][i := v];
    } else {
      assert loads[i := v][..last] == loads[..last];
    }
  }

  lemma {:induction false} BumpTotal(loads: seq<nat>, picks: seq<nat>)
    requires InRange(picks, |loads|)
    ensures Total(Bump(loads, picks)) == Total(loads) + |picks|
  {
    if picks != [] {
      var last := |picks| - 1;
      var r := Bump(loads, picks[..last]);
      BumpTotal(loads, picks[..last]);
      TotalUpdate(r, picks[last], r[picks[last]] + 1);
    }
  }

  // ---- balance ----

  ghost predicate Balanced(loads: seq<nat>) {
    forall i, j :: 0 <= i < |loads| && 0 <= j < |loads| ==> loads[i] <= loads[j] + 1
  }

  lemma BumpKeepsBalance(loads: seq<nat>, picks: seq<nat>)
    requires Balanced(loads) && LeastLoaded(loads, picks)
    ensures Balanced(Bump(loads, picks))
    ensures Total(Bump(loads, picks)) == Total(loads) + REQUIRED_REPLICAS
  {
    BumpTotal(loads, picks);
    forall i, j | 0 <= i < |loads| && 0 <= j < |loads|
      ensures Bump(loads, picks)[i] <= Bump(loads, picks)[j] + 1
    {
      BumpAdds(loads, picks, i);
      BumpAdds(loads, picks, j);
    }
  }

  lemma {:induction false} NearlyFull(loads: seq<nat>)
    requires forall i :: 0 <= i < |loads| ==> loads[i] >= MAX_SHARDS_PER_NODE - 1
    ensures Total(loads) >= MAX_SHARDS_PER_NODE * |loads| - |Eligible(loads)|
  {
    if loads != [] {
      NearlyFull(loads[..|loads| - 1]);
    }
  }

  /** Balanced loads with room for one more shard leave at least three nodes open. */
  lemma EnoughEligible(loads: seq<nat>)
    requires |loads| >= MIN_NODES_FOR_CAPACITY_LIMIT && Balanced(loads)
    requires Total(loads) + REQUIRED_REPLICAS <= REQUIRED_SHARDS * REQUIRED_REPLICAS
    ensures |Eligible(loads)| >= REQUIRED_REPLICAS
  {
    EligibleContents(loads);
    if forall i :: 0 <= i < |loads| ==> loads[i] >= MAX_SHARDS_PER_NODE - 1 {
      NearlyFull(loads);
    } else {
      var low :| 0 <= low < |loads| && loads[low] < MAX_SHARDS_PER_NODE - 1;
      assert 0 in Eligible(loads) && 1 in Eligible(loads) && 2 in Eligible(loads) by {
        assert loads[0] <= loads[low] + 1 && loads[1] <= loads[low] + 1 && loads[2] <= loads[low] + 1;
      }
      SubsetSize({0, 1, 2}, Elems(Eligible(loads)));
      ElemsSize(Eligible(loads));
    }
  }

  // ---- the whole plan ----

  datatype Progress = Progress(loads: seq<nat>, placements: seq<Placement>)

  function Zeros(n: nat): seq<nat> {
    seq(n, _ => 0)
  }

  function Chosen(names: seq<string>, picks: seq<nat>): seq<string> {
    seq(|picks|, i requires 0 <= i < |picks| => NameOf(names, picks[i]))
  }

  function Place(score: Score, file: nat, shard: nat, names: seq<string>, p: Progress): Result<Progress, PlanError>
    requires |p.loads| == |names|
  {
    var ranked := Ranked(score, file, shard, names, p.loads);
    if |ranked| < REQUIRED_REPLICAS then Err(CapacityExhausted(shard))
    else
      var picks := ranked[..REQUIRED_REPLICAS];
      PicksLeastLoaded(score, file, shard, names, p.loads);
      Ok(Progress(
        Bump(p.loads, picks),
        p.placements + [Placement(shard, Chosen(names, picks))]))
  }

  /** The first `k` shards placed one after another. */
  function Greedy(score: Score, file: nat, names: seq<string>, k: nat): (r: Result<Progress, PlanError>)
    ensures r.Ok? ==> |r.value.loads| == |names|
  {
    if k == 0 then Ok(Progress(Zeros(|names|), []))
    else
      var before := Greedy(score, file, names, k - 1);
      if before.Err? then before else Place(score, file, k - 1, names, before.value)
  }

  /** How many of the placements use the node. */
  function Uses(placements: seq<Placement>, name: string): nat {
    if placements == [] then 0
    else Uses(placements[..|placements| - 1], name) + (if name in placements[|placements| - 1].nodes then 1 else 0)
  }

  ghost predicate Spread(names: seq<string>, p: Placement) {
    && |p.nodes| == REQUIRED_REPLICAS && NoDup(p.nodes)
    && forall n :: n in p.nodes ==> n in names
  }

  ghost predicate Sound(names: seq<string>, k: nat, p: Progress) {
    && |p.loads| == |names|
    && Balanced(p.loads)
    && Total(p.loads) == REQUIRED_REPLICAS * k
    && (forall i :: 0 <= i < |names| ==> p.loads[i] <= MAX_SHARDS_PER_NODE)
    && (forall i :: 0 <= i < |names| ==> Uses(p.placements, names[i]) == p.loads[i])
    && |p.placements| == k
    && (forall s :: 0 <= s < k ==> p.placements[s].shard == s && Spread(names, p.placements[s]))
  }

  lemma PlaceSound(score: Score, file: nat, names: seq<string>, k: nat, p: Progress)
    requires NoDup(names) && |names| >= MIN_NODES_FOR_CAPACITY_LIMIT && k < REQUIRED_SHARDS && Sound(names, k, p)
    ensures var r := Place(score, file, k, names, p); r.Ok? && Sound(names, k + 1, r.value)
  {
    hide Total, Sort, LeastLoaded, Eligible;
    EnoughEligible(p.loads);
    SortContents(Eligible(p.loads), Rank(score, file, k, names, p.loads));
    var picks := Ranked(score, file, k, names, p.loads)[..REQUIRED_REPLICAS];
    PicksLeastLoaded(score, file, k, names, p.loads);
    PicksUsable(p.loads, picks);
    var chosen := Chosen(names, picks);
    BumpKeepsBalance(p.loads, picks);
    PlacedSound(names, k, p, picks, Progress(Bump(p.loads, picks), p.placements + [Placement(k, chosen)]));
  }

  lemma PicksUsable(loads: seq<nat>, picks: seq<nat>)
    requires LeastLoaded(loads, picks)
    ensures |picks| == REQUIRED_REPLICAS && NoDup(picks) && InRange(picks, |loads|)
    ensures forall i :: 0 <= i < |loads| && i in picks ==> loads[i] < MAX_SHARDS_PER_NODE
  {
  }

  lemma PlacedSound(names: seq<string>, k: nat, p: Progress, picks: seq<nat>, r: Progress)
    requires NoDup(names) && Sound(names, k, p)
    requires |picks| == REQUIRED_REPLICAS && NoDup(picks) && InRange(picks, |names|)
    requires forall i :: 0 <= i < |names| && i in picks ==> p.loads[i] < MAX_SHARDS_PER_NODE
    requires r == Progress(Bump(p.loads, picks), p.placements + [Placement(k, Chosen(names, picks))])
    requires Balanced(r.loads) && Total(r.loads) == Total(p.loads) + REQUIRED_REPLICAS
    ensures Sound(names, k + 1, r)
  {
    hide Total, Bump, Balanced;
    PickedNames(names, picks, Chosen(names, picks));
    assert r.placements[..k] == p.placements;
    forall i | 0 <= i < |names|
      ensures Uses(r.placements, names[i]) == r.loads[i] <= MAX_SHARDS_PER_NODE
    {
      BumpAdds(p.loads, picks, i);
    }
  }

  lemma PickedNames(names: seq<string>, picks: seq<nat>, chosen: seq<string>)
    requires NoDup(names) && NoDup(picks) && |chosen| == |picks|
    requires forall i :: 0 <= i < |picks| ==> picks[i] < |names| && chosen[i] == names[picks[i]]
    ensures NoDup(chosen)
    ensures forall n :: n in chosen ==> n in names
    ensures forall i :: 0 <= i < |names| ==> (names[i] in chosen <==> i in picks)
  {
    forall i | 0 <= i < |names|
      ensures names[i] in chosen <==> i in picks
    {
      if names[i] in chosen {
        var a :| 0 <= a < |chosen| && chosen[a] == names[i];
        assert picks[a] == i;
      }
      if i in picks {
        var a :| 0 <= a < |picks| && picks[a] == i;
        assert chosen[a] == names[i];
      }
    }
  }

  lemma {:induction false} ZerosTotal(n: nat)
    ensures Total(Zeros(n)) == 0
  {
    if n > 0 {
      ZerosTotal(n - 1);
      assert Zeros(n)[..n - 1] == Zeros(n - 1);
    }
  }

  lemma StartSound(names: seq<string>)
    ensures Sound(names, 0, Progress(Zeros(|names|), []))
  {
    ZerosTotal(|names|);
  }

  /** With thirty distinct nodes the allocator never runs dry: every prefix of the plan is sound. */
  lemma {:induction false} GreedyNeverStuck(score: Score, file: nat, names: seq<string>, k: nat)
    requires NoDup(names) && |names| >= MIN_NODES_FOR_CAPACITY_LIMIT && k <= REQUIRED_SHARDS
    ensures var r := Greedy(score, file, names, k); r.Ok? && Sound(names, k, r.value)
  {
    hide Sound, Place;
    if k == 0 {
      StartSound(names);
    } else {
      GreedyNeverStuck(score, file, names, k - 1);
      PlaceSound(score, file, names, k - 1, Greedy(score, file, names, k - 1).value);
    }
  }

  lemma {:induction false} TotalAtMost(loads: seq<nat>, hi: nat)
    requires forall i :: 0 <= i < |loads| ==> loads[i] <= hi
    ensures Total(loads) <= |loads| * hi
  {
    if loads != [] {
      var n := |loads| - 1;
      TotalAtMost(loads[..n], hi);
      assert (n + 1) * hi == n * hi + hi;
    }
  }

  lemma {:induction false} TotalAtLeast(loads: seq<nat>, lo: nat)
    requires forall i :: 0 <= i < |loads| ==> lo <= loads[i]
    ensures Total(loads) >= |loads| * lo
  {
    if loads != [] {
      var n := |loads| - 1;
      TotalAtLeast(loads[..n], lo);
      assert (n + 1) * lo == n * lo + lo;
    }
  }

  lemma NotFarAbove(loads: seq<nat>, i: nat)
    requires Balanced(loads) && i < |loads|
    ensures Total(loads) + 1 <= |loads| * (loads[i] + 1)
  {
    TotalUpdate(loads, i, loads[i] + 1);
    TotalAtMost(loads[i := loads[i] + 1], loads[i] + 1);
  }

  lemma NotFarBelow(loads: seq<nat>, i: nat)
    requires Balanced(loads) && i < |loads|
    requires 1 <= loads[i]
    ensures Total(loads) >= |loads| * (loads[i] - 1) + 1
  {
    var y := loads[i] - 1;
    TotalUpdate(loads, i, y);
    TotalAtLeast(loads[i := y], y);
  }

  /** In balanced loads every entry is the average, rounded down or up. */
  lemma {:induction false} BalancedAverage(loads: seq<nat>, i: nat)
    requires Balanced(loads) && i < |loads|
    ensures Total(loads) / |loads| <= loads[i] <= (Total(loads) + |loads| - 1) / |loads|
  {
    NotFarAbove(loads, i);
    if loads[i] >= 1 {
      NotFarBelow(loads, i);
    }
    AverageBounds(Total(loads), |loads|, loads[i]);
  }

  lemma AverageBounds(total: nat, n: nat, x: nat)
    requires n >= 1 && total + 1 <= n * (x + 1)
    requires x >= 1 ==> total >= n * (x - 1) + 1
    ensures total / n <= x <= (total + n - 1) / n
  {
    DivBelow(total, n, x + 1);
    if x >= 1 {
      assert n * (x - 1) == n * x - n;
      DivAbove(total + n - 1, n, x);
    }
  }

  lemma DivBelow(t: nat, n: nat, y: nat)
    requires n >= 1 && t < n * y
    ensures t / n < y
  {
    var q := t / n;
    assert n * q <= t;
    if q >= y {
      MulMonotone(y, q, n);
    }
  }

  lemma DivAbove(t: nat, n: nat, x: nat)
    requires n >= 1 && t >= n * x
    ensures t / n >= x
  {
    var q := t / n;
    assert t < n * (q + 1);
    if q < x {
      MulMonotone(q + 1, x, n);
    }
  }

  // ---- build_capacity_limited_plan ----

  function CapacityPlan(score: Score, file: nat, nodes: seq<string>): Result<Plan, PlanError> {
    var names := Canonical(nodes);
    if |names| < MIN_NODES_FOR_CAPACITY_LIMIT then Err(TooFewNodes)
    else
      var r := Greedy(score, file, names, REQUIRED_SHARDS);
      if r.Err? then Err(r.error) else Ok(Plan(file, REQUIRED_SHARDS, REQUIRED_REPLICAS, r.value.placements))
  }

  lemma BumpNone(loads: seq<nat>, names: seq<string>)
    ensures Bump(loads, []) == loads && Chosen(names, []) == []
  {
  }

  lemma {:induction false} BumpMore(loads: seq<nat>, picks: seq<nat>, k: nat)
    requires InRange(picks, |loads|) && k < |picks|
    ensures InRange(picks[..k], |loads|) && InRange(picks[..k + 1], |loads|)
    ensures var r := Bump(loads, picks[..k]); Bump(loads, picks[..k + 1]) == r[picks[k] := r[picks[k]] + 1]
  {
    var s := picks[..k + 1];
    assert s != [] && |s| - 1 == k;
    assert s[..k] == picks[..k] && s[k] == picks[k];
  }

  lemma ChosenMore(names: seq<string>, picks: seq<nat>, k: nat)
    requires k < |picks|
    ensures Chosen(names, picks[..k + 1]) == Chosen(names, picks[..k]) + [NameOf(names, picks[k])]
  {
  }

  /** One turn of the loop: takes the three best-ranked open nodes and raises their loads in place. */
  method PlaceShard(score: Score, file: nat, shard: nat, unique: seq<string>, loads: array<nat>)
    returns (r: Result<seq<string>, PlanError>)
    requires loads.Length == |unique|
    modifies loads
    ensures match Place(score, file, shard, unique, Progress(old(loads[..]), []))
            case Err(e) => r == Err(e) && loads[..] == old(loads[..])
            case Ok(p) => r.Ok? && p == Progress(loads[..], [Placement(shard, r.value)])
  {
    hide Sort, Eligible, LeastLoaded, RankLeq, NoDup, Bump, Chosen;
    ghost var before := loads[..];
    var ranked := Sort(Eligible(loads[..]), Rank(score, file, shard, unique, loads[..]));
    if |ranked| < REQUIRED_REPLICAS {
      return Err(CapacityExhausted(shard));
    }
    var picks := ranked[..REQUIRED_REPLICAS];
    PicksLeastLoaded(score, file, shard, unique, before);
    PicksUsable(before, picks);
    var selected := [];
    BumpNone(before, unique);
    assert picks[..0] == [];
    for k := 0 to REQUIRED_REPLICAS
      invariant loads[..] == Bump(before, picks[..k])
      invariant selected == Chosen(unique, picks[..k])
    {
      BumpMore(before, picks, k);
      ChosenMore(unique, picks, k);
      loads[picks[k]] := loads[picks[k]] + 1;
      selected := selected + [unique[picks[k]]];
    }
    assert picks[..REQUIRED_REPLICAS] == picks;
    r := Ok(selected);
  }

  lemma StartGreedy(score: Score, file: nat, names: seq<string>)
    ensures Greedy(score, file, names, 0) == Ok(Progress(Zeros(|names|), []))
  {
  }

  lemma NextGreedy(score: Score, file: nat, names: seq<string>, k: nat, p: Progress)
    requires Greedy(score, file, names, k) == Ok(p) && |p.loads| == |names|
    ensures Greedy(score, file, names, k + 1) == Place(score, file, k, names, p)
  {
    hide Place;
  }

  method BuildCapacityLimitedPlan(score: Score, file: nat, nodes: seq<string>) returns (r: Result<Plan, PlanError>)
    ensures r == CapacityPlan(score, file, nodes)
  {
    hide Greedy, Place, Canonical;
    var unique := Canonical(nodes);
    if |unique| < MIN_NODES_FOR_CAPACITY_LIMIT {
      return Err(TooFewNodes);
    }
    var loads := new nat[|unique|](_ => 0);
    var placements := [];
    assert loads[..] == Zeros(|unique|);
    StartGreedy(score, file, unique);
    for shard := 0 to REQUIRED_SHARDS
      invariant Greedy(score, file, unique, shard) == Ok(Progress(loads[..], placements))
    {
      PlaceFrame(score, file, shard, unique, loads[..], placements);
      NextGreedy(score, file, unique, shard, Progress(loads[..], placements));
      var selected := PlaceShard(score, file, shard, unique, loads);
      if selected.Err? {
        GreedyStaysStuck(score, file, unique, shard + 1, REQUIRED_SHARDS);
        return Err(selected.error);
      }
      placements := placements + [Placement(shard, selected.value)];
    }
    r := Ok(Plan(file, REQUIRED_SHARDS, REQUIRED_REPLICAS, placements));
  }

  /** Placing a shard does not look at the placements made before. */
  lemma PlaceFrame(score: Score, file: nat, shard: nat, names: seq<string>, loads: seq<nat>, done: seq<Placement>)
    requires |loads| == |names|
    ensures var alone := Place(score, file, shard, names, Progress(loads, []));
            Place(score, file, shard, names, Progress(loads, done))
              == if alone.Err? then alone else Ok(Progress(alone.value.loads, done + alone.value.placements))
  {
    var alone := Place(score, file, shard, names, Progress(loads, []));
    if alone.Ok? {
      var placed := [Placement(shard, Chosen(names, Ranked(score, file, shard, names, loads)[..REQUIRED_REPLICAS]))];
      assert [] + placed == placed;
    }
  }

  lemma {:induction false} GreedyStaysStuck(score: Score, file: nat, names: seq<string>, k: nat, n: nat)
    requires k <= n && Greedy(score, file, names, k).Err?
    ensures Greedy(score, file, names, n) == Greedy(score, file, names, k)
  {
    if k < n {
      GreedyStaysStuck(score, file, names, k, n - 1);
    }
  }

  /** The loads a plan puts on the named nodes. */
  function PlanLoads(plan: Plan, names: seq<string>): seq<nat> {
    seq(|names|, i requires 0 <= i < |names| => Uses(plan.placements, names[i]))
  }

  /**
   * The plan exists exactly when there are thirty distinct non-empty names. It then gives every shard three distinct
   * nodes, no node more than a hundred shards, 3000 replicas in all, and each node the average rounded down or up;
   * running out of capacity never happens.
   */
  lemma CapacityPlanCorrect(score: Score, file: nat, nodes: seq<string>)
    ensures var r := CapacityPlan(score, file, nodes);
            var names := Canonical(nodes);
            && (r.Ok? <==> |Names(nodes)| >= MIN_NODES_FOR_CAPACITY_LIMIT)
            && (r.Err? ==> r.error == TooFewNodes)
            && (r.Ok? ==>
                  && |r.value.placements| == REQUIRED_SHARDS
                  && (forall s :: 0 <= s < REQUIRED_SHARDS ==>
                        r.value.placements[s].shard == s && Spread(names, r.value.placements[s]))
                  && Total(PlanLoads(r.value, names)) == REQUIRED_SHARDS * REQUIRED_REPLICAS
                  && (forall i :: 0 <= i < |names| ==>
                        var load := Uses(r.value.placements, names[i]);
                        && 3000 / |names| <= load <= (3000 + |names| - 1) / |names|
                        && load <= MAX_SHARDS_PER_NODE))
  {
    hide Canonical, Names, Spread, Uses, Total, PlanLoads, Greedy;
    var names := Canonical(nodes);
    CanonicalContents(nodes);
    if |names| >= MIN_NODES_FOR_CAPACITY_LIMIT {
      GreedyNeverStuck(score, file, names, REQUIRED_SHARDS);
      LoadsOfGreedy(names, Greedy(score, file, names, REQUIRED_SHARDS).value, file);
    }
  }

  lemma LoadsOfGreedy(names: seq<string>, p: Progress, file: nat)
    requires Sound(names, REQUIRED_SHARDS, p) && names != []
    ensures PlanLoads(Plan(file, REQUIRED_SHARDS, REQUIRED_REPLICAS, p.placements), names) == p.loads
    ensures forall i :: 0 <= i < |names| ==>
              3000 / |names| <= Uses(p.placements, names[i]) <= (3000 + |names| - 1) / |names|
  {
    forall i | 0 <= i < |names|
      ensures 3000 / |names| <= p.loads[i] <= (3000 + |names| - 1) / |names|
    {
      BalancedAverage(p.loads, i);
    }
  }
}
