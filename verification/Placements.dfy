/** Which nodes hold which shard, to the node: the capacity-limited plan settled by the loads and digests alone. */
module Placements {
  import opened Prelude
  import opened Sorting
  import opened Replication
  import opened Capacity

  /** With the shards in `done` placed, `m` is taken for the next one before `n`: the lower load first, then the lower
      digest, then the lower name. */
  predicate Sooner(score: Score, file: nat, done: seq<Placement>, m: string, n: string) {
    var (um, un) := (Uses(done, m), Uses(done, n));
    var (sm, sn) := (score(file, |done|, m), score(file, |done|, n));
    um < un || (um == un && sm < sn) || (um == un && sm == sn && m != n && NameLeq(m, n))
  }

  predicate Open(done: seq<Placement>, n: string) {
    Uses(done, n) < 100
  }

  ghost function Sooners(score: Score, file: nat, names: set<string>, done: seq<Placement>, n: string): set<string> {
    set m | m in names && Open(done, m) && Sooner(score, file, done, m, n)
  }

  ghost function Those<T>(s: seq<T>, ahead: (T, T) -> bool, x: T): set<T> {
    set m | m in s && ahead(m, x)
  }

  /** In a list without repeats where each entry is strictly ahead of the later ones, position counts those ahead. */
  lemma PositionCounts<T>(s: seq<T>, ahead: (T, T) -> bool, i: nat)
    requires NoDup(s) && i < |s|
    requires forall a, b :: 0 <= a < b < |s| ==> ahead(s[a], s[b]) && !ahead(s[b], s[a])
    requires !ahead(s[i], s[i])
    ensures |Those(s, ahead, s[i])| == i
  {
    var found := Those(s, ahead, s[i]);
    forall m
      ensures m in found <==> m in s[..i]
    {
      if m in found {
        var j :| 0 <= j < |s| && s[j] == m;
        assert j < i;
        assert s[..i][j] == m;
      }
      if m in s[..i] {
        var j :| 0 <= j < i && s[j] == m;
      }
    }
    assert found == Elems(s[..i]);
    NoDupSize(s[..i]);
  }

  /** The open nodes in the order of the ranking, by name. */
  ghost predicate RankedNames(
      score: Score, file: nat, names: seq<string>, done: seq<Placement>, line: seq<string>)
  {
    && NoDup(line)
    && (forall n :: n in line <==> n in names && Open(done, n))
    && (forall a, b :: 0 <= a < b < |line| ==>
          Sooner(score, file, done, line[a], line[b]) && !Sooner(score, file, done, line[b], line[a]))
  }

  lemma RankedIndices(score: Score, file: nat, shard: nat, names: seq<string>, loads: seq<nat>)
    ensures var ranked := Ranked(score, file, shard, names, loads);
            && NoDup(ranked)
            && (forall i: nat :: i in ranked <==> i < |loads| && loads[i] < MAX_SHARDS_PER_NODE)
            && (forall a :: 0 <= a < |ranked| ==> ranked[a] < |loads|)
            && (forall a, b :: 0 <= a < b < |ranked| ==>
                  RankLeq(score, file, shard, names, loads, ranked[a], ranked[b]) && ranked[a] != ranked[b])
  {
    hide RankLeq;
    var leq := Rank(score, file, shard, names, loads);
    var ranked := Ranked(score, file, shard, names, loads);
    RankPreorder(score, file, shard, names, loads);
    EligibleContents(loads);
    SortContents(Eligible(loads), leq);
    SortSorted(Eligible(loads), leq);
    NoDupFromMultiset(ranked, Eligible(loads));
    assert forall i: nat :: i in ranked <==> i in Elems(ranked);
    assert forall i: nat :: i in Eligible(loads) <==> i in Elems(Eligible(loads));
    assert forall a :: 0 <= a < |ranked| ==> ranked[a] in ranked;
    assert forall a, b :: 0 <= a < b < |ranked| ==> leq(ranked[a], ranked[b]);
  }

  lemma RankIsSooner(
      score: Score, file: nat, names: seq<string>, done: seq<Placement>, loads: seq<nat>, i: nat, j: nat)
    requires NoDup(names) && i < |names| && j < |names| && |loads| == |names| && i != j
    requires Uses(done, names[i]) == loads[i] && Uses(done, names[j]) == loads[j]
    requires RankLeq(score, file, |done|, names, loads, i, j)
    ensures Sooner(score, file, done, names[i], names[j]) && !Sooner(score, file, done, names[j], names[i])
  {
    hide Uses, NameLeq;
    NameOrder();
  }

  lemma RankingByName(score: Score, file: nat, names: seq<string>, p: Progress)
    requires NoDup(names) && |p.loads| == |names|
    requires forall i :: 0 <= i < |names| ==> Uses(p.placements, names[i]) == p.loads[i]
    ensures var ranked := Ranked(score, file, |p.placements|, names, p.loads);
            RankedNames(score, file, names, p.placements, Chosen(names, ranked))
  {
    hide Ranked, Sooner, RankLeq, Uses;
    var ranked := Ranked(score, file, |p.placements|, names, p.loads);
    RankedIndices(score, file, |p.placements|, names, p.loads);
    var line := Chosen(names, ranked);
    PickedNames(names, ranked, line);
    forall n
      ensures n in line <==> n in names && Open(p.placements, n)
    {
      if n in names {
        var i :| 0 <= i < |names| && names[i] == n;
        assert Uses(p.placements, names[i]) == p.loads[i];
      }
    }
    forall a, b | 0 <= a < b < |line|
      ensures Sooner(score, file, p.placements, line[a], line[b]) && !Sooner(score, file, p.placements, line[b], line[a])
    {
      RankIsSooner(score, file, names, p.placements, p.loads, ranked[a], ranked[b]);
    }
  }

  lemma {:induction false} GreedyPrefix(score: Score, file: nat, names: seq<string>, k: nat, n: nat)
    requires k <= n && Greedy(score, file, names, n).Ok?
    ensures Greedy(score, file, names, k).Ok?
    ensures Greedy(score, file, names, k).value.placements <= Greedy(score, file, names, n).value.placements
  {
    if k < n {
      GreedyPrefix(score, file, names, k, n - 1);
    }
  }

  /** Three names of the front of the line: exactly those with fewer than three sooner ones. */
  lemma FrontOfLine(
      score: Score, file: nat, names: seq<string>, done: seq<Placement>, line: seq<string>, n: string)
    requires RankedNames(score, file, names, done, line) && |line| >= REQUIRED_REPLICAS
    ensures n in line[..REQUIRED_REPLICAS]
       <==> n in names && Open(done, n) && |Sooners(score, file, Elems(names), done, n)| < REQUIRED_REPLICAS
  {
    if n in line {
      var i :| 0 <= i < |line| && line[i] == n;
      var ahead := (m, k) => Sooner(score, file, done, m, k);
      PositionCounts(line, ahead, i);
      assert Sooners(score, file, Elems(names), done, n) == Those(line, ahead, line[i]);
      var front := line[..REQUIRED_REPLICAS];
      assert i < REQUIRED_REPLICAS ==> front[i] == n;
      if n in front {
        var j :| 0 <= j < |front| && front[j] == n;
        assert line[j] == line[i];
      }
    }
  }

  /**
   * The capacity-limited plan, shard by shard: with the earlier shards placed, a node gets the shard if and only if it is
   * among the names, holds fewer than a hundred shards and has fewer than three such nodes sooner than it. The three are
   * listed soonest first.
   */
  lemma CapacityPicksExactly(score: Score, file: nat, nodes: seq<string>, s: nat, n: string)
    requires |Names(nodes)| >= MIN_NODES_FOR_CAPACITY_LIMIT && s < REQUIRED_SHARDS
    ensures CapacityPlan(score, file, nodes).Ok? && |CapacityPlan(score, file, nodes).value.placements| == REQUIRED_SHARDS
    ensures var placements := CapacityPlan(score, file, nodes).value.placements;
            var done, picked := placements[..s], placements[s].nodes;
            && (n in picked <==> n in Names(nodes) && Open(done, n)
                                 && |Sooners(score, file, Names(nodes), done, n)| < REQUIRED_REPLICAS)
            && forall a, b :: 0 <= a < b < |picked| ==> Sooner(score, file, done, picked[a], picked[b])
  {
    hide Sound, Place, Names, Canonical, Sooner, Sooners, Open, Sort, Ranked;
    var names := Canonical(nodes);
    CanonicalContents(nodes);
    GreedyNeverStuck(score, file, names, REQUIRED_SHARDS);
    GreedyNeverStuck(score, file, names, s);
    GreedyNeverStuck(score, file, names, s + 1);
    GreedyPrefix(score, file, names, s, s + 1);
    GreedyPrefix(score, file, names, s + 1, REQUIRED_SHARDS);
    var p, next := Greedy(score, file, names, s).value, Greedy(score, file, names, s + 1).value;
    SoundLoads(names, s, p);
    SoundLength(names, s + 1, next);
    SoundLength(names, REQUIRED_SHARDS, Greedy(score, file, names, REQUIRED_SHARDS).value);
    PlacedIsFront(score, file, names, p);
    RankingByName(score, file, names, p);
    var line := Chosen(names, Ranked(score, file, s, names, p.loads));
    FrontOfLine(score, file, names, p.placements, line, n);
    var all := CapacityPlan(score, file, nodes).value.placements;
    assert all[..s] == p.placements;
    assert all[s] == next.placements[s];
  }

  lemma SoundLength(names: seq<string>, k: nat, p: Progress)
    requires Sound(names, k, p)
    ensures |p.placements| == k && |p.loads| == |names|
  {
  }

  lemma SoundLoads(names: seq<string>, k: nat, p: Progress)
    requires Sound(names, k, p)
    ensures |p.placements| == k && |p.loads| == |names|
    ensures forall i :: 0 <= i < |names| ==> Uses(p.placements, names[i]) == p.loads[i]
  {
  }

  /** The nodes placed are the front of the line. */
  lemma PlacedIsFront(score: Score, file: nat, names: seq<string>, p: Progress)
    requires |p.loads| == |names| && Place(score, file, |p.placements|, names, p).Ok?
    ensures var line := Chosen(names, Ranked(score, file, |p.placements|, names, p.loads));
            var r := Place(score, file, |p.placements|, names, p).value;
            && |line| >= REQUIRED_REPLICAS
            && r.placements == p.placements + [Placement(|p.placements|, line[..REQUIRED_REPLICAS])]
  {
    hide Ranked, Bump;
    var ranked := Ranked(score, file, |p.placements|, names, p.loads);
    assert Chosen(names, ranked)[..REQUIRED_REPLICAS] == Chosen(names, ranked[..REQUIRED_REPLICAS]);
  }
}
