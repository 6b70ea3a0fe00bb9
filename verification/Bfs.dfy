/** Breadth-first search over an adjacency table whose lists may come in any order and may repeat entries. */
module Bfs {
  import opened Prelude

  predicate Edge<T(==)>(adj: map<T, seq<T>>, u: T, v: T) {
    u in adj && v in adj[u]
  }

  predicate IsPath<T(==)>(adj: map<T, seq<T>>, p: seq<T>) {
    |p| >= 1 && forall i :: 0 <= i < |p| - 1 ==> Edge(adj, p[i], p[i + 1])
  }

  ghost predicate PathFromTo<T(!new)>(adj: map<T, seq<T>>, src: T, dst: T, p: seq<T>) {
    IsPath(adj, p) && p[0] == src && p[|p| - 1] == dst
  }

  /** `r` is a shortest path without repeats, or absent because there is no path at all. */
  ghost predicate ShortestRoute<T(!new)>(adj: map<T, seq<T>>, src: T, dst: T, r: Option<seq<T>>) {
    match r
    case None => forall p :: !PathFromTo(adj, src, dst, p)
    case Some(best) =>
      && PathFromTo(adj, src, dst, best) && NoDup(best)
      && forall p :: PathFromTo(adj, src, dst, p) ==> |best| <= |p|
  }

  /** Parents are set along edges, and `d` counts the edges back to the source. */
  ghost predicate Tree<T(!new)>(adj: map<T, seq<T>>, src: T, prev: map<T, Option<T>>, d: map<T, nat>) {
    && d.Keys == prev.Keys
    && src in prev && prev[src] == None && d[src] == 0
    && (forall v :: v in prev && prev[v].None? ==> v == src)
    && (forall v :: v in prev && prev[v].Some? ==>
          prev[v].value in prev && Edge(adj, prev[v].value, v) && d[v] == d[prev[v].value] + 1)
  }

  ghost predicate Closed<T(!new)>(adj: map<T, seq<T>>, prev: map<T, Option<T>>, d: map<T, nat>, u: T)
    requires d.Keys == prev.Keys && u in prev
  {
    forall v :: Edge(adj, u, v) ==> v in prev && d[v] <= d[u] + 1
  }

  /** The queue holds discovered vertices in order of distance, all at distance `low` or one more. */
  ghost predicate Level<T(!new)>(q: seq<T>, d: map<T, nat>, low: nat) {
    && (forall i :: 0 <= i < |q| ==> q[i] in d && low <= d[q[i]] <= low + 1)
    && (forall i, j :: 0 <= i < j < |q| ==> d[q[i]] <= d[q[j]])
  }

  ghost predicate SearchInv<T(!new)>(adj: map<T, seq<T>>, src: T, q: seq<T>, prev: map<T, Option<T>>, d: map<T, nat>) {
    && Tree(adj, src, prev, d)
    && (forall u :: u in prev && u !in q ==> Closed(adj, prev, d, u))
    && (q != [] ==>
          && q[0] in d && Level(q, d, d[q[0]])
          && forall u :: u in prev && u !in q ==> d[u] <= d[q[0]])
  }

  /** While the first `k` neighbours of `x` have been looked at. */
  ghost predicate ScanInv<T(!new)>(
    adj: map<T, seq<T>>, src: T, x: T, k: nat, q: seq<T>, prev: map<T, Option<T>>, d: map<T, nat>)
  {
    && Tree(adj, src, prev, d)
    && x in adj && x in prev && k <= |adj[x]|
    && Level(q, d, d[x])
    && (forall u :: u in prev && u !in q ==> d[u] <= d[x])
    && (forall u :: u in prev && u !in q && u != x ==> Closed(adj, prev, d, u))
    && (forall i :: 0 <= i < k ==> adj[x][i] in prev && d[adj[x][i]] <= d[x] + 1)
  }

  lemma StartScan<T(!new)>(adj: map<T, seq<T>>, src: T, q: seq<T>, prev: map<T, Option<T>>, d: map<T, nat>)
    requires SearchInv(adj, src, q, prev, d) && q != [] && q[0] in adj
    ensures ScanInv(adj, src, q[0], 0, q[1..], prev, d)
  {
    assert q == [q[0]] + q[1..];
  }

  lemma SkipIsolated<T(!new)>(adj: map<T, seq<T>>, src: T, q: seq<T>, prev: map<T, Option<T>>, d: map<T, nat>)
    requires SearchInv(adj, src, q, prev, d) && q != [] && q[0] !in adj
    ensures SearchInv(adj, src, q[1..], prev, d)
  {
    assert q == [q[0]] + q[1..];
  }

  lemma ScanKnown<T(!new)>(
      adj: map<T, seq<T>>, src: T, x: T, k: nat, q: seq<T>, prev: map<T, Option<T>>, d: map<T, nat>)
    requires ScanInv(adj, src, x, k, q, prev, d) && k < |adj[x]| && adj[x][k] in prev
    ensures ScanInv(adj, src, x, k + 1, q, prev, d)
  {
    var p := adj[x][k];
    assert d[p] <= d[x] + 1 by {
      if p in q {
        var i :| 0 <= i < |q| && q[i] == p;
      }
    }
  }

  lemma TreeGrows<T(!new)>(adj: map<T, seq<T>>, src: T, prev: map<T, Option<T>>, d: map<T, nat>, x: T, p: T)
    requires Tree(adj, src, prev, d) && x in prev && p !in prev && Edge(adj, x, p)
    ensures Tree(adj, src, prev[p := Some(x)], d[p := d[x] + 1])
  {
    hide Edge;
  }

  lemma LevelGrows<T(!new)>(q: seq<T>, d: map<T, nat>, low: nat, p: T)
    requires Level(q, d, low) && p !in d
    ensures Level(q + [p], d[p := low + 1], low)
  {
  }

  lemma ClosedGrows<T(!new)>(adj: map<T, seq<T>>, prev: map<T, Option<T>>, d: map<T, nat>, u: T, p: T, x: T, n: nat)
    requires d.Keys == prev.Keys && u in prev && p !in prev && Closed(adj, prev, d, u)
    ensures Closed(adj, prev[p := Some(x)], d[p := n], u)
  {
  }

  lemma BehindGrows<T(!new)>(
      adj: map<T, seq<T>>, x: T, k: nat, q: seq<T>, prev: map<T, Option<T>>, d: map<T, nat>)
    requires d.Keys == prev.Keys && x in adj && x in prev && k < |adj[x]| && adj[x][k] !in prev
    requires forall u :: u in prev && u !in q ==> d[u] <= d[x]
    requires forall i :: 0 <= i < k ==> adj[x][i] in prev && d[adj[x][i]] <= d[x] + 1
    ensures var p := adj[x][k];
            var q', prev', d' := q + [p], prev[p := Some(x)], d[p := d[x] + 1];
            && (forall u :: u in prev' && u !in q' ==> u in prev && u !in q && u != p && d'[u] <= d'[x])
            && (forall i :: 0 <= i < k + 1 ==> adj[x][i] in prev' && d'[adj[x][i]] <= d'[x] + 1)
  {
    var p := adj[x][k];
    assert p in q + [p];
  }

  lemma ScanNew<T(!new)>(
      adj: map<T, seq<T>>, src: T, x: T, k: nat, q: seq<T>, prev: map<T, Option<T>>, d: map<T, nat>)
    requires ScanInv(adj, src, x, k, q, prev, d) && k < |adj[x]| && adj[x][k] !in prev
    ensures var p := adj[x][k]; ScanInv(adj, src, x, k + 1, q + [p], prev[p := Some(x)], d[p := d[x] + 1])
  {
    var p := adj[x][k];
    var q', prev', d' := q + [p], prev[p := Some(x)], d[p := d[x] + 1];
    assert Edge(adj, x, p) && d.Keys == prev.Keys;
    hide Edge, Closed, Level, Tree;
    TreeGrows(adj, src, prev, d, x, p);
    LevelGrows(q, d, d[x], p);
    BehindGrows(adj, x, k, q, prev, d);
    forall u | u in prev' && u !in q' && u != x
      ensures Closed(adj, prev', d', u)
    {
      ClosedGrows(adj, prev, d, u, p, x, d[x] + 1);
    }
    assert d'[x] == d[x];
  }

  lemma EndScan<T(!new)>(adj: map<T, seq<T>>, src: T, x: T, q: seq<T>, prev: map<T, Option<T>>, d: map<T, nat>)
    requires x in adj && ScanInv(adj, src, x, |adj[x]|, q, prev, d)
    ensures SearchInv(adj, src, q, prev, d)
  {
    assert Closed(adj, prev, d, x);
    if q != [] {
      assert Level(q, d, d[q[0]]);
    }
  }

  /** Along any path from the source, either the search is already there as fast, or the frontier is that close. */
  lemma {:induction false} FrontierBound<T(!new)>(
      adj: map<T, seq<T>>, src: T, q: seq<T>, prev: map<T, Option<T>>, d: map<T, nat>, p: seq<T>, i: nat)
    requires SearchInv(adj, src, q, prev, d) && IsPath(adj, p) && p[0] == src && i < |p|
    ensures (p[i] in prev && d[p[i]] <= i) || (q != [] && d[q[0]] <= i)
  {
    if i > 0 {
      FrontierBound(adj, src, q, prev, d, p, i - 1);
      assert Edge(adj, p[i - 1], p[i - 1 + 1]);
      if p[i - 1] in prev && d[p[i - 1]] <= i - 1 {
        if p[i - 1] in q {
          var j :| 0 <= j < |q| && q[j] == p[i - 1];
        } else {
          assert Closed(adj, prev, d, p[i - 1]);
        }
      }
    }
  }

  function Reverse<T(!new)>(s: seq<T>): seq<T> {
    if s == [] then [] else [s[|s| - 1]] + Reverse(s[..|s| - 1])
  }

  /** The walk from `x` to the destination that parents have been followed along. */
  ghost predicate Walked<T(!new)>(adj: map<T, seq<T>>, d: map<T, nat>, x: T, dst: T, p: seq<T>) {
    && PathFromTo(adj, x, dst, p)
    && (forall i :: 0 <= i < |p| ==> p[i] in d)
    && x in d && forall i :: 0 <= i < |p| ==> d[p[i]] == d[x] + i
  }

  lemma WalkBack<T(!new)>(adj: map<T, seq<T>>, src: T, prev: map<T, Option<T>>, d: map<T, nat>, x: T, dst: T, p: seq<T>)
    requires Tree(adj, src, prev, d) && x in prev && prev[x].Some? && Walked(adj, d, x, dst, p)
    ensures Walked(adj, d, prev[x].value, dst, [prev[x].value] + p)
  {
    var u := prev[x].value;
    var r := [u] + p;
    forall i | 0 <= i < |r| - 1
      ensures Edge(adj, r[i], r[i + 1])
    {
      if i > 0 {
        assert Edge(adj, p[i - 1], p[i - 1 + 1]);
      }
    }
  }

  ghost function Universe<T(!new)>(adj: map<T, seq<T>>, src: T): set<T> {
    {src} + (set u, i | u in adj && 0 <= i < |adj[u]| :: adj[u][i])
  }

  lemma StartSearch<T(!new)>(adj: map<T, seq<T>>, src: T)
    ensures SearchInv(adj, src, [src], map[src := None], map[src := 0])
  {
  }

  /** When the queue is empty or headed by the destination, what was found is shortest, and what was not is not there. */
  lemma SearchDone<T(!new)>(
      adj: map<T, seq<T>>, src: T, dst: T, q: seq<T>, prev: map<T, Option<T>>, d: map<T, nat>)
    requires SearchInv(adj, src, q, prev, d) && (q == [] || q[0] == dst)
    ensures dst in prev ==> Tree(adj, src, prev, d)
    ensures forall p :: PathFromTo(adj, src, dst, p) ==> dst in prev && dst in d && d[dst] + 1 <= |p|
  {
    hide Closed, Level, Tree, IsPath;
    forall p | PathFromTo(adj, src, dst, p)
      ensures dst in prev && dst in d && d[dst] + 1 <= |p|
    {
      PathNotEmpty(adj, p);
      SearchKnows(adj, src, q, prev, d);
      FrontierBound(adj, src, q, prev, d, p, |p| - 1);
    }
  }

  lemma PathNotEmpty<T(!new)>(adj: map<T, seq<T>>, p: seq<T>)
    requires IsPath(adj, p)
    ensures |p| >= 1
  {
  }

  lemma SearchKnows<T(!new)>(adj: map<T, seq<T>>, src: T, q: seq<T>, prev: map<T, Option<T>>, d: map<T, nat>)
    requires SearchInv(adj, src, q, prev, d)
    ensures d.Keys == prev.Keys && (q != [] ==> q[0] in prev)
  {
  }

  method Route<T(==, !new)>(adj: map<T, seq<T>>, src: T, dst: T) returns (r: Option<seq<T>>)
    ensures ShortestRoute(adj, src, dst, r)
  {
    hide Closed, Level;
    if src == dst {
      assert PathFromTo(adj, src, dst, [src]);
      return Some([src]);
    }
    var q := [src];
    var prev: map<T, Option<T>> := map[src := None];
    ghost var d: map<T, nat> := map[src := 0];
    StartSearch(adj, src);
    while q != []
      invariant SearchInv(adj, src, q, prev, d)
      invariant prev.Keys <= Universe(adj, src)
      decreases Universe(adj, src) - prev.Keys, |q|
    {
      var x := q[0];
      if x == dst {
        break;
      }
      if x in adj {
        StartScan(adj, src, q, prev, d);
        q, prev, d := Scan(adj, src, x, q[1..], prev, d);
      } else {
        SkipIsolated(adj, src, q, prev, d);
        q := q[1..];
      }
    }
    SearchDone(adj, src, dst, q, prev, d);
    if dst !in prev {
      return None;
    }
    hide PathFromTo, Tree;
    var path := TraceBack(adj, src, dst, prev, d);
    r := Some(path);
  }

  method Scan<T(==, !new)>(
      adj: map<T, seq<T>>, ghost src: T, x: T, q0: seq<T>, prev0: map<T, Option<T>>, ghost d0: map<T, nat>)
    returns (q: seq<T>, prev: map<T, Option<T>>, ghost d: map<T, nat>)
    requires x in adj && ScanInv(adj, src, x, 0, q0, prev0, d0) && prev0.Keys <= Universe(adj, src)
    ensures SearchInv(adj, src, q, prev, d)
    ensures prev0.Keys <= prev.Keys <= Universe(adj, src)
    ensures prev.Keys == prev0.Keys ==> q == q0
  {
    q, prev, d := q0, prev0, d0;
    for k := 0 to |adj[x]|
      invariant ScanInv(adj, src, x, k, q, prev, d)
      invariant prev0.Keys <= prev.Keys <= Universe(adj, src)
      invariant prev.Keys == prev0.Keys ==> q == q0
    {
      var p := adj[x][k];
      if p !in prev {
        ScanNew(adj, src, x, k, q, prev, d);
        prev := prev[p := Some(x)];
        q := q + [p];
        d := d[p := d[x] + 1];
      } else {
        ScanKnown(adj, src, x, k, q, prev, d);
      }
    }
    EndScan(adj, src, x, q, prev, d);
  }

  method TraceBack<T(==, !new)>(
      ghost adj: map<T, seq<T>>, ghost src: T, dst: T, prev: map<T, Option<T>>, ghost d: map<T, nat>)
    returns (path: seq<T>)
    requires Tree(adj, src, prev, d) && dst in prev
    ensures PathFromTo(adj, src, dst, path) && NoDup(path) && |path| == d[dst] + 1
  {
    var x := dst;
    var out := [dst];
    assert Reverse(out) == [dst];
    while prev[x].Some?
      invariant x in prev && Walked(adj, d, x, dst, Reverse(out))
      decreases d[x]
    {
      WalkBack(adj, src, prev, d, x, dst, Reverse(out));
      x := prev[x].value;
      out := out + [x];
      assert out[..|out| - 1] + [x] == out;
    }
    path := Reverse(out);
  }
}
