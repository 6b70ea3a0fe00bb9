/** Rendezvous-hash selection of replicas and its stability under a growing network. */
module Rendezvous {
  import opened Prelude
  import opened Sorting
  import opened Replication

  function ByScore(score: Score, file: nat, shard: nat): (string, string) -> bool {
    (a, b) => score(file, shard, a) <= score(file, shard, b)
  }

  function SelectReplicas(score: Score, file: nat, shard: nat, nodes: seq<string>): seq<string> {
    var candidates := Canonical(nodes);
    if |candidates| <= REQUIRED_REPLICAS then candidates
    else
      SortContents(candidates, ByScore(score, file, shard));
      Sort(candidates, ByScore(score, file, shard))[..REQUIRED_REPLICAS]
  }

  /** The order the stable sort really produces: score first, name among equal scores. */
  predicate Ahead(score: Score, file: nat, shard: nat, a: string, b: string) {
    var x, y := score(file, shard, a), score(file, shard, b);
    x < y || (x == y && NameLeq(a, b))
  }

  function AheadOrder(score: Score, file: nat, shard: nat): (string, string) -> bool {
    (a, b) => Ahead(score, file, shard, a, b)
  }

  lemma AheadTotal(score: Score, file: nat, shard: nat)
    ensures TotalOrder(AheadOrder(score, file, shard))
  {
    NameOrder();
  }

  lemma SortIsByAhead(score: Score, file: nat, shard: nat, names: seq<string>)
    requires Sorted(names, NameLeq)
    ensures Sort(names, ByScore(score, file, shard)) == Sort(names, AheadOrder(score, file, shard))
  {
    StableSort(names, ByScore(score, file, shard), NameLeq, AheadOrder(score, file, shard));
  }

  ghost function Rivals(score: Score, file: nat, shard: nat, names: set<string>, n: string): set<string> {
    set m | m in names && m != n && Ahead(score, file, shard, m, n)
  }

  /** In an ordered list without repeats, as many elements are ahead of an entry as its position says. */
  lemma PositionCountsRivals(score: Score, file: nat, shard: nat, s: seq<string>, i: nat)
    requires Sorted(s, AheadOrder(score, file, shard)) && NoDup(s) && i < |s|
    ensures |Rivals(score, file, shard, Elems(s), s[i])| == i
  {
    var leq := AheadOrder(score, file, shard);
    AheadTotal(score, file, shard);
    var rivals := Rivals(score, file, shard, Elems(s), s[i]);
    assert rivals == Elems(s[..i]) by {
      forall m
        ensures m in rivals <==> m in s[..i]
      {
        if m in rivals {
          var j :| 0 <= j < |s| && s[j] == m;
          assert leq(s[j], s[i]);
          assert j < i;
          assert s[..i][j] == m;
        }
        if m in s[..i] {
          var j :| 0 <= j < i && s[j] == m;
          assert leq(s[j], s[i]);
        }
      }
    }
    NoDupSize(s[..i]);
  }

  /** Selection in one sentence: a node is chosen exactly when fewer than three others are ahead of it. */
  lemma SelectedExactlyWhenAhead(score: Score, file: nat, shard: nat, nodes: seq<string>, n: string)
    ensures n in SelectReplicas(score, file, shard, nodes)
       <==> n in Names(nodes) && |Rivals(score, file, shard, Names(nodes), n)| < REQUIRED_REPLICAS
  {
    var names := Canonical(nodes);
    CanonicalContents(nodes);
    if |names| <= REQUIRED_REPLICAS {
      assert n in names <==> n in Elems(names);
      if n in names {
        SubsetSize(Rivals(score, file, shard, Names(nodes), n), Names(nodes) - {n});
      }
    } else {
      var leq := AheadOrder(score, file, shard);
      var s := Sort(names, leq);
      SortIsByAhead(score, file, shard, names);
      AheadTotal(score, file, shard);
      SortContents(names, leq);
      SortSorted(names, leq);
      NoDupFromMultiset(s, names);
      assert n in Names(nodes) <==> n in Elems(s);
      if n in Elems(s) {
        var i :| 0 <= i < |s| && s[i] == n;
        PositionCountsRivals(score, file, shard, s, i);
        assert i < REQUIRED_REPLICAS ==> s[..REQUIRED_REPLICAS][i] == n;
      }
    }
  }

  /** The replicas are listed best first, or by name when there was nothing to choose. */
  lemma SelectedOrder(score: Score, file: nat, shard: nat, nodes: seq<string>)
    ensures var r := SelectReplicas(score, file, shard, nodes);
            if |Names(nodes)| <= REQUIRED_REPLICAS then Sorted(r, NameLeq) else Sorted(r, AheadOrder(score, file, shard))
  {
    var names := Canonical(nodes);
    var leq := AheadOrder(score, file, shard);
    CanonicalContents(nodes);
    if |names| > REQUIRED_REPLICAS {
      SortIsByAhead(score, file, shard, names);
      AheadTotal(score, file, shard);
      SortSorted(names, leq);
      SortContents(names, leq);
      var s := Sort(names, leq);
      forall a, b | 0 <= a < b < REQUIRED_REPLICAS
        ensures leq(s[..REQUIRED_REPLICAS][a], s[..REQUIRED_REPLICAS][b])
      {
        assert leq(s[a], s[b]);
      }
    }
  }

  lemma SelectedSize(score: Score, file: nat, shard: nat, nodes: seq<string>)
    ensures var r := SelectReplicas(score, file, shard, nodes);
            NoDup(r) && |r| == Min(REQUIRED_REPLICAS, |Names(nodes)|) && Elems(r) <= Names(nodes)
  {
    var names := Canonical(nodes);
    var leq := ByScore(score, file, shard);
    CanonicalContents(nodes);
    SortContents(names, leq);
    NoDupFromMultiset(Sort(names, leq), names);
    forall n | n in SelectReplicas(score, file, shard, nodes)
      ensures n in Names(nodes)
    {
      SelectedExactlyWhenAhead(score, file, shard, nodes, n);
    }
  }

  /** The choice depends on the set of non-empty names alone. */
  lemma SelectionOfSet(score: Score, file: nat, shard: nat, a: seq<string>, b: seq<string>)
    requires Names(a) == Names(b)
    ensures SelectReplicas(score, file, shard, a) == SelectReplicas(score, file, shard, b)
  {
    CanonicalOfSet(a, b);
  }

  /** A newcomer displaces at most one replica of a shard, and only to take its place. */
  lemma NewcomerDisplacesOne(score: Score, file: nat, shard: nat, nodes: seq<string>, more: seq<string>, x: string)
    requires |Names(nodes)| >= REQUIRED_REPLICAS && x !in Names(nodes) && Names(more) == Names(nodes) + {x}
    ensures var before := Elems(SelectReplicas(score, file, shard, nodes));
            var after := Elems(SelectReplicas(score, file, shard, more));
            && after <= before + {x}
            && |before - after| <= 1
            && (x !in after ==> after == before)
            && (x in after ==> exists gone :: gone in before && after == before - {gone} + {x})
  {
    var r, r' := SelectReplicas(score, file, shard, nodes), SelectReplicas(score, file, shard, more);
    var before, after := Elems(r), Elems(r');
    SelectedSize(score, file, shard, nodes);
    SelectedSize(score, file, shard, more);
    SubsetSize(Names(nodes), Names(more));
    NoDupSize(r);
    NoDupSize(r');
    forall n | n in after
      ensures n in before + {x}
    {
      SelectedExactlyWhenAhead(score, file, shard, nodes, n);
      SelectedExactlyWhenAhead(score, file, shard, more, n);
      SubsetSize(Rivals(score, file, shard, Names(nodes), n), Rivals(score, file, shard, Names(more), n));
    }
    assert x !in before by {
      assert x in before ==> x in Names(nodes);
    }
    OneReplaced(before, after, x);
  }

  lemma OneReplaced(before: set<string>, after: set<string>, x: string)
    requires |before| == |after| && after <= before + {x} && x !in before
    ensures x !in after ==> after == before
    ensures x in after ==> exists gone :: gone in before && after == before - {gone} + {x}
    ensures |before - after| <= 1
  {
    if x in after {
      var kept := after - {x};
      assert before == kept + (before - kept);
      assert |before - kept| == 1;
      var gone :| gone in before - kept;
      SubsetSize({gone}, before - kept);
      assert after == before - {gone} + {x};
      assert before - after == {gone};
    } else {
      SubsetSize(after, before);
    }
  }
}
