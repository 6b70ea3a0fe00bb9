/** Placement of shards on storage nodes: rendezvous selection, plans and their health. */
module Replication {
  import opened Prelude
  import opened Sorting

  const REQUIRED_SHARDS: nat := 1000
  const REQUIRED_REPLICAS: nat := 3
  const MAX_SHARDS_PER_NODE: nat := 100
  const MIN_NODES_FOR_CAPACITY_LIMIT: nat :=
    (REQUIRED_SHARDS * REQUIRED_REPLICAS + MAX_SHARDS_PER_NODE - 1) / MAX_SHARDS_PER_NODE

  datatype Placement = Placement(shard: nat, nodes: seq<string>)

  datatype Plan = Plan(fileId: nat, shards: nat, replicasPerShard: nat, placements: seq<Placement>)

  datatype PlanError = TooFewNodes | CapacityExhausted(shard: nat)

  /** The digest of file id, shard index and node name; ties are possible as far as this model is concerned. */
  type Score = (nat, nat, string) -> nat

  // ---- the distinct, non-empty names in order ----

  function NonEmpty(nodes: seq<string>): seq<string> {
    if nodes == [] then []
    else (if nodes[0] == "" then [] else [nodes[0]]) + NonEmpty(nodes[1..])
  }

  function Names(nodes: seq<string>): set<string> {
    set n | n in nodes && n != ""
  }

  function Canonical(nodes: seq<string>): seq<string> {
    Dedup(Sort(NonEmpty(nodes), NameLeq))
  }

  lemma {:induction false} NonEmptyContents(nodes: seq<string>)
    ensures Elems(NonEmpty(nodes)) == Names(nodes)
  {
    if nodes != [] {
      NonEmptyContents(nodes[1..]);
      var first: seq<string> := if nodes[0] == "" then [] else [nodes[0]];
      assert Elems(first + NonEmpty(nodes[1..])) == Elems(first) + Names(nodes[1..]);
    }
  }

  lemma CanonicalContents(nodes: seq<string>)
    ensures Elems(Canonical(nodes)) == Names(nodes)
    ensures NoDup(Canonical(nodes)) && Sorted(Canonical(nodes), NameLeq)
    ensures |Canonical(nodes)| == |Names(nodes)|
  {
    NameOrder();
    NonEmptyContents(nodes);
    SortContents(NonEmpty(nodes), NameLeq);
    SortSorted(NonEmpty(nodes), NameLeq);
    DedupSorted(Sort(NonEmpty(nodes), NameLeq), NameLeq);
    NoDupSize(Canonical(nodes));
  }

  /** The canonical list depends on the set of non-empty names alone. */
  lemma CanonicalOfSet(a: seq<string>, b: seq<string>)
    requires Names(a) == Names(b)
    ensures Canonical(a) == Canonical(b)
  {
    NameOrder();
    CanonicalContents(a);
    CanonicalContents(b);
    SetSortedUnique(Canonical(a), Canonical(b), NameLeq);
  }
}
