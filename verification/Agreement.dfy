/** Two chains certified by one validator set: what divergence proves, and when it cannot happen. */
module Agreement {
  import opened Prelude
  import opened Quorum
  import opened Onecoin
  import opened Ledger
  import opened Consensus
  import opened ChainSafety

  ghost predicate DoubleApproval(c: Crypto, key: Key, v: Vote, w: Vote) {
    && v.approve && VoteVerifies(c, v, key)
    && w.approve && VoteVerifies(c, w, key)
    && v.height == w.height && v.blockHash != w.blockHash
  }

  /** The validators that approved two different blocks at one height, going by the votes seen. */
  ghost function Equivocators(c: Crypto, validators: Validators, seen: set<Vote>): set<AweId> {
    set id | id in validators && exists v, w :: v in seen && w in seen && DoubleApproval(c, validators[id], v, w)
  }

  lemma EquivocatorsGrow(c: Crypto, validators: Validators, seen: set<Vote>, more: set<Vote>)
    requires seen <= more
    ensures Equivocators(c, validators, seen) <= Equivocators(c, validators, more)
    ensures |Equivocators(c, validators, seen)| <= |Equivocators(c, validators, more)|
  {
    hide DoubleApproval;
    assert Equivocators(c, validators, seen) <= Equivocators(c, validators, more);
    SubsetSize(Equivocators(c, validators, seen), Equivocators(c, validators, more));
  }

  lemma ApproversAreValidators(c: Crypto, validators: Validators, cert: Certificate)
    ensures Approvers(c, validators, cert) <= validators.Keys
  {
  }

  /** Certificates for two blocks at one height convict every validator they share, by the votes they hold. */
  lemma SharedApproversEquivocate(c: Crypto, validators: Validators, x: Certificate, y: Certificate)
    requires x.height == y.height && x.blockHash != y.blockHash
    ensures Approvers(c, validators, x) * Approvers(c, validators, y)
         <= Equivocators(c, validators, Elems(x.votes) + Elems(y.votes))
  {
    var seen := Elems(x.votes) + Elems(y.votes);
    forall id | id in Approvers(c, validators, x) * Approvers(c, validators, y)
      ensures id in Equivocators(c, validators, seen)
    {
      var v :| v in x.votes && Approves(c, validators, x, v) && v.voter == id;
      var w :| w in y.votes && Approves(c, validators, y, w) && w.voter == id;
      assert v in seen && w in seen && DoubleApproval(c, validators[id], v, w);
    }
  }

  /** Accountability: at least 2q - n validators stand behind both of two conflicting certificates, and their two
      approvals are among the votes of the certificates. */
  lemma ConflictIsAccountable(
      c: Crypto, validators: Validators, x: Certificate, y: Certificate, height: u64)
    requires CertificateVerifies(c, validators, x, x.blockHash, height).Ok?
    requires CertificateVerifies(c, validators, y, y.blockHash, height).Ok?
    requires x.blockHash != y.blockHash
    ensures |Approvers(c, validators, x) * Approvers(c, validators, y)| >= Overlap(|validators|)
    ensures |Equivocators(c, validators, Elems(x.votes) + Elems(y.votes))| >= Overlap(|validators|)
  {
    var a, b := Approvers(c, validators, x), Approvers(c, validators, y);
    ApproversAreValidators(c, validators, x);
    ApproversAreValidators(c, validators, y);
    assert |validators.Keys| == |validators|;
    QuorumsIntersect(a, b, validators.Keys);
    SharedApproversEquivocate(c, validators, x, y);
    hide Approvers, Equivocators;
    SubsetSize(a * b, Equivocators(c, validators, Elems(x.votes) + Elems(y.votes)));
  }

  /** Fewer validators approved two ways, going by the votes seen, than any two quorums must share. */
  ghost predicate Trusted(c: Crypto, validators: Validators, seen: set<Vote>) {
    CollisionFree(c) && |Equivocators(c, validators, seen)| < Overlap(|validators|)
  }

  /** No double approvals among the votes seen is enough, for every validator set below 3.6e15. */
  lemma HonestIsTrusted(c: Crypto, validators: Validators, seen: set<Vote>)
    requires CollisionFree(c) && 1 <= |validators| < 3_689_348_814_741_912
    requires forall id, v, w :: id in validators && v in seen && w in seen ==> !DoubleApproval(c, validators[id], v, w)
    ensures Trusted(c, validators, seen)
  {
    assert Equivocators(c, validators, seen) == {};
    OverlapPositive(|validators|);
  }

  function Blocks(chain: seq<Entry>): seq<Block> {
    seq(|chain|, i requires 0 <= i < |chain| => chain[i].block)
  }

  /** The votes in the certificates of a chain. */
  function Evidence(chain: seq<Entry>): set<Vote> {
    set e, v | e in chain && v in e.cert.votes :: v
  }

  lemma EvidenceOf(chain: seq<Entry>, i: nat)
    requires i < |chain|
    ensures Elems(chain[i].cert.votes) <= Evidence(chain)
  {
    assert chain[i] in chain;
  }

  /** Two chains hold the same block wherever the heights coincide, if their certificates convict too few. */
  lemma SameHeightSameBlock(
      c: Crypto, validators: Validators, l0: Ledger, x: seq<Entry>, y: seq<Entry>, i: nat, j: nat)
    requires Trusted(c, validators, Evidence(x) + Evidence(y))
    requires IsChain(c, validators, l0, x) && IsChain(c, validators, l0, y)
    requires i < |x| && j < |y| && Height(i + 1) == Height(j + 1)
    ensures x[i].block == y[j].block
  {
    ChainLinked(c, validators, l0, x, i);
    ChainLinked(c, validators, l0, y, j);
    var a, b := x[i], y[j];
    EvidenceOf(x, i);
    EvidenceOf(y, j);
    hide Evidence, Equivocators, IsChain;
    if BlockHash(c, a.block) != BlockHash(c, b.block) {
      ConflictIsAccountable(c, validators, a.cert, b.cert, a.block.header.height);
      EquivocatorsGrow(c, validators, Elems(a.cert.votes) + Elems(b.cert.votes), Evidence(x) + Evidence(y));
    }
    assert c.hash(BlockBytes(a.block)) == c.hash(BlockBytes(b.block));
  }

  /** A chain cannot outgrow its 64-bit height: a second block at the last height would have to be its own parent. */
  lemma ChainFitsHeight(c: Crypto, validators: Validators, l0: Ledger, chain: seq<Entry>)
    requires Trusted(c, validators, Evidence(chain)) && IsChain(c, validators, l0, chain)
    ensures |chain| <= U64_MAX
  {
    hide Evidence, Equivocators;
    if |chain| > U64_MAX {
      var last := U64_MAX;
      assert Evidence(chain) + Evidence(chain) == Evidence(chain);
      SameHeightSameBlock(c, validators, l0, chain, chain, last - 1, last);
      ChainLinked(c, validators, l0, chain, last - 1);
      ChainLinked(c, validators, l0, chain, last);
      ChainLinked(c, validators, l0, chain, last - 2);
    }
  }

  /** Agreement: one finalized chain is a prefix of the other, if their certificates convict fewer than 2q - n. */
  lemma {:induction false} ChainsAgree(
      c: Crypto, validators: Validators, l0: Ledger, x: seq<Entry>, y: seq<Entry>)
    requires Trusted(c, validators, Evidence(x) + Evidence(y))
    requires IsChain(c, validators, l0, x) && IsChain(c, validators, l0, y)
    ensures Blocks(x) <= Blocks(y) || Blocks(y) <= Blocks(x)
  {
    forall i | 0 <= i < |x| && i < |y|
      ensures Blocks(x)[i] == Blocks(y)[i]
    {
      SameHeightSameBlock(c, validators, l0, x, y, i, i);
    }
  }

  lemma {:induction false} SameBlocksSameTransfers(x: seq<Entry>, y: seq<Entry>)
    requires Blocks(x) == Blocks(y)
    ensures Transfers(x) == Transfers(y)
  {
    if x != [] {
      assert |x| == |Blocks(x)| == |Blocks(y)| == |y|;
      var last := |x| - 1;
      assert x[last].block == Blocks(x)[last] == Blocks(y)[last] == y[last].block;
      assert Blocks(x[..last]) == Blocks(x)[..last];
      assert Blocks(y[..last]) == Blocks(y)[..last];
      SameBlocksSameTransfers(x[..last], y[..last]);
    } else {
      assert |y| == |Blocks(y)| == |Blocks(x)| == 0;
    }
  }

  lemma TrustedLess(c: Crypto, validators: Validators, seen: set<Vote>, more: set<Vote>)
    requires Trusted(c, validators, more) && seen <= more
    ensures Trusted(c, validators, seen)
  {
    EquivocatorsGrow(c, validators, seen, more);
  }

  /** Equal heights mean equal states, ledger included. */
  lemma EqualHeightsEqualStates(c: Crypto, validators: Validators, l0: Ledger, x: seq<Entry>, y: seq<Entry>)
    requires Trusted(c, validators, Evidence(x) + Evidence(y))
    requires IsChain(c, validators, l0, x) && IsChain(c, validators, l0, y)
    requires Replay(c, validators, l0, x).value.height == Replay(c, validators, l0, y).value.height
    ensures Blocks(x) == Blocks(y)
    ensures Replay(c, validators, l0, x) == Replay(c, validators, l0, y)
  {
    hide Evidence, Trusted;
    TrustedLess(c, validators, Evidence(x), Evidence(x) + Evidence(y));
    TrustedLess(c, validators, Evidence(y), Evidence(x) + Evidence(y));
    ChainFitsHeight(c, validators, l0, x);
    ChainFitsHeight(c, validators, l0, y);
    ChainState(c, validators, l0, x);
    ChainState(c, validators, l0, y);
    assert |Blocks(x)| == |x| && |Blocks(y)| == |y|;
    ChainsAgree(c, validators, l0, x, y);
    SameBlocksSameTransfers(x, y);
    ChainApplies(c, validators, l0, x);
    ChainApplies(c, validators, l0, y);
    if x != [] {
      assert Blocks(x)[|x| - 1] == Blocks(y)[|y| - 1];
    }
  }
}
