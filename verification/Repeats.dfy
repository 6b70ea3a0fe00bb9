/** A chain of honest validators that finalizes one transaction twice, after exactly 2^64 others. */
module Repeats {
  import opened Prelude
  import opened Onecoin
  import opened Ledger
  import opened Consensus
  import opened ChainSafety
  import opened Agreement
  import opened Payments
  import opened Runtime
  import opened Certified

  /** Every certificate consists of one approval by every validator. */
  ghost predicate Unanimous(c: Crypto, validators: Validators, who: Signers, chain: seq<Entry>) {
    validators.Keys <= who.Keys
    && forall i :: 0 <= i < |chain| ==> chain[i].cert == Certify(c, who, validators.Keys, chain[i].block)
  }

  /** Nobody double signs along a unanimous chain: its heights are all different. */
  lemma UnanimousIsHonest(c: Crypto, validators: Validators, who: Signers, l0: Ledger, chain: seq<Entry>)
    requires Unanimous(c, validators, who, chain) && IsChain(c, validators, l0, chain) && |chain| <= U64_MAX
    ensures Equivocators(c, validators, Evidence(chain)) == {}
  {
    hide IsChain, VoteVerifies;
    forall v, w | v in Evidence(chain) && w in Evidence(chain) && v.height == w.height
      ensures v.blockHash == w.blockHash
    {
      var i := CertificateWith(c, validators, who, l0, chain, v);
      var j := CertificateWith(c, validators, who, l0, chain, w);
      assert i == j;
    }
  }

  lemma CertificateWith(c: Crypto, validators: Validators, who: Signers, l0: Ledger, chain: seq<Entry>, v: Vote)
    returns (i: nat)
    requires Unanimous(c, validators, who, chain) && IsChain(c, validators, l0, chain) && v in Evidence(chain)
    ensures i < |chain| && v.height == Height(i + 1) && v.blockHash == BlockHash(c, chain[i].block)
  {
    var e :| e in chain && v in e.cert.votes;
    i :| 0 <= i < |chain| && chain[i] == e;
    ChainLinked(c, validators, l0, chain, i);
    CertifyVotes(c, who, validators.Keys, e.block);
    hide IsChain, Certify;
  }

  /** Transfers in canonical order that run on top of a unanimous chain make a longer one. */
  lemma ExtendChain(
      c: Crypto, validators: Validators, who: Signers, l0: Ledger, chain: seq<Entry>, p: AweId, txs: seq<Transaction>)
    returns (e: Entry)
    requires CollisionFree(c) && SetUp(c, validators, who) && p in validators
    requires IsChain(c, validators, l0, chain) && Unanimous(c, validators, who, chain)
    requires InCanonicalOrder(c, txs) && Applied(c, l0, Transfers(chain) + txs).Ok?
    ensures IsChain(c, validators, l0, chain + [e]) && Unanimous(c, validators, who, chain + [e])
    ensures Transfers(chain + [e]) == Transfers(chain) + txs
  {
    var st := Replay(c, validators, l0, chain).value;
    ChainApplies(c, validators, l0, chain);
    AppliedSplit(c, l0, Transfers(chain), txs);
    Extends(c, validators, who, st, p, txs, 0);
    RequiredFits(|validators|);
    assert |validators.Keys| == |validators|;
    var b := NextBlock(c, who[p], st, txs, 0);
    QuorumFinalizes(c, validators, who, st, b, validators.Keys);
    hide NextBlock, Finalizable, Finalize, PendingOk, SetUp, CollisionFree, Certify, Applied, InCanonicalOrder;
    e := Entry(b, Certify(c, who, validators.Keys, b));
    var more := chain + [e];
    assert more[..|more| - 1] == chain;
  }

  // ---- two payments a block ----

  function Pair(c: Crypto, payer: Identity, j: nat): seq<Transaction> {
    [SelfPayment(c, payer, 0, 2 * j), SelfPayment(c, payer, 0, 2 * j + 1)]
  }

  lemma EvenStep(j: nat)
    ensures (2 * j) % NONCES < (2 * j + 1) % NONCES
  {
    var h := NONCES / 2;
    assert j == h * (j / h) + j % h;
    assert 2 * j == NONCES * (j / h) + 2 * (j % h);
    ModOf(j / h, 2 * (j % h));
    ModOf(j / h, 2 * (j % h) + 1);
  }

  lemma ModOf(q: nat, r: nat)
    requires r < NONCES
    ensures (NONCES * q + r) % NONCES == r
  {
  }

  lemma PairInOrder(c: Crypto, payer: Identity, j: nat)
    ensures |Pair(c, payer, j)| == 2 && InCanonicalOrder(c, Pair(c, payer, j))
  {
    EvenStep(j);
  }

  lemma PairIsNext(c: Crypto, payer: Identity, j: nat)
    ensures |Pair(c, payer, j)| == 2 && NextPayments(c, payer, 2 * j, Pair(c, payer, j))
  {
    PairInOrder(c, payer, j);
    hide SelfPayment, InCanonicalOrder;
  }

  lemma FreshPaymentsRun(c: Crypto, l: Ledger, payer: Identity, n: nat)
    requires Payer(c, l, payer) && Nonce(l, c.aweId(payer.key)) == 0
    ensures Applied(c, l, SelfPayments(c, payer, 0, n)).Ok?
  {
    SelfPaymentsRun(c, l, payer, n);
  }

  /** A unanimous chain of the first `n` self-payments. */
  ghost predicate PaidChain(
      c: Crypto, validators: Validators, who: Signers, l0: Ledger, payer: Identity, chain: seq<Entry>, n: nat)
  {
    && IsChain(c, validators, l0, chain) && Unanimous(c, validators, who, chain)
    && Transfers(chain) == SelfPayments(c, payer, 0, n)
  }

  ghost predicate Start(c: Crypto, validators: Validators, who: Signers, l0: Ledger, payer: Identity) {
    && CollisionFree(c) && SetUp(c, validators, who)
    && Payer(c, l0, payer) && Nonce(l0, c.aweId(payer.key)) == 0
  }

  /** The next self-payments after the first `n`. */
  predicate NextPayments(c: Crypto, payer: Identity, n: nat, txs: seq<Transaction>) {
    InCanonicalOrder(c, txs) && SelfPayments(c, payer, 0, n) + txs == SelfPayments(c, payer, 0, n + |txs|)
  }

  lemma NextPaymentsRun(
      c: Crypto, l0: Ledger, payer: Identity, paid: seq<Transaction>, n: nat, txs: seq<Transaction>)
    requires Payer(c, l0, payer) && Nonce(l0, c.aweId(payer.key)) == 0
    requires paid == SelfPayments(c, payer, 0, n) && NextPayments(c, payer, n, txs)
    ensures Applied(c, l0, paid + txs).Ok? && InCanonicalOrder(c, txs)
    ensures paid + txs == SelfPayments(c, payer, 0, n + |txs|)
  {
    hide Payer, Applied, SelfPayments, Nonce, InCanonicalOrder;
    FreshPaymentsRun(c, l0, payer, n + |txs|);
  }

  lemma ExtendPaid(
      c: Crypto, validators: Validators, who: Signers, l0: Ledger, payer: Identity, chain: seq<Entry>, n: nat,
      txs: seq<Transaction>)
    returns (e: Entry)
    requires Start(c, validators, who, l0, payer) && PaidChain(c, validators, who, l0, payer, chain, n)
    requires NextPayments(c, payer, n, txs)
    ensures PaidChain(c, validators, who, l0, payer, chain + [e], n + |txs|)
  {
    hide Payer, CollisionFree, InCanonicalOrder, IsChain, Unanimous, Applied, SelfPayments, Transfers, Nonce;
    hide NextPayments;
    NextPaymentsRun(c, l0, payer, Transfers(chain), n, txs);
    var p := SomeValidator(c, validators, who);
    hide SetUp;
    e := ExtendChain(c, validators, who, l0, chain, p, txs);
  }

  lemma SomeValidator(c: Crypto, validators: Validators, who: Signers) returns (p: AweId)
    requires SetUp(c, validators, who)
    ensures p in validators
  {
    p :| p in validators;
  }

  lemma EmptyPaid(c: Crypto, validators: Validators, who: Signers, l0: Ledger, payer: Identity)
    requires Start(c, validators, who, l0, payer)
    ensures PaidChain(c, validators, who, l0, payer, [], 0)
  {
    hide Payer, CollisionFree;
    assert validators.Keys <= who.Keys;
  }

  lemma {:induction false} PairChain(
      c: Crypto, validators: Validators, who: Signers, l0: Ledger, payer: Identity, k: nat)
    returns (chain: seq<Entry>)
    requires Start(c, validators, who, l0, payer)
    ensures |chain| == k && PaidChain(c, validators, who, l0, payer, chain, 2 * k)
  {
    hide Start, PaidChain, NextPayments, Pair;
    if k == 0 {
      chain := [];
      EmptyPaid(c, validators, who, l0, payer);
    } else {
      var front := PairChain(c, validators, who, l0, payer, k - 1);
      PairIsNext(c, payer, k - 1);
      var e := ExtendPaid(c, validators, who, l0, payer, front, 2 * (k - 1), Pair(c, payer, k - 1));
      chain := front + [e];
    }
  }

  /**
   * Where a member holds an atom at nonce zero, chains of up to 2^64 + 1 transfers that finalize a transaction twice,
   * without any double approval, are exactly those of 2^64 + 1: the bound on repetition is sharp.
   */
  lemma {:induction false} ChainRepeatsExactlyThere(
      c: Crypto, validators: Validators, who: Signers, l0: Ledger, payer: Identity, n: nat)
    requires Start(c, validators, who, l0, payer) && n <= NONCES + 1
    ensures (exists chain :: IsChain(c, validators, l0, chain) && |Transfers(chain)| == n && !NoDup(Transfers(chain))
                             && Equivocators(c, validators, Evidence(chain)) == {})
       <==> n == NONCES + 1
  {
    hide Start, IsChain, Transfers, NoDup, Equivocators, Evidence;
    if n == NONCES + 1 {
      var chain := RepeatingChain(c, validators, who, l0, payer);
    } else {
      forall chain | IsChain(c, validators, l0, chain) && |Transfers(chain)| == n
        ensures NoDup(Transfers(chain))
      {
        ChainNeverRepeats(c, validators, l0, chain);
      }
    }
  }

  lemma LastPayment(c: Crypto, payer: Identity) returns (last: seq<Transaction>)
    ensures |last| == 1 && NextPayments(c, payer, NONCES, last)
  {
    hide SelfPayment;
    last := [SelfPayment(c, payer, 0, NONCES)];
  }

  lemma PaidRepeats(
      c: Crypto, validators: Validators, who: Signers, l0: Ledger, payer: Identity, chain: seq<Entry>)
    requires PaidChain(c, validators, who, l0, payer, chain, NONCES + 1) && |chain| <= U64_MAX
    ensures IsChain(c, validators, l0, chain) && |Transfers(chain)| == NONCES + 1 && !NoDup(Transfers(chain))
    ensures Equivocators(c, validators, Evidence(chain)) == {}
  {
    hide IsChain, Unanimous, Transfers, SelfPayment, Equivocators, Evidence;
    UnanimousIsHonest(c, validators, who, l0, chain);
    SelfPaymentsRepeat(c, payer, 0, NONCES + 1);
    hide SelfPayments;
    assert Transfers(chain)[0] == Transfers(chain)[NONCES];
  }

  /** Half of 2^64 blocks of two self-payments, and one block of one more. */
  lemma RepeatingChain(c: Crypto, validators: Validators, who: Signers, l0: Ledger, payer: Identity)
    returns (chain: seq<Entry>)
    requires Start(c, validators, who, l0, payer)
    ensures IsChain(c, validators, l0, chain) && |Transfers(chain)| == NONCES + 1 && !NoDup(Transfers(chain))
    ensures Equivocators(c, validators, Evidence(chain)) == {}
  {
    hide Start, PaidChain, NextPayments, IsChain, Transfers, Equivocators, Evidence, NoDup;
    var front := PairChain(c, validators, who, l0, payer, NONCES / 2);
    var last := LastPayment(c, payer);
    var e := ExtendPaid(c, validators, who, l0, payer, front, NONCES, last);
    chain := front + [e];
    PaidRepeats(c, validators, who, l0, payer, chain);
  }
}
