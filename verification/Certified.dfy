/** Blocks and certificates that honest validators can make, and that finalize. */
module Certified {
  import opened Prelude
  import opened Sorting
  import opened Quorum
  import opened Onecoin
  import opened Consensus
  import opened ChainSafety
  import opened Runtime

  type Signers = map<AweId, Identity>

  /** A validator set as `open` admits it, all of whose members can sign. */
  ghost predicate SetUp(c: Crypto, validators: Validators, who: Signers) {
    && validators != map[]
    && forall id :: id in validators ==>
         c.aweId(validators[id]) == id && id in who && who[id].key == validators[id] && SignsFor(c, who[id])
  }

  predicate InCanonicalOrder(c: Crypto, txs: seq<Transaction>) {
    |txs| <= MAX_BLOCK_TRANSACTIONS && forall i :: 0 <= i < |txs| - 1 ==> CanonicalLeq(c, txs[i], txs[i + 1])
  }

  /** The proposer's next block on top of a state. */
  function NextBlock(c: Crypto, proposer: Identity, st: Finalized, txs: seq<Transaction>, time: u64): Block
    requires |txs| <= MAX_BLOCK_TRANSACTIONS
  {
    NewBlock(c, proposer, SatAdd64(st.height, 1), st.tip, txs, time).value
  }

  /** The approvals of the signers, in the order of their ids. */
  function Certify(c: Crypto, who: Signers, signers: set<AweId>, b: Block): Certificate
    requires signers <= who.Keys
  {
    var keys := SortedKeys(signers);
    SortedKeysContents(signers);
    assert forall i :: 0 <= i < |keys| ==> keys[i] in Elems(keys);
    Certificate(BlockHash(c, b), b.header.height,
                seq(|keys|, i requires 0 <= i < |keys| => NewVote(c, who[keys[i]], b, true)))
  }

  lemma CertifyVotes(c: Crypto, who: Signers, signers: set<AweId>, b: Block)
    requires signers <= who.Keys
    ensures forall id :: id in signers ==> NewVote(c, who[id], b, true) in Certify(c, who, signers, b).votes
    ensures forall v :: v in Certify(c, who, signers, b).votes ==>
              exists id :: id in signers && v == NewVote(c, who[id], b, true)
  {
    hide NewVote, SortedKeys;
    var keys, votes := SortedKeys(signers), Certify(c, who, signers, b).votes;
    SortedKeysContents(signers);
    forall id | id in signers
      ensures NewVote(c, who[id], b, true) in votes
    {
      assert id in Elems(keys);
      var i :| 0 <= i < |keys| && keys[i] == id;
      assert votes[i] == NewVote(c, who[id], b, true);
    }
    forall v | v in votes
      ensures exists id :: id in signers && v == NewVote(c, who[id], b, true)
    {
      var i :| 0 <= i < |votes| && votes[i] == v;
      assert keys[i] in Elems(keys);
    }
  }

  lemma OwnVoteVerifies(c: Crypto, validators: Validators, who: Signers, id: AweId, b: Block)
    requires SetUp(c, validators, who) && id in validators
    ensures var v := NewVote(c, who[id], b, true);
            v.voter == id && v.approve && VoteVerifies(c, v, validators[id])
  {
    var v := NewVote(c, who[id], b, true);
    assert c.verifies(who[id].key, VoteBody(v.(signature := 0)), v.signature);
  }

  lemma CertifyApprovers(c: Crypto, validators: Validators, who: Signers, signers: set<AweId>, b: Block)
    requires SetUp(c, validators, who) && signers <= validators.Keys
    ensures signers <= who.Keys
    ensures Approvers(c, validators, Certify(c, who, signers, b)) == signers
  {
    assert signers <= who.Keys;
    var cert := Certify(c, who, signers, b);
    CertifyVotes(c, who, signers, b);
    forall id | id in signers
      ensures id in Approvers(c, validators, cert)
    {
      OwnVoteVerifies(c, validators, who, id, b);
      assert Approves(c, validators, cert, NewVote(c, who[id], b, true));
    }
    forall id | id in Approvers(c, validators, cert)
      ensures id in signers
    {
      var v :| v in cert.votes && Approves(c, validators, cert, v) && v.voter == id;
      var k :| k in signers && v == NewVote(c, who[k], b, true);
      OwnVoteVerifies(c, validators, who, k, b);
    }
  }

  lemma RequiredFits(n: nat)
    ensures Required(n) <= n
  {
  }

  /** A block in canonical order is made as it is handed in, with a valid shape and signature. */
  lemma NextBlockSound(c: Crypto, proposer: Identity, st: Finalized, txs: seq<Transaction>, time: u64)
    requires CollisionFree(c) && SignsFor(c, proposer) && InCanonicalOrder(c, txs)
    ensures var b := NextBlock(c, proposer, st, txs, time);
            && b.transactions == txs
            && ValidShape(c, b).Ok? && ProposerVerifies(c, b, proposer.key)
            && b.header.height == SatAdd64(st.height, 1) && b.header.previousHash == st.tip
            && b.header.timestamp == time && b.header.proposer == c.aweId(proposer.key)
  {
    NewBlockCanonical(c, proposer, SatAdd64(st.height, 1), st.tip, txs, txs, time);
    var leq := CanonicalOrder(c);
    CanonicalOrderTotal(c);
    AdjacentSorted(txs, leq);
    SortContents(txs, leq);
    SortSorted(txs, leq);
    SortedUnique(Sort(txs, leq), txs, leq);
    hide ValidShape, ProposerVerifies, Sort, CollisionFree, SignsFor, CanonicalLeq;
  }

  /** What finalizing asks of a block besides shape, proposer and certificate. */
  predicate Finalizable(c: Crypto, st: Finalized, b: Block) {
    && b.header.height == SatAdd64(st.height, 1) && b.header.previousHash == st.tip
    && Execute(c, st.ledger, b.transactions).Ok?
  }

  /** A block that extends the tip and executes is finalized by the approvals of any quorum. */
  lemma QuorumFinalizes(
      c: Crypto, validators: Validators, who: Signers, st: Finalized, b: Block, signers: set<AweId>)
    requires SetUp(c, validators, who) && PendingOk(c, validators, BlockHash(c, b), b) && Finalizable(c, st, b)
    requires signers <= validators.Keys && |signers| >= Required(|validators|)
    ensures signers <= who.Keys
    ensures Finalize(c, validators, st, b, Certify(c, who, signers, b))
         == Ok(Finalized(Execute(c, st.ledger, b.transactions).value, b.header.height, BlockHash(c, b)))
  {
    CertifyApprovers(c, validators, who, signers, b);
    assert |validators| > 0;
    hide ValidShape, ProposerVerifies, Execute, Approvers;
  }

  /** Any validator can propose, and any quorum certify, transfers in canonical order that apply. */
  lemma Extends(
      c: Crypto, validators: Validators, who: Signers, st: Finalized, proposer: AweId, txs: seq<Transaction>, time: u64)
    requires CollisionFree(c) && SetUp(c, validators, who) && proposer in validators
    requires InCanonicalOrder(c, txs) && Applied(c, st.ledger, txs).Ok?
    ensures var b := NextBlock(c, who[proposer], st, txs, time);
            && b.transactions == txs && b.header.timestamp == time
            && PendingOk(c, validators, BlockHash(c, b), b) && Finalizable(c, st, b)
            && Execute(c, st.ledger, txs) == Applied(c, st.ledger, txs)
  {
    NextBlockSound(c, who[proposer], st, txs, time);
    DuplicateCheckRedundant(c, st.ledger, txs);
    ExecuteApplies(c, st.ledger, txs);
    hide ValidShape, ProposerVerifies, Execute, Applied, NextBlock, CollisionFree;
  }
}
