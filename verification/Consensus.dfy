/** Blocks, quorum certificates and the finalized state, as values. */
module Consensus {
  import opened Prelude
  import opened Sorting
  import opened Quorum
  import opened Onecoin
  import opened Ledger

  const CONSENSUS_VERSION: nat := 1
  const MAX_BLOCK_TRANSACTIONS: nat := 4096

  datatype ConsensusError =
    | TooManyTransactions | BadVersion | TransactionHashMismatch | NotCanonical
    | CertificateMismatch | NoQuorum
    | ProposerNotValidator | BadProposerSignature | BadHeight | BadPreviousHash
    | DuplicateTransaction | SenderNotMember | TransferFailed(why: LedgerError)

  type Validators = map<AweId, Key>

  // ---- blocks ----

  /** The canonical order of transactions: sender, then nonce, then transaction id. */
  predicate CanonicalLeq(c: Crypto, a: Transaction, b: Transaction) {
    || a.sender < b.sender
    || (a.sender == b.sender && a.nonce < b.nonce)
    || (a.sender == b.sender && a.nonce == b.nonce && TxId(c, a) <= TxId(c, b))
  }

  function CanonicalOrder(c: Crypto): (Transaction, Transaction) -> bool {
    (a, b) => CanonicalLeq(c, a, b)
  }

  lemma CanonicalOrderTotal(c: Crypto)
    requires CollisionFree(c)
    ensures TotalOrder(CanonicalOrder(c))
  {
    forall a, b | CanonicalLeq(c, a, b) && CanonicalLeq(c, b, a)
      ensures a == b
    {
      assert c.hash(TxBytes(a)) == c.hash(TxBytes(b));
    }
  }

  function NewBlock(
      c: Crypto, proposer: Identity, height: u64, previous: Digest, txs: seq<Transaction>, timestamp: u64)
    : Result<Block, ConsensusError>
  {
    if |txs| > MAX_BLOCK_TRANSACTIONS then Err(TooManyTransactions)
    else
      var sorted := Sort(txs, CanonicalOrder(c));
      var unsigned := Block(
        BlockHeader(CONSENSUS_VERSION, height, previous, c.hash(TxListBytes(sorted)), c.aweId(proposer.key), timestamp),
        sorted, 0);
      Ok(unsigned.(signature := proposer.sign(BlockBody(unsigned))))
  }

  function ValidShape(c: Crypto, b: Block): Result<(), ConsensusError> {
    if b.header.version != CONSENSUS_VERSION then Err(BadVersion)
    else if |b.transactions| > MAX_BLOCK_TRANSACTIONS then Err(TooManyTransactions)
    else if c.hash(TxListBytes(b.transactions)) != b.header.transactionsHash then Err(TransactionHashMismatch)
    else if exists i :: 0 <= i < |b.transactions| - 1
                        && !CanonicalOrder(c)(b.transactions[i], b.transactions[i + 1]) then Err(NotCanonical)
    else Ok(())
  }

  /** The block does not depend on the order in which its transactions were handed in, and it is well formed. */
  lemma NewBlockCanonical(
      c: Crypto, who: Identity, height: u64, previous: Digest, txs: seq<Transaction>, other: seq<Transaction>, time: u64)
    requires CollisionFree(c) && multiset(txs) == multiset(other)
    ensures NewBlock(c, who, height, previous, txs, time) == NewBlock(c, who, height, previous, other, time)
    ensures |txs| > 4096 ==> NewBlock(c, who, height, previous, txs, time) == Err(TooManyTransactions)
    ensures |txs| <= 4096 ==>
              var b := NewBlock(c, who, height, previous, txs, time);
              && b.Ok?
              && multiset(b.value.transactions) == multiset(txs)
              && b.value.header.height == height && b.value.header.previousHash == previous
              && b.value.header.proposer == c.aweId(who.key) && b.value.header.timestamp == time
              && ValidShape(c, b.value).Ok?
              && (SignsFor(c, who) ==> ProposerVerifies(c, b.value, who.key))
  {
    var leq := CanonicalOrder(c);
    CanonicalOrderTotal(c);
    assert |multiset(txs)| == |txs| && |multiset(other)| == |other|;
    SortContents(txs, leq);
    SortContents(other, leq);
    SortSorted(txs, leq);
    SortSorted(other, leq);
    SortedUnique(Sort(txs, leq), Sort(other, leq), leq);
  }

  /** A well-formed block is its own canonical ordering: re-sorting its transactions changes nothing. */
  lemma ShapeIsSorted(c: Crypto, b: Block)
    requires CollisionFree(c) && ValidShape(c, b).Ok?
    ensures Sort(b.transactions, CanonicalOrder(c)) == b.transactions
  {
    var leq := CanonicalOrder(c);
    CanonicalOrderTotal(c);
    AdjacentSorted(b.transactions, leq);
    SortContents(b.transactions, leq);
    SortSorted(b.transactions, leq);
    SortedUnique(Sort(b.transactions, leq), b.transactions, leq);
  }

  lemma {:induction false} AdjacentSorted<T(!new)>(s: seq<T>, leq: (T, T) -> bool)
    requires Preorder(leq) && forall i :: 0 <= i < |s| - 1 ==> leq(s[i], s[i + 1])
    ensures Sorted(s, leq)
  {
    if |s| > 1 {
      AdjacentSorted(s[..|s| - 1], leq);
      var last := |s| - 1;
      forall i | 0 <= i < last
        ensures leq(s[i], s[last])
      {
        assert leq(s[last - 1], s[last - 1 + 1]);
        assert i < last - 1 ==> leq(s[..last][i], s[..last][last - 1]);
      }
      forall i, j | 0 <= i < j < |s|
        ensures leq(s[i], s[j])
      {
        assert j < last ==> leq(s[..last][i], s[..last][j]);
      }
    }
  }

  // ---- certificates ----

  predicate Approves(c: Crypto, validators: Validators, cert: Certificate, v: Vote) {
    && v.voter in validators
    && v.blockHash == cert.blockHash && v.height == cert.height
    && v.approve && VoteVerifies(c, v, validators[v.voter])
  }

  /** The validators with a verified approval in the certificate, each counted once. */
  function Approvers(c: Crypto, validators: Validators, cert: Certificate): set<AweId> {
    set v | v in cert.votes && Approves(c, validators, cert, v) :: v.voter
  }

  function CertificateVerifies(c: Crypto, validators: Validators, cert: Certificate, hash: Digest, height: u64)
    : Result<(), ConsensusError>
  {
    if cert.blockHash != hash || cert.height != height then Err(CertificateMismatch)
    else if |validators| == 0 || |Approvers(c, validators, cert)| < Required(|validators|) then Err(NoQuorum)
    else Ok(())
  }

  // ---- execution ----

  function Ids(c: Crypto, txs: seq<Transaction>): set<Digest> {
    set tx | tx in txs :: TxId(c, tx)
  }

  /** Runs the transactions in order, stopping at the first failure. */
  function Execute(c: Crypto, l: Ledger, txs: seq<Transaction>): Result<Ledger, ConsensusError> {
    if txs == [] then Ok(l)
    else
      var done, tx := txs[..|txs| - 1], txs[|txs| - 1];
      var before := Execute(c, l, done);
      if before.Err? then before
      else if TxId(c, tx) in Ids(c, done) then Err(DuplicateTransaction)
      else ExecuteOne(c, before.value, tx)
  }

  function ExecuteOne(c: Crypto, l: Ledger, tx: Transaction): Result<Ledger, ConsensusError> {
    if c.aweId(tx.sender) !in l.members then Err(SenderNotMember)
    else
      var t := Transfer(c, l, tx, tx.sender);
      if t.result.Err? then Err(TransferFailed(t.result.error)) else Ok(t.ledger)
  }

  datatype Finalized = Finalized(ledger: Ledger, height: u64, tip: Digest)

  /** The checks that precede execution, in the order they are made. */
  function Admissible(c: Crypto, validators: Validators, st: Finalized, b: Block, cert: Certificate)
    : Result<(), ConsensusError>
  {
    var shape := ValidShape(c, b);
    if shape.Err? then shape
    else if b.header.proposer !in validators then Err(ProposerNotValidator)
    else if !ProposerVerifies(c, b, validators[b.header.proposer]) then Err(BadProposerSignature)
    else if b.header.height != SatAdd64(st.height, 1) then Err(BadHeight)
    else if b.header.previousHash != st.tip then Err(BadPreviousHash)
    else CertificateVerifies(c, validators, cert, BlockHash(c, b), b.header.height)
  }

  function Finalize(c: Crypto, validators: Validators, st: Finalized, b: Block, cert: Certificate)
    : Result<Finalized, ConsensusError>
  {
    var admitted := Admissible(c, validators, st, b, cert);
    if admitted.Err? then Err(admitted.error)
    else
      var next := Execute(c, st.ledger, b.transactions);
      if next.Err? then Err(next.error) else Ok(Finalized(next.value, b.header.height, BlockHash(c, b)))
  }
}
