/** What holds along every chain of finalized blocks. */
module ChainSafety {
  import opened Prelude
  import opened MapSum
  import opened Onecoin
  import opened Ledger
  import opened Conservation
  import opened Consensus

  datatype Entry = Entry(block: Block, cert: Certificate)

  function Origin(l: Ledger): Finalized {
    Finalized(l, 0, 0)
  }

  /** The state after finalizing the entries in order, if each of them finalizes. */
  function Replay(c: Crypto, validators: Validators, l0: Ledger, chain: seq<Entry>): Result<Finalized, ConsensusError> {
    if chain == [] then Ok(Origin(l0))
    else
      var before := Replay(c, validators, l0, chain[..|chain| - 1]);
      var e := chain[|chain| - 1];
      if before.Err? then before else Finalize(c, validators, before.value, e.block, e.cert)
  }

  ghost predicate IsChain(c: Crypto, validators: Validators, l0: Ledger, chain: seq<Entry>) {
    Replay(c, validators, l0, chain).Ok?
  }

  function Height(length: nat): u64 {
    Min(length, U64_MAX)
  }

  function Tip(c: Crypto, chain: seq<Entry>): Digest {
    if chain == [] then 0 else BlockHash(c, chain[|chain| - 1].block)
  }

  /** Block `i` sits at height `i + 1`, on top of its predecessor's hash, with a quorum behind exactly this block. */
  lemma {:induction false} ChainLinked(c: Crypto, validators: Validators, l0: Ledger, chain: seq<Entry>, i: nat)
    requires IsChain(c, validators, l0, chain) && i < |chain|
    ensures var Entry(b, cert) := chain[i];
            && b.header.height == Height(i + 1)
            && b.header.previousHash == Tip(c, chain[..i])
            && CertificateVerifies(c, validators, cert, BlockHash(c, b), b.header.height).Ok?
            && ValidShape(c, b).Ok?
  {
    var front := chain[..|chain| - 1];
    ChainState(c, validators, l0, front);
    if i < |front| {
      ChainLinked(c, validators, l0, front, i);
      assert front[..i] == chain[..i];
    } else {
      assert chain[..i] == front;
    }
  }

  lemma {:induction false} ChainState(c: Crypto, validators: Validators, l0: Ledger, chain: seq<Entry>)
    requires IsChain(c, validators, l0, chain)
    ensures var st := Replay(c, validators, l0, chain).value;
            st.height == Height(|chain|) && st.tip == Tip(c, chain)
  {
    if chain != [] {
      ChainState(c, validators, l0, chain[..|chain| - 1]);
    }
  }

  // ---- the transfers behind a chain ----

  function Transfers(chain: seq<Entry>): seq<Transaction> {
    if chain == [] then []
    else Transfers(chain[..|chain| - 1]) + chain[|chain| - 1].block.transactions
  }

  /** Plain execution, with no look at transaction ids. */
  function Applied(c: Crypto, l: Ledger, txs: seq<Transaction>): Result<Ledger, ConsensusError> {
    if txs == [] then Ok(l)
    else
      var before := Applied(c, l, txs[..|txs| - 1]);
      if before.Err? then before else ExecuteOne(c, before.value, txs[|txs| - 1])
  }

  lemma {:induction false} ExecuteApplies(c: Crypto, l: Ledger, txs: seq<Transaction>)
    requires Execute(c, l, txs).Ok?
    ensures Applied(c, l, txs) == Execute(c, l, txs)
  {
    if txs != [] {
      ExecuteApplies(c, l, txs[..|txs| - 1]);
    }
  }

  lemma {:induction false} AppliedSplit(c: Crypto, l: Ledger, a: seq<Transaction>, b: seq<Transaction>)
    requires Applied(c, l, a).Ok?
    ensures Applied(c, l, a + b) == Applied(c, Applied(c, l, a).value, b)
  {
    if b == [] {
      assert a + b == a;
    } else {
      var front := b[..|b| - 1];
      AppliedSplit(c, l, a, front);
      assert (a + b)[..|a + b| - 1] == a + front;
    }
  }

  /** The ledger of a chain is what its transfers produce from the genesis ledger. */
  lemma {:induction false} ChainApplies(c: Crypto, validators: Validators, l0: Ledger, chain: seq<Entry>)
    requires IsChain(c, validators, l0, chain)
    ensures Applied(c, l0, Transfers(chain)) == Ok(Replay(c, validators, l0, chain).value.ledger)
  {
    if chain != [] {
      var front := chain[..|chain| - 1];
      ChainApplies(c, validators, l0, front);
      var st := Replay(c, validators, l0, front).value;
      var txs := chain[|chain| - 1].block.transactions;
      ExecuteApplies(c, st.ledger, txs);
      AppliedSplit(c, l0, Transfers(front), txs);
    }
  }

  // ---- nonces ----

  const NONCES: nat := 0x1_0000_0000_0000_0000

  /** How many of the transfers were sent by the account. */
  function SentBy(c: Crypto, account: AweId, txs: seq<Transaction>): nat {
    if txs == [] then 0
    else SentBy(c, account, txs[..|txs| - 1]) + (if c.aweId(txs[|txs| - 1].sender) == account then 1 else 0)
  }

  lemma ExecuteOneNonce(c: Crypto, l: Ledger, tx: Transaction, account: AweId)
    requires ExecuteOne(c, l, tx).Ok?
    ensures Nonce(ExecuteOne(c, l, tx).value, account)
         == if c.aweId(tx.sender) == account then WrapInc64(Nonce(l, account)) else Nonce(l, account)
    ensures tx.nonce == Nonce(l, c.aweId(tx.sender))
  {
  }

  lemma WrapIsModulo(n: nat)
    ensures 0 <= n % NONCES <= U64_MAX && WrapInc64(n % NONCES) == (n + 1) % NONCES
  {
  }

  lemma {:induction false} NonceCounts(c: Crypto, l: Ledger, txs: seq<Transaction>, account: AweId)
    requires Applied(c, l, txs).Ok?
    ensures Nonce(Applied(c, l, txs).value, account) == (Nonce(l, account) + SentBy(c, account, txs)) % NONCES
  {
    hide ExecuteOne;
    if txs != [] {
      var front := txs[..|txs| - 1];
      NonceCounts(c, l, front, account);
      ExecuteOneNonce(c, Applied(c, l, front).value, txs[|txs| - 1], account);
      WrapIsModulo(Nonce(l, account) + SentBy(c, account, front));
    }
  }

  /** The k-th transfer of an account carries the k-th nonce: nonces are contiguous (modulo the 64-bit counter). */
  lemma {:induction false} NoncesContiguous(c: Crypto, l: Ledger, txs: seq<Transaction>, i: nat)
    requires Applied(c, l, txs).Ok? && i < |txs|
    ensures var account := c.aweId(txs[i].sender);
            txs[i].nonce == (Nonce(l, account) + SentBy(c, account, txs[..i])) % NONCES
  {
    hide ExecuteOne;
    var front := txs[..|txs| - 1];
    if i < |front| {
      NoncesContiguous(c, l, front, i);
      assert front[..i] == txs[..i];
    } else {
      assert txs[..i] == front;
      NonceCounts(c, l, front, c.aweId(txs[i].sender));
      ExecuteOneNonce(c, Applied(c, l, front).value, txs[i], 0);
    }
  }

  lemma {:induction false} SentByGrows(c: Crypto, account: AweId, txs: seq<Transaction>, i: nat, j: nat)
    requires i <= j <= |txs|
    ensures SentBy(c, account, txs[..i]) <= SentBy(c, account, txs[..j])
    ensures i < j && c.aweId(txs[i].sender) == account ==> SentBy(c, account, txs[..i]) < SentBy(c, account, txs[..j])
  {
    if i < j {
      SentByGrows(c, account, txs, i, j - 1);
      assert txs[..j][..j - 1] == txs[..j - 1];
    }
  }

  lemma {:induction false} SentByBounded(c: Crypto, account: AweId, txs: seq<Transaction>)
    ensures SentBy(c, account, txs) <= |txs|
  {
    if txs != [] {
      SentByBounded(c, account, txs[..|txs| - 1]);
    }
  }

  /** A transaction can only run again after its account sent a positive multiple of 2^64 transfers in between. */
  lemma NoReplay(c: Crypto, l: Ledger, txs: seq<Transaction>, i: nat, j: nat)
    requires Applied(c, l, txs).Ok? && i < j < |txs| && txs[i] == txs[j]
    ensures var account := c.aweId(txs[i].sender);
            var between := SentBy(c, account, txs[..j]) - SentBy(c, account, txs[..i]);
            between > 0 && between % NONCES == 0
    ensures |txs| > NONCES
  {
    hide Applied, SentBy;
    var account := c.aweId(txs[i].sender);
    NoncesContiguous(c, l, txs, i);
    NoncesContiguous(c, l, txs, j);
    SentByGrows(c, account, txs, i, j);
    var a, b := SentBy(c, account, txs[..i]), SentBy(c, account, txs[..j]);
    SameResidue(Nonce(l, account) + a, Nonce(l, account) + b);
    SentByBounded(c, account, txs[..j]);
  }

  lemma SameResidue(x: nat, y: nat)
    requires x < y && x % NONCES == y % NONCES
    ensures (y - x) % NONCES == 0 && y - x >= NONCES
  {
  }

  /** Nothing finalized runs twice: all transfers of a chain shorter than 2^64 transfers are distinct. */
  lemma ChainNeverRepeats(c: Crypto, validators: Validators, l0: Ledger, chain: seq<Entry>)
    requires IsChain(c, validators, l0, chain) && |Transfers(chain)| <= NONCES
    ensures NoDup(Transfers(chain))
  {
    ChainApplies(c, validators, l0, chain);
    var txs := Transfers(chain);
    forall i, j | 0 <= i < j < |txs|
      ensures txs[i] != txs[j]
    {
      if txs[i] == txs[j] {
        NoReplay(c, l0, txs, i, j);
      }
    }
  }

  /** The duplicate check inside a block never decides the outcome: nonces already rule duplicates out. */
  lemma {:induction false} DuplicateCheckRedundant(c: Crypto, l: Ledger, txs: seq<Transaction>)
    requires CollisionFree(c) && |txs| <= MAX_BLOCK_TRANSACTIONS
    ensures Execute(c, l, txs).Ok? <==> Applied(c, l, txs).Ok?
  {
    if Execute(c, l, txs).Ok? {
      ExecuteApplies(c, l, txs);
    } else if Applied(c, l, txs).Ok? {
      var done, tx := txs[..|txs| - 1], txs[|txs| - 1];
      DuplicateCheckRedundant(c, l, done);
      ExecuteApplies(c, l, done);
      if TxId(c, tx) in Ids(c, done) {
        var i :| 0 <= i < |done| && TxId(c, done[i]) == TxId(c, tx);
        assert c.hash(TxBytes(done[i])) == c.hash(TxBytes(tx));
        NoReplay(c, l, txs, i, |txs| - 1);
      }
    }
  }

  // ---- reloading ----

  lemma TransferShrinks(l: Ledger, tx: Transaction, sender: AweId, total: u128)
    requires total <= Balance(l, sender) && tx.amount <= total
    ensures Sum(Move(l, tx, sender, total).balances) <= Sum(l.balances)
  {
    var debited := l.balances[sender := Balance(l, sender) - total];
    SumUpdate(l.balances, sender, Balance(l, sender) - total);
    var after := Credit(debited, tx.recipient, tx.amount);
    SumUpdate(debited, tx.recipient, after[tx.recipient]);
  }

  lemma ExecuteOneReloads(c: Crypto, l: Ledger, tx: Transaction)
    requires WellKept(l) && Validates(l) && ExecuteOne(c, l, tx).Ok?
    ensures WellKept(ExecuteOne(c, l, tx).value) && Validates(ExecuteOne(c, l, tx).value)
  {
    var l' := ExecuteOne(c, l, tx).value;
    var sender := c.aweId(tx.sender);
    TransferShrinks(l, tx, sender, tx.amount);
    assert sender in l.members;
    assert l'.balances.Keys == l.balances.Keys && l'.nonces.Keys == l.nonces.Keys;
    assert |l'.balances| == |l'.balances.Keys| && |l'.nonces| == |l'.nonces.Keys| && |l'.members| == |l'.members.Keys|;
  }

  lemma {:induction false} TransfersReload(c: Crypto, l: Ledger, txs: seq<Transaction>)
    requires WellKept(l) && Validates(l) && Applied(c, l, txs).Ok?
    ensures WellKept(Applied(c, l, txs).value) && Validates(Applied(c, l, txs).value)
  {
    if txs != [] {
      TransfersReload(c, l, txs[..|txs| - 1]);
      ExecuteOneReloads(c, Applied(c, l, txs[..|txs| - 1]).value, txs[|txs| - 1]);
    }
  }

  /** Every state a chain reaches from a loadable ledger can be stored and loaded again. */
  lemma {:induction false} ChainReloads(c: Crypto, validators: Validators, l0: Ledger, chain: seq<Entry>)
    requires WellKept(l0) && Validates(l0) && IsChain(c, validators, l0, chain)
    ensures Validates(Replay(c, validators, l0, chain).value.ledger)
  {
    ChainApplies(c, validators, l0, chain);
    TransfersReload(c, l0, Transfers(chain));
  }

  /** Genesis produces such a ledger, whatever its size. */
  lemma GenesisReloads(ids: seq<AweId>)
    requires ids != []
    ensures var l := Genesis(DEFAULT, ids).ledger; WellKept(l) && Validates(l)
  {
    GenesisContents(DEFAULT, ids);
    assert ids[0] in Elems(ids);
    hide SumOver, Genesis, Elems;
    var l := Genesis(DEFAULT, ids).ledger;
    FoundersSum(DEFAULT, l, Elems(ids));
    assert |l.members| == |l.members.Keys| && |l.balances| == |l.balances.Keys| && |l.nonces| == |l.nonces.Keys|;
  }
}
