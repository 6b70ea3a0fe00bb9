/** Whose signature is behind every change: over all runs of ledger operations, and along every chain. */
module Authorization {
  import opened Prelude
  import opened Onecoin
  import opened Ledger
  import opened Conservation
  import opened Idempotence
  import opened Consensus
  import opened ChainSafety
  import opened Effects

  // ---- runs of the ledger ----

  /** Members, balances and nonces are kept for the same accounts. */
  ghost predicate Aligned(l: Ledger) {
    l.balances.Keys == l.members.Keys == l.nonces.Keys
  }

  lemma TransfersKeepAligned(c: Crypto, l: Ledger, tx: Transaction, key: Key, fee: u128)
    requires Aligned(l)
    ensures Aligned(Transfer(c, l, tx, key).ledger) && Aligned(TransferCharging(c, l, tx, key, fee).ledger)
  {
    hide TxVerifies, TxId, SatAdd128, WrapInc64;
  }

  lemma EnsureKeepsAligned(l: Ledger, id: AweId)
    requires Aligned(l)
    ensures Aligned(EnsureMember(l, id)) && id in EnsureMember(l, id).members
    ensures EnsureMember(l, id).members.Keys == l.members.Keys + {id}
  {
  }

  lemma CreditKeepsAligned(l: Ledger, txId: Digest, recipient: AweId, amount: u128)
    requires Aligned(l) && recipient in l.members
    ensures Aligned(CreditOnce(l, txId, recipient, amount).ledger)
  {
    hide SatAdd128;
  }

  lemma ReceiveKeepsAligned(c: Crypto, l: Ledger, tx: Transaction, key: Key, recipient: AweId)
    requires Aligned(l)
    ensures Aligned(Receive(c, l, tx, key, recipient).ledger)
  {
    hide TxVerifies, TxId, EnsureMember, CreditOnce, Aligned;
    var m := EnsureMember(l, c.aweId(key));
    EnsureKeepsAligned(l, c.aweId(key));
    EnsureKeepsAligned(m, recipient);
    CreditKeepsAligned(EnsureMember(m, recipient), TxId(c, tx), recipient, tx.amount);
  }

  lemma RegisterKeepsAligned(l: Ledger, id: AweId)
    requires Aligned(l)
    ensures Aligned(Register(l, id).ledger)
  {
    hide CalculateJoin, EnsureMember, SatAdd128;
    EnsureKeepsAligned(l, id);
  }

  lemma MintKeepsAligned(c: Crypto, l: Ledger, receipt: SignedReceipt)
    requires Aligned(l)
    ensures Aligned(Mint(c, l, receipt).ledger)
  {
    hide RewardFor, ReceiptVerifies, SatAdd128;
  }

  lemma GenesisKeepsAligned(c: Crypto, l: Ledger, ids: seq<AweId>, keys: seq<Key>)
    requires Aligned(l)
    ensures Aligned(Genesis(l, ids).ledger) && Aligned(GenesisWithVerifiers(c, l, ids, keys).ledger)
  {
    GenesisExactly(l, ids);
    AddVerifiersExactly(c, Genesis(l, ids).ledger, keys);
    hide Genesis, AddVerifiers;
  }

  lemma StepKeepsAligned(c: Crypto, h: History, op: Op)
    requires Aligned(h.ledger)
    ensures Aligned(Step(c, h, op).ledger)
  {
    hide Genesis, GenesisWithVerifiers, Register, Mint, Transfer, TransferCharging, Receive, EnsureMember;
    match op
    case DoGenesis(ids) => GenesisKeepsAligned(c, h.ledger, ids, []);
    case DoGenesisWithVerifiers(ids, keys) => GenesisKeepsAligned(c, h.ledger, ids, keys);
    case DoRegister(id) => RegisterKeepsAligned(h.ledger, id);
    case DoAuthorize(_, _) =>
    case DoEnsureMember(id) => EnsureKeepsAligned(h.ledger, id);
    case DoMint(r) => MintKeepsAligned(c, h.ledger, r);
    case DoTransfer(tx, key) => TransfersKeepAligned(c, h.ledger, tx, key, 0);
    case DoTransferWithFee(tx, key, bps) =>
      if bps <= 500 {
        TransfersKeepAligned(c, h.ledger, tx, key, FeeFor(tx.amount, bps));
      }
    case DoReceive(tx, key, recipient) => ReceiveKeepsAligned(c, h.ledger, tx, key, recipient);
  }

  lemma {:induction false} RunAligned(c: Crypto, ops: seq<Op>)
    ensures Aligned(Run(c, ops).ledger)
  {
    hide Step;
    if ops != [] {
      RunAligned(c, ops[..|ops| - 1]);
      StepKeepsAligned(c, Run(c, ops[..|ops| - 1]), ops[|ops| - 1]);
    }
  }

  /** The operation is a transfer that the holder of the account signed, with its next nonce, out of its balance. */
  ghost predicate SpentByOwner(c: Crypto, l: Ledger, op: Op, account: AweId) {
    && (op.DoTransfer? || op.DoTransferWithFee?)
    && c.aweId(op.key) == account && account in l.members
    && Signed(c, op.tx, op.key)
    && op.tx.nonce == Nonce(l, account) && op.tx.amount <= Balance(l, account)
  }

  ghost predicate Spends(l: Ledger, l': Ledger, account: AweId) {
    Balance(l', account) < Balance(l, account) || Nonce(l', account) != Nonce(l, account)
  }

  lemma GenesisSpendsNothing(c: Crypto, l: Ledger, ids: seq<AweId>, keys: seq<Key>, account: AweId)
    requires Aligned(l)
    ensures !Spends(l, Genesis(l, ids).ledger, account)
    ensures !Spends(l, GenesisWithVerifiers(c, l, ids, keys).ledger, account)
  {
    GenesisExactly(l, ids);
    AddVerifiersExactly(c, Genesis(l, ids).ledger, keys);
    hide Genesis, AddVerifiers;
    if Genesis(l, ids).result.Ok? {
      assert account !in l.members;
    }
  }

  lemma RegisterSpendsNothing(l: Ledger, id: AweId, account: AweId)
    ensures !Spends(l, Register(l, id).ledger, account)
  {
    RegisterExactly(l, id);
    hide Register, Share;
    assert Balance(l, account) <= U128_MAX;
  }

  lemma StepSpends(c: Crypto, h: History, op: Op, account: AweId)
    requires Aligned(h.ledger) && Spends(h.ledger, Step(c, h, op).ledger, account)
    ensures SpentByOwner(c, h.ledger, op, account)
  {
    var l := h.ledger;
    hide Genesis, GenesisWithVerifiers, Register, Mint, Transfer, TransferWithFee, Receive, EnsureMember, Signed, Aligned;
    hide Contribution;
    match op
    case DoGenesis(ids) => GenesisSpendsNothing(c, l, ids, [], account);
    case DoGenesisWithVerifiers(ids, keys) => GenesisSpendsNothing(c, l, ids, keys, account);
    case DoRegister(id) => RegisterSpendsNothing(l, id, account);
    case DoAuthorize(a, k) => AuthorizeExactly(c, l, a, k);
    case DoEnsureMember(id) => EnsureExactly(l, id);
    case DoMint(r) => MintExactly(c, l, r);
    case DoTransfer(tx, key) => TransferExactly(c, l, tx, key);
    case DoTransferWithFee(tx, key, bps) => FeeTransferExactly(c, l, tx, key, bps);
    case DoReceive(tx, key, recipient) => ReceiveExactly(c, l, tx, key, recipient);
  }

  /** Over every run: no account's balance falls and no account's nonce moves unless its holder signed the transfer. */
  lemma {:induction false} OnlyOwnersSpend(c: Crypto, ops: seq<Op>, op: Op, account: AweId)
    requires Spends(Run(c, ops).ledger, Run(c, ops + [op]).ledger, account)
    ensures SpentByOwner(c, Run(c, ops).ledger, op, account)
  {
    StepRuns(c, ops, op);
    RunAligned(c, ops);
    hide Run, Step, Spends, SpentByOwner, Aligned;
    StepSpends(c, Run(c, ops), op, account);
  }

  /** A receipt signed by a registered verifier. */
  ghost predicate Attested(c: Crypto, l: Ledger, r: SignedReceipt) {
    && c.aweId(r.verifierKey) in l.verifiers && l.verifiers[c.aweId(r.verifierKey)] == r.verifierKey
    && c.verifies(r.verifierKey, ReceiptBody(r.(signature := 0)), r.signature)
  }

  /** Rewards come from attested receipts, replicated credit from signed transfers, and new verifiers from old ones or from
      genesis. */
  lemma LogsAreSigned(c: Crypto, h: History, op: Op)
    ensures var l, l' := h.ledger, Step(c, h, op).ledger;
            && (l'.rewarded != l.rewarded ==> op.DoMint? && Attested(c, l, op.receipt))
            && (l'.received != l.received ==>
                  op.DoReceive? && Signed(c, op.tx, op.key) && op.tx.recipient == op.recipient)
            && (l'.verifiers != l.verifiers ==>
                  || (op.DoAuthorize? && c.aweId(op.authorizer) in l.verifiers && c.aweId(op.newKey) in l.members)
                  || (op.DoGenesisWithVerifiers? && l.members == map[]))
  {
    var l := h.ledger;
    hide Genesis, AddVerifiers, Register, Mint, Transfer, TransferWithFee, Receive, EnsureMember, Signed, AuthorizeVerifier;
    hide Contribution, Moved;
    match op
    case DoGenesis(ids) => GenesisExactly(l, ids);
    case DoGenesisWithVerifiers(ids, keys) =>
      GenesisExactly(l, ids);
      AddVerifiersExactly(c, Genesis(l, ids).ledger, keys);
    case DoRegister(id) => RegisterKeepsLogs(l, id);
    case DoAuthorize(a, k) => AuthorizeExactly(c, l, a, k);
    case DoEnsureMember(id) => EnsureExactly(l, id);
    case DoMint(r) => MintExactly(c, l, r);
    case DoTransfer(tx, key) => TransferKeepsLogs(c, l, tx, key);
    case DoTransferWithFee(tx, key, bps) => FeeTransferKeepsLogs(c, l, tx, key, bps);
    case DoReceive(tx, key, recipient) => ReceiveExactly(c, l, tx, key, recipient);
  }

  ghost predicate SameLogs(l: Ledger, l': Ledger) {
    l'.rewarded == l.rewarded && l'.received == l.received && l'.verifiers == l.verifiers
  }

  lemma RegisterKeepsLogs(l: Ledger, id: AweId)
    ensures SameLogs(l, Register(l, id).ledger)
  {
    hide CalculateJoin, Raise;
  }

  lemma TransferKeepsLogs(c: Crypto, l: Ledger, tx: Transaction, key: Key)
    ensures SameLogs(l, Transfer(c, l, tx, key).ledger)
  {
    TransferExactly(c, l, tx, key);
    hide Transfer;
  }

  lemma FeeTransferKeepsLogs(c: Crypto, l: Ledger, tx: Transaction, key: Key, bps: nat)
    ensures SameLogs(l, TransferWithFee(c, l, tx, key, bps).ledger)
  {
    FeeTransferExactly(c, l, tx, key, bps);
    hide TransferWithFee;
  }

  // ---- along a chain ----

  /** A verified approval of this block by this validator. */
  ghost predicate SignedApproval(c: Crypto, validators: Validators, b: Block, id: AweId, v: Vote)
    requires id in validators
  {
    && v.approve && v.voter == id && c.aweId(validators[id]) == id
    && v.blockHash == c.hash(BlockBytes(b)) && v.height == b.header.height
    && c.verifies(validators[id], VoteBody(v.(signature := 0)), v.signature)
  }

  ghost function Supporters(c: Crypto, validators: Validators, e: Entry): set<AweId> {
    set id | id in validators && exists v :: v in e.cert.votes && SignedApproval(c, validators, e.block, id, v)
  }

  /** What is asked of a finalized block: form, proposer's signature, signed approvals by two thirds, signed transfers. */
  ghost predicate Vouched(c: Crypto, validators: Validators, l0: Ledger, e: Entry) {
    var b := e.block;
    && b.header.version == 1 && |b.transactions| <= 4096
    && b.header.transactionsHash == c.hash(TxListBytes(b.transactions))
    && b.header.proposer in validators && c.aweId(validators[b.header.proposer]) == b.header.proposer
    && c.verifies(validators[b.header.proposer], BlockBody(b.(signature := 0)), b.signature)
    && validators != map[] && |Supporters(c, validators, e)| * 10_000 >= Min(|validators| * 6666, U64_MAX)
    && forall tx :: tx in b.transactions ==>
         Signed(c, tx, tx.sender) && c.aweId(tx.sender) in l0.members && tx.recipient in l0.members
  }

  lemma {:induction false} PrefixIsChain(c: Crypto, validators: Validators, l0: Ledger, chain: seq<Entry>, n: nat)
    requires IsChain(c, validators, l0, chain) && n <= |chain|
    ensures IsChain(c, validators, l0, chain[..n])
  {
    if n < |chain| {
      PrefixIsChain(c, validators, l0, chain[..|chain| - 1], n);
      assert chain[..|chain| - 1][..n] == chain[..n];
    } else {
      assert chain[..n] == chain;
    }
  }

  lemma {:induction false} ExecuteSigned(c: Crypto, l: Ledger, txs: seq<Transaction>)
    requires Execute(c, l, txs).Ok?
    ensures Execute(c, l, txs).value.members == l.members
    ensures forall tx :: tx in txs ==>
              Signed(c, tx, tx.sender) && c.aweId(tx.sender) in l.members && tx.recipient in l.members
  {
    hide Signed, Transfer, TxId, Moved;
    if txs != [] {
      var front, last := txs[..|txs| - 1], txs[|txs| - 1];
      ExecuteSigned(c, l, front);
      TransferExactly(c, Execute(c, l, front).value, last, last.sender);
      TransferKeepsMembers(c, Execute(c, l, front).value, last, last.sender);
      assert forall tx :: tx in txs <==> tx in front || tx == last;
    }
  }

  lemma TransferKeepsMembers(c: Crypto, l: Ledger, tx: Transaction, key: Key)
    ensures Transfer(c, l, tx, key).ledger.members == l.members
  {
    hide TxVerifies, TxId, Credit;
  }

  lemma {:induction false} ChainMembers(c: Crypto, validators: Validators, l0: Ledger, chain: seq<Entry>)
    requires IsChain(c, validators, l0, chain)
    ensures Replay(c, validators, l0, chain).value.ledger.members == l0.members
  {
    if chain != [] {
      var front, e := chain[..|chain| - 1], chain[|chain| - 1];
      ChainMembers(c, validators, l0, front);
      ExecuteSigned(c, Replay(c, validators, l0, front).value.ledger, e.block.transactions);
      hide Admissible, Execute;
    }
  }

  lemma ApproversSupport(c: Crypto, validators: Validators, e: Entry)
    requires e.cert.blockHash == BlockHash(c, e.block) && e.cert.height == e.block.header.height
    ensures Approvers(c, validators, e.cert) <= Supporters(c, validators, e)
    ensures |Approvers(c, validators, e.cert)| <= |Supporters(c, validators, e)|
  {
    forall id | id in Approvers(c, validators, e.cert)
      ensures id in Supporters(c, validators, e)
    {
      var v :| v in e.cert.votes && Approves(c, validators, e.cert, v) && v.voter == id;
      assert SignedApproval(c, validators, e.block, id, v);
    }
    SubsetSize(Approvers(c, validators, e.cert), Supporters(c, validators, e));
  }

  lemma AdmittedVouched(c: Crypto, validators: Validators, st: Finalized, e: Entry)
    requires Finalize(c, validators, st, e.block, e.cert).Ok?
    ensures Vouched(c, validators, st.ledger, e)
  {
    ExecuteSigned(c, st.ledger, e.block.transactions);
    ApproversSupport(c, validators, e);
    hide Execute, Approvers, Supporters, Signed;
  }

  /** Every block of every chain is vouched for, by every signature it takes. */
  lemma ChainIsSigned(c: Crypto, validators: Validators, l0: Ledger, chain: seq<Entry>, i: nat)
    requires IsChain(c, validators, l0, chain) && i < |chain|
    ensures Vouched(c, validators, l0, chain[i])
  {
    PrefixIsChain(c, validators, l0, chain, i + 1);
    PrefixIsChain(c, validators, l0, chain, i);
    assert chain[..i + 1][..i] == chain[..i];
    ChainMembers(c, validators, l0, chain[..i]);
    var st := Replay(c, validators, l0, chain[..i]).value;
    AdmittedVouched(c, validators, st, chain[i]);
    hide Finalize, Signed, Supporters;
  }

  /** So is every transaction finalized: its sender signed it. */
  lemma {:induction false} TransfersAreSigned(
      c: Crypto, validators: Validators, l0: Ledger, chain: seq<Entry>, tx: Transaction)
    requires IsChain(c, validators, l0, chain) && tx in Transfers(chain)
    ensures Signed(c, tx, tx.sender) && c.aweId(tx.sender) in l0.members && tx.recipient in l0.members
  {
    var last := |chain| - 1;
    if tx in chain[last].block.transactions {
      ChainIsSigned(c, validators, l0, chain, last);
    } else {
      TransfersAreSigned(c, validators, l0, chain[..last], tx);
    }
  }
}
