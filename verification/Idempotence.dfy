/** Receipts are rewarded once and replicated transfers credited once, over every run of ledger operations. */
module Idempotence {
  import opened Prelude
  import opened Onecoin
  import opened Ledger
  import opened Conservation

  /** `later` has every log entry of `l`, unchanged. */
  ghost predicate LogsKept(l: Ledger, later: Ledger) {
    && (forall k :: k in l.rewarded ==> k in later.rewarded && later.rewarded[k] == l.rewarded[k])
    && (forall k :: k in l.received ==> k in later.received && later.received[k] == l.received[k])
  }

  lemma GenesisKeepsLogs(c: Crypto, l: Ledger, ids: seq<AweId>, keys: seq<Key>)
    ensures LogsKept(l, Genesis(l, ids).ledger) && LogsKept(l, GenesisWithVerifiers(c, l, ids, keys).ledger)
  {
    hide Genesis, AddVerifiers;
    GenesisLogs(l, ids);
    VerifiersOnly(c, Genesis(l, ids).ledger, keys);
  }

  lemma {:induction false} StepKeepsLogs(c: Crypto, h: History, op: Op)
    ensures LogsKept(h.ledger, Step(c, h, op).ledger)
  {
    hide Genesis, GenesisWithVerifiers, CalculateJoin, TxVerifies, ReceiptVerifies, RewardFor;
    hide EnrolOne, Raise, Credit, Balance, Nonce, NewFounders, NewJoins, TxId;
    match op
    case DoGenesis(ids) => GenesisKeepsLogs(c, h.ledger, ids, []);
    case DoGenesisWithVerifiers(ids, keys) => GenesisKeepsLogs(c, h.ledger, ids, keys);
    case _ =>
  }

  lemma {:induction false} RunKeepsLogs(c: Crypto, ops: seq<Op>, more: seq<Op>)
    ensures LogsKept(Run(c, ops).ledger, Run(c, ops + more).ledger)
  {
    if more == [] {
      assert ops + more == ops;
    } else {
      var front := ops + more[..|more| - 1];
      RunKeepsLogs(c, ops, more[..|more| - 1]);
      assert ops + more == front + [more[|more| - 1]];
      assert (ops + more)[..|ops + more| - 1] == front;
      hide Step;
      StepKeepsLogs(c, Run(c, front), more[|more| - 1]);
    }
  }

  lemma StepRuns(c: Crypto, ops: seq<Op>, op: Op)
    ensures Run(c, ops + [op]) == Step(c, Run(c, ops), op)
  {
    assert (ops + [op])[..|ops|] == ops;
  }

  /** A receipt that was rewarded is refused for ever after, whatever happens in between. */
  lemma {:induction false} RewardedOnce(c: Crypto, ops: seq<Op>, receipt: SignedReceipt, more: seq<Op>)
    requires Mint(c, Run(c, ops).ledger, receipt).result.Ok?
    ensures Mint(c, Run(c, ops + [DoMint(receipt)] + more).ledger, receipt).result.Err?
  {
    StepRuns(c, ops, DoMint(receipt));
    hide Run;
    RunKeepsLogs(c, ops + [DoMint(receipt)], more);
  }

  lemma ReceiveAgain(c: Crypto, l: Ledger, tx: Transaction, key: Key, recipient: AweId)
    requires tx.recipient == recipient && tx.sender == key && TxVerifies(c, tx, key) && TxId(c, tx) in l.received
    ensures var again := Receive(c, l, tx, key, recipient);
            && again.result == Ok(false)
            && again.ledger.received == l.received
            && forall id :: Balance(again.ledger, id) == Balance(l, id)
  {
    hide TxVerifies, TxId;
  }

  lemma ReceiveLogs(c: Crypto, l: Ledger, tx: Transaction, key: Key, recipient: AweId)
    requires Receive(c, l, tx, key, recipient).result == Ok(true)
    ensures tx.recipient == recipient && tx.sender == key && TxVerifies(c, tx, key)
    ensures TxId(c, tx) in Receive(c, l, tx, key, recipient).ledger.received
  {
    hide TxVerifies, TxId, EnsureMember;
  }

  /** A replicated transfer that was credited is never credited again: delivering it once more reports so and leaves
      every balance as it is. */
  lemma {:induction false} ReceivedOnce(
      c: Crypto, ops: seq<Op>, tx: Transaction, key: Key, recipient: AweId, more: seq<Op>)
    requires Receive(c, Run(c, ops).ledger, tx, key, recipient).result == Ok(true)
    ensures var l := Run(c, ops + [DoReceive(tx, key, recipient)] + more).ledger;
            var again := Receive(c, l, tx, key, recipient);
            && again.result == Ok(false)
            && again.ledger.received == l.received
            && forall id :: Balance(again.ledger, id) == Balance(l, id)
  {
    var op := DoReceive(tx, key, recipient);
    StepRuns(c, ops, op);
    RunKeepsLogs(c, ops + [op], more);
    ReceiveLogs(c, Run(c, ops).ledger, tx, key, recipient);
    hide Run, Receive, TxVerifies, TxId;
    ReceiveAgain(c, Run(c, ops + [op] + more).ledger, tx, key, recipient);
  }
}
