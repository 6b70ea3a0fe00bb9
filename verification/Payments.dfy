/** Signed payments that succeed, and how often one of them can. */
module Payments {
  import opened Prelude
  import opened Onecoin
  import opened Ledger
  import opened Consensus
  import opened ChainSafety

  function Payment(from: Identity, nonce: u64, to: AweId, amount: u128): Transaction {
    var unsigned := Transaction(1, nonce, from.key, to, amount, None, 0);
    unsigned.(signature := from.sign(TxBody(unsigned)))
  }

  lemma PaymentWorks(c: Crypto, l: Ledger, from: Identity, to: AweId, amount: u128)
    requires SignsFor(c, from) && c.aweId(from.key) in l.members && to in l.members
    requires 0 < amount <= Balance(l, c.aweId(from.key))
    ensures var sender := c.aweId(from.key);
            var tx := Payment(from, Nonce(l, sender), to, amount);
            ExecuteOne(c, l, tx) == Ok(Move(l, tx, sender, amount))
  {
    var unsigned := Transaction(1, Nonce(l, c.aweId(from.key)), from.key, to, amount, None, 0);
    var tx := Payment(from, Nonce(l, c.aweId(from.key)), to, amount);
    assert tx.(signature := 0) == unsigned;
    assert c.verifies(from.key, TxBody(unsigned), from.sign(TxBody(unsigned)));
  }

  // ---- paying oneself, for ever ----

  /** The payment of one atom to oneself with the `i`-th nonce from `start`. */
  function SelfPayment(c: Crypto, who: Identity, start: u64, i: nat): Transaction {
    WrapIsModulo(start + i);
    Payment(who, (start + i) % NONCES, c.aweId(who.key), 1)
  }

  function SelfPayments(c: Crypto, who: Identity, start: u64, n: nat): (s: seq<Transaction>)
    ensures |s| == n && forall i :: 0 <= i < n ==> s[i] == SelfPayment(c, who, start, i)
  {
    if n == 0 then [] else SelfPayments(c, who, start, n - 1) + [SelfPayment(c, who, start, n - 1)]
  }

  /** A member that signs for itself and holds an atom. */
  ghost predicate Payer(c: Crypto, l: Ledger, who: Identity) {
    SignsFor(c, who) && c.aweId(who.key) in l.members && Balance(l, c.aweId(who.key)) >= 1
  }

  function WithNonce(l: Ledger, account: AweId, nonce: u64): Ledger {
    l.(nonces := l.nonces[account := nonce])
  }

  lemma SelfPaymentWorks(c: Crypto, l: Ledger, who: Identity)
    requires Payer(c, l, who)
    ensures var a := c.aweId(who.key);
            ExecuteOne(c, l, Payment(who, Nonce(l, a), a, 1)) == Ok(WithNonce(l, a, WrapInc64(Nonce(l, a))))
  {
    var a := c.aweId(who.key);
    PaymentWorks(c, l, who, a, 1);
    hide ExecuteOne, SignsFor;
    var paid := l.balances[a := l.balances[a] - 1];
    assert paid[a := l.balances[a]] == l.balances;
  }

  function Paid(l: Ledger, account: AweId, n: nat): Ledger {
    WrapIsModulo(Nonce(l, account) + n);
    if n == 0 then l else WithNonce(l, account, (Nonce(l, account) + n) % NONCES)
  }

  lemma PaidOnce(c: Crypto, l: Ledger, who: Identity, n: nat)
    requires Payer(c, l, who)
    ensures var a := c.aweId(who.key);
            && Payer(c, Paid(l, a, n), who)
            && Nonce(Paid(l, a, n), a) == (Nonce(l, a) + n) % NONCES
            && WithNonce(Paid(l, a, n), a, WrapInc64(Nonce(Paid(l, a, n), a))) == Paid(l, a, n + 1)
  {
    var a := c.aweId(who.key);
    SmallModulo(Nonce(l, a));
    WrapIsModulo(Nonce(l, a) + n);
    WrapIsModulo(Nonce(l, a) + n + 1);
    hide SignsFor, NONCES, WrapInc64;
    var paid := Paid(l, a, n);
    assert paid == l.(nonces := paid.nonces) && Nonce(paid, a) == (Nonce(l, a) + n) % NONCES;
    assert paid.nonces[a := (Nonce(l, a) + n + 1) % NONCES] == l.nonces[a := (Nonce(l, a) + n + 1) % NONCES];
  }

  lemma SmallModulo(x: u64)
    ensures x % NONCES == x
  {
  }

  /** Any number of self-payments runs, and leaves nothing but the nonce changed. */
  lemma {:induction false} SelfPaymentsRun(c: Crypto, l: Ledger, who: Identity, n: nat)
    requires Payer(c, l, who)
    ensures var a := c.aweId(who.key);
            Applied(c, l, SelfPayments(c, who, Nonce(l, a), n)) == Ok(Paid(l, a, n))
  {
    hide ExecuteOne, Payer, Payment, WithNonce, Nonce;
    var a := c.aweId(who.key);
    if n > 0 {
      SelfPaymentsRun(c, l, who, n - 1);
      var txs := SelfPayments(c, who, Nonce(l, a), n);
      assert txs[..n - 1] == SelfPayments(c, who, Nonce(l, a), n - 1);
      hide Paid;
      PaidOnce(c, l, who, n - 1);
      SelfPaymentWorks(c, Paid(l, a, n - 1), who);
    }
  }

  lemma NoncesRepeat(start: nat)
    ensures (start + NONCES) % NONCES == start % NONCES
  {
  }

  lemma SelfPaymentsRepeat(c: Crypto, who: Identity, start: u64, n: nat)
    requires n > NONCES
    ensures SelfPayments(c, who, start, n)[0] == SelfPayments(c, who, start, n)[NONCES]
  {
    NoncesRepeat(start);
    hide Payment;
  }

  /** Exactly the runs of more than 2^64 transfers can execute a transfer twice. */
  lemma RepeatsExactlyBeyondNonces(c: Crypto, l: Ledger, who: Identity, n: nat)
    requires Payer(c, l, who)
    ensures (exists txs: seq<Transaction> :: |txs| == n && Applied(c, l, txs).Ok? && !NoDup(txs)) <==> n > NONCES
  {
    hide Applied, Payment, Payer;
    forall txs: seq<Transaction> | |txs| == n && Applied(c, l, txs).Ok? && !NoDup(txs)
      ensures n > NONCES
    {
      var i, j :| 0 <= i < j < |txs| && txs[i] == txs[j];
      NoReplay(c, l, txs, i, j);
    }
    if n > NONCES {
      var txs := SelfPayments(c, who, Nonce(l, c.aweId(who.key)), n);
      SelfPaymentsRun(c, l, who, n);
      SelfPaymentsRepeat(c, who, Nonce(l, c.aweId(who.key)), n);
      assert |txs| == n && Applied(c, l, txs).Ok? && !NoDup(txs);
    }
  }
}
