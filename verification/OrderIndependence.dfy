/** Any two orders in which the same transfers all succeed lead to the same ledger. */
module OrderIndependence {
  import opened Prelude
  import opened MapSum
  import opened Onecoin
  import opened Ledger
  import opened Conservation
  import opened Consensus
  import opened ChainSafety
  import opened Payments

  function Delta(c: Crypto, tx: Transaction, account: AweId): int {
    (if tx.recipient == account then tx.amount else 0) - (if c.aweId(tx.sender) == account then tx.amount else 0)
  }

  /** What the transfers together add to an account. */
  function Net(c: Crypto, txs: seq<Transaction>, account: AweId): int {
    if txs == [] then 0 else Net(c, txs[..|txs| - 1], account) + Delta(c, txs[|txs| - 1], account)
  }

  function Senders(c: Crypto, txs: seq<Transaction>): set<AweId> {
    set tx | tx in txs :: c.aweId(tx.sender)
  }

  function Recipients(txs: seq<Transaction>): set<AweId> {
    set tx | tx in txs :: tx.recipient
  }

  /** Removing any one transfer removes its own contribution. */
  lemma {:induction false} NetRemove(c: Crypto, txs: seq<Transaction>, i: nat, account: AweId)
    requires i < |txs|
    ensures Net(c, txs, account) == Net(c, txs[..i] + txs[i + 1..], account) + Delta(c, txs[i], account)
    ensures SentBy(c, account, txs)
         == SentBy(c, account, txs[..i] + txs[i + 1..]) + (if c.aweId(txs[i].sender) == account then 1 else 0)
  {
    var rest := txs[..i] + txs[i + 1..];
    var front := txs[..|txs| - 1];
    if i == |front| {
      assert rest == front;
    } else {
      NetRemove(c, front, i, account);
      assert rest[..|rest| - 1] == front[..i] + front[i + 1..];
    }
  }

  lemma {:induction false} NetPermutes(c: Crypto, s: seq<Transaction>, t: seq<Transaction>, account: AweId)
    requires multiset(s) == multiset(t)
    ensures Net(c, s, account) == Net(c, t, account)
    ensures SentBy(c, account, s) == SentBy(c, account, t)
    decreases |s|
  {
    assert |multiset(s)| == |s| && |multiset(t)| == |t|;
    if s != [] {
      var front, last := s[..|s| - 1], s[|s| - 1];
      assert s == front + [last];
      assert last in multiset(t);
      var i :| 0 <= i < |t| && t[i] == last;
      var rest := t[..i] + t[i + 1..];
      assert t == t[..i] + [last] + t[i + 1..];
      assert multiset(rest) == multiset(t) - multiset{last};
      NetRemove(c, t, i, account);
      NetPermutes(c, front, rest, account);
    }
  }

  /** One successful transfer below the ceiling moves exactly its amount. */
  lemma StepBalance(c: Crypto, l: Ledger, tx: Transaction, account: AweId)
    requires Sum(l.balances) <= U128_MAX && ExecuteOne(c, l, tx).Ok?
    ensures var l' := ExecuteOne(c, l, tx).value;
            && Balance(l', account) == Balance(l, account) + Delta(c, tx, account)
            && l'.balances.Keys == l.balances.Keys + {c.aweId(tx.sender), tx.recipient}
            && l'.nonces.Keys == l.nonces.Keys + {c.aweId(tx.sender)}
            && l' == l.(balances := l'.balances, nonces := l'.nonces)
            && Sum(l'.balances) == Sum(l.balances)
  {
    var sender := c.aweId(tx.sender);
    MoveEffect(l, tx, sender, tx.amount);
    var debited := l.balances[sender := Balance(l, sender) - tx.amount];
    SumUpdate(l.balances, sender, Balance(l, sender) - tx.amount);
    ValueBound(debited, tx.recipient);
  }

  lemma {:induction false} FinalBalance(c: Crypto, l: Ledger, txs: seq<Transaction>, account: AweId)
    requires Sum(l.balances) <= U128_MAX && Applied(c, l, txs).Ok?
    ensures var l' := Applied(c, l, txs).value;
            && Balance(l', account) == Balance(l, account) + Net(c, txs, account)
            && l'.balances.Keys == l.balances.Keys + Senders(c, txs) + Recipients(txs)
            && l'.nonces.Keys == l.nonces.Keys + Senders(c, txs)
            && l' == l.(balances := l'.balances, nonces := l'.nonces)
            && Sum(l'.balances) == Sum(l.balances)
  {
    hide ExecuteOne, SumOver;
    if txs != [] {
      var front, last := txs[..|txs| - 1], txs[|txs| - 1];
      FinalBalance(c, l, front, account);
      StepBalance(c, Applied(c, l, front).value, last, account);
      assert Senders(c, txs) == Senders(c, front) + {c.aweId(last.sender)};
      assert Recipients(txs) == Recipients(front) + {last.recipient};
    }
  }

  lemma SameBalance(c: Crypto, l: Ledger, s: seq<Transaction>, t: seq<Transaction>, k: AweId)
    requires Sum(l.balances) <= U128_MAX && multiset(s) == multiset(t)
    requires Applied(c, l, s).Ok? && Applied(c, l, t).Ok?
    ensures Balance(Applied(c, l, s).value, k) == Balance(Applied(c, l, t).value, k)
    ensures Nonce(Applied(c, l, s).value, k) == Nonce(Applied(c, l, t).value, k)
  {
    hide Applied, Sum, Net, SentBy;
    FinalBalance(c, l, s, k);
    FinalBalance(c, l, t, k);
    NonceCounts(c, l, s, k);
    NonceCounts(c, l, t, k);
    NetPermutes(c, s, t, k);
  }

  /** The ledger after a set of transfers does not depend on the order they ran in. */
  lemma OrderDoesNotMatter(c: Crypto, l: Ledger, s: seq<Transaction>, t: seq<Transaction>)
    requires Sum(l.balances) <= U128_MAX && multiset(s) == multiset(t)
    requires Applied(c, l, s).Ok? && Applied(c, l, t).Ok?
    ensures Applied(c, l, s) == Applied(c, l, t)
  {
    hide Applied, Sum, Senders, Recipients;
    var a, b := Applied(c, l, s).value, Applied(c, l, t).value;
    SameParties(c, s, t);
    FinalBalance(c, l, s, 0);
    FinalBalance(c, l, t, 0);
    forall k
      ensures Balance(a, k) == Balance(b, k) && Nonce(a, k) == Nonce(b, k)
    {
      SameBalance(c, l, s, t, k);
    }
    assert a.balances == b.balances by {
      forall k | k in a.balances
        ensures a.balances[k] == b.balances[k]
      {
        assert Balance(a, k) == Balance(b, k);
      }
    }
    assert a.nonces == b.nonces by {
      forall k | k in a.nonces
        ensures a.nonces[k] == b.nonces[k]
      {
        assert Nonce(a, k) == Nonce(b, k);
      }
    }
  }

  lemma SameParties(c: Crypto, s: seq<Transaction>, t: seq<Transaction>)
    requires multiset(s) == multiset(t)
    ensures Senders(c, s) == Senders(c, t) && Recipients(s) == Recipients(t)
  {
    forall tx
      ensures tx in s <==> tx in t
    {
      assert tx in s <==> tx in multiset(s);
      assert tx in t <==> tx in multiset(t);
    }
  }

  lemma AppliedPair(c: Crypto, l: Ledger, a: Transaction, b: Transaction)
    ensures Applied(c, l, [a, b])
         == if ExecuteOne(c, l, a).Ok? then ExecuteOne(c, ExecuteOne(c, l, a).value, b) else ExecuteOne(c, l, a)
  {
    assert [a, b][..1] == [a];
    assert [a][..0] == [];
    assert Applied(c, l, [a]) == ExecuteOne(c, l, a);
  }

  // ---- above the ceiling ----

  /** Every member can sign for itself. */
  ghost predicate CanSign(c: Crypto, l: Ledger, who: map<AweId, Identity>) {
    forall k :: k in l.members ==> k in who && c.aweId(who[k].key) == k && SignsFor(c, who[k])
  }

  ghost predicate OneAccountEach(l: Ledger) {
    l.balances.Keys == l.members.Keys
  }

  /** All of `a` to `b`, and one atom from `b` to `a`: a credit that saturates is lost, one made after a debit is not. */
  lemma PairDisagrees(c: Crypto, l: Ledger, who: map<AweId, Identity>, a: AweId, b: AweId)
    returns (s: seq<Transaction>, t: seq<Transaction>)
    requires CanSign(c, l, who) && a in l.members && b in l.members && a != b
    requires Balance(l, a) + Balance(l, b) > U128_MAX
    ensures multiset(s) == multiset(t)
    ensures Applied(c, l, s).Ok? && Applied(c, l, t).Ok? && Applied(c, l, s) != Applied(c, l, t)
  {
    var x := Balance(l, a);
    var pay, back := Payment(who[a], Nonce(l, a), b, x), Payment(who[b], Nonce(l, b), a, 1);
    s, t := [pay, back], [back, pay];
    AppliedPair(c, l, pay, back);
    AppliedPair(c, l, back, pay);
    hide Applied, ExecuteOne, SignsFor;
    PaymentWorks(c, l, who[a], b, x);
    PaymentWorks(c, l, who[b], a, 1);
    var l1, l2 := Move(l, pay, a, x), Move(l, back, b, 1);
    PaymentWorks(c, l1, who[b], a, 1);
    PaymentWorks(c, l2, who[a], b, x);
    assert Balance(Move(l1, back, b, 1), b) == U128_MAX - 1;
    assert Balance(Move(l2, pay, a, x), b) == U128_MAX;
  }

  function Funded(l: Ledger, sink: AweId): set<AweId> {
    set k | k in l.balances && k != sink && l.balances[k] > 0
  }

  /** More than one account's worth of atoms cannot all sit in one account. */
  lemma SomeoneElseFunded(l: Ledger, sink: AweId)
    requires Sum(l.balances) > U128_MAX
    ensures Funded(l, sink) != {}
  {
    if Funded(l, sink) == {} {
      var rest: map<AweId, int> := l.balances[sink := 0];
      SumUpdate(l.balances, sink, 0);
      forall k | k in rest
        ensures rest[k] == 0
      {
        assert k !in Funded(l, sink);
      }
      SumZero(rest.Keys, rest);
    }
  }

  /** Collecting everything at one member, one account at a time, until the next credit would saturate. */
  lemma {:induction false} FindDisagreement(c: Crypto, l: Ledger, who: map<AweId, Identity>, sink: AweId)
    returns (s: seq<Transaction>, t: seq<Transaction>)
    requires CanSign(c, l, who) && OneAccountEach(l) && sink in l.members && Sum(l.balances) > U128_MAX
    ensures multiset(s) == multiset(t)
    ensures Applied(c, l, s).Ok? && Applied(c, l, t).Ok? && Applied(c, l, s) != Applied(c, l, t)
    decreases Funded(l, sink)
  {
    SomeoneElseFunded(l, sink);
    var a :| a in Funded(l, sink);
    var x := Balance(l, a);
    if x + Balance(l, sink) > U128_MAX {
      s, t := PairDisagrees(c, l, who, a, sink);
    } else {
      var tx := Payment(who[a], Nonce(l, a), sink, x);
      PaymentWorks(c, l, who[a], sink, x);
      var l1 := Move(l, tx, a, x);
      CollectOne(l, tx, a, sink);
      var s1, t1 := FindDisagreement(c, l1, who, sink);
      s, t := [tx] + s1, [tx] + t1;
      assert Applied(c, l, [tx]) == Ok(l1) by {
        assert [tx][..0] == [];
      }
      AppliedSplit(c, l, [tx], s1);
      AppliedSplit(c, l, [tx], t1);
    }
  }

  lemma CollectOne(l: Ledger, tx: Transaction, a: AweId, sink: AweId)
    requires OneAccountEach(l) && a in Funded(l, sink) && sink in l.members
    requires tx.recipient == sink && tx.amount == Balance(l, a) && tx.amount + Balance(l, sink) <= U128_MAX
    ensures var l1 := Move(l, tx, a, tx.amount);
            && OneAccountEach(l1) && l1.members == l.members
            && Sum(l1.balances) == Sum(l.balances)
            && Funded(l1, sink) < Funded(l, sink)
  {
    hide Sum;
    var emptied: map<AweId, int> := l.balances[a := 0];
    SumUpdate(l.balances, a, 0);
    SumUpdate(emptied, sink, Balance(l, sink) + tx.amount);
    var l1 := Move(l, tx, a, tx.amount);
    assert l1.balances == emptied[sink := Balance(l, sink) + tx.amount];
    assert a !in Funded(l1, sink);
  }

  /** Any two orders of the same transfers that both succeed end in the same ledger. */
  ghost predicate OrderNeverMatters(c: Crypto, l: Ledger) {
    forall s, t :: multiset(s) == multiset(t) && Applied(c, l, s).Ok? && Applied(c, l, t).Ok? ==>
      Applied(c, l, s) == Applied(c, l, t)
  }

  /** Execution is order-independent on a ledger exactly when its balances add up to less than 2^128 atoms. */
  lemma OrderMattersExactlyAboveCeiling(c: Crypto, l: Ledger, who: map<AweId, Identity>)
    requires CanSign(c, l, who) && OneAccountEach(l)
    ensures OrderNeverMatters(c, l) <==> Sum(l.balances) <= U128_MAX
  {
    hide Applied, Sum;
    if Sum(l.balances) <= U128_MAX {
      forall s, t | multiset(s) == multiset(t) && Applied(c, l, s).Ok? && Applied(c, l, t).Ok?
        ensures Applied(c, l, s) == Applied(c, l, t)
      {
        OrderDoesNotMatter(c, l, s, t);
      }
    } else {
      var sink := SomeKey(l.balances);
      var s, t := FindDisagreement(c, l, who, sink);
    }
  }

  lemma SomeKey(m: map<AweId, int>) returns (k: AweId)
    requires Sum(m) > 0
    ensures k in m
  {
    if m == map[] {
      SumEmpty(m);
    }
    assert m.Keys != {};
    k :| k in m;
  }
}
