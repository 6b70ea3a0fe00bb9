/** The assumptions about hashing and signing can be met, for every set of validators. */
module Assumptions {
  import opened Prelude
  import opened Onecoin
  import opened Consensus
  import opened Certified

  // ---- an injective numbering ----

  /** 2^a * (2 b + 1). */
  function Pair(a: nat, b: nat): (p: nat)
    ensures p > 0
  {
    if a == 0 then 2 * b + 1 else 2 * Pair(a - 1, b)
  }

  lemma {:induction false} PairInjective(a: nat, b: nat, x: nat, y: nat)
    requires Pair(a, b) == Pair(x, y)
    ensures a == x && b == y
  {
    if a > 0 && x > 0 {
      PairInjective(a - 1, b, x - 1, y);
    }
  }

  function Number(s: seq<nat>): nat {
    if s == [] then 0 else Pair(s[0], Number(s[1..]))
  }

  lemma {:induction false} NumberInjective(s: seq<nat>, t: seq<nat>)
    requires Number(s) == Number(t)
    ensures s == t
  {
    hide Pair;
    if s != [] && t != [] {
      PairInjective(s[0], Number(s[1..]), t[0], Number(t[1..]));
      NumberInjective(s[1..], t[1..]);
      assert s == [s[0]] + s[1..] && t == [t[0]] + t[1..];
    }
  }

  function Naturals(s: seq<byte>): (r: seq<nat>)
    ensures |r| == |s| && forall i :: 0 <= i < |s| ==> r[i] == s[i]
  {
    if s == [] then [] else Naturals(s[..|s| - 1]) + [s[|s| - 1] as nat]
  }

  function NumberMemo(m: Option<seq<byte>>): nat {
    if m.None? then 0 else 1 + Number(Naturals(m.value))
  }

  lemma MemoInjective(m: Option<seq<byte>>, n: Option<seq<byte>>)
    requires NumberMemo(m) == NumberMemo(n)
    ensures m == n
  {
    if m.Some? && n.Some? {
      var x, y := Naturals(m.value), Naturals(n.value);
      NumberInjective(x, y);
      assert forall i :: 0 <= i < |x| ==> x[i] == m.value[i] && y[i] == n.value[i];
      assert m.value == n.value;
    }
  }

  function TxFields(tx: Transaction): seq<nat> {
    [tx.version, tx.nonce, tx.sender, tx.recipient, tx.amount, NumberMemo(tx.memo), tx.signature]
  }

  lemma TxInjective(a: Transaction, b: Transaction)
    requires Number(TxFields(a)) == Number(TxFields(b))
    ensures a == b
  {
    hide Number, NumberMemo;
    var x, y := TxFields(a), TxFields(b);
    NumberInjective(x, y);
    assert x[0] == y[0] && x[1] == y[1] && x[2] == y[2] && x[3] == y[3] && x[4] == y[4] && x[5] == y[5] && x[6] == y[6];
    MemoInjective(a.memo, b.memo);
  }

  function TxNumbers(txs: seq<Transaction>): (r: seq<nat>)
    ensures |r| == |txs| && forall i :: 0 <= i < |txs| ==> r[i] == Number(TxFields(txs[i]))
  {
    seq(|txs|, i requires 0 <= i < |txs| => Number(TxFields(txs[i])))
  }

  lemma TxListInjective(s: seq<Transaction>, t: seq<Transaction>)
    requires Number(TxNumbers(s)) == Number(TxNumbers(t))
    ensures s == t
  {
    hide Number, TxFields;
    NumberInjective(TxNumbers(s), TxNumbers(t));
    forall i | 0 <= i < |s|
      ensures s[i] == t[i]
    {
      assert TxNumbers(s)[i] == TxNumbers(t)[i];
      TxInjective(s[i], t[i]);
    }
  }

  function ReceiptFields(r: SignedReceipt): seq<nat> {
    [r.receipt.node, r.receipt.storageByteHours, r.receipt.relayBytes, r.receipt.bandwidthBytes,
     r.receipt.computeUnits, r.receipt.uptimeMinutes, r.receipt.periodStart, r.receipt.periodEnd,
     r.verifierKey, r.signature]
  }

  lemma ReceiptInjective(a: SignedReceipt, b: SignedReceipt)
    requires Number(ReceiptFields(a)) == Number(ReceiptFields(b))
    ensures a == b
  {
    hide Number;
    var x, y := ReceiptFields(a), ReceiptFields(b);
    NumberInjective(x, y);
    assert x[0] == y[0] && x[1] == y[1] && x[2] == y[2] && x[3] == y[3] && x[4] == y[4];
    assert x[5] == y[5] && x[6] == y[6] && x[7] == y[7] && x[8] == y[8] && x[9] == y[9];
  }

  function BlockFields(b: Block): seq<nat> {
    [b.header.version, b.header.height, b.header.previousHash, b.header.transactionsHash, b.header.proposer,
     b.header.timestamp, Number(TxNumbers(b.transactions)), b.signature]
  }

  lemma BlockInjective(a: Block, b: Block)
    requires Number(BlockFields(a)) == Number(BlockFields(b))
    ensures a == b
  {
    hide Number, TxNumbers;
    var x, y := BlockFields(a), BlockFields(b);
    NumberInjective(x, y);
    assert x[0] == y[0] && x[1] == y[1] && x[2] == y[2] && x[3] == y[3];
    assert x[4] == y[4] && x[5] == y[5] && x[6] == y[6] && x[7] == y[7];
    TxListInjective(a.transactions, b.transactions);
  }

  function TagOf(h: Hashable): nat {
    match h case TxBytes(_) => 0 case TxListBytes(_) => 1 case ReceiptBytes(_) => 2 case BlockBytes(_) => 3
  }

  function BodyOf(h: Hashable): nat {
    match h
    case TxBytes(tx) => Number(TxFields(tx))
    case TxListBytes(txs) => Number(TxNumbers(txs))
    case ReceiptBytes(r) => Number(ReceiptFields(r))
    case BlockBytes(b) => Number(BlockFields(b))
  }

  function NumberOf(h: Hashable): nat {
    Pair(TagOf(h), BodyOf(h))
  }

  lemma NumberOfInjective(g: Hashable, h: Hashable)
    requires NumberOf(g) == NumberOf(h)
    ensures g == h
  {
    hide Pair, Number, TxFields, TxNumbers, ReceiptFields, BlockFields;
    PairInjective(TagOf(g), BodyOf(g), TagOf(h), BodyOf(h));
    match g
    case TxBytes(tx) => TxInjective(tx, h.tx);
    case TxListBytes(txs) => TxListInjective(txs, h.txs);
    case ReceiptBytes(r) => ReceiptInjective(r, h.r);
    case BlockBytes(b) => BlockInjective(b, h.b);
  }

  // ---- the witness ----

  /** Numbering for a hash, the key for a signature, and ids that are keys. */
  function Ideal(): Crypto {
    Crypto(k => k, h => NumberOf(h), (key, m, signature) => signature == key)
  }

  function Person(key: Key): Identity {
    Identity(key, _ => key)
  }

  /** Whoever the validators are, hashing can be injective while all of them can sign. */
  lemma AssumptionsAreMet(validators: Validators, who: Signers)
    requires validators != map[]
    requires forall id :: id in validators ==> validators[id] == id && id in who && who[id] == Person(id)
    ensures CollisionFree(Ideal()) && SetUp(Ideal(), validators, who)
  {
    hide NumberOf;
    forall x, y | Ideal().hash(x) == Ideal().hash(y)
      ensures x == y
    {
      NumberOfInjective(x, y);
    }
  }
}
