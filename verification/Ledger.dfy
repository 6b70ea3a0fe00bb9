/** The ONECOIN ledger: what each operation does to the ledger as a value. */
module Ledger {
  import opened Prelude
  import opened Sorting
  import opened Onecoin
  import Price

  const ATOMS_PER_COIN: u128 := 1_000_000_000_000_000_000
  const GENESIS_ALLOCATION: u128 := 10 * ATOMS_PER_COIN
  const JOIN_DISTRIBUTION: u128 := ATOMS_PER_COIN

  datatype LedgerError =
    | EmptyGenesis | GenesisDone | VerifierNotMember | NotAuthorizer | MemberExists
    | BadReceiptSignature | SignerNotVerifier | AlreadyRewarded | RecipientNotMember | BadPeriod | EmptyContribution
    | NotMembers | BadNonce | SenderMismatch | BadSignature | InsufficientBalance | FeeTooHigh | WrongWallet

  datatype RewardPolicy = RewardPolicy(atomsPerScore: u128, maxReward: u128)

  datatype Ledger = Ledger(
    balances: map<AweId, u128>, nonces: map<AweId, u64>, members: map<AweId, AweId>, totalIssued: u128,
    collectedFees: u128, received: map<Digest, u128>, joinRemainder: u128, joinActive: bool, price: Price.Policy,
    rewardPolicy: RewardPolicy, verifiers: map<AweId, Key>, rewarded: map<Digest, u128>)

  const DEFAULT: Ledger :=
    Ledger(map[], map[], map[], 0, 0, map[], 0, true, Price.INITIAL, RewardPolicy(1, 100 * ATOMS_PER_COIN), map[], map[])

  /** A ledger after an operation, with what the operation reported. */
  datatype Outcome<+T> = Outcome(ledger: Ledger, result: Result<T, LedgerError>)

  function Fail<T>(l: Ledger, why: LedgerError): Outcome<T> {
    Outcome(l, Err(why))
  }

  function Balance(l: Ledger, id: AweId): u128 {
    if id in l.balances then l.balances[id] else 0
  }

  function Nonce(l: Ledger, id: AweId): u64 {
    if id in l.nonces then l.nonces[id] else 0
  }

  function Credit(balances: map<AweId, u128>, id: AweId, amount: u128): map<AweId, u128> {
    balances[id := SatAdd128(if id in balances then balances[id] else 0, amount)]
  }

  // ---- genesis and membership ----

  function EnrolOne(l: Ledger, id: AweId): Ledger {
    l.(members := l.members[id := id], balances := l.balances[id := GENESIS_ALLOCATION], nonces := l.nonces[id := 0])
  }

  /** The first `n` of `ids` are enrolled. */
  function Enrol(l: Ledger, ids: seq<AweId>, n: nat): Ledger
    requires n <= |ids|
  {
    if n == 0 then l else EnrolOne(Enrol(l, ids, n - 1), ids[n - 1])
  }

  lemma EnrolNext(l: Ledger, ids: seq<AweId>, n: nat)
    requires n < |ids|
    ensures Enrol(l, ids, n + 1) == EnrolOne(Enrol(l, ids, n), ids[n])
  {
  }

  /** Repeated founders count once; they are stored in the order of their ids. */
  function Genesis(l: Ledger, ids: seq<AweId>): Outcome<()> {
    if ids == [] then Fail(l, EmptyGenesis)
    else if l.members != map[] then Fail(l, GenesisDone)
    else
      var keys := SortedKeys(Elems(ids));
      var e := Enrol(l, keys, |keys|);
      Outcome(e.(totalIssued := Min(GENESIS_ALLOCATION * |e.members|, U128_MAX)), Ok(()))
  }

  /** `g` is `l` with the ids of `founders` enrolled. */
  ghost predicate Founded(l: Ledger, g: Ledger, founders: set<AweId>) {
    && g == l.(members := g.members, balances := g.balances, nonces := g.nonces, totalIssued := g.totalIssued)
    && g.members.Keys == l.members.Keys + founders
    && g.balances.Keys == l.balances.Keys + founders
    && g.nonces.Keys == l.nonces.Keys + founders
    && forall id :: id in founders ==> g.members[id] == id && g.balances[id] == GENESIS_ALLOCATION && g.nonces[id] == 0
  }

  lemma EnrolledKeys<V>(m: map<AweId, V>, base: set<AweId>, founders: set<AweId>, id: AweId, v: V)
    requires m.Keys == base + founders
    ensures m[id := v].Keys == base + (founders + {id})
  {
  }

  lemma EnrolOneFounds(l: Ledger, g: Ledger, founders: set<AweId>, id: AweId)
    requires Founded(l, g, founders)
    ensures Founded(l, EnrolOne(g, id), founders + {id})
  {
    var e := EnrolOne(g, id);
    EnrolledKeys(g.members, l.members.Keys, founders, id, id);
    EnrolledKeys(g.balances, l.balances.Keys, founders, id, GENESIS_ALLOCATION);
    EnrolledKeys(g.nonces, l.nonces.Keys, founders, id, 0);
    forall x | x in founders + {id}
      ensures x in e.members && x in e.balances && x in e.nonces
      ensures e.members[x] == x && e.balances[x] == GENESIS_ALLOCATION && e.nonces[x] == 0
    {
      assert x == id || x in founders;
    }
  }

  lemma {:induction false} EnrolFounds(l: Ledger, ids: seq<AweId>, n: nat)
    requires n <= |ids|
    ensures Founded(l, Enrol(l, ids, n), Elems(ids[..n])) && Enrol(l, ids, n).totalIssued == l.totalIssued
  {
    if n == 0 {
      assert Founded(l, l, {});
      assert Elems(ids[..0]) == {};
    } else {
      EnrolFounds(l, ids, n - 1);
      EnrolOneFounds(l, Enrol(l, ids, n - 1), Elems(ids[..n - 1]), ids[n - 1]);
      assert Elems(ids[..n]) == Elems(ids[..n - 1]) + {ids[n - 1]};
      hide Founded;
    }
  }

  lemma FoundedParts(l: Ledger, g: Ledger, founders: set<AweId>, issued: u128)
    requires Founded(l, g, founders) && l.members == map[]
    ensures Founded(l, g.(totalIssued := issued), founders)
    ensures g.members.Keys == founders && |g.members| == |founders|
  {
    assert |g.members| == |g.members.Keys|;
  }

  /** Each founder, named once or more, starts with ten coins and nonce zero; nobody else is touched. */
  lemma GenesisContents(l: Ledger, ids: seq<AweId>)
    requires Genesis(l, ids).result.Ok?
    ensures Founded(l, Genesis(l, ids).ledger, Elems(ids))
    ensures Genesis(l, ids).ledger.members.Keys == Elems(ids)
    ensures Genesis(l, ids).ledger.totalIssued == Min(GENESIS_ALLOCATION * |Elems(ids)|, U128_MAX)
  {
    hide Founded, SortedKeys, Elems, Enrol;
    var keys := SortedKeys(Elems(ids));
    SortedKeysContents(Elems(ids));
    EnrolFounds(l, keys, |keys|);
    assert keys[..|keys|] == keys;
    FoundedParts(l, Enrol(l, keys, |keys|), Elems(ids), Genesis(l, ids).ledger.totalIssued);
  }

  function AddVerifiers(c: Crypto, l: Ledger, keys: seq<Key>): Outcome<()>
    decreases keys
  {
    if keys == [] then Outcome(l, Ok(()))
    else if c.aweId(keys[0]) !in l.members then Fail(l, VerifierNotMember)
    else AddVerifiers(c, l.(verifiers := l.verifiers[c.aweId(keys[0]) := keys[0]]), keys[1..])
  }

  /** A bad verifier is reported after the members and earlier verifiers have been stored. */
  function GenesisWithVerifiers(c: Crypto, l: Ledger, ids: seq<AweId>, keys: seq<Key>): Outcome<()> {
    var g := Genesis(l, ids);
    if g.result.Err? then g else AddVerifiers(c, g.ledger, keys)
  }

  function AuthorizeVerifier(c: Crypto, l: Ledger, authorizer: Key, newKey: Key): Outcome<()> {
    if c.aweId(authorizer) !in l.verifiers then Fail(l, NotAuthorizer)
    else if c.aweId(newKey) !in l.members then Fail(l, VerifierNotMember)
    else Outcome(l.(verifiers := l.verifiers[c.aweId(newKey) := newKey]), Ok(()))
  }

  function EnsureMember(l: Ledger, id: AweId): Ledger {
    l.(members := if id in l.members then l.members else l.members[id := id],
       balances := if id in l.balances then l.balances else l.balances[id := 0],
       nonces := if id in l.nonces then l.nonces else l.nonces[id := 0])
  }

  datatype JoinDistribution = JoinDistribution(
    newMember: AweId, eligible: nat, perMember: u128, distributed: u128, remainder: u128, active: bool)

  function CalculateJoin(id: AweId, count: u64): JoinDistribution {
    var n := Max(count, 1);
    var share := JOIN_DISTRIBUTION / n;
    var distributed := SatMul128(share, n);
    JoinDistribution(id, count, share, distributed, SatSub(JOIN_DISTRIBUTION, distributed), share >= 1)
  }

  /** One coin is dealt out exactly: shares plus remainder, and the remainder is less than one atom per share. No members
      count as one. */
  lemma JoinDealsOneCoin(id: AweId, count: u64)
    ensures var d, n := CalculateJoin(id, count), Max(count, 1);
            && d.distributed == d.perMember * n
            && d.distributed + d.remainder == JOIN_DISTRIBUTION
            && d.perMember <= d.distributed
            && d.remainder < n
            && (d.active <==> n <= JOIN_DISTRIBUTION)
  {
    DealEvenly(JOIN_DISTRIBUTION, Max(count, 1));
  }

  lemma DealEvenly(total: nat, n: nat)
    requires n >= 1
    ensures total / n <= total / n * n <= total < total / n * n + n
    ensures total / n >= 1 <==> n <= total
  {
    var q := total / n;
    assert total == q * n + total % n;
    MulMonotone(1, n, q);
    if q >= 1 {
      MulMonotone(1, q, n);
    }
  }

  predicate PayingJoin(l: Ledger, id: AweId) {
    && id !in l.members
    && l.joinActive
    && CalculateJoin(id, Min(|l.members| + 1, U64_MAX)).active
  }

  function Raise(balances: map<AweId, u128>, ids: set<AweId>, share: u128): map<AweId, u128> {
    balances + map id | id in ids :: SatAdd128(if id in balances then balances[id] else 0, share)
  }

  function Register(l: Ledger, id: AweId): Outcome<JoinDistribution> {
    if id in l.members then Fail(l, MemberExists)
    else
      var m := EnsureMember(l, id);
      var d := CalculateJoin(id, Min(|m.members|, U64_MAX));
      Outcome(if m.joinActive && d.active then PayJoin(m, d) else m.(joinActive := false), Ok(d))
  }

  function PayJoin(l: Ledger, d: JoinDistribution): Ledger {
    l.(balances := Raise(l.balances, l.members.Keys, d.perMember),
       totalIssued := SatAdd128(l.totalIssued, d.distributed),
       joinRemainder := SatAdd128(l.joinRemainder, d.remainder))
  }

  // ---- rewards ----

  function Score(r: Receipt): u128 {
    SatAdd128(
      SatAdd128(
        SatAdd128(
          SatAdd128(r.storageByteHours, r.relayBytes),
          r.bandwidthBytes),
        r.computeUnits * 4),
      r.uptimeMinutes * 1024)
  }

  function RewardFor(p: RewardPolicy, r: Receipt): Result<u128, LedgerError> {
    if r.periodEnd <= r.periodStart then Err(BadPeriod)
    else if Score(r) == 0 then Err(EmptyContribution)
    else Ok(Min(SatMul128(Score(r), p.atomsPerScore), p.maxReward))
  }

  function Mint(c: Crypto, l: Ledger, r: SignedReceipt): Outcome<u128> {
    var key := c.hash(ReceiptBytes(r));
    var verifier := c.aweId(r.verifierKey);
    if !ReceiptVerifies(c, r) then Fail(l, BadReceiptSignature)
    else if !(verifier in l.verifiers && l.verifiers[verifier] == r.verifierKey) then
      Fail(l, SignerNotVerifier)
    else if key in l.rewarded then Fail(l, AlreadyRewarded)
    else if r.receipt.node !in l.members then Fail(l, RecipientNotMember)
    else match RewardFor(l.rewardPolicy, r.receipt)
      case Err(e) => Fail(l, e)
      case Ok(reward) =>
        Outcome(
          l.(balances := Credit(l.balances, r.receipt.node, reward),
             totalIssued := SatAdd128(l.totalIssued, reward),
             rewarded := l.rewarded[key := reward]),
          Ok(reward))
  }

  // ---- transfers ----

  function Move(l: Ledger, tx: Transaction, sender: AweId, total: u128): Ledger
    requires total <= Balance(l, sender)
  {
    l.(balances := Credit(l.balances[sender := Balance(l, sender) - total], tx.recipient, tx.amount),
       nonces := l.nonces[sender := WrapInc64(Nonce(l, sender))])
  }

  function Transfer(c: Crypto, l: Ledger, tx: Transaction, key: Key): Outcome<Digest> {
    var sender := c.aweId(key);
    if sender !in l.members || tx.recipient !in l.members then Fail(l, NotMembers)
    else if tx.nonce != Nonce(l, sender) then Fail(l, BadNonce)
    else if tx.sender != key then Fail(l, SenderMismatch)
    else if !TxVerifies(c, tx, key) then Fail(l, BadSignature)
    else if Balance(l, sender) < tx.amount then Fail(l, InsufficientBalance)
    else Outcome(Move(l, tx, sender, tx.amount), Ok(TxId(c, tx)))
  }

  function FeeFor(amount: u128, bps: nat): u128
    requires bps <= 500
  {
    SatMul128(amount, bps) / 10_000
  }

  function TransferWithFee(c: Crypto, l: Ledger, tx: Transaction, key: Key, bps: nat): Outcome<(Digest, u128)> {
    if bps > 500 then Fail(l, FeeTooHigh) else TransferCharging(c, l, tx, key, FeeFor(tx.amount, bps))
  }

  function TransferCharging(c: Crypto, l: Ledger, tx: Transaction, key: Key, fee: u128): Outcome<(Digest, u128)> {
    var sender := c.aweId(key);
    var total := SatAdd128(tx.amount, fee);
    if sender !in l.members || tx.recipient !in l.members then Fail(l, NotMembers)
    else if tx.nonce != Nonce(l, sender) then Fail(l, BadNonce)
    else if tx.sender != key || !TxVerifies(c, tx, key) then Fail(l, BadSignature)
    else if Balance(l, sender) < total then Fail(l, InsufficientBalance)
    else
      Outcome(
        Move(l, tx, sender, total).(collectedFees := SatAdd128(l.collectedFees, fee)),
        Ok((TxId(c, tx), fee)))
  }

  function Receive(c: Crypto, l: Ledger, tx: Transaction, key: Key, recipient: AweId): Outcome<bool> {
    if tx.recipient != recipient then Fail(l, WrongWallet)
    else if tx.sender != key || !TxVerifies(c, tx, key) then Fail(l, BadSignature)
    else CreditOnce(EnsureMember(EnsureMember(l, c.aweId(key)), recipient), TxId(c, tx), recipient, tx.amount)
  }

  function CreditOnce(l: Ledger, txId: Digest, recipient: AweId, amount: u128): Outcome<bool> {
    if txId in l.received then Outcome(l, Ok(false))
    else
      Outcome(
        l.(balances := Credit(l.balances, recipient, amount), received := l.received[txId := amount]),
        Ok(true))
  }
}
