/** The ledger object, updated in place; every method does what its counterpart on values says. */
module OnecoinLedgers {
  import opened Prelude
  import opened Sorting
  import opened Onecoin
  import Price
  import Spec = Ledger

  type LedgerError = Spec.LedgerError

  lemma RaiseOne(balances: map<AweId, u128>, done: set<AweId>, id: AweId, share: u128)
    requires id !in done
    ensures var paid := Spec.Raise(balances, done, share);
            Spec.Raise(balances, done + {id}, share)
            == paid[id := SatAdd128(if id in paid then paid[id] else 0, share)]
  {
    hide SatAdd128;
  }

  lemma RaiseNone(balances: map<AweId, u128>, share: u128)
    ensures Spec.Raise(balances, {}, share) == balances
  {
  }

  lemma GenesisIs(l: Spec.Ledger, ids: seq<AweId>, keys: seq<nat>)
    requires keys == SortedKeys(Elems(ids))
    ensures ids == [] ==> Spec.Genesis(l, ids) == Spec.Fail(l, Spec.EmptyGenesis)
    ensures ids != [] && l.members != map[] ==> Spec.Genesis(l, ids) == Spec.Fail(l, Spec.GenesisDone)
    ensures ids != [] && l.members == map[] ==>
              var e := Spec.Enrol(l, keys, |keys|);
              Spec.Genesis(l, ids)
              == Spec.Outcome(e.(totalIssued := Min(Spec.GENESIS_ALLOCATION * |e.members|, U128_MAX)), Ok(()))
  {
    hide SortedKeys, Elems, Spec.Enrol;
  }

  lemma EnsuresMember(l: Spec.Ledger, id: AweId)
    ensures var e := Spec.EnsureMember(l, id); e == l.(members := e.members, balances := e.balances, nonces := e.nonces)
  {
  }

  class OnecoinLedger {
    var balances: map<AweId, u128>
    var nonces: map<AweId, u64>
    var members: map<AweId, AweId>
    var totalIssued: u128
    var collectedFees: u128
    var received: map<Digest, u128>
    var joinRemainder: u128
    var joinActive: bool
    var price: Price.Policy
    var rewardPolicy: Spec.RewardPolicy
    var verifiers: map<AweId, Key>
    var rewarded: map<Digest, u128>

    function View(): Spec.Ledger
      reads this
    {
      Spec.Ledger(balances, nonces, members, totalIssued, collectedFees, received, joinRemainder, joinActive,
                  price, rewardPolicy, verifiers, rewarded)
    }

    constructor ()
      ensures View() == Spec.DEFAULT
    {
      balances, nonces, members := map[], map[], map[];
      totalIssued, collectedFees, received, joinRemainder := 0, 0, map[], 0;
      joinActive, price, rewardPolicy := true, Price.INITIAL, Spec.RewardPolicy(1, 100 * Spec.ATOMS_PER_COIN);
      verifiers, rewarded := map[], map[];
    }

    constructor Clone(from: OnecoinLedger)
      ensures View() == from.View()
    {
      balances, nonces, members := from.balances, from.nonces, from.members;
      totalIssued, collectedFees, received := from.totalIssued, from.collectedFees, from.received;
      joinRemainder, joinActive := from.joinRemainder, from.joinActive;
      price, rewardPolicy := from.price, from.rewardPolicy;
      verifiers, rewarded := from.verifiers, from.rewarded;
    }

    method InitializeGenesis(ids: seq<AweId>) returns (r: Result<(), LedgerError>)
      modifies this
      ensures Spec.Outcome(View(), r) == Spec.Genesis(old(View()), ids)
    {
      GenesisIs(View(), ids, SortedKeys(Elems(ids)));
      hide Spec.Genesis, Spec.Enrol, SortedKeys, Elems;
      if ids == [] {
        return Err(Spec.EmptyGenesis);
      }
      if members != map[] {
        return Err(Spec.GenesisDone);
      }
      var unique := Unique(ids);
      StoreMembers(unique);
      totalIssued := Min(Spec.GENESIS_ALLOCATION * |members|, U128_MAX);
      r := Ok(());
    }

    static method Unique(ids: seq<AweId>) returns (unique: map<AweId, AweId>)
      ensures unique.Keys == Elems(ids) && forall id :: id in unique ==> unique[id] == id
    {
      unique := map[];
      for i := 0 to |ids|
        invariant unique.Keys == Elems(ids[..i]) && forall id :: id in unique ==> unique[id] == id
      {
        unique := unique[ids[i] := ids[i]];
        assert ids[..i + 1] == ids[..i] + [ids[i]];
      }
      assert ids[..|ids|] == ids;
    }

    method StoreMembers(unique: map<AweId, AweId>)
      requires forall id :: id in unique ==> unique[id] == id
      modifies this
      ensures View() == Spec.Enrol(old(View()), SortedKeys(unique.Keys), |SortedKeys(unique.Keys)|)
    {
      var keys := SortedKeys(unique.Keys);
      SortedKeysContents(unique.Keys);
      hide SortedKeys;
      for i := 0 to |keys|
        invariant View() == Spec.Enrol(old(View()), keys, i)
      {
        var id := keys[i];
        assert id in Elems(keys);
        hide Elems, Spec.Enrol;
        Spec.EnrolNext(old(View()), keys, i);
        members := members[id := unique[id]];
        balances := balances[id := Spec.GENESIS_ALLOCATION];
        nonces := nonces[id := 0];
      }
    }

    method InitializeGenesisWithVerifiers(c: Crypto, ids: seq<AweId>, keys: seq<Key>)
      returns (r: Result<(), LedgerError>)
      modifies this
      ensures Spec.Outcome(View(), r) == Spec.GenesisWithVerifiers(c, old(View()), ids, keys)
    {
      r := InitializeGenesis(ids);
      if r.Err? {
        return;
      }
      ghost var g := View();
      hide Spec.Genesis;
      for i := 0 to |keys|
        invariant r.Ok? && Spec.AddVerifiers(c, View(), keys[i..]) == Spec.AddVerifiers(c, g, keys)
      {
        assert keys[i..][0] == keys[i] && keys[i..][1..] == keys[i + 1..];
        var id := c.aweId(keys[i]);
        if id !in members {
          return Err(Spec.VerifierNotMember);
        }
        verifiers := verifiers[id := keys[i]];
      }
    }

    method AuthorizeRewardVerifier(c: Crypto, authorizer: Key, newKey: Key) returns (r: Result<(), LedgerError>)
      modifies this
      ensures Spec.Outcome(View(), r) == Spec.AuthorizeVerifier(c, old(View()), authorizer, newKey)
    {
      if c.aweId(authorizer) !in verifiers {
        return Err(Spec.NotAuthorizer);
      }
      if c.aweId(newKey) !in members {
        return Err(Spec.VerifierNotMember);
      }
      verifiers := verifiers[c.aweId(newKey) := newKey];
      r := Ok(());
    }

    method EnsureMember(id: AweId)
      modifies this
      ensures View() == Spec.EnsureMember(old(View()), id)
    {
      if id !in members {
        members := members[id := id];
      }
      if id !in balances {
        balances := balances[id := 0];
      }
      if id !in nonces {
        nonces := nonces[id := 0];
      }
    }

    method RegisterMember(id: AweId) returns (r: Result<Spec.JoinDistribution, LedgerError>)
      modifies this
      ensures Spec.Outcome(View(), r) == Spec.Register(old(View()), id)
    {
      hide Spec.CalculateJoin, Spec.EnsureMember, Spec.Raise, SatAdd128;
      EnsuresMember(View(), id);
      if id in members {
        return Err(Spec.MemberExists);
      }
      EnsureMember(id);
      var d := Spec.CalculateJoin(id, Min(|members|, U64_MAX));
      if joinActive && d.active {
        PayMembers(d.perMember);
        totalIssued := SatAdd128(totalIssued, d.distributed);
        joinRemainder := SatAdd128(joinRemainder, d.remainder);
      } else {
        joinActive := false;
      }
      r := Ok(d);
    }

    /** Every member's balance grows by the share; a member without one starts at zero. */
    method PayMembers(share: u128)
      modifies this`balances
      ensures balances == Spec.Raise(old(balances), members.Keys, share)
    {
      RaiseNone(balances, share);
      hide Spec.Raise, SatAdd128;
      var left, done := members.Keys, {};
      while left != {}
        modifies this`balances
        invariant left + done == members.Keys && left * done == {}
        invariant balances == Spec.Raise(old(balances), done, share)
      {
        var id :| id in left;
        RaiseOne(old(balances), done, id, share);
        balances := balances[id := SatAdd128(if id in balances then balances[id] else 0, share)];
        left, done := left - {id}, done + {id};
      }
    }

    method MintVerifiedContributionReward(c: Crypto, receipt: SignedReceipt) returns (r: Result<u128, LedgerError>)
      modifies this
      ensures Spec.Outcome(View(), r) == Spec.Mint(c, old(View()), receipt)
    {
      var key := c.hash(ReceiptBytes(receipt));
      if !ReceiptVerifies(c, receipt) {
        return Err(Spec.BadReceiptSignature);
      }
      var verifier := c.aweId(receipt.verifierKey);
      if !(verifier in verifiers && verifiers[verifier] == receipt.verifierKey) {
        return Err(Spec.SignerNotVerifier);
      }
      if key in rewarded {
        return Err(Spec.AlreadyRewarded);
      }
      var node := receipt.receipt.node;
      if node !in members {
        return Err(Spec.RecipientNotMember);
      }
      var reward := Spec.RewardFor(rewardPolicy, receipt.receipt);
      hide Spec.RewardFor;
      if reward.Err? {
        return Err(reward.error);
      }
      if node !in balances {
        balances := balances[node := 0];
      }
      balances := balances[node := SatAdd128(balances[node], reward.value)];
      totalIssued := SatAdd128(totalIssued, reward.value);
      rewarded := rewarded[key := reward.value];
      r := Ok(reward.value);
    }

    method ApplyTransferWithFee(c: Crypto, tx: Transaction, key: Key, bps: nat)
      returns (r: Result<(Digest, u128), LedgerError>)
      modifies this
      ensures Spec.Outcome(View(), r) == Spec.TransferWithFee(c, old(View()), tx, key, bps)
    {
      hide TxVerifies, TxId, SatAdd128;
      if bps > 500 {
        return Err(Spec.FeeTooHigh);
      }
      var fee := SatMul128(tx.amount, bps) / 10_000;
      var sender := c.aweId(key);
      if sender !in members || tx.recipient !in members {
        return Err(Spec.NotMembers);
      }
      var expected := if sender in nonces then nonces[sender] else 0;
      if tx.nonce != expected {
        return Err(Spec.BadNonce);
      }
      if tx.sender != key || !TxVerifies(c, tx, key) {
        return Err(Spec.BadSignature);
      }
      var balance := if sender in balances then balances[sender] else 0;
      var total := SatAdd128(tx.amount, fee);
      if balance < total {
        return Err(Spec.InsufficientBalance);
      }
      balances := balances[sender := balance - total];
      var recipient := if tx.recipient in balances then balances[tx.recipient] else 0;
      balances := balances[tx.recipient := SatAdd128(recipient, tx.amount)];
      collectedFees := SatAdd128(collectedFees, fee);
      nonces := nonces[sender := WrapInc64(expected)];
      r := Ok((TxId(c, tx), fee));
    }

    method ReceiveTransfer(c: Crypto, tx: Transaction, key: Key, recipient: AweId) returns (r: Result<bool, LedgerError>)
      modifies this
      ensures Spec.Outcome(View(), r) == Spec.Receive(c, old(View()), tx, key, recipient)
    {
      if tx.recipient != recipient {
        return Err(Spec.WrongWallet);
      }
      if tx.sender != key || !TxVerifies(c, tx, key) {
        return Err(Spec.BadSignature);
      }
      EnsureMember(c.aweId(key));
      EnsureMember(recipient);
      hide Spec.EnsureMember;
      var txId := TxId(c, tx);
      if txId in received {
        return Ok(false);
      }
      var balance := if recipient in balances then balances[recipient] else 0;
      balances := balances[recipient := SatAdd128(balance, tx.amount)];
      received := received[txId := tx.amount];
      r := Ok(true);
    }

    method ApplyTransfer(c: Crypto, tx: Transaction, key: Key) returns (r: Result<Digest, LedgerError>)
      modifies this
      ensures Spec.Outcome(View(), r) == Spec.Transfer(c, old(View()), tx, key)
    {
      hide TxVerifies, TxId, SatAdd128;
      var sender := c.aweId(key);
      if sender !in members || tx.recipient !in members {
        return Err(Spec.NotMembers);
      }
      var expected := if sender in nonces then nonces[sender] else 0;
      if tx.nonce != expected {
        return Err(Spec.BadNonce);
      }
      if tx.sender != key {
        return Err(Spec.SenderMismatch);
      }
      if !TxVerifies(c, tx, key) {
        return Err(Spec.BadSignature);
      }
      var balance := if sender in balances then balances[sender] else 0;
      if balance < tx.amount {
        return Err(Spec.InsufficientBalance);
      }
      balances := balances[sender := balance - tx.amount];
      var recipient := if tx.recipient in balances then balances[tx.recipient] else 0;
      balances := balances[tx.recipient := SatAdd128(recipient, tx.amount)];
      nonces := nonces[sender := WrapInc64(expected)];
      r := Ok(TxId(c, tx));
    }
  }
}
