/** What each ledger operation does to each account, and exactly when it goes through. */
module Effects {
  import opened Prelude
  import opened Onecoin
  import opened Ledger

  /** `key` signed this transaction, and it is one the protocol carries. */
  ghost predicate Signed(c: Crypto, tx: Transaction, key: Key) {
    && tx.sender == key
    && tx.version == 1 && tx.amount != 0 && (tx.memo.Some? ==> |tx.memo.value| <= 256)
    && c.verifies(key, TxBody(tx.(signature := 0)), tx.signature)
  }

  function Capped(x: nat): u128 {
    if x <= U128_MAX then x else U128_MAX
  }

  // ---- transfers ----

  /** `paid` atoms left the sender and `amount` reached the recipient; nobody else's balance or nonce moved. */
  ghost predicate Moved(l: Ledger, l': Ledger, sender: AweId, paid: nat, recipient: AweId, amount: nat) {
    && paid <= Balance(l, sender)
    && (forall k :: Balance(l', k)
                 == var left := Balance(l, k) - (if k == sender then paid else 0);
                    if k == recipient then Capped(left + amount) else left)
    && (forall k :: Nonce(l', k)
                 == if k == sender then (if Nonce(l, k) == U64_MAX then 0 else Nonce(l, k) + 1) else Nonce(l, k))
    && l' == l.(balances := l'.balances, nonces := l'.nonces, collectedFees := l'.collectedFees)
  }

  lemma MoveMoves(l: Ledger, tx: Transaction, sender: AweId, paid: u128)
    requires paid <= Balance(l, sender)
    ensures Moved(l, Move(l, tx, sender, paid), sender, paid, tx.recipient, tx.amount)
  {
  }

  /** A transfer goes through if and only if its sender signed it, both ends are members, the nonce is next and the
      balance covers it. It then moves its amount and nothing else; otherwise nothing changes. */
  lemma TransferExactly(c: Crypto, l: Ledger, tx: Transaction, key: Key)
    ensures var r, sender := Transfer(c, l, tx, key), c.aweId(key);
            && (r.result.Ok? <==> Signed(c, tx, key) && sender in l.members && tx.recipient in l.members
                                  && tx.nonce == Nonce(l, sender) && Balance(l, sender) >= tx.amount)
            && (r.result.Err? ==> r.ledger == l)
            && (r.result.Ok? ==>
                  && Moved(l, r.ledger, sender, tx.amount, tx.recipient, tx.amount)
                  && r.ledger.collectedFees == l.collectedFees && r.result.value == c.hash(TxBytes(tx)))
  {
    if Transfer(c, l, tx, key).result.Ok? {
      MoveMoves(l, tx, c.aweId(key), tx.amount);
    }
    hide Moved, Move;
  }

  /** Basis points of the amount, rounded down; the product saturates. */
  lemma FeeExactly(amount: u128, bps: nat)
    requires bps <= 500
    ensures var fee := FeeFor(amount, bps);
            fee * 10_000 <= Capped(amount * bps) < fee * 10_000 + 10_000
  {
  }

  /** The same for a transfer with fee: up to five percent on top, paid by the sender and collected. */
  lemma FeeTransferExactly(c: Crypto, l: Ledger, tx: Transaction, key: Key, bps: nat)
    ensures var r, sender := TransferWithFee(c, l, tx, key, bps), c.aweId(key);
            var fee := Capped(tx.amount * bps) / 10_000;
            && (r.result.Ok? <==> bps <= 500 && Signed(c, tx, key) && sender in l.members && tx.recipient in l.members
                                  && tx.nonce == Nonce(l, sender) && Balance(l, sender) >= Capped(tx.amount + fee))
            && (r.result.Err? ==> r.ledger == l)
            && (r.result.Ok? ==>
                  && Moved(l, r.ledger, sender, Capped(tx.amount + fee), tx.recipient, tx.amount)
                  && r.ledger.collectedFees == Capped(l.collectedFees + fee)
                  && r.result.value == (c.hash(TxBytes(tx)), fee))
  {
    if bps <= 500 {
      var fee := FeeFor(tx.amount, bps);
      assert fee == Capped(tx.amount * bps) / 10_000;
      hide FeeFor;
      ChargingExactly(c, l, tx, key, fee);
      hide TransferCharging, Moved, Signed;
    }
  }

  lemma ChargingExactly(c: Crypto, l: Ledger, tx: Transaction, key: Key, fee: u128)
    ensures var r, sender := TransferCharging(c, l, tx, key, fee), c.aweId(key);
            && (r.result.Ok? <==> Signed(c, tx, key) && sender in l.members && tx.recipient in l.members
                                  && tx.nonce == Nonce(l, sender) && Balance(l, sender) >= Capped(tx.amount + fee))
            && (r.result.Err? ==> r.ledger == l)
            && (r.result.Ok? ==>
                  && Moved(l, r.ledger, sender, Capped(tx.amount + fee), tx.recipient, tx.amount)
                  && r.ledger.collectedFees == Capped(l.collectedFees + fee)
                  && r.result.value == (c.hash(TxBytes(tx)), fee))
  {
    var total := SatAdd128(tx.amount, fee);
    assert total == Capped(tx.amount + fee);
    if TransferCharging(c, l, tx, key, fee).result.Ok? {
      MoveMoves(l, tx, c.aweId(key), total);
    }
    hide Move;
  }

  /** A replicated transfer is accepted if and only if it is for this wallet and signed; the first time it credits this
      wallet with its amount, and never anyone else. */
  lemma ReceiveExactly(c: Crypto, l: Ledger, tx: Transaction, key: Key, recipient: AweId)
    ensures var Outcome(l', result) := Receive(c, l, tx, key, recipient);
            var id := c.hash(TxBytes(tx));
            && (result.Ok? <==> tx.recipient == recipient && Signed(c, tx, key))
            && (result.Err? ==> l' == l)
            && (result.Ok? ==>
                  && result.value == (id !in l.received)
                  && (forall k :: Balance(l', k) == if result.value && k == recipient
                                                    then Capped(Balance(l, k) + tx.amount) else Balance(l, k))
                  && (forall k :: Nonce(l', k) == Nonce(l, k))
                  && l'.members.Keys == l.members.Keys + {c.aweId(key), recipient}
                  && l'.received == (if result.value then l.received[id := tx.amount] else l.received)
                  && l' == l.(balances := l'.balances, nonces := l'.nonces, members := l'.members,
                              received := l'.received))
  {
    var m1 := EnsureMember(l, c.aweId(key));
    var m := EnsureMember(m1, recipient);
    EnsureExactly(l, c.aweId(key));
    EnsureExactly(m1, recipient);
    hide EnsureMember;
  }

  /** A member is added if missing; no balance and no nonce changes. */
  lemma EnsureExactly(l: Ledger, id: AweId)
    ensures var m := EnsureMember(l, id);
            && m.members.Keys == l.members.Keys + {id}
            && (forall k :: Balance(m, k) == Balance(l, k)) && (forall k :: Nonce(m, k) == Nonce(l, k))
            && m == l.(balances := m.balances, nonces := m.nonces, members := m.members)
  {
  }

  // ---- issue ----

  /** Genesis happens once, for at least one founder; each founder then has ten coins, and nothing else is touched. */
  lemma GenesisExactly(l: Ledger, ids: seq<AweId>)
    ensures var Outcome(l', result) := Genesis(l, ids);
            && (result.Ok? <==> ids != [] && l.members == map[])
            && (result.Err? ==> l' == l)
            && (result.Ok? ==> Founded(l, l', Elems(ids)))
  {
    if Genesis(l, ids).result.Ok? {
      GenesisContents(l, ids);
    }
    hide Founded, Enrol;
  }

  /** An equal share of one coin among `n`, in whole atoms. */
  function Share(n: nat): nat
    requires n > 0
  {
    ATOMS_PER_COIN / n
  }

  function Dealt(n: nat): nat
    requires n > 0
    ensures Dealt(n) <= ATOMS_PER_COIN < Dealt(n) + n
  {
    DealEvenly(ATOMS_PER_COIN, n);
    Share(n) * n
  }

  /** `id` became a member; if the join pays, every member got an equal share of a new coin and the rest was set aside. */
  ghost predicate Welcomed(l: Ledger, l': Ledger, id: AweId, pays: bool) {
    var n := |l.members| + 1;
    && l'.members == l.members[id := id] && l'.joinActive == pays
    && (forall k :: Balance(l', k) == if pays && k in l'.members then Capped(Balance(l, k) + Share(n)) else Balance(l, k))
    && (forall k :: Nonce(l', k) == Nonce(l, k))
    && l'.totalIssued == (if pays then Capped(l.totalIssued + Dealt(n)) else l.totalIssued)
    && l'.joinRemainder == (if pays then Capped(l.joinRemainder + ATOMS_PER_COIN - Dealt(n)) else l.joinRemainder)
  }

  /** Only a newcomer can join. The join pays while a share is at least one atom and every join before paid. */
  lemma RegisterExactly(l: Ledger, id: AweId)
    ensures var Outcome(l', result) := Register(l, id);
            && (result.Ok? <==> id !in l.members)
            && (result.Err? ==> l' == l)
            && (result.Ok? ==> Welcomed(l, l', id, l.joinActive && |l.members| + 1 <= ATOMS_PER_COIN))
  {
    hide Welcomed, EnsureMember, CalculateJoin, PayJoin;
    if id !in l.members {
      var m := EnsureMember(l, id);
      var d := CalculateJoin(id, Min(|m.members|, U64_MAX));
      EnsureAdds(l, id);
      ShareExactly(id, |m.members|);
      WelcomedUnpaid(l, id);
      if m.joinActive && d.active {
        WelcomedPaid(l, id, d);
      }
    }
  }

  lemma WelcomedUnpaid(l: Ledger, id: AweId)
    requires id !in l.members
    ensures EnsureMember(l, id).joinActive == l.joinActive
    ensures Welcomed(l, EnsureMember(l, id).(joinActive := false), id, false)
  {
    EnsureExactly(l, id);
    EnsureAdds(l, id);
    hide Share, Dealt, Capped;
  }

  lemma WelcomedPaid(l: Ledger, id: AweId, d: JoinDistribution)
    requires id !in l.members && l.joinActive
    requires var n := |l.members| + 1;
             d.perMember == Share(n) && d.distributed == Dealt(n) && d.remainder == ATOMS_PER_COIN - Dealt(n)
    ensures Welcomed(l, PayJoin(EnsureMember(l, id), d), id, true)
  {
    hide Share, Dealt, Capped, EnsureMember, PayJoin, Balance, Nonce;
    var m := EnsureMember(l, id);
    EnsureExactly(l, id);
    EnsureAdds(l, id);
    hide ATOMS_PER_COIN;
    var p := PayJoin(m, d);
    PayExactly(m, d);
    assert p.members == l.members[id := id];
    assert forall k :: k in p.members <==> k in m.members;
  }

  lemma EnsureAdds(l: Ledger, id: AweId)
    requires id !in l.members
    ensures EnsureMember(l, id).members == l.members[id := id]
    ensures |EnsureMember(l, id).members| == |l.members| + 1
  {
    FreshKeySize(l.members, id, id);
  }

  lemma ShareExactly(id: AweId, n: nat)
    requires n >= 1
    ensures var d := CalculateJoin(id, Min(n, U64_MAX));
            && (d.active <==> n <= ATOMS_PER_COIN)
            && (d.active ==> d.perMember == Share(n) && d.distributed == Dealt(n)
                             && d.remainder == ATOMS_PER_COIN - Dealt(n))
  {
    JoinDealsOneCoin(id, Min(n, U64_MAX));
  }

  lemma PayExactly(m: Ledger, d: JoinDistribution)
    ensures var p := PayJoin(m, d);
            && (forall k :: Balance(p, k) == if k in m.members then Capped(Balance(m, k) + d.perMember) else Balance(m, k))
            && (forall k :: Nonce(p, k) == Nonce(m, k))
            && p == m.(balances := p.balances, totalIssued := Capped(m.totalIssued + d.distributed),
                       joinRemainder := Capped(m.joinRemainder + d.remainder))
  {
  }

  /** Everything a node contributed, weighted. */
  function Contribution(r: Receipt): nat {
    r.storageByteHours + r.relayBytes + r.bandwidthBytes + 4 * r.computeUnits + 1024 * r.uptimeMinutes
  }

  /** The reward is the contribution at the policy's rate up to its cap, whatever the width of the sums in between. */
  lemma RewardExactly(p: RewardPolicy, r: Receipt)
    ensures RewardFor(p, r).Ok? <==> r.periodStart < r.periodEnd && Contribution(r) > 0
    ensures RewardFor(p, r).Ok? ==> RewardFor(p, r).value == Min(Contribution(r) * p.atomsPerScore, p.maxReward)
  {
    assert Score(r) == Capped(Contribution(r));
    if Contribution(r) > U128_MAX && p.atomsPerScore > 0 {
      MulMonotone(1, p.atomsPerScore, U128_MAX);
      MulMonotone(1, p.atomsPerScore, Contribution(r));
    }
    hide Score, Contribution;
  }

  /** A receipt is paid if and only if a registered verifier signed it, it was not paid before, it names a member and it
      earns a reward; the reward goes to that member alone. */
  lemma MintExactly(c: Crypto, l: Ledger, r: SignedReceipt)
    ensures var Outcome(l', result) := Mint(c, l, r);
            var id, verifier, node := c.hash(ReceiptBytes(r)), c.aweId(r.verifierKey), r.receipt.node;
            && (result.Ok? <==>
                  && c.verifies(r.verifierKey, ReceiptBody(r.(signature := 0)), r.signature)
                  && verifier in l.verifiers && l.verifiers[verifier] == r.verifierKey
                  && id !in l.rewarded && node in l.members
                  && r.receipt.periodStart < r.receipt.periodEnd && Contribution(r.receipt) > 0)
            && (result.Err? ==> l' == l)
            && (result.Ok? ==>
                  && result.value == Min(Contribution(r.receipt) * l.rewardPolicy.atomsPerScore, l.rewardPolicy.maxReward)
                  && (forall k :: Balance(l', k) == if k == node then Capped(Balance(l, k) + result.value)
                                                    else Balance(l, k))
                  && l' == l.(balances := l'.balances, totalIssued := Capped(l.totalIssued + result.value),
                              rewarded := l.rewarded[id := result.value]))
  {
    RewardExactly(l.rewardPolicy, r.receipt);
    hide RewardFor, Contribution;
  }

  // ---- verifiers ----

  /** Only a verifier can authorize, only a member can be authorized, and only that entry changes. */
  lemma AuthorizeExactly(c: Crypto, l: Ledger, authorizer: Key, newKey: Key)
    ensures var Outcome(l', result) := AuthorizeVerifier(c, l, authorizer, newKey);
            && (result.Ok? <==> c.aweId(authorizer) in l.verifiers && c.aweId(newKey) in l.members)
            && l' == if result.Ok? then l.(verifiers := l.verifiers[c.aweId(newKey) := newKey]) else l
  {
  }

  /** Adding verifiers goes through exactly when all of them are members; each is then registered, the last key of an id
      winning, and no other entry changes. */
  lemma {:induction false} AddVerifiersExactly(c: Crypto, l: Ledger, keys: seq<Key>)
    ensures var Outcome(l', result) := AddVerifiers(c, l, keys);
            && (result.Ok? <==> forall k :: k in keys ==> c.aweId(k) in l.members)
            && l' == l.(verifiers := l'.verifiers)
            && l.verifiers.Keys <= l'.verifiers.Keys
            && (forall id :: id in l'.verifiers ==>
                  || (id in l.verifiers && l'.verifiers[id] == l.verifiers[id])
                  || (l'.verifiers[id] in keys && c.aweId(l'.verifiers[id]) == id && id in l.members))
            && (result.Ok? ==> forall k :: k in keys ==>
                  c.aweId(k) in l'.verifiers && l'.verifiers[c.aweId(k)] in keys)
    decreases keys
  {
    if keys != [] {
      var first, rest := keys[0], keys[1..];
      assert forall k :: k in keys <==> k == first || k in rest;
      if c.aweId(first) in l.members {
        AddVerifiersExactly(c, l.(verifiers := l.verifiers[c.aweId(first) := first]), rest);
      }
    }
  }

  /** Genesis with verifiers: refused as genesis is; with a verifier who is no founder the members stay and the error is
      reported; else every key is registered. */
  lemma GenesisWithVerifiersExactly(c: Crypto, l: Ledger, ids: seq<AweId>, keys: seq<Key>)
    ensures var Outcome(l', result) := GenesisWithVerifiers(c, l, ids, keys);
            && (result.Ok? <==> ids != [] && l.members == map[] && forall k :: k in keys ==> c.aweId(k) in Elems(ids))
            && (ids == [] || l.members != map[] ==> l' == l)
            && (ids != [] && l.members == map[] ==>
                  && Founded(l, l'.(verifiers := l.verifiers), Elems(ids))
                  && (forall id :: id in l'.verifiers ==>
                        || (id in l.verifiers && l'.verifiers[id] == l.verifiers[id])
                        || (l'.verifiers[id] in keys && c.aweId(l'.verifiers[id]) == id && id in Elems(ids))))
            && (result.Ok? ==> forall k :: k in keys ==> c.aweId(k) in l'.verifiers && l'.verifiers[c.aweId(k)] in keys)
  {
    GenesisExactly(l, ids);
    var g := Genesis(l, ids);
    hide Genesis;
    if g.result.Ok? {
      AddVerifiersExactly(c, g.ledger, keys);
      FoundedMembers(l, g.ledger, Elems(ids));
      hide Founded, AddVerifiers;
      assert AddVerifiers(c, g.ledger, keys).ledger.(verifiers := l.verifiers) == g.ledger;
    }
  }

  lemma FoundedMembers(l: Ledger, l': Ledger, ids: set<AweId>)
    requires Founded(l, l', ids) && l.members == map[]
    ensures l'.members.Keys == ids && l'.verifiers == l.verifiers
  {
  }
}
