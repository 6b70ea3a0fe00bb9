/** Where every atom of the ledger comes from, over all runs of all ledger operations. */
module Conservation {
  import opened Prelude
  import opened MapSum
  import opened Onecoin
  import opened Ledger

  datatype Op =
    | DoGenesis(ids: seq<AweId>)
    | DoGenesisWithVerifiers(ids: seq<AweId>, keys: seq<Key>)
    | DoAuthorize(authorizer: Key, newKey: Key)
    | DoEnsureMember(id: AweId)
    | DoRegister(id: AweId)
    | DoMint(receipt: SignedReceipt)
    | DoTransfer(tx: Transaction, key: Key)
    | DoTransferWithFee(tx: Transaction, key: Key, bps: nat)
    | DoReceive(tx: Transaction, key: Key, recipient: AweId)

  /** What a run did besides changing the ledger: members created at genesis, joins that paid a dividend. */
  datatype History = History(ledger: Ledger, founders: nat, payingJoins: nat)

  function Step(c: Crypto, h: History, op: Op): History {
    var l := h.ledger;
    match op
    case DoGenesis(ids) =>
      h.(ledger := Genesis(l, ids).ledger, founders := h.founders + NewFounders(l, ids))
    case DoGenesisWithVerifiers(ids, keys) =>
      h.(ledger := GenesisWithVerifiers(c, l, ids, keys).ledger, founders := h.founders + NewFounders(l, ids))
    case DoRegister(id) =>
      h.(ledger := Register(l, id).ledger, payingJoins := h.payingJoins + NewJoins(l, id))
    case DoAuthorize(a, k) => h.(ledger := AuthorizeVerifier(c, l, a, k).ledger)
    case DoEnsureMember(id) => h.(ledger := EnsureMember(l, id))
    case DoMint(r) => h.(ledger := Mint(c, l, r).ledger)
    case DoTransfer(tx, key) => h.(ledger := Transfer(c, l, tx, key).ledger)
    case DoTransferWithFee(tx, key, bps) => h.(ledger := TransferWithFee(c, l, tx, key, bps).ledger)
    case DoReceive(tx, key, recipient) => h.(ledger := Receive(c, l, tx, key, recipient).ledger)
  }

  function NewFounders(l: Ledger, ids: seq<AweId>): nat {
    if Genesis(l, ids).result.Ok? then |Elems(ids)| else 0
  }

  function NewJoins(l: Ledger, id: AweId): nat {
    if PayingJoin(l, id) then 1 else 0
  }

  function Run(c: Crypto, ops: seq<Op>): History {
    if ops == [] then History(DEFAULT, 0, 0) else Step(c, Run(c, ops[..|ops| - 1]), ops[|ops| - 1])
  }

  /** Every account has a balance, a nonce and a member entry under its own name. */
  ghost predicate WellKept(l: Ledger) {
    && l.balances.Keys == l.members.Keys == l.nonces.Keys
    && (forall id :: id in l.members ==> l.members[id] == id)
    && (l.members == map[] ==> l == DEFAULT)
  }

  ghost function Minted(h: History): int {
    GENESIS_ALLOCATION * h.founders + JOIN_DISTRIBUTION * h.payingJoins + Sum(h.ledger.rewarded)
  }

  /** Everything that ever entered the ledger. */
  ghost function Volume(h: History): int {
    Minted(h) + Sum(h.ledger.received)
  }

  ghost predicate Conserved(h: History) {
    var l := h.ledger;
    && Sum(l.balances) + l.collectedFees == l.totalIssued + Sum(l.received)
    && l.totalIssued + l.joinRemainder == Minted(h)
  }

  // ---- one operation ----

  /** Atoms held or collected, beyond those issued or received. */
  ghost function Surplus(l: Ledger): int {
    Sum(l.balances) + l.collectedFees - l.totalIssued - Sum(l.received)
  }

  /** `x` more atoms fit into 128 bits. */
  ghost predicate Room(l: Ledger, x: int) {
    && 0 <= x
    && 0 <= Sum(l.balances)
    && Sum(l.balances) + l.collectedFees + x <= U128_MAX
    && l.totalIssued + l.joinRemainder + x <= U128_MAX
  }

  /** `l'` keeps the books of `l` after `minted` more atoms were created. */
  ghost predicate Kept(l: Ledger, l': Ledger, minted: int) {
    && WellKept(l')
    && Surplus(l') == Surplus(l)
    && l'.totalIssued + l'.joinRemainder == l.totalIssued + l.joinRemainder + minted
    && l'.rewarded == l.rewarded && l'.received == l.received
  }

  lemma GenesisEffect(l: Ledger, ids: seq<AweId>)
    requires WellKept(l) && Genesis(l, ids).result.Ok?
    requires GENESIS_ALLOCATION * |Elems(ids)| <= U128_MAX
    ensures Kept(l, Genesis(l, ids).ledger, GENESIS_ALLOCATION * |Elems(ids)|)
  {
    GenesisContents(l, ids);
    assert ids != [] && l.members == map[];
    assert ids[0] in Elems(ids);
    hide SumOver, Genesis, Elems;
    var l' := Genesis(l, ids).ledger;
    SumEmpty(l.balances);
    assert l == DEFAULT;
    FoundersSum(l, l', Elems(ids));
  }

  lemma FoundersSum(l: Ledger, l': Ledger, founders: set<AweId>)
    requires Founded(l, l', founders) && l.balances == map[]
    ensures Sum(l'.balances) == GENESIS_ALLOCATION * |founders|
  {
    hide SumOver;
    assert l'.balances.Keys == founders;
    assert |l'.balances| == |l'.balances.Keys|;
    SumConstant(l'.balances, GENESIS_ALLOCATION);
  }

  lemma {:induction false} VerifiersOnly(c: Crypto, l: Ledger, keys: seq<Key>)
    ensures AddVerifiers(c, l, keys).ledger == l.(verifiers := AddVerifiers(c, l, keys).ledger.verifiers)
    decreases keys
  {
    if keys != [] && c.aweId(keys[0]) in l.members {
      VerifiersOnly(c, l.(verifiers := l.verifiers[c.aweId(keys[0]) := keys[0]]), keys[1..]);
    }
  }

  lemma EnsureEffect(l: Ledger, id: AweId)
    requires WellKept(l)
    ensures WellKept(EnsureMember(l, id))
    ensures Sum(EnsureMember(l, id).balances) == Sum(l.balances)
    ensures EnsureMember(l, id).members.Keys == l.members.Keys + {id}
    ensures var e := EnsureMember(l, id); e == l.(members := e.members, balances := e.balances, nonces := e.nonces)
  {
    SumUpdate(l.balances, id, 0);
    assert id in EnsureMember(l, id).members;
  }

  lemma RaiseAll(balances: map<AweId, u128>, ids: set<AweId>, share: u128)
    requires balances.Keys == ids && Sum(balances) + share <= U128_MAX
    ensures Raise(balances, ids, share).Keys == ids
    ensures Sum(Raise(balances, ids, share)) == Sum(balances) + |ids| * share
  {
    var raised := Raise(balances, ids, share);
    forall k | k in ids
      ensures raised[k] == balances[k] + share
    {
      ValueBound(balances, k);
    }
    assert raised.Keys == ids;
    SumRaise(ids, balances, raised, share);
  }

  lemma PayJoinEffect(l: Ledger, d: JoinDistribution)
    requires WellKept(l) && l.members != map[] && Room(l, JOIN_DISTRIBUTION)
    requires d.distributed == d.perMember * |l.members| && d.distributed + d.remainder == JOIN_DISTRIBUTION
    requires d.perMember <= d.distributed
    ensures Kept(l, PayJoin(l, d), JOIN_DISTRIBUTION)
  {
    hide SumOver, Raise;
    assert |l.members| == |l.members.Keys|;
    RaiseAll(l.balances, l.members.Keys, d.perMember);
    assert Sum(PayJoin(l, d).balances) == Sum(l.balances) + d.distributed;
  }

  /** A paying join enters the member, then pays a distribution that deals out exactly one coin. */
  lemma RegisterPays(l: Ledger, id: AweId) returns (d: JoinDistribution)
    requires WellKept(l) && PayingJoin(l, id)
    ensures Register(l, id).ledger == PayJoin(EnsureMember(l, id), d)
    ensures d.distributed == d.perMember * |EnsureMember(l, id).members|
    ensures d.distributed + d.remainder == JOIN_DISTRIBUTION && d.perMember <= d.distributed
  {
    d := Register(l, id).result.value;
    var m := EnsureMember(l, id);
    assert m.members.Keys == l.members.Keys + {id};
    assert |m.members| == |m.members.Keys| == |l.members.Keys| + 1 == |l.members| + 1;
    JoinDealsOneCoin(id, Min(|m.members|, U64_MAX));
  }

  lemma RegisterWithoutPay(l: Ledger, id: AweId)
    requires WellKept(l) && id !in l.members && !PayingJoin(l, id)
    ensures Register(l, id).ledger == EnsureMember(l, id).(joinActive := false)
  {
    var m := EnsureMember(l, id);
    assert m.members.Keys == l.members.Keys + {id};
    assert |m.members| == |m.members.Keys| == |l.members.Keys| + 1 == |l.members| + 1;
  }

  lemma EnsureKept(l: Ledger, id: AweId, l': Ledger, minted: int)
    requires WellKept(l) && Kept(EnsureMember(l, id), l', minted)
    ensures Kept(l, l', minted)
  {
    EnsureEffect(l, id);
  }

  lemma UnpaidJoinKept(l: Ledger, id: AweId)
    requires WellKept(l)
    ensures Kept(l, l, 0)
    ensures Kept(l, EnsureMember(l, id).(joinActive := false), 0)
  {
    hide SumOver;
    EnsureEffect(l, id);
  }

  lemma RegisterEffect(l: Ledger, id: AweId)
    requires WellKept(l) && Room(l, JOIN_DISTRIBUTION * NewJoins(l, id))
    ensures Kept(l, Register(l, id).ledger, JOIN_DISTRIBUTION * NewJoins(l, id))
  {
    hide SumOver, Kept, PayJoin, WellKept, CalculateJoin;
    UnpaidJoinKept(l, id);
    if id in l.members {
      assert Register(l, id).ledger == l;
    } else if PayingJoin(l, id) {
      var d := RegisterPays(l, id);
      EnsureEffect(l, id);
      PayJoinEffect(EnsureMember(l, id), d);
      EnsureKept(l, id, PayJoin(EnsureMember(l, id), d), JOIN_DISTRIBUTION);
    } else {
      RegisterWithoutPay(l, id);
    }
  }

  lemma CreditAdds(balances: map<AweId, u128>, id: AweId, amount: u128)
    requires Sum(balances) + amount <= U128_MAX
    ensures Sum(Credit(balances, id, amount)) == Sum(balances) + amount
  {
    ValueBound(balances, id);
    SumUpdate(balances, id, Get(balances, id) + amount);
  }

  lemma MintEffect(c: Crypto, l: Ledger, r: SignedReceipt)
    requires WellKept(l) && Mint(c, l, r).result.Ok? && Room(l, Mint(c, l, r).result.value)
    ensures var Outcome(l', result) := Mint(c, l, r);
            && WellKept(l')
            && Surplus(l') == Surplus(l)
            && l'.totalIssued + l'.joinRemainder == l.totalIssued + l.joinRemainder + result.value
  {
    hide SumOver;
    CreditAdds(l.balances, r.receipt.node, Mint(c, l, r).result.value);
  }

  /** The receipt log grows by exactly what was paid. */
  lemma MintLogged(c: Crypto, l: Ledger, r: SignedReceipt)
    requires Mint(c, l, r).result.Ok?
    ensures Sum(Mint(c, l, r).ledger.rewarded) == Sum(l.rewarded) + Mint(c, l, r).result.value
  {
    SumUpdate(l.rewarded, c.hash(ReceiptBytes(r)), Mint(c, l, r).result.value);
  }

  /** A transfer, to oneself or to another account, takes exactly the fee out of circulation. */
  lemma MoveEffect(l: Ledger, tx: Transaction, sender: AweId, total: u128)
    requires tx.amount <= total <= Balance(l, sender) && Sum(l.balances) <= U128_MAX
    ensures Sum(Move(l, tx, sender, total).balances) == Sum(l.balances) - (total - tx.amount)
  {
    var debited := l.balances[sender := Balance(l, sender) - total];
    SumUpdate(l.balances, sender, Balance(l, sender) - total);
    CreditAdds(debited, tx.recipient, tx.amount);
  }

  lemma TransferEffect(c: Crypto, l: Ledger, tx: Transaction, key: Key)
    requires WellKept(l) && Sum(l.balances) <= U128_MAX
    ensures var l' := Transfer(c, l, tx, key).ledger;
            WellKept(l') && Sum(l'.balances) == Sum(l.balances)
  {
    hide SumOver;
    if Transfer(c, l, tx, key).result.Ok? {
      MoveEffect(l, tx, c.aweId(key), tx.amount);
      assert c.aweId(key) in l.members;
    }
  }

  lemma ChargedMoveKept(l: Ledger, tx: Transaction, sender: AweId, fee: u128)
    requires WellKept(l) && Room(l, 0) && sender in l.members && tx.recipient in l.members
    requires tx.amount + fee <= Balance(l, sender)
    ensures l.collectedFees + fee <= U128_MAX
    ensures var l' := Move(l, tx, sender, tx.amount + fee).(collectedFees := l.collectedFees + fee);
            WellKept(l') && Surplus(l') == Surplus(l)
  {
    hide SumOver;
    ValueBound(l.balances, sender);
    MoveEffect(l, tx, sender, tx.amount + fee);
  }

  /** A transfer whose amount and fee together exceed 128 bits goes through, at the saturated total. */
  predicate Overcharges(c: Crypto, l: Ledger, tx: Transaction, key: Key, fee: u128) {
    TransferCharging(c, l, tx, key, fee).result.Ok? && tx.amount + fee > U128_MAX
  }

  lemma FeeEffect(c: Crypto, l: Ledger, tx: Transaction, key: Key, fee: u128)
    requires WellKept(l) && Room(l, 0) && !Overcharges(c, l, tx, key, fee)
    ensures var l' := TransferCharging(c, l, tx, key, fee).ledger;
            && WellKept(l')
            && Surplus(l') == Surplus(l)
            && l' == l.(balances := l'.balances, nonces := l'.nonces, collectedFees := l'.collectedFees)
  {
    hide SumOver, Surplus, WellKept;
    if TransferCharging(c, l, tx, key, fee).result.Ok? {
      ValueBound(l.balances, c.aweId(key));
      ChargedMoveKept(l, tx, c.aweId(key), fee);
    }
  }

  /** An overcharging transfer collects more than was paid. */
  lemma OverchargeEffect(c: Crypto, l: Ledger, tx: Transaction, key: Key, fee: u128)
    requires WellKept(l) && Room(l, 0) && Overcharges(c, l, tx, key, fee)
    ensures var l' := TransferCharging(c, l, tx, key, fee).ledger;
            && WellKept(l')
            && Surplus(l') > Surplus(l)
            && l' == l.(balances := l'.balances, nonces := l'.nonces, collectedFees := l'.collectedFees)
  {
    hide SumOver;
    var sender := c.aweId(key);
    ValueBound(l.balances, sender);
    MoveEffect(l, tx, sender, U128_MAX);
  }

  lemma CreditOnceResult(l: Ledger, txId: Digest, recipient: AweId, amount: u128)
    ensures CreditOnce(l, txId, recipient, amount).result == Ok(txId !in l.received)
  {
  }

  lemma CreditOnceEffect(l: Ledger, txId: Digest, recipient: AweId, amount: u128)
    requires WellKept(l) && recipient in l.members && (txId !in l.received ==> Room(l, amount))
    ensures var l' := CreditOnce(l, txId, recipient, amount).ledger;
            && WellKept(l')
            && Surplus(l') == Surplus(l)
            && Sum(l'.received) == Sum(l.received) + (if txId in l.received then 0 else amount)
            && l' == l.(balances := l'.balances, received := l'.received)
  {
    hide SumOver;
    if txId !in l.received {
      SumUpdate(l.received, txId, amount);
      CreditAdds(l.balances, recipient, amount);
    }
  }

  lemma ReceiveEffect(c: Crypto, l: Ledger, tx: Transaction, key: Key, recipient: AweId)
    requires WellKept(l)
    requires Receive(c, l, tx, key, recipient).result == Ok(true) ==> Room(l, tx.amount)
    ensures var Outcome(l', result) := Receive(c, l, tx, key, recipient);
            && WellKept(l')
            && Surplus(l') == Surplus(l)
            && l'.totalIssued == l.totalIssued && l'.joinRemainder == l.joinRemainder
            && Sum(l'.received) == Sum(l.received) + (if result == Ok(true) then tx.amount else 0)
            && l'.rewarded == l.rewarded
  {
    hide EnsureMember, CreditOnce, TxVerifies, TxId, Sum;
    if tx.recipient == recipient && tx.sender == key && TxVerifies(c, tx, key) {
      var m1 := EnsureMember(l, c.aweId(key));
      EnsureEffect(l, c.aweId(key));
      var m := EnsureMember(m1, recipient);
      EnsureEffect(m1, recipient);
      assert recipient in m.members;
      CreditOnceResult(m, TxId(c, tx), recipient, tx.amount);
      hide WellKept;
      CreditOnceEffect(m, TxId(c, tx), recipient, tx.amount);
    }
  }

  // ---- whole runs ----

  /** Conservation and a total below the ceiling leave room for what is still to come in. */
  lemma RoomFor(h: History, x: int)
    requires Conserved(h) && 0 <= x && Volume(h) + x <= U128_MAX
    ensures Room(h.ledger, x)
  {
    SumNonNegative(h.ledger.received);
    SumNonNegative(h.ledger.balances);
  }

  ghost predicate Good(h: History) {
    WellKept(h.ledger) && Conserved(h)
  }

  /** `h'` adds volume to `h`, and keeps the books if that volume fits. */
  ghost predicate Sound(h: History, h': History) {
    Volume(h) <= Volume(h') && (Good(h) && Volume(h') <= U128_MAX ==> Good(h'))
  }

  lemma FoundersSound(h: History, l: Ledger, n: nat)
    requires l.rewarded == h.ledger.rewarded && l.received == h.ledger.received
    requires Good(h) && GENESIS_ALLOCATION * n <= U128_MAX ==> Kept(h.ledger, l, GENESIS_ALLOCATION * n)
    ensures Sound(h, h.(ledger := l, founders := h.founders + n))
  {
    hide SumOver;
    SumNonNegative(l.rewarded);
    SumNonNegative(l.received);
  }

  lemma SoundReflexive(h: History)
    ensures Sound(h, h)
  {
  }

  lemma GenesisLogs(l: Ledger, ids: seq<AweId>)
    ensures Genesis(l, ids).ledger.rewarded == l.rewarded && Genesis(l, ids).ledger.received == l.received
    ensures Genesis(l, ids).result.Err? ==> Genesis(l, ids).ledger == l
  {
    if Genesis(l, ids).result.Ok? {
      GenesisContents(l, ids);
    }
  }

  lemma GenesisSound(h: History, ids: seq<AweId>)
    ensures Sound(h, h.(ledger := Genesis(h.ledger, ids).ledger, founders := h.founders + NewFounders(h.ledger, ids)))
  {
    hide Sound, Kept, Conserved, WellKept, Genesis;
    GenesisLogs(h.ledger, ids);
    if Genesis(h.ledger, ids).result.Err? {
      SoundReflexive(h);
    } else {
      if Good(h) && GENESIS_ALLOCATION * |Elems(ids)| <= U128_MAX {
        GenesisEffect(h.ledger, ids);
      }
      FoundersSound(h, Genesis(h.ledger, ids).ledger, |Elems(ids)|);
    }
  }

  lemma GenesisHasMembers(l: Ledger, ids: seq<AweId>)
    requires Genesis(l, ids).result.Ok?
    ensures Genesis(l, ids).ledger.members != map[]
  {
    assert ids != [];
    GenesisContents(l, ids);
    assert ids[0] in Elems(ids);
  }

  lemma VerifiersSound(c: Crypto, h: History, h1: History, keys: seq<Key>)
    requires Sound(h, h1) && h1.ledger.members != map[]
    ensures Sound(h, h1.(ledger := AddVerifiers(c, h1.ledger, keys).ledger))
  {
    VerifiersOnly(c, h1.ledger, keys);
  }

  lemma GenesisWithVerifiersSound(c: Crypto, h: History, ids: seq<AweId>, keys: seq<Key>)
    ensures Sound(h, h.(ledger := GenesisWithVerifiers(c, h.ledger, ids, keys).ledger,
                        founders := h.founders + NewFounders(h.ledger, ids)))
  {
    hide Sound, NewFounders, Genesis, AddVerifiers;
    var g := Genesis(h.ledger, ids);
    GenesisSound(h, ids);
    if g.result.Ok? {
      GenesisHasMembers(h.ledger, ids);
      VerifiersSound(c, h, h.(ledger := g.ledger, founders := h.founders + NewFounders(h.ledger, ids)), keys);
    }
  }

  lemma RegisterSound(h: History, id: AweId)
    ensures Sound(h, h.(ledger := Register(h.ledger, id).ledger, payingJoins := h.payingJoins + NewJoins(h.ledger, id)))
  {
    var x := JOIN_DISTRIBUTION * NewJoins(h.ledger, id);
    if Good(h) && Volume(h) + x <= U128_MAX {
      RoomFor(h, x);
      RegisterEffect(h.ledger, id);
    }
  }

  lemma MintSound(c: Crypto, h: History, r: SignedReceipt)
    ensures Sound(h, h.(ledger := Mint(c, h.ledger, r).ledger))
  {
    hide SumOver;
    var m := Mint(c, h.ledger, r);
    if m.result.Ok? {
      MintLogged(c, h.ledger, r);
      if Good(h) && Volume(h) + m.result.value <= U128_MAX {
        RoomFor(h, m.result.value);
        MintEffect(c, h.ledger, r);
      }
    }
  }

  lemma ReceiveSound(c: Crypto, h: History, tx: Transaction, key: Key, recipient: AweId)
    ensures Sound(h, h.(ledger := Receive(c, h.ledger, tx, key, recipient).ledger))
  {
    hide SumOver;
    var r := Receive(c, h.ledger, tx, key, recipient);
    var x := if r.result == Ok(true) then tx.amount else 0;
    SumUpdate(h.ledger.received, TxId(c, tx), tx.amount);
    if Good(h) && Volume(h) + x <= U128_MAX {
      RoomFor(h, x);
      ReceiveEffect(c, h.ledger, tx, key, recipient);
    }
  }

  lemma TransferSound(c: Crypto, h: History, tx: Transaction, key: Key)
    ensures Sound(h, h.(ledger := Transfer(c, h.ledger, tx, key).ledger))
  {
    hide SumOver, WellKept;
    if Good(h) && Volume(h) <= U128_MAX {
      RoomFor(h, 0);
      TransferEffect(c, h.ledger, tx, key);
    }
  }

  lemma ChargingSound(c: Crypto, h: History, tx: Transaction, key: Key, fee: u128)
    requires !Overcharges(c, h.ledger, tx, key, fee)
    ensures Sound(h, h.(ledger := TransferCharging(c, h.ledger, tx, key, fee).ledger))
  {
    hide SumOver;
    if Good(h) && Volume(h) <= U128_MAX {
      RoomFor(h, 0);
      FeeEffect(c, h.ledger, tx, key, fee);
    }
  }

  lemma MemberSound(c: Crypto, h: History, id: AweId, a: Key, k: Key)
    ensures Sound(h, h.(ledger := EnsureMember(h.ledger, id)))
    ensures Sound(h, h.(ledger := AuthorizeVerifier(c, h.ledger, a, k).ledger))
  {
    if WellKept(h.ledger) {
      EnsureEffect(h.ledger, id);
      if AuthorizeVerifier(c, h.ledger, a, k).result.Ok? {
        assert c.aweId(k) in h.ledger.members;
      }
    }
  }

  /** The guard that decides: does this step overcharge? */
  predicate StepOvercharges(c: Crypto, h: History, op: Op) {
    && op.DoTransferWithFee? && op.bps <= 500
    && Overcharges(c, h.ledger, op.tx, op.key, FeeFor(op.tx.amount, op.bps))
  }

  lemma StepSound(c: Crypto, h: History, op: Op)
    requires !StepOvercharges(c, h, op)
    ensures Sound(h, Step(c, h, op))
  {
    hide Sound, Genesis, GenesisWithVerifiers, Register, Mint, Transfer, TransferCharging, Receive, NewFounders, NewJoins;
    hide Overcharges;
    SoundReflexive(h);
    match op
    case DoGenesis(ids) => GenesisSound(h, ids);
    case DoGenesisWithVerifiers(ids, keys) => GenesisWithVerifiersSound(c, h, ids, keys);
    case DoRegister(id) => RegisterSound(h, id);
    case DoAuthorize(a, k) => MemberSound(c, h, 0, a, k);
    case DoEnsureMember(id) => MemberSound(c, h, id, 0, 0);
    case DoMint(r) => MintSound(c, h, r);
    case DoTransfer(tx, key) => TransferSound(c, h, tx, key);
    case DoTransferWithFee(tx, key, bps) =>
      if bps <= 500 {
        ChargingSound(c, h, tx, key, FeeFor(tx.amount, bps));
      }
    case DoReceive(tx, key, recipient) => ReceiveSound(c, h, tx, key, recipient);
  }

  lemma OverchargeBreaks(c: Crypto, h: History, op: Op)
    requires StepOvercharges(c, h, op)
    ensures Volume(Step(c, h, op)) == Volume(h)
    ensures Good(h) && Volume(h) <= U128_MAX ==> !Conserved(Step(c, h, op))
  {
    hide SumOver;
    var fee := FeeFor(op.tx.amount, op.bps);
    ChargingKeepsLogs(c, h.ledger, op.tx, op.key, fee);
    if Good(h) && Volume(h) <= U128_MAX {
      RoomFor(h, 0);
      OverchargeEffect(c, h.ledger, op.tx, op.key, fee);
    }
  }

  lemma ChargingKeepsLogs(c: Crypto, l: Ledger, tx: Transaction, key: Key, fee: u128)
    ensures var l' := TransferCharging(c, l, tx, key, fee).ledger;
            l' == l.(balances := l'.balances, nonces := l'.nonces, collectedFees := l'.collectedFees)
  {
  }

  lemma VolumeGrows(c: Crypto, h: History, op: Op)
    ensures Volume(h) <= Volume(Step(c, h, op))
  {
    hide Volume, Step, StepOvercharges;
    if StepOvercharges(c, h, op) {
      OverchargeBreaks(c, h, op);
    } else {
      StepSound(c, h, op);
    }
  }

  ghost predicate NeverOvercharges(c: Crypto, ops: seq<Op>) {
    ops == []
    || (NeverOvercharges(c, ops[..|ops| - 1]) && !StepOvercharges(c, Run(c, ops[..|ops| - 1]), ops[|ops| - 1]))
  }

  /** The books balance after every operation of the run. */
  ghost predicate AlwaysConserved(c: Crypto, ops: seq<Op>) {
    Conserved(Run(c, ops)) && (ops != [] ==> AlwaysConserved(c, ops[..|ops| - 1]))
  }

  /**
   * Conservation over every run whose volume stays below 2^128 atoms: balances and collected fees are exactly what was
   * issued and received, and what was issued (with the undealt join remainder) is exactly ten coins per founder, one per
   * paying join, and the rewarded receipts. It holds throughout the run if and only if no fee transfer overcharges.
   */
  lemma {:induction false} RunConserves(c: Crypto, ops: seq<Op>)
    requires Volume(Run(c, ops)) <= U128_MAX
    ensures AlwaysConserved(c, ops) <==> NeverOvercharges(c, ops)
    ensures NeverOvercharges(c, ops) ==> WellKept(Run(c, ops).ledger) && Conserved(Run(c, ops))
  {
    if ops == [] {
      assert Sum(DEFAULT.balances) == Sum(DEFAULT.received) == Sum(DEFAULT.rewarded) == 0;
    } else {
      hide Conserved, WellKept, Volume, Step, StepOvercharges;
      var h, op := Run(c, ops[..|ops| - 1]), ops[|ops| - 1];
      VolumeGrows(c, h, op);
      RunConserves(c, ops[..|ops| - 1]);
      if StepOvercharges(c, h, op) {
        OverchargeBreaks(c, h, op);
      } else {
        StepSound(c, h, op);
      }
    }
  }

  /** One atom lower there is nothing to check: no transfer of such a run can overcharge. */
  lemma {:induction false} BelowCeilingConserves(c: Crypto, ops: seq<Op>)
    requires Volume(Run(c, ops)) < U128_MAX
    ensures NeverOvercharges(c, ops) && WellKept(Run(c, ops).ledger) && Conserved(Run(c, ops))
  {
    if ops != [] {
      var h, op := Run(c, ops[..|ops| - 1]), ops[|ops| - 1];
      VolumeGrows(c, h, op);
      BelowCeilingConserves(c, ops[..|ops| - 1]);
      RoomFor(h, U128_MAX - 1 - Volume(h));
      hide Step, Run, Volume, WellKept, Conserved, Sum;
      if StepOvercharges(c, h, op) {
        ValueBound(h.ledger.balances, c.aweId(op.key));
        assert false;
      }
    }
    RunConserves(c, ops);
  }

  // ---- the reload check, and the ceiling ----

  /** The check a stored ledger must pass to be loaded again; the balance total saturates. */
  ghost predicate Validates(l: Ledger) {
    && |l.members| == |l.balances| == |l.nonces|
    && Min(Sum(l.balances), U128_MAX) <= l.totalIssued
    && forall id :: id in l.members ==> l.members[id] == id
  }

  /** A ledger that ran below the ceiling reloads exactly when fees cover what came in by replication. */
  lemma ReloadsExactlyWhenFeesCover(c: Crypto, ops: seq<Op>)
    requires Volume(Run(c, ops)) <= U128_MAX && NeverOvercharges(c, ops)
    ensures Validates(Run(c, ops).ledger) <==> Sum(Run(c, ops).ledger.received) <= Run(c, ops).ledger.collectedFees
  {
    RunConserves(c, ops);
    var l := Run(c, ops).ledger;
    RoomFor(Run(c, ops), 0);
    assert |l.members| == |l.members.Keys| && |l.balances| == |l.balances.Keys| && |l.nonces| == |l.nonces.Keys|;
  }

  const PERMISSIVE: Crypto := Crypto(k => k, x => 0, (k, m, s) => true)
  const INCOMING: Transaction := Transaction(1, 0, 7, 1, U128_MAX, None, 0)
  const OUTGOING: Transaction := Transaction(1, 0, 1, 7, U128_MAX, None, 0)
  const AT_CEILING: seq<Op> := [DoReceive(INCOMING, 7, 1), DoTransferWithFee(OUTGOING, 1, 500)]

  lemma CeilingReached()
    ensures var l := Run(PERMISSIVE, AT_CEILING[..1]).ledger;
            && l.balances == map[7 := 0, 1 := U128_MAX] && l.received == map[0 := U128_MAX]
            && l.members == map[7 := 7, 1 := 1] && l.nonces == map[7 := 0, 1 := 0]
            && l.totalIssued == 0 && l.collectedFees == 0 && l.rewarded == map[]
    ensures Run(PERMISSIVE, AT_CEILING[..1]).founders == Run(PERMISSIVE, AT_CEILING[..1]).payingJoins == 0
  {
    assert AT_CEILING[..1][..0] == [];
    assert Run(PERMISSIVE, AT_CEILING[..1]) == Step(PERMISSIVE, Run(PERMISSIVE, []), DoReceive(INCOMING, 7, 1));
  }

  lemma CeilingCrossed()
    ensures var h := Run(PERMISSIVE, AT_CEILING);
            && h.ledger.balances == map[7 := U128_MAX, 1 := 0] && h.ledger.collectedFees > 0
            && h == Run(PERMISSIVE, AT_CEILING[..1]).(ledger := h.ledger)
            && h.ledger == Run(PERMISSIVE, AT_CEILING[..1]).ledger.(
                 balances := h.ledger.balances, collectedFees := h.ledger.collectedFees, nonces := h.ledger.nonces)
  {
    hide Genesis, GenesisWithVerifiers, Register, Mint, Transfer, Receive, AuthorizeVerifier, EnsureMember;
    var h1 := Run(PERMISSIVE, AT_CEILING[..1]);
    CeilingReached();
    assert Run(PERMISSIVE, AT_CEILING) == Step(PERMISSIVE, h1, DoTransferWithFee(OUTGOING, 1, 500));
  }

  /**
   * Overcharging does happen, with 2^128 - 1 atoms in the ledger: amount plus fee saturates to the whole balance, so
   * the fee is collected without having been paid.
   */
  lemma CeilingIsSharp()
    ensures Volume(Run(PERMISSIVE, AT_CEILING)) == U128_MAX && !Conserved(Run(PERMISSIVE, AT_CEILING))
  {
    hide Run, SumOver;
    var h := Run(PERMISSIVE, AT_CEILING);
    CeilingReached();
    CeilingCrossed();
    SumConstant(h.ledger.received, U128_MAX);
    SumEmpty(h.ledger.rewarded);
    ValueBound(h.ledger.balances, 7);
  }
}
