/** When a node can still finalize, and when it has come to a standstill. */
module Progress {
  import opened Prelude
  import opened Onecoin
  import opened Ledger
  import opened Conservation
  import opened Consensus
  import opened ChainSafety
  import opened Runtime
  import opened Certified

  /** A run that starts from any node and chain. */
  ghost function Continue(c: Crypto, validators: Validators, me: Identity, t: Trace, events: seq<Event>): Trace {
    if events == [] then t
    else
      var before := Continue(c, validators, me, t, events[..|events| - 1]);
      var r := Handle(c, validators, me, before.node, events[|events| - 1]);
      Trace(r.node, before.chain + r.committed)
  }

  lemma {:induction false} RunContinues(
      c: Crypto, validators: Validators, me: Identity, l0: Ledger, events: seq<Event>, more: seq<Event>)
    ensures RunNode(c, validators, me, l0, events + more)
         == Continue(c, validators, me, RunNode(c, validators, me, l0, events), more)
  {
    hide Handle;
    if more == [] {
      assert events + more == events;
    } else {
      var front := more[..|more| - 1];
      RunContinues(c, validators, me, l0, events, front);
      var all := events + more;
      assert all[..|all| - 1] == events + front && all[|all| - 1] == more[|more| - 1];
    }
  }

  lemma ContinueOne(c: Crypto, validators: Validators, me: Identity, t: Trace, e: Event)
    ensures var r := Handle(c, validators, me, t.node, e);
            Continue(c, validators, me, t, [e]) == Trace(r.node, t.chain + r.committed)
  {
    hide Handle;
    assert [e][..0] == [];
  }

  lemma ContinueTwo(c: Crypto, validators: Validators, me: Identity, t: Trace, e: Event, f: Event)
    ensures var r := Handle(c, validators, me, t.node, e);
            var s := Handle(c, validators, me, r.node, f);
            Continue(c, validators, me, t, [e, f]) == Trace(s.node, t.chain + r.committed + s.committed)
  {
    hide Handle;
    assert [e, f][..1] == [e];
    ContinueOne(c, validators, me, t, e);
  }

  // ---- single events ----

  /** A validator's well-formed block on top of the tip is stored, if there is room or it is there already. */
  lemma ProposalStored(c: Crypto, validators: Validators, me: Identity, n: Node, b: Block, diskOk: bool)
    requires PendingOk(c, validators, BlockHash(c, b), b) && c.aweId(validators[b.header.proposer]) == b.header.proposer
    requires b.header.height == WrapInc64(n.state.height) && b.header.previousHash == n.state.tip
    requires |n.pending| < MAX_PENDING_BLOCKS || BlockHash(c, b) in n.pending
    ensures var r := Handle(c, validators, me, n, Event(validators[b.header.proposer], Proposal(b), diskOk));
            r.node == n.(pending := n.pending[BlockHash(c, b) := b]) && r.committed == []
  {
    hide ValidShape, ProposerVerifies, NewVote;
  }

  /** A certificate that finalizes a pending block does so when a validator delivers it, saved or not. */
  lemma CertificateCommits(
      c: Crypto, validators: Validators, me: Identity, n: Node, id: AweId, cert: Certificate, diskOk: bool)
    requires id in validators && c.aweId(validators[id]) == id && cert.blockHash in n.pending
    requires Finalize(c, validators, n.state, n.pending[cert.blockHash], cert).Ok?
    ensures var b := n.pending[cert.blockHash];
            var st := Finalize(c, validators, n.state, b, cert).value;
            var r := Handle(c, validators, me, n, Event(validators[id], Certified(cert), diskOk));
            && r.committed == [Entry(b, cert)] && r.node.state == st
            && (!diskOk ==> r.node.pending == n.pending)
  {
    hide Finalize, Validates;
  }

  // ---- standstill ----

  /** Some pending block extends the tip and executes, or there is room for one more block below the last height. */
  ghost predicate CanProgress(c: Crypto, n: Node) {
    || (exists h :: h in n.pending && Finalizable(c, n.state, n.pending[h]))
    || (|n.pending| < MAX_PENDING_BLOCKS && n.state.height < U64_MAX)
  }

  lemma OnlyFinalizableFinalizes(c: Crypto, validators: Validators, n: Node, entry: Entry, diskOk: bool,
                                 answer: seq<(Key, Message)>)
    requires !Finalizable(c, n.state, entry.block)
    ensures var r := FinalizeEntry(c, validators, n, entry, diskOk, answer);
            r.node == n && r.committed == []
  {
    hide ValidShape, ProposerVerifies, CertificateVerifies, Execute;
  }

  lemma StalledVote(c: Crypto, validators: Validators, n: Node, sender: Key, v: Vote, diskOk: bool)
    requires !CanProgress(c, n)
    ensures var r := HandleVote(c, validators, n, sender, v, diskOk);
            r.committed == [] && r.node.state == n.state && r.node.pending == n.pending
  {
    hide FinalizeEntry, CertificateVerifies, VoteVerifies, Broadcast, InOrder, Finalizable;
    if v.blockHash in n.pending {
      var counted := n.(votes := n.votes[v.blockHash := Ballots(n, v.blockHash)[v.voter := v]]);
      var b := n.pending[v.blockHash];
      var cert := Certificate(v.blockHash, b.header.height, InOrder(counted.votes[v.blockHash]));
      OnlyFinalizableFinalizes(c, validators, counted, Entry(b, cert), diskOk, Broadcast(validators, cert));
    }
  }

  lemma StalledProposal(c: Crypto, validators: Validators, me: Identity, n: Node, sender: Key, b: Block)
    requires CollisionFree(c) && TablesOk(c, validators, n) && !CanProgress(c, n)
    ensures var r := HandleProposal(c, validators, me, n, sender, b);
            r.committed == [] && r.node.state == n.state && !CanProgress(c, r.node)
    ensures n.state.height < U64_MAX ==> HandleProposal(c, validators, me, n, sender, b).node == n
  {
    hide ValidShape, ProposerVerifies, NewVote, Execute, CollisionFree;
    var hash := BlockHash(c, b);
    if HandleProposal(c, validators, me, n, sender, b).answer.Ok? {
      if hash in n.pending {
        PendingUnique(c, validators, hash, n.pending[hash], b);
        assert n.pending[hash := b] == n.pending;
      } else {
        assert n.state.height == U64_MAX;
        assert !Finalizable(c, n.state, b);
      }
    }
  }

  /** One event: a node at a standstill finalizes nothing and stays at it. Below the last height its pending blocks
      stay as they are. */
  lemma StalledStep(c: Crypto, validators: Validators, me: Identity, n: Node, e: Event)
    requires CollisionFree(c) && TablesOk(c, validators, n) && !CanProgress(c, n)
    ensures var r := Handle(c, validators, me, n, e);
            && r.committed == [] && r.node.state == n.state && !CanProgress(c, r.node)
            && (n.state.height < U64_MAX ==> r.node.pending == n.pending)
  {
    hide HandleProposal, HandleVote, FinalizeEntry, TablesOk, Finalizable;
    match e.message
    case Proposal(b) => StalledProposal(c, validators, me, n, e.sender, b);
    case CastVote(v) => StalledVote(c, validators, n, e.sender, v, e.diskOk);
    case Certified(cert) =>
      if cert.blockHash in n.pending {
        OnlyFinalizableFinalizes(c, validators, n, Entry(n.pending[cert.blockHash], cert), e.diskOk, []);
      }
  }

  /** Over every run: a standstill lasts, and no further block is finalized. */
  lemma {:induction false} StandstillLasts(
      c: Crypto, validators: Validators, me: Identity, t: Trace, events: seq<Event>)
    requires CollisionFree(c) && TablesOk(c, validators, t.node) && !CanProgress(c, t.node)
    ensures var after := Continue(c, validators, me, t, events);
            && after.chain == t.chain && after.node.state == t.node.state
            && TablesOk(c, validators, after.node) && !CanProgress(c, after.node)
            && (t.node.state.height < U64_MAX ==> after.node.pending == t.node.pending)
  {
    hide Handle, TablesOk, CanProgress;
    if events != [] {
      StandstillLasts(c, validators, me, t, events[..|events| - 1]);
      var before := Continue(c, validators, me, t, events[..|events| - 1]);
      StalledStep(c, validators, me, before.node, events[|events| - 1]);
      HandleKeepsTables(c, validators, me, before.node, events[|events| - 1]);
    }
  }

  lemma PendingProgress(
      c: Crypto, validators: Validators, who: Signers, me: Identity, t: Trace, h: Digest) returns (e: Event)
    requires CollisionFree(c) && SetUp(c, validators, who) && TablesOk(c, validators, t.node)
    requires h in t.node.pending && Finalizable(c, t.node.state, t.node.pending[h])
    ensures |Continue(c, validators, me, t, [e]).chain| == |t.chain| + 1
  {
    var b := t.node.pending[h];
    assert PendingOk(c, validators, h, b);
    hide TablesOk, Finalizable, Handle;
    RequiredFits(|validators|);
    assert |validators.Keys| == |validators|;
    QuorumFinalizes(c, validators, who, t.node.state, b, validators.Keys);
    var cert := Certify(c, who, validators.Keys, b);
    var id :| id in validators;
    CertificateCommits(c, validators, me, t.node, id, cert, true);
    e := Event(validators[id], Certified(cert), true);
    ContinueOne(c, validators, me, t, e);
  }

  lemma RoomProgress(
      c: Crypto, validators: Validators, who: Signers, me: Identity, t: Trace) returns (events: seq<Event>)
    requires CollisionFree(c) && SetUp(c, validators, who) && TablesOk(c, validators, t.node)
    requires |t.node.pending| < MAX_PENDING_BLOCKS && t.node.state.height < U64_MAX
    ensures |Continue(c, validators, me, t, events).chain| == |t.chain| + 1
  {
    var p :| p in validators;
    var b := NextBlock(c, who[p], t.node.state, [], 0);
    Extends(c, validators, who, t.node.state, p, [], 0);
    NextBlockSound(c, who[p], t.node.state, [], 0);
    assert b.header.proposer == p;
    hide Finalizable, NextBlock;
    ProposalStored(c, validators, me, t.node, b, true);
    var first := Event(validators[p], Proposal(b), true);
    HandleKeepsTables(c, validators, me, t.node, first);
    ContinueOne(c, validators, me, t, first);
    hide Handle, TablesOk;
    var mid := Continue(c, validators, me, t, [first]);
    var second := PendingProgress(c, validators, who, me, mid, BlockHash(c, b));
    events := [first, second];
    ContinueTwo(c, validators, me, t, first, second);
    ContinueOne(c, validators, me, mid, second);
  }

  /** Exactly the nodes that can progress have a future in which another block is finalized. */
  lemma ProgressExactly(c: Crypto, validators: Validators, who: Signers, me: Identity, t: Trace)
    requires CollisionFree(c) && SetUp(c, validators, who) && TablesOk(c, validators, t.node)
    ensures (exists events :: Continue(c, validators, me, t, events).chain != t.chain) <==> CanProgress(c, t.node)
  {
    hide Continue, TablesOk, CollisionFree, SetUp, Finalizable;
    if CanProgress(c, t.node) {
      if h :| h in t.node.pending && Finalizable(c, t.node.state, t.node.pending[h]) {
        var e := PendingProgress(c, validators, who, me, t, h);
      } else {
        var events := RoomProgress(c, validators, who, me, t);
      }
    } else {
      forall events
        ensures Continue(c, validators, me, t, events).chain == t.chain
      {
        StandstillLasts(c, validators, me, t, events);
      }
    }
  }

  // ---- a standstill that is reached ----

  /** One proposer's empty blocks at height one differ in their time alone. */
  function Rival(c: Crypto, proposer: Identity, l0: Ledger, time: u64): Block {
    NextBlock(c, proposer, Origin(l0), [], time)
  }

  function Rivals(c: Crypto, proposer: Identity, l0: Ledger, k: nat): map<Digest, Block>
    requires k <= MAX_PENDING_BLOCKS
  {
    if k == 0 then map[]
    else
      var b := Rival(c, proposer, l0, k - 1);
      Rivals(c, proposer, l0, k - 1)[BlockHash(c, b) := b]
  }

  function Proposals(c: Crypto, proposer: Identity, l0: Ledger, k: nat): (events: seq<Event>)
    requires k <= MAX_PENDING_BLOCKS
    ensures |events| == k
  {
    if k == 0 then []
    else
      Proposals(c, proposer, l0, k - 1) + [Event(proposer.key, Proposal(Rival(c, proposer, l0, k - 1)), true)]
  }

  lemma RivalSound(c: Crypto, proposer: Identity, l0: Ledger, time: u64)
    requires CollisionFree(c) && SignsFor(c, proposer)
    ensures var b := Rival(c, proposer, l0, time);
            && b.transactions == [] && b.header.height == 1 && b.header.previousHash == 0
            && b.header.timestamp == time && b.header.proposer == c.aweId(proposer.key)
            && ValidShape(c, b).Ok? && ProposerVerifies(c, b, proposer.key)
  {
    NextBlockSound(c, proposer, Origin(l0), [], time);
    hide ValidShape, ProposerVerifies, NextBlock;
  }

  /** `k` blocks at height one, told apart by times below `k`, each under its own hash. */
  ghost predicate RivalTable(c: Crypto, table: map<Digest, Block>, k: nat) {
    && |table| == k
    && forall h :: h in table ==>
         BlockHash(c, table[h]) == h && table[h].header.height == 1 && table[h].header.timestamp < k
  }

  lemma HashesDiffer(c: Crypto, a: Block, b: Block)
    requires CollisionFree(c) && a != b
    ensures BlockHash(c, a) != BlockHash(c, b)
  {
    assert BlockBytes(a) != BlockBytes(b);
  }

  lemma RivalAdded(c: Crypto, table: map<Digest, Block>, k: nat, b: Block)
    requires CollisionFree(c) && RivalTable(c, table, k) && b.header.height == 1 && b.header.timestamp == k
    ensures BlockHash(c, b) !in table && RivalTable(c, table[BlockHash(c, b) := b], k + 1)
  {
    hide CollisionFree;
    var h := BlockHash(c, b);
    if h in table {
      HashesDiffer(c, b, table[h]);
    }
    FreshKeySize(table, h, b);
    var more := table[h := b];
    forall g | g in more
      ensures BlockHash(c, more[g]) == g && more[g].header.height == 1 && more[g].header.timestamp < k + 1
    {
      assert g == h || g in table;
    }
  }

  lemma {:induction false} RivalsDiffer(c: Crypto, proposer: Identity, l0: Ledger, k: nat)
    requires CollisionFree(c) && SignsFor(c, proposer) && k <= MAX_PENDING_BLOCKS
    ensures RivalTable(c, Rivals(c, proposer, l0, k), k)
    ensures var b := Rival(c, proposer, l0, 0);
            k > 0 ==> BlockHash(c, b) in Rivals(c, proposer, l0, k)
                      && Rivals(c, proposer, l0, k)[BlockHash(c, b)] == b
  {
    hide Rival, ValidShape, ProposerVerifies, SignsFor, CollisionFree, BlockHash;
    if k > 0 {
      RivalsDiffer(c, proposer, l0, k - 1);
      RivalSound(c, proposer, l0, k - 1);
      hide RivalTable;
      RivalAdded(c, Rivals(c, proposer, l0, k - 1), k - 1, Rival(c, proposer, l0, k - 1));
    } else {
      assert RivalTable(c, map[], 0);
    }
  }

  /** With `k` rivals pending the next one is taken too. */
  lemma RivalStored(
      c: Crypto, validators: Validators, proposer: Identity, me: Identity, l0: Ledger, p: AweId, k: nat)
    requires CollisionFree(c) && SignsFor(c, proposer) && k < MAX_PENDING_BLOCKS
    requires p in validators && validators[p] == proposer.key && c.aweId(proposer.key) == p
    ensures var n := Node(Origin(l0), Rivals(c, proposer, l0, k), map[]);
            var r := Handle(c, validators, me, n, Event(proposer.key, Proposal(Rival(c, proposer, l0, k)), true));
            r.node == Node(Origin(l0), Rivals(c, proposer, l0, k + 1), map[]) && r.committed == []
  {
    hide Rival, ValidShape, ProposerVerifies, Handle, CollisionFree, SignsFor;
    RivalSound(c, proposer, l0, k);
    RivalsDiffer(c, proposer, l0, k);
    assert |Rivals(c, proposer, l0, k)| == k;
    hide RivalTable;
    ProposalStored(c, validators, me, Node(Origin(l0), Rivals(c, proposer, l0, k), map[]), Rival(c, proposer, l0, k), true);
  }

  lemma {:induction false} ProposalsStored(
      c: Crypto, validators: Validators, who: Signers, me: Identity, l0: Ledger, p: AweId, k: nat)
    requires CollisionFree(c) && SetUp(c, validators, who) && p in validators && k <= MAX_PENDING_BLOCKS
    ensures RunNode(c, validators, me, l0, Proposals(c, who[p], l0, k))
         == Trace(Node(Origin(l0), Rivals(c, who[p], l0, k), map[]), [])
  {
    hide Handle, Rival, Rivals, CollisionFree, SignsFor;
    if k == 0 {
      NoRivals(c, who[p], l0);
    } else {
      ProposalsStored(c, validators, who, me, l0, p, k - 1);
      RivalStored(c, validators, who[p], me, l0, p, k - 1);
      var b := Rival(c, who[p], l0, k - 1);
      var before, e := Proposals(c, who[p], l0, k - 1), Event(validators[p], Proposal(b), true);
      assert Proposals(c, who[p], l0, k) == before + [e];
      hide RunNode, Proposals;
      RunContinues(c, validators, me, l0, before, [e]);
      ContinueOne(c, validators, me, RunNode(c, validators, me, l0, before), e);
      hide Continue;
    }
  }

  lemma NoRivals(c: Crypto, proposer: Identity, l0: Ledger)
    ensures Rivals(c, proposer, l0, 0) == map[]
  {
  }

  /** From genesis, 256 rival proposals and one finalized block whose save fails bring a node to a standstill. */
  lemma StandstillReached(c: Crypto, validators: Validators, who: Signers, me: Identity, l0: Ledger)
    returns (events: seq<Event>)
    requires CollisionFree(c) && SetUp(c, validators, who)
    ensures var t := RunNode(c, validators, me, l0, events);
            |events| == MAX_PENDING_BLOCKS + 1 && |t.chain| == 1 && !CanProgress(c, t.node)
  {
    var p :| p in validators;
    var proposals := Proposals(c, who[p], l0, MAX_PENDING_BLOCKS);
    var b := Rival(c, who[p], l0, 0);
    ProposalsStored(c, validators, who, me, l0, p, MAX_PENDING_BLOCKS);
    RivalsDiffer(c, who[p], l0, MAX_PENDING_BLOCKS);
    RivalSound(c, who[p], l0, 0);
    RequiredFits(|validators|);
    assert |validators.Keys| == |validators|;
    var before := RunNode(c, validators, me, l0, proposals);
    assert before.node.pending == Rivals(c, who[p], l0, MAX_PENDING_BLOCKS);
    assert Finalizable(c, Origin(l0), b);
    QuorumFinalizes(c, validators, who, Origin(l0), b, validators.Keys);
    hide Rival, Rivals, Proposals, RunNode, ValidShape, ProposerVerifies, CollisionFree, Handle, Finalize;
    var cert := Certify(c, who, validators.Keys, b);
    CertificateCommits(c, validators, me, before.node, p, cert, false);
    var e := Event(validators[p], Certified(cert), false);
    events := proposals + [e];
    RunContinues(c, validators, me, l0, proposals, [e]);
    ContinueOne(c, validators, me, before, e);
  }
}
