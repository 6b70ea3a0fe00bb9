/** Proposals, certificates and strangers: what each does to a node, exactly, and what is pending in any run. */
module Handlers {
  import opened Prelude
  import opened Quorum
  import opened Onecoin
  import opened Ledger
  import opened Conservation
  import opened Consensus
  import opened ChainSafety
  import opened Runtime
  import opened Certified
  import opened Authorization
  import opened Ballots

  /** A message that does not come from a validator's own key changes nothing. */
  lemma StrangersAreIgnored(c: Crypto, validators: Validators, me: Identity, n: Node, e: Event)
    requires !(c.aweId(e.sender) in validators && validators[c.aweId(e.sender)] == e.sender)
    ensures Handle(c, validators, me, n, e) == Reaction(n, Err(SenderNotValidator), [])
  {
    hide HandleProposal, HandleVote, HandleCertificate;
  }

  // ---- proposals ----

  /** By sender, then nonce, then transaction id. */
  ghost predicate NotAfter(c: Crypto, x: Transaction, y: Transaction) {
    || x.sender < y.sender
    || (x.sender == y.sender && x.nonce < y.nonce)
    || (x.sender == y.sender && x.nonce == y.nonce && c.hash(TxBytes(x)) <= c.hash(TxBytes(y)))
  }

  /** The block is of the protocol's form: version 1, at most 4096 transfers, their digest, and in order. */
  ghost predicate WellFormed(c: Crypto, b: Block) {
    && b.header.version == 1 && |b.transactions| <= 4096
    && b.header.transactionsHash == c.hash(TxListBytes(b.transactions))
    && forall i :: 0 <= i < |b.transactions| - 1 ==> NotAfter(c, b.transactions[i], b.transactions[i + 1])
  }

  lemma ShapeExactly(c: Crypto, b: Block)
    ensures ValidShape(c, b).Ok? <==> WellFormed(c, b)
  {
    assert forall i :: 0 <= i < |b.transactions| - 1 ==>
        (CanonicalOrder(c)(b.transactions[i], b.transactions[i + 1])
         <==> NotAfter(c, b.transactions[i], b.transactions[i + 1]));
  }

  /** A proposal the node takes: well formed, from and signed by a validator, on top of the tip, with room. */
  ghost predicate Acceptable(c: Crypto, validators: Validators, n: Node, sender: Key, b: Block) {
    && c.aweId(sender) in validators && validators[c.aweId(sender)] == sender
    && WellFormed(c, b)
    && b.header.proposer == c.aweId(sender) && c.verifies(sender, BlockBody(b.(signature := 0)), b.signature)
    && b.header.height == (if n.state.height == U64_MAX then 0 else n.state.height + 1)
    && b.header.previousHash == n.state.tip
    && (|n.pending| < 256 || c.hash(BlockBytes(b)) in n.pending)
  }

  /** The node's own approval of a block. */
  ghost predicate OwnApproval(c: Crypto, me: Identity, b: Block, v: Vote) {
    && v.approve && v.voter == c.aweId(me.key)
    && v.blockHash == c.hash(BlockBytes(b)) && v.height == b.header.height
    && v.signature == me.sign(VoteBody(v.(signature := 0)))
  }

  /** A proposal is stored under its hash if and only if it is acceptable, and a validator answers its proposer with one
      signed approval; nothing is finalized, and anything else changes nothing. */
  lemma ProposalExactly(
      c: Crypto, validators: Validators, me: Identity, n: Node, sender: Key, b: Block, diskOk: bool)
    ensures var r := Handle(c, validators, me, n, Event(sender, Proposal(b), diskOk));
            && r.committed == []
            && (r.answer.Ok? <==> Acceptable(c, validators, n, sender, b))
            && r.node == (if r.answer.Ok? then n.(pending := n.pending[c.hash(BlockBytes(b)) := b]) else n)
            && (r.answer.Ok? ==>
                  if c.aweId(me.key) in validators && validators[c.aweId(me.key)] == me.key
                  then exists v :: OwnApproval(c, me, b, v) && r.answer.value == [(sender, CastVote(v))]
                  else r.answer.value == [])
  {
    hide ValidShape, NotAfter;
    ShapeExactly(c, b);
    var r := Handle(c, validators, me, n, Event(sender, Proposal(b), diskOk));
    if r.answer.Ok? {
      assert OwnApproval(c, me, b, NewVote(c, me, b, true));
    }
  }

  // ---- certificates ----

  /** A certificate finalizes if and only if a validator delivers it, it is for a pending block that extends the tip and
      executes, and it holds signed approvals of that block by a quorum. */
  lemma CertificateExactly(
      c: Crypto, validators: Validators, me: Identity, n: Node, sender: Key, cert: Certificate, diskOk: bool)
    requires TablesOk(c, validators, n)
    ensures var r := Handle(c, validators, me, n, Event(sender, Certified(cert), diskOk));
            var h := cert.blockHash;
            && (r.committed != [] <==>
                  && c.aweId(sender) in validators && validators[c.aweId(sender)] == sender
                  && h in n.pending && Finalizable(c, n.state, n.pending[h]) && cert.height == n.pending[h].header.height
                  && |Supporters(c, validators, Entry(n.pending[h], cert))| >= Required(|validators|))
            && (r.committed == [] ==> r.node == n && r.answer.Err?)
            && (r.committed != [] ==>
                  && r.committed == [Entry(n.pending[h], cert)]
                  && r.node.state.height == cert.height && r.node.state.tip == h
                  && Settled(n, r, h, diskOk, []))
  {
    if IsValidatorKey(c, validators, sender) && cert.blockHash in n.pending {
      var e := Entry(n.pending[cert.blockHash], cert);
      assert PendingOk(c, validators, cert.blockHash, e.block);
      FinalizesExactly(c, validators, n.state, cert.blockHash, e);
      if Finalize(c, validators, n.state, e.block, cert).Ok? {
        FinalizeSettles(c, validators, n, e, diskOk, []);
      }
    }
    hide TablesOk, Finalize, Finalizable, Supporters, Settled, Execute;
  }

  // ---- what is pending ----

  /** No pending block lies beyond the next height, and those at the next height extend the tip. */
  ghost predicate PendingInReach(n: Node) {
    n.state.height < U64_MAX ==>
      forall h :: h in n.pending ==>
        && 1 <= n.pending[h].header.height <= n.state.height + 1
        && (n.pending[h].header.height == n.state.height + 1 ==> n.pending[h].header.previousHash == n.state.tip)
  }

  lemma CommitRaises(c: Crypto, validators: Validators, me: Identity, n: Node, e: Event)
    ensures var r := Handle(c, validators, me, n, e);
            && (r.committed != [] ==> r.node.state.height == SatAdd64(n.state.height, 1))
            && (r.committed == [] ==> r.node.state == n.state)
  {
    HandleCommits(c, validators, me, n, e);
    hide Handle, Execute, ValidShape, ProposerVerifies, CertificateVerifies;
  }

  lemma PendingShrinks(c: Crypto, validators: Validators, me: Identity, n: Node, e: Event)
    requires !e.message.Proposal?
    ensures var r := Handle(c, validators, me, n, e);
            forall h :: h in r.node.pending ==> h in n.pending && r.node.pending[h] == n.pending[h]
  {
    hide Finalize, Validates, InOrder, Broadcast, CertificateVerifies, VoteVerifies;
  }

  lemma HandleKeepsReach(c: Crypto, validators: Validators, me: Identity, n: Node, e: Event)
    requires PendingInReach(n)
    ensures PendingInReach(Handle(c, validators, me, n, e).node)
  {
    CommitRaises(c, validators, me, n, e);
    match e.message
    case Proposal(b) =>
      ProposalExactly(c, validators, me, n, e.sender, b, e.diskOk);
      hide Handle, WellFormed;
    case _ =>
      PendingShrinks(c, validators, me, n, e);
      hide Handle;
  }

  /** In every reachable node. */
  lemma {:induction false} RunKeepsReach(
      c: Crypto, validators: Validators, me: Identity, l0: Ledger, events: seq<Event>)
    ensures PendingInReach(RunNode(c, validators, me, l0, events).node)
  {
    hide Handle;
    if events != [] {
      RunKeepsReach(c, validators, me, l0, events[..|events| - 1]);
      HandleKeepsReach(
        c, validators, me, RunNode(c, validators, me, l0, events[..|events| - 1]).node, events[|events| - 1]);
    }
  }
}
