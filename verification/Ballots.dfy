/** What each message does to a node, to the point: which ballots finalize a block, and exactly when. */
module Ballots {
  import opened Prelude
  import opened Sorting
  import opened Quorum
  import opened Onecoin
  import opened Conservation
  import opened Consensus
  import opened ChainSafety
  import opened Runtime
  import opened Certified
  import opened Authorization

  // ---- certificates and the quorum ----

  /** The announcement: the certificate once for every validator, to that validator's key. */
  ghost predicate Announced(validators: Validators, cert: Certificate, answer: seq<(Key, Message)>) {
    && |answer| == |validators|
    && (forall id :: id in validators ==> (validators[id], Certified(cert)) in answer)
    && forall a :: a in answer ==> a.1 == Certified(cert) && exists id :: id in validators && a.0 == validators[id]
  }

  lemma BroadcastAnnounces(validators: Validators, cert: Certificate)
    ensures Announced(validators, cert, Broadcast(validators, cert))
  {
    var keys, peers, answer := SortedKeys(validators.Keys), InOrder(validators), Broadcast(validators, cert);
    SortedKeysContents(validators.Keys);
    assert |validators.Keys| == |validators|;
    forall id | id in validators
      ensures (validators[id], Certified(cert)) in answer
    {
      assert id in Elems(keys);
      var i :| 0 <= i < |keys| && keys[i] == id;
      assert answer[i] == (validators[id], Certified(cert));
    }
    forall a | a in answer
      ensures a.1 == Certified(cert) && exists id :: id in validators && a.0 == validators[id]
    {
      var i :| 0 <= i < |answer| && answer[i] == a;
      assert keys[i] in Elems(keys);
    }
  }

  lemma SupportersApprove(c: Crypto, validators: Validators, e: Entry)
    requires e.cert.blockHash == BlockHash(c, e.block) && e.cert.height == e.block.header.height
    ensures Approvers(c, validators, e.cert) == Supporters(c, validators, e)
  {
    ApproversSupport(c, validators, e);
    forall id | id in Supporters(c, validators, e)
      ensures id in Approvers(c, validators, e.cert)
    {
      var v :| v in e.cert.votes && SignedApproval(c, validators, e.block, id, v);
      assert Approves(c, validators, e.cert, v);
    }
  }

  /** A pending block is finalized by exactly the certificates of signed approvals by a quorum, on top of the tip, if it
      executes; the new state is the executed one. */
  lemma FinalizesExactly(c: Crypto, validators: Validators, st: Finalized, h: Digest, e: Entry)
    requires PendingOk(c, validators, h, e.block)
    ensures var r := Finalize(c, validators, st, e.block, e.cert);
            && (r.Ok? <==>
                  && Finalizable(c, st, e.block) && e.cert.blockHash == h && e.cert.height == e.block.header.height
                  && validators != map[] && |Supporters(c, validators, e)| >= Required(|validators|))
            && (r.Ok? ==>
                  r.value == Finalized(Execute(c, st.ledger, e.block.transactions).value, e.block.header.height, h))
  {
    hide ValidShape, ProposerVerifies, Execute, Supporters, Approvers;
    assert |validators| == 0 <==> validators == map[];
    if e.cert.blockHash == BlockHash(c, e.block) && e.cert.height == e.block.header.height {
      SupportersApprove(c, validators, e);
    }
  }

  /** What becomes of a node that finalized: saved, it forgets the block and its votes; not saved, it keeps both. */
  ghost predicate Settled(n: Node, after: Reaction, h: Digest, diskOk: bool, answer: seq<(Key, Message)>) {
    if Validates(after.node.state.ledger) && diskOk
    then after.answer == Ok(answer) && after.node.pending == n.pending - {h} && after.node.votes == n.votes - {h}
    else after.answer.Err? && after.node.pending == n.pending && after.node.votes == n.votes
  }

  // ---- votes ----

  /** A ballot the node takes: from a validator, by itself, signed, for a pending block at its height, with room. */
  ghost predicate Counted(c: Crypto, validators: Validators, n: Node, sender: Key, v: Vote) {
    && c.aweId(sender) in validators && validators[c.aweId(sender)] == sender
    && v.voter == c.aweId(sender) && c.verifies(sender, VoteBody(v.(signature := 0)), v.signature)
    && v.blockHash in n.pending && n.pending[v.blockHash].header.height == v.height
    && (|Runtime.Ballots(n, v.blockHash)| < 4096 || v.voter in Runtime.Ballots(n, v.blockHash))
  }

  ghost function Polled(n: Node, v: Vote): map<AweId, Vote> {
    Runtime.Ballots(n, v.blockHash)[v.voter := v]
  }

  ghost function Ayes(ballots: map<AweId, Vote>): set<AweId> {
    set id | id in ballots && ballots[id].approve
  }

  lemma InOrderHas<V>(m: map<nat, V>, k: nat)
    requires k in m
    ensures m[k] in InOrder(m)
  {
    SortedKeysContents(m.Keys);
    var keys := SortedKeys(m.Keys);
    assert k in Elems(keys);
    var i :| 0 <= i < |keys| && keys[i] == k;
    assert InOrder(m)[i] == m[k];
  }

  /** The ballots of a block, made into a certificate, count exactly the ayes. */
  lemma AyesSupport(c: Crypto, validators: Validators, b: Block, h: Digest, ballots: map<AweId, Vote>)
    requires BlockHash(c, b) == h
    requires forall id :: id in ballots ==> VoteOk(c, validators, b, h, id, ballots[id])
    ensures Supporters(c, validators, Entry(b, Certificate(h, b.header.height, InOrder(ballots)))) == Ayes(ballots)
  {
    var e := Entry(b, Certificate(h, b.header.height, InOrder(ballots)));
    forall id | id in Ayes(ballots)
      ensures id in Supporters(c, validators, e)
    {
      InOrderHas(ballots, id);
      assert SignedApproval(c, validators, b, id, ballots[id]);
    }
    hide InOrder;
    forall id | id in Supporters(c, validators, e)
      ensures id in Ayes(ballots)
    {
      var v :| v in e.cert.votes && SignedApproval(c, validators, b, id, v);
      InOrderValues(ballots, v);
      var k :| k in ballots && ballots[k] == v;
      assert k == v.voter == id;
    }
  }

  /** Exactly this pending block is committed, with the certificate of these ballots, which verifies and is announced. */
  ghost predicate CommitsBy(
      c: Crypto, validators: Validators, n: Node, r: Reaction, h: Digest, ballots: map<AweId, Vote>, diskOk: bool)
    requires h in n.pending
  {
    var b := n.pending[h];
    var cert := Certificate(h, b.header.height, InOrder(ballots));
    && r.committed == [Entry(b, cert)]
    && CertificateVerifies(c, validators, cert, h, b.header.height).Ok?
    && Execute(c, n.state.ledger, b.transactions).Ok?
    && r.node.state == Finalized(Execute(c, n.state.ledger, b.transactions).value, b.header.height, h)
    && exists answer :: Announced(validators, cert, answer) && Settled(n, r, h, diskOk, answer)
  }

  /** The certificate made of a block's ballots verifies exactly when the ayes are a quorum. */
  lemma BallotsCertify(c: Crypto, validators: Validators, b: Block, h: Digest, ballots: map<AweId, Vote>)
    requires BlockHash(c, b) == h && validators != map[]
    requires forall id :: id in ballots ==> VoteOk(c, validators, b, h, id, ballots[id])
    ensures var cert := Certificate(h, b.header.height, InOrder(ballots));
            && (CertificateVerifies(c, validators, cert, h, b.header.height).Ok?
                <==> |Ayes(ballots)| >= Required(|validators|))
            && Supporters(c, validators, Entry(b, cert)) == Ayes(ballots)
  {
    AyesSupport(c, validators, b, h, ballots);
    SupportersApprove(c, validators, Entry(b, Certificate(h, b.header.height, InOrder(ballots))));
    assert |validators| > 0;
    hide VoteOk, Supporters, Approvers, Ayes, InOrder;
  }

  lemma CountRefuses(c: Crypto, validators: Validators, n: Node, h: Digest, diskOk: bool)
    requires TablesOk(c, validators, n) && h in n.pending && h in n.votes && validators != map[]
    requires |Ayes(n.votes[h])| < Required(|validators|) || !Finalizable(c, n.state, n.pending[h])
    ensures var r := CountBallots(c, validators, n, h, diskOk);
            && r.committed == [] && r.node == n
            && if |Ayes(n.votes[h])| >= Required(|validators|) then r.answer.Err? else r.answer == Ok([])
  {
    var b, ballots := n.pending[h], n.votes[h];
    var cert := Certificate(h, b.header.height, InOrder(ballots));
    assert PendingOk(c, validators, h, b);
    BallotsCertify(c, validators, b, h, ballots);
    FinalizesExactly(c, validators, n.state, h, Entry(b, cert));
    hide TablesOk, Supporters, Ayes, Finalizable, Finalize, Broadcast, InOrder, VoteOk, CertificateVerifies, Execute;
    hide ValidShape, ProposerVerifies;
  }

  lemma FinalizeSettles(
      c: Crypto, validators: Validators, n: Node, e: Entry, diskOk: bool, answer: seq<(Key, Message)>)
    requires Finalize(c, validators, n.state, e.block, e.cert).Ok?
    ensures var r := FinalizeEntry(c, validators, n, e, diskOk, answer);
            && r.committed == [e] && r.node.state == Finalize(c, validators, n.state, e.block, e.cert).value
            && Settled(n, r, e.cert.blockHash, diskOk, answer)
  {
    hide Finalize, Validates;
  }

  lemma CountCommits(c: Crypto, validators: Validators, n: Node, h: Digest, diskOk: bool)
    requires TablesOk(c, validators, n) && h in n.pending && h in n.votes && validators != map[]
    requires |Ayes(n.votes[h])| >= Required(|validators|) && Finalizable(c, n.state, n.pending[h])
    ensures CommitsBy(c, validators, n, CountBallots(c, validators, n, h, diskOk), h, n.votes[h], diskOk)
  {
    var b, ballots := n.pending[h], n.votes[h];
    var cert := Certificate(h, b.header.height, InOrder(ballots));
    var answer := Broadcast(validators, cert);
    assert PendingOk(c, validators, h, b) && BlockHash(c, b) == h;
    assert Execute(c, n.state.ledger, b.transactions).Ok?;
    hide ValidShape, ProposerVerifies, Supporters, Ayes, Finalize, Broadcast, InOrder, CertificateVerifies, Execute;
    hide Announced, Settled, FinalizeEntry, BlockHash;
    BallotsCertify(c, validators, b, h, ballots);
    FinalizesExactly(c, validators, n.state, h, Entry(b, cert));
    FinalizeSettles(c, validators, n, Entry(b, cert), diskOk, answer);
    BroadcastAnnounces(validators, cert);
    hide TablesOk, PendingOk, Finalizable, VoteOk;
    assert CountBallots(c, validators, n, h, diskOk) == FinalizeEntry(c, validators, n, Entry(b, cert), diskOk, answer);
  }

  lemma CountedGoesOn(c: Crypto, validators: Validators, me: Identity, n: Node, sender: Key, v: Vote, diskOk: bool)
    requires Counted(c, validators, n, sender, v)
    ensures Handle(c, validators, me, n, Event(sender, CastVote(v), diskOk))
         == CountBallots(c, validators, n.(votes := n.votes[v.blockHash := Polled(n, v)]), v.blockHash, diskOk)
  {
    hide CountBallots, Runtime.Ballots;
  }

  lemma UncountedStops(c: Crypto, validators: Validators, me: Identity, n: Node, sender: Key, v: Vote, diskOk: bool)
    requires !Counted(c, validators, n, sender, v)
    ensures var r := Handle(c, validators, me, n, Event(sender, CastVote(v), diskOk));
            r.node == n && r.committed == [] && r.answer.Err?
  {
    hide CountBallots, Runtime.Ballots;
  }

  /** One vote, exactly. It finalizes a block if and only if it is counted, the ayes with it are a quorum, and the block
      extends the tip and executes. Then exactly that block is committed, with a verifying certificate that is announced
      to every validator once saved. Otherwise nothing is committed, and all that can change is that it is on record. */
  lemma VoteExactly(c: Crypto, validators: Validators, me: Identity, n: Node, sender: Key, v: Vote, diskOk: bool)
    requires TablesOk(c, validators, n)
    ensures var r := Handle(c, validators, me, n, Event(sender, CastVote(v), diskOk));
            var counted := Counted(c, validators, n, sender, v);
            var h, ballots := v.blockHash, Polled(n, v);
            var quorum := |Ayes(ballots)| >= Required(|validators|);
            var polled := n.(votes := n.votes[h := ballots]);
            && (r.committed != [] <==> counted && quorum && Finalizable(c, n.state, n.pending[h]))
            && (r.committed == [] ==>
                  && r.node == (if counted then polled else n)
                  && (r.answer.Ok? <==> counted && !quorum) && (r.answer.Ok? ==> r.answer.value == []))
            && (r.committed != [] ==>
                  CommitsBy(c, validators, polled, r, h, ballots, diskOk))
  {
    var h, ballots := v.blockHash, Polled(n, v);
    if !Counted(c, validators, n, sender, v) {
      UncountedStops(c, validators, me, n, sender, v, diskOk);
    } else {
      var polled := n.(votes := n.votes[h := ballots]);
      CountedGoesOn(c, validators, me, n, sender, v, diskOk);
      BallotKeepsTables(c, validators, n, v);
      assert validators != map[];
      hide TablesOk, CountBallots, Ayes, Finalizable, CommitsBy, Handle, Counted, Polled;
      if |Ayes(ballots)| >= Required(|validators|) && Finalizable(c, n.state, n.pending[h]) {
        CountCommits(c, validators, polled, h, diskOk);
        CommitsSome(c, validators, polled, CountBallots(c, validators, polled, h, diskOk), h, ballots, diskOk);
      } else {
        CountRefuses(c, validators, polled, h, diskOk);
      }
    }
  }

  lemma CommitsSome(
      c: Crypto, validators: Validators, n: Node, r: Reaction, h: Digest, ballots: map<AweId, Vote>, diskOk: bool)
    requires h in n.pending && CommitsBy(c, validators, n, r, h, ballots, diskOk)
    ensures r.committed != []
  {
  }
}
