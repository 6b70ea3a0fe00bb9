/** Approvals delivered one after another: whether, and when, they finalize a block. */
module Polls {
  import opened Prelude
  import opened Quorum
  import opened Onecoin
  import opened Consensus
  import opened Agreement
  import opened Runtime
  import opened Certified
  import opened Progress
  import opened Authorization
  import opened Ballots
  import opened Conservation

  /** Each vote comes from its voter's key; the disk may fail at any of them. */
  ghost predicate Delivers(validators: Validators, events: seq<Event>, votes: seq<Vote>) {
    && |events| == |votes|
    && forall i :: 0 <= i < |votes| ==>
         votes[i].voter in validators && events[i].sender == validators[votes[i].voter]
         && events[i].message == CastVote(votes[i])
  }

  ghost predicate AllApprove(c: Crypto, validators: Validators, b: Block, votes: seq<Vote>) {
    forall i :: 0 <= i < |votes| ==>
      votes[i].voter in validators && SignedApproval(c, validators, b, votes[i].voter, votes[i])
  }

  function Voters(votes: seq<Vote>): set<AweId> {
    set v | v in votes :: v.voter
  }

  lemma VotersStep(votes: seq<Vote>, last: Vote)
    ensures Voters(votes + [last]) == Voters(votes) + {last.voter}
  {
    assert forall v :: v in votes + [last] <==> v in votes || v == last;
  }

  // ---- before the quorum ----

  /** So far nothing is finalized; the ballots on record are approvals by the voters so far, all of them while there is
      room for them. */
  ghost predicate Waiting(t: Trace, start: Trace, h: Digest, voters: set<AweId>) {
    var ballots := Runtime.Ballots(t.node, h);
    && t.chain == start.chain && t.node.state == start.node.state && t.node.pending == start.node.pending
    && (forall id :: id in ballots ==> ballots[id].approve)
    && ballots.Keys <= voters && |ballots| == Min(|voters|, MAX_VOTES_PER_BLOCK)
  }

  lemma AllAyes(ballots: map<AweId, Vote>)
    requires forall id :: id in ballots ==> ballots[id].approve
    ensures Ayes(ballots) == ballots.Keys && |Ayes(ballots)| == |ballots|
  {
    assert Ayes(ballots) == ballots.Keys;
    assert |ballots.Keys| == |ballots|;
  }

  /** One more approval on record, if there is room for it. */
  lemma BallotAdded(ballots: map<AweId, Vote>, v: Vote, voters: set<AweId>)
    requires ballots.Keys <= voters && |ballots| == Min(|voters|, MAX_VOTES_PER_BLOCK) && v.approve
    requires forall id :: id in ballots ==> ballots[id].approve
    ensures var more, all := ballots[v.voter := v], voters + {v.voter};
            && (|ballots| < MAX_VOTES_PER_BLOCK || v.voter in ballots ==>
                  && more.Keys <= all && |more| == Min(|all|, MAX_VOTES_PER_BLOCK)
                  && (forall id :: id in more ==> more[id].approve) && |Ayes(more)| == Min(|all|, MAX_VOTES_PER_BLOCK))
            && (!(|ballots| < MAX_VOTES_PER_BLOCK || v.voter in ballots) ==>
                  ballots.Keys <= all && |ballots| == Min(|all|, MAX_VOTES_PER_BLOCK) == MAX_VOTES_PER_BLOCK)
  {
    var more, all := ballots[v.voter := v], voters + {v.voter};
    assert |ballots.Keys| == |ballots| && |more.Keys| == |more|;
    SubsetSize(ballots.Keys, voters);
    SubsetSize(voters, all);
    if v.voter in ballots {
      assert more.Keys == ballots.Keys && all == voters;
    } else {
      assert more.Keys == ballots.Keys + {v.voter};
      if |ballots| < MAX_VOTES_PER_BLOCK {
        assert ballots.Keys == voters;
      }
    }
    if |ballots| < MAX_VOTES_PER_BLOCK || v.voter in ballots {
      AllAyes(more);
    }
  }

  // ---- after it ----

  /** The block is on the chain, and cannot be finalized a second time. */
  ghost predicate Done(c: Crypto, t: Trace, start: Trace, h: Digest, b: Block) {
    && |t.chain| == |start.chain| + 1 && t.chain[..|start.chain|] == start.chain && t.chain[|start.chain|].block == b
    && !Finalizable(c, t.node.state, b)
    && (h in t.node.pending ==> t.node.pending[h] == b)
  }

  /** A block below the last height, or one that is not its own parent, cannot follow itself. */
  ghost predicate Singular(c: Crypto, b: Block) {
    b.header.height < U64_MAX || b.header.previousHash != BlockHash(c, b)
  }

  lemma NotTwice(c: Crypto, st: Finalized, after: Finalized, b: Block)
    requires Finalizable(c, st, b) && Singular(c, b)
    requires after.height == b.header.height && after.tip == BlockHash(c, b)
    ensures !Finalizable(c, after, b)
  {
    hide Execute, BlockHash;
  }

  /** The situation in which the poll is taken: the block is pending, extends the tip and executes. */
  ghost predicate Ready(c: Crypto, validators: Validators, start: Trace, h: Digest, b: Block) {
    && CollisionFree(c) && TablesOk(c, validators, start.node) && validators != map[]
    && h in start.node.pending && start.node.pending[h] == b && BlockHash(c, b) == h
    && Finalizable(c, start.node.state, b) && Singular(c, b)
  }

  /** A quorum has approved, and its ballots fit. */
  predicate Carried(validators: Validators, voters: set<AweId>) {
    Required(|validators|) <= |voters| && Required(|validators|) <= MAX_VOTES_PER_BLOCK
  }

  ghost predicate Polled(
      c: Crypto, validators: Validators, start: Trace, t: Trace, h: Digest, b: Block, voters: set<AweId>)
  {
    if Carried(validators, voters) then Done(c, t, start, h, b) else Waiting(t, start, h, voters)
  }

  // ---- one vote ----

  lemma VoteWhileWaiting(
      c: Crypto, validators: Validators, me: Identity, start: Trace, t: Trace, h: Digest, b: Block,
      voters: set<AweId>, v: Vote, diskOk: bool)
    requires Ready(c, validators, start, h, b) && TablesOk(c, validators, t.node) && Waiting(t, start, h, voters)
    requires v.voter in validators && SignedApproval(c, validators, b, v.voter, v)
    requires !Carried(validators, voters)
    ensures var r := Handle(c, validators, me, t.node, Event(validators[v.voter], CastVote(v), diskOk));
            Polled(c, validators, start, Trace(r.node, t.chain + r.committed), h, b, voters + {v.voter})
  {
    hide TablesOk, Handle, Finalizable, Ayes, CollisionFree, CommitsBy, Required;
    var ballots := Runtime.Ballots(t.node, h);
    BallotAdded(ballots, v, voters);
    VoteExactly(c, validators, me, t.node, validators[v.voter], v, diskOk);
    var r := Handle(c, validators, me, t.node, Event(validators[v.voter], CastVote(v), diskOk));
    assert v.blockHash == h && Ballots.Polled(t.node, v) == ballots[v.voter := v];
    if r.committed != [] {
      var polled := t.node.(votes := t.node.votes[h := Ballots.Polled(t.node, v)]);
      CommittedFacts(c, validators, polled, r, h, Ballots.Polled(t.node, v), diskOk);
      NotTwice(c, start.node.state, r.node.state, b);
      assert (t.chain + r.committed)[..|start.chain|] == start.chain;
    } else {
      assert t.chain + r.committed == t.chain;
    }
  }

  lemma CommittedFacts(
      c: Crypto, validators: Validators, n: Node, r: Reaction, h: Digest, ballots: map<AweId, Vote>, diskOk: bool)
    requires h in n.pending && CommitsBy(c, validators, n, r, h, ballots, diskOk)
    ensures |r.committed| == 1 && r.committed[0].block == n.pending[h]
    ensures r.node.state.height == n.pending[h].header.height && r.node.state.tip == h
    ensures h in r.node.pending ==> r.node.pending[h] == n.pending[h]
  {
    hide Validates, CertificateVerifies, Announced, InOrder, Execute;
  }

  lemma VoteWhenDone(
      c: Crypto, validators: Validators, me: Identity, start: Trace, t: Trace, h: Digest, b: Block, v: Vote, diskOk: bool)
    requires TablesOk(c, validators, t.node) && Done(c, t, start, h, b) && v.voter in validators && v.blockHash == h
    ensures var r := Handle(c, validators, me, t.node, Event(validators[v.voter], CastVote(v), diskOk));
            Done(c, Trace(r.node, t.chain + r.committed), start, h, b)
  {
    VoteExactly(c, validators, me, t.node, validators[v.voter], v, diskOk);
    hide TablesOk, Handle, Finalizable, Ayes, CommitsBy;
    var r := Handle(c, validators, me, t.node, Event(validators[v.voter], CastVote(v), diskOk));
    assert r.committed == [];
    assert t.chain + [] == t.chain;
  }

  /** One more approval keeps the score, whether the block is still waiting or done. */
  lemma NextApproval(
      c: Crypto, validators: Validators, me: Identity, start: Trace, t: Trace, h: Digest, b: Block,
      voters: set<AweId>, v: Vote, diskOk: bool)
    requires Ready(c, validators, start, h, b) && TablesOk(c, validators, t.node)
    requires Polled(c, validators, start, t, h, b, voters)
    requires v.voter in validators && SignedApproval(c, validators, b, v.voter, v)
    ensures var r := Handle(c, validators, me, t.node, Event(validators[v.voter], CastVote(v), diskOk));
            && Polled(c, validators, start, Trace(r.node, t.chain + r.committed), h, b, voters + {v.voter})
            && TablesOk(c, validators, r.node)
  {
    hide TablesOk, Handle, Waiting, Done, CollisionFree, Finalizable, Singular;
    HandleKeepsTables(c, validators, me, t.node, Event(validators[v.voter], CastVote(v), diskOk));
    SubsetSize(voters, voters + {v.voter});
    if Carried(validators, voters) {
      VoteWhenDone(c, validators, me, start, t, h, b, v, diskOk);
    } else {
      VoteWhileWaiting(c, validators, me, start, t, h, b, voters, v, diskOk);
    }
  }

  // ---- runs ----

  lemma ReadyTables(c: Crypto, validators: Validators, start: Trace, h: Digest, b: Block)
    requires Ready(c, validators, start, h, b)
    ensures TablesOk(c, validators, start.node)
  {
  }

  lemma StartWaiting(c: Crypto, validators: Validators, start: Trace, h: Digest, b: Block)
    requires Ready(c, validators, start, h, b) && h !in start.node.votes
    ensures Polled(c, validators, start, start, h, b, {})
  {
    hide CollisionFree, TablesOk, Finalizable;
    assert |validators| > 0;
    RequiredPositive(|validators|);
  }

  /** A poll is taken: the approvals and their delivery. */
  ghost predicate Poll(c: Crypto, validators: Validators, b: Block, votes: seq<Vote>, events: seq<Event>) {
    AllApprove(c, validators, b, votes) && Delivers(validators, events, votes)
  }

  lemma PollPrefix(c: Crypto, validators: Validators, b: Block, votes: seq<Vote>, events: seq<Event>)
    requires Poll(c, validators, b, votes, events) && votes != []
    ensures |events| == |votes|
    ensures var last := |votes| - 1;
            var v := votes[last];
            && Poll(c, validators, b, votes[..last], events[..last])
            && v.voter in validators && SignedApproval(c, validators, b, v.voter, v)
            && events[last] == Event(validators[v.voter], CastVote(v), events[last].diskOk)
  {
    hide SignedApproval;
  }

  lemma NobodyPolled(c: Crypto, validators: Validators, b: Block, events: seq<Event>)
    requires Poll(c, validators, b, [], events)
    ensures events == [] && Voters([]) == {}
  {
  }

  /** The score after all events but the last gives the score after all of them. */
  lemma PollStep(
      c: Crypto, validators: Validators, me: Identity, start: Trace, t: Trace, h: Digest, b: Block,
      votes: seq<Vote>, events: seq<Event>)
    requires Ready(c, validators, start, h, b) && votes != [] && TablesOk(c, validators, t.node)
    requires Poll(c, validators, b, votes, events)
    requires Polled(c, validators, start, t, h, b, Voters(votes[..|votes| - 1])) && |events| == |votes|
    ensures var r := Handle(c, validators, me, t.node, events[|events| - 1]);
            && TablesOk(c, validators, r.node)
            && Polled(c, validators, start, Trace(r.node, t.chain + r.committed), h, b, Voters(votes))
  {
    hide TablesOk, Handle, Polled, Ready, SignedApproval, Voters, Poll;
    PollPrefix(c, validators, b, votes, events);
    var last := |votes| - 1;
    VotersStep(votes[..last], votes[last]);
    assert votes == votes[..last] + [votes[last]];
    NextApproval(c, validators, me, start, t, h, b, Voters(votes[..last]), votes[last], events[last].diskOk);
  }

  lemma ContinueLast(c: Crypto, validators: Validators, me: Identity, t: Trace, events: seq<Event>)
    requires events != []
    ensures var before := Continue(c, validators, me, t, events[..|events| - 1]);
            var r := Handle(c, validators, me, before.node, events[|events| - 1]);
            Continue(c, validators, me, t, events) == Trace(r.node, before.chain + r.committed)
  {
    hide Handle;
  }

  lemma {:induction false} PollRun(
      c: Crypto, validators: Validators, me: Identity, start: Trace, h: Digest, b: Block, votes: seq<Vote>,
      events: seq<Event>)
    requires Ready(c, validators, start, h, b) && h !in start.node.votes
    requires Poll(c, validators, b, votes, events)
    ensures var after := Continue(c, validators, me, start, events);
            TablesOk(c, validators, after.node) && Polled(c, validators, start, after, h, b, Voters(votes))
  {
    hide TablesOk, Handle, Polled, Ready, SignedApproval, Voters, Poll;
    ReadyTables(c, validators, start, h, b);
    if votes == [] {
      StartWaiting(c, validators, start, h, b);
      NobodyPolled(c, validators, b, events);
    } else {
      hide Continue;
      var last := |votes| - 1;
      PollPrefix(c, validators, b, votes, events);
      PollRun(c, validators, me, start, h, b, votes[..last], events[..last]);
      PollStep(c, validators, me, start, Continue(c, validators, me, start, events[..last]), h, b, votes, events);
      ContinueLast(c, validators, me, start, events);
    }
  }

  lemma RequiredPositive(n: nat)
    ensures n > 0 ==> Required(n) > 0
  {
  }

  /** Ballots finalize, exactly. A pending block that extends the tip and executes, with no ballot cast yet, goes on the
      chain through approvals delivered one by one, in any order and with any repetition, if and only if they come from a
      quorum and a quorum's ballots fit the table. Exactly that block is then added, and short of it nothing is. */
  lemma {:induction false} BallotsFinalizeExactly(
      c: Crypto, validators: Validators, me: Identity, start: Trace, h: Digest, b: Block, votes: seq<Vote>,
      events: seq<Event>)
    requires Ready(c, validators, start, h, b) && h !in start.node.votes
    requires Poll(c, validators, b, votes, events)
    ensures Blocks(Continue(c, validators, me, start, events).chain)
         == Blocks(start.chain) + if Carried(validators, Voters(votes)) then [b] else []
  {
    hide TablesOk, Continue, Ready, Voters, Poll, Polled, Carried;
    PollRun(c, validators, me, start, h, b, votes, events);
    PolledBlocks(c, validators, start, Continue(c, validators, me, start, events), h, b, Voters(votes));
  }

  lemma PolledBlocks(
      c: Crypto, validators: Validators, start: Trace, t: Trace, h: Digest, b: Block, voters: set<AweId>)
    requires Polled(c, validators, start, t, h, b, voters)
    ensures Blocks(t.chain) == Blocks(start.chain) + if Carried(validators, voters) then [b] else []
  {
    hide Finalizable, Carried;
    if Carried(validators, voters) {
      assert forall i :: 0 <= i < |start.chain| ==> t.chain[i] == t.chain[..|start.chain|][i];
    } else {
      assert Blocks(start.chain) + [] == Blocks(start.chain);
    }
  }

  /** A quorum's ballots fit the table of 4096 for exactly the validator sets of up to 6144. */
  lemma QuorumFitsTable(n: nat)
    ensures Required(n) <= MAX_VOTES_PER_BLOCK <==> n <= 6_144
  {
  }
}
