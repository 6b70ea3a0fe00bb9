/** How many validators it takes to fork two nodes: exactly 2q - n of them. */
module Forks {
  import opened Prelude
  import opened Quorum
  import opened Onecoin
  import opened Ledger
  import opened Consensus
  import opened ChainSafety
  import opened Agreement
  import opened Runtime
  import opened Certified
  import opened Progress

  lemma {:induction false} SubsetOfSize<T>(s: set<T>, k: nat) returns (t: set<T>)
    requires k <= |s|
    ensures t <= s && |t| == k
  {
    if k == 0 {
      t := {};
    } else {
      var x :| x in s;
      var rest := SubsetOfSize(s - {x}, k - 1);
      t := rest + {x};
    }
  }

  /** Two quorums that share no more validators than any two must. */
  lemma LeastOverlap<T>(validators: set<T>) returns (a: set<T>, b: set<T>)
    ensures a <= validators && |a| == Required(|validators|)
    ensures b <= validators && |b| == Required(|validators|)
    ensures |a * b| == Max(Overlap(|validators|), 0)
  {
    var n, q := |validators|, Required(|validators|);
    RequiredFits(n);
    a := SubsetOfSize(validators, q);
    var rest := validators - a;
    assert |rest| == n - q;
    if n - q <= q {
      var shared := SubsetOfSize(a, q - (n - q));
      b := rest + shared;
      assert a * b == shared;
    } else {
      b := SubsetOfSize(rest, q);
      assert a * b == {};
    }
  }

  // ---- a node that is led to a block ----

  function FirstBlock(c: Crypto, proposer: Identity, l0: Ledger, time: u64): Block {
    NextBlock(c, proposer, Origin(l0), [], time)
  }

  /** The block is proposed, then its certificate delivered. */
  function Lead(c: Crypto, who: Signers, proposer: Identity, l0: Ledger, signers: set<AweId>, time: u64): seq<Event>
    requires signers <= who.Keys
  {
    var b := FirstBlock(c, proposer, l0, time);
    [Event(proposer.key, Proposal(b), true), Event(proposer.key, Certified(Certify(c, who, signers, b)), true)]
  }

  lemma LeadSeen(c: Crypto, who: Signers, proposer: Identity, l0: Ledger, signers: set<AweId>, time: u64)
    requires signers <= who.Keys
    ensures Seen(Lead(c, who, proposer, l0, signers, time))
         == Elems(Certify(c, who, signers, FirstBlock(c, proposer, l0, time)).votes)
  {
    hide Certify, FirstBlock;
    var events := Lead(c, who, proposer, l0, signers, time);
    assert events[..1] == [events[0]] && events[..1][..0] == [];
    assert Seen(events[..1]) == {};
  }

  lemma LeadFinalizes(
      c: Crypto, validators: Validators, who: Signers, me: Identity, l0: Ledger, p: AweId, signers: set<AweId>,
      time: u64)
    requires CollisionFree(c) && SetUp(c, validators, who) && p in validators
    requires signers <= validators.Keys && |signers| >= Required(|validators|)
    ensures signers <= who.Keys
    ensures var b := FirstBlock(c, who[p], l0, time);
            RunNode(c, validators, me, l0, Lead(c, who, who[p], l0, signers, time)).chain
            == [Entry(b, Certify(c, who, signers, b))]
  {
    var st := Origin(l0);
    var b := FirstBlock(c, who[p], l0, time);
    Extends(c, validators, who, st, p, [], time);
    NextBlockSound(c, who[p], st, [], time);
    QuorumFinalizes(c, validators, who, st, b, signers);
    assert b.header.proposer == p && who[p].key == validators[p];
    hide FirstBlock, NextBlock, Finalizable, Finalize, PendingOk, SetUp, CollisionFree;
    var start := Trace(Node(st, map[], map[]), []);
    var cert := Certify(c, who, signers, b);
    hide Certify;
    var e, f := Event(validators[p], Proposal(b), true), Event(validators[p], Certified(cert), true);
    ProposalStored(c, validators, me, start.node, b, true);
    var proposed := Handle(c, validators, me, start.node, e).node;
    SetUpId(c, validators, who, p);
    CertificateCommits(c, validators, me, proposed, p, cert, true);
    hide Handle;
    RunContinues(c, validators, me, l0, [], [e, f]);
    assert [] + [e, f] == [e, f];
    ContinueTwo(c, validators, me, start, e, f);
  }

  lemma SetUpId(c: Crypto, validators: Validators, who: Signers, p: AweId)
    requires SetUp(c, validators, who) && p in validators
    ensures c.aweId(validators[p]) == p
  {
  }

  // ---- the fork ----

  /** Two certificates for different blocks at one height convict exactly the validators that signed both. */
  lemma ConvictsExactly(
      c: Crypto, validators: Validators, who: Signers, a: set<AweId>, b: set<AweId>, x: Block, y: Block)
    requires SetUp(c, validators, who) && a <= validators.Keys && b <= validators.Keys
    requires x.header.height == y.header.height && BlockHash(c, x) != BlockHash(c, y)
    ensures a <= who.Keys && b <= who.Keys
    ensures var seen := Elems(Certify(c, who, a, x).votes) + Elems(Certify(c, who, b, y).votes);
            Equivocators(c, validators, seen) == a * b
  {
    CertifyApprovers(c, validators, who, a, x);
    CertifyApprovers(c, validators, who, b, y);
    var cx, cy := Certify(c, who, a, x), Certify(c, who, b, y);
    SharedApproversEquivocate(c, validators, cx, cy);
    var seen := Elems(cx.votes) + Elems(cy.votes);
    forall id | id in Equivocators(c, validators, seen)
      ensures id in a * b
    {
      var v, w :| v in seen && w in seen && DoubleApproval(c, validators[id], v, w);
      if v in cx.votes && w in cy.votes {
        SignerOf(c, validators, who, a, x, id, v);
        SignerOf(c, validators, who, b, y, id, w);
      } else if v in cy.votes && w in cx.votes {
        SignerOf(c, validators, who, a, x, id, w);
        SignerOf(c, validators, who, b, y, id, v);
      } else if v in cx.votes {
        SignerOf(c, validators, who, a, x, id, v);
        SignerOf(c, validators, who, a, x, id, w);
      } else {
        SignerOf(c, validators, who, b, y, id, v);
        SignerOf(c, validators, who, b, y, id, w);
      }
    }
  }

  /** A vote of the certificate that verifies under a validator's key is that validator's. */
  lemma SignerOf(c: Crypto, validators: Validators, who: Signers, signers: set<AweId>, b: Block, id: AweId, v: Vote)
    requires SetUp(c, validators, who) && signers <= validators.Keys && signers <= who.Keys
    requires id in validators && v in Certify(c, who, signers, b).votes && VoteVerifies(c, v, validators[id])
    ensures id in signers && v.blockHash == BlockHash(c, b)
  {
    CertifyVotes(c, who, signers, b);
    var k :| k in signers && v == NewVote(c, who[k], b, true);
    OwnVoteVerifies(c, validators, who, k, b);
  }

  lemma FirstBlocksDiffer(c: Crypto, validators: Validators, who: Signers, l0: Ledger, p: AweId)
    requires CollisionFree(c) && SetUp(c, validators, who) && p in validators
    ensures var x, y := FirstBlock(c, who[p], l0, 0), FirstBlock(c, who[p], l0, 1);
            x != y && x.header.height == y.header.height && BlockHash(c, x) != BlockHash(c, y)
  {
    NextBlockSound(c, who[p], Origin(l0), [], 0);
    NextBlockSound(c, who[p], Origin(l0), [], 1);
    hide ValidShape, ProposerVerifies;
    HashesDiffer(c, FirstBlock(c, who[p], l0, 0), FirstBlock(c, who[p], l0, 1));
  }

  /** Whatever the validator set, two nodes can be forked by exactly max(2q - n, 0) double signers. */
  lemma LeastFork(c: Crypto, validators: Validators, who: Signers, l0: Ledger, me: Identity, you: Identity)
    returns (events: seq<Event>, others: seq<Event>)
    requires CollisionFree(c) && SetUp(c, validators, who)
    ensures var a := Blocks(RunNode(c, validators, me, l0, events).chain);
            var b := Blocks(RunNode(c, validators, you, l0, others).chain);
            !(a <= b) && !(b <= a)
    ensures |Equivocators(c, validators, Seen(events) + Seen(others))| == Max(Overlap(|validators|), 0)
  {
    var p :| p in validators;
    assert |validators.Keys| == |validators|;
    var a, b := LeastOverlap(validators.Keys);
    var x, y := FirstBlock(c, who[p], l0, 0), FirstBlock(c, who[p], l0, 1);
    FirstBlocksDiffer(c, validators, who, l0, p);
    LeadFinalizes(c, validators, who, me, l0, p, a, 0);
    LeadFinalizes(c, validators, who, you, l0, p, b, 1);
    LeadSeen(c, who, who[p], l0, a, 0);
    LeadSeen(c, who, who[p], l0, b, 1);
    ConvictsExactly(c, validators, who, a, b, x, y);
    events, others := Lead(c, who, who[p], l0, a, 0), Lead(c, who, who[p], l0, b, 1);
    hide RunNode, Seen, FirstBlock, Lead, Equivocators, Certify, SetUp, CollisionFree, BlockHash;
    assert Blocks([Entry(x, Certify(c, who, a, x))])[0] == x;
    assert Blocks([Entry(y, Certify(c, who, b, y))])[0] == y;
  }

  /** Any two nodes stay on one chain as long as the votes delivered to them convict at most `k` validators. */
  ghost predicate SafeWith(c: Crypto, validators: Validators, l0: Ledger, k: nat) {
    forall me, you, events, others ::
      |Equivocators(c, validators, Seen(events) + Seen(others))| <= k ==>
        var a := Blocks(RunNode(c, validators, me, l0, events).chain);
        var b := Blocks(RunNode(c, validators, you, l0, others).chain);
        a <= b || b <= a
  }

  /** The threshold is exact: nodes are safe from `k` double signers if and only if `k` is below 2q - n. */
  lemma ThresholdIsExact(c: Crypto, validators: Validators, who: Signers, l0: Ledger, k: nat)
    requires CollisionFree(c) && SetUp(c, validators, who)
    ensures SafeWith(c, validators, l0, k) <==> k < Overlap(|validators|)
  {
    var p :| p in validators;
    var me := who[p];
    hide RunNode, Seen, Equivocators, SetUp, CollisionFree, Blocks;
    if k < Overlap(|validators|) {
      forall we: Identity, you: Identity, events, others | |Equivocators(c, validators, Seen(events) + Seen(others))| <= k
        ensures var a := Blocks(RunNode(c, validators, we, l0, events).chain);
                var b := Blocks(RunNode(c, validators, you, l0, others).chain);
                a <= b || b <= a
      {
        NodesAgree(c, validators, l0, we, events, you, others);
      }
    } else {
      var events, others := LeastFork(c, validators, who, l0, me, me);
    }
  }
}
