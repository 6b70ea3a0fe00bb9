/** The consensus runtime of one node: what each message does to its finalized state, pending blocks and votes. */
module Runtime {
  import opened Prelude
  import opened Sorting
  import opened Quorum
  import opened Onecoin
  import opened Ledger
  import opened Conservation
  import opened Consensus
  import opened ChainSafety
  import opened Agreement

  const MAX_PENDING_BLOCKS: nat := 256
  const MAX_VOTES_PER_BLOCK: nat := 4096

  datatype Message = Proposal(block: Block) | CastVote(vote: Vote) | Certified(cert: Certificate)

  datatype RuntimeError =
    | SenderNotValidator | ProposerMismatch | NotExtending | TooManyPending
    | VoterMismatch | VoterNotValidator | BadVoteSignature | UnknownBlock | VoteHeightMismatch | TooManyVotes
    | NotSaved | Rejected(why: ConsensusError)

  /** What a node keeps in memory. */
  datatype Node = Node(state: Finalized, pending: map<Digest, Block>, votes: map<Digest, map<AweId, Vote>>)

  /** A message as it is delivered, and whether the disk accepts what the node may then have to save. */
  datatype Event = Event(sender: Key, message: Message, diskOk: bool)

  /** The node afterwards, its answer, and the block it finalized on the way, if any. */
  datatype Reaction = Reaction(node: Node, answer: Result<seq<(Key, Message)>, RuntimeError>, committed: seq<Entry>)

  // ---- values of a map in key order ----

  function InOrder<V>(m: map<nat, V>): seq<V> {
    var keys := SortedKeys(m.Keys);
    SortedKeysContents(m.Keys);
    assert forall i :: 0 <= i < |keys| ==> keys[i] in Elems(keys);
    seq(|keys|, i requires 0 <= i < |keys| => m[keys[i]])
  }

  // ---- the handlers ----

  function NewVote(c: Crypto, who: Identity, b: Block, approve: bool): Vote {
    var unsigned := Vote(BlockHash(c, b), b.header.height, c.aweId(who.key), approve, 0);
    unsigned.(signature := who.sign(VoteBody(unsigned)))
  }

  predicate IsValidatorKey(c: Crypto, validators: Validators, key: Key) {
    c.aweId(key) in validators && validators[c.aweId(key)] == key
  }

  function Refuse(n: Node, why: RuntimeError): Reaction {
    Reaction(n, Err(why), [])
  }

  /** Finalizing also saves; a state that could not be saved stays advanced in memory. */
  ghost function Persist(n: Node, st: Finalized, diskOk: bool, entry: Entry, answer: seq<(Key, Message)>): Reaction {
    if Validates(st.ledger) && diskOk then
      var hash := entry.cert.blockHash;
      Reaction(Node(st, n.pending - {hash}, n.votes - {hash}), Ok(answer), [entry])
    else
      Reaction(n.(state := st), Err(NotSaved), [entry])
  }

  ghost function FinalizeEntry(
      c: Crypto, validators: Validators, n: Node, entry: Entry, diskOk: bool, answer: seq<(Key, Message)>): Reaction
  {
    match Finalize(c, validators, n.state, entry.block, entry.cert)
    case Err(e) => Refuse(n, Rejected(e))
    case Ok(st) => Persist(n, st, diskOk, entry, answer)
  }

  function HandleProposal(c: Crypto, validators: Validators, me: Identity, n: Node, sender: Key, b: Block): Reaction {
    var shape := ValidShape(c, b);
    var hash := BlockHash(c, b);
    if shape.Err? then Refuse(n, Rejected(shape.error))
    else if b.header.proposer != c.aweId(sender) then Refuse(n, ProposerMismatch)
    else if b.header.proposer !in validators then Refuse(n, Rejected(ProposerNotValidator))
    else if !ProposerVerifies(c, b, validators[b.header.proposer]) then Refuse(n, Rejected(BadProposerSignature))
    else if b.header.height != WrapInc64(n.state.height) || b.header.previousHash != n.state.tip then Refuse(n, NotExtending)
    else if |n.pending| >= MAX_PENDING_BLOCKS && hash !in n.pending then Refuse(n, TooManyPending)
    else
      Reaction(
        n.(pending := n.pending[hash := b]),
        Ok(if IsValidatorKey(c, validators, me.key) then [(sender, CastVote(NewVote(c, me, b, true)))] else []),
        [])
  }

  function Ballots(n: Node, hash: Digest): map<AweId, Vote> {
    if hash in n.votes then n.votes[hash] else map[]
  }

  function Broadcast(validators: Validators, cert: Certificate): seq<(Key, Message)> {
    var peers := InOrder(validators);
    seq(|peers|, i requires 0 <= i < |peers| => (peers[i], Certified(cert)))
  }

  ghost function HandleVote(c: Crypto, validators: Validators, n: Node, sender: Key, v: Vote, diskOk: bool): Reaction {
    var ballots := Ballots(n, v.blockHash);
    if v.voter != c.aweId(sender) then Refuse(n, VoterMismatch)
    else if v.voter !in validators then Refuse(n, VoterNotValidator)
    else if !VoteVerifies(c, v, validators[v.voter]) then Refuse(n, BadVoteSignature)
    else if v.blockHash !in n.pending then Refuse(n, UnknownBlock)
    else if n.pending[v.blockHash].header.height != v.height then Refuse(n, VoteHeightMismatch)
    else if |ballots| >= MAX_VOTES_PER_BLOCK && v.voter !in ballots then Refuse(n, TooManyVotes)
    else CountBallots(c, validators, n.(votes := n.votes[v.blockHash := ballots[v.voter := v]]), v.blockHash, diskOk)
  }

  /** Once the ballots of a pending block form a quorum, the block is finalized and the certificate sent to everyone. */
  ghost function CountBallots(c: Crypto, validators: Validators, n: Node, hash: Digest, diskOk: bool): Reaction
    requires hash in n.pending && hash in n.votes
  {
    var b := n.pending[hash];
    var cert := Certificate(hash, b.header.height, InOrder(n.votes[hash]));
    if CertificateVerifies(c, validators, cert, BlockHash(c, b), b.header.height).Ok?
    then FinalizeEntry(c, validators, n, Entry(b, cert), diskOk, Broadcast(validators, cert))
    else Reaction(n, Ok([]), [])
  }

  ghost function HandleCertificate(c: Crypto, validators: Validators, n: Node, cert: Certificate, diskOk: bool): Reaction {
    if cert.blockHash !in n.pending then Refuse(n, UnknownBlock)
    else FinalizeEntry(c, validators, n, Entry(n.pending[cert.blockHash], cert), diskOk, [])
  }

  ghost function Handle(c: Crypto, validators: Validators, me: Identity, n: Node, e: Event): Reaction {
    if !IsValidatorKey(c, validators, e.sender) then Refuse(n, SenderNotValidator)
    else match e.message
      case Proposal(b) => HandleProposal(c, validators, me, n, e.sender, b)
      case CastVote(v) => HandleVote(c, validators, n, e.sender, v, e.diskOk)
      case Certified(cert) => HandleCertificate(c, validators, n, cert, e.diskOk)
  }

  // ---- the invariant of the tables ----

  ghost predicate PendingOk(c: Crypto, validators: Validators, hash: Digest, b: Block) {
    && BlockHash(c, b) == hash
    && ValidShape(c, b).Ok?
    && b.header.proposer in validators
    && ProposerVerifies(c, b, validators[b.header.proposer])
  }

  ghost predicate VoteOk(c: Crypto, validators: Validators, b: Block, hash: Digest, id: AweId, v: Vote) {
    && id in validators && v.voter == id && VoteVerifies(c, v, validators[id])
    && v.blockHash == hash && v.height == b.header.height
  }

  ghost predicate TablesOk(c: Crypto, validators: Validators, n: Node) {
    && n.votes.Keys <= n.pending.Keys
    && (forall h :: h in n.pending ==> PendingOk(c, validators, h, n.pending[h]))
    && (forall h, id :: h in n.votes && id in n.votes[h] ==> VoteOk(c, validators, n.pending[h], h, id, n.votes[h][id]))
    && |n.pending| <= MAX_PENDING_BLOCKS
    && (forall h :: h in n.votes ==> |n.votes[h]| <= MAX_VOTES_PER_BLOCK)
  }

  lemma FinalizeKeepsTables(
      c: Crypto, validators: Validators, n: Node, entry: Entry, diskOk: bool, answer: seq<(Key, Message)>)
    requires TablesOk(c, validators, n)
    ensures TablesOk(c, validators, FinalizeEntry(c, validators, n, entry, diskOk, answer).node)
  {
    hide Finalize, Validates, PendingOk, VoteOk;
    var r := FinalizeEntry(c, validators, n, entry, diskOk, answer).node;
    assert r.pending.Keys <= n.pending.Keys;
    SubsetSize(r.pending.Keys, n.pending.Keys);
    assert |r.pending| == |r.pending.Keys| && |n.pending| == |n.pending.Keys|;
  }

  lemma PendingUnique(c: Crypto, validators: Validators, hash: Digest, a: Block, b: Block)
    requires CollisionFree(c) && PendingOk(c, validators, hash, a) && PendingOk(c, validators, hash, b)
    ensures a == b
  {
    assert c.hash(BlockBytes(a)) == c.hash(BlockBytes(b));
  }

  lemma AddPendingKeepsTables(c: Crypto, validators: Validators, n: Node, hash: Digest, b: Block)
    requires CollisionFree(c) && TablesOk(c, validators, n) && PendingOk(c, validators, hash, b)
    requires |n.pending| < MAX_PENDING_BLOCKS || hash in n.pending
    ensures TablesOk(c, validators, n.(pending := n.pending[hash := b]))
  {
    hide VoteOk, PendingOk;
    var added := n.pending[hash := b];
    if hash in n.pending {
      PendingUnique(c, validators, hash, n.pending[hash], b);
      assert added == n.pending;
    } else {
      assert added.Keys == n.pending.Keys + {hash};
      assert |added| == |added.Keys| && |n.pending| == |n.pending.Keys|;
    }
  }

  lemma ProposalKeepsTables(c: Crypto, validators: Validators, me: Identity, n: Node, sender: Key, b: Block)
    requires CollisionFree(c) && TablesOk(c, validators, n)
    ensures TablesOk(c, validators, HandleProposal(c, validators, me, n, sender, b).node)
  {
    hide TablesOk, ValidShape, ProposerVerifies, NewVote;
    if HandleProposal(c, validators, me, n, sender, b).answer.Ok? {
      AddPendingKeepsTables(c, validators, n, BlockHash(c, b), b);
    }
  }

  lemma BallotKeepsTables(c: Crypto, validators: Validators, n: Node, v: Vote)
    requires TablesOk(c, validators, n) && v.blockHash in n.pending
    requires VoteOk(c, validators, n.pending[v.blockHash], v.blockHash, v.voter, v)
    requires |Ballots(n, v.blockHash)| < MAX_VOTES_PER_BLOCK || v.voter in Ballots(n, v.blockHash)
    ensures TablesOk(c, validators, n.(votes := n.votes[v.blockHash := Ballots(n, v.blockHash)[v.voter := v]]))
  {
    hide VoteOk, PendingOk;
    var ballots := Ballots(n, v.blockHash);
    var more := ballots[v.voter := v];
    assert more.Keys == ballots.Keys + {v.voter};
    assert |more| == |more.Keys| && |ballots| == |ballots.Keys|;
    assert v.voter in ballots ==> more.Keys == ballots.Keys;
  }

  lemma CountKeepsTables(c: Crypto, validators: Validators, n: Node, hash: Digest, diskOk: bool)
    requires TablesOk(c, validators, n) && hash in n.pending && hash in n.votes
    ensures TablesOk(c, validators, CountBallots(c, validators, n, hash, diskOk).node)
  {
    hide TablesOk, FinalizeEntry, Broadcast, InOrder;
    var b := n.pending[hash];
    var cert := Certificate(hash, b.header.height, InOrder(n.votes[hash]));
    FinalizeKeepsTables(c, validators, n, Entry(b, cert), diskOk, Broadcast(validators, cert));
  }

  lemma VoteKeepsTables(c: Crypto, validators: Validators, n: Node, sender: Key, v: Vote, diskOk: bool)
    requires TablesOk(c, validators, n)
    ensures TablesOk(c, validators, HandleVote(c, validators, n, sender, v, diskOk).node)
  {
    hide CountBallots, TablesOk;
    var r := HandleVote(c, validators, n, sender, v, diskOk);
    if r != Refuse(n, VoterMismatch) && r != Refuse(n, VoterNotValidator) && r != Refuse(n, BadVoteSignature)
       && r != Refuse(n, UnknownBlock) && r != Refuse(n, VoteHeightMismatch) && r != Refuse(n, TooManyVotes)
    {
      BallotKeepsTables(c, validators, n, v);
      var counted := n.(votes := n.votes[v.blockHash := Ballots(n, v.blockHash)[v.voter := v]]);
      CountKeepsTables(c, validators, counted, v.blockHash, diskOk);
    }
  }

  lemma HandleKeepsTables(c: Crypto, validators: Validators, me: Identity, n: Node, e: Event)
    requires CollisionFree(c) && TablesOk(c, validators, n)
    ensures TablesOk(c, validators, Handle(c, validators, me, n, e).node)
  {
    hide TablesOk, HandleProposal, HandleVote, FinalizeEntry;
    match e.message
    case Proposal(b) => ProposalKeepsTables(c, validators, me, n, e.sender, b);
    case CastVote(v) => VoteKeepsTables(c, validators, n, e.sender, v, e.diskOk);
    case Certified(cert) =>
      if cert.blockHash in n.pending {
        FinalizeKeepsTables(c, validators, n, Entry(n.pending[cert.blockHash], cert), e.diskOk, []);
      }
  }

  // ---- runs ----

  /** A node with the chain of entries it has finalized so far. */
  datatype Trace = Trace(node: Node, chain: seq<Entry>)

  ghost function RunNode(c: Crypto, validators: Validators, me: Identity, l0: Ledger, events: seq<Event>): Trace {
    if events == [] then Trace(Node(Origin(l0), map[], map[]), [])
    else
      var before := RunNode(c, validators, me, l0, events[..|events| - 1]);
      var r := Handle(c, validators, me, before.node, events[|events| - 1]);
      Trace(r.node, before.chain + r.committed)
  }

  /** Either nothing is finalized and the state stays, or one entry is, and the state is what it finalizes to. */
  lemma HandleCommits(c: Crypto, validators: Validators, me: Identity, n: Node, e: Event)
    ensures var r := Handle(c, validators, me, n, e);
            || (r.committed == [] && r.node.state == n.state)
            || (|r.committed| == 1
                && Finalize(c, validators, n.state, r.committed[0].block, r.committed[0].cert) == Ok(r.node.state))
  {
    hide Finalize, Validates, InOrder, Broadcast, ValidShape, CertificateVerifies;
  }

  /** The votes a message brings: a ballot, or those of a certificate. */
  function Delivered(m: Message): set<Vote> {
    match m
    case Proposal(_) => {}
    case CastVote(v) => {v}
    case Certified(cert) => Elems(cert.votes)
  }

  /** The votes delivered to a node along a run. */
  function Seen(events: seq<Event>): set<Vote> {
    if events == [] then {} else Seen(events[..|events| - 1]) + Delivered(events[|events| - 1].message)
  }

  ghost predicate BallotsSeen(n: Node, seen: set<Vote>) {
    forall h, id :: h in n.votes && id in n.votes[h] ==> n.votes[h][id] in seen
  }

  lemma InOrderValues<V>(m: map<nat, V>, x: V)
    requires x in InOrder(m)
    ensures exists k :: k in m && m[k] == x
  {
    SortedKeysContents(m.Keys);
    var keys := SortedKeys(m.Keys);
    var i :| 0 <= i < |keys| && InOrder(m)[i] == x;
    assert keys[i] in Elems(keys);
  }

  lemma FinalizeSees(
      c: Crypto, validators: Validators, n: Node, entry: Entry, diskOk: bool, answer: seq<(Key, Message)>,
      seen: set<Vote>)
    requires BallotsSeen(n, seen) && Elems(entry.cert.votes) <= seen
    ensures var r := FinalizeEntry(c, validators, n, entry, diskOk, answer);
            BallotsSeen(r.node, seen) && Evidence(r.committed) <= seen
  {
    hide Finalize, Validates;
    assert forall v :: v in entry.cert.votes ==> v in Elems(entry.cert.votes);
  }

  lemma CountSees(c: Crypto, validators: Validators, n: Node, hash: Digest, diskOk: bool, seen: set<Vote>)
    requires hash in n.pending && hash in n.votes && BallotsSeen(n, seen)
    ensures var r := CountBallots(c, validators, n, hash, diskOk);
            BallotsSeen(r.node, seen) && Evidence(r.committed) <= seen
  {
    var b := n.pending[hash];
    var cert := Certificate(hash, b.header.height, InOrder(n.votes[hash]));
    forall v | v in cert.votes
      ensures v in seen
    {
      InOrderValues(n.votes[hash], v);
    }
    hide FinalizeEntry, Broadcast, InOrder, CertificateVerifies;
    FinalizeSees(c, validators, n, Entry(b, cert), diskOk, Broadcast(validators, cert), seen);
  }

  lemma VoteSees(c: Crypto, validators: Validators, n: Node, sender: Key, v: Vote, diskOk: bool, seen: set<Vote>)
    requires BallotsSeen(n, seen) && v in seen
    ensures var r := HandleVote(c, validators, n, sender, v, diskOk);
            BallotsSeen(r.node, seen) && Evidence(r.committed) <= seen
  {
    hide CountBallots, VoteVerifies;
    assert Evidence([]) == {};
    if v.blockHash in n.pending {
      var counted := n.(votes := n.votes[v.blockHash := Ballots(n, v.blockHash)[v.voter := v]]);
      CountSees(c, validators, counted, v.blockHash, diskOk, seen);
    }
  }

  /** A node keeps and certifies with votes it was sent, and no others. */
  lemma HandleSees(c: Crypto, validators: Validators, me: Identity, n: Node, e: Event, seen: set<Vote>)
    requires BallotsSeen(n, seen)
    ensures var r := Handle(c, validators, me, n, e);
            && BallotsSeen(r.node, seen + Delivered(e.message))
            && Evidence(r.committed) <= seen + Delivered(e.message)
  {
    hide HandleVote, FinalizeEntry, ValidShape, ProposerVerifies, NewVote;
    assert Evidence([]) == {};
    var more := seen + Delivered(e.message);
    match e.message
    case Proposal(b) =>
    case CastVote(v) => VoteSees(c, validators, n, e.sender, v, e.diskOk, more);
    case Certified(cert) =>
      if cert.blockHash in n.pending {
        FinalizeSees(c, validators, n, Entry(n.pending[cert.blockHash], cert), e.diskOk, [], more);
      }
  }

  lemma EvidenceSplit(x: seq<Entry>, y: seq<Entry>)
    ensures Evidence(x + y) == Evidence(x) + Evidence(y)
  {
    forall v
      ensures v in Evidence(x + y) <==> v in Evidence(x) + Evidence(y)
    {
      assert forall e :: e in x + y <==> e in x || e in y;
    }
  }

  /** Every reachable node: its tables are in order, its state is the replay of its chain, and the votes it keeps and
      those in the certificates of its chain were delivered to it. */
  lemma {:induction false} RunInvariant(c: Crypto, validators: Validators, me: Identity, l0: Ledger, events: seq<Event>)
    requires CollisionFree(c)
    ensures var t := RunNode(c, validators, me, l0, events);
            && TablesOk(c, validators, t.node) && Replay(c, validators, l0, t.chain) == Ok(t.node.state)
            && BallotsSeen(t.node, Seen(events)) && Evidence(t.chain) <= Seen(events)
  {
    if events == [] {
      EmptyTables(c, validators, l0);
    } else {
      hide Handle, TablesOk, Finalize, Evidence, BallotsSeen, Delivered;
      var before := RunNode(c, validators, me, l0, events[..|events| - 1]);
      var e := events[|events| - 1];
      RunInvariant(c, validators, me, l0, events[..|events| - 1]);
      HandleKeepsTables(c, validators, me, before.node, e);
      HandleCommits(c, validators, me, before.node, e);
      HandleSees(c, validators, me, before.node, e, Seen(events[..|events| - 1]));
      var r := Handle(c, validators, me, before.node, e);
      EvidenceSplit(before.chain, r.committed);
      if r.committed != [] {
        var chain := before.chain + r.committed;
        assert chain[..|chain| - 1] == before.chain;
      } else {
        assert before.chain + r.committed == before.chain;
      }
    }
  }

  lemma EmptyTables(c: Crypto, validators: Validators, l0: Ledger)
    ensures TablesOk(c, validators, Node(Origin(l0), map[], map[]))
  {
  }

  lemma NotSavedWhy(c: Crypto, validators: Validators, me: Identity, n: Node, e: Event)
    ensures var r := Handle(c, validators, me, n, e);
            r.answer == Err(NotSaved) ==> r.committed != [] && !(Validates(r.node.state.ledger) && e.diskOk)
  {
    hide Finalize, Validates, InOrder, Broadcast, ValidShape, CertificateVerifies;
  }

  /** From a genesis ledger that loads, the check before saving never refuses a finalized state: only the disk can. */
  lemma OnlyTheDiskRefuses(
      c: Crypto, validators: Validators, me: Identity, l0: Ledger, events: seq<Event>, e: Event)
    requires CollisionFree(c) && WellKept(l0) && Validates(l0)
    ensures var n := RunNode(c, validators, me, l0, events).node;
            Handle(c, validators, me, n, e).answer == Err(NotSaved) ==> !e.diskOk
  {
    var all := events + [e];
    assert all[..|all| - 1] == events;
    RunInvariant(c, validators, me, l0, all);
    ChainReloads(c, validators, l0, RunNode(c, validators, me, l0, all).chain);
    NotSavedWhy(c, validators, me, RunNode(c, validators, me, l0, events).node, e);
    hide Handle, TablesOk, Validates, Replay;
  }

  /** Agreement over runs: if fewer than 2q - n validators approved two blocks at one height, going by all votes delivered
      to the two nodes, then one finalized chain is a prefix of the other, and nodes at equal heights hold equal states. */
  lemma NodesAgree(
      c: Crypto, validators: Validators, l0: Ledger, me: Identity, events: seq<Event>, you: Identity, others: seq<Event>)
    requires Trusted(c, validators, Seen(events) + Seen(others))
    ensures var a := RunNode(c, validators, me, l0, events);
            var b := RunNode(c, validators, you, l0, others);
            && (Blocks(a.chain) <= Blocks(b.chain) || Blocks(b.chain) <= Blocks(a.chain))
            && (a.node.state.height == b.node.state.height ==> a.node.state == b.node.state)
  {
    var a := RunNode(c, validators, me, l0, events);
    var b := RunNode(c, validators, you, l0, others);
    RunInvariant(c, validators, me, l0, events);
    RunInvariant(c, validators, you, l0, others);
    hide RunNode, Seen, Evidence, Equivocators, TablesOk, BallotsSeen;
    TrustedLess(c, validators, Evidence(a.chain) + Evidence(b.chain), Seen(events) + Seen(others));
    ChainsAgree(c, validators, l0, a.chain, b.chain);
    if a.node.state.height == b.node.state.height {
      EqualHeightsEqualStates(c, validators, l0, a.chain, b.chain);
    }
  }

  /** A fork between two nodes convicts at least 2q - n validators of approving two blocks at one height, by votes that
      were delivered to the two nodes. */
  lemma ForkIsAccountable(
      c: Crypto, validators: Validators, l0: Ledger, me: Identity, events: seq<Event>, you: Identity, others: seq<Event>)
    requires CollisionFree(c)
    requires var a := Blocks(RunNode(c, validators, me, l0, events).chain);
             var b := Blocks(RunNode(c, validators, you, l0, others).chain);
             !(a <= b) && !(b <= a)
    ensures |Equivocators(c, validators, Seen(events) + Seen(others))| >= Overlap(|validators|)
  {
    if |Equivocators(c, validators, Seen(events) + Seen(others))| < Overlap(|validators|) {
      NodesAgree(c, validators, l0, me, events, you, others);
    }
  }
}
