/** The runtime of one node as an object; every handler does what its counterpart on values says. */
module ConsensusRuntimes {
  import opened Prelude
  import opened Onecoin
  import opened Conservation
  import opened Consensus
  import opened ChainSafety
  import opened Runtime
  import opened FinalizedStates

  type Answer = Result<seq<(Key, Message)>, RuntimeError>

  class OnecoinConsensusRuntime {
    const validators: Validators
    const state: OnecoinFinalizedState
    var pending: map<Digest, Block>
    var votes: map<Digest, map<AweId, Vote>>

    function View(): Node
      reads this, state, state.ledger
    {
      Node(state.View(), pending, votes)
    }

    constructor (validators: Validators, state: OnecoinFinalizedState)
      ensures this.validators == validators && this.state == state
      ensures View() == Node(state.View(), map[], map[])
    {
      this.validators, this.state := validators, state;
      pending, votes := map[], map[];
    }

    method Handle(c: Crypto, sender: Key, me: Identity, message: Message, diskOk: bool) returns (r: Answer)
      modifies this, state
      ensures state.ledger == old(state.ledger) || fresh(state.ledger)
      ensures var spec := Runtime.Handle(c, validators, me, old(View()), Event(sender, message, diskOk));
              r == spec.answer && View() == spec.node
    {
      hide Runtime.HandleProposal, Runtime.HandleVote, Runtime.HandleCertificate;
      if !IsValidatorKey(c, validators, sender) {
        return Err(SenderNotValidator);
      }
      match message
      case Proposal(b) => r := HandleProposal(c, sender, me, b);
      case CastVote(v) => r := HandleVote(c, sender, v, diskOk);
      case Certified(cert) => r := HandleCertificate(c, cert, diskOk);
    }

    method HandleProposal(c: Crypto, sender: Key, me: Identity, b: Block) returns (r: Answer)
      modifies this`pending
      ensures var spec := Runtime.HandleProposal(c, validators, me, old(View()), sender, b);
              r == spec.answer && View() == spec.node
    {
      hide ValidShape, ProposerVerifies, NewVote;
      var shape := ValidShape(c, b);
      if shape.Err? {
        return Err(Rejected(shape.error));
      }
      if b.header.proposer != c.aweId(sender) {
        return Err(ProposerMismatch);
      }
      if b.header.proposer !in validators {
        return Err(Rejected(ProposerNotValidator));
      }
      if !ProposerVerifies(c, b, validators[b.header.proposer]) {
        return Err(Rejected(BadProposerSignature));
      }
      if b.header.height != WrapInc64(state.height) || b.header.previousHash != state.tip {
        return Err(NotExtending);
      }
      if |pending| >= MAX_PENDING_BLOCKS && BlockHash(c, b) !in pending {
        return Err(TooManyPending);
      }
      var hash := BlockHash(c, b);
      pending := pending[hash := b];
      if IsValidatorKey(c, validators, me.key) {
        return Ok([(sender, CastVote(NewVote(c, me, b, true)))]);
      }
      r := Ok([]);
    }

    method HandleVote(c: Crypto, sender: Key, v: Vote, diskOk: bool) returns (r: Answer)
      modifies this, state
      ensures state.ledger == old(state.ledger) || fresh(state.ledger)
      ensures var spec := Runtime.HandleVote(c, validators, old(View()), sender, v, diskOk);
              r == spec.answer && View() == spec.node
    {
      hide CertificateVerifies, VoteVerifies, FinalizeEntry, CountBallots, Broadcast, InOrder;
      if v.voter != c.aweId(sender) {
        return Err(VoterMismatch);
      }
      if v.voter !in validators {
        return Err(VoterNotValidator);
      }
      if !VoteVerifies(c, v, validators[v.voter]) {
        return Err(BadVoteSignature);
      }
      if v.blockHash !in pending {
        return Err(UnknownBlock);
      }
      if pending[v.blockHash].header.height != v.height {
        return Err(VoteHeightMismatch);
      }
      var entry := if v.blockHash in votes then votes[v.blockHash] else map[];
      if |entry| >= MAX_VOTES_PER_BLOCK && v.voter !in entry {
        return Err(TooManyVotes);
      }
      votes := votes[v.blockHash := entry[v.voter := v]];
      r := Count(c, v.blockHash, diskOk);
    }

    /** The end of a vote: certify, finalize and announce, if the ballots suffice. */
    method Count(c: Crypto, hash: Digest, diskOk: bool) returns (r: Answer)
      requires hash in pending && hash in votes
      modifies this, state
      ensures state.ledger == old(state.ledger) || fresh(state.ledger)
      ensures var spec := CountBallots(c, validators, old(View()), hash, diskOk);
              r == spec.answer && View() == spec.node
    {
      hide CertificateVerifies, FinalizeEntry, Broadcast, InOrder;
      var b := pending[hash];
      var cert := Certificate(hash, b.header.height, InOrder(votes[hash]));
      var quorum := VerifyCertificate(c, cert, validators, BlockHash(c, b), b.header.height);
      if quorum.Err? {
        return Ok([]);
      }
      r := FinalizeAndSave(c, b, cert, diskOk, Broadcast(validators, cert));
    }

    method HandleCertificate(c: Crypto, cert: Certificate, diskOk: bool) returns (r: Answer)
      modifies this, state
      ensures state.ledger == old(state.ledger) || fresh(state.ledger)
      ensures var spec := Runtime.HandleCertificate(c, validators, old(View()), cert, diskOk);
              r == spec.answer && View() == spec.node
    {
      hide FinalizeEntry;
      if cert.blockHash !in pending {
        return Err(UnknownBlock);
      }
      r := FinalizeAndSave(c, pending[cert.blockHash], cert, diskOk, []);
    }

    /** Finalize, save, and only then forget the block and its votes. */
    method FinalizeAndSave(c: Crypto, b: Block, cert: Certificate, diskOk: bool, answer: seq<(Key, Message)>)
      returns (r: Answer)
      modifies this, state
      ensures state.ledger == old(state.ledger) || fresh(state.ledger)
      ensures var spec := FinalizeEntry(c, validators, old(View()), Entry(b, cert), diskOk, answer);
              r == spec.answer && View() == spec.node
    {
      hide Finalize, Validates;
      var finalized := state.Finalize(c, b, cert, validators);
      if finalized.Err? {
        return Err(Rejected(finalized.error));
      }
      var valid := state.ValidateState();
      if !valid || !diskOk {
        return Err(NotSaved);
      }
      pending := pending - {cert.blockHash};
      votes := votes - {cert.blockHash};
      r := Ok(answer);
    }
  }
}
