/** The finalized state as an object: certificate checking, finalization on a clone, and the check before saving. */
module FinalizedStates {
  import opened Prelude
  import opened MapSum
  import opened Quorum
  import opened Onecoin
  import opened Conservation
  import opened Consensus
  import opened OnecoinLedgers
  import Ledger

  // ---- certificates ----

  function FirstVotes(cert: Certificate, n: nat): Certificate
    requires n <= |cert.votes|
  {
    cert.(votes := cert.votes[..n])
  }

  lemma ApproversNext(c: Crypto, validators: Validators, cert: Certificate, n: nat)
    requires n < |cert.votes|
    ensures var v := cert.votes[n];
            Approvers(c, validators, FirstVotes(cert, n + 1))
            == Approvers(c, validators, FirstVotes(cert, n)) + (if Approves(c, validators, cert, v) then {v.voter} else {})
  {
    hide VoteVerifies;
    assert cert.votes[..n + 1] == cert.votes[..n] + [cert.votes[n]];
  }

  method VerifyCertificate(c: Crypto, cert: Certificate, validators: Validators, hash: Digest, height: u64)
    returns (r: Result<(), ConsensusError>)
    ensures r == CertificateVerifies(c, validators, cert, hash, height)
  {
    if cert.blockHash != hash || cert.height != height {
      return Err(CertificateMismatch);
    }
    var unique: set<AweId> := {};
    assert Approvers(c, validators, FirstVotes(cert, 0)) == {};
    for i := 0 to |cert.votes|
      invariant unique == Approvers(c, validators, FirstVotes(cert, i))
    {
      var vote := cert.votes[i];
      ApproversNext(c, validators, cert, i);
      hide Approvers, VoteVerifies;
      if vote.voter !in validators {
        continue;
      }
      if vote.blockHash != cert.blockHash || vote.height != cert.height {
        continue;
      }
      if vote.approve && VoteVerifies(c, vote, validators[vote.voter]) {
        unique := unique + {vote.voter};
      }
    }
    assert FirstVotes(cert, |cert.votes|) == cert;
    if |validators| == 0 || |unique| < Required(|validators|) {
      return Err(NoQuorum);
    }
    r := Ok(());
  }

  // ---- execution ----

  /** A failure stays: the transactions after it change nothing about the error. */
  lemma {:induction false} FailureStays(c: Crypto, l: Ledger.Ledger, txs: seq<Transaction>, n: nat)
    requires n <= |txs| && Execute(c, l, txs[..n]).Err?
    ensures Execute(c, l, txs) == Execute(c, l, txs[..n])
  {
    if n == |txs| {
      assert txs[..n] == txs;
    } else {
      var front := txs[..|txs| - 1];
      assert front[..n] == txs[..n];
      FailureStays(c, l, front, n);
    }
  }

  lemma ExecuteNext(c: Crypto, l: Ledger.Ledger, txs: seq<Transaction>, n: nat)
    requires n < |txs| && Execute(c, l, txs[..n]).Ok?
    ensures Execute(c, l, txs[..n + 1])
         == if TxId(c, txs[n]) in Ids(c, txs[..n]) then Err(DuplicateTransaction)
            else ExecuteOne(c, Execute(c, l, txs[..n]).value, txs[n])
    ensures Ids(c, txs[..n + 1]) == Ids(c, txs[..n]) + {TxId(c, txs[n])}
  {
    assert txs[..n + 1] == txs[..n] + [txs[n]];
    assert txs[..n + 1][..n] == txs[..n];
    hide ExecuteOne, TxId;
  }

  class OnecoinFinalizedState {
    var ledger: OnecoinLedger
    var height: u64
    var tip: Digest

    function View(): Finalized
      reads this, ledger
    {
      Finalized(ledger.View(), height, tip)
    }

    constructor (start: OnecoinLedger)
      ensures ledger == start && View() == Finalized(start.View(), 0, 0)
    {
      ledger, height, tip := start, 0, 0;
    }

    /** A block that fails anywhere leaves the state, the ledger object and its contents as they were. */
    method Finalize(c: Crypto, b: Block, cert: Certificate, validators: Validators)
      returns (r: Result<Digest, ConsensusError>)
      modifies this
      ensures ledger == old(ledger) || fresh(ledger)
      ensures old(ledger).View() == old(ledger.View())
      ensures match Consensus.Finalize(c, validators, old(View()), b, cert)
              case Err(e) => r == Err(e) && ledger == old(ledger) && View() == old(View())
              case Ok(next) => r == Ok(next.tip) && View() == next
    {
      hide ValidShape, ProposerVerifies, CertificateVerifies, Execute;
      var admitted := Admit(c, b, cert, validators);
      if admitted.Err? {
        return Err(admitted.error);
      }
      var next := ExecuteOnClone(c, b.transactions);
      if next.Err? {
        return Err(next.error);
      }
      ledger := next.value;
      height := b.header.height;
      tip := BlockHash(c, b);
      r := Ok(tip);
    }

    method Admit(c: Crypto, b: Block, cert: Certificate, validators: Validators) returns (r: Result<(), ConsensusError>)
      ensures r == Admissible(c, validators, View(), b, cert)
    {
      hide ValidShape, ProposerVerifies, CertificateVerifies;
      var shape := ValidShape(c, b);
      if shape.Err? {
        return shape;
      }
      if b.header.proposer !in validators {
        return Err(ProposerNotValidator);
      }
      if !ProposerVerifies(c, b, validators[b.header.proposer]) {
        return Err(BadProposerSignature);
      }
      if b.header.height != SatAdd64(height, 1) {
        return Err(BadHeight);
      }
      if b.header.previousHash != tip {
        return Err(BadPreviousHash);
      }
      r := VerifyCertificate(c, cert, validators, BlockHash(c, b), b.header.height);
    }

    /** Runs the transactions on a clone of the ledger. */
    method ExecuteOnClone(c: Crypto, txs: seq<Transaction>) returns (r: Result<OnecoinLedger, ConsensusError>)
      ensures match Execute(c, ledger.View(), txs)
              case Err(e) => r == Err(e)
              case Ok(l) => r.Ok? && fresh(r.value) && r.value.View() == l
    {
      ghost var l := ledger.View();
      var next := new OnecoinLedger.Clone(ledger);
      var seen: set<Digest> := {};
      for i := 0 to |txs|
        invariant seen == Ids(c, txs[..i])
        invariant fresh(next) && Execute(c, l, txs[..i]) == Ok(next.View()) && ledger.View() == l
      {
        ExecuteNext(c, l, txs, i);
        var tx := txs[i];
        hide Execute, TxId, Ids, Ledger.Transfer;
        var txId := TxId(c, tx);
        if txId in seen {
          FailureStays(c, l, txs, i + 1);
          return Err(DuplicateTransaction);
        }
        seen := seen + {txId};
        if c.aweId(tx.sender) !in next.members {
          FailureStays(c, l, txs, i + 1);
          return Err(SenderNotMember);
        }
        var applied := next.ApplyTransfer(c, tx, tx.sender);
        if applied.Err? {
          FailureStays(c, l, txs, i + 1);
          return Err(TransferFailed(applied.error));
        }
      }
      assert txs[..|txs|] == txs;
      r := Ok(next);
    }

    /** The check made before a state is written and after it is read. */
    method ValidateState() returns (ok: bool)
      ensures ok <==> Validates(ledger.View())
    {
      hide Sum;
      if |ledger.members| != |ledger.balances| || |ledger.members| != |ledger.nonces| {
        return false;
      }
      var computed := SaturatingTotal(ledger.balances);
      if computed > ledger.totalIssued {
        return false;
      }
      var left := ledger.members.Keys;
      while left != {}
        invariant left <= ledger.members.Keys
        invariant forall id :: id in ledger.members && id !in left ==> ledger.members[id] == id
      {
        var id :| id in left;
        if ledger.members[id] != id {
          return false;
        }
        left := left - {id};
      }
      ok := true;
    }
  }

  /** Adding up with saturation, in any order, gives the true sum or the ceiling. */
  method SaturatingTotal(balances: map<AweId, u128>) returns (total: u128)
    ensures total == Min(Sum(balances), U128_MAX)
  {
    total := 0;
    var left := balances.Keys;
    ghost var done: set<AweId> := {};
    while left != {}
      invariant left + done == balances.Keys && left * done == {}
      invariant 0 <= SumOver(done, balances) && total == Min(SumOver(done, balances), U128_MAX)
    {
      var id :| id in left;
      SumSplit(done + {id}, balances, id);
      assert done + {id} - {id} == done;
      total := SatAdd128(total, balances[id]);
      left, done := left - {id}, done + {id};
    }
    assert done == balances.Keys;
  }
}
