/**
  What each event of the gadget answers and leaves behind, said from what it was given, what it emitted
  and the fields before and after; and what follows for the next round and for the finality reports.
*/
module DvfEffects {
  import opened Wrappers
  import opened Numeric
  import opened Sums
  import opened Dvf
  import opened DvfJustification
  import opened DvfRuns

  // ----- checkpoints

  /** Checkpoints are the multiples of a positive interval; without an interval there are none. */
  lemma CheckpointIff(cfg: Config, block: u32)
    ensures IsCheckpoint(cfg, block) <==>
            cfg.checkpointInterval > 0 && exists q: nat {:trigger q * cfg.checkpointInterval} :: block == q * cfg.checkpointInterval
  {
    if cfg.checkpointInterval > 0 {
      var d := cfg.checkpointInterval;
      DivisionBrackets(block, d);
      if block % d == 0 {
        assert block == (block / d) * d;
      }
      if q: nat {:trigger q * d} :| block == q * d {
        MultipleHasNoRemainder(q, d);
      }
    }
  }

  // ----- rounds

  /**
    A finalisation, by either path, opens the round after the one it was decided in: the current one for a
    vote, the named one for a justification. Nothing else moves the round.
  */
  lemma RoundFollowsEmission(cfg: Config, s: State, e: Event)
    ensures match Emitted(cfg, s, e)
            case Some(f) =>
              && Step(cfg, s, e).currentRound == Min(f.round + 1, U32_MAX)
              && (e.CastVote? ==> f.round == s.currentRound)
              && (e.Justify? ==> f.round == e.justification.roundNumber)
              && !e.FreezeWeights?
            case None => Step(cfg, s, e).currentRound == s.currentRound
  {
    match e
    case CastVote(_) =>
    case Justify(_) =>
    case FreezeWeights(_, _) =>
  }

  /**
    After a vote has finalised a block, in a run of forward rounds, nobody is held back by the round that
    ended: any vote, of a validator recorded in it too, is accepted exactly when it is signed, weighted, and
    for a checkpoint above the block finalised.
  */
  lemma NextRoundIsOpen(cfg: Config, s0: State, es: seq<Event>, v: Vote, f: BlockFinalized, next: Vote)
    requires WithinWindow(cfg, s0) && ForwardRounds(cfg, s0, es)
    requires var s := Run(cfg, s0, es); Emitted(cfg, s, CastVote(v)) == Some(f) && s.currentRound < U32_MAX
    ensures var s := Run(cfg, s0, es); var t := Step(cfg, s, CastVote(v));
            && t.currentRound == s.currentRound + 1
            && (SubmitVote(cfg, t, next).Success? <==>
                && cfg.verify(next.signature, next.payload, Voter(next)) && Voter(next) in s.weights
                && IsCheckpoint(cfg, next.payload.blockNumber) && f.blockNumber < next.payload.blockNumber)
  {
    RetentionWindow(cfg, s0, es);
    VoteLeavesRoundEmpty(cfg, Run(cfg, s0, es), v, f, next);
  }

  lemma VoteLeavesRoundEmpty(cfg: Config, s: State, v: Vote, f: BlockFinalized, next: Vote)
    requires WithinWindow(cfg, s) && s.currentRound < U32_MAX
    requires Emitted(cfg, s, CastVote(v)) == Some(f)
    ensures var t := Step(cfg, s, CastVote(v));
            && t.currentRound == s.currentRound + 1 && t.weights == s.weights && t.finalizedNumber == f.blockNumber
            && (t.currentRound, Voter(next)) !in t.records
  {
    RoundFollowsEmission(cfg, s, CastVote(v));
    FinalizationAdvances(cfg, s, CastVote(v));
    RecordsAfter(cfg, s, CastVote(v));
    var k := (s.currentRound + 1, Voter(next));
    assert k !in s.records;
  }

  // ----- votes

  /** An accepted vote finalises exactly when the tally of its hash, with its weight, reaches the threshold. */
  lemma VoteFinalizesIff(cfg: Config, s: State, v: Vote)
    requires SubmitVote(cfg, s, v).Success?
    ensures var tally := Min(At(s.tallies, v.payload.blockHash) + At(s.weights, Voter(v)), U128_MAX);
            Emitted(cfg, s, CastVote(v)) ==
            if cfg.threshold(s.totalWeight) <= tally
            then Some(BlockFinalized(v.payload.blockNumber, v.payload.blockHash, s.currentRound, tally))
            else None
  {
  }

  predicate VoteCast(cfg: Config, s: State, e: Event, k: (u32, AccountId)) {
    e.CastVote? && SubmitVote(cfg, s, e.vote).Success? && k == (s.currentRound, e.vote.payload.validator)
  }

  /**
    Every event keeps the records it does not prune, as they are, and an accepted vote adds itself under
    the current round; a finalisation prunes exactly what is further back than the retention.
  */
  lemma RecordsAfter(cfg: Config, s: State, e: Event)
    ensures forall k: (u32, AccountId) :: k in Step(cfg, s, e).records <==>
              && (k in s.records || VoteCast(cfg, s, e, k))
              && (Emitted(cfg, s, e).Some? ==> Emitted(cfg, s, e).value.round <= k.0 + cfg.voteRetentionRounds)
    ensures forall k: (u32, AccountId) | k in Step(cfg, s, e).records ::
              Step(cfg, s, e).records[k] == if VoteCast(cfg, s, e, k) then e.vote else s.records[k]
  {
    match e
    case CastVote(_) =>
    case Justify(_) =>
    case FreezeWeights(_, _) =>
  }

  /** Which error a vote is refused with: the first of its failings, in this order. */
  lemma VoteRefusedWith(cfg: Config, s: State, v: Vote)
    ensures var r := SubmitVote(cfg, s, v); var k := (s.currentRound, v.payload.validator);
            var signed := cfg.verify(v.signature, v.payload, v.payload.validator);
            var weighted := signed && v.payload.validator in s.weights;
            var checkpoint := weighted && IsCheckpoint(cfg, v.payload.blockNumber);
            var above := checkpoint && s.finalizedNumber < v.payload.blockNumber;
            && (r == Failure(InvalidSignature) <==> !signed)
            && (r == Failure(InvalidValidator) <==> signed && !weighted)
            && (r == Failure(NonCheckpointBlock) <==> weighted && !checkpoint)
            && (r == Failure(BlockAlreadyFinalized) <==> checkpoint && !above)
            && (r == Failure(DoubleVote) <==> above && k in s.records)
  {
  }

  // ----- justifications

  /** What is wrong with the `i`-th vote first, and how it is called. */
  predicate FaultAt(cfg: Config, s: State, j: Justification, i: nat, fault: Error)
    requires i < |j.votes|
  {
    var v := j.votes[i];
    var unseen := forall k | 0 <= k < i :: j.votes[k].payload.validator != v.payload.validator;
    var signed := unseen && cfg.verify(v.signature, v.payload, v.payload.validator);
    var sameSet := signed && v.payload.validatorSetId == j.votes[0].payload.validatorSetId;
    var sameRound := sameSet && v.payload.roundId == j.roundNumber;
    var sameHash := sameRound && v.payload.blockHash == j.blockHash;
    match fault
    case DuplicateValidator => !unseen
    case InvalidSignature => unseen && !signed
    case ValidatorSetIdMismatch => signed && !sameSet
    case RoundMismatch => sameSet && !sameRound
    case BlockHashMismatch => sameRound && !sameHash
    case InvalidValidator => sameHash && v.payload.validator !in s.weights
    case _ => false
  }

  lemma FaultIsError(cfg: Config, s: State, j: Justification, i: nat)
    requires i < |j.votes|
    ensures forall fault :: FaultAt(cfg, s, j, i, fault) <==> JustifiedVoteError(cfg, s, j, i) == Some(fault)
  {
    SeenIff(j.votes, i);
  }

  lemma SeenIff(votes: seq<Vote>, i: nat)
    requires i < |votes|
    ensures Voter(votes[i]) in Voters(votes[..i]) <==>
            exists k | 0 <= k < i :: votes[k].payload.validator == votes[i].payload.validator
  {
    if k :| 0 <= k < i && votes[k].payload.validator == votes[i].payload.validator {
      var v := votes[..i][k];
      assert v in votes[..i] && Voter(v) == Voter(votes[i]);
    }
  }

  /** The pass stops at the first faulty vote, whatever the later votes are, and names its first fault. */
  lemma {:induction false} FirstFault(cfg: Config, s: State, j: Justification, from: nat, i: nat, fault: Error)
    requires from <= i < |j.votes| && FaultAt(cfg, s, j, i, fault)
    requires forall k | from <= k < i :: JustifiedVoteError(cfg, s, j, k) == None
    ensures FirstVoteError(cfg, s, j, from) == Some(fault)
    decreases i - from
  {
    FaultIsError(cfg, s, j, i);
    if from < i {
      FirstFault(cfg, s, j, from + 1, i, fault);
    }
  }

  /** Which error a justification is refused with. */
  lemma JustificationRefusedWith(cfg: Config, s: State, j: Justification)
    ensures var r := SubmitJustification(cfg, s, j);
            && (r == Failure(EmptyJustification) <==> j.votes == [])
            && (j.votes != [] ==>
                  var block := j.votes[0].payload.blockNumber;
                  && (r == Failure(NonCheckpointBlock) <==> !IsCheckpoint(cfg, block))
                  && (r == Failure(BlockAlreadyFinalized) <==> IsCheckpoint(cfg, block) && block <= s.finalizedNumber))
  {
    if j.votes != [] {
      NoOuterError(cfg, s, j, 0);
    }
  }

  lemma {:induction false} NoOuterError(cfg: Config, s: State, j: Justification, from: nat)
    requires from <= |j.votes|
    ensures FirstVoteError(cfg, s, j, from) !in
            {Some(EmptyJustification), Some(NonCheckpointBlock), Some(BlockAlreadyFinalized), Some(ThresholdNotReached)}
    decreases |j.votes| - from
  {
    if from < |j.votes| {
      NoOuterError(cfg, s, j, from + 1);
    }
  }

  /**
    Past the checks of the block: a faulty vote, the first of them, decides the error; without one, the only
    error is a weight below the threshold.
  */
  lemma FaultDecides(cfg: Config, s: State, j: Justification)
    requires j.votes != [] && IsCheckpoint(cfg, j.votes[0].payload.blockNumber)
    requires s.finalizedNumber < j.votes[0].payload.blockNumber
    ensures forall i, fault |
              && 0 <= i < |j.votes| && FaultAt(cfg, s, j, i, fault)
              && (forall k, other | 0 <= k < i :: !FaultAt(cfg, s, j, k, other)) ::
              SubmitJustification(cfg, s, j) == Failure(fault)
    ensures (forall i, fault | 0 <= i < |j.votes| :: !FaultAt(cfg, s, j, i, fault)) ==>
              (SubmitJustification(cfg, s, j) == Failure(ThresholdNotReached) <==>
               SumOver(s.weights, Voters(j.votes)) < cfg.threshold(s.totalWeight))
  {
    forall i, fault |
      && 0 <= i < |j.votes| && FaultAt(cfg, s, j, i, fault)
      && (forall k, other | 0 <= k < i :: !FaultAt(cfg, s, j, k, other))
      ensures SubmitJustification(cfg, s, j) == Failure(fault)
    {
      forall k | 0 <= k < i ensures JustifiedVoteError(cfg, s, j, k) == None {
        NoFaultNoError(cfg, s, j, k);
      }
      FirstFault(cfg, s, j, 0, i, fault);
    }
    if forall i, fault | 0 <= i < |j.votes| :: !FaultAt(cfg, s, j, i, fault) {
      forall k | 0 <= k < |j.votes| ensures JustifiedVoteError(cfg, s, j, k) == None {
        NoFaultNoError(cfg, s, j, k);
      }
      NoErrorFrom(cfg, s, j, 0);
      VotesPassIff(cfg, s, j);
      AccumulatedIsExact(s, j.votes);
    }
  }

  lemma NoFaultNoError(cfg: Config, s: State, j: Justification, i: nat)
    requires i < |j.votes| && forall fault :: !FaultAt(cfg, s, j, i, fault)
    ensures JustifiedVoteError(cfg, s, j, i) == None
  {
    FaultIsError(cfg, s, j, i);
    assert forall fault :: JustifiedVoteError(cfg, s, j, i) != Some(fault);
  }

  // ----- genesis

  /** Genesis freezes the list in block 0 and starts at round 0 and head 0, with nothing voted or finalised. */
  lemma GenesisStorage(cfg: Config, initial: seq<Entry>)
    requires GenesisEntries(initial)
    ensures var s := Genesis(cfg, initial);
            && s.currentRound == 0 && s.finalizedNumber == 0 && s.finalizedHash == None
            && s.records == map[] && s.tallies == map[]
            && s.validatorSetId == 0 && s.setIdChangedAt == Some(0)
            && s.previousSet <= Accounts(initial) && |s.previousSet| == Min(|initial|, cfg.maxValidators)
  {
  }

  // ----- reports

  /** A run's head has reached a block exactly when it started there or some event finalised it or a later one. */
  lemma {:induction false} HeadReachesIff(cfg: Config, s: State, es: seq<Event>, block: u32)
    ensures block <= Run(cfg, s, es).finalizedNumber <==>
            block <= s.finalizedNumber || exists i | 0 <= i < |es| :: FinalizesFrom(cfg, s, es, i, block)
  {
    if es != [] {
      var n := |es| - 1;
      var front := es[..n];
      HeadReachesIff(cfg, s, front, block);
      FinalizationAdvances(cfg, Run(cfg, s, front), es[n]);
      forall i | 0 <= i < n ensures FinalizesFrom(cfg, s, es, i, block) <==> FinalizesFrom(cfg, s, front, i, block) {
        assert front[..i] == es[..i];
      }
      assert block <= Run(cfg, s, es).finalizedNumber <==>
             block <= Run(cfg, s, front).finalizedNumber || FinalizesFrom(cfg, s, es, n, block);
    }
  }

  /** The `i`-th event finalises `block` or a later one. */
  predicate FinalizesFrom(cfg: Config, s: State, es: seq<Event>, i: nat, block: u32)
    requires i < |es|
  {
    EmittedAt(cfg, s, es, i).Some? && block <= EmittedAt(cfg, s, es, i).value.blockNumber
  }

  /**
    Over every run from genesis, a block is reported final exactly when it is block 0 or an event of the run
    finalised it or a later one. A report that is not final says nothing more; one that is names a checkpoint.
  */
  lemma ReportedFinalIff(cfg: Config, initial: seq<Entry>, es: seq<Event>, block: u32)
    ensures var s := Genesis(cfg, initial); var info := GetFinalityInfo(cfg, Run(cfg, s, es), block);
            && (info.isFinalized <==> block == 0 || exists i | 0 <= i < |es| :: FinalizesFrom(cfg, s, es, i, block))
            && (info.checkpoint.Some? <==> info.isFinalized)
            && (!info.isFinalized ==> info.hash == None)
            && (info.isFinalized && cfg.checkpointInterval == 0 ==>
                info.checkpoint == Some(Run(cfg, s, es).finalizedNumber))
  {
    HeadReachesIff(cfg, Genesis(cfg, initial), es, block);
  }
}
