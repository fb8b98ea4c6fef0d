/** The finality gadget's storage and the methods that update it in place. */
module DvfPallet {
  import opened Wrappers
  import opened Numeric
  import opened Sums
  import opened Dvf

  class Pallet {
    const cfg: Config

    var epochVotingWeight: map<AccountId, nat>
    var totalVotingWeight: u128
    var currentRound: u32
    var finalizedBlockNumber: u32
    var finalizedBlockHash: Option<Hash>
    var voteRecords: map<(u32, AccountId), Vote>
    var voteTallies: map<Hash, nat>
    var validatorSetId: u32
    var previousValidatorSet: seq<AccountId>
    var validatorSetIdChangedAt: Option<u32>

    ghost function Storage(): State
      reads this
    {
      State(epochVotingWeight, totalVotingWeight, currentRound, finalizedBlockNumber, finalizedBlockHash,
            voteRecords, voteTallies, validatorSetId, previousValidatorSet, validatorSetIdChangedAt)
    }

    constructor (cfg: Config, initial: seq<Entry>)
      requires GenesisEntries(initial)
      ensures this.cfg == cfg
      ensures Storage() == Genesis(cfg, initial)
    {
      this.cfg := cfg;
      epochVotingWeight, totalVotingWeight, currentRound := map[], 0, 0;
      finalizedBlockNumber, finalizedBlockHash := 0, None;
      voteRecords, voteTallies := map[], map[];
      validatorSetId, previousValidatorSet, validatorSetIdChangedAt := 0, [], None;
      new;
      FreezeEpochWeights(initial, 0);
      validatorSetId := 0;
    }

    method FreezeEpochWeights(entries: seq<Entry>, now: u32)
      modifies this
      ensures Storage() == Freeze(cfg, old(Storage()), entries, now)
    {
      var accounts: seq<AccountId> := [];
      for i := 0 to |entries|
        invariant accounts == Accounts(entries[..i])
      {
        accounts := accounts + [entries[i].account];
      }
      assert entries[..|entries|] == entries;
      if SetChanged(previousValidatorSet, accounts) {
        validatorSetId := SaturatingAdd32(validatorSetId, 1);
        validatorSetIdChangedAt := Some(now);
      }
      previousValidatorSet := Truncated(cfg, accounts);

      var totalStake := SumStakes(entries);
      AssignWeights(entries, totalStake);
    }

    /** Writes the weight of every entry and accumulates their total. */
    method AssignWeights(entries: seq<Entry>, totalStake: u128)
      requires totalStake == TotalStake(entries)
      modifies this`epochVotingWeight, this`totalVotingWeight
      ensures epochVotingWeight == FrozenWeights(entries)
      ensures totalVotingWeight == FrozenTotal(entries)
    {
      epochVotingWeight := map[];
      var total: nat := 0;
      ghost var keys, weights := Accounts(entries), WeightList(entries);
      for i := 0 to |entries|
        invariant epochVotingWeight == InsertAll(keys[..i], weights[..i])
        invariant total == Min(Sum(weights[..i]), U128_MAX)
      {
        var weight := NormalizedWeight(entries[i].stake, totalStake, |entries|);
        epochVotingWeight := epochVotingWeight[entries[i].account := weight];
        total := SaturatingAdd(total, weight);
        assert keys[..i + 1][..i] == keys[..i] && weights[..i + 1][..i] == weights[..i];
        SumSnoc(weights, i);
      }
      assert keys[..|entries|] == keys && weights[..|entries|] == weights;
      totalVotingWeight := total;
    }

    method SumStakes(entries: seq<Entry>) returns (total: u128)
      ensures total == TotalStake(entries)
    {
      total := 0;
      ghost var stakes := Stakes(entries);
      for i := 0 to |entries|
        invariant total == Sum(stakes[..i]) % U128_MODULUS
      {
        SumSnoc(stakes, i);
        WrapOneMore(Sum(stakes[..i]), stakes[i]);
        total := (total + entries[i].stake) % U128_MODULUS;
      }
      assert stakes[..|entries|] == stakes;
    }

    method SubmitDvfVote(vote: Vote) returns (r: Result<Option<BlockFinalized>, Error>)
      modifies this
      ensures match SubmitVote(cfg, old(Storage()), vote)
              case Success(a) => r == Success(a.emitted) && Storage() == a.state
              case Failure(e) => r == Failure(e) && Storage() == old(Storage())
    {
      var p := vote.payload;
      if !cfg.verify(vote.signature, p, p.validator) {
        return Failure(InvalidSignature);
      }
      if p.validator !in epochVotingWeight {
        return Failure(InvalidValidator);
      }
      var voterWeight := epochVotingWeight[p.validator];
      if !IsCheckpoint(cfg, p.blockNumber) {
        return Failure(NonCheckpointBlock);
      }
      if p.blockNumber <= finalizedBlockNumber {
        return Failure(BlockAlreadyFinalized);
      }
      var round := currentRound;
      if (round, p.validator) in voteRecords {
        return Failure(DoubleVote);
      }

      voteRecords := voteRecords[(round, p.validator) := vote];
      var newTally := SaturatingAdd(if p.blockHash in voteTallies then voteTallies[p.blockHash] else 0, voterWeight);
      voteTallies := voteTallies[p.blockHash := newTally];

      if newTally >= cfg.threshold(totalVotingWeight) {
        FinalizeBlock(p.blockHash, p.blockNumber, round);
        return Success(Some(BlockFinalized(p.blockNumber, p.blockHash, round, newTally)));
      }
      return Success(None);
    }

    method VerifyAndFinalizeJustification(j: Justification) returns (r: Result<BlockFinalized, Error>)
      modifies this
      ensures match SubmitJustification(cfg, old(Storage()), j)
              case Success(a) => r.Success? && a.emitted == Some(r.value) && Storage() == a.state
              case Failure(e) => r == Failure(e) && Storage() == old(Storage())
    {
      if j.votes == [] {
        return Failure(EmptyJustification);
      }
      var blockNumber := j.votes[0].payload.blockNumber;
      if !IsCheckpoint(cfg, blockNumber) {
        return Failure(NonCheckpointBlock);
      }
      if blockNumber <= finalizedBlockNumber {
        return Failure(BlockAlreadyFinalized);
      }

      var accumulated :- AccumulateVotes(j);
      if accumulated < cfg.threshold(totalVotingWeight) {
        return Failure(ThresholdNotReached);
      }
      FinalizeBlock(j.blockHash, blockNumber, j.roundNumber);
      return Success(BlockFinalized(blockNumber, j.blockHash, j.roundNumber, accumulated));
    }

    /** The pass over the votes: the first error it meets, or the weight it accumulates. */
    method AccumulateVotes(j: Justification) returns (r: Result<nat, Error>)
      requires j.votes != []
      ensures match FirstVoteError(cfg, Storage(), j, 0)
              case Some(e) => r == Failure(e)
              case None => r == Success(AccumulatedWeight(Storage(), j.votes))
    {
      var seen: set<AccountId> := {};
      var accumulated: nat := 0;
      var expectedSetId: Option<u32> := None;
      ghost var s := Storage();
      ghost var carried := VoteWeights(s.weights, j.votes);
      for i := 0 to |j.votes|
        invariant seen == Voters(j.votes[..i])
        invariant accumulated == Min(Sum(carried[..i]), U128_MAX)
        invariant expectedSetId == if i == 0 then None else Some(j.votes[0].payload.validatorSetId)
        invariant FirstVoteError(cfg, s, j, 0) == FirstVoteError(cfg, s, j, i)
      {
        var vote := j.votes[i];
        var p := vote.payload;
        if p.validator in seen {
          return Failure(DuplicateValidator);
        }
        seen := seen + {p.validator};
        if !cfg.verify(vote.signature, p, p.validator) {
          return Failure(InvalidSignature);
        }
        if expectedSetId.Some? {
          if p.validatorSetId != expectedSetId.value {
            return Failure(ValidatorSetIdMismatch);
          }
        } else {
          expectedSetId := Some(p.validatorSetId);
        }
        if p.roundId != j.roundNumber {
          return Failure(RoundMismatch);
        }
        if p.blockHash != j.blockHash {
          return Failure(BlockHashMismatch);
        }
        if p.validator !in epochVotingWeight {
          return Failure(InvalidValidator);
        }
        accumulated := SaturatingAdd(accumulated, epochVotingWeight[p.validator]);
        SumSnoc(carried, i);
        assert j.votes[..i + 1] == j.votes[..i] + [vote];
      }
      assert carried[..|j.votes|] == carried;
      return Success(accumulated);
    }

    method FinalizeBlock(hash: Hash, block: u32, round: u32)
      modifies this
      ensures Storage() == Dvf.FinalizeBlock(cfg, old(Storage()), block, hash, round)
    {
      finalizedBlockNumber := block;
      finalizedBlockHash := Some(hash);
      currentRound := SaturatingAdd32(round, 1);
      PruneVoteRecords(round);
      voteTallies := voteTallies - {hash};
    }

    /** Clears the records of every round older than the retention window, round by round. */
    method PruneVoteRecords(round: u32)
      modifies this`voteRecords
      ensures voteRecords == PrunedRecords(cfg, old(voteRecords), round)
    {
      if round > cfg.voteRetentionRounds {
        var cutoff := SaturatingSub(round, cfg.voteRetentionRounds);
        for old_round := 0 to cutoff
          invariant voteRecords == map k | k in old(voteRecords) && old_round <= k.0 :: old(voteRecords)[k]
        {
          voteRecords := map k | k in voteRecords && k.0 != old_round :: voteRecords[k];
        }
      }
    }
  }
}
