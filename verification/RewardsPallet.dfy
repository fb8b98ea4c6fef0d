/** The staking pallet's epoch ledgers and the methods that update them in place. */
module RewardsPallet {
  import opened Wrappers
  import opened Numeric
  import opened Sums
  import opened Sorting
  import opened Rewards

  class Pallet {
    const cfg: Config

    var validators: set<AccountId>
    var freeBalance: map<AccountId, nat>
    var epochTotalRewarded: nat
    var epochTotalSlashed: nat
    var validatorEpochRewarded: map<AccountId, nat>
    var validatorEpochSlashed: map<AccountId, nat>

    ghost function Storage(): State
      reads this
    {
      State(validators, freeBalance, epochTotalRewarded, epochTotalSlashed, validatorEpochRewarded, validatorEpochSlashed)
    }

    constructor (cfg: Config, validators: set<AccountId>, free: map<AccountId, nat>)
      ensures this.cfg == cfg && Storage() == State(validators, free, 0, 0, map[], map[])
    {
      this.cfg, this.validators, freeBalance := cfg, validators, free;
      epochTotalRewarded, epochTotalSlashed := 0, 0;
      validatorEpochRewarded, validatorEpochSlashed := map[], map[];
    }

    method ExecuteRewardValidator(who: AccountId, amount: nat) returns (r: Result<(), Error>)
      modifies this
      ensures match Reward(cfg, old(Storage()), who, amount)
              case Success(t) => r.Success? && Storage() == t
              case Failure(e) => r == Failure(e) && Storage() == old(Storage())
    {
      if who !in validators {
        return Failure(ValidatorNotInSet);
      }
      var preBalance := At(freeBalance, who);
      var reward := if amount > 0 then amount else cfg.validatorReward;

      var newEpochTotal := epochTotalRewarded + reward;
      if newEpochTotal > U128_MAX {
        return Failure(ArithmeticOverflow);
      }
      if newEpochTotal > cfg.maxRewardPerEpoch {
        return Failure(RewardBoundsExceeded);
      }
      var newValidatorTotal := At(validatorEpochRewarded, who) + reward;
      if newValidatorTotal > U128_MAX {
        return Failure(ArithmeticOverflow);
      }
      if newValidatorTotal > cfg.maxRewardPerValidator {
        return Failure(RewardBoundsExceeded);
      }
      if preBalance + reward > U128_MAX {
        return Failure(ArithmeticOverflow);
      }
      freeBalance := freeBalance[who := preBalance + reward];
      epochTotalRewarded := SaturatingAdd(epochTotalRewarded, reward);
      validatorEpochRewarded := validatorEpochRewarded[who := SaturatingAdd(At(validatorEpochRewarded, who), reward)];
      return Success(());
    }

    method ExecuteSlashValidator(who: AccountId, amount: nat, effect: SlashEffect) returns (r: Result<(), Error>)
      modifies this
      ensures match Slash(cfg, old(Storage()), who, amount, effect)
              case Success(t) => r.Success? && Storage() == t
              case Failure(e) => r == Failure(e) && Storage() == old(Storage())
    {
      if who !in validators {
        return Failure(ValidatorNotInSet);
      }
      var preBalance := At(freeBalance, who);
      var slash := amount;
      if amount == 0 {
        if preBalance * cfg.slashPercent > U128_MAX {
          return Failure(ArithmeticOverflow);
        }
        MulMonotone(0, preBalance, cfg.slashPercent);
        slash := preBalance * cfg.slashPercent / 100;
      }
      assert SlashAmount(cfg, Storage(), who, amount) == Some(slash);
      if epochTotalSlashed + slash > U128_MAX {
        return Failure(ArithmeticOverflow);
      }
      if epochTotalSlashed + slash > cfg.maxSlashPerEpoch {
        return Failure(SlashingBoundsExceeded);
      }
      if At(validatorEpochSlashed, who) + slash > U128_MAX {
        return Failure(ArithmeticOverflow);
      }
      if At(validatorEpochSlashed, who) + slash > cfg.maxSlashPerValidator {
        return Failure(SlashingBoundsExceeded);
      }
      RecordSlash(who, slash, effect);
      return Success(());
    }

    method RecordSlash(who: AccountId, slash: nat, effect: SlashEffect)
      modifies this
      ensures Storage() == Slashed(old(Storage()), who, slash, effect)
    {
      freeBalance := freeBalance[who := effect.freeAfter];
      var recorded := Min(effect.remainder, slash);
      epochTotalSlashed := SaturatingAdd(epochTotalSlashed, recorded);
      validatorEpochSlashed := validatorEpochSlashed[who := SaturatingAdd(At(validatorEpochSlashed, who), recorded)];
    }

    method RewardMultipleValidators(accounts: seq<AccountId>, amount: nat)
      modifies this
      ensures Storage() == RewardEach(cfg, old(Storage()), accounts, amount)
    {
      for i := 0 to |accounts|
        invariant Storage() == RewardEach(cfg, old(Storage()), accounts[..i], amount)
      {
        var _ := ExecuteRewardValidator(accounts[i], amount);
        assert accounts[..i + 1][..i] == accounts[..i];
      }
      assert accounts[..|accounts|] == accounts;
    }

    method SlashMultipleValidators(slashes: seq<(AccountId, SlashEffect)>, amount: nat)
      modifies this
      ensures Storage() == SlashEach(cfg, old(Storage()), slashes, amount)
    {
      for i := 0 to |slashes|
        invariant Storage() == SlashEach(cfg, old(Storage()), slashes[..i], amount)
      {
        var _ := ExecuteSlashValidator(slashes[i].0, amount, slashes[i].1);
        assert slashes[..i + 1][..i] == slashes[..i];
      }
      assert slashes[..|slashes|] == slashes;
    }

    /** The scores of the active validators, highest first. */
    method Rank(active: seq<AccountId>, score: AccountId -> nat) returns (ranking: seq<Ranked>)
      ensures ranking == Ranking(active, score)
    {
      var scored: seq<Ranked> := [];
      for i := 0 to |active|
        invariant scored == Scored(active, score)[..i]
      {
        scored := scored + [Ranked(active[i], score(active[i]))];
      }
      assert scored == Scored(active, score);
      return Sort(scored, BY_FALLING_SCORE);
    }

    method CountHigh(ranking: seq<Ranked>) returns (count: nat)
      ensures count == HighCount(cfg, ranking)
    {
      count := 0;
      for i := 0 to |ranking|
        invariant count == HighCount(cfg, ranking[..i])
      {
        if ranking[i].score >= cfg.highPerformanceScore {
          count := count + 1;
        }
        assert ranking[..i + 1][..i] == ranking[..i];
      }
      assert ranking[..|ranking|] == ranking;
    }

    /** Pays every share in ranking order; a failure stops the round half-way. */
    method DistributeRewards(active: seq<AccountId>, score: AccountId -> nat, pools: Pools) returns (r: Result<(), Error>)
      modifies this
      ensures match Distribute(cfg, old(Storage()), active, score, pools)
              case Success(t) => r.Success? && Storage() == t
              case Failure(e) =>
                var ranking := Ranking(active, score);
                r == Failure(e) &&
                StoppedAfter(cfg, old(Storage()), Payments(cfg, ranking, PerHeads(cfg, ranking, pools)), Storage())
    {
      if active == [] {
        return Success(());
      }
      var ranking := Rank(active, score);
      var heads := DividePools(ranking, pools);
      r := PayShares(ranking, heads);
    }

    method DividePools(ranking: seq<Ranked>, pools: Pools) returns (heads: Heads)
      requires ranking != []
      ensures heads == PerHeads(cfg, ranking, pools)
    {
      var highCount := CountHigh(ranking);
      var topCount := TopCount(cfg, |ranking|);
      heads := Heads(
        pools.base / |ranking|,
        if highCount > 0 then pools.performance / highCount else 0,
        if topCount > 0 then pools.top / topCount else 0);
    }

    method PayShares(ranking: seq<Ranked>, heads: Heads) returns (r: Result<(), Error>)
      modifies this
      ensures match PayAll(cfg, old(Storage()), Payments(cfg, ranking, heads))
              case Success(t) => r.Success? && Storage() == t
              case Failure(e) => r == Failure(e) && StoppedAfter(cfg, old(Storage()), Payments(cfg, ranking, heads), Storage())
    {
      ghost var payments := Payments(cfg, ranking, heads);
      for i := 0 to |ranking|
        invariant PayAll(cfg, old(Storage()), payments[..i]) == Success(Storage())
      {
        var reward := RewardFor(ranking, heads, ranking[i]);
        assert payments[..i + 1][..i] == payments[..i];
        var paid := ExecuteRewardValidator(ranking[i].account, reward);
        if paid.Failure? {
          PayAllStops(cfg, old(Storage()), payments, i + 1);
          return paid;
        }
      }
      assert payments[..|ranking|] == payments;
      return Success(());
    }

    method RewardFor(ranking: seq<Ranked>, heads: Heads, r: Ranked) returns (reward: nat)
      ensures reward == Share(cfg, ranking, heads, r)
    {
      reward := heads.base;
      if r.score >= cfg.highPerformanceScore {
        reward := SaturatingAdd(reward, heads.performance);
      }
      if InTop(cfg, ranking, r.account) {
        reward := SaturatingAdd(reward, heads.top);
      }
    }

    /** The dispatchable: a failure rolls every payment of the round back. */
    method DistributeEpochRewards(total: u128, active: seq<AccountId>, score: AccountId -> nat) returns (r: Result<(), Error>)
      modifies this
      ensures match Distribute(cfg, old(Storage()), active, score, EpochPools(total))
              case Success(t) => r.Success? && Storage() == t
              case Failure(e) => r == Failure(e) && Storage() == old(Storage())
    {
      var pools := Pools(total * 60 % U128_MODULUS / 100, total * 25 % U128_MODULUS / 100, total * 15 % U128_MODULUS / 100);
      var free, rewarded, perValidator := freeBalance, epochTotalRewarded, validatorEpochRewarded;
      var registered, slashed, slashedPerValidator := validators, epochTotalSlashed, validatorEpochSlashed;
      r := DistributeRewards(active, score, pools);
      if r.Failure? {
        freeBalance, epochTotalRewarded, validatorEpochRewarded := free, rewarded, perValidator;
        validators, epochTotalSlashed, validatorEpochSlashed := registered, slashed, slashedPerValidator;
      }
    }

    method ResetEpochTotals()
      modifies this
      ensures Storage() == old(Storage()).(totalRewarded := 0, totalSlashed := 0, rewarded := map[], slashed := map[])
    {
      epochTotalSlashed, epochTotalRewarded := 0, 0;
      validatorEpochSlashed, validatorEpochRewarded := map[], map[];
    }
  }

  /** The payments before the one that failed stand. */
  ghost predicate StoppedAfter(cfg: Config, s: State, payments: seq<Payment>, t: State) {
    exists m | 0 <= m < |payments| ::
      PayAll(cfg, s, payments[..m]) == Success(t) && PayAll(cfg, s, payments[..m + 1]).Failure?
  }

  /** Once a prefix of the payments fails, the whole round fails with the same error. */
  lemma {:induction false} PayAllStops(cfg: Config, s: State, payments: seq<Payment>, m: nat)
    requires m <= |payments| && PayAll(cfg, s, payments[..m]).Failure?
    ensures PayAll(cfg, s, payments) == PayAll(cfg, s, payments[..m])
    decreases |payments|
  {
    if m == |payments| {
      assert payments[..m] == payments;
    } else {
      var front := payments[..|payments| - 1];
      assert front[..m] == payments[..m];
      PayAllStops(cfg, s, front, m);
    }
  }
}
