/** The bounded economic operations and the storage they update in place. */
module EconomicPallet {
  import opened Wrappers
  import opened Numeric
  import opened Sums
  import opened EconomicBounds

  class Pallet {
    const cfg: Config

    var currentEpoch: nat
    var epochBounds: map<nat, Bounds>
    var epochTrackers: map<nat, Tracker>
    var validatorSet: seq<AccountId>
    var freeBalance: map<AccountId, nat>
    var reservedBalance: map<AccountId, nat>

    ghost function Storage(): State
      reads this
    {
      State(currentEpoch, epochBounds, epochTrackers, validatorSet, freeBalance, reservedBalance)
    }

    constructor (cfg: Config, bounds: map<nat, Bounds>, members: seq<AccountId>, free: map<AccountId, nat>, reserved: map<AccountId, nat>)
      ensures this.cfg == cfg && Storage() == State(0, bounds, map[], members, free, reserved)
    {
      this.cfg, currentEpoch, epochBounds, epochTrackers := cfg, 0, bounds, map[];
      validatorSet, freeBalance, reservedBalance := members, free, reserved;
    }

    /** Stored bounds, or defaults computed from the reserves the validator set holds now. */
    method GetEpochEconomicBounds(epoch: nat) returns (b: Bounds)
      ensures b == GetBounds(cfg, Storage(), epoch)
    {
      if epoch in epochBounds {
        return epochBounds[epoch];
      }
      var totalStake := SumReserves();
      DivisionBrackets(totalStake, 10);
      return Bounds(totalStake / 10, ProductOr(cfg.minStake, 5), ProductOr(cfg.validatorReward, cfg.maxValidators),
                    ProductOr(cfg.validatorReward, 10), DEFAULT_PERCENTAGE);
    }

    method SumReserves() returns (total: nat)
      ensures total == TotalStake(reservedBalance, validatorSet)
    {
      total := 0;
      ghost var reserves := Reserves(reservedBalance, validatorSet);
      for i := 0 to |validatorSet|
        invariant total == Min(Sum(reserves[..i]), U128_MAX)
      {
        SumSnoc(reserves, i);
        total := SaturatingAdd(total, At(reservedBalance, validatorSet[i]));
      }
      assert reserves[..|validatorSet|] == reserves;
    }

    method ApplySlashingWithBounds(who: AccountId, amount: nat) returns (r: Result<Outcome, Error>)
      modifies this
      ensures r == TrySlash(cfg, old(Storage()), who, amount)
      ensures Storage() == AfterSlash(cfg, old(Storage()), who, amount)
    {
      var bounds := GetEpochEconomicBounds(currentEpoch);
      var tracker := if currentEpoch in epochTrackers then epochTrackers[currentEpoch] else NEW_TRACKER;
      var reserved := At(reservedBalance, who);
      r := CheckSlash(bounds, tracker, reserved, who, amount);
      if r.Success? && r.value.Applied? {
        reservedBalance := reservedBalance[who := reserved - amount];
        epochTrackers := epochTrackers[currentEpoch := TrackedSlash(tracker, who, amount)];
      }
    }

    /** The checks of a slash in the order they are made. */
    method CheckSlash(bounds: Bounds, tracker: Tracker, reserved: nat, who: AccountId, amount: nat)
      returns (r: Result<Outcome, Error>)
      ensures r == SlashOutcome(bounds, tracker, reserved, who, amount)
      ensures r.Success? && r.value.Applied? ==> amount <= reserved
    {
      if tracker.totalSlashing + amount > U128_MAX {
        return Failure(ArithmeticOverflow);
      }
      if tracker.totalSlashing + amount > bounds.maxTotalSlashing {
        return Success(BoundsViolation(amount, SaturatingSub(bounds.maxTotalSlashing, tracker.totalSlashing), TotalSlashingPerEpoch));
      }
      var current := At(tracker.slashing, who);
      if current + amount > U128_MAX {
        return Failure(ArithmeticOverflow);
      }
      if current + amount > bounds.maxValidatorSlashing {
        return Success(BoundsViolation(amount, SaturatingSub(bounds.maxValidatorSlashing, current), ValidatorSlashingPerEpoch));
      }
      if reserved != 0 {
        if amount * BASIS_POINTS > U128_MAX {
          return Failure(ArithmeticOverflow);
        }
        var percentage := amount * BASIS_POINTS / reserved;
        if percentage > U32_MAX {
          return Failure(ArithmeticOverflow);
        }
        if percentage > bounds.maxSlashingPercentage {
          return Success(BoundsViolation(amount, PercentageAdvice(reserved, bounds.maxSlashingPercentage), SlashingPercentageLimit));
        }
      }
      if reserved < amount {
        return Success(InsufficientBalance(reserved, amount));
      }
      return Success(Applied(amount, reserved, reserved - amount));
    }

    method ApplyRewardWithBounds(who: AccountId, amount: nat) returns (r: Result<Outcome, Error>)
      modifies this
      ensures r == TryReward(cfg, old(Storage()), who, amount)
      ensures Storage() == AfterReward(cfg, old(Storage()), who, amount)
    {
      var bounds := GetEpochEconomicBounds(currentEpoch);
      var tracker := if currentEpoch in epochTrackers then epochTrackers[currentEpoch] else NEW_TRACKER;
      var free := At(freeBalance, who);
      r := CheckReward(bounds, tracker, free, who, amount);
      if r.Success? && r.value.Applied? {
        freeBalance := freeBalance[who := free + amount];
        epochTrackers := epochTrackers[currentEpoch := TrackedReward(tracker, who, amount)];
      }
    }

    method CheckReward(bounds: Bounds, tracker: Tracker, free: nat, who: AccountId, amount: nat)
      returns (r: Result<Outcome, Error>)
      ensures r == RewardOutcome(bounds, tracker, free, who, amount)
    {
      if tracker.totalRewards + amount > U128_MAX {
        return Failure(ArithmeticOverflow);
      }
      if tracker.totalRewards + amount > bounds.maxTotalRewards {
        return Success(BoundsViolation(amount, SaturatingSub(bounds.maxTotalRewards, tracker.totalRewards), TotalRewardsPerEpoch));
      }
      var current := At(tracker.rewards, who);
      if current + amount > U128_MAX {
        return Failure(ArithmeticOverflow);
      }
      if current + amount > bounds.maxValidatorReward {
        return Success(BoundsViolation(amount, SaturatingSub(bounds.maxValidatorReward, current), ValidatorRewardsPerEpoch));
      }
      if free + amount > U128_MAX {
        return Failure(ArithmeticOverflow);
      }
      return Success(Applied(amount, free, free + amount));
    }

    method ResetEpochEconomicTracking(epoch: nat)
      modifies this`epochTrackers
      ensures Storage() == Step(cfg, old(Storage()), ResetTracking(epoch))
    {
      epochTrackers := epochTrackers[epoch := NEW_TRACKER];
    }
  }
}
