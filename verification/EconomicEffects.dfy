/** What each call of the bounded slasher answers and leaves behind, and what its bounds are. */
module EconomicEffects {
  import opened Wrappers
  import opened Numeric
  import opened Sums
  import opened EconomicBounds
  import opened EconomicAdvice

  // ----- bounds

  /** A product, unless it leaves its width: then its first factor. */
  predicate ProductOrFirst(bound: nat, a: nat, k: nat) {
    if a * k <= U128_MAX then bound == a * k else bound == a
  }

  /** Stored bounds come first; the defaults are a tenth of the set's stake, and fixed multiples of the configuration. */
  lemma BoundsAre(cfg: Config, s: State, epoch: nat)
    ensures var b := GetBounds(cfg, s, epoch); var stake := Min(Sum(Reserves(s.reserved, s.validatorSet)), U128_MAX);
            if epoch in s.bounds then b == s.bounds[epoch]
            else
              && 10 * b.maxTotalSlashing <= stake < 10 * b.maxTotalSlashing + 10
              && ProductOrFirst(b.maxValidatorSlashing, cfg.minStake, 5)
              && ProductOrFirst(b.maxTotalRewards, cfg.validatorReward, cfg.maxValidators)
              && ProductOrFirst(b.maxValidatorReward, cfg.validatorReward, 10)
              && b.maxSlashingPercentage == 3_000
  {
    DivisionBrackets(TotalStake(s.reserved, s.validatorSet), 10);
  }

  /** `per` for each of the most validators there may be covers `total`, in the width of the product. */
  predicate Covers(cfg: Config, per: nat, total: nat) {
    per * cfg.maxValidators <= U128_MAX && total <= per * cfg.maxValidators
  }

  /** Bounds are valid exactly when they are not zero, not above a hundred percent, and cover their totals. */
  lemma BoundsValidIff(cfg: Config, b: Bounds)
    ensures ValidateBounds(cfg, b).Success? <==>
            && b.maxTotalSlashing > 0 && b.maxValidatorSlashing > 0 && b.maxTotalRewards > 0 && b.maxValidatorReward > 0
            && b.maxSlashingPercentage <= 10_000
            && Covers(cfg, b.maxValidatorSlashing, b.maxTotalSlashing)
            && Covers(cfg, b.maxValidatorReward, b.maxTotalRewards)
  {
  }

  // ----- answers

  /** The tracker of the current epoch, which starts at nothing. */
  function Tracked(s: State): Tracker {
    if s.epoch in s.trackers then s.trackers[s.epoch] else Tracker(0, 0, map[], map[])
  }

  /** The sum fits its width and the cap. */
  predicate Under(current: nat, amount: nat, cap: u128) {
    current + amount <= U128_MAX && current + amount <= cap
  }

  predicate Over(current: nat, amount: nat, cap: u128) {
    current + amount <= U128_MAX && current + amount > cap
  }

  /** The room under a cap; none if it has been outgrown. */
  predicate IsRoom(room: nat, current: nat, cap: u128) {
    if current <= cap then current + room == cap else room == 0
  }

  /** The percentage can be computed without leaving a width. */
  predicate Computable(reserved: nat, amount: nat) {
    reserved == 0 || (amount * BASIS_POINTS <= U128_MAX && amount * BASIS_POINTS / reserved <= U32_MAX)
  }

  /** A refusal by one check: it repeats the request. */
  predicate RefusedBy(r: Result<Outcome, Error>, amount: nat, violation: Violation) {
    r.Success? && r.value.BoundsViolation? && r.value.violation == violation && r.value.requested == amount
  }

  /**
    The answer to a slash. The caps and the percentage check are asked in this order; the first that fails
    decides, the caps recommend their room and the percentage check the greatest amount within it.
  */
  lemma SlashAnswer(cfg: Config, s: State, who: AccountId, amount: nat)
    ensures var r := TrySlash(cfg, s, who, amount);
            var b := GetBounds(cfg, s, s.epoch); var t := Tracked(s); var reserved := At(s.reserved, who);
            var own := At(t.slashing, who);
            var underTotal := Under(t.totalSlashing, amount, b.maxTotalSlashing);
            var underCaps := underTotal && Under(own, amount, b.maxValidatorSlashing);
            var computable := underCaps && Computable(reserved, amount);
            var within := computable && PassesPercentage(reserved, amount, b.maxSlashingPercentage);
            && (RefusedBy(r, amount, TotalSlashingPerEpoch) <==> Over(t.totalSlashing, amount, b.maxTotalSlashing))
            && (RefusedBy(r, amount, ValidatorSlashingPerEpoch) <==> underTotal && Over(own, amount, b.maxValidatorSlashing))
            && (RefusedBy(r, amount, SlashingPercentageLimit) <==> computable && !within)
            && (RefusedBy(r, amount, TotalSlashingPerEpoch) ==> IsRoom(r.value.maxAllowed, t.totalSlashing, b.maxTotalSlashing))
            && (RefusedBy(r, amount, ValidatorSlashingPerEpoch) ==> IsRoom(r.value.maxAllowed, own, b.maxValidatorSlashing))
            && (RefusedBy(r, amount, SlashingPercentageLimit) ==> Advised(reserved, b.maxSlashingPercentage, r.value.maxAllowed))
            && (r == Success(InsufficientBalance(reserved, amount)) <==> within && reserved < amount)
            && (within && amount <= reserved ==> r == Success(Applied(amount, reserved, reserved - amount)))
            && (r == Failure(ArithmeticOverflow) <==>
                || t.totalSlashing + amount > U128_MAX
                || (underTotal && own + amount > U128_MAX)
                || (underCaps && !computable))
  {
    RecommendationIsAdvised(At(s.reserved, who), GetBounds(cfg, s, s.epoch).maxSlashingPercentage);
  }

  /** The answer to a reward, in the same way. */
  lemma RewardAnswer(cfg: Config, s: State, who: AccountId, amount: nat)
    ensures var r := TryReward(cfg, s, who, amount);
            var b := GetBounds(cfg, s, s.epoch); var t := Tracked(s); var free := At(s.free, who);
            var own := At(t.rewards, who);
            var underTotal := Under(t.totalRewards, amount, b.maxTotalRewards);
            var underCaps := underTotal && Under(own, amount, b.maxValidatorReward);
            && (RefusedBy(r, amount, TotalRewardsPerEpoch) <==> Over(t.totalRewards, amount, b.maxTotalRewards))
            && (RefusedBy(r, amount, ValidatorRewardsPerEpoch) <==> underTotal && Over(own, amount, b.maxValidatorReward))
            && (RefusedBy(r, amount, TotalRewardsPerEpoch) ==> IsRoom(r.value.maxAllowed, t.totalRewards, b.maxTotalRewards))
            && (RefusedBy(r, amount, ValidatorRewardsPerEpoch) ==> IsRoom(r.value.maxAllowed, own, b.maxValidatorReward))
            && (r == Success(Applied(amount, free, free + amount)) <==> underCaps && free + amount <= U128_MAX)
            && (r == Failure(ArithmeticOverflow) <==>
                || t.totalRewards + amount > U128_MAX
                || (underTotal && own + amount > U128_MAX)
                || (underCaps && free + amount > U128_MAX))
  {
  }

  // ----- storage

  predicate Applies(r: Result<Outcome, Error>) {
    r.Success? && r.value.Applied?
  }

  /** An applied slash moves the amount from the reserve into both slash totals of the epoch; nothing else ever changes. */
  lemma SlashStores(cfg: Config, s: State, who: AccountId, amount: nat)
    ensures var u := Step(cfg, s, Slash(who, amount));
            if Applies(TrySlash(cfg, s, who, amount)) then
              var t := Tracked(s);
              && amount <= At(s.reserved, who)
              && u.reserved == s.reserved[who := At(s.reserved, who) - amount]
              && u.trackers == s.trackers[s.epoch := Tracker(t.totalSlashing + amount, t.totalRewards,
                                                             t.slashing[who := At(t.slashing, who) + amount], t.rewards)]
              && u.free == s.free && u.bounds == s.bounds && u.validatorSet == s.validatorSet && u.epoch == s.epoch
            else u == s
  {
  }

  /** An applied reward adds the amount to the balance and to both reward totals of the epoch; nothing else ever changes. */
  lemma RewardStores(cfg: Config, s: State, who: AccountId, amount: nat)
    ensures var u := Step(cfg, s, Reward(who, amount));
            if Applies(TryReward(cfg, s, who, amount)) then
              var t := Tracked(s);
              && u.free == s.free[who := At(s.free, who) + amount]
              && u.trackers == s.trackers[s.epoch := Tracker(t.totalSlashing, t.totalRewards + amount,
                                                             t.slashing, t.rewards[who := At(t.rewards, who) + amount])]
              && u.reserved == s.reserved && u.bounds == s.bounds && u.validatorSet == s.validatorSet && u.epoch == s.epoch
            else u == s
  {
  }

  /** A reset starts the tracker of its epoch anew, and touches nothing else. */
  lemma ResetStores(cfg: Config, s: State, epoch: nat)
    ensures var u := Step(cfg, s, ResetTracking(epoch));
            && u.trackers == s.trackers[epoch := Tracker(0, 0, map[], map[])]
            && u.reserved == s.reserved && u.free == s.free && u.bounds == s.bounds
            && u.validatorSet == s.validatorSet && u.epoch == s.epoch
  {
  }
}
