/**
  Slashing and rewarding under per-epoch bounds: the checks in their order, the amount each refusal
  recommends, and the tracker that records what was applied.
*/
module EconomicBounds {
  import opened Wrappers
  import opened Numeric
  import opened Sums

  type AccountId = nat

  const BASIS_POINTS: nat := 10_000
  const DEFAULT_PERCENTAGE: nat := 3_000

  datatype Config = Config(minStake: u128, maxValidators: u32, validatorReward: u128)

  datatype Bounds = Bounds(
    maxTotalSlashing: u128,
    maxValidatorSlashing: u128,
    maxTotalRewards: u128,
    maxValidatorReward: u128,
    maxSlashingPercentage: u32)

  /** What was applied in one epoch: the totals and the amounts per validator. */
  datatype Tracker = Tracker(
    totalSlashing: nat,
    totalRewards: nat,
    slashing: map<AccountId, nat>,
    rewards: map<AccountId, nat>)

  const NEW_TRACKER := Tracker(0, 0, map[], map[])

  datatype Violation =
    | TotalSlashingPerEpoch
    | ValidatorSlashingPerEpoch
    | SlashingPercentageLimit
    | TotalRewardsPerEpoch
    | ValidatorRewardsPerEpoch

  datatype Outcome =
    | Applied(amount: nat, balanceBefore: nat, balanceAfter: nat)
    | BoundsViolation(requested: nat, maxAllowed: nat, violation: Violation)
    | InsufficientBalance(available: nat, needed: nat)

  datatype Error = ArithmeticOverflow | InvalidEpochConfig

  datatype State = State(
    epoch: nat,
    bounds: map<nat, Bounds>,
    trackers: map<nat, Tracker>,
    validatorSet: seq<AccountId>,
    free: map<AccountId, nat>,
    reserved: map<AccountId, nat>)

  // ----- bounds and trackers

  function Reserves(reserved: map<AccountId, nat>, accounts: seq<AccountId>): (r: seq<nat>)
    ensures |r| == |accounts|
  {
    seq(|accounts|, i requires 0 <= i < |accounts| => At(reserved, accounts[i]))
  }

  /** The reserve held by the validator set, cut off at the integer width. */
  function TotalStake(reserved: map<AccountId, nat>, accounts: seq<AccountId>): nat {
    Min(Sum(Reserves(reserved, accounts)), U128_MAX)
  }

  /** A product, or its first factor when the product does not fit. */
  function ProductOr(a: u128, k: u32): (r: u128)
    ensures a * k <= U128_MAX ==> r == a * k
    ensures a * k > U128_MAX ==> r == a
  {
    MulMonotone(0, a, k);
    if a * k <= U128_MAX then a * k else a
  }

  function DefaultBounds(cfg: Config, s: State): Bounds {
    DivisionBrackets(TotalStake(s.reserved, s.validatorSet), 10);
    Bounds(TotalStake(s.reserved, s.validatorSet) / 10,
           ProductOr(cfg.minStake, 5),
           ProductOr(cfg.validatorReward, cfg.maxValidators),
           ProductOr(cfg.validatorReward, 10),
           DEFAULT_PERCENTAGE)
  }

  function GetBounds(cfg: Config, s: State, epoch: nat): Bounds {
    if epoch in s.bounds then s.bounds[epoch] else DefaultBounds(cfg, s)
  }

  function GetTracker(s: State, epoch: nat): Tracker {
    if epoch in s.trackers then s.trackers[epoch] else NEW_TRACKER
  }

  function ValidateBounds(cfg: Config, b: Bounds): Result<(), Error> {
    MulMonotone(0, b.maxValidatorSlashing, cfg.maxValidators);
    MulMonotone(0, b.maxValidatorReward, cfg.maxValidators);
    if b.maxTotalSlashing == 0 || b.maxValidatorSlashing == 0 || b.maxTotalRewards == 0 || b.maxValidatorReward == 0 then
      Failure(InvalidEpochConfig)
    else if b.maxSlashingPercentage > BASIS_POINTS then Failure(InvalidEpochConfig)
    else if b.maxValidatorSlashing * cfg.maxValidators > U128_MAX then Failure(ArithmeticOverflow)
    else if b.maxValidatorSlashing * cfg.maxValidators < b.maxTotalSlashing then Failure(InvalidEpochConfig)
    else if b.maxValidatorReward * cfg.maxValidators > U128_MAX then Failure(ArithmeticOverflow)
    else if b.maxValidatorReward * cfg.maxValidators < b.maxTotalRewards then Failure(InvalidEpochConfig)
    else Success(())
  }

  // ----- slashing

  /** One cap: overflow of the sum is an error, exceeding the cap a refusal that names the room left. */
  function CapOutcome(current: nat, amount: nat, cap: u128, violation: Violation): Option<Result<Outcome, Error>> {
    if current + amount > U128_MAX then Some(Failure(ArithmeticOverflow))
    else if current + amount > cap then Some(Success(BoundsViolation(amount, SaturatingSub(cap, current), violation)))
    else None
  }

  /** The percentage check, in basis points of the reserve; an empty reserve skips it. */
  function PercentageOutcome(reserved: nat, amount: nat, maxPercentage: u32): Option<Result<Outcome, Error>> {
    if reserved == 0 then None
    else if amount * BASIS_POINTS > U128_MAX then Some(Failure(ArithmeticOverflow))
    else if amount * BASIS_POINTS / reserved > U32_MAX then Some(Failure(ArithmeticOverflow))
    else if amount * BASIS_POINTS / reserved > maxPercentage then
      Some(Success(BoundsViolation(amount, PercentageAdvice(reserved, maxPercentage), SlashingPercentageLimit)))
    else None
  }

  function PercentageAdvice(reserved: nat, maxPercentage: u32): nat {
    MulMonotone(0, reserved, maxPercentage);
    if reserved * maxPercentage > U128_MAX then 0 else reserved * maxPercentage / BASIS_POINTS
  }

  /** All checks of a slash, in order, against fixed bounds, tracker and reserve. */
  function SlashOutcome(b: Bounds, t: Tracker, reserved: nat, who: AccountId, amount: nat): Result<Outcome, Error> {
    var total := CapOutcome(t.totalSlashing, amount, b.maxTotalSlashing, TotalSlashingPerEpoch);
    var own := CapOutcome(At(t.slashing, who), amount, b.maxValidatorSlashing, ValidatorSlashingPerEpoch);
    var percentage := PercentageOutcome(reserved, amount, b.maxSlashingPercentage);
    if total.Some? then total.value
    else if own.Some? then own.value
    else if percentage.Some? then percentage.value
    else if reserved < amount then Success(InsufficientBalance(reserved, amount))
    else Success(Applied(amount, reserved, reserved - amount))
  }

  function TrySlash(cfg: Config, s: State, who: AccountId, amount: nat): Result<Outcome, Error> {
    SlashOutcome(GetBounds(cfg, s, s.epoch), GetTracker(s, s.epoch), At(s.reserved, who), who, amount)
  }

  function TrackedSlash(t: Tracker, who: AccountId, amount: nat): Tracker {
    t.(totalSlashing := t.totalSlashing + amount, slashing := t.slashing[who := At(t.slashing, who) + amount])
  }

  /** Only an applied slash changes storage. */
  function AfterSlash(cfg: Config, s: State, who: AccountId, amount: nat): State {
    var outcome := TrySlash(cfg, s, who, amount);
    if outcome.Success? && outcome.value.Applied? && amount <= At(s.reserved, who) then
      s.(reserved := s.reserved[who := At(s.reserved, who) - amount],
         trackers := s.trackers[s.epoch := TrackedSlash(GetTracker(s, s.epoch), who, amount)])
    else s
  }

  // ----- rewarding

  function RewardOutcome(b: Bounds, t: Tracker, free: nat, who: AccountId, amount: nat): Result<Outcome, Error> {
    var total := CapOutcome(t.totalRewards, amount, b.maxTotalRewards, TotalRewardsPerEpoch);
    var own := CapOutcome(At(t.rewards, who), amount, b.maxValidatorReward, ValidatorRewardsPerEpoch);
    if total.Some? then total.value
    else if own.Some? then own.value
    else if free + amount > U128_MAX then Failure(ArithmeticOverflow)
    else Success(Applied(amount, free, free + amount))
  }

  function TryReward(cfg: Config, s: State, who: AccountId, amount: nat): Result<Outcome, Error> {
    RewardOutcome(GetBounds(cfg, s, s.epoch), GetTracker(s, s.epoch), At(s.free, who), who, amount)
  }

  function TrackedReward(t: Tracker, who: AccountId, amount: nat): Tracker {
    t.(totalRewards := t.totalRewards + amount, rewards := t.rewards[who := At(t.rewards, who) + amount])
  }

  function AfterReward(cfg: Config, s: State, who: AccountId, amount: nat): State {
    var outcome := TryReward(cfg, s, who, amount);
    if outcome.Success? && outcome.value.Applied? then
      s.(free := s.free[who := At(s.free, who) + amount],
         trackers := s.trackers[s.epoch := TrackedReward(GetTracker(s, s.epoch), who, amount)])
    else s
  }

  // ----- runs

  datatype Event =
    | Slash(who: AccountId, amount: nat)
    | Reward(who: AccountId, amount: nat)
    | SetEpoch(epoch: nat)
    | ResetTracking(epoch: nat)

  function Step(cfg: Config, s: State, e: Event): State {
    match e
    case Slash(who, amount) => AfterSlash(cfg, s, who, amount)
    case Reward(who, amount) => AfterReward(cfg, s, who, amount)
    case SetEpoch(epoch) => s.(epoch := epoch)
    case ResetTracking(epoch) => s.(trackers := s.trackers[epoch := NEW_TRACKER])
  }

  function Run(cfg: Config, s: State, es: seq<Event>): State {
    if es == [] then s else Step(cfg, Run(cfg, s, es[..|es| - 1]), es[|es| - 1])
  }
}
