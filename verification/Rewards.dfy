/**
  The reward and slash ledgers of an epoch, and the distribution of reward pools: one state value for
  the storage, one function for each operation, and runs of them.
*/
module Rewards {
  import opened Wrappers
  import opened Numeric
  import opened Sums
  import opened Sorting

  type AccountId = nat

  datatype Config = Config(
    validatorReward: u128,
    slashPercent: u32,
    maxRewardPerEpoch: u128,
    maxRewardPerValidator: u128,
    maxSlashPerEpoch: u128,
    maxSlashPerValidator: u128,
    highPerformanceScore: nat,
    topPerformerPercentage: nat)

  datatype Error =
    | ValidatorNotInSet
    | ArithmeticOverflow
    | RewardBoundsExceeded
    | SlashingBoundsExceeded

  datatype State = State(
    registered: set<AccountId>,
    free: map<AccountId, nat>,
    totalRewarded: nat,
    totalSlashed: nat,
    rewarded: map<AccountId, nat>,
    slashed: map<AccountId, nat>)

  // ----- one reward

  /** Zero stands for the default reward. */
  function RewardAmount(cfg: Config, amount: nat): nat {
    if amount > 0 then amount else cfg.validatorReward
  }

  /** Room for `amount` on top of `current`: the sum must fit the integer width, then the cap. */
  function CapError(current: nat, amount: nat, cap: nat, exceeded: Error): Option<Error> {
    if current + amount > U128_MAX then Some(ArithmeticOverflow)
    else if current + amount > cap then Some(exceeded)
    else None
  }

  function RewardError(cfg: Config, s: State, who: AccountId, amount: nat): Option<Error> {
    var reward := RewardAmount(cfg, amount);
    var epochError := CapError(s.totalRewarded, reward, cfg.maxRewardPerEpoch, RewardBoundsExceeded);
    var validatorError := CapError(At(s.rewarded, who), reward, cfg.maxRewardPerValidator, RewardBoundsExceeded);
    if who !in s.registered then Some(ValidatorNotInSet)
    else if epochError.Some? then epochError
    else if validatorError.Some? then validatorError
    else if At(s.free, who) + reward > U128_MAX then Some(ArithmeticOverflow)
    else None
  }

  function Rewarded(cfg: Config, s: State, who: AccountId, amount: nat): State {
    var reward := RewardAmount(cfg, amount);
    s.(free := s.free[who := At(s.free, who) + reward],
       totalRewarded := SaturatingAdd(s.totalRewarded, reward),
       rewarded := s.rewarded[who := SaturatingAdd(At(s.rewarded, who), reward)])
  }

  function Reward(cfg: Config, s: State, who: AccountId, amount: nat): Result<State, Error> {
    var error := RewardError(cfg, s, who, amount);
    if error.Some? then Failure(error.value) else Success(Rewarded(cfg, s, who, amount))
  }

  // ----- one slash

  /** The currency's answer to `slash`: the part it could not take, and the free balance it leaves. */
  datatype SlashEffect = SlashEffect(remainder: nat, freeAfter: nat)

  function SlashAmount(cfg: Config, s: State, who: AccountId, amount: nat): Option<nat> {
    if amount > 0 then Some(amount)
    else
      MulMonotone(0, At(s.free, who), cfg.slashPercent);
      if At(s.free, who) * cfg.slashPercent > U128_MAX then None
      else Some(At(s.free, who) * cfg.slashPercent / 100)
  }

  function SlashError(cfg: Config, s: State, who: AccountId, amount: nat): Option<Error> {
    var slash := SlashAmount(cfg, s, who, amount);
    if who !in s.registered then Some(ValidatorNotInSet)
    else if slash == None then Some(ArithmeticOverflow)
    else
      var epochError := CapError(s.totalSlashed, slash.value, cfg.maxSlashPerEpoch, SlashingBoundsExceeded);
      if epochError.Some? then epochError
      else CapError(At(s.slashed, who), slash.value, cfg.maxSlashPerValidator, SlashingBoundsExceeded)
  }

  /** The ledgers record the currency's second result, cut off at the amount asked for. */
  function Slashed(s: State, who: AccountId, slash: nat, effect: SlashEffect): State {
    var recorded := Min(effect.remainder, slash);
    s.(free := s.free[who := effect.freeAfter],
       totalSlashed := SaturatingAdd(s.totalSlashed, recorded),
       slashed := s.slashed[who := SaturatingAdd(At(s.slashed, who), recorded)])
  }

  function Slash(cfg: Config, s: State, who: AccountId, amount: nat, effect: SlashEffect): Result<State, Error> {
    var error := SlashError(cfg, s, who, amount);
    if error.Some? then Failure(error.value)
    else Success(Slashed(s, who, SlashAmount(cfg, s, who, amount).value, effect))
  }

  function OrUnchanged(s: State, r: Result<State, Error>): State {
    if r.Success? then r.value else s
  }

  // ----- batches, which ignore the errors of single calls

  function RewardEach(cfg: Config, s: State, who: seq<AccountId>, amount: nat): State {
    if who == [] then s
    else
      var n := |who| - 1;
      var t := RewardEach(cfg, s, who[..n], amount);
      OrUnchanged(t, Reward(cfg, t, who[n], amount))
  }

  function SlashEach(cfg: Config, s: State, who: seq<(AccountId, SlashEffect)>, amount: nat): State {
    if who == [] then s
    else
      var n := |who| - 1;
      var t := SlashEach(cfg, s, who[..n], amount);
      OrUnchanged(t, Slash(cfg, t, who[n].0, amount, who[n].1))
  }

  // ----- distribution

  datatype Pools = Pools(base: nat, performance: nat, top: nat)

  /** The pools of an epoch: products of u128 values, which wrap around, and then hundredths. */
  function EpochPools(total: u128): Pools {
    Pools(total * 60 % U128_MODULUS / 100, total * 25 % U128_MODULUS / 100, total * 15 % U128_MODULUS / 100)
  }

  datatype Ranked = Ranked(account: AccountId, score: nat)

  function Scored(active: seq<AccountId>, score: AccountId -> nat): (r: seq<Ranked>)
    ensures |r| == |active|
  {
    Map(active, a => Ranked(a, score(a)))
  }

  const BY_FALLING_SCORE: Ranked -> int := (r: Ranked) => -(r.score as int)

  /** Validators by falling score; equal scores keep their order. */
  function Ranking(active: seq<AccountId>, score: AccountId -> nat): (r: seq<Ranked>)
    ensures |r| == |active|
  {
    SortKeeps(Scored(active, score), BY_FALLING_SCORE);
    Sort(Scored(active, score), BY_FALLING_SCORE)
  }

  predicate High(cfg: Config, r: Ranked) {
    r.score >= cfg.highPerformanceScore
  }

  function HighCount(cfg: Config, ranking: seq<Ranked>): nat {
    if ranking == [] then 0
    else HighCount(cfg, ranking[..|ranking| - 1]) + if High(cfg, ranking[|ranking| - 1]) then 1 else 0
  }

  function TopCount(cfg: Config, n: nat): nat {
    Min(n * cfg.topPerformerPercentage / 100, n)
  }

  /** A pool divided evenly among a group; nothing for an empty group. */
  function PerHead(pool: nat, heads: nat): nat {
    if heads > 0 then pool / heads else 0
  }

  predicate InTop(cfg: Config, ranking: seq<Ranked>, who: AccountId) {
    exists k | 0 <= k < |ranking| :: k < TopCount(cfg, |ranking|) && ranking[k].account == who
  }

  /** What one head of each group gets: all validators, the high performers, the top performers. */
  datatype Heads = Heads(base: nat, performance: nat, top: nat)

  function PerHeads(cfg: Config, ranking: seq<Ranked>, pools: Pools): Heads {
    Heads(PerHead(pools.base, |ranking|),
          PerHead(pools.performance, HighCount(cfg, ranking)),
          PerHead(pools.top, TopCount(cfg, |ranking|)))
  }

  function Share(cfg: Config, ranking: seq<Ranked>, heads: Heads, r: Ranked): nat {
    var withPerformance := if High(cfg, r) then SaturatingAdd(heads.base, heads.performance) else heads.base;
    if InTop(cfg, ranking, r.account) then SaturatingAdd(withPerformance, heads.top) else withPerformance
  }

  datatype Payment = Payment(account: AccountId, amount: nat)

  function Payments(cfg: Config, ranking: seq<Ranked>, heads: Heads): (r: seq<Payment>)
    ensures |r| == |ranking|
  {
    seq(|ranking|, i requires 0 <= i < |ranking| => Payment(ranking[i].account, Share(cfg, ranking, heads, ranking[i])))
  }

  /** Pays in order and stops at the first failure. */
  function PayAll(cfg: Config, s: State, payments: seq<Payment>): Result<State, Error> {
    if payments == [] then Success(s)
    else
      var n := |payments| - 1;
      match PayAll(cfg, s, payments[..n])
      case Failure(e) => Failure(e)
      case Success(t) => Reward(cfg, t, payments[n].account, payments[n].amount)
  }

  function Distribute(cfg: Config, s: State, active: seq<AccountId>, score: AccountId -> nat, pools: Pools): Result<State, Error> {
    var ranking := Ranking(active, score);
    PayAll(cfg, s, Payments(cfg, ranking, PerHeads(cfg, ranking, pools)))
  }

  // ----- runs

  datatype Event =
    | RewardOne(who: AccountId, amount: nat)
    | SlashOne(who: AccountId, amount: nat, effect: SlashEffect)
    | RewardMany(accounts: seq<AccountId>, amount: nat)
    | SlashMany(slashes: seq<(AccountId, SlashEffect)>, amount: nat)
    | DistributeEpoch(total: u128, active: seq<AccountId>, score: AccountId -> nat)
    | ResetEpoch
    | SetRegistered(registered: set<AccountId>)
    | SetFree(free: map<AccountId, nat>)

  ghost function Step(cfg: Config, s: State, e: Event): State {
    match e
    case RewardOne(who, amount) => OrUnchanged(s, Reward(cfg, s, who, amount))
    case SlashOne(who, amount, effect) => OrUnchanged(s, Slash(cfg, s, who, amount, effect))
    case RewardMany(accounts, amount) => RewardEach(cfg, s, accounts, amount)
    case SlashMany(slashes, amount) => SlashEach(cfg, s, slashes, amount)
    case DistributeEpoch(total, active, score) => OrUnchanged(s, Distribute(cfg, s, active, score, EpochPools(total)))
    case ResetEpoch => s.(totalRewarded := 0, totalSlashed := 0, rewarded := map[], slashed := map[])
    case SetRegistered(registered) => s.(registered := registered)
    case SetFree(free) => s.(free := free)
  }

  ghost function Run(cfg: Config, s: State, es: seq<Event>): State {
    if es == [] then s else Step(cfg, Run(cfg, s, es[..|es| - 1]), es[|es| - 1])
  }
}
