/** What one reward, one slash and one batch answer and leave behind, field by field. */
module RewardsEffects {
  import opened Numeric
  import opened Sums
  import opened Rewards

  /** A total that would leave its width, or its cap. */
  predicate Overflows(current: nat, amount: nat) {
    current + amount > U128_MAX
  }

  predicate Exceeds(current: nat, amount: nat, cap: u128) {
    !Overflows(current, amount) && current + amount > cap
  }

  /**
    A reward of nothing is the default reward. It is added to the balance, to the epoch's total and to the
    validator's, each exactly; or the first check that fails decides the error and nothing changes.
  */
  lemma RewardEffect(cfg: Config, s: State, who: AccountId, amount: nat)
    ensures var reward := if amount > 0 then amount else cfg.validatorReward as nat;
            var epochTooBig := Overflows(s.totalRewarded, reward) || Exceeds(s.totalRewarded, reward, cfg.maxRewardPerEpoch);
            var ownTooBig := Overflows(At(s.rewarded, who), reward) || Exceeds(At(s.rewarded, who), reward, cfg.maxRewardPerValidator);
            match Reward(cfg, s, who, amount)
            case Success(t) =>
              && who in s.registered && !epochTooBig && !ownTooBig && !Overflows(At(s.free, who), reward)
              && t.free == s.free[who := At(s.free, who) + reward]
              && t.rewarded == s.rewarded[who := At(s.rewarded, who) + reward]
              && t.totalRewarded == s.totalRewarded + reward
              && t.registered == s.registered && t.slashed == s.slashed && t.totalSlashed == s.totalSlashed
            case Failure(e) =>
              && (e == ValidatorNotInSet <==> who !in s.registered)
              && (who in s.registered ==>
                    && (e == RewardBoundsExceeded <==>
                        || Exceeds(s.totalRewarded, reward, cfg.maxRewardPerEpoch)
                        || (!epochTooBig && Exceeds(At(s.rewarded, who), reward, cfg.maxRewardPerValidator)))
                    && (e == ArithmeticOverflow <==>
                        || Overflows(s.totalRewarded, reward)
                        || (!epochTooBig && Overflows(At(s.rewarded, who), reward))
                        || (!epochTooBig && !ownTooBig && Overflows(At(s.free, who), reward))))
  {
  }

  /**
    A slash of nothing is the configured percentage of the free balance, rounded down. The ledgers record
    what the currency reports back, but no more than was asked for.
  */
  lemma SlashEffectOf(cfg: Config, s: State, who: AccountId, amount: nat, effect: SlashEffect)
    ensures var product := At(s.free, who) * cfg.slashPercent;
            var slash := if amount > 0 then amount else product / 100;
            var tooWide := amount == 0 && product > U128_MAX;
            var epochTooBig := Overflows(s.totalSlashed, slash) || Exceeds(s.totalSlashed, slash, cfg.maxSlashPerEpoch);
            match Slash(cfg, s, who, amount, effect)
            case Success(t) =>
              var recorded := Min(effect.remainder, slash);
              && who in s.registered && !tooWide
              && s.totalSlashed + slash <= cfg.maxSlashPerEpoch && At(s.slashed, who) + slash <= cfg.maxSlashPerValidator
              && t.free == s.free[who := effect.freeAfter]
              && t.slashed == s.slashed[who := At(s.slashed, who) + recorded]
              && t.totalSlashed == s.totalSlashed + recorded
              && t.registered == s.registered && t.rewarded == s.rewarded && t.totalRewarded == s.totalRewarded
            case Failure(e) =>
              && (e == ValidatorNotInSet <==> who !in s.registered)
              && (who in s.registered ==>
                    && (e == SlashingBoundsExceeded <==>
                        !tooWide &&
                        (|| Exceeds(s.totalSlashed, slash, cfg.maxSlashPerEpoch)
                         || (!epochTooBig && Exceeds(At(s.slashed, who), slash, cfg.maxSlashPerValidator))))
                    && (e == ArithmeticOverflow <==>
                        || tooWide
                        || Overflows(s.totalSlashed, slash)
                        || (!epochTooBig && Overflows(At(s.slashed, who), slash))))
  {
    MulMonotone(0, At(s.free, who), cfg.slashPercent);
  }

  // ----- batches

  function RewardsOf(accounts: seq<AccountId>, amount: nat): (es: seq<Event>)
    ensures |es| == |accounts|
  {
    seq(|accounts|, i requires 0 <= i < |accounts| => RewardOne(accounts[i], amount))
  }

  function SlashesOf(slashes: seq<(AccountId, SlashEffect)>, amount: nat): (es: seq<Event>)
    ensures |es| == |slashes|
  {
    seq(|slashes|, i requires 0 <= i < |slashes| => SlashOne(slashes[i].0, amount, slashes[i].1))
  }

  /** A batch of rewards is the run of its single rewards: each takes effect or fails on its own. */
  lemma {:induction false} RewardBatchIsRun(cfg: Config, s: State, accounts: seq<AccountId>, amount: nat)
    ensures Step(cfg, s, RewardMany(accounts, amount)) == Run(cfg, s, RewardsOf(accounts, amount))
  {
    if accounts != [] {
      var n := |accounts| - 1;
      RewardBatchIsRun(cfg, s, accounts[..n], amount);
      assert RewardsOf(accounts, amount)[..n] == RewardsOf(accounts[..n], amount);
    }
  }

  /** And so is a batch of slashes. */
  lemma {:induction false} SlashBatchIsRun(cfg: Config, s: State, slashes: seq<(AccountId, SlashEffect)>, amount: nat)
    ensures Step(cfg, s, SlashMany(slashes, amount)) == Run(cfg, s, SlashesOf(slashes, amount))
  {
    if slashes != [] {
      var n := |slashes| - 1;
      SlashBatchIsRun(cfg, s, slashes[..n], amount);
      assert SlashesOf(slashes, amount)[..n] == SlashesOf(slashes[..n], amount);
    }
  }
}
