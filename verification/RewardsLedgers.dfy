/** The epoch's totals are the sums of the per-validator ledgers, and stay within all caps, over every run. */
module RewardsLedgers {
  import opened Wrappers
  import opened Numeric
  import opened Sums
  import opened Rewards

  /** One total, its ledger, and the two caps. */
  ghost predicate Balanced(total: nat, ledger: map<AccountId, nat>, epochCap: nat, validatorCap: nat) {
    && total == SumOver(ledger, ledger.Keys) <= epochCap
    && forall a | a in ledger :: ledger[a] <= validatorCap
  }

  ghost predicate LedgersBalance(cfg: Config, s: State) {
    && Balanced(s.totalRewarded, s.rewarded, cfg.maxRewardPerEpoch, cfg.maxRewardPerValidator)
    && Balanced(s.totalSlashed, s.slashed, cfg.maxSlashPerEpoch, cfg.maxSlashPerValidator)
  }

  /** Recording at most what the caps leave room for keeps a ledger balanced; its additions never saturate. */
  lemma RecordKeepsBalance(total: nat, ledger: map<AccountId, nat>, epochCap: u128, validatorCap: u128,
                           who: AccountId, amount: nat)
    requires Balanced(total, ledger, epochCap, validatorCap)
    requires total + amount <= epochCap && At(ledger, who) + amount <= validatorCap
    ensures Balanced(SaturatingAdd(total, amount), ledger[who := SaturatingAdd(At(ledger, who), amount)],
                     epochCap, validatorCap)
  {
    SumOverUpdate(ledger, who, SaturatingAdd(At(ledger, who), amount));
  }

  lemma RewardKeepsLedgers(cfg: Config, s: State, who: AccountId, amount: nat)
    requires LedgersBalance(cfg, s)
    ensures LedgersBalance(cfg, OrUnchanged(s, Reward(cfg, s, who, amount)))
  {
    if RewardError(cfg, s, who, amount) == None {
      RecordKeepsBalance(s.totalRewarded, s.rewarded, cfg.maxRewardPerEpoch, cfg.maxRewardPerValidator,
                         who, RewardAmount(cfg, amount));
    }
  }

  lemma SlashKeepsLedgers(cfg: Config, s: State, who: AccountId, amount: nat, effect: SlashEffect)
    requires LedgersBalance(cfg, s)
    ensures LedgersBalance(cfg, OrUnchanged(s, Slash(cfg, s, who, amount, effect)))
  {
    if SlashError(cfg, s, who, amount) == None {
      var slash := SlashAmount(cfg, s, who, amount).value;
      RecordKeepsBalance(s.totalSlashed, s.slashed, cfg.maxSlashPerEpoch, cfg.maxSlashPerValidator,
                         who, Min(effect.remainder, slash));
    }
  }

  lemma {:induction false} RewardEachKeepsLedgers(cfg: Config, s: State, who: seq<AccountId>, amount: nat)
    requires LedgersBalance(cfg, s)
    ensures LedgersBalance(cfg, RewardEach(cfg, s, who, amount))
  {
    if who != [] {
      var n := |who| - 1;
      RewardEachKeepsLedgers(cfg, s, who[..n], amount);
      RewardKeepsLedgers(cfg, RewardEach(cfg, s, who[..n], amount), who[n], amount);
    }
  }

  lemma {:induction false} SlashEachKeepsLedgers(cfg: Config, s: State, who: seq<(AccountId, SlashEffect)>, amount: nat)
    requires LedgersBalance(cfg, s)
    ensures LedgersBalance(cfg, SlashEach(cfg, s, who, amount))
  {
    if who != [] {
      var n := |who| - 1;
      SlashEachKeepsLedgers(cfg, s, who[..n], amount);
      SlashKeepsLedgers(cfg, SlashEach(cfg, s, who[..n], amount), who[n].0, amount, who[n].1);
    }
  }

  lemma {:induction false} PayAllKeepsLedgers(cfg: Config, s: State, payments: seq<Payment>)
    requires LedgersBalance(cfg, s)
    ensures LedgersBalance(cfg, OrUnchanged(s, PayAll(cfg, s, payments)))
  {
    if payments != [] {
      var n := |payments| - 1;
      PayAllKeepsLedgers(cfg, s, payments[..n]);
      var before := PayAll(cfg, s, payments[..n]);
      if before.Success? {
        RewardKeepsLedgers(cfg, before.value, payments[n].account, payments[n].amount);
      }
    }
  }

  lemma StepKeepsLedgers(cfg: Config, s: State, e: Event)
    requires LedgersBalance(cfg, s)
    ensures LedgersBalance(cfg, Step(cfg, s, e))
  {
    match e
    case RewardOne(who, amount) => RewardKeepsLedgers(cfg, s, who, amount);
    case SlashOne(who, amount, effect) => SlashKeepsLedgers(cfg, s, who, amount, effect);
    case RewardMany(accounts, amount) => RewardEachKeepsLedgers(cfg, s, accounts, amount);
    case SlashMany(slashes, amount) => SlashEachKeepsLedgers(cfg, s, slashes, amount);
    case DistributeEpoch(total, active, score) =>
      var ranking := Ranking(active, score);
      PayAllKeepsLedgers(cfg, s, Payments(cfg, ranking, PerHeads(cfg, ranking, EpochPools(total))));
    case ResetEpoch => assert SumOver<AccountId>(map[], {}) == 0;
    case SetRegistered(_) =>
    case SetFree(_) =>
  }

  /** Single calls, batches that ignore errors, distributions and resets, in any order. */
  lemma {:induction false} LedgersBalanceOverRuns(cfg: Config, s: State, es: seq<Event>)
    requires LedgersBalance(cfg, s)
    ensures LedgersBalance(cfg, Run(cfg, s, es))
  {
    if es != [] {
      LedgersBalanceOverRuns(cfg, s, es[..|es| - 1]);
      StepKeepsLedgers(cfg, Run(cfg, s, es[..|es| - 1]), es[|es| - 1]);
    }
  }
}
