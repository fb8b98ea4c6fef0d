/** What the tracker records over runs, against the balances and the bounds. */
module EconomicLedgers {
  import opened Sums
  import opened EconomicBounds

  // ----- totals are sums, and stay within the caps that do not move

  ghost predicate Adds(t: Tracker) {
    && t.totalSlashing == SumOver(t.slashing, t.slashing.Keys)
    && t.totalRewards == SumOver(t.rewards, t.rewards.Keys)
  }

  /** Within every cap but the default total slashing cap, which shrinks with the reserves. */
  ghost predicate HeldToCaps(cfg: Config, s: State, epoch: nat, t: Tracker) {
    HeldTo(GetBounds(cfg, s, epoch), epoch in s.bounds, t)
  }

  ghost predicate HeldTo(b: Bounds, stored: bool, t: Tracker) {
    && t.totalRewards <= b.maxTotalRewards
    && (forall a | a in t.rewards :: t.rewards[a] <= b.maxValidatorReward)
    && (forall a | a in t.slashing :: t.slashing[a] <= b.maxValidatorSlashing)
    && (stored ==> t.totalSlashing <= b.maxTotalSlashing)
  }

  ghost predicate LedgersAgree(cfg: Config, s: State) {
    forall e | e in s.trackers :: Adds(s.trackers[e]) && HeldToCaps(cfg, s, e, s.trackers[e])
  }

  lemma NewTrackerAgrees(cfg: Config, s: State, epoch: nat)
    ensures Adds(NEW_TRACKER) && HeldToCaps(cfg, s, epoch, NEW_TRACKER)
  {
    assert SumOver<AccountId>(map[], {}) == 0;
  }

  lemma TrackerAgrees(cfg: Config, s: State)
    requires LedgersAgree(cfg, s)
    ensures Adds(GetTracker(s, s.epoch)) && HeldToCaps(cfg, s, s.epoch, GetTracker(s, s.epoch))
  {
    NewTrackerAgrees(cfg, s, s.epoch);
  }

  /** A tracker that adds up and is held to its caps stays so when a slash within them is tracked. */
  lemma SlashedTracker(b: Bounds, stored: bool, t: Tracker, who: AccountId, amount: nat, next: Tracker)
    requires Adds(t) && HeldTo(b, stored, t)
    requires next == TrackedSlash(t, who, amount)
    requires t.totalSlashing + amount <= b.maxTotalSlashing && At(t.slashing, who) + amount <= b.maxValidatorSlashing
    ensures Adds(next) && HeldTo(b, stored, next)
  {
    SumOverUpdate(t.slashing, who, At(t.slashing, who) + amount);
  }

  lemma TrackedSlashAgrees(cfg: Config, s: State, who: AccountId, amount: nat)
    requires LedgersAgree(cfg, s) && TrySlash(cfg, s, who, amount).Success? && TrySlash(cfg, s, who, amount).value.Applied?
    ensures var t := TrackedSlash(GetTracker(s, s.epoch), who, amount); Adds(t) && HeldToCaps(cfg, s, s.epoch, t)
  {
    var t := GetTracker(s, s.epoch);
    TrackerAgrees(cfg, s);
    SlashedTracker(GetBounds(cfg, s, s.epoch), s.epoch in s.bounds, t, who, amount, TrackedSlash(t, who, amount));
  }

  lemma RewardedTracker(b: Bounds, stored: bool, t: Tracker, who: AccountId, amount: nat, next: Tracker)
    requires Adds(t) && HeldTo(b, stored, t)
    requires next == TrackedReward(t, who, amount)
    requires t.totalRewards + amount <= b.maxTotalRewards && At(t.rewards, who) + amount <= b.maxValidatorReward
    ensures Adds(next) && HeldTo(b, stored, next)
  {
    SumOverUpdate(t.rewards, who, At(t.rewards, who) + amount);
  }

  lemma TrackedRewardAgrees(cfg: Config, s: State, who: AccountId, amount: nat)
    requires LedgersAgree(cfg, s) && TryReward(cfg, s, who, amount).Success? && TryReward(cfg, s, who, amount).value.Applied?
    ensures var t := TrackedReward(GetTracker(s, s.epoch), who, amount); Adds(t) && HeldToCaps(cfg, s, s.epoch, t)
  {
    var t := GetTracker(s, s.epoch);
    TrackerAgrees(cfg, s);
    RewardedTracker(GetBounds(cfg, s, s.epoch), s.epoch in s.bounds, t, who, amount, TrackedReward(t, who, amount));
  }

  /** The caps a tracker is held to do not depend on balances. */
  lemma CapsDoNotMove(cfg: Config, s: State, s': State, epoch: nat, t: Tracker)
    requires HeldToCaps(cfg, s, epoch, t) && s'.bounds == s.bounds
    ensures HeldToCaps(cfg, s', epoch, t)
  {
  }

  /** Storing one more tracker that agrees, under caps that have not moved. */
  lemma StoredTrackerAgrees(cfg: Config, s: State, s': State, epoch: nat, next: Tracker)
    requires LedgersAgree(cfg, s) && Adds(next) && HeldToCaps(cfg, s, epoch, next)
    requires s'.bounds == s.bounds && s'.trackers == s.trackers[epoch := next]
    ensures LedgersAgree(cfg, s')
  {
    forall k | k in s'.trackers ensures Adds(s'.trackers[k]) && HeldToCaps(cfg, s', k, s'.trackers[k]) {
      assert Adds(s'.trackers[k]) && HeldToCaps(cfg, s, k, s'.trackers[k]);
      CapsDoNotMove(cfg, s, s', k, s'.trackers[k]);
    }
  }

  lemma StepKeepsLedgers(cfg: Config, s: State, e: Event)
    requires LedgersAgree(cfg, s)
    ensures LedgersAgree(cfg, Step(cfg, s, e))
  {
    var s' := Step(cfg, s, e);
    match e
    case Slash(who, amount) =>
      if s' != s {
        TrackedSlashAgrees(cfg, s, who, amount);
        StoredTrackerAgrees(cfg, s, s', s.epoch, TrackedSlash(GetTracker(s, s.epoch), who, amount));
      }
    case Reward(who, amount) =>
      if s' != s {
        TrackedRewardAgrees(cfg, s, who, amount);
        StoredTrackerAgrees(cfg, s, s', s.epoch, TrackedReward(GetTracker(s, s.epoch), who, amount));
      }
    case SetEpoch(_) =>
    case ResetTracking(epoch) =>
      NewTrackerAgrees(cfg, s, epoch);
      StoredTrackerAgrees(cfg, s, s', epoch, NEW_TRACKER);
  }

  /** Over slashes, rewards, epoch changes and resets in any order. */
  lemma {:induction false} LedgersAgreeOverRuns(cfg: Config, s: State, es: seq<Event>)
    requires LedgersAgree(cfg, s)
    ensures LedgersAgree(cfg, Run(cfg, s, es))
  {
    if es != [] {
      LedgersAgreeOverRuns(cfg, s, es[..|es| - 1]);
      StepKeepsLedgers(cfg, Run(cfg, s, es[..|es| - 1]), es[|es| - 1]);
    }
  }

  // ----- what is tracked is what was taken

  /** Runs of slashes and rewards within one epoch. */
  predicate OneEpoch(es: seq<Event>) {
    forall e | e in es :: e.Slash? || e.Reward?
  }

  /** What the tracker gained for an account is what its reserve lost, and so in total. */
  ghost predicate TrackedIsTaken(s: State, t: State) {
    && t.epoch == s.epoch && t.bounds == s.bounds && t.validatorSet == s.validatorSet
    && (forall a :: At(GetTracker(t, s.epoch).slashing, a) + At(t.reserved, a) ==
                    At(GetTracker(s, s.epoch).slashing, a) + At(s.reserved, a))
    && GetTracker(t, s.epoch).totalSlashing + SumOver(t.reserved, t.reserved.Keys) ==
       GetTracker(s, s.epoch).totalSlashing + SumOver(s.reserved, s.reserved.Keys)
    && (forall a :: At(t.reserved, a) <= At(s.reserved, a))
  }

  /** A slash takes from the reserve what it adds to the tracker, as far as `s` and `t` differ in them. */
  lemma SlashTakes(s: State, t: State, who: AccountId, amount: nat)
    requires t.epoch == s.epoch && t.bounds == s.bounds && t.validatorSet == s.validatorSet
    requires amount <= At(s.reserved, who)
    requires t.reserved == s.reserved[who := At(s.reserved, who) - amount]
    requires GetTracker(t, s.epoch) == TrackedSlash(GetTracker(s, s.epoch), who, amount)
    ensures TrackedIsTaken(s, t)
  {
    SumOverUpdate(s.reserved, who, At(s.reserved, who) - amount);
  }

  lemma StepTakesWhatItTracks(cfg: Config, s: State, e: Event)
    requires e.Slash? || e.Reward?
    ensures TrackedIsTaken(s, Step(cfg, s, e))
  {
    match e
    case Slash(who, amount) =>
      if Step(cfg, s, e) != s {
        SlashTakes(s, Step(cfg, s, e), who, amount);
      }
    case Reward(who, amount) =>
  }

  /** Within an epoch the tracked slashes are exactly the fall of the reserves, per validator and in total. */
  lemma {:induction false} TrackedIsTakenOverRuns(cfg: Config, s: State, es: seq<Event>)
    requires OneEpoch(es)
    ensures TrackedIsTaken(s, Run(cfg, s, es))
  {
    if es != [] {
      var n := |es| - 1;
      var t := Run(cfg, s, es[..n]);
      TrackedIsTakenOverRuns(cfg, s, es[..n]);
      StepTakesWhatItTracks(cfg, t, es[n]);
      TakenInSequence(s, t, Run(cfg, s, es));
    }
  }

  lemma TakenInSequence(s: State, t: State, u: State)
    requires TrackedIsTaken(s, t) && TrackedIsTaken(t, u)
    ensures TrackedIsTaken(s, u)
  {
    forall a
      ensures At(GetTracker(u, s.epoch).slashing, a) + At(u.reserved, a) ==
              At(GetTracker(s, s.epoch).slashing, a) + At(s.reserved, a)
      ensures At(u.reserved, a) <= At(s.reserved, a)
    {
      assert At(GetTracker(u, t.epoch).slashing, a) + At(u.reserved, a) ==
             At(GetTracker(t, t.epoch).slashing, a) + At(t.reserved, a);
      assert At(u.reserved, a) <= At(t.reserved, a);
    }
  }

  // ----- the default total cap

  lemma TotalStakeFalls(before: map<AccountId, nat>, after: map<AccountId, nat>, accounts: seq<AccountId>)
    requires forall a :: At(after, a) <= At(before, a)
    ensures TotalStake(after, accounts) <= TotalStake(before, accounts)
  {
    SumMonotone(Reserves(after, accounts), Reserves(before, accounts));
  }

  /** Under default bounds an applied slash leaves the tracked total within a tenth of the current stake. */
  lemma AppliedSlashWithinTenth(cfg: Config, s: State, who: AccountId, amount: nat)
    requires s.epoch !in s.bounds && AfterSlash(cfg, s, who, amount) != s
    ensures GetTracker(AfterSlash(cfg, s, who, amount), s.epoch).totalSlashing <=
            TotalStake(s.reserved, s.validatorSet) / 10
  {
  }

  /**
    Although the default cap is taken anew from the shrinking reserves at every call, an epoch that begins
    with nothing tracked never slashes more than a tenth of the stake held when it began.
  */
  lemma {:induction false} DefaultCapIsATenth(cfg: Config, s: State, es: seq<Event>)
    requires OneEpoch(es) && s.epoch !in s.bounds && GetTracker(s, s.epoch) == NEW_TRACKER
    ensures GetTracker(Run(cfg, s, es), s.epoch).totalSlashing <= TotalStake(s.reserved, s.validatorSet) / 10
  {
    if es != [] {
      var n := |es| - 1;
      var t := Run(cfg, s, es[..n]);
      DefaultCapIsATenth(cfg, s, es[..n]);
      TrackedIsTakenOverRuns(cfg, s, es[..n]);
      if es[n].Slash? && Step(cfg, t, es[n]) != t {
        AppliedSlashWithinTenth(cfg, t, es[n].who, es[n].amount);
        TotalStakeFalls(s.reserved, t.reserved, s.validatorSet);
      }
    }
  }
}
