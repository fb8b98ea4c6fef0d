/** Following the advice in reachable states, and when an epoch under default bounds locks up. */
module EconomicRuns {
  import opened Wrappers
  import opened Numeric
  import opened Sums
  import opened EconomicBounds
  import opened EconomicLedgers
  import opened EconomicAdvice

  /** In reachable states only the default total cap can have been outgrown. */
  lemma ReachedWithinCaps(cfg: Config, s: State, who: AccountId)
    requires LedgersAgree(cfg, s)
    ensures var b := GetBounds(cfg, s, s.epoch); var t := GetTracker(s, s.epoch);
            && (WithinCaps(b, t, who) <==> t.totalSlashing <= b.maxTotalSlashing)
            && (Outgrown(b, t, who) <==> t.totalSlashing > b.maxTotalSlashing)
            && (s.epoch in s.bounds ==> t.totalSlashing <= b.maxTotalSlashing)
  {
    var t := GetTracker(s, s.epoch);
    TrackerAgrees(cfg, s);
    if who in t.slashing {
      SumOverRemove(t.slashing, t.slashing.Keys, who);
    }
  }

  /**
    In every state a run reaches, with validated or default bounds and no overflow, following the advice of
    the call three times settles the matter as long as the epoch's total is within its cap, which stored
    bounds guarantee; and once a shrunken default cap has been outgrown, it is refused with zero as the advice.
  */
  lemma AdviceEndsInEveryState(cfg: Config, s0: State, es: seq<Event>, who: AccountId, amount: nat)
    requires LedgersAgree(cfg, s0)
    requires var s := Run(cfg, s0, es);
             && (s.epoch in s.bounds ==> ValidateBounds(cfg, s.bounds[s.epoch]).Success?)
             && Fits(GetBounds(cfg, s, s.epoch), GetTracker(s, s.epoch), At(s.reserved, who), who, amount)
    ensures var s := Run(cfg, s0, es); var b := GetBounds(cfg, s, s.epoch); var t := GetTracker(s, s.epoch);
            var reserved := At(s.reserved, who); var answers := AnswersOf(b, t, reserved, who);
            && answers(amount) == TrySlash(cfg, s, who, amount)
            && (s.epoch in s.bounds ==> t.totalSlashing <= b.maxTotalSlashing)
            && var r := Follow(answers, amount, 3);
               if t.totalSlashing <= b.maxTotalSlashing then
                 Settled(r, reserved, AfterCaps(b, t, who, amount), b.maxSlashingPercentage)
               else
                 Refused(r) && r.value.maxAllowed == 0
  {
    var s := Run(cfg, s0, es);
    var b, t, reserved := GetBounds(cfg, s, s.epoch), GetTracker(s, s.epoch), At(s.reserved, who);
    LedgersAgreeOverRuns(cfg, s0, es);
    ReachedWithinCaps(cfg, s, who);
    PercentageIsSane(cfg, s, s.epoch);
    if t.totalSlashing <= b.maxTotalSlashing {
      FollowingAdviceEnds(b, t, reserved, who, amount);
    } else {
      AdviceStaysZero(b, t, reserved, who, amount, 3);
    }
  }

  // ----- the lock

  /** Two ledgers that add up to a third at every account of a set do so in total. */
  lemma {:induction false} SumOverAdds(m: map<AccountId, nat>, n: map<AccountId, nat>, both: map<AccountId, nat>, accounts: set<AccountId>)
    requires forall a | a in accounts :: At(m, a) + At(n, a) == At(both, a)
    ensures SumOver(m, accounts) + SumOver(n, accounts) == SumOver(both, accounts)
    decreases accounts
  {
    if accounts != {} {
      var a :| a in accounts;
      SumOverRemove(m, accounts, a);
      SumOverRemove(n, accounts, a);
      SumOverRemove(both, accounts, a);
      SumOverAdds(m, n, both, accounts - {a});
    }
  }

  lemma ReservesOfSet(reserved: map<AccountId, nat>, accounts: seq<AccountId>)
    requires Distinct(accounts)
    ensures Sum(Reserves(reserved, accounts)) == SumOver(reserved, Elements(accounts))
  {
    SumOfDistinct(reserved, accounts);
    assert Reserves(reserved, accounts) == seq(|accounts|, i requires 0 <= i < |accounts| => At(reserved, accounts[i]));
  }

  /** Only accounts of the validator set have been slashed. */
  predicate SlashedWithin(t: Tracker, accounts: seq<AccountId>) {
    forall a | a in t.slashing && t.slashing[a] > 0 :: a in accounts
  }

  lemma SlashedInTotal(t: Tracker, accounts: set<AccountId>)
    requires Adds(t) && forall a | a in t.slashing && t.slashing[a] > 0 :: a in accounts
    ensures SumOver(t.slashing, accounts) == t.totalSlashing
  {
    var keys := t.slashing.Keys;
    assert accounts + keys == accounts + (keys - accounts) == keys + (accounts - keys);
    SumOverSplit(t.slashing, accounts, keys - accounts);
    SumOverSplit(t.slashing, keys, accounts - keys);
    SumOverZero(t.slashing, keys - accounts);
    SumOverZero(t.slashing, accounts - keys);
  }

  /** Within an epoch the set's stake has fallen by what the tracker has recorded of it. */
  lemma StakeFallsBySlashes(cfg: Config, s: State, es: seq<Event>)
    requires LedgersAgree(cfg, s) && OneEpoch(es) && GetTracker(s, s.epoch) == NEW_TRACKER
    requires Distinct(s.validatorSet) && Sum(Reserves(s.reserved, s.validatorSet)) <= U128_MAX
    requires SlashedWithin(GetTracker(Run(cfg, s, es), s.epoch), s.validatorSet)
    ensures var u := Run(cfg, s, es); var t := GetTracker(u, s.epoch);
            && u.epoch == s.epoch && u.bounds == s.bounds && u.validatorSet == s.validatorSet
            && TotalStake(u.reserved, s.validatorSet) + t.totalSlashing == TotalStake(s.reserved, s.validatorSet)
  {
    var u := Run(cfg, s, es);
    var t, members := GetTracker(u, s.epoch), Elements(s.validatorSet);
    TrackedIsTakenOverRuns(cfg, s, es);
    LedgersAgreeOverRuns(cfg, s, es);
    TrackerAgrees(cfg, u);
    forall a | a in members ensures At(t.slashing, a) + At(u.reserved, a) == At(s.reserved, a) {
      assert At(GetTracker(s, s.epoch).slashing, a) == 0;
    }
    SumOverAdds(t.slashing, u.reserved, s.reserved, members);
    SlashedInTotal(t, members);
    ReservesOfSet(s.reserved, s.validatorSet);
    ReservesOfSet(u.reserved, s.validatorSet);
  }

  /**
    An epoch under default bounds that began with stake T, and in which S has been slashed from members of
    the set, is locked exactly when 11 * S > T: then, and only then, is every amount refused, for everybody.
  */
  lemma EpochLockedIff(cfg: Config, s: State, es: seq<Event>, who: AccountId)
    requires LedgersAgree(cfg, s) && OneEpoch(es)
    requires s.epoch !in s.bounds && GetTracker(s, s.epoch) == NEW_TRACKER
    requires Distinct(s.validatorSet) && Sum(Reserves(s.reserved, s.validatorSet)) <= U128_MAX
    requires SlashedWithin(GetTracker(Run(cfg, s, es), s.epoch), s.validatorSet)
    ensures var u := Run(cfg, s, es); var t := GetTracker(u, u.epoch);
            (forall amount: nat | SumsFit(t, who, amount) :: Refused(TrySlash(cfg, u, who, amount))) <==>
            11 * t.totalSlashing > TotalStake(s.reserved, s.validatorSet)
  {
    var u := Run(cfg, s, es);
    var t, b := GetTracker(u, u.epoch), GetBounds(cfg, u, u.epoch);
    StakeFallsBySlashes(cfg, s, es);
    LedgersAgreeOverRuns(cfg, s, es);
    ReachedWithinCaps(cfg, u, who);
    TrackerAgrees(cfg, u);
    AllRefusedIff(b, t, At(u.reserved, who), who);
    forall amount: nat ensures TrySlash(cfg, u, who, amount) == SlashOutcome(b, t, At(u.reserved, who), who, amount) {
    }
  }

  const CFG: Config := Config(1_000, 100, 10_000)

  /** Two members with reserves of 1000 each, and nothing tracked or stored. */
  const FRESH: State := State(0, map[], map[], [1, 2], map[], map[1 := 1_000, 2 := 1_000])

  lemma OneSlash(u: State)
    requires u == AfterSlash(CFG, FRESH, 1, 200)
    ensures TrySlash(CFG, FRESH, 1, 200) == Success(Applied(200, 1_000, 800))
    ensures u.epoch == 0 && GetTracker(u, 0) == Tracker(200, 0, map[1 := 200], map[])
    ensures TotalStake(FRESH.reserved, FRESH.validatorSet) == Sum(Reserves(FRESH.reserved, FRESH.validatorSet)) == 2_000
  {
    assert Reserves(FRESH.reserved, FRESH.validatorSet) == [] + [1_000] + [1_000];
    SumAppend([], 1_000);
    SumAppend([] + [1_000], 1_000);
  }

  /** One legal slash of 200 locks the epoch: a tenth of the remaining 1800 is less than the 200 slashed. */
  lemma OneSlashLocks(who: AccountId, amount: nat)
    requires 200 + amount <= U128_MAX
    ensures TrySlash(CFG, FRESH, 1, 200) == Success(Applied(200, 1_000, 800))
    ensures Refused(TrySlash(CFG, Run(CFG, FRESH, [Slash(1, 200)]), who, amount))
  {
    var es := [Slash(1, 200)];
    var u := Run(CFG, FRESH, es);
    assert es[..0] == [];
    OneSlash(u);
    EpochLockedIff(CFG, FRESH, es, who);
    assert SumsFit(GetTracker(u, u.epoch), who, amount);
  }
}
