/** What every run of the registry keeps, and when a leaving validator goes and may come back. */
module RegistryInvariants {
  import opened Numeric
  import opened Sums
  import opened Registry

  // ----- the hook, field by field

  /**
    How the hook of the next block turns `s` into `t`: `due` requests expire, and `swept` are ejected,
    which are the underperformers if the block is one that checks.
  */
  ghost predicate HookOutcome(cfg: Config, s: State, t: State, check: bool, due: set<AccountId>, swept: set<AccountId>) {
    && t.now == s.now + 1
    && due == Due(cfg, s.leaveRequests, t.now)
    && t.validatorSet == Drop(s.validatorSet, due)
    && t.active == Drop(Drop(s.active, due), swept)
    && t.leaveRequests == s.leaveRequests - due
    && t.removed == StillRemoved(cfg, s.removed, t.now) + Stamped(due, t.now)
    && t.registered == s.registered - due
    && t.stake == s.stake - due
    && t.currency == ReleaseAll(s.currency, s.stake, due)
    && t.profiles == s.profiles && t.epoch == s.epoch
    && swept == (if check then Underperformers(cfg, Drop(s.active, due), s.profiles, s.epoch) else {})
  }

  lemma HookHasOutcome(cfg: Config, s: State, check: bool) returns (due: set<AccountId>, swept: set<AccountId>)
    ensures HookOutcome(cfg, s, Hook(cfg, s.(now := s.now + 1), s.now + 1, check), check, due, swept)
  {
    var block := s.now + 1;
    due := Due(cfg, s.leaveRequests, block);
    if check {
      swept := Underperformers(cfg, Drop(s.active, due), s.profiles, s.epoch);
    } else {
      swept := {};
      DropNothing(Drop(s.active, due), {});
    }
  }

  lemma HookFields(cfg: Config, s: State) returns (check: bool, due: set<AccountId>, swept: set<AccountId>)
    requires cfg.Valid()
    ensures check == ((s.now + 1) % cfg.checkInterval == 0)
    ensures HookOutcome(cfg, s, NextBlock(cfg, s), check, due, swept)
  {
    check := (s.now + 1) % cfg.checkInterval == 0;
    due, swept := HookHasOutcome(cfg, s, check);
  }

  // ----- consistency of the collections

  ghost predicate Inv(cfg: Config, s: State) {
    && Distinct(s.validatorSet) && |s.validatorSet| <= cfg.maxValidators
    && Distinct(s.active) && |s.active| <= cfg.maxValidators
    && (forall a | a in s.active :: a in s.validatorSet)
    && (forall a | a in s.leaveRequests :: a in s.validatorSet && a !in s.active)
    && (forall a | a in s.removed :: a !in s.validatorSet)
  }

  lemma DropKeepsList(xs: seq<AccountId>, who: set<AccountId>, max: nat)
    requires Distinct(xs) && |xs| <= max
    ensures Distinct(Drop(xs, who)) && |Drop(xs, who)| <= max
    ensures forall a :: a in Drop(xs, who) <==> a in xs && a !in who
  {
    DropMembers(xs, who);
    DropDistinct(xs, who);
  }

  lemma HookKeepsInv(cfg: Config, s: State, t: State, check: bool, due: set<AccountId>, swept: set<AccountId>)
    requires Inv(cfg, s) && HookOutcome(cfg, s, t, check, due, swept)
    ensures Inv(cfg, t)
    ensures check ==>
              forall a | a in t.active :: !Underperforms(cfg, t.profiles, t.epoch, a)
  {
    DropKeepsList(s.validatorSet, due, cfg.maxValidators);
    DropKeepsList(s.active, due, cfg.maxValidators);
    DropKeepsList(Drop(s.active, due), swept, cfg.maxValidators);
  }

  lemma RemovalKeepsInv(cfg: Config, s: State, t: State, who: AccountId)
    requires Inv(cfg, s)
    requires t.validatorSet == Drop(s.validatorSet, {who}) && t.active == Drop(s.active, {who})
    requires t.leaveRequests == s.leaveRequests - {who}
    requires t.removed == s.removed[who := s.now]
    ensures Inv(cfg, t)
  {
    DropKeepsList(s.validatorSet, {who}, cfg.maxValidators);
    DropKeepsList(s.active, {who}, cfg.maxValidators);
  }

  lemma JoinKeepsInv(cfg: Config, s: State, who: AccountId, reserveOk: bool)
    requires Inv(cfg, s)
    ensures Inv(cfg, OrUnchanged(s, Join(cfg, s, who, reserveOk)))
  {
  }

  lemma LeaveKeepsInv(cfg: Config, s: State, who: AccountId)
    requires Inv(cfg, s)
    ensures Inv(cfg, OrUnchanged(s, Leave(cfg, s, who)))
  {
    DropKeepsList(s.active, {who}, cfg.maxValidators);
  }

  lemma CancelKeepsInv(cfg: Config, s: State, who: AccountId)
    requires Inv(cfg, s)
    ensures Inv(cfg, OrUnchanged(s, Cancel(cfg, s, who)))
  {
  }

  lemma CallKeepsInv(cfg: Config, s: State, e: Event)
    requires Inv(cfg, s) && Admissible(s, e) && !e.NewBlock?
    ensures Inv(cfg, Call(cfg, s, e))
  {
    match e
    case JoinValidators(who, ok) => JoinKeepsInv(cfg, s, who, ok);
    case LeaveValidators(who) => LeaveKeepsInv(cfg, s, who);
    case CancelLeaveRequest(who) => CancelKeepsInv(cfg, s, who);
    case IncreaseValidatorStake(_, _, _) =>
    case ForceEjectValidator(who) => RemovalKeepsInv(cfg, s, ForceEject(s, who), who);
    case EjectValidator(who) => DropKeepsList(s.active, {who}, cfg.maxValidators);
    case Left(who) => RemovalKeepsInv(cfg, s, OnLeft(s, who), who);
    case SetActive(_) =>
    case SetProfile(_, _) =>
    case SetEpoch(_) =>
  }

  lemma StepKeepsInv(cfg: Config, s: State, e: Event)
    requires cfg.Valid() && Inv(cfg, s) && Admissible(s, e)
    ensures Inv(cfg, Step(cfg, s, e))
  {
    if e.NewBlock? {
      var check, due, swept := HookFields(cfg, s);
      HookKeepsInv(cfg, s, Step(cfg, s, e), check, due, swept);
    } else {
      CallKeepsInv(cfg, s, e);
    }
  }

  /** The registry's collections stay consistent over every run. */
  lemma {:induction false} InvHoldsOverRuns(cfg: Config, s: State, es: seq<Event>)
    requires cfg.Valid() && Inv(cfg, s) && AllAdmissible(cfg, s, es)
    ensures Inv(cfg, Run(cfg, s, es))
  {
    if es != [] {
      InvHoldsOverRuns(cfg, s, es[..|es| - 1]);
      StepKeepsInv(cfg, Run(cfg, s, es[..|es| - 1]), es[|es| - 1]);
    }
  }

  /** After the sweep of a checking block no active validator with a known state falls short. */
  lemma SweepLeavesPerformers(cfg: Config, s: State)
    requires cfg.Valid() && Inv(cfg, s)
    requires (s.now + 1) % cfg.checkInterval == 0
    ensures var t := NextBlock(cfg, s);
            forall a | a in t.active && a in t.profiles ::
              && t.profiles[a].finalScore >= cfg.minScore
              && SaturatingSub(t.epoch, t.profiles[a].lastActiveEpoch) <= cfg.maxInactiveEpochs
  {
    var t := NextBlock(cfg, s);
    var check, due, swept := HookFields(cfg, s);
    HookKeepsInv(cfg, s, t, check, due, swept);
    assert forall a | a in t.active :: !Underperforms(cfg, t.profiles, t.epoch, a);
  }

  // ----- timing

  /** Requests and removals are never in the future and always younger than the cooldown. */
  ghost predicate Young(cfg: Config, s: State) {
    && (forall a | a in s.leaveRequests :: s.leaveRequests[a] <= s.now < s.leaveRequests[a] + cfg.leaveCooldown)
    && (forall a | a in s.removed :: s.removed[a] <= s.now < s.removed[a] + cfg.leaveCooldown)
  }

  /** Requests fall due exactly when they reach the cooldown, so young entries stay young. */
  lemma HookKeepsYoung(cfg: Config, s: State, t: State, check: bool, due: set<AccountId>, swept: set<AccountId>)
    requires cfg.leaveCooldown > 0 && Young(cfg, s) && HookOutcome(cfg, s, t, check, due, swept)
    ensures Young(cfg, t)
    ensures forall a | a in s.leaveRequests :: a in due <==> t.now == s.leaveRequests[a] + cfg.leaveCooldown
  {
  }

  lemma JoinKeepsYoung(cfg: Config, s: State, who: AccountId, reserveOk: bool)
    requires Young(cfg, s)
    ensures Young(cfg, OrUnchanged(s, Join(cfg, s, who, reserveOk)))
  {
  }

  lemma LeaveKeepsYoung(cfg: Config, s: State, who: AccountId)
    requires cfg.leaveCooldown > 0 && Young(cfg, s)
    ensures Young(cfg, OrUnchanged(s, Leave(cfg, s, who)))
  {
  }

  lemma CancelKeepsYoung(cfg: Config, s: State, who: AccountId)
    requires Young(cfg, s)
    ensures Young(cfg, OrUnchanged(s, Cancel(cfg, s, who)))
  {
  }

  lemma RemovalKeepsYoung(cfg: Config, s: State, t: State, who: AccountId)
    requires cfg.leaveCooldown > 0 && Young(cfg, s) && t.now == s.now
    requires t.leaveRequests == s.leaveRequests - {who} && t.removed == s.removed[who := s.now]
    ensures Young(cfg, t)
  {
  }

  lemma CallKeepsYoung(cfg: Config, s: State, e: Event)
    requires cfg.leaveCooldown > 0 && Young(cfg, s) && !e.NewBlock?
    ensures Young(cfg, Call(cfg, s, e))
  {
    match e
    case JoinValidators(who, ok) => JoinKeepsYoung(cfg, s, who, ok);
    case LeaveValidators(who) => LeaveKeepsYoung(cfg, s, who);
    case CancelLeaveRequest(who) => CancelKeepsYoung(cfg, s, who);
    case IncreaseValidatorStake(_, _, _) =>
    case ForceEjectValidator(who) => RemovalKeepsYoung(cfg, s, ForceEject(s, who), who);
    case EjectValidator(_) =>
    case Left(who) => RemovalKeepsYoung(cfg, s, OnLeft(s, who), who);
    case SetActive(_) =>
    case SetProfile(_, _) =>
    case SetEpoch(_) =>
  }

  lemma StepKeepsYoung(cfg: Config, s: State, e: Event)
    requires cfg.Valid() && cfg.leaveCooldown > 0 && Young(cfg, s)
    ensures Young(cfg, Step(cfg, s, e))
  {
    if e.NewBlock? {
      var check, due, swept := HookFields(cfg, s);
      HookKeepsYoung(cfg, s, Step(cfg, s, e), check, due, swept);
    } else {
      CallKeepsYoung(cfg, s, e);
    }
  }

  /** After every hook, and between hooks, all pending requests and removal entries are younger than the cooldown. */
  lemma {:induction false} YoungOverRuns(cfg: Config, s: State, es: seq<Event>)
    requires cfg.Valid() && cfg.leaveCooldown > 0 && Young(cfg, s)
    ensures Young(cfg, Run(cfg, s, es))
  {
    if es != [] {
      YoungOverRuns(cfg, s, es[..|es| - 1]);
      StepKeepsYoung(cfg, Run(cfg, s, es[..|es| - 1]), es[|es| - 1]);
    }
  }

  /** Nobody withdraws the request of `who` or removes it by force; attempts to withdraw that fail are allowed. */
  predicate LeftAlone(cfg: Config, s: State, es: seq<Event>, who: AccountId)
    requires cfg.Valid()
  {
    es == [] ||
    (LeftAlone(cfg, s, es[..|es| - 1], who) && Spares(cfg, Run(cfg, s, es[..|es| - 1]), es[|es| - 1], who))
  }

  predicate Spares(cfg: Config, s: State, e: Event, who: AccountId) {
    && (e == CancelLeaveRequest(who) ==> Cancel(cfg, s, who).Failure?)
    && e != ForceEjectValidator(who)
    && e != Left(who)
  }

  /** Where a validator that asked to leave at block `asked` stands now. */
  ghost predicate OnItsWayOut(cfg: Config, s: State, who: AccountId, asked: nat) {
    && asked <= s.now
    && (s.now < asked + cfg.leaveCooldown ==>
          who in s.validatorSet && who in s.leaveRequests && s.leaveRequests[who] == asked)
    && (asked + cfg.leaveCooldown <= s.now < asked + 2 * cfg.leaveCooldown ==>
          && who !in s.validatorSet && who !in s.leaveRequests
          && who in s.removed && s.removed[who] == asked + cfg.leaveCooldown)
  }

  lemma WayOutHook(cfg: Config, s: State, t: State, check: bool, due: set<AccountId>, swept: set<AccountId>, who: AccountId, asked: nat)
    requires cfg.leaveCooldown > 0 && Young(cfg, s) && OnItsWayOut(cfg, s, who, asked)
    requires HookOutcome(cfg, s, t, check, due, swept)
    ensures OnItsWayOut(cfg, t, who, asked)
  {
    HookKeepsYoung(cfg, s, t, check, due, swept);
    DropMembers(s.validatorSet, due);
  }

  lemma WayOutJoin(cfg: Config, s: State, who: AccountId, asked: nat, other: AccountId, reserveOk: bool)
    requires Young(cfg, s) && OnItsWayOut(cfg, s, who, asked)
    ensures OnItsWayOut(cfg, OrUnchanged(s, Join(cfg, s, other, reserveOk)), who, asked)
  {
  }

  lemma WayOutLeave(cfg: Config, s: State, who: AccountId, asked: nat, other: AccountId)
    requires OnItsWayOut(cfg, s, who, asked)
    ensures OnItsWayOut(cfg, OrUnchanged(s, Leave(cfg, s, other)), who, asked)
  {
  }

  lemma WayOutCancel(cfg: Config, s: State, who: AccountId, asked: nat, other: AccountId)
    requires OnItsWayOut(cfg, s, who, asked) && (other != who || Cancel(cfg, s, who).Failure?)
    ensures OnItsWayOut(cfg, OrUnchanged(s, Cancel(cfg, s, other)), who, asked)
  {
  }

  lemma WayOutRemoval(cfg: Config, s: State, t: State, who: AccountId, asked: nat, other: AccountId)
    requires OnItsWayOut(cfg, s, who, asked) && other != who && t.now == s.now
    requires t.validatorSet == Drop(s.validatorSet, {other})
    requires t.leaveRequests == s.leaveRequests - {other} && t.removed == s.removed[other := s.now]
    ensures OnItsWayOut(cfg, t, who, asked)
  {
    DropMembers(s.validatorSet, {other});
  }

  lemma WayOutCall(cfg: Config, s: State, e: Event, who: AccountId, asked: nat)
    requires Young(cfg, s) && OnItsWayOut(cfg, s, who, asked)
    requires Spares(cfg, s, e, who) && !e.NewBlock?
    ensures OnItsWayOut(cfg, Call(cfg, s, e), who, asked)
  {
    match e
    case JoinValidators(other, ok) => WayOutJoin(cfg, s, who, asked, other, ok);
    case LeaveValidators(other) => WayOutLeave(cfg, s, who, asked, other);
    case CancelLeaveRequest(other) => WayOutCancel(cfg, s, who, asked, other);
    case IncreaseValidatorStake(_, _, _) =>
    case ForceEjectValidator(other) => WayOutRemoval(cfg, s, ForceEject(s, other), who, asked, other);
    case EjectValidator(_) =>
    case Left(other) => WayOutRemoval(cfg, s, OnLeft(s, other), who, asked, other);
    case SetActive(_) =>
    case SetProfile(_, _) =>
    case SetEpoch(_) =>
  }

  lemma WayOutStep(cfg: Config, s: State, e: Event, who: AccountId, asked: nat)
    requires cfg.Valid() && cfg.leaveCooldown > 0 && Young(cfg, s)
    requires OnItsWayOut(cfg, s, who, asked) && Spares(cfg, s, e, who)
    ensures OnItsWayOut(cfg, Step(cfg, s, e), who, asked)
  {
    if e.NewBlock? {
      var check, due, swept := HookFields(cfg, s);
      WayOutHook(cfg, s, Step(cfg, s, e), check, due, swept, who, asked);
    } else {
      WayOutCall(cfg, s, e, who, asked);
    }
  }

  lemma {:induction false} WayOutRun(cfg: Config, s: State, es: seq<Event>, who: AccountId, asked: nat)
    requires cfg.Valid() && cfg.leaveCooldown > 0 && Young(cfg, s)
    requires OnItsWayOut(cfg, s, who, asked) && LeftAlone(cfg, s, es, who)
    ensures OnItsWayOut(cfg, Run(cfg, s, es), who, asked)
  {
    if es != [] {
      var n := |es| - 1;
      WayOutRun(cfg, s, es[..n], who, asked);
      YoungOverRuns(cfg, s, es[..n]);
      WayOutStep(cfg, Run(cfg, s, es[..n]), es[n], who, asked);
    }
  }

  /**
    A leave request made at block b and left alone takes effect exactly at b + cooldown, and every
    attempt to join again before b + 2 * cooldown is refused.
  */
  lemma LeaveAndRejoinTiming(cfg: Config, s: State, es: seq<Event>, who: AccountId, reserveOk: bool)
    requires cfg.Valid() && cfg.leaveCooldown > 0 && Young(cfg, s)
    requires Leave(cfg, s, who).Success? && LeftAlone(cfg, Leave(cfg, s, who).value, es, who)
    ensures var t := Run(cfg, Leave(cfg, s, who).value, es);
            && s.now <= t.now
            && (t.now < s.now + cfg.leaveCooldown ==> who in t.validatorSet)
            && (s.now + cfg.leaveCooldown <= t.now < s.now + 2 * cfg.leaveCooldown ==> who !in t.validatorSet)
            && (t.now < s.now + 2 * cfg.leaveCooldown ==> Join(cfg, t, who, reserveOk).Failure?)
  {
    WayOutRun(cfg, Leave(cfg, s, who).value, es, who, s.now);
  }

  lemma WaitIsOver(cfg: Config, s: State, t: State, check: bool, due: set<AccountId>, swept: set<AccountId>, who: AccountId, asked: nat)
    requires cfg.leaveCooldown > 0 && Young(cfg, s) && HookOutcome(cfg, s, t, check, due, swept)
    requires OnItsWayOut(cfg, s, who, asked) && t.now == asked + 2 * cfg.leaveCooldown
    ensures who !in t.removed && who !in t.leaveRequests && who !in t.validatorSet
  {
    HookKeepsYoung(cfg, s, t, check, due, swept);
    DropMembers(s.validatorSet, due);
  }

  /** At b + 2 * cooldown the wait is over: the account is let in exactly if it can pay and there is room. */
  lemma RejoinOpens(cfg: Config, s: State, who: AccountId, asked: nat)
    requires cfg.Valid() && cfg.leaveCooldown > 0 && Young(cfg, s)
    requires OnItsWayOut(cfg, s, who, asked) && s.now + 1 == asked + 2 * cfg.leaveCooldown
    ensures var t := NextBlock(cfg, s);
            Join(cfg, t, who, true).Success? <==>
            At(t.currency.free, who) >= cfg.minStake && |t.validatorSet| < cfg.maxValidators
  {
    var check, due, swept := HookFields(cfg, s);
    WaitIsOver(cfg, s, NextBlock(cfg, s), check, due, swept, who, asked);
  }

  /** While requests are young, withdrawing one always succeeds: its cooldown error is never met. */
  lemma PendingRequestsCanBeWithdrawn(cfg: Config, s: State, es: seq<Event>, who: AccountId)
    requires cfg.Valid() && cfg.leaveCooldown > 0 && Young(cfg, s)
    ensures var t := Run(cfg, s, es); Cancel(cfg, t, who).Success? <==> who in t.leaveRequests
  {
    YoungOverRuns(cfg, s, es);
  }

  // ----- escrow

  /** Stake is held in reserve, at least the minimum inside the set and nothing outside it. */
  ghost predicate Escrowed(cfg: Config, s: State) {
    && (forall a :: At(s.stake, a) == At(s.currency.reserved, a))
    && (forall a :: a in s.validatorSet ==> cfg.minStake <= At(s.stake, a))
    && (forall a :: a !in s.validatorSet ==> At(s.stake, a) == 0)
    && (forall a :: a in s.registered <==> a in s.validatorSet)
    && (forall a :: Holdings(s.currency, a) <= U128_MAX)
  }

  function Holdings(c: Currency, a: AccountId): nat {
    At(c.free, a) + At(c.reserved, a)
  }

  ghost predicate SameHoldings(s: State, t: State) {
    forall a :: Holdings(t.currency, a) == Holdings(s.currency, a)
  }

  /** Giving back the whole stake of `who` empties their reserve and moves it to the free balance. */
  lemma ReleaseMovesReserve(c: Currency, stake: map<AccountId, nat>, who: set<AccountId>, a: AccountId)
    requires At(stake, a) == At(c.reserved, a)
    ensures At(stake - who, a) == (if a in who then 0 else At(stake, a))
    ensures At(ReleaseAll(c, stake, who).reserved, a) == (if a in who then 0 else At(c.reserved, a))
    ensures Holdings(ReleaseAll(c, stake, who), a) == Holdings(c, a)
  {
  }

  /** Any transition that releases the stake of `who` and takes them out of the set keeps the escrow. */
  lemma RemovalKeepsEscrow(cfg: Config, s: State, t: State, who: set<AccountId>)
    requires Escrowed(cfg, s)
    requires t.currency == ReleaseAll(s.currency, s.stake, who)
    requires t.stake == s.stake - who && t.registered == s.registered - who
    requires t.validatorSet == Drop(s.validatorSet, who)
    ensures Escrowed(cfg, t) && SameHoldings(s, t)
  {
    DropMembers(s.validatorSet, who);
    forall a
      ensures At(t.stake, a) == if a in who then 0 else At(s.stake, a)
      ensures At(t.currency.reserved, a) == if a in who then 0 else At(s.currency.reserved, a)
      ensures Holdings(t.currency, a) == Holdings(s.currency, a)
    {
      ReleaseMovesReserve(s.currency, s.stake, who, a);
    }
  }

  /** Moving `amount` of one account from free to reserved, and adding it to its stake. */
  lemma DepositKeepsEscrow(cfg: Config, s: State, t: State, who: AccountId, amount: nat)
    requires Escrowed(cfg, s) && amount <= At(s.currency.free, who)
    requires t.currency == Reserve(s.currency, who, amount)
    requires t.stake == s.stake[who := Min(At(s.stake, who) + amount, U128_MAX)]
    requires cfg.minStake <= At(t.stake, who)
    requires forall a :: a in t.validatorSet <==> a == who || a in s.validatorSet
    requires forall a :: a in t.registered <==> a == who || a in s.registered
    ensures Escrowed(cfg, t) && SameHoldings(s, t)
  {
    assert Holdings(s.currency, who) <= U128_MAX && At(s.stake, who) == At(s.currency.reserved, who);
    forall a
      ensures At(t.stake, a) == At(t.currency.reserved, a)
      ensures a != who ==> At(t.stake, a) == At(s.stake, a)
      ensures Holdings(t.currency, a) == Holdings(s.currency, a)
    {
      assert At(s.stake, a) == At(s.currency.reserved, a);
    }
  }

  lemma JoinKeepsEscrow(cfg: Config, s: State, who: AccountId, reserveOk: bool)
    requires Escrowed(cfg, s)
    ensures var t := OrUnchanged(s, Join(cfg, s, who, reserveOk)); Escrowed(cfg, t) && SameHoldings(s, t)
  {
    if Join(cfg, s, who, reserveOk).Success? {
      assert At(s.stake, who) == 0 && Holdings(s.currency, who) <= U128_MAX;
      DepositKeepsEscrow(cfg, s, Join(cfg, s, who, reserveOk).value, who, cfg.minStake);
    }
  }

  lemma IncreaseKeepsEscrow(cfg: Config, s: State, who: AccountId, amount: nat, reserveOk: bool)
    requires Escrowed(cfg, s)
    ensures var t := OrUnchanged(s, IncreaseStake(s, who, amount, reserveOk)); Escrowed(cfg, t) && SameHoldings(s, t)
  {
    if IncreaseStake(s, who, amount, reserveOk).Success? {
      assert who in s.registered <==> who in s.validatorSet;
      assert cfg.minStake <= At(s.stake, who) == At(s.currency.reserved, who);
      assert Holdings(s.currency, who) <= U128_MAX;
      DepositKeepsEscrow(cfg, s, IncreaseStake(s, who, amount, reserveOk).value, who, amount);
    }
  }

  lemma LeaveKeepsEscrow(cfg: Config, s: State, who: AccountId)
    requires Escrowed(cfg, s)
    ensures var t := OrUnchanged(s, Leave(cfg, s, who)); Escrowed(cfg, t) && SameHoldings(s, t)
  {
  }

  lemma CancelKeepsEscrow(cfg: Config, s: State, who: AccountId)
    requires Inv(cfg, s) && Escrowed(cfg, s)
    ensures var t := OrUnchanged(s, Cancel(cfg, s, who)); Escrowed(cfg, t) && SameHoldings(s, t)
  {
  }

  lemma ForceEjectKeepsEscrow(cfg: Config, s: State, who: AccountId)
    requires Escrowed(cfg, s)
    ensures Escrowed(cfg, ForceEject(s, who)) && SameHoldings(s, ForceEject(s, who))
  {
    RemovalKeepsEscrow(cfg, s, ForceEject(s, who), {who});
  }

  /** Events that touch neither membership nor money. */
  lemma UntouchedKeepsEscrow(cfg: Config, s: State, t: State)
    requires Escrowed(cfg, s)
    requires t.stake == s.stake && t.currency == s.currency
    requires t.registered == s.registered && t.validatorSet == s.validatorSet
    ensures Escrowed(cfg, t) && SameHoldings(s, t)
  {
  }

  lemma CallKeepsEscrow(cfg: Config, s: State, e: Event)
    requires Inv(cfg, s) && Escrowed(cfg, s) && !e.Left? && !e.NewBlock?
    ensures Escrowed(cfg, Call(cfg, s, e)) && SameHoldings(s, Call(cfg, s, e))
  {
    match e
    case JoinValidators(who, ok) => JoinKeepsEscrow(cfg, s, who, ok);
    case LeaveValidators(who) => LeaveKeepsEscrow(cfg, s, who);
    case CancelLeaveRequest(who) => CancelKeepsEscrow(cfg, s, who);
    case IncreaseValidatorStake(who, amount, ok) => IncreaseKeepsEscrow(cfg, s, who, amount, ok);
    case ForceEjectValidator(who) => ForceEjectKeepsEscrow(cfg, s, who);
    case EjectValidator(_) => UntouchedKeepsEscrow(cfg, s, Call(cfg, s, e));
    case SetActive(_) => UntouchedKeepsEscrow(cfg, s, Call(cfg, s, e));
    case SetProfile(_, _) => UntouchedKeepsEscrow(cfg, s, Call(cfg, s, e));
    case SetEpoch(_) => UntouchedKeepsEscrow(cfg, s, Call(cfg, s, e));
  }

  /** Every call but the bare `on_left` notification keeps stake in escrow and every account's holdings. */
  lemma StepKeepsEscrow(cfg: Config, s: State, e: Event)
    requires cfg.Valid() && Inv(cfg, s) && Escrowed(cfg, s) && !e.Left?
    ensures Escrowed(cfg, Step(cfg, s, e)) && SameHoldings(s, Step(cfg, s, e))
  {
    if e.NewBlock? {
      var check, due, swept := HookFields(cfg, s);
      RemovalKeepsEscrow(cfg, s, Step(cfg, s, e), due);
    } else {
      CallKeepsEscrow(cfg, s, e);
    }
  }

  /** Over whole runs stake equals the reserve, and no account gains or loses holdings. */
  lemma {:induction false} EscrowOverRuns(cfg: Config, s: State, es: seq<Event>)
    requires cfg.Valid() && Inv(cfg, s) && Escrowed(cfg, s) && AllAdmissible(cfg, s, es)
    requires forall e | e in es :: !e.Left?
    ensures Escrowed(cfg, Run(cfg, s, es)) && SameHoldings(s, Run(cfg, s, es))
  {
    if es != [] {
      var n := |es| - 1;
      EscrowOverRuns(cfg, s, es[..n]);
      InvHoldsOverRuns(cfg, s, es[..n]);
      StepKeepsEscrow(cfg, Run(cfg, s, es[..n]), es[n]);
    }
  }

  /** An empty registry with nothing reserved is escrowed, young and consistent. */
  lemma EmptyRegistry(cfg: Config, s: State)
    requires s.validatorSet == [] && s.active == [] && s.leaveRequests == map[] && s.removed == map[]
    requires s.registered == map[] && s.stake == map[] && s.currency.reserved == map[]
    requires forall a | a in s.currency.free :: s.currency.free[a] <= U128_MAX
    ensures Inv(cfg, s) && Young(cfg, s) && Escrowed(cfg, s)
  {
  }
}
