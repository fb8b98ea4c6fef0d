/**
  What each call of the registry and the hook of a block answer and leave behind, account by account and
  field by field.
*/
module RegistryEffects {
  import opened Wrappers
  import opened Numeric
  import opened Sums
  import opened Registry
  import opened RegistryInvariants

  // ----- what stays the same

  predicate SameAt<V(==)>(m: map<AccountId, V>, n: map<AccountId, V>, a: AccountId) {
    (a in n <==> a in m) && (a in m ==> n[a] == m[a])
  }

  /** Balances, stake and registration of an account. */
  predicate MoneyUntouched(s: State, t: State, a: AccountId) {
    && At(t.currency.free, a) == At(s.currency.free, a)
    && At(t.currency.reserved, a) == At(s.currency.reserved, a)
    && SameAt(s.stake, t.stake, a) && SameAt(s.registered, t.registered, a)
  }

  /** Everything that is stored about an account. */
  predicate Untouched(s: State, t: State, a: AccountId) {
    && MoneyUntouched(s, t, a)
    && SameAt(s.leaveRequests, t.leaveRequests, a) && SameAt(s.removed, t.removed, a)
    && SameAt(s.profiles, t.profiles, a)
    && (a in t.validatorSet <==> a in s.validatorSet) && (a in t.active <==> a in s.active)
  }

  predicate SameClock(s: State, t: State) {
    t.now == s.now && t.epoch == s.epoch
  }

  /** A list without one account, the others in their order. */
  predicate Without(xs: seq<AccountId>, ys: seq<AccountId>, who: AccountId) {
    if who in xs then exists i | 0 <= i < |xs| :: xs[i] == who && ys == xs[..i] + xs[i + 1..] else ys == xs
  }

  lemma DropIsWithout(xs: seq<AccountId>, who: AccountId)
    requires Distinct(xs)
    ensures Without(xs, Drop(xs, {who}), who)
  {
    if who in xs {
      var i :| 0 <= i < |xs| && xs[i] == who;
      RemoveAt(xs, i);
    } else {
      DropNothing(xs, {who});
    }
  }

  /** Every list loses the one account at most, and keeps its order. */
  predicate ListsWithout(s: State, t: State, who: AccountId) {
    Without(s.validatorSet, t.validatorSet, who) && Without(s.active, t.active, who)
  }

  lemma DropsAreWithout(s: State, t: State, who: AccountId)
    requires Distinct(s.validatorSet) && Distinct(s.active)
    requires t.validatorSet == Drop(s.validatorSet, {who}) && t.active == Drop(s.active, {who})
    ensures ListsWithout(s, t, who)
  {
    DropIsWithout(s.validatorSet, who);
    DropIsWithout(s.active, who);
  }

  /** The cooldown that began in block `since` is still running in block `now`. */
  predicate Cooling(cfg: Config, since: nat, now: nat) {
    cfg.leaveCooldown > 0 && now < since + cfg.leaveCooldown
  }

  // ----- joining

  /**
    A join moves exactly the minimum stake from the free balance into the reserve, records it as the stake,
    appends the account to the set and registers it; a removal entry goes, and a first profile starts with
    score 50 in the current epoch. It makes nobody active.
  */
  lemma JoinEffect(cfg: Config, s: State, who: AccountId, reserveOk: bool)
    requires Join(cfg, s, who, reserveOk).Success?
    ensures var t := Join(cfg, s, who, reserveOk).value;
            && t.validatorSet == s.validatorSet + [who] && t.active == s.active
            && At(t.currency.free, who) + cfg.minStake == At(s.currency.free, who)
            && At(t.currency.reserved, who) == At(s.currency.reserved, who) + cfg.minStake
            && who in t.stake && t.stake[who] == cfg.minStake
            && who in t.registered && t.registered[who]
            && who !in t.removed && who !in t.leaveRequests
            && who in t.profiles
            && t.profiles[who] == (if who in s.profiles then s.profiles[who] else Profile(50, s.epoch))
            && SameClock(s, t)
            && forall a | a != who :: Untouched(s, t, a)
  {
  }

  /** Which error a join is refused with: the first of its failings, in this order. */
  lemma JoinRefusedWith(cfg: Config, s: State, who: AccountId, reserveOk: bool)
    ensures var r := Join(cfg, s, who, reserveOk);
            var rich := cfg.minStake <= At(s.currency.free, who);
            var cooled := rich && !(who in s.removed && Cooling(cfg, s.removed[who], s.now));
            var free := cooled && who !in s.leaveRequests;
            var outside := free && who !in s.validatorSet;
            var granted := outside && reserveOk;
            && (r == Failure(InsufficientStake) <==> !rich || (outside && !granted))
            && (r == Failure(CooldownActive) <==> rich && !cooled)
            && (r == Failure(LeaveCooldownActive) <==> cooled && !free)
            && (r == Failure(ValidatorAlreadyExists) <==> free && !outside)
            && (r == Failure(TooManyValidators) <==> granted && cfg.maxValidators <= |s.validatorSet|)
  {
  }

  // ----- leaving

  /** A leave request is dated with the block, and takes the account out of the active list but not out of the set. */
  lemma LeaveEffect(cfg: Config, s: State, who: AccountId)
    ensures match Leave(cfg, s, who)
            case Failure(e) =>
              && (e == ValidatorNotInSet <==> who !in s.validatorSet)
              && (e == LeaveCooldownActive <==> who in s.validatorSet && who in s.leaveRequests)
              && (who in s.validatorSet ==> who in s.leaveRequests)
            case Success(t) =>
              && who in s.validatorSet && who !in s.leaveRequests
              && who in t.leaveRequests && t.leaveRequests[who] == s.now
              && who in t.registered && !t.registered[who]
              && who !in t.active && t.validatorSet == s.validatorSet
              && t.currency == s.currency && t.stake == s.stake && t.removed == s.removed && t.profiles == s.profiles
              && SameClock(s, t)
              && forall a | a != who :: Untouched(s, t, a)
  {
    DropMembers(s.active, {who});
  }

  lemma LeaveKeepsOrder(cfg: Config, s: State, who: AccountId)
    requires Distinct(s.active) && Leave(cfg, s, who).Success?
    ensures Without(s.active, Leave(cfg, s, who).value.active, who)
  {
    DropIsWithout(s.active, who);
  }

  /** A withdrawal succeeds within the cooldown, and makes a member of the set active again if there is room. */
  lemma CancelEffect(cfg: Config, s: State, who: AccountId)
    ensures match Cancel(cfg, s, who)
            case Failure(e) =>
              && (e == ValidatorNotInSet <==> who !in s.leaveRequests)
              && (e == LeaveCooldownActive <==> who in s.leaveRequests)
              && (who in s.leaveRequests ==> !Cooling(cfg, s.leaveRequests[who], s.now))
            case Success(t) =>
              var member := who in s.validatorSet;
              && who in s.leaveRequests && Cooling(cfg, s.leaveRequests[who], s.now)
              && who !in t.leaveRequests
              && t.active ==
                 (if member && who !in s.active && |s.active| < cfg.maxValidators then s.active + [who] else s.active)
              && (member ==> who in t.registered && t.registered[who])
              && (!member ==> t.registered == s.registered)
              && t.validatorSet == s.validatorSet
              && t.currency == s.currency && t.stake == s.stake && t.removed == s.removed && t.profiles == s.profiles
              && SameClock(s, t)
              && forall a | a != who :: Untouched(s, t, a)
  {
  }

  // ----- more stake

  /** An increase moves exactly the amount from the free balance into the reserve and onto the stake. */
  lemma IncreaseEffect(s: State, who: AccountId, amount: nat, reserveOk: bool)
    ensures match IncreaseStake(s, who, amount, reserveOk)
            case Failure(e) =>
              && (e == ValidatorNotInSet <==> who !in s.registered)
              && (e == InsufficientStake <==> who in s.registered)
              && (who in s.registered ==> At(s.currency.free, who) < amount || !reserveOk)
            case Success(t) =>
              && who in s.registered && amount <= At(s.currency.free, who) && reserveOk
              && At(t.currency.free, who) + amount == At(s.currency.free, who)
              && At(t.currency.reserved, who) == At(s.currency.reserved, who) + amount
              && At(t.stake, who) == Min(At(s.stake, who) + amount, U128_MAX)
              && t.validatorSet == s.validatorSet && t.active == s.active && t.registered == s.registered
              && t.leaveRequests == s.leaveRequests && t.removed == s.removed && t.profiles == s.profiles
              && SameClock(s, t)
              && forall a | a != who :: Untouched(s, t, a)
  {
  }

  // ----- removal

  /** What the reserve can give back of an account's stake. */
  function Refund(s: State, a: AccountId): nat {
    Min(At(s.stake, a), At(s.currency.reserved, a))
  }

  /** Ejection for bad performance takes the account off the active list and touches nothing else. */
  lemma EjectEffect(s: State, who: AccountId)
    requires Distinct(s.active)
    ensures Without(s.active, Eject(s, who).active, who) && Eject(s, who) == s.(active := Eject(s, who).active)
  {
    DropIsWithout(s.active, who);
  }

  /** Who is gone after a removal, and whose cooldown begins. */
  predicate Removed(s: State, t: State, who: AccountId) {
    && who !in t.validatorSet && who !in t.active
    && who !in t.leaveRequests && who in t.removed && t.removed[who] == s.now
    && SameAt(s.profiles, t.profiles, who) && SameClock(s, t)
  }

  /** The notification that an account has left clears its membership, and starts its cooldown, but leaves its money. */
  lemma LeftEffect(s: State, who: AccountId)
    ensures var t := OnLeft(s, who);
            Removed(s, t, who) && MoneyUntouched(s, t, who) && forall a | a != who :: Untouched(s, t, a)
  {
    DropMembers(s.validatorSet, {who});
    DropMembers(s.active, {who});
  }

  lemma RefundOne(c: Currency, stake: map<AccountId, nat>, who: set<AccountId>, a: AccountId)
    ensures var back := if a in who then Min(At(stake, a), At(c.reserved, a)) else 0;
            && At(ReleaseAll(c, stake, who).free, a) == At(c.free, a) + back
            && At(ReleaseAll(c, stake, who).reserved, a) + back == At(c.reserved, a)
  {
  }

  /** A forced ejection does the same, gives the stake back, and deletes stake and registration. */
  lemma ForceEjectEffect(s: State, who: AccountId)
    ensures var t := ForceEject(s, who);
            && Removed(s, t, who)
            && who !in t.stake && who !in t.registered
            && At(t.currency.free, who) == At(s.currency.free, who) + Refund(s, who)
            && At(t.currency.reserved, who) + Refund(s, who) == At(s.currency.reserved, who)
            && forall a | a != who :: Untouched(s, t, a)
  {
    DropMembers(s.validatorSet, {who});
    DropMembers(s.active, {who});
    RefundOne(s.currency, s.stake, {who}, who);
    forall a | a != who ensures Untouched(s, ForceEject(s, who), a) {
      RefundOne(s.currency, s.stake, {who}, a);
    }
  }

  /** Both removals keep the order of the lists. */
  lemma RemovalKeepsOrder(s: State, who: AccountId)
    requires Distinct(s.active) && Distinct(s.validatorSet)
    ensures ListsWithout(s, OnLeft(s, who), who) && ListsWithout(s, ForceEject(s, who), who)
  {
    DropsAreWithout(s, OnLeft(s, who), who);
    DropsAreWithout(s, ForceEject(s, who), who);
  }

  /** Replacing the active list keeps as many of the accounts given as fit, in order, and nothing else changes. */
  lemma SetActiveEffect(cfg: Config, s: State, accounts: seq<AccountId>)
    ensures var t := Call(cfg, s, SetActive(accounts));
            && t.active <= accounts && |t.active| == Min(|accounts|, cfg.maxValidators)
            && t == s.(active := t.active)
  {
  }

  // ----- the hook

  /** The account's request has waited out the cooldown in the next block. */
  predicate Expires(cfg: Config, s: State, a: AccountId) {
    a in s.leaveRequests && !Cooling(cfg, s.leaveRequests[a], s.now + 1)
  }

  /** A recorded state below the minimum score, or not active for more epochs than allowed. */
  predicate Fails(cfg: Config, s: State, a: AccountId) {
    && a in s.profiles
    && (|| s.profiles[a].finalScore < cfg.minScore
        || s.profiles[a].lastActiveEpoch + cfg.maxInactiveEpochs < s.epoch)
  }

  /** Which lists and entries an account is in after the hook. */
  predicate HookMembership(cfg: Config, s: State, t: State, a: AccountId, checked: bool) {
    var gone := Expires(cfg, s, a);
    && (a in t.validatorSet <==> a in s.validatorSet && !gone)
    && (a in t.active <==> a in s.active && !gone && !(checked && Fails(cfg, s, a)))
    && (a in t.leaveRequests <==> a in s.leaveRequests && !gone)
    && (a in t.leaveRequests ==> t.leaveRequests[a] == s.leaveRequests[a])
    && (a in t.removed <==> gone || (a in s.removed && Cooling(cfg, s.removed[a], s.now + 1)))
    && (a in t.removed ==> t.removed[a] == if gone then s.now + 1 else s.removed[a])
  }

  /** What becomes of an account's stake, registration and balances in the hook. */
  predicate HookMoney(cfg: Config, s: State, t: State, a: AccountId) {
    if Expires(cfg, s, a) then
      && a !in t.stake && a !in t.registered
      && At(t.currency.free, a) == At(s.currency.free, a) + Refund(s, a)
      && At(t.currency.reserved, a) + Refund(s, a) == At(s.currency.reserved, a)
    else
      MoneyUntouched(s, t, a)
  }

  lemma HookMembers(cfg: Config, s: State, t: State, a: AccountId, check: bool, due: set<AccountId>, swept: set<AccountId>)
    requires HookOutcome(cfg, s, t, check, due, swept)
    ensures HookMembership(cfg, s, t, a, check)
  {
    assert a in due <==> Expires(cfg, s, a);
    DropMembers(s.validatorSet, due);
    DropMembers(s.active, due);
    DropMembers(Drop(s.active, due), swept);
  }

  lemma HookBalances(cfg: Config, s: State, t: State, a: AccountId, check: bool, due: set<AccountId>, swept: set<AccountId>)
    requires HookOutcome(cfg, s, t, check, due, swept)
    ensures HookMoney(cfg, s, t, a)
  {
    assert a in due <==> Expires(cfg, s, a);
    RefundOne(s.currency, s.stake, due, a);
  }

  /**
    What the hook of the next block does, account by account. An expired request takes the account out of
    everything, gives its stake back and starts its cooldown; a removal entry that has cooled down goes; and
    every so many blocks exactly the active validators that fail are taken off the active list. Nothing else
    happens to anybody.
  */
  lemma HookEffect(cfg: Config, s: State, a: AccountId)
    requires cfg.Valid()
    ensures var t := NextBlock(cfg, s);
            && HookMembership(cfg, s, t, a, (s.now + 1) % cfg.checkInterval == 0)
            && HookMoney(cfg, s, t, a)
            && t.profiles == s.profiles && t.now == s.now + 1 && t.epoch == s.epoch
  {
    var check, due, swept := HookFields(cfg, s);
    HookMembers(cfg, s, NextBlock(cfg, s), a, check, due, swept);
    HookBalances(cfg, s, NextBlock(cfg, s), a, check, due, swept);
  }

  /** Some of `xs`, in the order of `xs`. */
  predicate Sublist(ys: seq<AccountId>, xs: seq<AccountId>)
    decreases |xs|
  {
    ys == [] ||
    (xs != [] &&
     if ys[|ys| - 1] == xs[|xs| - 1] then Sublist(ys[..|ys| - 1], xs[..|xs| - 1]) else Sublist(ys, xs[..|xs| - 1]))
  }

  lemma {:induction false} DropIsSublist(xs: seq<AccountId>, who: set<AccountId>)
    ensures Sublist(Drop(xs, who), xs)
  {
    if xs != [] {
      var n := |xs| - 1;
      DropIsSublist(xs[..n], who);
      DropMembers(xs[..n], who);
      var front := Drop(xs[..n], who);
      assert xs[n] !in who ==> (front + [xs[n]])[..|front|] == front;
      assert front != [] ==> front[|front| - 1] in front;
    }
  }

  /** The members who stay, and the active validators who do, keep their order. */
  lemma HookKeepsOrder(cfg: Config, s: State)
    requires cfg.Valid()
    ensures Sublist(NextBlock(cfg, s).validatorSet, s.validatorSet) && Sublist(NextBlock(cfg, s).active, s.active)
  {
    var check, due, swept := HookFields(cfg, s);
    DropTwice(s.active, due, swept);
    DropIsSublist(s.validatorSet, due);
    DropIsSublist(s.active, due + swept);
  }
}
