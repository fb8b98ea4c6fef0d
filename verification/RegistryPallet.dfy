/** The registry's storage, in both pallets that share it, and the methods that update it in place. */
module RegistryPallet {
  import opened Wrappers
  import opened Numeric
  import opened Sums
  import opened Registry

  class Pallet {
    const cfg: Config

    var blockNumber: nat
    var currentEpoch: nat
    var validatorSet: seq<AccountId>
    var activeValidators: seq<AccountId>
    var leaveRequests: map<AccountId, nat>
    var recentlyRemoved: map<AccountId, nat>
    var validatorStates: map<AccountId, Profile>
    var validators: map<AccountId, bool>
    var stake: map<AccountId, nat>
    var currency: Currency

    ghost function Storage(): State
      reads this
    {
      State(blockNumber, currentEpoch, validatorSet, activeValidators, leaveRequests, recentlyRemoved,
            validatorStates, validators, stake, currency)
    }

    ghost predicate Valid()
      reads this
    {
      cfg.Valid() && Distinct(validatorSet) && Distinct(activeValidators)
    }

    constructor (cfg: Config, currency: Currency)
      requires cfg.Valid()
      ensures this.cfg == cfg && Valid()
      ensures Storage() == State(0, 0, [], [], map[], map[], map[], map[], map[], currency)
    {
      this.cfg, this.currency := cfg, currency;
      blockNumber, currentEpoch, validatorSet, activeValidators := 0, 0, [], [];
      leaveRequests, recentlyRemoved, validatorStates, validators, stake := map[], map[], map[], map[], map[];
    }

    // ----- the hook

    method OnInitialize(block: nat)
      requires Valid() && block == blockNumber + 1
      modifies this
      ensures Valid() && Storage() == NextBlock(cfg, old(Storage()))
    {
      blockNumber := block;
      RunHook(block, block % cfg.checkInterval == 0);
    }

    method RunHook(block: nat, check: bool)
      requires Valid()
      modifies this
      ensures Valid() && Storage() == Hook(cfg, old(Storage()), block, check)
    {
      RunTimedSteps(block);
      if check {
        DropDistinct(activeValidators, Underperformers(cfg, activeValidators, validatorStates, currentEpoch));
        CheckUnderperforming();
      }
    }

    method RunTimedSteps(block: nat)
      requires Valid()
      modifies this
      ensures Valid() && Storage() == Expired(cfg, old(Storage()), block)
    {
      CleanupRecentlyRemoved(block);
      ProcessExpiredLeaveRequests(block);
      DropDistinct(old(activeValidators), Due(cfg, old(leaveRequests), block));
      DropDistinct(old(validatorSet), Due(cfg, old(leaveRequests), block));
    }

    /** The entries that are `cooldown` blocks old, in the order the storage happens to list them. */
    method CollectExpired(entries: map<AccountId, nat>, block: nat) returns (expired: seq<AccountId>)
      ensures Distinct(expired) && Elements(expired) == Due(cfg, entries, block)
    {
      expired := [];
      var pending := entries.Keys;
      while pending != {}
        invariant pending <= entries.Keys
        invariant Distinct(expired)
        invariant forall a :: a in expired <==> a in entries.Keys - pending && !StillCooling(cfg, entries[a], block)
        decreases pending
      {
        var a :| a in pending;
        pending := pending - {a};
        if SaturatingSub(block, entries[a]) >= cfg.leaveCooldown {
          expired := expired + [a];
        }
      }
    }

    method CleanupRecentlyRemoved(block: nat)
      modifies this`recentlyRemoved
      ensures Storage() == old(Storage()).(removed := StillRemoved(cfg, old(recentlyRemoved), block))
    {
      var expired := CollectExpired(recentlyRemoved, block);
      for i := 0 to |expired|
        invariant recentlyRemoved == old(recentlyRemoved) - Elements(expired[..i])
      {
        recentlyRemoved := recentlyRemoved - {expired[i]};
        ElementsSnoc(expired, i);
      }
      assert expired[..|expired|] == expired;
      assert recentlyRemoved == StillRemoved(cfg, old(recentlyRemoved), block);
    }

    method ProcessExpiredLeaveRequests(block: nat)
      requires Distinct(validatorSet) && Distinct(activeValidators)
      modifies this
      ensures Storage() == Expire(old(Storage()), Due(cfg, old(leaveRequests), block), block)
    {
      var expired := CollectExpired(leaveRequests, block);
      ghost var s := Storage();
      ExpireNobody(s, block);
      assert Elements(expired[..0]) == {};
      for i := 0 to |expired|
        invariant Storage() == Expire(s, Elements(expired[..i]), block)
      {
        ghost var gone := Elements(expired[..i]);
        DropDistinct(s.validatorSet, gone);
        DropDistinct(s.active, gone);
        ExpireOneMore(s, gone, expired[i], block);
        RemoveExpired(expired[i], block);
        ElementsSnoc(expired, i);
      }
      assert expired[..|expired|] == expired;
    }

    /** One expired request: the stake goes back, the account leaves every list, and its cooldown begins. */
    method RemoveExpired(who: AccountId, block: nat)
      requires Distinct(validatorSet) && Distinct(activeValidators)
      modifies this
      ensures Storage() == Expire(old(Storage()), {who}, block)
    {
      ReleaseStake(who);
      RemoveMember(who);
      StampOne(recentlyRemoved, who, block);
      recentlyRemoved := recentlyRemoved[who := block];
    }

    method RemoveMember(who: AccountId)
      requires Distinct(validatorSet) && Distinct(activeValidators)
      modifies this`validatorSet, this`activeValidators, this`validators, this`stake, this`leaveRequests
      ensures validatorSet == Drop(old(validatorSet), {who})
      ensures activeValidators == Drop(old(activeValidators), {who})
      ensures validators == old(validators) - {who}
      ensures stake == old(stake) - {who}
      ensures leaveRequests == old(leaveRequests) - {who}
    {
      validatorSet := RemoveFrom(validatorSet, who);
      activeValidators := RemoveFrom(activeValidators, who);
      validators := validators - {who};
      stake := stake - {who};
      leaveRequests := leaveRequests - {who};
    }

    /** Gives the whole stake of `who` back, when there is any. */
    method ReleaseStake(who: AccountId)
      modifies this`currency
      ensures currency == ReleaseAll(old(currency), stake, {who})
    {
      ReleaseOne(currency, stake, who);
      var stakeAmount := At(stake, who);
      if stakeAmount > 0 {
        currency := Unreserve(currency, who, stakeAmount);
      }
    }

    method CheckUnderperforming()
      requires Distinct(activeValidators)
      modifies this`activeValidators
      ensures Storage() == Sweep(cfg, old(Storage()))
    {
      var toCheck := activeValidators;
      DropNothing(toCheck, {});
      assert Underperformers(cfg, toCheck[..0], validatorStates, currentEpoch) == {};
      for i := 0 to |toCheck|
        invariant activeValidators == Drop(toCheck, Underperformers(cfg, toCheck[..i], validatorStates, currentEpoch))
      {
        ghost var below := Underperformers(cfg, toCheck[..i], validatorStates, currentEpoch);
        DropDistinct(toCheck, below);
        CheckOne(toCheck[i]);
        DropTwice(toCheck, below, {toCheck[i]});
        OneMoreUnderperformer(cfg, toCheck, i, validatorStates, currentEpoch);
      }
      assert toCheck[..|toCheck|] == toCheck;
    }

    /** The two checks of one validator; either one ejects it, and the second ejection finds nothing. */
    method CheckOne(who: AccountId)
      requires Distinct(activeValidators)
      modifies this`activeValidators
      ensures activeValidators ==
              if Underperforms(cfg, validatorStates, currentEpoch, who) then Drop(old(activeValidators), {who})
              else old(activeValidators)
    {
      DropDistinct(activeValidators, {who});
      DropTwice(activeValidators, {who}, {who});
      assert {who} + {who} == {who};
      if who in validatorStates {
        var profile := validatorStates[who];
        if profile.finalScore < cfg.minScore {
          EjectFromActive(who);
        }
        if SaturatingSub(currentEpoch, profile.lastActiveEpoch) > cfg.maxInactiveEpochs {
          EjectFromActive(who);
        }
      }
    }

    // ----- lists and balances

    /** Finds the account and takes it out of the list. */
    method RemoveFrom(xs: seq<AccountId>, who: AccountId) returns (ys: seq<AccountId>)
      requires Distinct(xs)
      ensures ys == Drop(xs, {who})
    {
      for i := 0 to |xs|
        invariant forall k | 0 <= k < i :: xs[k] != who
      {
        if xs[i] == who {
          RemoveAt(xs, i);
          return xs[..i] + xs[i + 1..];
        }
      }
      DropNothing(xs, {who});
      return xs;
    }

    method EjectFromActive(who: AccountId)
      requires Distinct(activeValidators)
      modifies this`activeValidators
      ensures activeValidators == Drop(old(activeValidators), {who})
    {
      activeValidators := RemoveFrom(activeValidators, who);
    }

    // ----- calls: writes follow all checks, since a failing call rolls back

    method JoinValidators(who: AccountId, reserveOk: bool) returns (r: Result<(), Error>)
      requires Valid()
      modifies this
      ensures Valid()
      ensures match JoinError(cfg, old(Storage()), who, reserveOk)
              case None => r.Success? && Storage() == Joined(cfg, old(Storage()), who)
              case Some(e) => r == Failure(e) && Storage() == old(Storage())
    {
      if At(currency.free, who) < cfg.minStake {
        return Failure(InsufficientStake);
      }
      if who in recentlyRemoved {
        if SaturatingSub(blockNumber, recentlyRemoved[who]) < cfg.leaveCooldown {
          return Failure(CooldownActive);
        }
      }
      if who in leaveRequests {
        return Failure(LeaveCooldownActive);
      }
      if who in validatorSet {
        return Failure(ValidatorAlreadyExists);
      }
      if !reserveOk {
        return Failure(InsufficientStake);
      }
      if |validatorSet| >= cfg.maxValidators {
        return Failure(TooManyValidators);
      }
      Admit(who);
      return Success(());
    }

    method Admit(who: AccountId)
      requires cfg.minStake <= At(currency.free, who)
      modifies this
      ensures Storage() == Joined(cfg, old(Storage()), who)
    {
      recentlyRemoved := recentlyRemoved - {who};
      currency := Reserve(currency, who, cfg.minStake);
      stake := stake[who := cfg.minStake];
      validatorSet := validatorSet + [who];
      validators := validators[who := true];
      if who !in validatorStates {
        validatorStates := validatorStates[who := Profile(50, currentEpoch)];
      }
    }

    method LeaveValidators(who: AccountId) returns (r: Result<(), Error>)
      requires Valid()
      modifies this
      ensures Valid()
      ensures match Leave(cfg, old(Storage()), who)
              case Success(t) => r.Success? && Storage() == t
              case Failure(e) => r == Failure(e) && Storage() == old(Storage())
    {
      if who !in validatorSet {
        return Failure(ValidatorNotInSet);
      }
      if who in leaveRequests {
        return Failure(LeaveCooldownActive);
      }
      DropDistinct(activeValidators, {who});
      leaveRequests := leaveRequests[who := blockNumber];
      EjectFromActive(who);
      validators := validators[who := false];
      return Success(());
    }

    method CancelLeaveRequest(who: AccountId) returns (r: Result<(), Error>)
      requires Valid()
      modifies this
      ensures Valid()
      ensures match Cancel(cfg, old(Storage()), who)
              case Success(t) => r.Success? && Storage() == t
              case Failure(e) => r == Failure(e) && Storage() == old(Storage())
    {
      if who !in leaveRequests {
        return Failure(ValidatorNotInSet);
      }
      if SaturatingSub(blockNumber, leaveRequests[who]) >= cfg.leaveCooldown {
        return Failure(LeaveCooldownActive);
      }
      leaveRequests := leaveRequests - {who};
      if who in validatorSet {
        if who !in activeValidators {
          if |activeValidators| < cfg.maxValidators {
            activeValidators := activeValidators + [who];
          }
        }
        validators := validators[who := true];
      }
      return Success(());
    }

    method IncreaseValidatorStake(who: AccountId, amount: nat, reserveOk: bool) returns (r: Result<(), Error>)
      requires Valid()
      modifies this
      ensures Valid()
      ensures match IncreaseStake(old(Storage()), who, amount, reserveOk)
              case Success(t) => r.Success? && Storage() == t
              case Failure(e) => r == Failure(e) && Storage() == old(Storage())
    {
      if who !in validators {
        return Failure(ValidatorNotInSet);
      }
      if At(currency.free, who) < amount || !reserveOk {
        return Failure(InsufficientStake);
      }
      currency := Reserve(currency, who, amount);
      stake := stake[who := Min(At(stake, who) + amount, U128_MAX)];
      return Success(());
    }

    method NotifyLeft(who: AccountId)
      requires Valid()
      modifies this
      ensures Valid() && Storage() == OnLeft(old(Storage()), who)
    {
      DropDistinct(validatorSet, {who});
      DropDistinct(activeValidators, {who});
      validatorSet := RemoveFrom(validatorSet, who);
      EjectFromActive(who);
      leaveRequests := leaveRequests - {who};
      recentlyRemoved := recentlyRemoved[who := blockNumber];
    }

    method ForceEjectValidator(who: AccountId)
      requires Valid()
      modifies this
      ensures Valid() && Storage() == ForceEject(old(Storage()), who)
    {
      ReleaseStake(who);
      validators := validators - {who};
      stake := stake - {who};
      NotifyLeft(who);
    }
  }

  lemma ReleaseOne(c: Currency, stake: map<AccountId, nat>, who: AccountId)
    ensures ReleaseAll(c, stake, {who}) == if At(stake, who) > 0 then Unreserve(c, who, At(stake, who)) else c
  {
    assert Releasing(stake, {who}) == if At(stake, who) > 0 then {who} else {};
    var after := ReleaseAll(c, stake, {who});
    if At(stake, who) > 0 {
      var moved := Unreserve(c, who, At(stake, who));
      assert after.free == moved.free;
      assert after.reserved == moved.reserved;
    } else {
      assert after.free == c.free && after.reserved == c.reserved;
    }
  }

  lemma ReleasedOneMore(c: Currency, stake: map<AccountId, nat>, gone: set<AccountId>, who: AccountId, a: AccountId)
    requires who !in gone
    ensures var first := ReleaseAll(c, stake, gone);
            && At(first.free, a) == At(c.free, a) + Released(c, stake, gone, a)
            && At(first.reserved, a) == At(c.reserved, a) - Released(c, stake, gone, a)
            && Released(c, stake, gone + {who}, a) == Released(c, stake, gone, a) + Released(first, stake - gone, {who}, a)
  {
  }

  lemma ReleasingOneMore(stake: map<AccountId, nat>, gone: set<AccountId>, who: AccountId)
    requires who !in gone
    ensures Releasing(stake, gone + {who}) == Releasing(stake, gone) + Releasing(stake - gone, {who})
  {
  }

  lemma SameMap(m: map<AccountId, nat>, m': map<AccountId, nat>)
    requires m.Keys == m'.Keys && forall a | a in m :: At(m, a) == At(m', a)
    ensures m == m'
  {
    assert forall a | a in m :: m[a] == At(m, a) && m'[a] == At(m', a);
  }

  lemma ReleaseOneMoreAt(c: Currency, stake: map<AccountId, nat>, gone: set<AccountId>, who: AccountId, a: AccountId)
    requires who !in gone
    ensures var twice, once := ReleaseAll(ReleaseAll(c, stake, gone), stake - gone, {who}), ReleaseAll(c, stake, gone + {who});
            && (a in twice.free <==> a in once.free) && At(twice.free, a) == At(once.free, a)
            && (a in twice.reserved <==> a in once.reserved) && At(twice.reserved, a) == At(once.reserved, a)
  {
    ReleasedOneMore(c, stake, gone, who, a);
    ReleasingOneMore(stake, gone, who);
  }

  lemma ReleaseOneMore(c: Currency, stake: map<AccountId, nat>, gone: set<AccountId>, who: AccountId)
    requires who !in gone
    ensures ReleaseAll(ReleaseAll(c, stake, gone), stake - gone, {who}) == ReleaseAll(c, stake, gone + {who})
  {
    var twice, once := ReleaseAll(ReleaseAll(c, stake, gone), stake - gone, {who}), ReleaseAll(c, stake, gone + {who});
    forall a
      ensures (a in twice.free <==> a in once.free) && At(twice.free, a) == At(once.free, a)
      ensures (a in twice.reserved <==> a in once.reserved) && At(twice.reserved, a) == At(once.reserved, a)
    {
      ReleaseOneMoreAt(c, stake, gone, who, a);
    }
    SameMap(twice.free, once.free);
    SameMap(twice.reserved, once.reserved);
  }

  lemma ElementsSnoc(xs: seq<AccountId>, i: nat)
    requires i < |xs|
    ensures Elements(xs[..i + 1]) == Elements(xs[..i]) + {xs[i]}
  {
    assert xs[..i + 1] == xs[..i] + [xs[i]];
  }

  lemma StampOne(m: map<AccountId, nat>, who: AccountId, block: nat)
    ensures m[who := block] == m + Stamped({who}, block)
  {
  }

  lemma OneMoreUnderperformer(cfg: Config, xs: seq<AccountId>, i: nat, profiles: map<AccountId, Profile>, epoch: nat)
    requires i < |xs|
    ensures Underperformers(cfg, xs[..i + 1], profiles, epoch) ==
            if Underperforms(cfg, profiles, epoch, xs[i]) then Underperformers(cfg, xs[..i], profiles, epoch) + {xs[i]}
            else Underperformers(cfg, xs[..i], profiles, epoch)
  {
    assert xs[..i + 1] == xs[..i] + [xs[i]];
  }

  lemma ExpireNobody(s: State, block: nat)
    ensures Expire(s, {}, block) == s
  {
    DropNothing(s.validatorSet, {});
    DropNothing(s.active, {});
    assert Releasing(s.stake, {}) == {};
    assert ReleaseAll(s.currency, s.stake, {}).free == s.currency.free;
    assert ReleaseAll(s.currency, s.stake, {}).reserved == s.currency.reserved;
    assert Stamped({}, block) == map[];
  }

  /** Expiring requests one at a time, in any order, is expiring them together. */
  lemma ExpireOneMore(s: State, gone: set<AccountId>, who: AccountId, block: nat)
    requires who !in gone
    ensures Expire(Expire(s, gone, block), {who}, block) == Expire(s, gone + {who}, block)
  {
    ReleaseOneMore(s.currency, s.stake, gone, who);
    DropTwice(s.validatorSet, gone, {who});
    DropTwice(s.active, gone, {who});
    assert s.registered - gone - {who} == s.registered - (gone + {who});
    assert s.stake - gone - {who} == s.stake - (gone + {who});
    assert s.leaveRequests - gone - {who} == s.leaveRequests - (gone + {who});
    assert s.removed + Stamped(gone, block) + Stamped({who}, block) == s.removed + Stamped(gone + {who}, block);
  }
}
