/**
  The validator registry as a state machine: membership, pending leave requests, re-entry cooldowns,
  performance ejection, and the stake and balances behind them. Failed calls change nothing.
*/
module Registry {
  import opened Wrappers
  import opened Numeric
  import opened Sums

  type AccountId = nat

  datatype Config = Config(
    minStake: nat,
    leaveCooldown: nat,
    maxValidators: nat,
    minScore: nat,
    maxInactiveEpochs: nat,
    checkInterval: nat)
  {
    /** A zero interval would divide by zero in every block. */
    predicate Valid() {
      checkInterval > 0
    }
  }

  /** The two fields of a validator's state that the performance sweep reads. */
  datatype Profile = Profile(finalScore: nat, lastActiveEpoch: nat)

  datatype Error =
    | InsufficientStake
    | CooldownActive
    | LeaveCooldownActive
    | ValidatorAlreadyExists
    | TooManyValidators
    | ValidatorNotInSet

  datatype State = State(
    now: nat,
    epoch: nat,
    validatorSet: seq<AccountId>,
    active: seq<AccountId>,
    leaveRequests: map<AccountId, nat>,
    removed: map<AccountId, nat>,
    profiles: map<AccountId, Profile>,
    registered: map<AccountId, bool>,
    stake: map<AccountId, nat>,
    currency: Currency)

  /** The currency pallet's two balances of every account. */
  datatype Currency = Currency(free: map<AccountId, nat>, reserved: map<AccountId, nat>)

  // ----- lists

  /** The list without the accounts in `who`. */
  function Drop(xs: seq<AccountId>, who: set<AccountId>): seq<AccountId> {
    if xs == [] then []
    else
      var n := |xs| - 1;
      if xs[n] in who then Drop(xs[..n], who) else Drop(xs[..n], who) + [xs[n]]
  }

  lemma {:induction false} DropMembers(xs: seq<AccountId>, who: set<AccountId>)
    ensures forall a :: a in Drop(xs, who) <==> a in xs && a !in who
    ensures |Drop(xs, who)| <= |xs|
  {
    if xs != [] {
      var n := |xs| - 1;
      DropMembers(xs[..n], who);
      assert xs == xs[..n] + [xs[n]];
    }
  }

  lemma {:induction false} DropDistinct(xs: seq<AccountId>, who: set<AccountId>)
    requires Distinct(xs)
    ensures Distinct(Drop(xs, who))
  {
    if xs != [] {
      var n := |xs| - 1;
      DropDistinct(xs[..n], who);
      DropMembers(xs[..n], who);
    }
  }

  lemma {:induction false} DropNothing(xs: seq<AccountId>, who: set<AccountId>)
    requires forall a | a in xs :: a !in who
    ensures Drop(xs, who) == xs
  {
    if xs != [] {
      var n := |xs| - 1;
      DropNothing(xs[..n], who);
      assert xs == xs[..n] + [xs[n]];
    }
  }

  lemma {:induction false} DropTwice(xs: seq<AccountId>, first: set<AccountId>, second: set<AccountId>)
    ensures Drop(Drop(xs, first), second) == Drop(xs, first + second)
  {
    if xs != [] {
      var n := |xs| - 1;
      DropTwice(xs[..n], first, second);
      if xs[n] !in first {
        var dropped := Drop(xs[..n], first);
        assert (dropped + [xs[n]])[..|dropped|] == dropped;
      }
    }
  }

  /** Taking out the place where an account stands in a duplicate-free list drops the account. */
  lemma {:induction false} RemoveAt(xs: seq<AccountId>, i: nat)
    requires Distinct(xs) && i < |xs|
    ensures xs[..i] + xs[i + 1..] == Drop(xs, {xs[i]})
  {
    var n := |xs| - 1;
    if i == n {
      DropNothing(xs[..n], {xs[n]});
    } else {
      RemoveAt(xs[..n], i);
      assert xs[..i] + xs[i + 1..] == (xs[..n][..i] + xs[..n][i + 1..]) + [xs[n]];
    }
  }

  // ----- balances

  /** Moves `amount` of a sufficient free balance into the reserve. */
  function Reserve(c: Currency, a: AccountId, amount: nat): Currency
    requires amount <= At(c.free, a)
  {
    Currency(c.free[a := At(c.free, a) - amount], c.reserved[a := At(c.reserved, a) + amount])
  }

  /** Moves back what the reserve holds of `amount`. */
  function Unreserve(c: Currency, a: AccountId, amount: nat): Currency {
    var moved := Min(amount, At(c.reserved, a));
    Currency(c.free[a := At(c.free, a) + moved], c.reserved[a := At(c.reserved, a) - moved])
  }

  /** Accounts of `who` whose stake is not zero, for which `unreserve` is called. */
  function Releasing(stake: map<AccountId, nat>, who: set<AccountId>): set<AccountId> {
    set a | a in who && At(stake, a) > 0
  }

  /** What `unreserve` moves when the whole stake of each of `who` is given back. */
  function Released(c: Currency, stake: map<AccountId, nat>, who: set<AccountId>, a: AccountId): nat {
    if a in Releasing(stake, who) then Min(At(stake, a), At(c.reserved, a)) else 0
  }

  function ReleaseAll(c: Currency, stake: map<AccountId, nat>, who: set<AccountId>): Currency {
    Currency(map a | a in c.free.Keys + Releasing(stake, who) :: At(c.free, a) + Released(c, stake, who, a),
             map a | a in c.reserved.Keys + Releasing(stake, who) :: At(c.reserved, a) - Released(c, stake, who, a))
  }

  // ----- calls

  predicate StillCooling(cfg: Config, since: nat, now: nat) {
    SaturatingSub(now, since) < cfg.leaveCooldown
  }

  function JoinError(cfg: Config, s: State, who: AccountId, reserveOk: bool): Option<Error> {
    if At(s.currency.free, who) < cfg.minStake then Some(InsufficientStake)
    else if who in s.removed && StillCooling(cfg, s.removed[who], s.now) then Some(CooldownActive)
    else if who in s.leaveRequests then Some(LeaveCooldownActive)
    else if who in s.validatorSet then Some(ValidatorAlreadyExists)
    else if !reserveOk then Some(InsufficientStake)
    else if |s.validatorSet| >= cfg.maxValidators then Some(TooManyValidators)
    else None
  }

  function Joined(cfg: Config, s: State, who: AccountId): State
    requires cfg.minStake <= At(s.currency.free, who)
  {
    s.(removed := s.removed - {who},
       currency := Reserve(s.currency, who, cfg.minStake),
       stake := s.stake[who := cfg.minStake],
       validatorSet := s.validatorSet + [who],
       registered := s.registered[who := true],
       profiles := if who in s.profiles then s.profiles else s.profiles[who := Profile(50, s.epoch)])
  }

  /** `reserveOk` is the currency's answer to `reserve` when the free balance suffices: locks may still refuse. */
  function Join(cfg: Config, s: State, who: AccountId, reserveOk: bool): (r: Result<State, Error>)
    ensures r.Success? <==>
            && cfg.minStake <= At(s.currency.free, who) && reserveOk
            && who !in s.validatorSet && who !in s.leaveRequests
            && (who in s.removed ==> s.removed[who] + cfg.leaveCooldown <= s.now || cfg.leaveCooldown == 0)
            && |s.validatorSet| < cfg.maxValidators
  {
    var error := JoinError(cfg, s, who, reserveOk);
    if error.Some? then Failure(error.value) else Success(Joined(cfg, s, who))
  }

  function Leave(cfg: Config, s: State, who: AccountId): Result<State, Error> {
    if who !in s.validatorSet then Failure(ValidatorNotInSet)
    else if who in s.leaveRequests then Failure(LeaveCooldownActive)
    else
      Success(s.(
        leaveRequests := s.leaveRequests[who := s.now],
        active := Drop(s.active, {who}),
        registered := s.registered[who := false]))
  }

  function Cancel(cfg: Config, s: State, who: AccountId): Result<State, Error> {
    if who !in s.leaveRequests then Failure(ValidatorNotInSet)
    else if !StillCooling(cfg, s.leaveRequests[who], s.now) then Failure(LeaveCooldownActive)
    else
      var withdrawn := s.(leaveRequests := s.leaveRequests - {who});
      if who !in s.validatorSet then Success(withdrawn)
      else
        Success(withdrawn.(
          active := if who !in s.active && |s.active| < cfg.maxValidators then s.active + [who] else s.active,
          registered := s.registered[who := true]))
  }

  function IncreaseStake(s: State, who: AccountId, amount: nat, reserveOk: bool): Result<State, Error> {
    if who !in s.registered then Failure(ValidatorNotInSet)
    else if At(s.currency.free, who) < amount || !reserveOk then Failure(InsufficientStake)
    else
      Success(s.(
        currency := Reserve(s.currency, who, amount),
        stake := s.stake[who := Min(At(s.stake, who) + amount, U128_MAX)]))
  }

  // ----- removal

  function Eject(s: State, who: AccountId): State {
    s.(active := Drop(s.active, {who}))
  }

  function OnLeft(s: State, who: AccountId): State {
    s.(validatorSet := Drop(s.validatorSet, {who}),
       active := Drop(s.active, {who}),
       leaveRequests := s.leaveRequests - {who},
       removed := s.removed[who := s.now])
  }

  function ForceEject(s: State, who: AccountId): State {
    var released := s.(
      currency := ReleaseAll(s.currency, s.stake, {who}),
      registered := s.registered - {who},
      stake := s.stake - {who});
    OnLeft(released, who)
  }

  // ----- the hook of each block

  /** Removal entries whose cooldown is still running. */
  function StillRemoved(cfg: Config, removed: map<AccountId, nat>, block: nat): map<AccountId, nat> {
    map a | a in removed && StillCooling(cfg, removed[a], block) :: removed[a]
  }

  /** Accounts whose leave request has waited out the cooldown. */
  function Due(cfg: Config, leaveRequests: map<AccountId, nat>, block: nat): set<AccountId> {
    set a | a in leaveRequests && !StillCooling(cfg, leaveRequests[a], block)
  }

  function Stamped(who: set<AccountId>, block: nat): map<AccountId, nat> {
    map a | a in who :: block
  }

  /** All of `who` leave for good in `block`, and their cooldown begins. */
  function Expire(s: State, who: set<AccountId>, block: nat): State {
    s.(currency := ReleaseAll(s.currency, s.stake, who),
       validatorSet := Drop(s.validatorSet, who),
       active := Drop(s.active, who),
       registered := s.registered - who,
       stake := s.stake - who,
       leaveRequests := s.leaveRequests - who,
       removed := s.removed + Stamped(who, block))
  }

  predicate Underperforms(cfg: Config, profiles: map<AccountId, Profile>, epoch: nat, a: AccountId) {
    a in profiles &&
    (|| profiles[a].finalScore < cfg.minScore
     || SaturatingSub(epoch, profiles[a].lastActiveEpoch) > cfg.maxInactiveEpochs)
  }

  function Underperformers(cfg: Config, active: seq<AccountId>, profiles: map<AccountId, Profile>, epoch: nat): set<AccountId> {
    set a | a in active && Underperforms(cfg, profiles, epoch, a)
  }

  function Sweep(cfg: Config, s: State): State {
    s.(active := Drop(s.active, Underperformers(cfg, s.active, s.profiles, s.epoch)))
  }

  /** Membership after the two timed steps of the hook. */
  function Expired(cfg: Config, s: State, block: nat): State {
    Expire(s.(removed := StillRemoved(cfg, s.removed, block)), Due(cfg, s.leaveRequests, block), block)
  }

  function Hook(cfg: Config, s: State, block: nat, check: bool): State {
    if check then Sweep(cfg, Expired(cfg, s, block)) else Expired(cfg, s, block)
  }

  function OnInitialize(cfg: Config, s: State, block: nat): State
    requires cfg.Valid()
  {
    Hook(cfg, s, block, block % cfg.checkInterval == 0)
  }

  /** The chain moves on by one block and runs its hook. */
  function NextBlock(cfg: Config, s: State): State
    requires cfg.Valid()
  {
    OnInitialize(cfg, s.(now := s.now + 1), s.now + 1)
  }

  // ----- runs

  datatype Event =
    | NewBlock
    | JoinValidators(who: AccountId, reserveOk: bool)
    | LeaveValidators(who: AccountId)
    | CancelLeaveRequest(who: AccountId)
    | IncreaseValidatorStake(who: AccountId, amount: nat, reserveOk: bool)
    | ForceEjectValidator(who: AccountId)
    | EjectValidator(who: AccountId)
    | Left(who: AccountId)
    | SetActive(accounts: seq<AccountId>)
    | SetProfile(who: AccountId, profile: Profile)
    | SetEpoch(epoch: nat)

  function OrUnchanged(s: State, r: Result<State, Error>): State {
    if r.Success? then r.value else s
  }

  function Step(cfg: Config, s: State, e: Event): State
    requires cfg.Valid()
  {
    match e
    case NewBlock => NextBlock(cfg, s)
    case _ => Call(cfg, s, e)
  }

  /** Everything that happens inside a block. */
  function Call(cfg: Config, s: State, e: Event): State
    requires !e.NewBlock?
  {
    match e
    case JoinValidators(who, ok) => OrUnchanged(s, Join(cfg, s, who, ok))
    case LeaveValidators(who) => OrUnchanged(s, Leave(cfg, s, who))
    case CancelLeaveRequest(who) => OrUnchanged(s, Cancel(cfg, s, who))
    case IncreaseValidatorStake(who, amount, ok) => OrUnchanged(s, IncreaseStake(s, who, amount, ok))
    case ForceEjectValidator(who) => ForceEject(s, who)
    case EjectValidator(who) => Eject(s, who)
    case Left(who) => OnLeft(s, who)
    case SetActive(accounts) =>
      s.(active := if |accounts| <= cfg.maxValidators then accounts else accounts[..cfg.maxValidators])
    case SetProfile(who, profile) => s.(profiles := s.profiles[who := profile])
    case SetEpoch(epoch) => s.(epoch := epoch)
  }

  /** What the epoch transition must respect when it replaces the active list. */
  predicate Admissible(s: State, e: Event) {
    e.SetActive? ==>
      && Distinct(e.accounts)
      && forall a | a in e.accounts :: a in s.validatorSet && a !in s.leaveRequests
  }

  function Run(cfg: Config, s: State, es: seq<Event>): State
    requires cfg.Valid()
  {
    if es == [] then s else Step(cfg, Run(cfg, s, es[..|es| - 1]), es[|es| - 1])
  }

  predicate AllAdmissible(cfg: Config, s: State, es: seq<Event>)
    requires cfg.Valid()
  {
    es == [] ||
    (AllAdmissible(cfg, s, es[..|es| - 1]) && Admissible(Run(cfg, s, es[..|es| - 1]), es[|es| - 1]))
  }
}
