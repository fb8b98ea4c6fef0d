/** A distribution pays exact equal shares, never more than its pools, and never less for a higher score. */
module RewardsDistribution {
  import opened Numeric
  import opened Sums
  import opened Sorting
  import opened Rewards

  // ----- the ranking

  function AccountsOf(ranking: seq<Ranked>): (r: seq<AccountId>)
    ensures |r| == |ranking|
  {
    Map(ranking, (r: Ranked) => r.account)
  }

  /** The ranking lists exactly the active validators, with their scores, and scores never rise along it. */
  lemma RankingOrders(active: seq<AccountId>, score: AccountId -> nat)
    requires Distinct(active)
    ensures var ranking := Ranking(active, score);
            && |ranking| == |active|
            && Distinct(AccountsOf(ranking)) && Elements(AccountsOf(ranking)) == Elements(active)
            && (forall r | r in ranking :: r.score == score(r.account))
            && (forall i, k | 0 <= i < k < |ranking| :: ranking[k].score <= ranking[i].score)
  {
    var scored, ranking := Scored(active, score), Ranking(active, score);
    var key := BY_FALLING_SCORE;
    SortKeeps(scored, key);
    assert forall i, k | 0 <= i < k < |ranking| :: key(ranking[i]) <= key(ranking[k]);
    forall r | r in ranking ensures r.score == score(r.account) {
      assert r in multiset(ranking);
      assert r in scored;
    }
    MapPermutes(ranking, scored, (r: Ranked) => r.account);
    assert AccountsOf(scored) == active;
    DistinctSurvives(active, AccountsOf(ranking));
  }

  /** Without duplicates, the top performers are the first places of the ranking. */
  lemma TopIsPrefix(cfg: Config, ranking: seq<Ranked>, i: nat)
    requires Distinct(AccountsOf(ranking)) && i < |ranking|
    ensures InTop(cfg, ranking, ranking[i].account) <==> i < TopCount(cfg, |ranking|)
  {
    if InTop(cfg, ranking, ranking[i].account) {
      var k :| 0 <= k < |ranking| && k < TopCount(cfg, |ranking|) && ranking[k].account == ranking[i].account;
      assert AccountsOf(ranking)[k] == AccountsOf(ranking)[i];
    }
  }

  // ----- shares

  predicate PoolsFit(pools: Pools) {
    pools.base + pools.performance + pools.top <= U128_MAX
  }

  /** A part is the pool's quotient rounded down. */
  lemma PerHeadWithin(pool: nat, heads: nat)
    ensures heads * PerHead(pool, heads) <= pool
    ensures heads > 0 ==> pool < heads * PerHead(pool, heads) + heads
    ensures heads == 0 ==> PerHead(pool, heads) == 0
    ensures PerHead(pool, heads) <= pool
  {
    if heads > 0 {
      DivisionBrackets(pool, heads);
      MulMonotone(1, heads, pool / heads);
    }
  }

  /** The share at a place of the ranking, without the saturating additions. */
  function ExactShare(cfg: Config, ranking: seq<Ranked>, pools: Pools, i: nat): nat
    requires i < |ranking|
  {
    PerHead(pools.base, |ranking|)
    + (if High(cfg, ranking[i]) then PerHead(pools.performance, HighCount(cfg, ranking)) else 0)
    + (if i < TopCount(cfg, |ranking|) then PerHead(pools.top, TopCount(cfg, |ranking|)) else 0)
  }

  lemma ShareIsExact(cfg: Config, ranking: seq<Ranked>, pools: Pools, i: nat)
    requires Distinct(AccountsOf(ranking)) && PoolsFit(pools) && i < |ranking|
    ensures Share(cfg, ranking, PerHeads(cfg, ranking, pools), ranking[i]) == ExactShare(cfg, ranking, pools, i)
  {
    TopIsPrefix(cfg, ranking, i);
    PerHeadWithin(pools.base, |ranking|);
    PerHeadWithin(pools.performance, HighCount(cfg, ranking));
    PerHeadWithin(pools.top, TopCount(cfg, |ranking|));
  }

  function ShareList(cfg: Config, ranking: seq<Ranked>, pools: Pools): (r: seq<nat>)
    ensures |r| == |ranking|
  {
    seq(|ranking|, i requires 0 <= i < |ranking| => ExactShare(cfg, ranking, pools, i))
  }

  lemma HighCountPrefix(cfg: Config, ranking: seq<Ranked>, m: nat)
    requires m < |ranking|
    ensures HighCount(cfg, ranking[..m + 1]) == HighCount(cfg, ranking[..m]) + if High(cfg, ranking[m]) then 1 else 0
  {
    assert ranking[..m + 1][..m] == ranking[..m];
  }

  lemma OneMorePlace(m: nat, base: nat, highs: nat, high: bool, performance: nat, tops: nat, top: nat)
    ensures (m + 1) * base + (highs + if high then 1 else 0) * performance + Min(m + 1, tops) * top ==
            m * base + highs * performance + Min(m, tops) * top
            + base + (if high then performance else 0) + (if m < tops then top else 0)
  {
  }

  /** The shares of the first `m` places: `m` base shares, one more per high score, one more per top place. */
  lemma {:induction false} SharesOfPrefix(cfg: Config, ranking: seq<Ranked>, pools: Pools, m: nat)
    requires m <= |ranking|
    ensures Sum(ShareList(cfg, ranking, pools)[..m]) ==
            m * PerHead(pools.base, |ranking|)
            + HighCount(cfg, ranking[..m]) * PerHead(pools.performance, HighCount(cfg, ranking))
            + Min(m, TopCount(cfg, |ranking|)) * PerHead(pools.top, TopCount(cfg, |ranking|))
  {
    var shares := ShareList(cfg, ranking, pools);
    if m > 0 {
      var i := m - 1;
      SharesOfPrefix(cfg, ranking, pools, i);
      SumSnoc(shares, i);
      HighCountPrefix(cfg, ranking, i);
      OneMorePlace(i, PerHead(pools.base, |ranking|),
                   HighCount(cfg, ranking[..i]), High(cfg, ranking[i]), PerHead(pools.performance, HighCount(cfg, ranking)),
                   TopCount(cfg, |ranking|), PerHead(pools.top, TopCount(cfg, |ranking|)));
    }
  }

  /** What a distribution is meant to pay: whole shares of each pool. */
  function IntendedTotal(cfg: Config, ranking: seq<Ranked>, pools: Pools): nat {
    var n, h, k := |ranking|, HighCount(cfg, ranking), TopCount(cfg, |ranking|);
    n * PerHead(pools.base, n) + h * PerHead(pools.performance, h) + k * PerHead(pools.top, k)
  }

  lemma SharesTotal(cfg: Config, ranking: seq<Ranked>, pools: Pools)
    ensures Sum(ShareList(cfg, ranking, pools)) == IntendedTotal(cfg, ranking, pools)
    ensures IntendedTotal(cfg, ranking, pools) <= pools.base + pools.performance + pools.top
  {
    var shares := ShareList(cfg, ranking, pools);
    SharesOfPrefix(cfg, ranking, pools, |ranking|);
    assert shares[..|ranking|] == shares && ranking[..|ranking|] == ranking;
    PerHeadWithin(pools.base, |ranking|);
    PerHeadWithin(pools.performance, HighCount(cfg, ranking));
    PerHeadWithin(pools.top, TopCount(cfg, |ranking|));
  }

  // ----- what is paid

  /** The amounts credited: a zero share is replaced by the default reward. */
  function Credited(cfg: Config, payments: seq<Payment>): (r: seq<nat>)
    ensures |r| == |payments|
  {
    seq(|payments|, i requires 0 <= i < |payments| => RewardAmount(cfg, payments[i].amount))
  }

  function Payees(payments: seq<Payment>): (r: seq<AccountId>)
    ensures |r| == |payments|
  {
    seq(|payments|, i requires 0 <= i < |payments| => payments[i].account)
  }

  /** A successful round of payments adds the sum of the credited amounts to the epoch total. */
  lemma {:induction false} PayAllTotal(cfg: Config, s: State, payments: seq<Payment>)
    requires PayAll(cfg, s, payments).Success?
    ensures PayAll(cfg, s, payments).value.totalRewarded == s.totalRewarded + Sum(Credited(cfg, payments))
  {
    if payments != [] {
      var n := |payments| - 1;
      PayAllTotal(cfg, s, payments[..n]);
      assert Credited(cfg, payments[..n]) == Credited(cfg, payments)[..n];
    }
  }

  /** What the payments credit to `a`, when each payee is paid once. */
  function CreditTo(cfg: Config, payments: seq<Payment>, a: AccountId): nat {
    if payments == [] then 0
    else
      var n := |payments| - 1;
      if payments[n].account == a then RewardAmount(cfg, payments[n].amount) else CreditTo(cfg, payments[..n], a)
  }

  lemma {:induction false} CreditToPayee(cfg: Config, payments: seq<Payment>, i: nat)
    requires Distinct(Payees(payments)) && i < |payments|
    ensures CreditTo(cfg, payments, payments[i].account) == RewardAmount(cfg, payments[i].amount)
  {
    var n := |payments| - 1;
    if i < n {
      assert Payees(payments)[i] != Payees(payments)[n];
      assert Payees(payments[..n]) == Payees(payments)[..n];
      CreditToPayee(cfg, payments[..n], i);
    }
  }

  lemma {:induction false} CreditToOthers(cfg: Config, payments: seq<Payment>, a: AccountId)
    requires a !in Payees(payments)
    ensures CreditTo(cfg, payments, a) == 0
  {
    if payments != [] {
      var n := |payments| - 1;
      assert Payees(payments)[n] == payments[n].account;
      assert Payees(payments[..n]) == Payees(payments)[..n];
      CreditToOthers(cfg, payments[..n], a);
    }
  }

  lemma {:induction false} PayAllBalances(cfg: Config, s: State, payments: seq<Payment>, a: AccountId)
    requires PayAll(cfg, s, payments).Success? && Distinct(Payees(payments))
    ensures At(PayAll(cfg, s, payments).value.free, a) == At(s.free, a) + CreditTo(cfg, payments, a)
    ensures At(PayAll(cfg, s, payments).value.rewarded, a) == At(s.rewarded, a) + CreditTo(cfg, payments, a)
    ensures PayAll(cfg, s, payments).value.registered == s.registered
  {
    if payments != [] {
      var n := |payments| - 1;
      assert Payees(payments[..n]) == Payees(payments)[..n];
      PayAllBalances(cfg, s, payments[..n], a);
      if payments[n].account == a {
        assert Payees(payments)[n] == a;
        CreditToOthers(cfg, payments[..n], a);
      }
    }
  }

  /** One payee on its own: a member with room under its cap and in its balance. */
  predicate HasRoom(cfg: Config, s: State, p: Payment) {
    && p.account in s.registered
    && At(s.rewarded, p.account) + RewardAmount(cfg, p.amount) <= cfg.maxRewardPerValidator
    && At(s.free, p.account) + RewardAmount(cfg, p.amount) <= U128_MAX
  }

  /** All of a round, without an order: room for every payee, and for their sum under the epoch's cap. */
  predicate RoundFits(cfg: Config, s: State, payments: seq<Payment>) {
    && (forall i | 0 <= i < |payments| :: HasRoom(cfg, s, payments[i]))
    && (payments != [] ==> s.totalRewarded + Sum(Credited(cfg, payments)) <= cfg.maxRewardPerEpoch)
  }

  lemma RoundFitsSnoc(cfg: Config, s: State, payments: seq<Payment>)
    requires payments != []
    ensures var n := |payments| - 1;
            && Sum(Credited(cfg, payments)) == Sum(Credited(cfg, payments[..n])) + RewardAmount(cfg, payments[n].amount)
            && (RoundFits(cfg, s, payments) <==>
                && RoundFits(cfg, s, payments[..n]) && HasRoom(cfg, s, payments[n])
                && s.totalRewarded + Sum(Credited(cfg, payments)) <= cfg.maxRewardPerEpoch)
  {
    var n := |payments| - 1;
    assert Credited(cfg, payments)[..n] == Credited(cfg, payments[..n]);
    assert payments == payments[..n] + [payments[n]];
  }

  /** Paying one after the other succeeds exactly when the round as a whole fits. */
  lemma {:induction false} PayAllSucceedsIff(cfg: Config, s: State, payments: seq<Payment>)
    requires Distinct(Payees(payments))
    ensures PayAll(cfg, s, payments).Success? <==> RoundFits(cfg, s, payments)
  {
    if payments != [] {
      var n := |payments| - 1;
      var front, a := payments[..n], payments[n].account;
      assert Payees(front) == Payees(payments)[..n];
      PayAllSucceedsIff(cfg, s, front);
      RoundFitsSnoc(cfg, s, payments);
      if PayAll(cfg, s, front).Success? {
        assert Payees(payments)[n] == a;
        CreditToOthers(cfg, front, a);
        PayAllBalances(cfg, s, front, a);
        PayAllTotal(cfg, s, front);
      }
    }
  }

  /** Where a list is zero. */
  function Zeros(xs: seq<nat>): set<nat> {
    set i | 0 <= i < |xs| && xs[i] == 0
  }

  lemma ZerosSnoc(xs: seq<nat>)
    requires xs != []
    ensures var n := |xs| - 1; |Zeros(xs)| == |Zeros(xs[..n])| + if xs[n] == 0 then 1 else 0
  {
    var n := |xs| - 1;
    assert Zeros(xs) == Zeros(xs[..n]) + if xs[n] == 0 then {n} else {};
  }

  /** Paying out shares credits their sum, and the default reward for each zero among them. */
  lemma {:induction false} CreditedTotal(cfg: Config, payments: seq<Payment>, shares: seq<nat>)
    requires |shares| == |payments|
    requires forall i | 0 <= i < |shares| :: payments[i].amount == shares[i]
    ensures Sum(shares) <= Sum(Credited(cfg, payments))
    ensures Sum(Credited(cfg, payments)) == Sum(shares) + cfg.validatorReward * |Zeros(shares)|
    ensures Sum(shares) == Sum(Credited(cfg, payments)) <==> cfg.validatorReward == 0 || 0 !in shares
  {
    if payments != [] {
      var n := |payments| - 1;
      CreditedTotal(cfg, payments[..n], shares[..n]);
      ZerosSnoc(shares);
      MulSuccessor(cfg.validatorReward, |Zeros(shares[..n])|);
      assert Credited(cfg, payments)[..n] == Credited(cfg, payments[..n]);
      assert shares == shares[..n] + [shares[n]];
    }
  }

  /** A place of the ranking goes empty-handed when no pool it draws on has a whole unit per head. */
  predicate EmptyHanded(cfg: Config, ranking: seq<Ranked>, pools: Pools, i: nat)
    requires i < |ranking|
  {
    && pools.base < |ranking|
    && (High(cfg, ranking[i]) ==> pools.performance < HighCount(cfg, ranking))
    && (i < TopCount(cfg, |ranking|) ==> pools.top < TopCount(cfg, |ranking|))
  }

  lemma {:induction false} HighIsCounted(cfg: Config, ranking: seq<Ranked>, i: nat)
    requires i < |ranking| && High(cfg, ranking[i])
    ensures HighCount(cfg, ranking) > 0
  {
    if i < |ranking| - 1 {
      HighIsCounted(cfg, ranking[..|ranking| - 1], i);
    }
  }

  lemma PerHeadZero(pool: nat, heads: nat)
    requires heads > 0
    ensures PerHead(pool, heads) == 0 <==> pool < heads
  {
    DivisionBrackets(pool, heads);
    if pool < heads {
      MulCancel(heads, pool / heads, 1);
    } else {
      MulCancel(heads, 0, pool / heads);
    }
  }

  lemma ZeroShareIff(cfg: Config, ranking: seq<Ranked>, pools: Pools, i: nat)
    requires i < |ranking|
    ensures ExactShare(cfg, ranking, pools, i) == 0 <==> EmptyHanded(cfg, ranking, pools, i)
  {
    PerHeadZero(pools.base, |ranking|);
    if High(cfg, ranking[i]) {
      HighIsCounted(cfg, ranking, i);
      PerHeadZero(pools.performance, HighCount(cfg, ranking));
    }
    if i < TopCount(cfg, |ranking|) {
      PerHeadZero(pools.top, TopCount(cfg, |ranking|));
    }
  }

  /** The exact shares as payments, in ranking order. */
  function ExactPayments(cfg: Config, ranking: seq<Ranked>, pools: Pools): seq<Payment> {
    seq(|ranking|, i requires 0 <= i < |ranking| => Payment(ranking[i].account, ExactShare(cfg, ranking, pools, i)))
  }

  lemma PaymentsAreExact(cfg: Config, active: seq<AccountId>, score: AccountId -> nat, pools: Pools)
    requires Distinct(active) && PoolsFit(pools)
    ensures var ranking := Ranking(active, score); var payments := Payments(cfg, ranking, PerHeads(cfg, ranking, pools));
            payments == ExactPayments(cfg, ranking, pools) && Distinct(Payees(payments))
  {
    var ranking := Ranking(active, score);
    var payments := Payments(cfg, ranking, PerHeads(cfg, ranking, pools));
    RankingOrders(active, score);
    forall i | 0 <= i < |ranking| ensures payments[i].amount == ExactShare(cfg, ranking, pools, i) {
      ShareIsExact(cfg, ranking, pools, i);
    }
    assert Payees(payments) == AccountsOf(ranking);
  }

  /** A distribution among distinct validators succeeds exactly when their exact shares fit, as a whole, under the caps. */
  lemma DistributionSucceedsIff(cfg: Config, s: State, active: seq<AccountId>, score: AccountId -> nat, pools: Pools)
    requires Distinct(active) && PoolsFit(pools)
    ensures Distribute(cfg, s, active, score, pools).Success? <==>
            RoundFits(cfg, s, ExactPayments(cfg, Ranking(active, score), pools))
  {
    var ranking := Ranking(active, score);
    PaymentsAreExact(cfg, active, score, pools);
    PayAllSucceedsIff(cfg, s, Payments(cfg, ranking, PerHeads(cfg, ranking, pools)));
  }

  // ----- the total, and the pools

  /** The places that go empty-handed. */
  function EmptyPlaces(cfg: Config, ranking: seq<Ranked>, pools: Pools): set<nat> {
    set i | 0 <= i < |ranking| && EmptyHanded(cfg, ranking, pools, i)
  }

  /** What a round hands out: the intended total, and the default reward for every empty-handed place. */
  function RoundTotal(cfg: Config, ranking: seq<Ranked>, pools: Pools): int {
    IntendedTotal(cfg, ranking, pools) + cfg.validatorReward * |EmptyPlaces(cfg, ranking, pools)|
  }

  lemma CreditedRound(cfg: Config, ranking: seq<Ranked>, pools: Pools)
    ensures Sum(Credited(cfg, ExactPayments(cfg, ranking, pools))) == RoundTotal(cfg, ranking, pools)
  {
    var shares := ShareList(cfg, ranking, pools);
    CreditedTotal(cfg, ExactPayments(cfg, ranking, pools), shares);
    SharesTotal(cfg, ranking, pools);
    forall i | 0 <= i < |ranking| ensures shares[i] == 0 <==> EmptyHanded(cfg, ranking, pools, i) {
      ZeroShareIff(cfg, ranking, pools, i);
    }
    assert Zeros(shares) == EmptyPlaces(cfg, ranking, pools);
  }

  /**
    A successful distribution pays in total the intended amount and one default reward for every validator
    that would go empty-handed. So it stays within the pools exactly when these rewards fit into what
    flooring and empty groups leave of them.
  */
  lemma DistributionTotal(cfg: Config, s: State, active: seq<AccountId>, score: AccountId -> nat, pools: Pools)
    requires Distinct(active) && PoolsFit(pools)
    ensures var r := Distribute(cfg, s, active, score, pools); var ranking := Ranking(active, score);
            r.Success? ==>
              && r.value.totalRewarded == s.totalRewarded + RoundTotal(cfg, ranking, pools)
              && (r.value.totalRewarded - s.totalRewarded <= pools.base + pools.performance + pools.top <==>
                  cfg.validatorReward * |EmptyPlaces(cfg, ranking, pools)| <=
                  pools.base + pools.performance + pools.top - IntendedTotal(cfg, ranking, pools))
  {
    if Distribute(cfg, s, active, score, pools).Success? {
      var ranking := Ranking(active, score);
      PaymentsAreExact(cfg, active, score, pools);
      PayAllTotal(cfg, s, Payments(cfg, ranking, PerHeads(cfg, ranking, pools)));
      CreditedRound(cfg, ranking, pools);
    }
  }

  lemma EmptyPlacesIff(cfg: Config, ranking: seq<Ranked>, pools: Pools)
    ensures cfg.validatorReward * |EmptyPlaces(cfg, ranking, pools)| == 0 <==>
            cfg.validatorReward == 0 || forall i | 0 <= i < |ranking| :: !EmptyHanded(cfg, ranking, pools, i)
  {
    var empty := EmptyPlaces(cfg, ranking, pools);
    if i :| 0 <= i < |ranking| && EmptyHanded(cfg, ranking, pools, i) {
      assert i in empty;
      assert |empty| > 0;
    } else {
      assert empty == {};
    }
  }

  /**
    A successful distribution among distinct validators credits each with its exact share (or the default
    reward for a zero share) and nobody else. The total is the intended one exactly when no validator goes
    empty-handed or the default reward is zero.
  */
  lemma DistributionPays(cfg: Config, s: State, active: seq<AccountId>, score: AccountId -> nat, pools: Pools)
    requires Distinct(active) && PoolsFit(pools)
    requires Distribute(cfg, s, active, score, pools).Success?
    ensures var t := Distribute(cfg, s, active, score, pools).value; var ranking := Ranking(active, score);
            && (forall i | 0 <= i < |ranking| ::
                  At(t.free, ranking[i].account) ==
                  At(s.free, ranking[i].account) + RewardAmount(cfg, ExactShare(cfg, ranking, pools, i)))
            && (forall a | a !in active :: At(t.free, a) == At(s.free, a))
            && (t.totalRewarded == s.totalRewarded + IntendedTotal(cfg, ranking, pools) <==>
                cfg.validatorReward == 0 || forall i | 0 <= i < |ranking| :: !EmptyHanded(cfg, ranking, pools, i))
  {
    var ranking := Ranking(active, score);
    var payments, t := ExactPayments(cfg, ranking, pools), Distribute(cfg, s, active, score, pools).value;
    RankingOrders(active, score);
    PaymentsAreExact(cfg, active, score, pools);
    DistributionTotal(cfg, s, active, score, pools);
    EmptyPlacesIff(cfg, ranking, pools);
    forall i | 0 <= i < |ranking|
      ensures At(t.free, ranking[i].account) ==
              At(s.free, ranking[i].account) + RewardAmount(cfg, ExactShare(cfg, ranking, pools, i))
    {
      assert payments[i].account == ranking[i].account;
      PayAllBalances(cfg, s, payments, ranking[i].account);
      CreditToPayee(cfg, payments, i);
    }
    forall a | a !in active ensures At(t.free, a) == At(s.free, a) {
      assert a !in Elements(active) && a !in Elements(AccountsOf(ranking));
      assert Payees(payments) == AccountsOf(ranking);
      PayAllBalances(cfg, s, payments, a);
      CreditToOthers(cfg, payments, a);
    }
  }

  /** With a unit of the base pool for every validator, the pools are never overdrawn. */
  lemma DistributionWithinPools(cfg: Config, s: State, active: seq<AccountId>, score: AccountId -> nat, pools: Pools)
    requires Distinct(active) && PoolsFit(pools) && |active| <= pools.base
    ensures var r := Distribute(cfg, s, active, score, pools);
            r.Success? ==>
              r.value.totalRewarded
              == s.totalRewarded + IntendedTotal(cfg, Ranking(active, score), pools)
              <= s.totalRewarded + pools.base + pools.performance + pools.top
  {
    if Distribute(cfg, s, active, score, pools).Success? {
      RankingOrders(active, score);
      DistributionPays(cfg, s, active, score, pools);
      SharesTotal(cfg, Ranking(active, score), pools);
    }
  }

  lemma HigherPlaceNotLess(cfg: Config, ranking: seq<Ranked>, pools: Pools, i: nat, k: nat)
    requires i < k < |ranking| && ranking[k].score <= ranking[i].score
    ensures ExactShare(cfg, ranking, pools, k) <= ExactShare(cfg, ranking, pools, i)
  {
  }

  lemma PaidNotLessIff(cfg: Config, ranking: seq<Ranked>, pools: Pools, i: nat, k: nat)
    requires i < k < |ranking| && ranking[k].score <= ranking[i].score
    ensures RewardAmount(cfg, ExactShare(cfg, ranking, pools, k)) <= RewardAmount(cfg, ExactShare(cfg, ranking, pools, i)) <==>
            || !EmptyHanded(cfg, ranking, pools, k)
            || EmptyHanded(cfg, ranking, pools, i)
            || cfg.validatorReward <= ExactShare(cfg, ranking, pools, i)
  {
    HigherPlaceNotLess(cfg, ranking, pools, i, k);
    ZeroShareIff(cfg, ranking, pools, i);
    ZeroShareIff(cfg, ranking, pools, k);
  }

  /** How much a distribution adds to one account's balance. */
  function Gain(s: State, t: State, a: AccountId): int {
    At(t.free, a) - At(s.free, a)
  }

  lemma HigherScoreComesFirst(active: seq<AccountId>, score: AccountId -> nat, i: nat, k: nat)
    requires Distinct(active) && i < |active| && k < |active|
    requires Ranking(active, score)[k].score < Ranking(active, score)[i].score
    ensures i < k
  {
    RankingOrders(active, score);
  }

  lemma GainAt(cfg: Config, s: State, active: seq<AccountId>, score: AccountId -> nat, pools: Pools, i: nat)
    requires Distinct(active) && PoolsFit(pools) && i < |active|
    ensures var r := Distribute(cfg, s, active, score, pools); var ranking := Ranking(active, score);
            r.Success? ==>
              Gain(s, r.value, ranking[i].account) == RewardAmount(cfg, ExactShare(cfg, ranking, pools, i))
  {
    if Distribute(cfg, s, active, score, pools).Success? {
      DistributionPays(cfg, s, active, score, pools);
    }
  }

  /**
    A strictly higher score is paid less only through the default reward: exactly when the lower score goes
    empty-handed, the higher one does not, and the higher share is smaller than the default.
  */
  lemma HigherScoreNotPaidLess(cfg: Config, s: State, active: seq<AccountId>, score: AccountId -> nat, pools: Pools)
    requires Distinct(active) && PoolsFit(pools)
    ensures var ranking := Ranking(active, score); var r := Distribute(cfg, s, active, score, pools);
            r.Success? ==>
              forall i, k | 0 <= i < |ranking| && 0 <= k < |ranking| && ranking[k].score < ranking[i].score ::
                Gain(s, r.value, ranking[k].account) <= Gain(s, r.value, ranking[i].account) <==>
                || !EmptyHanded(cfg, ranking, pools, k)
                || EmptyHanded(cfg, ranking, pools, i)
                || cfg.validatorReward <= ExactShare(cfg, ranking, pools, i)
  {
    var ranking, r := Ranking(active, score), Distribute(cfg, s, active, score, pools);
    if r.Success? {
      forall i, k | 0 <= i < |ranking| && 0 <= k < |ranking| && ranking[k].score < ranking[i].score
        ensures Gain(s, r.value, ranking[k].account) <= Gain(s, r.value, ranking[i].account) <==>
                || !EmptyHanded(cfg, ranking, pools, k)
                || EmptyHanded(cfg, ranking, pools, i)
                || cfg.validatorReward <= ExactShare(cfg, ranking, pools, i)
      {
        HigherScoreComesFirst(active, score, i, k);
        GainAt(cfg, s, active, score, pools, i);
        GainAt(cfg, s, active, score, pools, k);
        PaidNotLessIff(cfg, ranking, pools, i, k);
      }
    }
  }

  /** With a unit of the base pool for every validator nobody goes empty-handed. */
  lemma BasePoolFeedsAll(cfg: Config, ranking: seq<Ranked>, pools: Pools, i: nat)
    requires |ranking| <= pools.base && i < |ranking|
    ensures !EmptyHanded(cfg, ranking, pools, i) && 1 <= ExactShare(cfg, ranking, pools, i)
  {
    ZeroShareIff(cfg, ranking, pools, i);
  }

  /** The three pools of an epoch come to no more than the amount handed in, so they fit the integer width. */
  lemma EpochPoolsFit(total: u128)
    ensures var p := EpochPools(total); PoolsFit(p) && p.base + p.performance + p.top <= total
    ensures total * 60 <= U128_MAX ==>
              EpochPools(total) == Pools(total * 60 / 100, total * 25 / 100, total * 15 / 100)
  {
    ModAtMost(total * 60, U128_MODULUS);
    ModAtMost(total * 25, U128_MODULUS);
    ModAtMost(total * 15, U128_MODULUS);
  }

  lemma ModAtMost(a: nat, m: nat)
    requires m > 0
    ensures a % m <= a
    ensures a < m ==> a % m == a
  {
    DivisionBrackets(a, m);
    MulMonotone(0, a / m, m);
  }
}
