/** What the default reward for a zero share does with the values of the runtime. */
module RewardsLimits {
  import opened Sums
  import opened Rewards
  import opened RewardsDistribution

  const RUNTIME: Config := Config(10_000, 10, 30_000, 10_000, 50_000, 20_000, 80, 20)

  /** An epoch in which nothing has been paid yet to the validators 1, 2 and 3. */
  const UNPAID: State := State({1, 2, 3}, map[], 0, 0, map[], map[])

  /** A small round fits when its total is under the epoch's cap: no share and no default reward exceeds a validator's. */
  lemma SmallRoundFits(active: seq<AccountId>, score: AccountId -> nat, pools: Pools)
    requires Distinct(active) && forall a | a in active :: a in UNPAID.registered
    requires pools.base + pools.performance + pools.top <= 10_000
    requires RoundTotal(RUNTIME, Ranking(active, score), pools) <= 30_000
    ensures Distribute(RUNTIME, UNPAID, active, score, pools).Success?
  {
    var ranking := Ranking(active, score);
    var payments := ExactPayments(RUNTIME, ranking, pools);
    RankingOrders(active, score);
    DistributionSucceedsIff(RUNTIME, UNPAID, active, score, pools);
    CreditedRound(RUNTIME, ranking, pools);
    forall i | 0 <= i < |payments| ensures HasRoom(RUNTIME, UNPAID, payments[i]) {
      assert AccountsOf(ranking)[i] in Elements(active);
      PerHeadWithin(pools.base, |ranking|);
      PerHeadWithin(pools.performance, HighCount(RUNTIME, ranking));
      PerHeadWithin(pools.top, TopCount(RUNTIME, |ranking|));
    }
  }

  /** Empty pools leave every place empty-handed. */
  lemma EmptyPools(ranking: seq<Ranked>)
    requires |ranking| == 2
    ensures RoundTotal(RUNTIME, ranking, Pools(0, 0, 0)) == 20_000
  {
    var pools := Pools(0, 0, 0);
    forall i: nat | i < 2 ensures EmptyHanded(RUNTIME, ranking, pools, i) {
      if High(RUNTIME, ranking[i]) {
        HighIsCounted(RUNTIME, ranking, i);
      }
    }
    assert EmptyPlaces(RUNTIME, ranking, pools) == {0, 1};
    PerHeadWithin(0, HighCount(RUNTIME, ranking));
    PerHeadWithin(0, TopCount(RUNTIME, 2));
  }

  /** Two validators and an epoch amount of 1, whatever their scores: 20000 are paid. */
  lemma DefaultsExceedPools(score: AccountId -> nat)
    ensures var r := Distribute(RUNTIME, UNPAID, [1, 2], score, EpochPools(1));
            EpochPools(1) == Pools(0, 0, 0) && r.Success? && r.value.totalRewarded == 20_000
  {
    EmptyPools(Ranking([1, 2], score));
    SmallRoundFits([1, 2], score, Pools(0, 0, 0));
    DistributionTotal(RUNTIME, UNPAID, [1, 2], score, Pools(0, 0, 0));
  }

  /** Validator 1 scores high, the others do not. */
  function Scores(a: AccountId): nat {
    if a == 1 then 90 else 50
  }

  predicate OneHighFirst(ranking: seq<Ranked>) {
    && |ranking| == 3 && ranking[0].score == 90 && ranking[1].score == 50 && ranking[2].score == 50
    && ranking[0].account == 1 && {ranking[1].account, ranking[2].account} == {2, 3}
  }

  lemma HighScoreFirst(ranking: seq<Ranked>)
    requires |ranking| == 3 && Distinct(AccountsOf(ranking)) && Elements(AccountsOf(ranking)) == {1, 2, 3}
    requires forall r | r in ranking :: r.score == Scores(r.account)
    requires forall i, k | 0 <= i < k < |ranking| :: ranking[k].score <= ranking[i].score
    ensures OneHighFirst(ranking)
  {
    var accounts := AccountsOf(ranking);
    assert forall i | 0 <= i < 3 :: ranking[i] in ranking && accounts[i] == ranking[i].account && accounts[i] in {1, 2, 3};
    assert 1 in Elements(accounts);
    var p :| 0 <= p < 3 && accounts[p] == 1;
    assert ranking[p].score == 90;
    assert accounts[0] == 1;
  }

  lemma OneHighShare(ranking: seq<Ranked>)
    requires OneHighFirst(ranking)
    ensures var pools := Pools(2, 1, 0);
            && ExactShare(RUNTIME, ranking, pools, 0) == 1
            && ExactShare(RUNTIME, ranking, pools, 1) == 0 && ExactShare(RUNTIME, ranking, pools, 2) == 0
            && RoundTotal(RUNTIME, ranking, pools) == 20_001
  {
    var pools := Pools(2, 1, 0);
    HighCountPrefix(RUNTIME, ranking, 0);
    HighCountPrefix(RUNTIME, ranking, 1);
    HighCountPrefix(RUNTIME, ranking, 2);
    assert ranking[..3] == ranking && ranking[..0] == [];
    assert EmptyPlaces(RUNTIME, ranking, pools) == {1, 2};
  }

  /**
    Three validators and an epoch amount of 4, in pools of 2, 1 and 0. The high performer gets the one unit
    of the performance pool; the two others, whose shares are zero, get the default reward.
  */
  lemma HighScorePaidLess()
    ensures var r := Distribute(RUNTIME, UNPAID, [1, 2, 3], Scores, EpochPools(4));
            && r.Success?
            && At(r.value.free, 1) == 1 && At(r.value.free, 2) == 10_000 && At(r.value.free, 3) == 10_000
  {
    var active, pools := [1, 2, 3], Pools(2, 1, 0);
    assert EpochPools(4) == pools;
    var ranking := Ranking(active, Scores);
    RankingOrders(active, Scores);
    assert Elements(active) == {1, 2, 3} by {
      assert active[0] == 1 && active[1] == 2 && active[2] == 3;
    }
    HighScoreFirst(ranking);
    OneHighShare(ranking);
    SmallRoundFits(active, Scores, pools);
    DistributionPays(RUNTIME, UNPAID, active, Scores, pools);
    assert {ranking[1].account, ranking[2].account} == {2, 3};
  }
}
