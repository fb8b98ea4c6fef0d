/**
  Who is rewarded for what, said from scores and positions in the active list alone: no sorting, no ranking,
  no running counts.
*/
module RewardsRanking {
  import opened Numeric
  import opened Sums
  import opened Sorting
  import opened Rewards
  import opened RewardsDistribution

  /** Who is placed before the `q`-th active validator: higher scores, and equal ones listed earlier. */
  function Ahead(active: seq<AccountId>, score: AccountId -> nat, q: nat): set<nat>
    requires q < |active|
  {
    set p: nat | p < |active| && (score(active[p]) > score(active[q]) || (score(active[p]) == score(active[q]) && p < q))
  }

  function HighScorers(cfg: Config, active: seq<AccountId>, score: AccountId -> nat): set<nat> {
    set q: nat | q < |active| && score(active[q]) >= cfg.highPerformanceScore
  }

  /** The size of the top group: the percentage of the validators, rounded down, and all of them at most. */
  function TopPlaces(cfg: Config, active: seq<AccountId>): nat {
    MulMonotone(0, |active|, cfg.topPerformerPercentage);
    Min(|active| * cfg.topPerformerPercentage / 100, |active|)
  }

  // ----- the order of the ranking

  /** Distinct validators stand in the ranking once each, so an earlier standing is an earlier place. */
  lemma BeforeIsEarlier(ranking: seq<Ranked>, a: Ranked, b: Ranked, k: nat, i: nat)
    requires Distinct(AccountsOf(ranking)) && k < |ranking| && i < |ranking|
    requires ranking[k].account == a.account && ranking[i].account == b.account && Before(ranking, a, b)
    ensures k < i
  {
    var x, y :| 0 <= x < y < |ranking| && ranking[x] == a && ranking[y] == b;
    var accounts := AccountsOf(ranking);
    assert accounts[x] == accounts[k] && accounts[y] == accounts[i];
  }

  /** Among equal scores the earlier listed validator stands before the later one. */
  lemma EqualScoresKeepOrder(active: seq<AccountId>, score: AccountId -> nat, p: nat, q: nat)
    requires p < q < |active| && score(active[p]) == score(active[q])
    ensures Before(Ranking(active, score), Ranked(active[p], score(active[p])), Ranked(active[q], score(active[q])))
  {
    SortStable(Scored(active, score), BY_FALLING_SCORE, p, q);
  }

  lemma AheadComesFirst(active: seq<AccountId>, score: AccountId -> nat, p: nat, q: nat, k: nat, i: nat)
    requires Distinct(active) && p < |active| && q < |active| && k < |active| && i < |active|
    requires Ranking(active, score)[k].account == active[p] && Ranking(active, score)[i].account == active[q]
    requires p in Ahead(active, score, q)
    ensures k < i
  {
    var ranking := Ranking(active, score);
    RankingOrders(active, score);
    assert ranking[k] in ranking && ranking[i] in ranking;
    if score(active[p]) == score(active[q]) {
      EqualScoresKeepOrder(active, score, p, q);
      BeforeIsEarlier(ranking, ranking[k], ranking[i], k, i);
    }
  }

  /** The position of an account in a list. */
  ghost function IndexOf(xs: seq<AccountId>, a: AccountId): (i: nat)
    requires a in xs
    ensures i < |xs| && xs[i] == a
  {
    var i :| 0 <= i < |xs| && xs[i] == a;
    i
  }

  lemma RankedIsActive(active: seq<AccountId>, score: AccountId -> nat, k: nat)
    requires Distinct(active) && k < |active|
    ensures Ranking(active, score)[k].account in active
  {
    RankingOrders(active, score);
    assert AccountsOf(Ranking(active, score))[k] in Elements(active);
  }

  lemma ActiveIsRanked(active: seq<AccountId>, score: AccountId -> nat, p: nat) returns (k: nat)
    requires Distinct(active) && p < |active|
    ensures k < |active| && Ranking(active, score)[k] == Ranked(active[p], score(active[p]))
  {
    var ranking := Ranking(active, score);
    RankingOrders(active, score);
    assert active[p] in Elements(AccountsOf(ranking));
    k :| 0 <= k < |active| && AccountsOf(ranking)[k] == active[p];
    assert ranking[k] in ranking;
  }

  /** A validator's place is the number of those ahead of it. */
  lemma PlaceIsCount(active: seq<AccountId>, score: AccountId -> nat, q: nat, i: nat)
    requires Distinct(active) && q < |active| && i < |active|
    requires Ranking(active, score)[i].account == active[q]
    ensures |Ahead(active, score, q)| == i
  {
    var ranking, ahead := Ranking(active, score), Ahead(active, score, q);
    RankingOrders(active, score);
    forall k | 0 <= k < |active| ensures ranking[k].account in active {
      RankedIsActive(active, score, k);
    }
    var ks := seq(i, k requires 0 <= k < i => IndexOf(active, ranking[k].account));
    forall k | 0 <= k < i ensures ks[k] in ahead {
      assert AccountsOf(ranking)[k] != AccountsOf(ranking)[i];
      if ks[k] !in ahead {
        AheadComesFirst(active, score, q, ks[k], i, k);
      }
    }
    forall p | p in ahead ensures p in ks {
      var k := ActiveIsRanked(active, score, p);
      AheadComesFirst(active, score, p, q, k, i);
      assert ks[k] == p;
    }
    assert Elements(ks) == ahead;
    forall k, l | 0 <= k < l < i ensures ks[k] != ks[l] {
      assert AccountsOf(ranking)[k] != AccountsOf(ranking)[l];
    }
    DistinctByCount(ks);
  }

  /** The top group: exactly those with fewer validators ahead of them than the group has places. */
  lemma TopGroupIff(cfg: Config, active: seq<AccountId>, score: AccountId -> nat, q: nat)
    requires Distinct(active) && q < |active|
    ensures InTop(cfg, Ranking(active, score), active[q]) <==>
            |Ahead(active, score, q)| < TopPlaces(cfg, active)
  {
    var i := ActiveIsRanked(active, score, q);
    RankingOrders(active, score);
    PlaceIsCount(active, score, q, i);
    TopIsPrefix(cfg, Ranking(active, score), i);
  }

  // ----- the high performers

  function HighMark(cfg: Config): Ranked -> nat {
    (r: Ranked) => if High(cfg, r) then 1 else 0
  }

  lemma {:induction false} HighCountIsSum(cfg: Config, ranking: seq<Ranked>)
    ensures HighCount(cfg, ranking) == Sum(Map(ranking, HighMark(cfg)))
  {
    if ranking != [] {
      var n := |ranking| - 1;
      HighCountIsSum(cfg, ranking[..n]);
      assert Map(ranking, HighMark(cfg))[..n] == Map(ranking[..n], HighMark(cfg));
    }
  }

  lemma {:induction false} HighScorersCounted(cfg: Config, active: seq<AccountId>, score: AccountId -> nat)
    ensures HighCount(cfg, Scored(active, score)) == |HighScorers(cfg, active, score)|
  {
    if active != [] {
      var n := |active| - 1;
      HighScorersCounted(cfg, active[..n], score);
      assert Scored(active, score)[..n] == Scored(active[..n], score);
      assert HighScorers(cfg, active, score) ==
             HighScorers(cfg, active[..n], score) + if score(active[n]) >= cfg.highPerformanceScore then {n} else {};
    }
  }

  /** The high performers counted along the ranking are those of the active list. */
  lemma HighCountIff(cfg: Config, active: seq<AccountId>, score: AccountId -> nat)
    ensures HighCount(cfg, Ranking(active, score)) == |HighScorers(cfg, active, score)|
  {
    var scored, ranking := Scored(active, score), Ranking(active, score);
    SortKeeps(scored, BY_FALLING_SCORE);
    MapPermutes(ranking, scored, HighMark(cfg));
    SumPermutation(Map(ranking, HighMark(cfg)), Map(scored, HighMark(cfg)));
    HighCountIsSum(cfg, ranking);
    HighCountIsSum(cfg, scored);
    HighScorersCounted(cfg, active, score);
  }

  // ----- what each validator is due

  /** The `q`-th active validator's part of the three pools, each divided evenly as `PerHeadWithin` says. */
  function Due(cfg: Config, active: seq<AccountId>, score: AccountId -> nat, pools: Pools, q: nat): nat
    requires q < |active|
  {
    var high, places := |HighScorers(cfg, active, score)|, TopPlaces(cfg, active);
    PerHead(pools.base, |active|)
    + (if score(active[q]) >= cfg.highPerformanceScore then PerHead(pools.performance, high) else 0)
    + (if |Ahead(active, score, q)| < places then PerHead(pools.top, places) else 0)
  }

  lemma ShareIsDue(cfg: Config, active: seq<AccountId>, score: AccountId -> nat, pools: Pools, q: nat, i: nat)
    requires Distinct(active) && q < |active| && i < |active|
    requires Ranking(active, score)[i] == Ranked(active[q], score(active[q]))
    ensures ExactShare(cfg, Ranking(active, score), pools, i) == Due(cfg, active, score, pools, q)
  {
    PlaceIsCount(active, score, q, i);
    HighCountIff(cfg, active, score);
  }

  /**
    A successful distribution among distinct validators pays every one of them what it is due, by its score
    and its position in the list, or the default reward if that is nothing; it pays nobody else, and touches
    neither the slash ledgers nor the registrations.
  */
  lemma EveryoneGetsTheirDue(cfg: Config, s: State, active: seq<AccountId>, score: AccountId -> nat, pools: Pools)
    requires Distinct(active) && PoolsFit(pools)
    ensures match Distribute(cfg, s, active, score, pools)
            case Failure(_) => true
            case Success(t) =>
              && (forall q | 0 <= q < |active| ::
                    var due := Due(cfg, active, score, pools, q);
                    var paid := if due > 0 then due else cfg.validatorReward as nat;
                    && At(t.free, active[q]) == At(s.free, active[q]) + paid
                    && At(t.rewarded, active[q]) == At(s.rewarded, active[q]) + paid)
              && (forall a | a !in active :: At(t.free, a) == At(s.free, a) && At(t.rewarded, a) == At(s.rewarded, a))
              && t.registered == s.registered && t.slashed == s.slashed && t.totalSlashed == s.totalSlashed
  {
    var r, ranking := Distribute(cfg, s, active, score, pools), Ranking(active, score);
    var payments := ExactPayments(cfg, ranking, pools);
    PaymentsAreExact(cfg, active, score, pools);
    if r.Success? {
      PayAllLeavesSlashes(cfg, s, payments);
      forall q | 0 <= q < |active|
        ensures var due := Due(cfg, active, score, pools, q);
                var paid := if due > 0 then due else cfg.validatorReward as nat;
                && At(r.value.free, active[q]) == At(s.free, active[q]) + paid
                && At(r.value.rewarded, active[q]) == At(s.rewarded, active[q]) + paid
      {
        var i := ActiveIsRanked(active, score, q);
        ShareIsDue(cfg, active, score, pools, q, i);
        PayAllBalances(cfg, s, payments, active[q]);
        CreditToPayee(cfg, payments, i);
      }
      forall a | a !in active ensures At(r.value.free, a) == At(s.free, a) && At(r.value.rewarded, a) == At(s.rewarded, a) {
        RankingOrders(active, score);
        assert a !in Elements(active) && a !in Elements(AccountsOf(ranking));
        assert Payees(payments) == AccountsOf(ranking);
        PayAllBalances(cfg, s, payments, a);
        CreditToOthers(cfg, payments, a);
      }
    }
  }

  lemma {:induction false} PayAllLeavesSlashes(cfg: Config, s: State, payments: seq<Payment>)
    requires PayAll(cfg, s, payments).Success?
    ensures var t := PayAll(cfg, s, payments).value;
            t.registered == s.registered && t.slashed == s.slashed && t.totalSlashed == s.totalSlashed
  {
    if payments != [] {
      PayAllLeavesSlashes(cfg, s, payments[..|payments| - 1]);
    }
  }

  /** Two validators of equal score and one top place: the pool goes to the one listed first. */
  lemma TieGoesToFirst(cfg: Config, score: AccountId -> nat, pools: Pools)
    requires cfg.topPerformerPercentage == 50 && score(1) == score(2)
    ensures Due(cfg, [1, 2], score, pools, 0) == Due(cfg, [1, 2], score, pools, 1) + pools.top
  {
    assert Ahead([1, 2], score, 0) == {};
    assert Ahead([1, 2], score, 1) == {0};
  }
}
