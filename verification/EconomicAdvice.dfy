/** Following the amounts that refusals recommend: how it ends, and when it cannot end well. */
module EconomicAdvice {
  import opened Wrappers
  import opened Numeric
  import opened Sums
  import opened EconomicBounds

  /** The answers to slash requests of any amount, while storage does not change. */
  type Answers = nat -> Result<Outcome, Error>

  function AnswersOf(b: Bounds, t: Tracker, reserved: nat, who: AccountId): Answers {
    (amount: nat) => SlashOutcome(b, t, reserved, who, amount)
  }

  predicate Refused(r: Result<Outcome, Error>) {
    r.Success? && r.value.BoundsViolation?
  }

  /** Resubmit the recommended amount after a refusal, up to `retries` times; a refusal changes no storage. */
  function Follow(answers: Answers, amount: nat, retries: nat): Result<Outcome, Error>
    decreases retries
  {
    var r := answers(amount);
    if retries > 0 && Refused(r) then Follow(answers, r.value.maxAllowed, retries - 1) else r
  }

  /** Retries beyond the last refusal change nothing. */
  lemma {:induction false} MoreRetries(answers: Answers, amount: nat, few: nat, many: nat)
    requires few <= many && !Refused(Follow(answers, amount, few))
    ensures Follow(answers, amount, many) == Follow(answers, amount, few)
    decreases few
  {
    var r := answers(amount);
    if few > 0 && Refused(r) {
      MoreRetries(answers, r.value.maxAllowed, few - 1, many - 1);
    }
  }

  /** The request is already as recommended, or it is refused with that recommendation. */
  predicate LeadsTo(answers: Answers, amount: nat, advice: nat) {
    amount == advice || (Refused(answers(amount)) && answers(amount).value.maxAllowed == advice)
  }

  /** A dialogue through two possible refusals ends as it would from the second recommendation. */
  lemma FollowChain(answers: Answers, amount: nat, first: nat, second: nat)
    requires LeadsTo(answers, amount, first) && LeadsTo(answers, first, second)
    requires !Refused(Follow(answers, second, 1))
    ensures Follow(answers, amount, 3) == Follow(answers, second, 1)
  {
    MoreRetries(answers, second, 1, 2);
    MoreRetries(answers, second, 1, 3);
    assert Follow(answers, first, 2) == Follow(answers, second, 1);
    MoreRetries(answers, first, 2, 3);
  }

  /** Neither running total has outgrown its cap, and a validator's own total is part of the epoch's. */
  predicate WithinCaps(b: Bounds, t: Tracker, who: AccountId) {
    && t.totalSlashing <= b.maxTotalSlashing
    && At(t.slashing, who) <= b.maxValidatorSlashing
    && At(t.slashing, who) <= t.totalSlashing
  }

  /** What is left of a request after the two caps; nothing when a cap has been outgrown. */
  function AfterCaps(b: Bounds, t: Tracker, who: AccountId, amount: nat): nat {
    Min(amount, Min(SaturatingSub(b.maxTotalSlashing, t.totalSlashing),
                    SaturatingSub(b.maxValidatorSlashing, At(t.slashing, who))))
  }

  /** No sum, product or quotient on the way leaves its integer width. */
  predicate Fits(b: Bounds, t: Tracker, reserved: nat, who: AccountId, amount: nat) {
    var capped := AfterCaps(b, t, who, amount);
    && t.totalSlashing + amount <= U128_MAX
    && capped * BASIS_POINTS <= U128_MAX
    && (reserved > 0 ==> capped * BASIS_POINTS / reserved <= U32_MAX)
  }

  // ----- the percentage check

  lemma QuotientExceeds(a: nat, d: nat, limit: nat)
    requires d > 0
    ensures a / d > limit <==> a >= (limit + 1) * d
  {
    DivisionBrackets(a, d);
    if a / d > limit {
      MulMonotone(limit + 1, a / d, d);
    } else {
      MulMonotone(a / d + 1, limit + 1, d);
      MulSuccessor(d, a / d);
    }
  }

  /** The recommended share of the reserve is below a refused amount, within the reserve, passes the check, and could not be larger. */
  lemma PercentageAdviceWorks(reserved: nat, amount: nat, maxPercentage: u32)
    requires reserved > 0 && maxPercentage <= BASIS_POINTS
    ensures var advice := PercentageAdvice(reserved, maxPercentage);
            && advice <= reserved
            && advice * BASIS_POINTS <= reserved * maxPercentage
            && advice * BASIS_POINTS / reserved <= maxPercentage
            && Advised(reserved, maxPercentage, advice)
            && (amount * BASIS_POINTS / reserved > maxPercentage ==> advice < amount)
  {
    var advice, product := PercentageAdvice(reserved, maxPercentage), reserved * maxPercentage;
    MulMonotone(0, reserved, maxPercentage);
    MulMonotone(maxPercentage, BASIS_POINTS, reserved);
    RecommendationIsAdvised(reserved, maxPercentage);
    assert advice * BASIS_POINTS <= product;
    QuotientExceeds(advice * BASIS_POINTS, reserved, maxPercentage);
    QuotientExceeds(amount * BASIS_POINTS, reserved, maxPercentage);
    MulSuccessor(reserved, maxPercentage);
  }

  /**
    The greatest whole amount within the percentage of the reserve, if the product fits, and nothing if it
    does not.
  */
  predicate Advised(reserved: nat, maxPercentage: u32, amount: nat) {
    if reserved * maxPercentage <= U128_MAX
    then amount * BASIS_POINTS <= reserved * maxPercentage < (amount + 1) * BASIS_POINTS
    else amount == 0
  }

  lemma RecommendationIsAdvised(reserved: nat, maxPercentage: u32)
    ensures Advised(reserved, maxPercentage, PercentageAdvice(reserved, maxPercentage))
  {
    MulMonotone(0, reserved, maxPercentage);
    DivisionBrackets(reserved * maxPercentage, BASIS_POINTS);
  }

  /** What the percentage check recommends: an amount within the percentage, and no smaller than any other that is. */
  lemma AdviceIsGreatest(b: Bounds, t: Tracker, reserved: nat, who: AccountId, amount: nat, other: nat)
    requires reserved * b.maxSlashingPercentage <= U128_MAX
    requires other * BASIS_POINTS <= reserved * b.maxSlashingPercentage
    ensures match SlashOutcome(b, t, reserved, who, amount)
            case Success(BoundsViolation(_, maxAllowed, SlashingPercentageLimit)) =>
              maxAllowed * BASIS_POINTS <= reserved * b.maxSlashingPercentage && other <= maxAllowed
            case _ => true
  {
    RecommendationIsAdvised(reserved, b.maxSlashingPercentage);
  }

  // ----- one refusal

  function Rank(v: Violation): nat {
    match v
    case TotalSlashingPerEpoch => 0
    case ValidatorSlashingPerEpoch => 1
    case _ => 2
  }

  /**
    Every recommendation is strictly below the request, and resubmitting it can only be refused by a
    later check.
  */
  lemma AdviceMovesOn(b: Bounds, t: Tracker, reserved: nat, who: AccountId, amount: nat)
    requires WithinCaps(b, t, who) && b.maxSlashingPercentage <= BASIS_POINTS
    requires SlashOutcome(b, t, reserved, who, amount).Success?
    requires SlashOutcome(b, t, reserved, who, amount).value.BoundsViolation?
    ensures var refusal := SlashOutcome(b, t, reserved, who, amount).value;
            && refusal.maxAllowed < amount
            && var next := SlashOutcome(b, t, reserved, who, refusal.maxAllowed);
               next.Success? && next.value.BoundsViolation? ==> Rank(refusal.violation) < Rank(next.value.violation)
  {
    if reserved > 0 {
      PercentageAdviceWorks(reserved, amount, b.maxSlashingPercentage);
    }
  }

  /** An amount that both caps allow meets only the percentage check and the reserve. */
  lemma CappedAmountPasses(b: Bounds, t: Tracker, reserved: nat, who: AccountId, amount: nat)
    requires WithinCaps(b, t, who)
    requires t.totalSlashing + amount <= b.maxTotalSlashing && At(t.slashing, who) + amount <= b.maxValidatorSlashing
    ensures SlashOutcome(b, t, reserved, who, amount) ==
            var percentage := PercentageOutcome(reserved, amount, b.maxSlashingPercentage);
            if percentage.Some? then percentage.value
            else if reserved < amount then Success(InsufficientBalance(reserved, amount))
            else Success(Applied(amount, reserved, reserved - amount))
  {
  }

  // ----- the whole dialogue

  /**
    The one way the dialogue can end badly within the caps: a request above the reserve passes the
    percentage check, which an empty reserve skips and a limit of the full hundred percent rounds down, and
    the balance check then refuses without recommending an amount.
  */
  predicate SlipsThrough(reserved: nat, capped: nat, maxPercentage: u32) {
    && reserved < capped
    && (reserved == 0 ||
        (maxPercentage == BASIS_POINTS && capped * BASIS_POINTS < (BASIS_POINTS + 1) * reserved))
  }

  predicate AppliedInFull(r: Result<Outcome, Error>, reserved: nat, amount: nat) {
    amount <= reserved && r == Success(Applied(amount, reserved, reserved - amount))
  }

  lemma FinalAmount(b: Bounds, t: Tracker, reserved: nat, who: AccountId, capped: nat)
    requires WithinCaps(b, t, who) && b.maxSlashingPercentage <= BASIS_POINTS && reserved > 0
    requires t.totalSlashing + capped <= b.maxTotalSlashing && At(t.slashing, who) + capped <= b.maxValidatorSlashing
    requires capped * BASIS_POINTS <= U128_MAX && capped * BASIS_POINTS / reserved <= U32_MAX
    ensures var advice := PercentageAdvice(reserved, b.maxSlashingPercentage);
            var r := SlashOutcome(b, t, reserved, who, capped);
            if capped * BASIS_POINTS / reserved > b.maxSlashingPercentage then
              && r == Success(BoundsViolation(capped, advice, SlashingPercentageLimit))
              && Advised(reserved, b.maxSlashingPercentage, advice)
              && AppliedInFull(SlashOutcome(b, t, reserved, who, advice), reserved, advice)
            else if SlipsThrough(reserved, capped, b.maxSlashingPercentage) then
              r == Success(InsufficientBalance(reserved, capped))
            else
              AppliedInFull(r, reserved, capped)
  {
    var advice := PercentageAdvice(reserved, b.maxSlashingPercentage);
    PercentageAdviceWorks(reserved, capped, b.maxSlashingPercentage);
    CappedAmountPasses(b, t, reserved, who, capped);
    QuotientExceeds(capped * BASIS_POINTS, reserved, b.maxSlashingPercentage);
    if capped * BASIS_POINTS / reserved > b.maxSlashingPercentage {
      CappedAmountPasses(b, t, reserved, who, advice);
    } else if b.maxSlashingPercentage < BASIS_POINTS {
      MulMonotone(b.maxSlashingPercentage + 1, BASIS_POINTS, reserved);
    }
  }

  /** Which refusals of the two caps come first, and what they recommend. */
  lemma CapsLeadTo(b: Bounds, t: Tracker, reserved: nat, who: AccountId, amount: nat)
    requires WithinCaps(b, t, who) && t.totalSlashing + amount <= U128_MAX
    ensures var answers := AnswersOf(b, t, reserved, who);
            var first := Min(amount, b.maxTotalSlashing - t.totalSlashing);
            LeadsTo(answers, amount, first) && LeadsTo(answers, first, AfterCaps(b, t, who, amount))
  {
  }

  /** From the capped amount one retry settles the matter. */
  lemma FollowFromCapped(b: Bounds, t: Tracker, reserved: nat, who: AccountId, capped: nat)
    requires WithinCaps(b, t, who) && b.maxSlashingPercentage <= BASIS_POINTS
    requires t.totalSlashing + capped <= b.maxTotalSlashing && At(t.slashing, who) + capped <= b.maxValidatorSlashing
    requires capped * BASIS_POINTS <= U128_MAX && (reserved > 0 ==> capped * BASIS_POINTS / reserved <= U32_MAX)
    ensures Settled(Follow(AnswersOf(b, t, reserved, who), capped, 1), reserved, capped, b.maxSlashingPercentage)
  {
    if reserved == 0 {
      CappedAmountPasses(b, t, reserved, who, capped);
    } else {
      var answers, advice := AnswersOf(b, t, reserved, who), PercentageAdvice(reserved, b.maxSlashingPercentage);
      FinalAmount(b, t, reserved, who, capped);
      QuotientExceeds(capped * BASIS_POINTS, reserved, b.maxSlashingPercentage);
      assert Follow(answers, advice, 0) == SlashOutcome(b, t, reserved, who, advice);
    }
  }

  /** The percentage check lets the amount pass; an empty reserve skips it. */
  predicate PassesPercentage(reserved: nat, amount: nat, maxPercentage: u32) {
    reserved == 0 || amount * BASIS_POINTS / reserved <= maxPercentage
  }

  /**
    A refusal for want of balance when the capped request slipped through, and otherwise an applied slash: of
    the capped request if the percentage check lets it pass, and of the greatest amount within the percentage
    if not.
  */
  predicate Settled(r: Result<Outcome, Error>, reserved: nat, capped: nat, maxPercentage: u32) {
    && r.Success?
    && if SlipsThrough(reserved, capped, maxPercentage) then r.value == InsufficientBalance(reserved, capped)
       else
         && r.value.Applied?
         && r.value.balanceBefore == reserved && r.value.balanceAfter == reserved - r.value.amount
         && if PassesPercentage(reserved, capped, maxPercentage) then r.value.amount == capped
            else Advised(reserved, maxPercentage, r.value.amount)
  }

  /**
    With caps not outgrown, a percentage of at most a hundred and no overflow, following the advice three
    times ends in an applied slash, unless the capped request slips through the percentage check.
  */
  lemma FollowingAdviceEnds(b: Bounds, t: Tracker, reserved: nat, who: AccountId, amount: nat)
    requires WithinCaps(b, t, who) && b.maxSlashingPercentage <= BASIS_POINTS
    requires Fits(b, t, reserved, who, amount)
    ensures var answers := AnswersOf(b, t, reserved, who);
            Settled(Follow(answers, amount, 3), reserved, AfterCaps(b, t, who, amount), b.maxSlashingPercentage)
  {
    var capped := AfterCaps(b, t, who, amount);
    CapsLeadTo(b, t, reserved, who, amount);
    FollowFromCapped(b, t, reserved, who, capped);
    FollowChain(AnswersOf(b, t, reserved, who), amount, Min(amount, b.maxTotalSlashing - t.totalSlashing), capped);
  }

  /** Bounds that pass validation, and the default bounds, allow at most a hundred percent. */
  lemma PercentageIsSane(cfg: Config, s: State, epoch: nat)
    requires epoch in s.bounds ==> ValidateBounds(cfg, s.bounds[epoch]).Success?
    ensures GetBounds(cfg, s, epoch).maxSlashingPercentage <= BASIS_POINTS
    ensures epoch !in s.bounds ==> GetBounds(cfg, s, epoch).maxSlashingPercentage == DEFAULT_PERCENTAGE
  {
  }

  // ----- caps that have been outgrown

  /** A running total above its cap. */
  predicate Outgrown(b: Bounds, t: Tracker, who: AccountId) {
    t.totalSlashing > b.maxTotalSlashing || At(t.slashing, who) > b.maxValidatorSlashing
  }

  /** The sums of the two cap checks do not overflow. */
  predicate SumsFit(t: Tracker, who: AccountId, amount: nat) {
    t.totalSlashing + amount <= U128_MAX && At(t.slashing, who) + amount <= U128_MAX
  }

  /**
    When a running total has outgrown its cap, as the shrinking default cap allows, nothing helps: even the
    zero amount is refused, with zero as the advice. Otherwise the zero amount always goes through.
  */
  lemma ZeroRefusedIff(b: Bounds, t: Tracker, reserved: nat, who: AccountId)
    requires SumsFit(t, who, 0)
    ensures var r := SlashOutcome(b, t, reserved, who, 0);
            && r.Success?
            && (r.value.BoundsViolation? <==> Outgrown(b, t, who))
            && (r.value.BoundsViolation? ==> r.value.maxAllowed == 0)
            && (!r.value.BoundsViolation? ==> r.value == Applied(0, reserved, reserved))
  {
    if reserved > 0 {
      DivisionBrackets(0, reserved);
      QuotientExceeds(0, reserved, 0);
    }
  }

  /** Every amount whose sums do not overflow is refused exactly when a running total has outgrown its cap. */
  lemma AllRefusedIff(b: Bounds, t: Tracker, reserved: nat, who: AccountId)
    requires SumsFit(t, who, 0)
    ensures (forall amount: nat | SumsFit(t, who, amount) :: Refused(SlashOutcome(b, t, reserved, who, amount))) <==>
            Outgrown(b, t, who)
  {
    ZeroRefusedIff(b, t, reserved, who);
    if !Outgrown(b, t, who) {
      assert SumsFit(t, who, 0) && !Refused(SlashOutcome(b, t, reserved, who, 0));
    }
  }

  /** Once the epoch's total has outgrown its cap, the advice is zero however often it is followed. */
  lemma {:induction false} AdviceStaysZero(b: Bounds, t: Tracker, reserved: nat, who: AccountId, amount: nat, retries: nat)
    requires t.totalSlashing > b.maxTotalSlashing && t.totalSlashing + amount <= U128_MAX
    ensures var r := Follow(AnswersOf(b, t, reserved, who), amount, retries); Refused(r) && r.value.maxAllowed == 0
    decreases retries
  {
    if retries > 0 {
      AdviceStaysZero(b, t, reserved, who, 0, retries - 1);
    }
  }

  /** A limit of a hundred percent, a reserve of 20000 and a request for 20001: no refusal, no slash. */
  lemma FullPercentageSlips()
    ensures var b := Bounds(1_000_000, 1_000_000, 1, 1, 10_000);
            Follow(AnswersOf(b, NEW_TRACKER, 20_000, 0), 20_001, 3) == Success(InsufficientBalance(20_000, 20_001))
  {
    var b := Bounds(1_000_000, 1_000_000, 1, 1, 10_000);
    FollowingAdviceEnds(b, NEW_TRACKER, 20_000, 0, 20_001);
  }
}
