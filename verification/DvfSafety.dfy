/** Quorums overlap, a fresh round has one winner, and tallies are ledgers of accepted votes. */
module DvfSafety {
  import opened Wrappers
  import opened Numeric
  import opened Sums
  import opened Dvf
  import opened DvfJustification
  import opened DvfWeights

  const SIXTY_SEVEN_PERCENT: int := 670_000_000

  predicate NoFreeze(es: seq<Event>) {
    forall e | e in es :: !e.FreezeWeights?
  }

  ghost predicate FrozenBy(s: State, entries: seq<Entry>) {
    s.weights == FrozenWeights(entries) && s.totalWeight == FrozenTotal(entries)
  }

  lemma {:induction false} WeightsKept(cfg: Config, s: State, es: seq<Event>)
    requires NoFreeze(es)
    ensures Run(cfg, s, es).weights == s.weights && Run(cfg, s, es).totalWeight == s.totalWeight
  {
    if es != [] {
      WeightsKept(cfg, s, es[..|es| - 1]);
    }
  }

  // ----- accountable safety

  /** Two sets of voters that each reach the quorum share at least twice the quorum less the total. */
  lemma QuorumOverlap(w: map<AccountId, nat>, total: nat, quorum: nat, a: set<AccountId>, b: set<AccountId>)
    requires SumOver(w, w.Keys) <= total
    requires a <= w.Keys && b <= w.Keys
    requires quorum <= SumOver(w, a) && quorum <= SumOver(w, b)
    ensures 2 * quorum - total <= SumOver(w, a * b)
  {
    SumOverUnion(w, a, b);
    SumOverSubset(w, a + b, w.Keys);
  }

  /** An account whose valid signature stands on a vote of both justifications, each for its own hash and round. */
  ghost predicate SignedBoth(cfg: Config, a: AccountId, j: Justification, k: Justification) {
    exists v, w | v in j.votes && w in k.votes ::
      && Voter(v) == a && Voter(w) == a
      && cfg.verify(v.signature, v.payload, a) && cfg.verify(w.signature, w.payload, a)
      && v.payload.blockHash == j.blockHash && w.payload.blockHash == k.blockHash
      && v.payload.roundId == j.roundNumber && w.payload.roundId == k.roundNumber
  }

  lemma SharedVotersSignedBoth(cfg: Config, s: State, j: Justification, t: State, k: Justification)
    requires Accepts(cfg, s, j) && Accepts(cfg, t, k)
    ensures forall a | a in Voters(j.votes) * Voters(k.votes) :: SignedBoth(cfg, a, j, k)
  {
    forall a | a in Voters(j.votes) * Voters(k.votes) ensures SignedBoth(cfg, a, j, k) {
      var v :| v in j.votes && Voter(v) == a;
      var w :| w in k.votes && Voter(w) == a;
      assert GoodVote(cfg, s, j, v) && GoodVote(cfg, t, k, w);
    }
  }

  /** For any threshold: how much weight two accepted justifications must share. */
  lemma AcceptedOverlap(cfg: Config, s: State, j: Justification, t: State, k: Justification)
    requires cfg.Valid() && WeightsCovered(s)
    requires t.weights == s.weights && t.totalWeight == s.totalWeight
    requires Accepts(cfg, s, j) && Accepts(cfg, t, k)
    ensures 2 * (cfg.thresholdParts * s.totalWeight) - BILLION * s.totalWeight - 2 * BILLION <
            BILLION * SumOver(s.weights, Voters(j.votes) * Voters(k.votes))
  {
    var quorum := cfg.threshold(s.totalWeight);
    assert Voters(j.votes) <= s.weights.Keys by {
      forall v | v in j.votes ensures Voter(v) in s.weights { assert GoodVote(cfg, s, j, v); }
    }
    assert Voters(k.votes) <= s.weights.Keys by {
      forall v | v in k.votes ensures Voter(v) in s.weights { assert GoodVote(cfg, t, k, v); }
    }
    QuorumOverlap(s.weights, s.totalWeight, quorum, Voters(j.votes), Voters(k.votes));
    assert cfg.RoundsProduct(s.totalWeight, quorum);
  }

  /**
    Accountable safety: at the 67% threshold, the validators who signed two accepted justifications
    hold more than a third of the frozen weight. Lists may even repeat accounts; 31701 is the length up
    to which floor rounding leaves enough weight.
  */
  lemma AccountableSafety(cfg: Config, entries: seq<Entry>, s: State, j: Justification, t: State, k: Justification)
    requires cfg.Valid() && cfg.thresholdParts == SIXTY_SEVEN_PERCENT
    requires NoOverflow(entries) && |entries| <= 31_701
    requires FrozenBy(s, entries) && FrozenBy(t, entries)
    requires SubmitJustification(cfg, s, j).Success? && SubmitJustification(cfg, t, k).Success?
    ensures s.totalWeight < 3 * SumOver(s.weights, Voters(j.votes) * Voters(k.votes))
    ensures forall a | a in Voters(j.votes) * Voters(k.votes) :: SignedBoth(cfg, a, j, k)
  {
    JustificationAcceptedIff(cfg, s, j);
    JustificationAcceptedIff(cfg, t, k);
    SharedVotersSignedBoth(cfg, s, j, t, k);
    TotalCoversWeights(entries);
    AcceptedOverlap(cfg, s, j, t, k);
    assert entries != [] by {
      assert GoodVote(cfg, s, j, j.votes[0]);
      InsertAllSum(Accounts(entries), WeightList(entries));
      assert Voter(j.votes[0]) in Accounts(entries);
    }
    TotalWeightBounds(entries);
  }

  /** The same over a run: both justifications finalise somewhere between two freezes. */
  lemma AccountableSafetyOverRuns(cfg: Config, entries: seq<Entry>, s: State, es: seq<Event>, i: nat, k: nat)
    requires cfg.Valid() && cfg.thresholdParts == SIXTY_SEVEN_PERCENT
    requires NoOverflow(entries) && |entries| <= 31_701 && FrozenBy(s, entries)
    requires i < |es| && k < |es| && NoFreeze(es)
    requires es[i].Justify? && EmittedAt(cfg, s, es, i).Some?
    requires es[k].Justify? && EmittedAt(cfg, s, es, k).Some?
    ensures var both := Voters(es[i].justification.votes) * Voters(es[k].justification.votes);
            && s.totalWeight < 3 * SumOver(s.weights, both)
            && forall a | a in both :: SignedBoth(cfg, a, es[i].justification, es[k].justification)
  {
    WeightsKept(cfg, s, es[..i]);
    WeightsKept(cfg, s, es[..k]);
    AccountableSafety(cfg, entries, Run(cfg, s, es[..i]), es[i].justification, Run(cfg, s, es[..k]), es[k].justification);
  }

  // ----- one winner per round

  /** The validators whose vote is recorded in the current round. */
  function Recorded(s: State): set<AccountId> {
    set k | k in s.records && k.0 == s.currentRound :: k.1
  }

  predicate FreshRound(s: State) {
    && (forall h | h in s.tallies :: s.tallies[h] == 0)
    && Recorded(s) == {}
  }

  /** No event of the run finalises a block. */
  predicate NothingFinalized(cfg: Config, s: State, es: seq<Event>) {
    es == [] ||
    (NothingFinalized(cfg, s, es[..|es| - 1]) && Emitted(cfg, Run(cfg, s, es[..|es| - 1]), es[|es| - 1]) == None)
  }

  /** All tallies together are exactly the weight of the validators recorded in the round. */
  ghost predicate TalliesMatchRecords(s: State) {
    && Recorded(s) <= s.weights.Keys
    && SumOver(s.tallies, s.tallies.Keys) == SumOver(s.weights, Recorded(s))
  }

  /** The tallies together leave room in the counter for everybody's vote. */
  ghost predicate RoomForRound(s: State) {
    SumOver(s.tallies, s.tallies.Keys) + s.totalWeight <= U128_MAX
  }

  /** From `s` to `t` the tallies have grown by exactly the weight of the validators newly recorded. */
  ghost predicate CountsNewVoters(s: State, t: State) {
    && t.currentRound == s.currentRound
    && t.weights == s.weights && t.totalWeight == s.totalWeight
    && Recorded(s) <= Recorded(t) <= Recorded(s) + s.weights.Keys
    && SumOver(t.tallies, t.tallies.Keys) + SumOver(s.weights, Recorded(s)) ==
       SumOver(s.tallies, s.tallies.Keys) + SumOver(s.weights, Recorded(t))
  }

  /** While only new voters are counted the tallies stay within what was there and the total. */
  lemma NewVotersFit(s: State, t: State, voters: set<AccountId>)
    requires WeightsCovered(s) && CountsNewVoters(s, t)
    requires Recorded(t) <= voters <= Recorded(t) + s.weights.Keys
    ensures SumOver(s.weights, voters) <= SumOver(s.weights, Recorded(s)) + s.totalWeight
    ensures SumOver(t.tallies, t.tallies.Keys) <= SumOver(s.tallies, s.tallies.Keys) + s.totalWeight
  {
    SumOverSplit(s.weights, Recorded(s), voters - Recorded(s));
    assert Recorded(s) + (voters - Recorded(s)) == voters;
    SumOverSubset(s.weights, voters - Recorded(s), s.weights.Keys);
    SumOverSubset(s.weights, Recorded(t), voters);
  }

  /** An accepted vote, if the counter has room: its tally is exact, and its weight joins tallies and voters alike. */
  lemma CountedVote(cfg: Config, s: State, v: Vote)
    requires SubmitVote(cfg, s, v).Success?
    requires SumOver(s.tallies, s.tallies.Keys) + s.weights[Voter(v)] <= U128_MAX
    ensures var h := v.payload.blockHash; var w := s.weights[Voter(v)];
            && Voter(v) !in Recorded(s)
            && NewTally(s, h, w) == At(s.tallies, h) + w
            && var tallies := s.tallies[h := NewTally(s, h, w)];
               && SumOver(tallies, tallies.Keys) == SumOver(s.tallies, s.tallies.Keys) + w
               && SumOver(s.weights, Recorded(s) + {Voter(v)}) == SumOver(s.weights, Recorded(s)) + w
  {
    var h, w := v.payload.blockHash, s.weights[Voter(v)];
    var recorded := Recorded(s) + {Voter(v)};
    SumOverRemove(s.weights, recorded, Voter(v));
    assert recorded - {Voter(v)} == Recorded(s);
    if h in s.tallies {
      SumOverRemove(s.tallies, s.tallies.Keys, h);
    }
    SumOverUpdate(s.tallies, h, NewTally(s, h, w));
  }

  /** What is left of the room for a round, when a vote is accepted in it. */
  lemma RoomForVote(cfg: Config, s: State, t: State, v: Vote)
    requires WeightsCovered(s) && RoomForRound(s) && CountsNewVoters(s, t)
    requires SubmitVote(cfg, t, v).Success?
    ensures SumOver(t.tallies, t.tallies.Keys) + t.weights[Voter(v)] <= U128_MAX
  {
    var voters := Recorded(t) + {Voter(v)};
    assert Voter(v) !in Recorded(t);
    SumOverRemove(s.weights, voters, Voter(v));
    assert voters - {Voter(v)} == Recorded(t);
    NewVotersFit(s, t, voters);
  }

  lemma NewVoterCounted(cfg: Config, s: State, t: State, v: Vote, next: State)
    requires CountsNewVoters(s, t)
    requires SumOver(t.tallies, t.tallies.Keys) + At(t.weights, Voter(v)) <= U128_MAX
    requires SubmitVote(cfg, t, v) == Success(Applied(next, None))
    ensures CountsNewVoters(s, next)
  {
    CountedVote(cfg, t, v);
    assert Recorded(next) == Recorded(t) + {Voter(v)};
  }

  /** An event that neither freezes nor finalises counts at most one new voter. */
  lemma QuietStep(cfg: Config, s: State, t: State, e: Event)
    requires WeightsCovered(s) && RoomForRound(s) && CountsNewVoters(s, t)
    requires !e.FreezeWeights? && Emitted(cfg, t, e) == None
    ensures CountsNewVoters(s, Step(cfg, t, e))
  {
    match e
    case CastVote(v) =>
      if SubmitVote(cfg, t, v).Success? {
        RoomForVote(cfg, s, t, v);
        NewVoterCounted(cfg, s, t, v, SubmitVote(cfg, t, v).value.state);
      }
    case Justify(_) =>
    case FreezeWeights(_, _) =>
  }

  /**
    Whatever a round begins with, each validator recorded in the course of it adds its weight to the
    tallies exactly once.
  */
  lemma {:induction false} RoundBalance(cfg: Config, s: State, es: seq<Event>)
    requires WeightsCovered(s) && RoomForRound(s)
    requires NoFreeze(es) && NothingFinalized(cfg, s, es)
    ensures CountsNewVoters(s, Run(cfg, s, es))
  {
    if es != [] {
      var n := |es| - 1;
      RoundBalance(cfg, s, es[..n]);
      QuietStep(cfg, s, Run(cfg, s, es[..n]), es[n]);
    }
  }

  /** So the tallies match the records later in a round exactly when they matched before. */
  lemma MatchKeptIff(cfg: Config, s: State, es: seq<Event>)
    requires WeightsCovered(s) && RoomForRound(s)
    requires NoFreeze(es) && NothingFinalized(cfg, s, es)
    ensures TalliesMatchRecords(Run(cfg, s, es)) <==> TalliesMatchRecords(s)
  {
    RoundBalance(cfg, s, es);
  }

  /** And when a round opens, without records, they match exactly when no tally has been carried over. */
  lemma MatchAtOpeningIff(s: State)
    requires Recorded(s) == {}
    ensures TalliesMatchRecords(s) <==> FreshRound(s)
  {
    if FreshRound(s) {
      SumOverZero(s.tallies, s.tallies.Keys);
    } else {
      var h :| h in s.tallies && s.tallies[h] != 0;
      SumOverRemove(s.tallies, s.tallies.Keys, h);
    }
  }

  /** What the round that a vote ends has counted: the winner's weight and the tallies left behind. */
  ghost function Counted(cfg: Config, s: State, v: Vote, won: BlockFinalized): nat {
    var left := Step(cfg, s, CastVote(v)).tallies;
    SumOver(left, left.Keys) + won.weight
  }

  /** The winning vote moves a tally out of the storage and adds the voter's weight to it. */
  lemma WinningVote(cfg: Config, t: State, v: Vote, won: BlockFinalized)
    requires Emitted(cfg, t, CastVote(v)) == Some(won)
    requires SumOver(t.tallies, t.tallies.Keys) + At(t.weights, Voter(v)) <= U128_MAX
    ensures won.blockHash !in Step(cfg, t, CastVote(v)).tallies
    ensures Counted(cfg, t, v, won) == SumOver(t.tallies, t.tallies.Keys) + At(t.weights, Voter(v))
    ensures SumOver(t.weights, Recorded(t) + {Voter(v)}) == SumOver(t.weights, Recorded(t)) + At(t.weights, Voter(v))
    ensures Voter(v) in t.weights && cfg.threshold(t.totalWeight) <= won.weight
  {
    CountedVote(cfg, t, v);
    var h, w := v.payload.blockHash, t.weights[Voter(v)];
    var tallies := t.tallies[h := NewTally(t, h, w)];
    var left := Step(cfg, t, CastVote(v)).tallies;
    SumOverRemove(tallies, tallies.Keys, h);
    assert left == tallies - {h};
    assert tallies.Keys - {h} == left.Keys;
    SumOverAgree(tallies, left, left.Keys);
  }

  /**
    The account of a round that a vote ends, whatever was carried into it: winner and losers together
    hold what the tallies held at the start and the weight of the validators who voted since. They hold
    just the weight of the round's voters, each once, exactly when the tallies matched at the start.
  */
  lemma RoundAccount(cfg: Config, s: State, es: seq<Event>, v: Vote, won: BlockFinalized)
    requires WeightsCovered(s) && RoomForRound(s)
    requires NoFreeze(es) && NothingFinalized(cfg, s, es)
    requires Emitted(cfg, Run(cfg, s, es), CastVote(v)) == Some(won)
    ensures var t := Run(cfg, s, es); var voters := Recorded(t) + {Voter(v)};
            && won.blockHash !in Step(cfg, t, CastVote(v)).tallies
            && cfg.threshold(s.totalWeight) <= won.weight
            && Recorded(s) <= voters <= Recorded(s) + s.weights.Keys
            && Counted(cfg, t, v, won) + SumOver(s.weights, Recorded(s)) ==
               SumOver(s.tallies, s.tallies.Keys) + SumOver(s.weights, voters)
            && (Counted(cfg, t, v, won) == SumOver(s.weights, voters) && voters <= s.weights.Keys <==>
                TalliesMatchRecords(s))
  {
    var t := Run(cfg, s, es);
    RoundBalance(cfg, s, es);
    RoomForVote(cfg, s, t, v);
    WinningVote(cfg, t, v, won);
  }

  /**
    When a round opens: every voter counts once exactly when no tally is carried over, winner and losers
    stay within the total exactly when what is carried over fits beside the voters' weight, and the losers
    stay below the threshold exactly when it fits beside the voters and below the threshold and the winner.
  */
  lemma OpenedRoundAccount(cfg: Config, s: State, es: seq<Event>, v: Vote, won: BlockFinalized)
    requires WeightsCovered(s) && RoomForRound(s) && Recorded(s) == {}
    requires NoFreeze(es) && NothingFinalized(cfg, s, es)
    requires Emitted(cfg, Run(cfg, s, es), CastVote(v)) == Some(won)
    ensures var t := Run(cfg, s, es); var voters := Recorded(t) + {Voter(v)};
            var carried := SumOver(s.tallies, s.tallies.Keys);
            && (Counted(cfg, t, v, won) == SumOver(s.weights, voters) <==> FreshRound(s))
            && (Counted(cfg, t, v, won) <= s.totalWeight <==> carried + SumOver(s.weights, voters) <= s.totalWeight)
            && (Counted(cfg, t, v, won) - won.weight < cfg.threshold(s.totalWeight) <==>
                carried + SumOver(s.weights, voters) < cfg.threshold(s.totalWeight) + won.weight)
  {
    RoundAccount(cfg, s, es, v, won);
    MatchAtOpeningIff(s);
  }

  /**
    Over every run of a round that begins fresh, the tallies of all hashes are exactly the weight of the
    validators recorded, and within the total.
  */
  lemma RoundTallies(cfg: Config, s: State, es: seq<Event>)
    requires FreshRound(s) && WeightsCovered(s)
    requires NoFreeze(es) && NothingFinalized(cfg, s, es)
    ensures var t := Run(cfg, s, es);
            && t.currentRound == s.currentRound
            && t.weights == s.weights && t.totalWeight == s.totalWeight
            && TalliesMatchRecords(t)
            && SumOver(t.tallies, t.tallies.Keys) <= t.totalWeight
  {
    MatchAtOpeningIff(s);
    RoundBalance(cfg, s, es);
    NewVotersFit(s, Run(cfg, s, es), Recorded(Run(cfg, s, es)));
  }

  /**
    One winner, whatever is carried over: if that and the total together stay below twice the threshold,
    the losers of a round end together below the threshold that the winner has reached.
  */
  lemma OneWinnerCarried(cfg: Config, s: State, es: seq<Event>, v: Vote, won: BlockFinalized)
    requires WeightsCovered(s) && RoomForRound(s) && Recorded(s) == {}
    requires NoFreeze(es) && NothingFinalized(cfg, s, es)
    requires Emitted(cfg, Run(cfg, s, es), CastVote(v)) == Some(won)
    requires SumOver(s.tallies, s.tallies.Keys) + s.totalWeight < 2 * cfg.threshold(s.totalWeight)
    ensures var left := Step(cfg, Run(cfg, s, es), CastVote(v)).tallies;
            && SumOver(left, left.Keys) + won.weight <= SumOver(s.tallies, s.tallies.Keys) + s.totalWeight
            && SumOver(left, left.Keys) < cfg.threshold(s.totalWeight) <= won.weight
  {
    var voters := Recorded(Run(cfg, s, es)) + {Voter(v)};
    RoundAccount(cfg, s, es, v, won);
    SumOverSubset(s.weights, voters, s.weights.Keys);
  }

  /**
    One winner: when a vote finalises a hash in a round that began fresh, the winner's weight and all
    tallies left behind together stay within the total, so the losers together stay below the threshold.
  */
  lemma OneWinner(cfg: Config, s: State, es: seq<Event>, v: Vote, won: BlockFinalized)
    requires FreshRound(s) && WeightsCovered(s)
    requires NoFreeze(es) && NothingFinalized(cfg, s, es)
    requires Emitted(cfg, Run(cfg, s, es), CastVote(v)) == Some(won)
    requires s.totalWeight < 2 * cfg.threshold(s.totalWeight)
    ensures var left := Step(cfg, Run(cfg, s, es), CastVote(v)).tallies;
            && won.blockHash !in left
            && SumOver(left, left.Keys) + won.weight <= s.totalWeight
            && SumOver(left, left.Keys) < cfg.threshold(s.totalWeight) <= won.weight
  {
    MatchAtOpeningIff(s);
    RoundAccount(cfg, s, es, v, won);
    OneWinnerCarried(cfg, s, es, v, won);
  }

  /** After a freeze of up to 31701 entries the 67% threshold is a majority and the weights are covered. */
  lemma FreezeMakesMajority(cfg: Config, entries: seq<Entry>, s: State)
    requires cfg.Valid() && cfg.thresholdParts == SIXTY_SEVEN_PERCENT
    requires NoOverflow(entries) && 1 <= |entries| <= 31_701 && FrozenBy(s, entries)
    ensures WeightsCovered(s) && s.totalWeight < 2 * cfg.threshold(s.totalWeight)
  {
    TotalCoversWeights(entries);
    TotalWeightBounds(entries);
    assert cfg.RoundsProduct(s.totalWeight, cfg.threshold(s.totalWeight));
  }

  /** So a round that begins fresh after a freeze has one winner, with the losers together below the threshold. */
  lemma OneWinnerAfterFreeze(cfg: Config, entries: seq<Entry>, s: State, es: seq<Event>, v: Vote, won: BlockFinalized)
    requires cfg.Valid() && cfg.thresholdParts == SIXTY_SEVEN_PERCENT
    requires NoOverflow(entries) && 1 <= |entries| <= 31_701 && FrozenBy(s, entries) && FreshRound(s)
    requires NoFreeze(es) && NothingFinalized(cfg, s, es)
    requires Emitted(cfg, Run(cfg, s, es), CastVote(v)) == Some(won)
    ensures var left := Step(cfg, Run(cfg, s, es), CastVote(v)).tallies;
            && SumOver(left, left.Keys) + won.weight <= s.totalWeight
            && SumOver(left, left.Keys) < cfg.threshold(s.totalWeight) <= won.weight
  {
    FreezeMakesMajority(cfg, entries, s);
    OneWinner(cfg, s, es, v, won);
  }

  // ----- the vote ledger

  /** What one event does to the tally of one hash. */
  datatype TallyChange = Cleared | Added(weight: nat) | Kept

  /** Finalising the hash clears its tally; an accepted vote for it adds the voter's weight at that time. */
  function ChangeOf(cfg: Config, s: State, e: Event, h: Hash): TallyChange {
    match Apply(cfg, s, e)
    case Failure(_) => Kept
    case Success(a) =>
      if a.emitted.Some? && a.emitted.value.blockHash == h then Cleared
      else if e.CastVote? && e.vote.payload.blockHash == h then Added(At(s.weights, Voter(e.vote)))
      else Kept
  }

  function History(cfg: Config, s: State, es: seq<Event>, h: Hash): seq<TallyChange> {
    if es == [] then []
    else
      var n := |es| - 1;
      History(cfg, s, es[..n], h) + [ChangeOf(cfg, Run(cfg, s, es[..n]), es[n], h)]
  }

  /** The weights added since the last clearing, oldest first. */
  function Ledger(changes: seq<TallyChange>): seq<nat> {
    if changes == [] then []
    else
      var n := |changes| - 1;
      match changes[n]
      case Cleared => []
      case Added(w) => Ledger(changes[..n]) + [w]
      case Kept => Ledger(changes[..n])
  }

  /** The tally at the start counts until the first clearing. */
  function CarriedOver(start: nat, changes: seq<TallyChange>): nat {
    if changes == [] then start
    else if changes[|changes| - 1].Cleared? then 0
    else CarriedOver(start, changes[..|changes| - 1])
  }

  /** The exact sum of what the ledger holds, cut off once at the counter's width. */
  function LedgerValue(start: nat, changes: seq<TallyChange>): nat {
    Min(CarriedOver(start, changes) + Sum(Ledger(changes)), U128_MAX)
  }

  function ApplyChange(tally: nat, change: TallyChange): nat {
    match change
    case Cleared => 0
    case Added(w) => Min(tally + w, U128_MAX)
    case Kept => tally
  }

  lemma TallyStep(cfg: Config, s: State, e: Event, h: Hash)
    ensures At(Step(cfg, s, e).tallies, h) == ApplyChange(At(s.tallies, h), ChangeOf(cfg, s, e, h))
  {
    match e
    case CastVote(_) =>
    case Justify(_) =>
    case FreezeWeights(_, _) =>
  }

  /** A tally played forward through a list of changes, cut off at each addition. */
  function Replay(start: nat, changes: seq<TallyChange>): nat {
    if changes == [] then start
    else ApplyChange(Replay(start, changes[..|changes| - 1]), changes[|changes| - 1])
  }

  lemma {:induction false} TallyIsReplayed(cfg: Config, s: State, es: seq<Event>, h: Hash)
    ensures At(Run(cfg, s, es).tallies, h) == Replay(At(s.tallies, h), History(cfg, s, es, h))
  {
    if es != [] {
      var n := |es| - 1;
      var before, history := Run(cfg, s, es[..n]), History(cfg, s, es[..n], h);
      TallyIsReplayed(cfg, s, es[..n], h);
      TallyStep(cfg, before, es[n], h);
      assert History(cfg, s, es, h)[..|history|] == history;
    }
  }

  /** Cutting off at each addition is cutting off the exact sum once. */
  lemma {:induction false} ReplayIsLedger(start: nat, changes: seq<TallyChange>)
    requires start <= U128_MAX
    ensures Replay(start, changes) == LedgerValue(start, changes)
  {
    if changes != [] {
      var n := |changes| - 1;
      ReplayIsLedger(start, changes[..n]);
      assert changes == changes[..n] + [changes[n]];
      match changes[n]
      case Cleared =>
      case Added(w) => SumAppend(Ledger(changes[..n]), w);
      case Kept =>
    }
  }

  /**
    Across rounds, freezes, justifications and pruning, a tally is the sum of the weights, at acceptance,
    of all votes accepted for the hash since it was last finalised, cut off at the counter's width.
  */
  lemma TallyIsLedger(cfg: Config, s: State, es: seq<Event>, h: Hash)
    requires At(s.tallies, h) <= U128_MAX
    ensures At(Run(cfg, s, es).tallies, h) == LedgerValue(At(s.tallies, h), History(cfg, s, es, h))
  {
    TallyIsReplayed(cfg, s, es, h);
    ReplayIsLedger(At(s.tallies, h), History(cfg, s, es, h));
  }

  /** Between two freezes no stored tally ever reaches a positive threshold. */
  lemma {:induction false} TalliesStayBelowThreshold(cfg: Config, s: State, es: seq<Event>)
    requires NoFreeze(es)
    requires 0 < cfg.threshold(s.totalWeight)
    requires forall h | h in s.tallies :: s.tallies[h] < cfg.threshold(s.totalWeight)
    ensures forall h | h in Run(cfg, s, es).tallies :: Run(cfg, s, es).tallies[h] < cfg.threshold(s.totalWeight)
  {
    if es != [] {
      TalliesStayBelowThreshold(cfg, s, es[..|es| - 1]);
      WeightsKept(cfg, s, es[..|es| - 1]);
    }
  }
}
