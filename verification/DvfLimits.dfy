/**
  Where the gadget stops protecting, on concrete runs from a genesis with two equally weighted
  validators: tallies are keyed by hash alone and outlive rounds, a justification may name any round,
  only its first vote's block number counts, and lists of entries may repeat accounts or be too long.
*/
module DvfLimits {
  import opened Wrappers
  import opened Numeric
  import opened Sums
  import opened Dvf
  import opened DvfSafety
  import opened DvfRuns

  const CFG: Config :=
    Config((_, _, _) => true, SIXTY_SEVEN_PERCENT, (w: u128) => w * 67 / 100, 10, 20, 100)

  const EQUALS: seq<Entry> := [Entry(1, 5, 0), Entry(2, 5, 0)]

  const WEIGHTS: map<AccountId, nat> := map[1 := 16_000, 2 := 16_000]

  function VoteOf(a: AccountId, round: u32, block: u32, hash: Hash): Vote {
    Vote(Payload(0, 0, round, block, hash, a), 0)
  }

  /** Both validators sign the same hash; `first` is the block named by the first vote, the other names `second`. */
  function SplitJustification(round: u32, first: u32, second: u32, hash: Hash): Justification {
    Justification(round, hash, [VoteOf(1, round, first, hash), VoteOf(2, round, second, hash)])
  }

  function JointJustification(round: u32, block: u32, hash: Hash): Justification {
    SplitJustification(round, block, block, hash)
  }

  lemma ConfigIsValid()
    ensures CFG.Valid()
  {
  }

  // ----- the state after genesis, and joint finalisation

  lemma PairSum(x: nat, y: nat)
    ensures Sum([x, y]) == x + y
  {
    assert [x, y] == [x] + [y] && [x] == [] + [x];
    SumAppend([], x);
    SumAppend([x], y);
  }

  lemma FrozenPair(first: Entry, second: Entry)
    requires first.stake == second.stake == 5
    ensures WeightList([first, second]) == [16_000, 16_000]
    ensures FrozenTotal([first, second]) == 32_000
    ensures FrozenWeights([first, second]) == map[first.account := 16_000][second.account := 16_000]
  {
    var entries := [first, second];
    assert Stakes(entries) == [5, 5];
    PairSum(5, 5);
    assert WeightList(entries) == [16_000, 16_000];
    PairSum(16_000, 16_000);
    var keys := Accounts(entries);
    assert keys == [first.account, second.account] && keys[..1] == [first.account] && keys[..1][..0] == [];
    assert WeightList(entries)[..1] == [16_000] && WeightList(entries)[..1][..0] == [];
    assert InsertAll(keys[..1], WeightList(entries)[..1]) == map[first.account := 16_000];
  }

  lemma GenesisOfEquals()
    ensures GenesisEntries(EQUALS)
    ensures var s := Genesis(CFG, EQUALS);
            && s.weights == WEIGHTS && s.totalWeight == 32_000
            && s.currentRound == 0 && s.finalizedNumber == 0 && s.finalizedHash == None
            && s.records == map[] && s.tallies == map[]
  {
    FrozenPair(EQUALS[0], EQUALS[1]);
  }

  /** Both validators together always get a later checkpoint finalised, in whatever round they name. */
  lemma JointlyFinalized(s: State, round: u32, first: u32, second: u32, hash: Hash)
    requires s.weights == WEIGHTS && s.totalWeight == 32_000
    requires first % 10 == 0 && s.finalizedNumber < first
    ensures var j := Justify(SplitJustification(round, first, second, hash));
            && Step(CFG, s, j) == FinalizeBlock(CFG, s, first, hash, round)
            && Emitted(CFG, s, j) == Some(BlockFinalized(first, hash, round, 32_000))
            && CastBallot(CFG, s, j) == []
            && (hash != 7 ==> At(Step(CFG, s, j).tallies, 7) == At(s.tallies, 7))
  {
    var j := SplitJustification(round, first, second, hash);
    assert j.votes[..1] == [j.votes[0]] && j.votes[..0] == [];
    assert JustifiedVoteError(CFG, s, j, 0) == None;
    assert JustifiedVoteError(CFG, s, j, 1) == None;
    assert FirstVoteError(CFG, s, j, 2) == None;
    assert FirstVoteError(CFG, s, j, 1) == None;
    assert VoteWeights(s.weights, j.votes) == [16_000, 16_000];
    PairSum(16_000, 16_000);
  }

  /** The run with one more event: its state, its ballots, and what the event emits. */
  lemma OneMore(s: State, es: seq<Event>, e: Event)
    ensures var before := Run(CFG, s, es);
            && Run(CFG, s, es + [e]) == Step(CFG, before, e)
            && EmittedAt(CFG, s, es + [e], |es|) == Emitted(CFG, before, e)
            && Ballots(CFG, s, es + [e]) == Ballots(CFG, s, es) + CastBallot(CFG, before, e)
            && (ForwardRounds(CFG, s, es + [e]) <==> ForwardRounds(CFG, s, es) && Forward(before, e))
  {
    assert (es + [e])[..|es|] == es;
  }

  lemma ThreeEvents(s: State, a: Event, b: Event, c: Event)
    ensures var s1 := Step(CFG, s, a); var s2 := Step(CFG, s1, b); var es := [a] + [b] + [c];
            && Run(CFG, s, es) == Step(CFG, s2, c)
            && EmittedAt(CFG, s, es, 2) == Emitted(CFG, s2, c)
            && Ballots(CFG, s, es) == CastBallot(CFG, s, a) + CastBallot(CFG, s1, b) + CastBallot(CFG, s2, c)
            && (ForwardRounds(CFG, s, es) <==> Forward(s, a) && Forward(s1, b) && Forward(s2, c))
  {
    assert [] + [a] == [a];
    OneMore(s, [], a);
    OneMore(s, [a], b);
    OneMore(s, [a] + [b], c);
  }

  // ----- tallies and rounds

  const FIRST_VOTE: Event := CastVote(VoteOf(1, 0, 40, 7))
  const SECOND_VOTE: Event := CastVote(VoteOf(1, 1, 40, 7))
  const OPENING: Event := Justify(JointJustification(0, 10, 5))
  const PRUNING: Event := Justify(JointJustification(30, 20, 6))
  const REOPENING: Event := Justify(JointJustification(0, 30, 8))

  /** The first vote of validator 1 in a round, with nothing to add to. */
  lemma VoteRecorded(s: State, round: u32)
    requires s.weights == WEIGHTS && s.totalWeight == 32_000 && s.records == map[] && s.tallies == map[]
    requires s.currentRound == round && s.finalizedNumber < 40
    ensures var v := VoteOf(1, round, 40, 7);
            && Step(CFG, s, CastVote(v)) == s.(records := map[(round, 1) := v], tallies := map[7 := 16_000])
            && CastBallot(CFG, s, CastVote(v)) == [(round, 1)]
  {
    assert SubmitVote(CFG, s, VoteOf(1, round, 40, 7)).Success?;
  }

  /** A later vote of the same validator for the same hash completes the tally. */
  lemma VoteCompletes(s: State)
    requires s.weights == WEIGHTS && s.totalWeight == 32_000 && At(s.tallies, 7) == 16_000
    requires s.currentRound == 1 && s.finalizedNumber < 40 && (1, 1) !in s.records
    ensures CastBallot(CFG, s, SECOND_VOTE) == [(1, 1)]
    ensures Emitted(CFG, s, SECOND_VOTE) == Some(BlockFinalized(40, 7, 1, 32_000))
  {
    assert SubmitVote(CFG, s, SECOND_VOTE.vote).Success?;
  }

  /** In round 0, with a vote on record: the round ends with another block. */
  lemma NextRoundOpens(s: State)
    requires s.weights == WEIGHTS && s.totalWeight == 32_000 && s.records.Keys == {(0, 1)} && At(s.tallies, 7) == 16_000
    requires s.currentRound == 0 && s.finalizedNumber == 0
    ensures var s1 := Step(CFG, s, OPENING);
            && s1.weights == WEIGHTS && s1.totalWeight == 32_000 && At(s1.tallies, 7) == 16_000
            && s1.currentRound == 1 && s1.finalizedNumber == 10 && (1, 1) !in s1.records
            && CastBallot(CFG, s, OPENING) == []
  {
    JointlyFinalized(s, 0, 10, 10, 5);
  }

  lemma TalliesAdd(s: State)
    requires s.weights == WEIGHTS && s.totalWeight == 32_000 && s.records == map[] && s.tallies == map[]
    requires s.currentRound == 0 && s.finalizedNumber == 0
    ensures var es := [FIRST_VOTE] + [OPENING] + [SECOND_VOTE];
            && ForwardRounds(CFG, s, es)
            && Ballots(CFG, s, es) == [(0, 1), (1, 1)]
            && EmittedAt(CFG, s, es, 2) == Some(BlockFinalized(40, 7, 1, 32_000))
  {
    ThreeEvents(s, FIRST_VOTE, OPENING, SECOND_VOTE);
    VoteRecorded(s, 0);
    var s1 := Step(CFG, s, FIRST_VOTE);
    NextRoundOpens(s1);
    VoteCompletes(Step(CFG, s1, OPENING));
  }

  /**
    Half of the weight finalises block 40 alone, by voting for it in two successive rounds. The second
    round did not open without tallies, which `OpenedRoundAccount` shows to be the exact condition.
  */
  lemma TallyOutlivesRounds()
    ensures var s := Genesis(CFG, EQUALS); var es := [FIRST_VOTE] + [OPENING] + [SECOND_VOTE];
            && ForwardRounds(CFG, s, es)
            && Ballots(CFG, s, es) == [(0, 1), (1, 1)]
            && EmittedAt(CFG, s, es, 2) == Some(BlockFinalized(40, 7, 1, 32_000))
            && At(s.weights, 1) < CFG.threshold(s.totalWeight)
  {
    GenesisOfEquals();
    TalliesAdd(Genesis(CFG, EQUALS));
  }

  /** In round 1, with a vote on record: a justification that prunes it, and one that reopens the round. */
  lemma PrunedAndReopened(s: State)
    requires s.weights == WEIGHTS && s.totalWeight == 32_000 && s.records.Keys == {(1, 1)} && At(s.tallies, 7) == 16_000
    requires s.finalizedNumber == 10
    ensures var s1 := Step(CFG, s, PRUNING); var s2 := Step(CFG, s1, REOPENING);
            && s2.weights == WEIGHTS && s2.totalWeight == 32_000 && At(s2.tallies, 7) == 16_000
            && s2.currentRound == 1 && s2.finalizedNumber == 30 && s2.records == map[]
            && CastBallot(CFG, s, PRUNING) == [] && CastBallot(CFG, s1, REOPENING) == []
  {
    JointlyFinalized(s, 30, 20, 20, 6);
    var s1 := Step(CFG, s, PRUNING);
    assert s1.records == map[];
    JointlyFinalized(s1, 0, 30, 30, 8);
  }

  lemma RoundReopens(s: State)
    requires s.weights == WEIGHTS && s.totalWeight == 32_000 && s.records == map[] && s.tallies == map[]
    requires s.currentRound == 1 && s.finalizedNumber == 10
    ensures var es := [SECOND_VOTE] + [PRUNING] + [REOPENING]; var t := Run(CFG, s, es);
            && Ballots(CFG, s, es) == [(1, 1)]
            && CastBallot(CFG, t, SECOND_VOTE) == [(1, 1)]
            && Emitted(CFG, t, SECOND_VOTE) == Some(BlockFinalized(40, 7, 1, 32_000))
  {
    ThreeEvents(s, SECOND_VOTE, PRUNING, REOPENING);
    VoteRecorded(s, 1);
    var s1 := Step(CFG, s, SECOND_VOTE);
    PrunedAndReopened(s1);
    VoteCompletes(Step(CFG, Step(CFG, s1, PRUNING), REOPENING));
  }

  /**
    The condition that justifications name no earlier round cannot be dropped from `NoDoubleVote`. From
    genesis a justification opens round 1; a later round then prunes the record of the vote in it, an
    earlier one reopens it, and the same validator's second ballot in round 1 is accepted.
  */
  lemma ReopenedRoundAllowsDoubleVote()
    ensures var s := Step(CFG, Genesis(CFG, EQUALS), OPENING);
            var es := [SECOND_VOTE] + [PRUNING] + [REOPENING] + [SECOND_VOTE];
            && s == Run(CFG, Genesis(CFG, EQUALS), [OPENING])
            && Ballots(CFG, s, es) == [(1, 1), (1, 1)]
            && EmittedAt(CFG, s, es, 3) == Some(BlockFinalized(40, 7, 1, 32_000))
  {
    var s := Step(CFG, Genesis(CFG, EQUALS), OPENING);
    GenesisOfEquals();
    JointlyFinalized(Genesis(CFG, EQUALS), 0, 10, 10, 5);
    assert [] + [OPENING] == [OPENING];
    OneMore(Genesis(CFG, EQUALS), [], OPENING);
    assert s.records == map[] && s.tallies == map[];
    RoundReopens(s);
    OneMore(s, [SECOND_VOTE] + [PRUNING] + [REOPENING], SECOND_VOTE);
  }

  // ----- reports

  const SKIPPING: Event := Justify(JointJustification(1, 20, 6))

  lemma EmittedHashOfLast(s: State, es: seq<Event>, e: Event, c: u32)
    requires Emitted(CFG, Run(CFG, s, es), e).Some?
    ensures var f := Emitted(CFG, Run(CFG, s, es), e).value;
            EmittedHash(CFG, s, es + [e], c) == if f.blockNumber == c then Some(f.blockHash) else EmittedHash(CFG, s, es, c)
  {
    assert (es + [e])[..|es|] == es;
  }

  /** When block 20 is finalised with hash 6, block 15 is reported under checkpoint 10 with that hash. */
  lemma ReportAfterSkipping(s: State, es: seq<Event>)
    requires var t := Run(CFG, s, es); t.weights == WEIGHTS && t.totalWeight == 32_000 && t.finalizedNumber < 20
    ensures var all := es + [SKIPPING];
            && GetFinalityInfo(CFG, Run(CFG, s, all), 15) == FinalityInfo(true, Some(10), Some(6))
            && EmittedHash(CFG, s, all, 10) == EmittedHash(CFG, s, es, 10)
  {
    JointlyFinalized(Run(CFG, s, es), 1, 20, 20, 6);
    OneMore(s, es, SKIPPING);
    EmittedHashOfLast(s, es, SKIPPING, 10);
  }

  /**
    Block 15 is reported final under checkpoint 10 with hash 6, the hash of block 20. That may happen when
    10 was finalised with hash 5, and also when 10 never was.
  */
  lemma ReportNamesLaterHash()
    ensures var s := Genesis(CFG, EQUALS);
            && GetFinalityInfo(CFG, Run(CFG, s, [OPENING] + [SKIPPING]), 15) == FinalityInfo(true, Some(10), Some(6))
            && EmittedHash(CFG, s, [OPENING] + [SKIPPING], 10) == Some(5)
            && GetFinalityInfo(CFG, Run(CFG, s, [] + [SKIPPING]), 15) == FinalityInfo(true, Some(10), Some(6))
            && EmittedHash(CFG, s, [] + [SKIPPING], 10) == None
  {
    var s := Genesis(CFG, EQUALS);
    GenesisOfEquals();
    ReportAfterSkipping(s, []);
    JointlyFinalized(s, 0, 10, 10, 5);
    assert [] + [OPENING] == [OPENING];
    OneMore(s, [], OPENING);
    EmittedHashOfLast(s, [], OPENING, 10);
    ReportAfterSkipping(s, [OPENING]);
  }

  // ----- justifications and lists

  const TEN_FIRST: Justification := SplitJustification(0, 10, 20, 5)
  const TWENTY_FIRST: Justification := Justification(0, 5, [VoteOf(2, 0, 20, 5), VoteOf(1, 0, 10, 5)])

  /** The same two votes for one hash, which name blocks 10 and 20, finalise the one named first. */
  lemma FirstBlockDecides()
    ensures var s := Genesis(CFG, EQUALS);
            && multiset(TEN_FIRST.votes) == multiset(TWENTY_FIRST.votes)
            && Step(CFG, s, Justify(TEN_FIRST)).finalizedNumber == 10
            && Step(CFG, s, Justify(TWENTY_FIRST)).finalizedNumber == 20
  {
    var s := Genesis(CFG, EQUALS);
    GenesisOfEquals();
    JointlyFinalized(s, 0, 10, 20, 5);
    TwentyFirst(s);
  }

  lemma TwentyFirst(s: State)
    requires s.weights == WEIGHTS && s.totalWeight == 32_000 && s.finalizedNumber == 0
    ensures Step(CFG, s, Justify(TWENTY_FIRST)).finalizedNumber == 20
  {
    var j := TWENTY_FIRST;
    assert j.votes[..1] == [j.votes[0]] && j.votes[..0] == [];
    assert JustifiedVoteError(CFG, s, j, 0) == None;
    assert JustifiedVoteError(CFG, s, j, 1) == None;
    assert FirstVoteError(CFG, s, j, 2) == None;
    assert FirstVoteError(CFG, s, j, 1) == None;
    assert VoteWeights(s.weights, j.votes) == [16_000, 16_000];
    PairSum(16_000, 16_000);
  }

  /** An account listed twice keeps one weight of 16000, but the total counts 32000. */
  lemma RepeatedAccountOutweighed()
    ensures var entries := [Entry(1, 5, 0), Entry(1, 5, 0)]; var w := FrozenWeights(entries);
            w == map[1 := 16_000] && SumOver(w, w.Keys) == 16_000 && FrozenTotal(entries) == 32_000
  {
    FrozenPair(Entry(1, 5, 0), Entry(1, 5, 0));
    SumOverRemove(map[1 := 16_000], {1}, 1);
  }

  /** Where one validator at most is stored, freezing the same two again and again steps the set id each time. */
  lemma LongListChangesEachTime()
    ensures var cfg := CFG.(maxValidators := 1); var s := Genesis(cfg, EQUALS);
            && s.validatorSetId == 0
            && Freeze(cfg, s, EQUALS, 1).validatorSetId == 1
            && Freeze(cfg, Freeze(cfg, s, EQUALS, 1), EQUALS, 2).validatorSetId == 2
  {
  }
}
