/** What whole runs of the gadget keep: finality, the retention window, single votes, set ids. */
module DvfRuns {
  import opened Wrappers
  import opened Numeric
  import opened Sums
  import opened Sorting
  import opened Dvf
  import opened DvfSafety
  import opened DvfWeights

  // ----- finality only advances, from checkpoint to checkpoint

  predicate Aligned(cfg: Config, s: State) {
    cfg.checkpointInterval > 0 && s.finalizedNumber % cfg.checkpointInterval == 0
  }

  function Finalizations(cfg: Config, s: State, es: seq<Event>): nat {
    if es == [] then 0
    else
      var n := |es| - 1;
      Finalizations(cfg, s, es[..n]) + if Emitted(cfg, Run(cfg, s, es[..n]), es[n]).Some? then 1 else 0
  }

  lemma MultipleHasNoRemainder(q: nat, d: nat)
    requires 0 < d
    ensures (q * d) % d == 0
  {
    var m := q * d;
    DivisionBrackets(m, d);
    assert d * (q + 1) == d * q + d && d * (m / d + 1) == d * (m / d) + d;
    MulCancel(d, m / d, q + 1);
    MulCancel(d, q, m / d + 1);
  }

  lemma NextMultiple(a: nat, b: nat, d: nat)
    requires 0 < d && a % d == 0 && b % d == 0 && a < b
    ensures a + d <= b
  {
    MulCancel(d, a / d, b / d);
    MulMonotone(a / d + 1, b / d, d);
  }

  /** Each finalisation, by either path, moves the head to a later checkpoint; nothing else moves it. */
  lemma FinalizationAdvances(cfg: Config, s: State, e: Event)
    ensures match Emitted(cfg, s, e)
            case Some(f) =>
              && s.finalizedNumber < f.blockNumber == Step(cfg, s, e).finalizedNumber
              && IsCheckpoint(cfg, f.blockNumber)
              && Step(cfg, s, e).finalizedHash == Some(f.blockHash)
            case None =>
              Step(cfg, s, e).finalizedNumber == s.finalizedNumber && Step(cfg, s, e).finalizedHash == s.finalizedHash
  {
    match e
    case CastVote(_) =>
    case Justify(_) =>
    case FreezeWeights(_, _) =>
  }

  lemma AlignedStep(cfg: Config, s: State, e: Event)
    requires Aligned(cfg, s)
    ensures Aligned(cfg, Step(cfg, s, e))
    ensures s.finalizedNumber + (if Emitted(cfg, s, e).Some? then cfg.checkpointInterval else 0)
            <= Step(cfg, s, e).finalizedNumber
  {
    FinalizationAdvances(cfg, s, e);
    if Emitted(cfg, s, e).Some? {
      NextMultiple(s.finalizedNumber, Step(cfg, s, e).finalizedNumber, cfg.checkpointInterval);
    }
  }

  lemma {:induction false} AlignedRun(cfg: Config, s: State, es: seq<Event>)
    requires Aligned(cfg, s)
    ensures Aligned(cfg, Run(cfg, s, es))
  {
    if es != [] {
      AlignedRun(cfg, s, es[..|es| - 1]);
      AlignedStep(cfg, Run(cfg, s, es[..|es| - 1]), es[|es| - 1]);
    }
  }

  /** The interval, once for each finalisation of the run. */
  function Climb(cfg: Config, s: State, es: seq<Event>): nat {
    if es == [] then 0
    else
      var n := |es| - 1;
      Climb(cfg, s, es[..n]) + if Emitted(cfg, Run(cfg, s, es[..n]), es[n]).Some? then cfg.checkpointInterval else 0
  }

  lemma {:induction false} ClimbIsProduct(cfg: Config, s: State, es: seq<Event>)
    ensures Climb(cfg, s, es) == cfg.checkpointInterval * Finalizations(cfg, s, es)
  {
    if es != [] {
      ClimbIsProduct(cfg, s, es[..|es| - 1]);
      MulSuccessor(cfg.checkpointInterval, Finalizations(cfg, s, es[..|es| - 1]));
    }
  }

  lemma {:induction false} HeadClimbs(cfg: Config, s: State, es: seq<Event>)
    requires Aligned(cfg, s)
    ensures s.finalizedNumber + Climb(cfg, s, es) <= Run(cfg, s, es).finalizedNumber
  {
    if es != [] {
      var n := |es| - 1;
      HeadClimbs(cfg, s, es[..n]);
      AlignedRun(cfg, s, es[..n]);
      AlignedStep(cfg, Run(cfg, s, es[..n]), es[n]);
    }
  }

  /** The head stays on checkpoints and climbs at least one interval per finalisation. */
  lemma FinalityMonotone(cfg: Config, s: State, es: seq<Event>)
    requires Aligned(cfg, s)
    ensures Aligned(cfg, Run(cfg, s, es))
    ensures s.finalizedNumber + cfg.checkpointInterval * Finalizations(cfg, s, es) <= Run(cfg, s, es).finalizedNumber
  {
    AlignedRun(cfg, s, es);
    HeadClimbs(cfg, s, es);
    ClimbIsProduct(cfg, s, es);
  }

  lemma FlooredBlock(block: u32, interval: u32) returns (c: u32)
    requires interval > 0
    ensures c == (block / interval) * interval && c % interval == 0 && c <= block < c + interval
  {
    DivisionBrackets(block, interval);
    MultipleHasNoRemainder(block / interval, interval);
    c := (block / interval) * interval;
  }

  /** A block at or below the head is reported final, under the last checkpoint not above it. */
  lemma ReportedCheckpoint(cfg: Config, s: State, block: u32) returns (c: u32)
    requires cfg.checkpointInterval > 0 && block <= s.finalizedNumber
    ensures GetFinalityInfo(cfg, s, block) == FinalityInfo(true, Some(c), s.finalizedHash)
    ensures c == (block / cfg.checkpointInterval) * cfg.checkpointInterval
    ensures IsCheckpoint(cfg, c) && c <= block < c + cfg.checkpointInterval
  {
    c := FlooredBlock(block, cfg.checkpointInterval);
  }

  /** It stays so over every run, under the same checkpoint, which lies less than an interval back. */
  lemma ReportedFinalityIsStable(cfg: Config, s: State, es: seq<Event>, block: u32)
    requires Aligned(cfg, s) && block <= s.finalizedNumber
    ensures var before := GetFinalityInfo(cfg, s, block); var after := GetFinalityInfo(cfg, Run(cfg, s, es), block);
            && before.isFinalized && after.isFinalized
            && after.checkpoint == before.checkpoint
            && before.checkpoint.Some?
            && IsCheckpoint(cfg, before.checkpoint.value)
            && before.checkpoint.value <= block < before.checkpoint.value + cfg.checkpointInterval
  {
    HeadClimbs(cfg, s, es);
    var c := ReportedCheckpoint(cfg, s, block);
    var d := ReportedCheckpoint(cfg, Run(cfg, s, es), block);
  }

  /** The hash that a run finalised block `c` with, if it ever did. */
  function EmittedHash(cfg: Config, s: State, es: seq<Event>, c: u32): Option<Hash> {
    if es == [] then None
    else
      var n := |es| - 1;
      var before := EmittedHash(cfg, s, es[..n], c);
      match Emitted(cfg, Run(cfg, s, es[..n]), es[n])
      case Some(f) => if f.blockNumber == c then Some(f.blockHash) else before
      case None => before
  }

  /** Finalised blocks lie above the head at the start and no higher than the head at the end. */
  lemma {:induction false} EmittedAtMostHead(cfg: Config, s: State, es: seq<Event>, c: u32)
    requires EmittedHash(cfg, s, es, c).Some?
    ensures s.finalizedNumber < c <= Run(cfg, s, es).finalizedNumber
  {
    var n := |es| - 1;
    FinalizationAdvances(cfg, Run(cfg, s, es[..n]), es[n]);
    HeadNeverFalls(cfg, s, es[..n]);
    if EmittedHash(cfg, s, es[..n], c).Some? {
      EmittedAtMostHead(cfg, s, es[..n], c);
    }
  }

  lemma {:induction false} HeadNeverFalls(cfg: Config, s: State, es: seq<Event>)
    ensures s.finalizedNumber <= Run(cfg, s, es).finalizedNumber
  {
    if es != [] {
      var n := |es| - 1;
      HeadNeverFalls(cfg, s, es[..n]);
      FinalizationAdvances(cfg, Run(cfg, s, es[..n]), es[n]);
    }
  }

  /** The `i`-th event finalises block `c` with hash `h`. */
  predicate Finalizes(cfg: Config, s: State, es: seq<Event>, i: nat, c: u32, h: Hash)
    requires i < |es|
  {
    match EmittedAt(cfg, s, es, i)
    case Some(f) => f.blockNumber == c && f.blockHash == h
    case None => false
  }

  /** A block is finalised at most once, and its hash is the one of that event. */
  lemma {:induction false} EmittedHashIff(cfg: Config, s: State, es: seq<Event>, c: u32, h: Hash)
    ensures EmittedHash(cfg, s, es, c) == Some(h) <==> exists i | 0 <= i < |es| :: Finalizes(cfg, s, es, i, c, h)
  {
    if es != [] {
      var n := |es| - 1;
      var front := es[..n];
      EmittedHashIff(cfg, s, front, c, h);
      forall i | 0 <= i < n ensures Finalizes(cfg, s, es, i, c, h) <==> Finalizes(cfg, s, front, i, c, h) {
        assert front[..i] == es[..i];
      }
      if EmittedHash(cfg, s, front, c).Some? {
        EmittedAtMostHead(cfg, s, front, c);
        FinalizationAdvances(cfg, Run(cfg, s, front), es[n]);
      }
      assert Finalizes(cfg, s, es, n, c, h) <==>
             Emitted(cfg, Run(cfg, s, front), es[n]).Some? &&
             Emitted(cfg, Run(cfg, s, front), es[n]).value.blockNumber == c &&
             Emitted(cfg, Run(cfg, s, front), es[n]).value.blockHash == h;
    }
  }

  /** The stored hash is the one the head was finalised with, from a start without one. */
  lemma {:induction false} HeadHashIsEmitted(cfg: Config, s: State, es: seq<Event>)
    requires s.finalizedHash == None
    ensures var t := Run(cfg, s, es);
            && t.finalizedHash == EmittedHash(cfg, s, es, t.finalizedNumber)
            && (t.finalizedHash == None <==> t.finalizedNumber == s.finalizedNumber)
  {
    if es != [] {
      var n := |es| - 1;
      var before := Run(cfg, s, es[..n]);
      HeadHashIsEmitted(cfg, s, es[..n]);
      HeadNeverFalls(cfg, s, es[..n]);
      FinalizationAdvances(cfg, before, es[n]);
      HashFollowsEmission(cfg, before, es[n]);
    }
  }

  lemma HashFollowsEmission(cfg: Config, s: State, e: Event)
    ensures Step(cfg, s, e).finalizedHash ==
            match Emitted(cfg, s, e) case Some(f) => Some(f.blockHash) case None => s.finalizedHash
  {
  }

  /**
    From genesis on, a report carries the hash with which the head was finalised. That is the hash with
    which the reported checkpoint was finalised exactly when the block asked about is the head itself, or
    both were finalised with one hash. For a checkpoint that never was, the report carries no hash exactly
    when nothing has been finalised at all.
  */
  lemma ReportedHashIff(cfg: Config, initial: seq<Entry>, es: seq<Event>, block: u32)
    requires cfg.checkpointInterval > 0
    requires block <= Run(cfg, Genesis(cfg, initial), es).finalizedNumber
    ensures var s := Genesis(cfg, initial); var head := Run(cfg, s, es).finalizedNumber;
            var info := GetFinalityInfo(cfg, Run(cfg, s, es), block);
            && info.isFinalized && info.checkpoint.Some?
            && info.hash == EmittedHash(cfg, s, es, head)
            && var c := info.checkpoint.value;
               && (info.hash == EmittedHash(cfg, s, es, c) <==>
                   block == head || EmittedHash(cfg, s, es, c) == EmittedHash(cfg, s, es, head))
               && (EmittedHash(cfg, s, es, c) == None ==> (info.hash == None <==> head == 0))
  {
    var s := Genesis(cfg, initial);
    HeadHashIsEmitted(cfg, s, es);
    FinalityMonotone(cfg, s, es);
    ReportedHashBelongsToHead(cfg, Run(cfg, s, es), block);
  }

  /** The hash in a report is the stored one, and the reported checkpoint is the head only for the head itself. */
  lemma ReportedHashBelongsToHead(cfg: Config, s: State, block: u32)
    requires Aligned(cfg, s) && GetFinalityInfo(cfg, s, block).isFinalized
    ensures GetFinalityInfo(cfg, s, block).hash == s.finalizedHash
    ensures GetFinalityInfo(cfg, s, block).checkpoint == Some(s.finalizedNumber) <==> block == s.finalizedNumber
  {
    DivisionBrackets(block, cfg.checkpointInterval);
  }

  // ----- rounds, retention and single votes

  /** Every justification of the run names the current round or a later one. */
  predicate ForwardRounds(cfg: Config, s: State, es: seq<Event>) {
    es == [] ||
    (ForwardRounds(cfg, s, es[..|es| - 1]) && Forward(Run(cfg, s, es[..|es| - 1]), es[|es| - 1]))
  }

  predicate Forward(s: State, e: Event) {
    e.Justify? ==> s.currentRound <= e.justification.roundNumber
  }

  /** All records belong to the current round or to the retained rounds before it. */
  predicate WithinWindow(cfg: Config, s: State) {
    forall k | k in s.records :: s.currentRound - 1 - cfg.voteRetentionRounds <= k.0 <= s.currentRound
  }

  /** One step: the window holds, the round does not fall, and a newly opened round has no records. */
  lemma WindowStep(cfg: Config, s: State, e: Event)
    requires WithinWindow(cfg, s) && Forward(s, e)
    ensures var t := Step(cfg, s, e);
            && WithinWindow(cfg, t)
            && s.currentRound <= t.currentRound
            && (t.currentRound != s.currentRound ==> Recorded(t) == {})
  {
    match e
    case CastVote(_) =>
    case Justify(_) =>
    case FreezeWeights(_, _) =>
  }

  lemma {:induction false} RetentionWindow(cfg: Config, s: State, es: seq<Event>)
    requires WithinWindow(cfg, s) && ForwardRounds(cfg, s, es)
    ensures WithinWindow(cfg, Run(cfg, s, es))
    ensures s.currentRound <= Run(cfg, s, es).currentRound
  {
    if es != [] {
      RetentionWindow(cfg, s, es[..|es| - 1]);
      WindowStep(cfg, Run(cfg, s, es[..|es| - 1]), es[|es| - 1]);
    }
  }

  /** The (round, validator) pairs of the accepted single votes, in order. */
  function Ballots(cfg: Config, s: State, es: seq<Event>): seq<(u32, AccountId)> {
    if es == [] then []
    else
      var n := |es| - 1;
      var before := Run(cfg, s, es[..n]);
      Ballots(cfg, s, es[..n]) + CastBallot(cfg, before, es[n])
  }

  function CastBallot(cfg: Config, s: State, e: Event): seq<(u32, AccountId)> {
    if e.CastVote? && SubmitVote(cfg, s, e.vote).Success? then [(s.currentRound, Voter(e.vote))] else []
  }

  /** No ballot lies in the future, and those of the current round are on record. */
  predicate BallotsOnRecord(s: State, ballots: seq<(u32, AccountId)>) {
    forall b | b in ballots :: b.0 <= s.currentRound && (b.0 == s.currentRound ==> b in s.records)
  }

  lemma BallotStep(cfg: Config, s: State, e: Event, ballots: seq<(u32, AccountId)>)
    requires Forward(s, e) && BallotsOnRecord(s, ballots) && Distinct(ballots)
    ensures BallotsOnRecord(Step(cfg, s, e), ballots + CastBallot(cfg, s, e))
    ensures Distinct(ballots + CastBallot(cfg, s, e))
  {
    match e
    case CastVote(_) =>
    case Justify(_) =>
    case FreezeWeights(_, _) =>
  }

  /** Over a run whose justifications never name an earlier round, no validator votes twice in one round. */
  lemma {:induction false} NoDoubleVote(cfg: Config, s: State, es: seq<Event>)
    requires ForwardRounds(cfg, s, es)
    ensures Distinct(Ballots(cfg, s, es))
    ensures BallotsOnRecord(Run(cfg, s, es), Ballots(cfg, s, es))
  {
    if es != [] {
      var n := |es| - 1;
      NoDoubleVote(cfg, s, es[..n]);
      BallotStep(cfg, Run(cfg, s, es[..n]), es[n], Ballots(cfg, s, es[..n]));
    }
  }

  /** The rounds finalised along a run, by either path. */
  function FinalizedRounds(cfg: Config, s: State, es: seq<Event>): seq<u32> {
    if es == [] then []
    else
      var n := |es| - 1;
      FinalizedRounds(cfg, s, es[..n]) + FinalizedRound(cfg, Run(cfg, s, es[..n]), es[n])
  }

  function FinalizedRound(cfg: Config, s: State, e: Event): seq<u32> {
    match Emitted(cfg, s, e)
    case Some(f) => [f.round]
    case None => []
  }

  predicate WithinRetention(cfg: Config, rounds: seq<u32>, round: u32) {
    forall r | r in rounds :: r <= round + cfg.voteRetentionRounds
  }

  lemma RecordStep(cfg: Config, s: State, e: Event, b: (u32, AccountId))
    requires b !in CastBallot(cfg, s, e)
    ensures b in Step(cfg, s, e).records <==>
            b in s.records && WithinRetention(cfg, FinalizedRound(cfg, s, e), b.0)
  {
    var out := Emitted(cfg, s, e);
    assert WithinRetention(cfg, FinalizedRound(cfg, s, e), b.0) <==>
           (out.Some? ==> out.value.round <= b.0 + cfg.voteRetentionRounds) by {
      assert out.Some? ==> out.value.round in FinalizedRound(cfg, s, e);
    }
    match e
    case CastVote(v) =>
      if SubmitVote(cfg, s, v).Success? {
        assert (s.currentRound, Voter(v)) in CastBallot(cfg, s, e);
      }
    case Justify(_) =>
    case FreezeWeights(_, _) =>
  }

  lemma RetentionSplits(cfg: Config, first: seq<u32>, second: seq<u32>, round: u32)
    ensures WithinRetention(cfg, first + second, round) <==>
            WithinRetention(cfg, first, round) && WithinRetention(cfg, second, round)
  {
    assert forall r :: r in first + second <==> r in first || r in second;
  }

  /** A recorded ballot is forgotten exactly when a round beyond its retention is finalised. */
  lemma {:induction false} RecordKeptIff(cfg: Config, s: State, es: seq<Event>, b: (u32, AccountId))
    requires b in s.records && b !in Ballots(cfg, s, es)
    ensures b in Run(cfg, s, es).records <==> WithinRetention(cfg, FinalizedRounds(cfg, s, es), b.0)
  {
    if es != [] {
      var n := |es| - 1;
      RecordKeptIff(cfg, s, es[..n], b);
      var before := Run(cfg, s, es[..n]);
      RecordStep(cfg, before, es[n], b);
      RetentionSplits(cfg, FinalizedRounds(cfg, s, es[..n]), FinalizedRound(cfg, before, es[n]), b.0);
    }
  }

  /**
    Whatever rounds the justifications name, a validator that has voted in a round and would vote in it
    again is turned away exactly when no round beyond the retention has been finalised in between.
  */
  lemma SecondBallotRefusedIff(cfg: Config, s: State, es: seq<Event>, v: Vote)
    requires var t := Run(cfg, s, es); var b := (t.currentRound, Voter(v));
             && b in s.records && b !in Ballots(cfg, s, es)
             && cfg.verify(v.signature, v.payload, Voter(v)) && Voter(v) in t.weights
             && IsCheckpoint(cfg, v.payload.blockNumber) && t.finalizedNumber < v.payload.blockNumber
    ensures var t := Run(cfg, s, es);
            && (SubmitVote(cfg, t, v) == Failure(DoubleVote) <==>
                WithinRetention(cfg, FinalizedRounds(cfg, s, es), t.currentRound))
            && (SubmitVote(cfg, t, v).Success? <==>
                !WithinRetention(cfg, FinalizedRounds(cfg, s, es), t.currentRound))
  {
    RecordKeptIff(cfg, s, es, (Run(cfg, s, es).currentRound, Voter(v)));
  }

  /** An accepted justification takes the round back exactly when it names a round at least two before it. */
  lemma RoundFallsIff(cfg: Config, s: State, j: Justification)
    requires SubmitJustification(cfg, s, j).Success?
    ensures Step(cfg, s, Justify(j)).currentRound < s.currentRound <==> j.roundNumber + 1 < s.currentRound
  {
  }

  // ----- validator set ids

  /** A freeze list of distinct accounts that fits the bounded storage. */
  predicate GoodList(cfg: Config, entries: seq<Entry>) {
    Distinct(Accounts(entries)) && |entries| <= cfg.maxValidators
  }

  predicate GoodFreezes(cfg: Config, es: seq<Event>) {
    forall e | e in es && e.FreezeWeights? :: GoodList(cfg, e.entries)
  }

  /** The accounts of the last freeze of a run, or those frozen before it. */
  function LastFrozen(previous: seq<AccountId>, es: seq<Event>): seq<AccountId> {
    if es == [] then previous
    else if es[|es| - 1].FreezeWeights? then Accounts(es[|es| - 1].entries)
    else LastFrozen(previous, es[..|es| - 1])
  }

  /** How many freezes of a run name another set of accounts than the freeze before them. */
  ghost function SetChanges(previous: seq<AccountId>, es: seq<Event>): nat {
    if es == [] then 0
    else
      var n := |es| - 1;
      SetChanges(previous, es[..n]) +
      if es[n].FreezeWeights? && Elements(Accounts(es[n].entries)) != Elements(LastFrozen(previous, es[..n])) then 1 else 0
  }

  /** Comparing lengths and sorted copies compares the accounts with their multiplicities. */
  lemma SetChangedByCount(previous: seq<AccountId>, current: seq<AccountId>)
    ensures SetChanged(previous, current) <==> multiset(previous) != multiset(current)
  {
    SortedCopiesAgree(previous, current);
    if multiset(previous) == multiset(current) {
      assert |multiset(previous)| == |previous| && |multiset(current)| == |current|;
    }
  }

  /** What every freeze, of any list, makes of the stored set, the id and the change block. */
  lemma FreezeStores(cfg: Config, s: State, entries: seq<Entry>, now: u32)
    ensures var t := Step(cfg, s, FreezeWeights(entries, now));
            var changed := multiset(s.previousSet) != multiset(Accounts(entries));
            && t.previousSet <= Accounts(entries) && |t.previousSet| == Min(|entries|, cfg.maxValidators)
            && t.validatorSetId == (if changed then Min(s.validatorSetId + 1, U32_MAX) else s.validatorSetId)
            && t.setIdChangedAt == (if changed then Some(now) else s.setIdChangedAt)
  {
    SetChangedByCount(s.previousSet, Accounts(entries));
  }

  /** Comparing sorted copies of duplicate-free lists compares the sets of accounts. */
  lemma SetChangedIff(previous: seq<AccountId>, current: seq<AccountId>)
    requires Distinct(previous) && Distinct(current)
    ensures SetChanged(previous, current) <==> Elements(previous) != Elements(current)
  {
    SortedCopiesAgree(previous, current);
    DistinctMultiset(previous);
    DistinctMultiset(current);
    if multiset(previous) == multiset(current) {
      assert |multiset(previous)| == |previous| && |multiset(current)| == |current|;
      forall a ensures a in Elements(previous) <==> a in Elements(current) {
        assert a in multiset(previous) <==> a in multiset(current);
      }
    }
  }

  lemma SetIdStep(cfg: Config, s: State, e: Event)
    requires e.FreezeWeights? ==> GoodList(cfg, e.entries)
    requires Distinct(s.previousSet)
    ensures var t := Step(cfg, s, e);
            && (e.FreezeWeights? ==> t.previousSet == Accounts(e.entries))
            && (!e.FreezeWeights? ==> t.previousSet == s.previousSet)
            && t.validatorSetId ==
               if e.FreezeWeights? && Elements(Accounts(e.entries)) != Elements(s.previousSet)
               then SaturatingAdd32(s.validatorSetId, 1) else s.validatorSetId
    ensures e.FreezeWeights? ==>
            Step(cfg, s, e).setIdChangedAt ==
            if Elements(Accounts(e.entries)) != Elements(s.previousSet) then Some(e.now) else s.setIdChangedAt
  {
    if e.FreezeWeights? {
      SetChangedIff(s.previousSet, Accounts(e.entries));
    }
  }

  /** The set id counts the freezes that change the set, up to the width of the counter. */
  lemma {:induction false} SetIdCountsChanges(cfg: Config, s: State, es: seq<Event>)
    requires Distinct(s.previousSet) && GoodFreezes(cfg, es)
    ensures Run(cfg, s, es).previousSet == LastFrozen(s.previousSet, es)
    ensures Distinct(LastFrozen(s.previousSet, es))
    ensures Run(cfg, s, es).validatorSetId == Min(s.validatorSetId + SetChanges(s.previousSet, es), U32_MAX)
  {
    if es != [] {
      var n := |es| - 1;
      SetIdCountsChanges(cfg, s, es[..n]);
      SetIdStep(cfg, Run(cfg, s, es[..n]), es[n]);
    }
  }

  /** From genesis, whose id is set back to zero, the id is the number of changes. */
  lemma SetIdFromGenesis(cfg: Config, initial: seq<Entry>, es: seq<Event>)
    requires GoodList(cfg, initial) && GoodFreezes(cfg, es)
    ensures Run(cfg, Genesis(cfg, initial), es).validatorSetId == Min(SetChanges(Accounts(initial), es), U32_MAX)
  {
    SetIdCountsChanges(cfg, Genesis(cfg, initial), es);
  }

  /**
    A list that outgrows the bounded storage is stored truncated, so freezing it again counts as a
    change; freezing the same list twice keeps the id exactly when the list fits.
  */
  lemma RefreezeKeepsIdIff(cfg: Config, s: State, entries: seq<Entry>, now: u32, later: u32)
    ensures var once := Freeze(cfg, s, entries, now);
            Freeze(cfg, once, entries, later).validatorSetId == once.validatorSetId <==>
            |entries| <= cfg.maxValidators || once.validatorSetId == U32_MAX
  {
  }

  lemma ListsPermute(entries: seq<Entry>, shuffled: seq<Entry>)
    requires multiset(entries) == multiset(shuffled)
    ensures |entries| == |shuffled|
    ensures multiset(Accounts(entries)) == multiset(Accounts(shuffled))
    ensures TotalStake(entries) == TotalStake(shuffled)
    ensures Sum(WeightList(entries)) == Sum(WeightList(shuffled))
  {
    assert |multiset(entries)| == |entries| && |multiset(shuffled)| == |shuffled|;
    MapPermutes(entries, shuffled, (e: Entry) => e.account);
    assert Accounts(entries) == Map(entries, (e: Entry) => e.account);
    assert Accounts(shuffled) == Map(shuffled, (e: Entry) => e.account);

    var stake := (e: Entry) => e.stake as nat;
    MapPermutes(entries, shuffled, stake);
    assert Stakes(entries) == Map(entries, stake) && Stakes(shuffled) == Map(shuffled, stake);
    SumPermutation(Stakes(entries), Stakes(shuffled));

    var total, n := TotalStake(entries), |entries|;
    var weight := (e: Entry) => NormalizedWeight(e.stake, total, n) as nat;
    MapPermutes(entries, shuffled, weight);
    assert WeightList(entries) == Map(entries, weight) && WeightList(shuffled) == Map(shuffled, weight);
    SumPermutation(WeightList(entries), WeightList(shuffled));
  }

  /** Distinct entries are stored under their accounts, whatever the order of the list. */
  lemma StoredWeight(entries: seq<Entry>, i: nat)
    requires Distinct(Accounts(entries)) && i < |entries|
    ensures entries[i].account in FrozenWeights(entries)
    ensures FrozenWeights(entries)[entries[i].account] ==
            NormalizedWeight(entries[i].stake, TotalStake(entries), |entries|)
  {
    InsertAllLast(Accounts(entries), WeightList(entries), i);
  }

  lemma SameFrozenWeights(entries: seq<Entry>, shuffled: seq<Entry>)
    requires multiset(entries) == multiset(shuffled) && Distinct(Accounts(entries))
    ensures FrozenWeights(entries) == FrozenWeights(shuffled)
  {
    ListsPermute(entries, shuffled);
    DistinctSurvives(Accounts(entries), Accounts(shuffled));
    InsertAllSum(Accounts(entries), WeightList(entries));
    InsertAllSum(Accounts(shuffled), WeightList(shuffled));
    forall a | a in FrozenWeights(entries) ensures FrozenWeights(entries)[a] == FrozenWeights(shuffled)[a] {
      assert a in Accounts(entries);
      var i :| 0 <= i < |entries| && Accounts(entries)[i] == a;
      assert entries[i] in multiset(shuffled);
      var k :| 0 <= k < |shuffled| && shuffled[k] == entries[i];
      StoredWeight(entries, i);
      StoredWeight(shuffled, k);
    }
  }

  /** Reordering a freeze list of distinct accounts changes neither weights, total nor set id. */
  lemma FreezeOrderIrrelevant(cfg: Config, s: State, entries: seq<Entry>, shuffled: seq<Entry>, now: u32)
    requires multiset(entries) == multiset(shuffled)
    requires GoodList(cfg, entries)
    ensures var t := Freeze(cfg, s, entries, now); var u := Freeze(cfg, s, shuffled, now);
            && t.weights == u.weights && t.totalWeight == u.totalWeight
            && t.validatorSetId == u.validatorSetId && t.setIdChangedAt == u.setIdChangedAt
            && multiset(t.previousSet) == multiset(u.previousSet)
  {
    ListsPermute(entries, shuffled);
    SameFrozenWeights(entries, shuffled);
    SortedCopiesAgree(Accounts(entries), Accounts(shuffled));
  }
}
