/**
  The finality gadget as a state machine: one state value for the pallet's storage, one function for
  each entry point, and runs of them. A dispatchable that fails rolls its storage back, so a failed
  call is a step that changes nothing.
*/
module Dvf {
  import opened Wrappers
  import opened Numeric
  import opened Sums
  import opened Sorting

  type AccountId = nat
  type Hash = nat
  type Signature = nat

  const VOTE_WEIGHT_SCALE: nat := 32_000
  const BILLION: int := 1_000_000_000

  /** The signed fields of a vote. */
  datatype Payload = Payload(
    epochId: u32,
    validatorSetId: u32,
    roundId: u32,
    blockNumber: u32,
    blockHash: Hash,
    validator: AccountId)

  datatype Vote = Vote(payload: Payload, signature: Signature)

  datatype Justification = Justification(roundNumber: u32, blockHash: Hash, votes: seq<Vote>)

  /** One line of the list handed to the weight freeze; the score is carried but never read. */
  datatype Entry = Entry(account: AccountId, stake: u128, score: u128)

  datatype Config = Config(
    verify: (Signature, Payload, AccountId) -> bool,
    thresholdParts: int,
    threshold: u128 -> u128,
    checkpointInterval: u32,
    voteRetentionRounds: u32,
    maxValidators: u32)
  {
    /**
      `threshold` is multiplication by a Perbill, in parts per billion. Nothing about its rounding is
      used beyond an error of less than one unit.
    */
    ghost predicate Valid() {
      && 0 <= thresholdParts <= BILLION
      && forall w: u128 {:trigger threshold(w)} :: RoundsProduct(w, threshold(w))
    }

    predicate RoundsProduct(w: u128, r: u128) {
      -BILLION < BILLION * r - thresholdParts * w < BILLION
    }
  }

  datatype Error =
    | BlockAlreadyFinalized
    | InvalidValidator
    | InvalidSignature
    | DoubleVote
    | NonCheckpointBlock
    | EmptyJustification
    | DuplicateValidator
    | ThresholdNotReached
    | RoundMismatch
    | BlockHashMismatch
    | ValidatorSetIdMismatch

  /** The event a finalisation emits. */
  datatype BlockFinalized = BlockFinalized(blockNumber: u32, blockHash: Hash, round: u32, weight: nat)

  datatype State = State(
    weights: map<AccountId, nat>,
    totalWeight: u128,
    currentRound: u32,
    finalizedNumber: u32,
    finalizedHash: Option<Hash>,
    records: map<(u32, AccountId), Vote>,
    tallies: map<Hash, nat>,
    validatorSetId: u32,
    previousSet: seq<AccountId>,
    setIdChangedAt: Option<u32>)

  const EMPTY_STATE := State(map[], 0, 0, 0, None, map[], map[], 0, [], None)

  /** A successful call: the new storage, and the finalisation it emitted if any. */
  datatype Applied = Applied(state: State, emitted: Option<BlockFinalized>)

  // ----- checkpoints and reporting

  predicate IsCheckpoint(cfg: Config, block: u32) {
    cfg.checkpointInterval != 0 && block % cfg.checkpointInterval == 0
  }

  datatype FinalityInfo = FinalityInfo(isFinalized: bool, checkpoint: Option<u32>, hash: Option<Hash>)

  function GetFinalityInfo(cfg: Config, s: State, block: u32): FinalityInfo {
    if block <= s.finalizedNumber then
      var checkpoint: u32 :=
        if cfg.checkpointInterval > 0 then
          DivisionBrackets(block, cfg.checkpointInterval);
          (block / cfg.checkpointInterval) * cfg.checkpointInterval
        else s.finalizedNumber;
      FinalityInfo(true, Some(checkpoint), s.finalizedHash)
    else
      FinalityInfo(false, None, None)
  }

  // ----- finalisation

  /** Records that survive the pruning done when `round` finalises. */
  function PrunedRecords(cfg: Config, records: map<(u32, AccountId), Vote>, round: u32): map<(u32, AccountId), Vote> {
    map k | k in records && round - cfg.voteRetentionRounds <= k.0 :: records[k]
  }

  function FinalizeBlock(cfg: Config, s: State, block: u32, hash: Hash, round: u32): State {
    s.(finalizedNumber := block,
       finalizedHash := Some(hash),
       currentRound := SaturatingAdd32(round, 1),
       records := PrunedRecords(cfg, s.records, round),
       tallies := s.tallies - {hash})
  }

  // ----- single votes

  function Voter(v: Vote): AccountId {
    v.payload.validator
  }

  function VoteError(cfg: Config, s: State, v: Vote): Option<Error> {
    if !cfg.verify(v.signature, v.payload, v.payload.validator) then Some(InvalidSignature)
    else if v.payload.validator !in s.weights then Some(InvalidValidator)
    else if !IsCheckpoint(cfg, v.payload.blockNumber) then Some(NonCheckpointBlock)
    else if v.payload.blockNumber <= s.finalizedNumber then Some(BlockAlreadyFinalized)
    else if (s.currentRound, v.payload.validator) in s.records then Some(DoubleVote)
    else None
  }

  /** The tally of a hash after one more vote of the given weight. */
  function NewTally(s: State, hash: Hash, weight: nat): nat {
    SaturatingAdd(At(s.tallies, hash), weight)
  }

  /** A vote counts exactly when it is signed, weighted, for a checkpoint above the head, and the voter's first in the round. */
  function SubmitVote(cfg: Config, s: State, v: Vote): (r: Result<Applied, Error>)
    ensures r.Success? <==>
            && cfg.verify(v.signature, v.payload, Voter(v))
            && Voter(v) in s.weights
            && IsCheckpoint(cfg, v.payload.blockNumber)
            && s.finalizedNumber < v.payload.blockNumber
            && (s.currentRound, Voter(v)) !in s.records
  {
    var error := VoteError(cfg, s, v);
    if error.Some? then Failure(error.value)
    else
      var p := v.payload;
      var tally := NewTally(s, p.blockHash, s.weights[p.validator]);
      var counted := s.(records := s.records[(s.currentRound, p.validator) := v],
                        tallies := s.tallies[p.blockHash := tally]);
      if tally >= cfg.threshold(s.totalWeight) then
        Success(Applied(FinalizeBlock(cfg, counted, p.blockNumber, p.blockHash, s.currentRound),
                        Some(BlockFinalized(p.blockNumber, p.blockHash, s.currentRound, tally))))
      else
        Success(Applied(counted, None))
  }

  // ----- justifications

  function Voters(votes: seq<Vote>): set<AccountId> {
    set v | v in votes :: Voter(v)
  }

  /** The first check that the `i`-th vote fails, given the votes before it. */
  function JustifiedVoteError(cfg: Config, s: State, j: Justification, i: nat): Option<Error>
    requires i < |j.votes|
  {
    var v := j.votes[i];
    if Voter(v) in Voters(j.votes[..i]) then Some(DuplicateValidator)
    else if !cfg.verify(v.signature, v.payload, v.payload.validator) then Some(InvalidSignature)
    else if v.payload.validatorSetId != j.votes[0].payload.validatorSetId then Some(ValidatorSetIdMismatch)
    else if v.payload.roundId != j.roundNumber then Some(RoundMismatch)
    else if v.payload.blockHash != j.blockHash then Some(BlockHashMismatch)
    else if v.payload.validator !in s.weights then Some(InvalidValidator)
    else None
  }

  /** The first error among the votes from the `i`-th on. */
  function FirstVoteError(cfg: Config, s: State, j: Justification, i: nat): Option<Error>
    requires i <= |j.votes|
    decreases |j.votes| - i
  {
    if i == |j.votes| then None
    else
      var error := JustifiedVoteError(cfg, s, j, i);
      if error.Some? then error else FirstVoteError(cfg, s, j, i + 1)
  }

  /** The weight each vote carries; a vote of an unweighted account carries none. */
  function VoteWeights(weights: map<AccountId, nat>, votes: seq<Vote>): (r: seq<nat>)
    ensures |r| == |votes|
  {
    seq(|votes|, i requires 0 <= i < |votes| => At(weights, Voter(votes[i])))
  }

  /** Accumulated weight: the exact sum, cut off at the width of the counter. */
  function AccumulatedWeight(s: State, votes: seq<Vote>): nat {
    Min(Sum(VoteWeights(s.weights, votes)), U128_MAX)
  }

  function JustificationError(cfg: Config, s: State, j: Justification): Option<Error> {
    if j.votes == [] then Some(EmptyJustification)
    else
      var block := j.votes[0].payload.blockNumber;
      if !IsCheckpoint(cfg, block) then Some(NonCheckpointBlock)
      else if block <= s.finalizedNumber then Some(BlockAlreadyFinalized)
      else
        var error := FirstVoteError(cfg, s, j, 0);
        if error.Some? then error
        else if AccumulatedWeight(s, j.votes) < cfg.threshold(s.totalWeight) then Some(ThresholdNotReached)
        else None
  }

  function SubmitJustification(cfg: Config, s: State, j: Justification): Result<Applied, Error> {
    var error := JustificationError(cfg, s, j);
    if error.Some? then Failure(error.value)
    else
      var block := j.votes[0].payload.blockNumber;
      Success(Applied(FinalizeBlock(cfg, s, block, j.blockHash, j.roundNumber),
                      Some(BlockFinalized(block, j.blockHash, j.roundNumber, AccumulatedWeight(s, j.votes)))))
  }

  // ----- freezing the weights of an epoch

  function Accounts(entries: seq<Entry>): (r: seq<AccountId>)
    ensures |r| == |entries|
  {
    seq(|entries|, i requires 0 <= i < |entries| => entries[i].account)
  }

  function Stakes(entries: seq<Entry>): (r: seq<nat>)
    ensures |r| == |entries|
  {
    seq(|entries|, i requires 0 <= i < |entries| => entries[i].stake)
  }

  /** The stake total: unchecked u128 addition, which wraps around. */
  function TotalStake(entries: seq<Entry>): u128 {
    Sum(Stakes(entries)) % U128_MODULUS
  }

  function NormalizedWeight(stake: nat, totalStake: nat, count: nat): nat {
    if totalStake > 0 then SaturatingMul(stake, VOTE_WEIGHT_SCALE) / totalStake
    else if count > 0 then VOTE_WEIGHT_SCALE / count
    else 0
  }

  function WeightList(entries: seq<Entry>): (r: seq<nat>)
    ensures |r| == |entries|
  {
    seq(|entries|, i requires 0 <= i < |entries| =>
      NormalizedWeight(entries[i].stake, TotalStake(entries), |entries|))
  }

  /** Insert `values[i]` at `keys[i]` in order, so that a repeated key keeps its last value. */
  function InsertAll(keys: seq<AccountId>, values: seq<nat>): map<AccountId, nat>
    requires |keys| == |values|
  {
    if keys == [] then map[]
    else
      var n := |keys| - 1;
      InsertAll(keys[..n], values[..n])[keys[n] := values[n]]
  }

  function FrozenWeights(entries: seq<Entry>): map<AccountId, nat> {
    InsertAll(Accounts(entries), WeightList(entries))
  }

  function FrozenTotal(entries: seq<Entry>): u128 {
    Min(Sum(WeightList(entries)), U128_MAX)
  }

  /** Change detection compares sorted copies. */
  predicate SetChanged(previous: seq<AccountId>, current: seq<AccountId>) {
    |previous| != |current| || Sort(previous, a => a) != Sort(current, a => a)
  }

  function Truncated(cfg: Config, accounts: seq<AccountId>): seq<AccountId> {
    if |accounts| <= cfg.maxValidators then accounts else accounts[..cfg.maxValidators]
  }

  function Freeze(cfg: Config, s: State, entries: seq<Entry>, now: u32): State {
    var accounts := Accounts(entries);
    var changed := SetChanged(s.previousSet, accounts);
    s.(validatorSetId := if changed then SaturatingAdd32(s.validatorSetId, 1) else s.validatorSetId,
       setIdChangedAt := if changed then Some(now) else s.setIdChangedAt,
       previousSet := Truncated(cfg, accounts),
       weights := FrozenWeights(entries),
       totalWeight := FrozenTotal(entries))
  }

  /** What the genesis build asserts of its list. */
  predicate GenesisEntries(entries: seq<Entry>) {
    entries != [] && forall e | e in entries :: e.stake > 0 && e.score <= 100
  }

  function Genesis(cfg: Config, entries: seq<Entry>): State {
    Freeze(cfg, EMPTY_STATE, entries, 0).(validatorSetId := 0)
  }

  // ----- runs

  datatype Event =
    | CastVote(vote: Vote)
    | Justify(justification: Justification)
    | FreezeWeights(entries: seq<Entry>, now: u32)

  function Apply(cfg: Config, s: State, e: Event): Result<Applied, Error> {
    match e
    case CastVote(v) => SubmitVote(cfg, s, v)
    case Justify(j) => SubmitJustification(cfg, s, j)
    case FreezeWeights(entries, now) => Success(Applied(Freeze(cfg, s, entries, now), None))
  }

  function Step(cfg: Config, s: State, e: Event): State {
    match Apply(cfg, s, e)
    case Success(a) => a.state
    case Failure(_) => s
  }

  function Emitted(cfg: Config, s: State, e: Event): Option<BlockFinalized> {
    match Apply(cfg, s, e)
    case Success(a) => a.emitted
    case Failure(_) => None
  }

  function Run(cfg: Config, s: State, es: seq<Event>): State {
    if es == [] then s
    else Step(cfg, Run(cfg, s, es[..|es| - 1]), es[|es| - 1])
  }

  /** The emission of the `i`-th event of a run. */
  function EmittedAt(cfg: Config, s: State, es: seq<Event>, i: nat): Option<BlockFinalized>
    requires i < |es|
  {
    Emitted(cfg, Run(cfg, s, es[..i]), es[i])
  }
}
