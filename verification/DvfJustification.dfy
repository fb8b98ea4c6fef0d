/** What the one-pass justification check accepts, said without the pass. */
module DvfJustification {
  import opened Wrappers
  import opened Numeric
  import opened Sums
  import opened Dvf

  function VoterList(votes: seq<Vote>): (r: seq<AccountId>)
    ensures |r| == |votes|
  {
    seq(|votes|, i requires 0 <= i < |votes| => Voter(votes[i]))
  }

  /** A vote that a justification may carry, judged on its own. */
  predicate GoodVote(cfg: Config, s: State, j: Justification, v: Vote) {
    && cfg.verify(v.signature, v.payload, Voter(v))
    && v.payload.roundId == j.roundNumber
    && v.payload.blockHash == j.blockHash
    && Voter(v) in s.weights
  }

  /** An acceptable justification: no mention of order, prefixes or counters. */
  ghost predicate Accepts(cfg: Config, s: State, j: Justification) {
    && j.votes != []
    && IsCheckpoint(cfg, j.votes[0].payload.blockNumber)
    && s.finalizedNumber < j.votes[0].payload.blockNumber
    && Distinct(VoterList(j.votes))
    && (forall v | v in j.votes :: GoodVote(cfg, s, j, v))
    && (forall v, w | v in j.votes && w in j.votes :: v.payload.validatorSetId == w.payload.validatorSetId)
    && cfg.threshold(s.totalWeight) <= SumOver(s.weights, Voters(j.votes))
  }

  lemma VotersAreListed(votes: seq<Vote>)
    ensures Elements(VoterList(votes)) == Voters(votes)
  {
    forall a | a in Voters(votes) ensures a in Elements(VoterList(votes)) {
      var v :| v in votes && Voter(v) == a;
      var i :| 0 <= i < |votes| && votes[i] == v;
      assert VoterList(votes)[i] == a;
    }
  }

  /** The `i`-th vote passes exactly when it is new, good on its own, and names the first vote's set. */
  lemma VotePasses(cfg: Config, s: State, j: Justification, i: nat)
    requires i < |j.votes|
    ensures JustifiedVoteError(cfg, s, j, i) == None <==>
            && (forall k | 0 <= k < i :: VoterList(j.votes)[k] != VoterList(j.votes)[i])
            && GoodVote(cfg, s, j, j.votes[i])
            && j.votes[i].payload.validatorSetId == j.votes[0].payload.validatorSetId
  {
    var seen := j.votes[..i];
    if Voter(j.votes[i]) in Voters(seen) {
      var v :| v in seen && Voter(v) == Voter(j.votes[i]);
      var k :| 0 <= k < i && seen[k] == v;
      assert VoterList(j.votes)[k] == VoterList(j.votes)[i];
    }
    if k :| 0 <= k < i && VoterList(j.votes)[k] == VoterList(j.votes)[i] {
      assert seen[k] in seen && Voter(seen[k]) == Voter(j.votes[i]);
    }
  }

  /** The pass meets no error from `i` on exactly when no vote from `i` on has one. */
  lemma {:induction false} NoErrorFrom(cfg: Config, s: State, j: Justification, i: nat)
    requires i <= |j.votes|
    ensures FirstVoteError(cfg, s, j, i) == None <==>
            forall k | i <= k < |j.votes| :: JustifiedVoteError(cfg, s, j, k) == None
    decreases |j.votes| - i
  {
    if i < |j.votes| {
      NoErrorFrom(cfg, s, j, i + 1);
    }
  }

  lemma VotesPassIff(cfg: Config, s: State, j: Justification)
    requires j.votes != []
    ensures FirstVoteError(cfg, s, j, 0) == None <==>
            && Distinct(VoterList(j.votes))
            && (forall v | v in j.votes :: GoodVote(cfg, s, j, v))
            && (forall v, w | v in j.votes && w in j.votes :: v.payload.validatorSetId == w.payload.validatorSetId)
  {
    NoErrorFrom(cfg, s, j, 0);
    forall i | 0 <= i < |j.votes|
      ensures JustifiedVoteError(cfg, s, j, i) == None <==>
              && (forall k | 0 <= k < i :: VoterList(j.votes)[k] != VoterList(j.votes)[i])
              && GoodVote(cfg, s, j, j.votes[i])
              && j.votes[i].payload.validatorSetId == j.votes[0].payload.validatorSetId
    {
      VotePasses(cfg, s, j, i);
    }
  }

  /** The weight summed vote by vote is the weight of the set of voters. */
  lemma AccumulatedIsExact(s: State, votes: seq<Vote>)
    requires Distinct(VoterList(votes))
    ensures Sum(VoteWeights(s.weights, votes)) == SumOver(s.weights, Voters(votes))
  {
    SumOfDistinct(s.weights, VoterList(votes));
    VotersAreListed(votes);
    var ks := VoterList(votes);
    assert VoteWeights(s.weights, votes) == seq(|ks|, i requires 0 <= i < |ks| => At(s.weights, ks[i]));
  }

  /** The loop accepts exactly the acceptable justifications, and then reports their exact weight up to the counter's width. */
  lemma JustificationAcceptedIff(cfg: Config, s: State, j: Justification)
    ensures SubmitJustification(cfg, s, j).Success? <==> Accepts(cfg, s, j)
    ensures Accepts(cfg, s, j) ==>
              SubmitJustification(cfg, s, j).value.emitted ==
              Some(BlockFinalized(j.votes[0].payload.blockNumber, j.blockHash, j.roundNumber,
                                  Min(SumOver(s.weights, Voters(j.votes)), U128_MAX)))
  {
    if j.votes != [] {
      VotesPassIff(cfg, s, j);
      if Distinct(VoterList(j.votes)) {
        AccumulatedIsExact(s, j.votes);
      }
    }
  }

  /** The frozen weights together do not exceed the frozen total. */
  ghost predicate WeightsCovered(s: State) {
    SumOver(s.weights, s.weights.Keys) <= s.totalWeight
  }

  /** While the pass meets distinct voters its saturating counter is exact, and stays within the total. */
  lemma CounterNeverSaturates(s: State, votes: seq<Vote>, i: nat)
    requires WeightsCovered(s) && Distinct(VoterList(votes)) && i <= |votes|
    requires forall v | v in votes :: Voter(v) in s.weights
    ensures AccumulatedWeight(s, votes[..i]) == SumOver(s.weights, Voters(votes[..i])) <= s.totalWeight
  {
    var seen := votes[..i];
    assert forall k | 0 <= k < i :: VoterList(seen)[k] == VoterList(votes)[k];
    AccumulatedIsExact(s, seen);
    SumOverSubset(s.weights, Voters(seen), s.weights.Keys);
  }

  // ----- independence of the order of votes

  lemma SameVotes(xs: seq<Vote>, ys: seq<Vote>)
    requires multiset(xs) == multiset(ys)
    ensures |xs| == |ys|
    ensures forall v :: v in xs <==> v in ys
    ensures Voters(xs) == Voters(ys)
    ensures Distinct(VoterList(xs)) <==> Distinct(VoterList(ys))
  {
    assert |multiset(xs)| == |xs| && |multiset(ys)| == |ys|;
    forall v ensures v in xs <==> v in ys {
      assert v in multiset(xs) <==> v in multiset(ys);
    }
    VotersAreListed(xs);
    VotersAreListed(ys);
    DistinctByCount(VoterList(xs));
    DistinctByCount(VoterList(ys));
  }

  /** When all votes name one block, neither the verdict nor the resulting state depends on their order. */
  lemma VoteOrderIrrelevant(cfg: Config, s: State, j: Justification, k: Justification)
    requires j.roundNumber == k.roundNumber && j.blockHash == k.blockHash
    requires multiset(j.votes) == multiset(k.votes)
    requires forall v, w | v in j.votes && w in j.votes :: v.payload.blockNumber == w.payload.blockNumber
    ensures SubmitJustification(cfg, s, j).Success? <==> SubmitJustification(cfg, s, k).Success?
    ensures Step(cfg, s, Justify(j)) == Step(cfg, s, Justify(k))
    ensures Emitted(cfg, s, Justify(j)) == Emitted(cfg, s, Justify(k))
  {
    SameVotes(j.votes, k.votes);
    JustificationAcceptedIff(cfg, s, j);
    JustificationAcceptedIff(cfg, s, k);
    if j.votes != [] {
      assert j.votes[0] in j.votes && k.votes[0] in j.votes;
      assert Accepts(cfg, s, j) <==> Accepts(cfg, s, k);
    }
  }

  /**
    Only the first vote's block number is read, so reordering the votes of an accepted justification
    keeps its effect exactly when the new first vote names the same block.
  */
  lemma OrderMattersThroughFirstBlock(cfg: Config, s: State, j: Justification, k: Justification)
    requires j.roundNumber == k.roundNumber && j.blockHash == k.blockHash
    requires multiset(j.votes) == multiset(k.votes)
    requires SubmitJustification(cfg, s, j).Success?
    ensures |k.votes| == |j.votes| > 0
    ensures Step(cfg, s, Justify(j)) == Step(cfg, s, Justify(k)) <==>
            j.votes[0].payload.blockNumber == k.votes[0].payload.blockNumber
  {
    SameVotes(j.votes, k.votes);
    JustificationAcceptedIff(cfg, s, j);
    JustificationAcceptedIff(cfg, s, k);
    if j.votes[0].payload.blockNumber == k.votes[0].payload.blockNumber {
      assert Accepts(cfg, s, k);
    }
  }
}
