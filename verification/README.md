# Verification of the Cerulea consensus and economic core

A Dafny model of five parts of the Cerulea node, with proofs about them. `dafny verify dfyconfig.toml`
checks everything.

- **The finality gadget (DVF).** Stakes are frozen into integer voting weights on a scale of 32000. Votes
  come one by one, recorded per round and tallied per hash, or together in a justification. Whatever
  reaches the threshold finalises a checkpoint, opens the next round and prunes old records.
- **The validator registry.** Joining with a reserved stake, leaving after a cooldown, withdrawing the
  request, expiry in the hook of each block, performance ejection, and the cooldown before re-entry.
- **Rewards and slashes of an epoch.** Capped ledgers, batches, and the distribution of three reward pools
  by score.
- **The bounded slasher.** Per-epoch caps and a percentage limit, whose refusals recommend an amount.
- **Two small algorithms.** The sliding-window rate limiter of the RPC layer, and the nesting scan and
  block-indexed event store of the EVM compatibility layer.

## Form

Every stateful part comes three times. A specification module (`Dvf`, `Registry`, `Rewards`,
`EconomicBounds`) gives storage as one value, each entry point as a function on it, and runs as sequences of
events. A pallet module (`DvfPallet`, `RegistryPallet`, `RewardsPallet`, `EconomicPallet`) is the imperative
counterpart: a class whose methods update fields and run the loops the program runs, each with a
postcondition that equates the whole new storage with the specification's. The other modules prove what holds
of the specification, over every input or every run; `DvfEffects`, `RegistryEffects`, `RewardsEffects`,
`RewardsRanking` and `EconomicEffects` say what each call answers and leaves behind. `RateLimiter` and `EvmEvents` hold all three in one file.
`Sums` and `Sorting` provide sums over maps and sets and a stable sort; `Numeric` the integer widths.

A dispatchable that fails rolls its storage back, so a failed call is a step that changes nothing. Integer
widths matter where the program saturates, checks, wraps or casts, and are written out there. Multiplication by
a `Perbill` is any function within less than one unit of the exact product, so that nothing depends on how
ties are rounded.

## Where the code does not do what one might expect

Each difference but the last two is proved with the exact condition for it and with an input that meets it.

- Tallies are keyed by hash alone and survive rounds, so one validator can count twice towards a hash
  (`DvfLimits.TallyOutlivesRounds`). `DvfSafety.MatchKeptIff` and `DvfSafety.MatchAtOpeningIff` say when each
  recorded validator counts once: exactly when the round opened without tallies. `DvfSafety.OpenedRoundAccount`
  is the account of a round that did not, and `DvfSafety.TallyIsLedger` says what a tally holds.
- A justification may name any round, so a round whose records were pruned can be reopened
  (`DvfLimits.ReopenedRoundAllowsDoubleVote`). `DvfRuns.SecondBallotRefusedIff` says exactly when the
  double-vote check is disarmed, and `DvfRuns.NoDoubleVote` that runs with forward rounds never see it.
- Only the first vote's block number is looked at (`DvfJustification.OrderMattersThroughFirstBlock`,
  `DvfLimits.FirstBlockDecides`).
- An account listed twice counts twice in the total but keeps one weight (`DvfWeights.TotalCoversWeights`,
  `DvfLimits.RepeatedAccountOutweighed`).
- A list longer than the bounded storage changes the set id each time (`DvfRuns.RefreezeKeepsIdIff`,
  `DvfLimits.LongListChangesEachTime`).
- The documentation of the finality report (`cerulea-pallets/pallet-cerulea-dvf/src/lib.rs:59-64`) speaks of
  the hash of the providing checkpoint; the code returns the hash of the head (`DvfRuns.ReportedHashIff`,
  `DvfLimits.ReportNamesLaterHash`).
- A share of zero is replaced by the default reward. That may exceed the pools (`RewardsDistribution.DistributionTotal`,
  `RewardsLimits.DefaultsExceedPools`) and pay a higher score less (`RewardsDistribution.HigherScoreNotPaidLess`,
  `RewardsLimits.HighScorePaidLess`).
- A request above the reserve can pass the percentage check, which an empty reserve skips and a limit of the
  full 100% rounds down, and fail the balance check, which recommends nothing (`EconomicAdvice.FollowingAdviceEnds`,
  `EconomicAdvice.FullPercentageSlips`).
- The default total cap shrinks with the reserves, and once the running total has outgrown it every amount is
  refused (`EconomicRuns.EpochLockedIff`, `EconomicRuns.OneSlashLocks`).
- The cooldown error of a withdrawal never occurs (`RegistryInvariants.PendingRequestsCanBeWithdrawn`).
- The unit tests of the gadget (`cerulea-pallets/pallet-cerulea-dvf/src/tests.rs:658-661`) expect weights
  made of stake and score. The code normalises stakes and never reads the score, and the model follows the code.


## Model

| member | source | states |
|---|---|---|
| `DvfSafety.AccountableSafety` | cerulea-pallets/pallet-cerulea-dvf/src/lib.rs:889-943 | With weights frozen by one list and the 67% threshold, the validators who signed both of two accepted justifications hold more than a third of the total frozen weight, and each of them has a valid signature in both, for the respective hash |
| `DvfSafety.AccountableSafetyOverRuns` | cerulea-pallets/pallet-cerulea-dvf/src/lib.rs:865-982 | The same for two justifications that finalise at any two points of a run without a freeze in between |
| `DvfSafety.AcceptedOverlap` | cerulea-pallets/pallet-cerulea-dvf/src/lib.rs:934-943 | For any threshold and any rounding with error below one unit: a lower bound on the weight two accepted justifications share |
| `DvfSafety.QuorumOverlap` | cerulea-pallets/pallet-cerulea-dvf/src/lib.rs:937-943 | Two voter sets that each reach the quorum share at least twice the quorum less the total |
| `DvfSafety.SharedVotersSignedBoth` | cerulea-pallets/pallet-cerulea-dvf/src/lib.rs:893-932 | A voter common to two accepted justifications has a verifying signature in each |
| `DvfSafety.OneWinner` | cerulea-pallets/pallet-cerulea-dvf/src/lib.rs:520-544 | In a round that begins without tallies and records, the winning weight and all remaining tallies together stay within the total, so all losing hashes together stay below the threshold |
| `DvfSafety.OneWinnerAfterFreeze` | cerulea-pallets/pallet-cerulea-dvf/src/lib.rs:842-860 | The majority and coverage that one-winner needs follow from a freeze of at most 31701 entries at the 67% threshold |
| `DvfSafety.FreezeMakesMajority` | cerulea-runtime/src/lib.rs:330 | After a freeze at 67%, floor rounding included, the threshold exceeds half of the total weight |
| `DvfSafety.RoundBalance` | cerulea-pallets/pallet-cerulea-dvf/src/lib.rs:531-544 | Whatever a round begins with, over any run in it that neither freezes nor finalises, the tallies grow by exactly the weight of the validators newly recorded, each once |
| `DvfSafety.MatchKeptIff` | cerulea-pallets/pallet-cerulea-dvf/src/lib.rs:531-544 | The tallies sum to the weight of the recorded validators later in a round exactly when they did before |
| `DvfSafety.MatchAtOpeningIff` | cerulea-pallets/pallet-cerulea-dvf/src/lib.rs:536-537 | When a round opens without records, they do exactly when no tally has been carried over |
| `DvfSafety.RoundAccount` | cerulea-pallets/pallet-cerulea-dvf/src/lib.rs:520-544 | When a vote ends a round, winner and losers together hold what the tallies held at its start and the weight of the voters since; they hold just the voters' weight exactly when tallies and records matched at the start |
| `DvfSafety.OpenedRoundAccount` | cerulea-pallets/pallet-cerulea-dvf/src/lib.rs:520-544 | For a round just opened: each voter counts once exactly when nothing is carried over; winner and losers stay within the total, and the losers below the threshold, exactly when the carried tallies fit beside the voters |
| `DvfSafety.OneWinnerCarried` | cerulea-pallets/pallet-cerulea-dvf/src/lib.rs:520-544 | With carried tallies that, together with the total, stay below twice the threshold, the losers of a round stay together below the threshold |
| `DvfSafety.RoundTallies` | cerulea-pallets/pallet-cerulea-dvf/src/lib.rs:531-544 | Over any such run of a round that begins fresh, the tallies of all hashes sum to exactly the weight of the validators recorded, and never exceed the total |
| `DvfSafety.CountedVote` | cerulea-pallets/pallet-cerulea-dvf/src/lib.rs:534-537 | An accepted vote for which the counter has room is tallied exactly, and adds the same weight to the sum of the tallies and to the recorded voters |
| `DvfSafety.QuietStep` | cerulea-pallets/pallet-cerulea-dvf/src/lib.rs:500-547 | Any single event that neither freezes nor finalises counts at most one new voter, once |
| `DvfSafety.TallyIsLedger` | cerulea-pallets/pallet-cerulea-dvf/src/lib.rs:536-543 | Over every run, with freezes, rounds, justifications and pruning, a hash's tally is the sum of the weights at acceptance of all votes for it since it was last finalised, cut off once at 2^128-1 |
| `DvfSafety.TallyStep` | cerulea-pallets/pallet-cerulea-dvf/src/lib.rs:980-981 | Each event clears a hash's tally, adds the voter's weight to it, or leaves it: nothing else changes it |
| `DvfSafety.TallyIsReplayed` | cerulea-pallets/pallet-cerulea-dvf/src/lib.rs:536-537 | A tally is the step-by-step replay of its history |
| `DvfSafety.ReplayIsLedger` | cerulea-pallets/pallet-cerulea-dvf/src/lib.rs:536 | Saturating at every addition equals saturating the exact sum once |
| `DvfSafety.TalliesStayBelowThreshold` | cerulea-pallets/pallet-cerulea-dvf/src/lib.rs:539-544 | Between freezes, tallies that begin below a positive threshold stay strictly below it |
| `DvfSafety.WeightsKept` | cerulea-pallets/pallet-cerulea-dvf/src/lib.rs:842-860 | Only a freeze changes weights or their total |
| `DvfJustification.JustificationAcceptedIff` | cerulea-pallets/pallet-cerulea-dvf/src/lib.rs:865-959 | The loop accepts exactly the justifications that are non-empty, name an unfinalised checkpoint first, have distinct weighted signers with valid signatures, one set id, matching rounds and hashes, and whose exact weight meets the threshold; the emitted weight is that weight |
| `DvfJustification.VotesPassIff` | cerulea-pallets/pallet-cerulea-dvf/src/lib.rs:893-935 | The pass over the votes meets no error exactly when the order-free conditions on the votes hold |
| `DvfJustification.AccumulatedIsExact` | cerulea-pallets/pallet-cerulea-dvf/src/lib.rs:934 | Summing vote by vote gives the weight of the set of voters |
| `DvfJustification.CounterNeverSaturates` | cerulea-pallets/pallet-cerulea-dvf/src/lib.rs:934 | With covered weights the saturating counter is exact after every prefix and within the total |
| `DvfJustification.VoteOrderIrrelevant` | cerulea-pallets/pallet-cerulea-dvf/src/lib.rs:889-943 | When all votes name one block, permuting them changes neither verdict, nor new state, nor emission |
| `DvfJustification.OrderMattersThroughFirstBlock` | cerulea-pallets/pallet-cerulea-dvf/src/lib.rs:876-887 | Permuting an accepted justification leads to the same state exactly when the first vote names the same block |
| `DvfWeights.TotalWeightBounds` | cerulea-pallets/pallet-cerulea-dvf/src/lib.rs:842-860 | For n entries without overflow, 32000-(n-1) <= total <= 32000, also when all stakes are zero, and the total is the sum of the weights computed |
| `DvfWeights.TotalCoversWeights` | cerulea-pallets/pallet-cerulea-dvf/src/lib.rs:849-858 | The stored weights never sum to more than the stored total, and sum to exactly it if and only if every overwritten entry weighs zero |
| `DvfWeights.DistinctEntries` | cerulea-pallets/pallet-cerulea-dvf/src/lib.rs:849-860 | For distinct accounts the stored map holds exactly these accounts, each its own weight, and sums to the total |
| `DvfWeights.WeightIsFlooredShare` | cerulea-pallets/pallet-cerulea-dvf/src/lib.rs:850-852 | A weight is the exact share of 32000 rounded down, less than one unit short |
| `DvfWeights.WeightInEveryCase` | cerulea-pallets/pallet-cerulea-dvf/src/lib.rs:849-854 | A weight in every case, saturated products, a wrapped total and zero stake included |
| `DvfWeights.WeightMonotone` | cerulea-pallets/pallet-cerulea-dvf/src/lib.rs:849-854 | A larger stake never gets a smaller weight |
| `DvfWeights.FlooredSum` | cerulea-pallets/pallet-cerulea-dvf/src/lib.rs:846-858 | Floored shares of n parts lose together less than n units |
| `DvfRuns.FinalityMonotone` | cerulea-pallets/pallet-cerulea-dvf/src/lib.rs:961-968 | Over every run the finalised number stays a multiple of the interval and has risen by at least interval times the number of finalisations |
| `DvfRuns.FinalizationAdvances` | cerulea-pallets/pallet-cerulea-dvf/src/lib.rs:523-529 | By either path a finalisation is at a checkpoint strictly above the head, which it becomes; without one the head stays |
| `DvfRuns.AlignedStep` | cerulea-pallets/pallet-cerulea-dvf/src/lib.rs:878-887 | One event keeps alignment and moves the head by at least an interval if it finalises |
| `DvfRuns.ReportedFinalityIsStable` | cerulea-pallets/pallet-cerulea-dvf/src/lib.rs:781-804 | A block at or below the head is reported final, now and after every later run, under the same checkpoint c with c <= block < c + interval |
| `DvfEffects.ReportedFinalIff` | cerulea-pallets/pallet-cerulea-dvf/src/lib.rs:781-804 | Over every run from genesis a block is reported final exactly when it is block 0 or an event of the run finalised it or a later one; a report that is not final carries neither checkpoint nor hash |
| `DvfEffects.HeadReachesIff` | cerulea-pallets/pallet-cerulea-dvf/src/lib.rs:961-968 | A head has reached a block exactly when it began there or some emission is at or above it |
| `DvfEffects.CheckpointIff` | cerulea-pallets/pallet-cerulea-dvf/src/lib.rs:766-772 | Checkpoints are exactly the multiples of a positive interval |
| `DvfEffects.RoundFollowsEmission` | cerulea-pallets/pallet-cerulea-dvf/src/lib.rs:970-971 | A finalisation by either path sets the round to the one after the round it was decided in, the current one for a vote and the named one for a justification; nothing else moves it |
| `DvfEffects.NextRoundIsOpen` | cerulea-pallets/pallet-cerulea-dvf/src/lib.rs:531-544 | After a vote has finalised a block in a run of forward rounds, any next vote is accepted exactly when it is signed, weighted and for a checkpoint above that block, also from a validator recorded in the round that ended |
| `DvfEffects.VoteFinalizesIff` | cerulea-pallets/pallet-cerulea-dvf/src/lib.rs:536-544 | An accepted vote finalises its block and hash in the current round exactly when the tally with its weight reaches the threshold |
| `DvfEffects.RecordsAfter` | cerulea-pallets/pallet-cerulea-dvf/src/lib.rs:534-535 | Which records each event leaves, and what they hold: the accepted vote is added, those beyond the retention go at a finalisation, the others stay as they are |
| `DvfEffects.VoteRefusedWith` | cerulea-pallets/pallet-cerulea-dvf/src/lib.rs:515-532 | Which error a vote is refused with |
| `DvfEffects.FaultDecides` | cerulea-pallets/pallet-cerulea-dvf/src/lib.rs:893-943 | Past the checks of the block, the first faulty vote and its first fault decide the error of a justification; without one only a weight below the threshold does |
| `DvfEffects.JustificationRefusedWith` | cerulea-pallets/pallet-cerulea-dvf/src/lib.rs:874-887 | Which errors the checks of the block give |
| `DvfEffects.GenesisStorage` | cerulea-pallets/pallet-cerulea-dvf/src/lib.rs:380-414 | The initial round, head, records and tallies, the id and the change block, and the stored prefix of the list |
| `DvfRuns.FreezeStores` | cerulea-pallets/pallet-cerulea-dvf/src/lib.rs:820-840 | For any list: the prefix that is stored, and that id and change block move exactly when the accounts differ in number or multiplicity |
| `DvfRuns.ReportedHashIff` | cerulea-pallets/pallet-cerulea-dvf/src/lib.rs:781-804 | Over every run from genesis, the hash in a report is the one the head was finalised with; it is the one the reported checkpoint was finalised with exactly when the block is the head or both hashes are the same; for a checkpoint never finalised there is no hash in the report exactly when nothing was finalised |
| `DvfRuns.EmittedHashIff` | cerulea-pallets/pallet-cerulea-dvf/src/lib.rs:961-978 | A block is finalised at most once in a run, and its hash is that of the one event emitted for it |
| `DvfRuns.HeadHashIsEmitted` | cerulea-pallets/pallet-cerulea-dvf/src/lib.rs:967-968 | The stored hash is the one with which the head was finalised |
| `DvfRuns.ReportedHashBelongsToHead` | cerulea-pallets/pallet-cerulea-dvf/src/lib.rs:792-796 | The reported hash is the stored one, and the reported checkpoint is the head exactly when the queried block is |
| `DvfRuns.RetentionWindow` | cerulea-pallets/pallet-cerulea-dvf/src/lib.rs:984-994 | In runs whose justifications name no earlier round, the round never falls and all records lie in the retained window |
| `DvfRuns.WindowStep` | cerulea-pallets/pallet-cerulea-dvf/src/lib.rs:961-994 | One event keeps the window, and a newly opened round has no records |
| `DvfRuns.NoDoubleVote` | cerulea-pallets/pallet-cerulea-dvf/src/lib.rs:531-534 | In such runs no validator's single vote is accepted twice in one round |
| `DvfRuns.RecordKeptIff` | cerulea-pallets/pallet-cerulea-dvf/src/lib.rs:980-994 | In every run, a recorded ballot that is not cast anew is still on record exactly when no round beyond its retention was finalised |
| `DvfRuns.SecondBallotRefusedIff` | cerulea-pallets/pallet-cerulea-dvf/src/lib.rs:531-532 | Whatever rounds justifications name, a second ballot in a round, otherwise in order, is refused as a double vote exactly when no round beyond the retention was finalised in between, and is accepted otherwise |
| `DvfRuns.RoundFallsIff` | cerulea-pallets/pallet-cerulea-dvf/src/lib.rs:945-971 | An accepted justification takes the round back exactly when it names a round at least two before the current one |
| `DvfRuns.SetIdFromGenesis` | cerulea-pallets/pallet-cerulea-dvf/src/lib.rs:406-408 | From genesis the set id is the number of freezes whose set of accounts differs from that of the freeze before, saturating at u32 |
| `DvfRuns.SetIdCountsChanges` | cerulea-pallets/pallet-cerulea-dvf/src/lib.rs:806-840 | The same from any state |
| `DvfRuns.SetIdStep` | cerulea-pallets/pallet-cerulea-dvf/src/lib.rs:820-829 | A freeze steps the id and stamps the change block exactly when the set of accounts differs |
| `DvfRuns.SetChangedIff` | cerulea-pallets/pallet-cerulea-dvf/src/lib.rs:810-818 | Comparing sorted copies of duplicate-free lists decides equality of the sets |
| `DvfRuns.FreezeOrderIrrelevant` | cerulea-pallets/pallet-cerulea-dvf/src/lib.rs:806-862 | Permuting a list of distinct accounts changes neither weights, total, set id nor change block |
| `DvfRuns.RefreezeKeepsIdIff` | cerulea-pallets/pallet-cerulea-dvf/src/lib.rs:831-840 | Freezing the same list again keeps the id exactly when the list fits the bounded storage, or the counter is at its end |
| `DvfRuns.SameFrozenWeights` | cerulea-pallets/pallet-cerulea-dvf/src/lib.rs:849-858 | The weight map does not depend on the order of distinct entries |
| `DvfRuns.StoredWeight` | cerulea-pallets/pallet-cerulea-dvf/src/lib.rs:856 | Each distinct account is stored with its own normalised weight |
| `DvfLimits.TallyOutlivesRounds` | cerulea-pallets/pallet-cerulea-dvf/src/lib.rs:536-543 | A run from genesis with forward rounds in which a validator with half of the weight finalises a block alone: its votes of two rounds add up in one tally |
| `DvfLimits.ReopenedRoundAllowsDoubleVote` | cerulea-pallets/pallet-cerulea-dvf/src/lib.rs:961-994 | A run from genesis in which justifications open round 1, prune the vote cast in it and reopen it, and a second vote of the same validator in that round is accepted |
| `DvfLimits.ReportNamesLaterHash` | cerulea-pallets/pallet-cerulea-dvf/src/lib.rs:781-804 | Runs from genesis whose report for block 15 names checkpoint 10 with the hash of block 20: once with another hash finalised for 10, once with none |
| `DvfLimits.FirstBlockDecides` | cerulea-pallets/pallet-cerulea-dvf/src/lib.rs:876-887 | Two votes for one hash that name different blocks finalise whichever is named first |
| `DvfLimits.RepeatedAccountOutweighed` | cerulea-pallets/pallet-cerulea-dvf/src/lib.rs:849-858 | An account listed twice keeps half of the total that was counted for it |
| `DvfLimits.LongListChangesEachTime` | cerulea-pallets/pallet-cerulea-dvf/src/lib.rs:831-840 | A list longer than the bounded storage steps the set id at every freeze |
| `DvfLimits.ConfigIsValid` | cerulea-runtime/src/lib.rs:330 | The concrete threshold and intervals of these runs satisfy the assumptions on a configuration |
| `Dvf.SubmitVote` | cerulea-pallets/pallet-cerulea-dvf/src/lib.rs:500-547 | A vote is accepted exactly when it is validly signed, weighted, for a checkpoint above the head, and the first record of the voter in the current round |
| `DvfPallet.Pallet.constructor` | cerulea-pallets/pallet-cerulea-dvf/src/lib.rs:380-414 | Genesis storage: the weights of the initial list and set id zero |
| `DvfPallet.Pallet.FreezeEpochWeights` | cerulea-pallets/pallet-cerulea-dvf/src/lib.rs:806-862 | The in-place freeze leaves the storage that the specification gives, in every field |
| `DvfPallet.Pallet.AssignWeights` | cerulea-pallets/pallet-cerulea-dvf/src/lib.rs:844-860 | The assigning loop builds the specified map, last entry winning, and the specified total |
| `DvfPallet.Pallet.SumStakes` | cerulea-pallets/pallet-cerulea-dvf/src/lib.rs:846 | The summing loop gives the stake total with its wrap-around |
| `DvfPallet.Pallet.SubmitDvfVote` | cerulea-pallets/pallet-cerulea-dvf/src/lib.rs:500-547 | Same verdict, error, emission and storage as the specification; an error leaves the storage as it was |
| `DvfPallet.Pallet.VerifyAndFinalizeJustification` | cerulea-pallets/pallet-cerulea-dvf/src/lib.rs:865-959 | Same verdict, error, emission and storage as the specification; an error leaves the storage as it was |
| `DvfPallet.Pallet.AccumulateVotes` | cerulea-pallets/pallet-cerulea-dvf/src/lib.rs:889-935 | The one loop with its set of seen validators returns the first error in vote order, or the accumulated weight |
| `DvfPallet.Pallet.FinalizeBlock` | cerulea-pallets/pallet-cerulea-dvf/src/lib.rs:961-982 | New head, next round, pruned records, and the finalised tally removed |
| `DvfPallet.Pallet.PruneVoteRecords` | cerulea-pallets/pallet-cerulea-dvf/src/lib.rs:984-994 | Round by round removal leaves exactly the records that are not older than the retention |
| `Registry.Join` | cerulea-pallets/pallet-cerulea-dvf/src/lib.rs:620-690 | Joining succeeds exactly with enough free balance and a granted reserve, outside the set and without pending request, after the cooldown, and with room in the set |
| `RegistryEffects.JoinEffect` | cerulea-pallets/pallet-cerulea-dvf/src/lib.rs:641-683 | A successful join appends the account to the set, moves exactly the minimum stake from free to reserved, makes it the stake, registers the account, deletes its removal entry and keeps or creates its profile; nobody else and no active list is touched |
| `RegistryEffects.JoinRefusedWith` | cerulea-pallets/pallet-cerulea-dvf/src/lib.rs:628-650 | Which error a join is refused with |
| `RegistryEffects.LeaveEffect` | cerulea-pallets/pallet-cerulea-dvf/src/lib.rs:695-722 | A leave request is dated with the block and only deactivates; otherwise which error |
| `RegistryEffects.LeaveKeepsOrder` | cerulea-pallets/pallet-cerulea-dvf/src/lib.rs:710-714 | The active list loses that account and keeps its order |
| `RegistryEffects.CancelEffect` | cerulea-pallets/pallet-cerulea-dvf/src/lib.rs:728-760 | A withdrawal succeeds exactly within the cooldown, deletes the request and reactivates a member if there is room; otherwise which error |
| `RegistryEffects.IncreaseEffect` | cerulea-pallets/pallet-cerulea-pos/src/lib.rs:514-551 | An increase moves exactly the amount from free to reserved and onto the stake; otherwise which error |
| `RegistryEffects.EjectEffect` | cerulea-pallets/pallet-cerulea-dvf/src/lib.rs:1111-1119 | An ejection shortens the active list by that account and changes nothing else |
| `RegistryEffects.LeftEffect` | cerulea-pallets/pallet-cerulea-dvf/src/lib.rs:1240-1260 | The notification clears membership and request, stamps the removal and leaves the money |
| `RegistryEffects.ForceEjectEffect` | cerulea-pallets/pallet-cerulea-pos/src/lib.rs:1016-1035 | A forced ejection also returns the reserved stake and deletes stake and registration |
| `RegistryEffects.RemovalKeepsOrder` | cerulea-pallets/pallet-cerulea-dvf/src/lib.rs:1241-1251 | Both keep the order of the lists |
| `RegistryEffects.SetActiveEffect` | cerulea-pallets/pallet-cerulea-dvf/src/lib.rs:1457-1459 | The active list becomes as much of the given one as fits |
| `RegistryEffects.HookEffect` | cerulea-pallets/pallet-cerulea-dvf/src/lib.rs:483-492 | What the hook makes of every account: lists, entries, stake and balances, with exactly the expired leaving and exactly the failing active validators ejected in a checking block |
| `RegistryEffects.HookMembers` | cerulea-pallets/pallet-cerulea-dvf/src/lib.rs:1030-1109 | Its lists and entries |
| `RegistryEffects.HookBalances` | cerulea-pallets/pallet-cerulea-dvf/src/lib.rs:1058-1081 | Its stake and balances |
| `RegistryEffects.HookKeepsOrder` | cerulea-pallets/pallet-cerulea-dvf/src/lib.rs:1064-1074 | The lists keep their order in the hook |
| `RegistryInvariants.InvHoldsOverRuns` | cerulea-pallets/pallet-cerulea-dvf/src/lib.rs:620-761 | Over every run: set and active list duplicate-free and bounded, active within the set, pending leavers in the set and not active, recently removed accounts outside the set |
| `RegistryInvariants.StepKeepsInv` | cerulea-pallets/pallet-cerulea-dvf/src/lib.rs:483-492 | Every event, the hook of a block included, keeps that invariant |
| `RegistryInvariants.HookKeepsInv` | cerulea-pallets/pallet-cerulea-dvf/src/lib.rs:1047-1109 | The hook keeps it, and in a checking block leaves no underperformer active |
| `RegistryInvariants.CallKeepsInv` | cerulea-pallets/pallet-cerulea-dvf/src/lib.rs:620-761 | Every call within a block keeps it |
| `RegistryInvariants.SweepLeavesPerformers` | cerulea-pallets/pallet-cerulea-dvf/src/lib.rs:1087-1109 | After a checking block no active validator with a recorded state is below the minimum score or idle too long |
| `RegistryInvariants.HookFields` | cerulea-pallets/pallet-cerulea-dvf/src/lib.rs:483-492 | How the hook changes each collection, in terms of the due requests and the swept validators |
| `RegistryInvariants.YoungOverRuns` | cerulea-pallets/pallet-cerulea-dvf/src/lib.rs:1030-1085 | Over every run with one hook per block all pending requests and removal entries are younger than the cooldown |
| `RegistryInvariants.HookKeepsYoung` | cerulea-pallets/pallet-cerulea-dvf/src/lib.rs:1030-1085 | A request is due in a block exactly when the block is request plus cooldown |
| `RegistryInvariants.StepKeepsYoung` | cerulea-pallets/pallet-cerulea-dvf/src/lib.rs:695-761 | Every event keeps requests and removals young |
| `RegistryInvariants.LeaveAndRejoinTiming` | cerulea-pallets/pallet-cerulea-dvf/src/lib.rs:695-722 | A leave request of block b left alone takes the validator out exactly at b + cooldown, and every join attempt before b + 2 * cooldown fails |
| `RegistryInvariants.WayOutRun` | cerulea-pallets/pallet-cerulea-dvf/src/lib.rs:1002-1085 | Where a leaving validator stands in every block of such a run |
| `RegistryInvariants.WayOutStep` | cerulea-pallets/pallet-cerulea-dvf/src/lib.rs:1002-1085 | The same for one event |
| `RegistryInvariants.RejoinOpens` | cerulea-pallets/pallet-cerulea-dvf/src/lib.rs:1002-1020 | At b + 2 * cooldown joining succeeds exactly when the balance suffices and there is room |
| `RegistryInvariants.PendingRequestsCanBeWithdrawn` | cerulea-pallets/pallet-cerulea-dvf/src/lib.rs:728-740 | In reachable states a withdrawal succeeds exactly when there is a request: its cooldown error never occurs |
| `RegistryInvariants.EscrowOverRuns` | cerulea-pallets/pallet-cerulea-dvf/src/lib.rs:626-656 | Over every run an account's stake equals its reserve, is zero outside the set and at least the minimum inside, and free plus reserved balance is conserved |
| `RegistryInvariants.StepKeepsEscrow` | cerulea-pallets/pallet-cerulea-pos/src/lib.rs:514-551 | Every event keeps stake and reserve equal and every account's holdings |
| `RegistryInvariants.RemovalKeepsEscrow` | cerulea-pallets/pallet-cerulea-pos/src/lib.rs:1016-1035 | Removing any group of accounts, by expiry or force, returns exactly their stake |
| `RegistryInvariants.DepositKeepsEscrow` | cerulea-pallets/pallet-cerulea-pos/src/lib.rs:525-536 | Reserving an amount and adding it to the stake keeps the balance; the saturating addition is exact |
| `RegistryInvariants.EmptyRegistry` | cerulea-pallets/pallet-cerulea-dvf/src/lib.rs:235-291 | The initial storage, where lists and maps are empty and nothing is staked or reserved, is a starting point for all three run properties |
| `RegistryPallet.Pallet.constructor` | cerulea-pallets/pallet-cerulea-dvf/src/lib.rs:235-291 | The initial storage: empty lists and maps, over given balances |
| `RegistryPallet.Pallet.OnInitialize` | cerulea-pallets/pallet-cerulea-dvf/src/lib.rs:483-492 | The in-place hook of the next block leaves the specified storage |
| `RegistryPallet.Pallet.CleanupRecentlyRemoved` | cerulea-pallets/pallet-cerulea-dvf/src/lib.rs:1030-1045 | Collecting and then removing leaves exactly the entries still cooling down |
| `RegistryPallet.Pallet.ProcessExpiredLeaveRequests` | cerulea-pallets/pallet-cerulea-dvf/src/lib.rs:1047-1085 | The removal loop, one validator after the other, equals the removal of all due requests at once |
| `RegistryPallet.Pallet.RemoveExpired` | cerulea-pallets/pallet-cerulea-dvf/src/lib.rs:1058-1081 | One turn of that loop |
| `RegistryPallet.Pallet.CollectExpired` | cerulea-pallets/pallet-cerulea-dvf/src/lib.rs:1048-1056 | The iteration collects each due account once |
| `RegistryPallet.Pallet.CheckUnderperforming` | cerulea-pallets/pallet-cerulea-dvf/src/lib.rs:1087-1109 | The sweep over a snapshot leaves the active list without the underperformers |
| `RegistryPallet.Pallet.CheckOne` | cerulea-pallets/pallet-cerulea-dvf/src/lib.rs:1094-1107 | One validator is ejected exactly when it underperforms, though both checks may eject it |
| `RegistryPallet.Pallet.EjectFromActive` | cerulea-pallets/pallet-cerulea-dvf/src/lib.rs:1111-1119 | Ejection removes the validator from the active list and nothing else |
| `RegistryPallet.Pallet.JoinValidators` | cerulea-pallets/pallet-cerulea-dvf/src/lib.rs:620-690 | Same verdict, error and storage as the specification; an error after the reserve is rolled back |
| `RegistryPallet.Pallet.LeaveValidators` | cerulea-pallets/pallet-cerulea-dvf/src/lib.rs:695-722 | Same verdict, error and storage as the specification |
| `RegistryPallet.Pallet.CancelLeaveRequest` | cerulea-pallets/pallet-cerulea-dvf/src/lib.rs:728-760 | Same verdict, error and storage as the specification |
| `RegistryPallet.Pallet.IncreaseValidatorStake` | cerulea-pallets/pallet-cerulea-pos/src/lib.rs:514-551 | Same verdict, error and storage as the specification |
| `RegistryPallet.Pallet.NotifyLeft` | cerulea-pallets/pallet-cerulea-dvf/src/lib.rs:1240-1260 | Same storage as the specification |
| `RegistryPallet.Pallet.ForceEjectValidator` | cerulea-pallets/pallet-cerulea-pos/src/lib.rs:1016-1035 | Same storage as the specification |
| `RegistryPallet.ExpireOneMore` | cerulea-pallets/pallet-cerulea-dvf/src/lib.rs:1058-1081 | Removing a group and then one more equals removing the larger group |
| `RegistryPallet.ReleaseOneMore` | cerulea-pallets/pallet-cerulea-dvf/src/lib.rs:1059-1062 | Giving back stakes one after the other equals giving them back together |
| `RewardsDistribution.DistributionPays` | cerulea-pallets/pallet-cerulea-pos/src/lib.rs:835-901 | A successful distribution credits each validator its exact share (the default reward for a zero share) and nobody else, and totals n*floor(B/n) + h*floor(P/h) + k*floor(T/k) exactly when nobody goes empty-handed or the default is zero |
| `RewardsRanking.EveryoneGetsTheirDue` | cerulea-pallets/pallet-cerulea-pos/src/lib.rs:835-901 | A successful distribution pays each distinct validator its parts of the pools, said from scores and list positions alone: top places go to those with fewer validators ahead, by a higher score or an equal one listed earlier |
| `RewardsRanking.TopGroupIff` | cerulea-pallets/pallet-cerulea-pos/src/lib.rs:855-867 | The top group is exactly those with fewer validators ahead of them than it has places |
| `RewardsRanking.PlaceIsCount` | cerulea-pallets/pallet-cerulea-pos/src/lib.rs:851 | A place in the ranking is the number of validators ahead |
| `RewardsRanking.EqualScoresKeepOrder` | cerulea-pallets/pallet-cerulea-pos/src/lib.rs:851 | Validators of equal score stand in the ranking in the order of the active list |
| `RewardsRanking.HighCountIff` | cerulea-pallets/pallet-cerulea-pos/src/lib.rs:863-865 | The high performers counted are those of the active list |
| `RewardsRanking.TieGoesToFirst` | cerulea-pallets/pallet-cerulea-pos/src/lib.rs:851-890 | With two equal scores and one top place the pool goes to the validator listed first |
| `RewardsEffects.RewardEffect` | cerulea-pallets/pallet-cerulea-pos/src/lib.rs:710-767 | A reward is added exactly to balance and both totals; otherwise which error |
| `RewardsEffects.SlashEffectOf` | cerulea-pallets/pallet-cerulea-pos/src/lib.rs:773-833 | A slash records what the currency reports, cut off at the amount or default percentage asked for; otherwise which error |
| `RewardsEffects.RewardBatchIsRun` | cerulea-pallets/pallet-cerulea-pos/src/lib.rs:648-658 | A batch of rewards is the run of its single rewards |
| `RewardsEffects.SlashBatchIsRun` | cerulea-pallets/pallet-cerulea-pos/src/lib.rs:623-633 | A batch of slashes is the run of its single slashes |
| `RewardsDistribution.PerHeadWithin` | cerulea-pallets/pallet-cerulea-pos/src/lib.rs:857-879 | A part of a pool is its quotient by the heads, rounded down, and nothing for an empty group |
| `RewardsDistribution.DistributionTotal` | cerulea-pallets/pallet-cerulea-pos/src/lib.rs:722-755 | It pays in total that amount and one default reward for each empty-handed validator, so it stays within the pools exactly when those rewards fit into what flooring and empty groups leave of them |
| `RewardsLimits.DefaultsExceedPools` | cerulea-pallets/pallet-cerulea-pos/src/lib.rs:722-726 | With the values of the runtime, two validators and an epoch amount of 1, a successful distribution pays 20000 |
| `RewardsLimits.HighScorePaidLess` | cerulea-pallets/pallet-cerulea-pos/src/lib.rs:722-726 | With the values of the runtime, three validators and an epoch amount of 4, the high performer gets 1 and the others 10000 each |
| `RewardsDistribution.DistributionSucceedsIff` | cerulea-pallets/pallet-cerulea-pos/src/lib.rs:881-893 | A distribution among distinct validators succeeds exactly when all are registered, each has room under its cap and in its balance, and the sum has room under the epoch cap |
| `RewardsDistribution.DistributionWithinPools` | cerulea-pallets/pallet-cerulea-pos/src/lib.rs:857-893 | With a base unit for each validator the total paid is the intended one and at most the three pools |
| `RewardsDistribution.HigherScoreNotPaidLess` | cerulea-pallets/pallet-cerulea-pos/src/lib.rs:851-893 | A strictly higher score is paid less exactly when the lower one goes empty-handed, the higher does not, and its share is below the default reward |
| `RewardsDistribution.BasePoolFeedsAll` | cerulea-pallets/pallet-cerulea-pos/src/lib.rs:857-861 | With a base unit for each validator nobody goes empty-handed |
| `RewardsDistribution.PayAllSucceedsIff` | cerulea-pallets/pallet-cerulea-pos/src/lib.rs:728-746 | Paying in order and stopping at the first failure succeeds exactly when the round as a whole fits, in whatever order |
| `RewardsDistribution.PayAllTotal` | cerulea-pallets/pallet-cerulea-pos/src/lib.rs:750-755 | A round of payments adds exactly the credited sum to the epoch total |
| `RewardsDistribution.PayAllBalances` | cerulea-pallets/pallet-cerulea-pos/src/lib.rs:748-755 | Each account's balance and ledger grow by exactly what is credited to it |
| `RewardsDistribution.RankingOrders` | cerulea-pallets/pallet-cerulea-pos/src/lib.rs:845-851 | The ranking is a permutation of the active validators with their scores, by falling score |
| `RewardsDistribution.TopIsPrefix` | cerulea-pallets/pallet-cerulea-pos/src/lib.rs:867-890 | Membership among the top performers, looked up by account, is membership in the first places |
| `RewardsDistribution.ShareIsExact` | cerulea-pallets/pallet-cerulea-pos/src/lib.rs:882-890 | The saturating additions of a share are exact when the pools fit the integer width |
| `RewardsDistribution.SharesTotal` | cerulea-pallets/pallet-cerulea-pos/src/lib.rs:857-890 | All shares together are the intended total, at most the three pools |
| `RewardsDistribution.SharesOfPrefix` | cerulea-pallets/pallet-cerulea-pos/src/lib.rs:881-890 | What the first m places are due |
| `RewardsDistribution.ZeroShareIff` | cerulea-pallets/pallet-cerulea-pos/src/lib.rs:857-879 | A share is zero exactly when no pool it draws on has a whole unit per head |
| `RewardsDistribution.PaidNotLessIff` | cerulea-pallets/pallet-cerulea-pos/src/lib.rs:722-726 | When a better place is paid at least as much as a worse one |
| `RewardsDistribution.CreditedTotal` | cerulea-pallets/pallet-cerulea-pos/src/lib.rs:722-726 | The credited sum is the sum of the shares and one default reward for each zero share |
| `RewardsDistribution.EpochPoolsFit` | cerulea-pallets/pallet-cerulea-pos/src/lib.rs:682-686 | The pools of an epoch never exceed the amount handed in, wrapped product or not |
| `RewardsLedgers.LedgersBalanceOverRuns` | cerulea-pallets/pallet-cerulea-pos/src/lib.rs:728-755 | Over every run of rewards, slashes, batches, distributions and resets both epoch totals are the sums of the per-validator totals and respect both caps |
| `RewardsLedgers.StepKeepsLedgers` | cerulea-pallets/pallet-cerulea-pos/src/lib.rs:623-658 | Every operation keeps that, failing or not |
| `RewardsLedgers.RewardKeepsLedgers` | cerulea-pallets/pallet-cerulea-pos/src/lib.rs:710-767 | One reward keeps it |
| `RewardsLedgers.SlashKeepsLedgers` | cerulea-pallets/pallet-cerulea-pos/src/lib.rs:773-833 | One slash keeps it, whatever the currency reports as its second result |
| `RewardsLedgers.SlashEachKeepsLedgers` | cerulea-pallets/pallet-cerulea-pos/src/lib.rs:623-633 | A batch of slashes that ignores errors keeps it |
| `RewardsLedgers.RewardEachKeepsLedgers` | cerulea-pallets/pallet-cerulea-pos/src/lib.rs:648-658 | A batch of rewards that ignores errors keeps it |
| `RewardsLedgers.PayAllKeepsLedgers` | cerulea-pallets/pallet-cerulea-pos/src/lib.rs:881-893 | A distribution keeps it, wherever it stops |
| `RewardsLedgers.RecordKeepsBalance` | cerulea-pallets/pallet-cerulea-pos/src/lib.rs:816-821 | Adding an amount that fits both caps to total and entry keeps total and sum equal |
| `RewardsPallet.Pallet.constructor` | cerulea-pallets/pallet-cerulea-pos/src/lib.rs:907-912 | A storage with empty ledgers |
| `RewardsPallet.Pallet.ExecuteRewardValidator` | cerulea-pallets/pallet-cerulea-pos/src/lib.rs:710-767 | Same verdict, error and storage as the specification |
| `RewardsPallet.Pallet.ExecuteSlashValidator` | cerulea-pallets/pallet-cerulea-pos/src/lib.rs:773-833 | Same verdict, error and storage as the specification |
| `RewardsPallet.Pallet.RewardMultipleValidators` | cerulea-pallets/pallet-cerulea-pos/src/lib.rs:648-658 | Same storage as the batch specification |
| `RewardsPallet.Pallet.SlashMultipleValidators` | cerulea-pallets/pallet-cerulea-pos/src/lib.rs:623-633 | Same storage as the batch specification |
| `RewardsPallet.Pallet.Rank` | cerulea-pallets/pallet-cerulea-pos/src/lib.rs:845-851 | The filled and sorted vector is the ranking |
| `RewardsPallet.Pallet.DistributeRewards` | cerulea-pallets/pallet-cerulea-pos/src/lib.rs:835-901 | Same verdict and error as the specification; on failure exactly the payments before the failing one stand |
| `RewardsPallet.Pallet.PayShares` | cerulea-pallets/pallet-cerulea-pos/src/lib.rs:881-893 | The paying loop stops at the first failure with the payments before it made |
| `RewardsPallet.Pallet.DistributeEpochRewards` | cerulea-pallets/pallet-cerulea-pos/src/lib.rs:676-687 | The dispatchable pays everything or, rolled back, nothing |
| `RewardsPallet.Pallet.ResetEpochTotals` | cerulea-pallets/pallet-cerulea-pos/src/lib.rs:907-912 | All four ledgers are emptied and balances stay |
| `RewardsPallet.PayAllStops` | cerulea-pallets/pallet-cerulea-pos/src/lib.rs:892 | Once a prefix of the payments fails the whole round fails with its error |
| `EconomicAdvice.FollowingAdviceEnds` | cerulea-pallets/pallet-cerulea-dcf/src/economic_bounds.rs:175-241 | With caps not outgrown, a percentage of at most 100% and no overflow, resubmitting the recommended amount at most three times ends in an applied slash, of the capped request if the percentage check lets it pass and of the greatest amount within the percentage if not; or, exactly when the capped request exceeds the reserve and slips past that check, in a balance refusal |
| `EconomicRuns.AdviceEndsInEveryState` | cerulea-pallets/pallet-cerulea-dcf/src/economic_bounds.rs:166-269 | In every state a run reaches, under validated or default bounds and without overflow, following the call's advice ends like that while the epoch's total is within its cap, which stored bounds guarantee; beyond a shrunken default cap it ends refused with zero as the advice |
| `EconomicRuns.ReachedWithinCaps` | cerulea-pallets/pallet-cerulea-dcf/src/economic_bounds.rs:175-209 | In reachable states no cap but the default total cap can have been outgrown |
| `EconomicRuns.EpochLockedIff` | cerulea-pallets/pallet-cerulea-dcf/src/economic_bounds.rs:352-366 | An epoch under default bounds that began with stake T and has slashed S from members refuses every amount whose sums do not overflow, for everybody, exactly when 11*S > T |
| `EconomicRuns.StakeFallsBySlashes` | cerulea-pallets/pallet-cerulea-dcf/src/economic_bounds.rs:355-358 | Within an epoch the stake of the set has fallen by exactly what the tracker recorded |
| `EconomicRuns.OneSlashLocks` | cerulea-pallets/pallet-cerulea-dcf/src/economic_bounds.rs:175-188 | One legal slash of 200 against two reserves of 1000 locks the epoch |
| `EconomicAdvice.AllRefusedIff` | cerulea-pallets/pallet-cerulea-dcf/src/economic_bounds.rs:180-209 | Every amount whose sums do not overflow is refused exactly when a running total has outgrown its cap |
| `EconomicAdvice.AdviceStaysZero` | cerulea-pallets/pallet-cerulea-dcf/src/economic_bounds.rs:180-188 | Once the epoch's total has outgrown its cap, the advice is zero however often it is followed |
| `EconomicAdvice.AdviceMovesOn` | cerulea-pallets/pallet-cerulea-dcf/src/economic_bounds.rs:180-232 | Each recommendation is strictly below the request, and resubmitted can only be refused by a later check |
| `EconomicAdvice.PercentageAdviceWorks` | cerulea-pallets/pallet-cerulea-dcf/src/economic_bounds.rs:213-232 | The recommended share is within the reserve, passes the percentage check, is below any refused amount and could not be larger |
| `EconomicAdvice.AdviceIsGreatest` | cerulea-pallets/pallet-cerulea-dcf/src/economic_bounds.rs:226-229 | No amount within the percentage is larger than the one a refusal recommends |
| `EconomicEffects.SlashAnswer` | cerulea-pallets/pallet-cerulea-dcf/src/economic_bounds.rs:175-241 | Which answer a slash gets and what it recommends, in every case |
| `EconomicEffects.RewardAnswer` | cerulea-pallets/pallet-cerulea-dcf/src/economic_bounds.rs:281-321 | Which answer a reward gets and what it recommends, in every case |
| `EconomicEffects.SlashStores` | cerulea-pallets/pallet-cerulea-dcf/src/economic_bounds.rs:243-251 | An applied slash moves the amount from the reserve into both slash totals; any other answer changes nothing |
| `EconomicEffects.RewardStores` | cerulea-pallets/pallet-cerulea-dcf/src/economic_bounds.rs:323-331 | An applied reward adds the amount to the balance and both reward totals; any other answer changes nothing |
| `EconomicEffects.BoundsAre` | cerulea-pallets/pallet-cerulea-dcf/src/economic_bounds.rs:352-380 | What the bounds of an epoch are, field by field |
| `EconomicEffects.BoundsValidIff` | cerulea-pallets/pallet-cerulea-dcf/src/economic_bounds.rs:418-462 | Bounds are valid exactly when non-zero, at most 100%, and covering their totals |
| `EconomicEffects.ResetStores` | cerulea-pallets/pallet-cerulea-dcf/src/economic_bounds.rs:405-415 | A reset starts the tracker of its epoch anew and touches nothing else |
| `EconomicAdvice.FinalAmount` | cerulea-pallets/pallet-cerulea-dcf/src/economic_bounds.rs:213-241 | What happens to an amount both caps allow: recommended down and then applied, slipped through, or applied in full |
| `EconomicAdvice.CapsLeadTo` | cerulea-pallets/pallet-cerulea-dcf/src/economic_bounds.rs:180-209 | The two caps lead a request to the smaller of their rooms |
| `EconomicAdvice.FollowFromCapped` | cerulea-pallets/pallet-cerulea-dcf/src/economic_bounds.rs:211-241 | From the capped amount one retry settles the matter |
| `EconomicAdvice.CappedAmountPasses` | cerulea-pallets/pallet-cerulea-dcf/src/economic_bounds.rs:211-241 | An amount both caps allow meets only the percentage and balance checks |
| `EconomicAdvice.ZeroRefusedIff` | cerulea-pallets/pallet-cerulea-dcf/src/economic_bounds.rs:180-209 | Even the zero amount is refused exactly when a running total has outgrown its cap; otherwise it always goes through |
| `EconomicAdvice.FullPercentageSlips` | cerulea-pallets/pallet-cerulea-dcf/src/economic_bounds.rs:219-241 | A concrete request that a 100% limit rounds past the percentage check, so that it ends in a balance refusal |
| `EconomicAdvice.PercentageIsSane` | cerulea-pallets/pallet-cerulea-dcf/src/economic_bounds.rs:418-441 | Validated and default bounds allow at most 100% |
| `EconomicLedgers.DefaultCapIsATenth` | cerulea-pallets/pallet-cerulea-dcf/src/economic_bounds.rs:352-380 | Under default bounds, recomputed from the shrinking reserves at each call, a run within an epoch never slashes more than a tenth of the stake held at its start |
| `EconomicLedgers.AppliedSlashWithinTenth` | cerulea-pallets/pallet-cerulea-dcf/src/economic_bounds.rs:176-188 | An applied slash leaves the tracked total within a tenth of the stake at that moment |
| `EconomicLedgers.TrackedIsTakenOverRuns` | cerulea-pallets/pallet-cerulea-dcf/src/economic_bounds.rs:243-251 | Within an epoch the tracked slashes equal the fall of the reserved balances, per validator and in total |
| `EconomicLedgers.StepTakesWhatItTracks` | cerulea-pallets/pallet-cerulea-dcf/src/economic_bounds.rs:243-251 | The same for one call |
| `EconomicLedgers.LedgersAgreeOverRuns` | cerulea-pallets/pallet-cerulea-dcf/src/economic_bounds.rs:166-349 | In every reachable state each epoch's totals are the sums of the per-validator totals and within all caps that are stored or constant |
| `EconomicLedgers.StepKeepsLedgers` | cerulea-pallets/pallet-cerulea-dcf/src/economic_bounds.rs:405-415 | Every call and reset keeps that |
| `EconomicLedgers.TrackedSlashAgrees` | cerulea-pallets/pallet-cerulea-dcf/src/economic_bounds.rs:248-251 | The tracker written by an applied slash adds up and is capped |
| `EconomicLedgers.TrackedRewardAgrees` | cerulea-pallets/pallet-cerulea-dcf/src/economic_bounds.rs:328-331 | The tracker written by an applied reward adds up and is capped |
| `EconomicBounds.ProductOr` | cerulea-pallets/pallet-cerulea-dcf/src/economic_bounds.rs:367-375 | A default bound is the configured product exactly when that fits, and otherwise the plain amount |
| `EconomicPallet.Pallet.constructor` | cerulea-pallets/pallet-cerulea-dcf/src/economic_bounds.rs:383-394 | A storage without trackers |
| `EconomicPallet.Pallet.GetEpochEconomicBounds` | cerulea-pallets/pallet-cerulea-dcf/src/economic_bounds.rs:352-380 | Stored bounds, or the defaults computed from the folded reserves |
| `EconomicPallet.Pallet.SumReserves` | cerulea-pallets/pallet-cerulea-dcf/src/economic_bounds.rs:355-358 | The fold over the validator set is its total reserve, saturating |
| `EconomicPallet.Pallet.ApplySlashingWithBounds` | cerulea-pallets/pallet-cerulea-dcf/src/economic_bounds.rs:166-269 | Same outcome and storage as the specification; anything but an applied slash changes nothing |
| `EconomicPallet.Pallet.CheckSlash` | cerulea-pallets/pallet-cerulea-dcf/src/economic_bounds.rs:175-241 | The cascade of checks gives the specified outcome, and lets through only amounts within the reserve |
| `EconomicPallet.Pallet.ApplyRewardWithBounds` | cerulea-pallets/pallet-cerulea-dcf/src/economic_bounds.rs:272-349 | Same outcome and storage as the specification |
| `EconomicPallet.Pallet.CheckReward` | cerulea-pallets/pallet-cerulea-dcf/src/economic_bounds.rs:281-321 | The cascade of checks gives the specified outcome |
| `EconomicPallet.Pallet.ResetEpochEconomicTracking` | cerulea-pallets/pallet-cerulea-dcf/src/economic_bounds.rs:405-415 | A fresh tracker for the epoch, everything else unchanged |
| `RateLimiter.WindowLimit` | cerulea-node/src/rpc.rs:56-66 | With a monotone clock, over every run and for every key, any closed interval of the window's length contains at most the limit of accepted calls |
| `RateLimiter.AcceptedIff` | cerulea-node/src/rpc.rs:56-66 | A call is accepted exactly when fewer than the limit of calls of its key were accepted in the window before it, counted in the full unpruned history |
| `RateLimiter.KeysAreIndependent` | cerulea-node/src/rpc.rs:58-59 | What is remembered and accepted for a key is what a limiter would that sees only that key's calls |
| `RateLimiter.RemembersEnough` | cerulea-node/src/rpc.rs:60 | Pruning never loses a call that a later window still needs |
| `RateLimiter.RemembersExactly` | cerulea-node/src/rpc.rs:59-64 | After each call, refused or not, exactly the accepted calls of its key within the window are remembered, in order, and no other key is affected |
| `RateLimiter.RetainHas` | cerulea-node/src/rpc.rs:60 | Retaining keeps exactly what is no older than the window |
| `RateLimiter.RemembersAtMostLimit` | cerulea-node/src/rpc.rs:60-64 | No history grows beyond the limit, so the cast to u32 loses nothing |
| `RateLimiter.RetainCounts` | cerulea-node/src/rpc.rs:60 | What is retained is what lies in the closed window before the call |
| `RateLimiter.AdmitsIff` | cerulea-node/src/rpc.rs:60-63 | For one key: admission by the pruned history is admission by the full one |
| `RateLimiter.AloneWithinLimit` | cerulea-node/src/rpc.rs:56-66 | For one key: the limit holds in every interval |
| `RateLimiter.OneMoreWithinLimit` | cerulea-node/src/rpc.rs:61-64 | Accepting a call that has room keeps every interval within the limit |
| `RateLimiter.Limiter.constructor` | cerulea-node/src/rpc.rs:48-54 | A limiter that remembers nothing |
| `RateLimiter.Limiter.CheckRateLimit` | cerulea-node/src/rpc.rs:56-66 | Same answer and remembered histories as the specification; a refusal still prunes |
| `RateLimiter.Limiter.RetainRecent` | cerulea-node/src/rpc.rs:60 | The in-place retention keeps exactly the recent times in order |
| `EvmEvents.CalculateNestingLevel` | cerulea-pallets/pallet-cerulea-dcf/src/evm_compatibility.rs:58-77 | The pass whose depth sticks at zero returns the maximum, over all contiguous slices, of openers minus closers |
| `EvmEvents.SuffixDepthStep` | cerulea-pallets/pallet-cerulea-dcf/src/evm_compatibility.rs:63-74 | After each byte the sticking depth is the greatest excess of a suffix |
| `EvmEvents.QuerySplits` | cerulea-pallets/pallet-cerulea-dcf/src/evm_compatibility.rs:274-296 | Querying [a, c] equals querying [a, b] and then [b + 1, c] |
| `EvmEvents.MatchingHas` | cerulea-pallets/pallet-cerulea-dcf/src/evm_compatibility.rs:281-293 | An answer contains exactly the stored events of the range that pass the filter, under their own block |
| `EvmEvents.BlockAnswersInOrder` | cerulea-pallets/pallet-cerulea-dcf/src/evm_compatibility.rs:284-292 | Within a block answers keep the order and the number of the stored events |
| `EvmEvents.OneEventAnswers` | cerulea-pallets/pallet-cerulea-dcf/src/evm_compatibility.rs:285-291 | An event is answered, under its block, exactly when there is no filter or it has the type asked for |
| `EvmEvents.CleanupKeepsAnswers` | cerulea-pallets/pallet-cerulea-dcf/src/evm_compatibility.rs:321-330 | After a cleanup every query answers what the same query from the cutoff on answered before: nothing below it, everything else unchanged |
| `EvmEvents.MatchingSplits` | cerulea-pallets/pallet-cerulea-dcf/src/evm_compatibility.rs:281-293 | The collected events of adjoining ranges are concatenated |
| `EvmEvents.Index.StoreEvmEvent` | cerulea-pallets/pallet-cerulea-dcf/src/evm_compatibility.rs:257-266 | The event is appended to its block unless the block already holds its limit, and no other block changes |
| `EvmEvents.Index.QueryEvmEvents` | cerulea-pallets/pallet-cerulea-dcf/src/evm_compatibility.rs:274-296 | The loop over the blocks collects the specified answer, in order |
| `EvmEvents.Index.PushMatching` | cerulea-pallets/pallet-cerulea-dcf/src/evm_compatibility.rs:284-292 | The inner loop pushes one block's matching events, tagged and in order |
| `EvmEvents.Index.CleanupOldEvmEvents` | cerulea-pallets/pallet-cerulea-dcf/src/evm_compatibility.rs:321-330 | The removal loop leaves exactly the blocks from the cutoff on |

## Left out

- DvfRuns.NoDoubleVote: one direction only, for runs whose justifications name no earlier round; the exact condition for a single second ballot is `DvfRuns.SecondBallotRefusedIff`.
- DvfSafety.AccountableSafety: the list may hold up to 31701 entries and repeat accounts; longer lists, for which floor rounding may leave too little weight, are not covered, nor are lists whose stake sum or stake times 32000 overflows.
- RegistryInvariants.InvHoldsOverRuns: the call that replaces the active list (`cerulea-pallets/pallet-cerulea-dvf/src/lib.rs:1457-1459`) must be given distinct members of the set without pending requests; its caller is not part of this model.
- RegistryInvariants.EscrowOverRuns: excludes the bare notification `on_left` outside `force_eject_validator`, which clears membership without returning the stake.
- RegistryInvariants.LeaveAndRejoinTiming: block numbers are unbounded naturals, so no request is made within one cooldown of the end of u32, where the saturating conversion would stop the clock.
- RegistryPallet.Pallet.OnInitialize: requires duplicate-free lists, as do the other registry methods; the constructor establishes and every method re-establishes them. A zero check interval, by which the program divides, is excluded at construction.
- RewardsPallet.Pallet.ExecuteSlashValidator: the currency's two answers to `slash` are inputs, since the program records the part that could not be slashed as if it had been; nothing equates the slash ledgers with funds moved.
- EvmEvents.CalculateNestingLevel: the depth is a natural number; a payload of 2^32 openers would overflow the u32 counter.
- RateLimiter.Limiter.CheckRateLimit: the clock reading is an argument. The program reads the clock before it takes the lock; calls are modelled in the order of the lock with readings that do not run backwards.
- DvfSafety.RoundBalance: tallies that leave no room in the u128 counter for the weight of all validators are not covered; `DvfSafety.TallyIsLedger` covers the saturating counter.
- EconomicRuns.EpochLockedIff: for a set without duplicates whose stake fits u128 and whose members alone were slashed; a set that counts an account twice, or slashes outside it, shrink the cap differently.
- EconomicRuns.AdviceEndsInEveryState: requests whose sums or products overflow answer with an arithmetic error at once, and are not followed.
- Cryptography and SCALE encoding: whether a signature verifies is a function of signature, payload and account.
- Hashes, accounts and signatures are natural numbers; the byte order of accounts is the order of numbers.
- Events other than the finalisation event, and the arithmetic done only for events (the expiry block of a leave request, the distributed total).
- Transaction weights, logging, origins and the validation of unsigned transactions.
- The inside of the currency: whether `reserve` is granted beyond the free balance is an input; existential deposits are not modelled, so `deposit_creating` credits the amount in full.
- Join times, stake and trust scores, score boosts and penalties, and the pending join and leave actions of the epoch transition: they feed nothing that is modelled here.
- `register_validator`, `bond_stake`, `unbond_stake`, `reward_validator`, `slash_validator_stake`, `decrease_validator_stake`: they change stake or registration without the matching reserve and fall outside the escrow property.
- `on_joined`, `on_leave_requested` and the other setters of the registry driven by other pallets.
- Reason codes, balance snapshots in events and the start block of an economic tracker.
- The conversion of runtime events to their EVM form, of which only the nesting scan is modelled.
- The remaining pallets, the node service, networking, RPC handlers, metrics, fork checks, genesis presets, scripts and the TypeScript platform: glue and single-branch facts that would only add easy members.
