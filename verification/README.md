# Dianemo: a verified model of its admission, settlement and completion logic

Dianemo is a fleet-wide rate limiter. Every replica of a client meters its requests against
budgets kept in a shared backend, queues what does not fit, and reports completions to whichever
replica is the controller. This project models that logic in Dafny and proves what it is for: a
budget is never exceeded over any run, a correction that arrives late is as good as one made at
once, several budgets are taken together or not at all, a queued request is dispatched once, one
probe at a time thaws a frozen client, and no completion is lost in silence.

`dafny verify dfyconfig.toml` checks everything.

## How it is laid out

The backend's operations are atomic, both as the in-process backend runs them and as the Redis
scripts do, so each is one function from the state before to the state after. Whole runs are
sequences of such steps, and the main results hold of every run.

- Buckets: `Numbers`, `TokenBucket` (refill, claim test, wait), `Settlement` (late correction),
  `Buckets` (one bucket, its marks, and every operation on them), `BucketRuns` (settlement over
  whole runs), `BucketEffects` (what one operation leaves for later ones), `RateWindow` (the rate
  limit).
- Several budgets: `Slots` (the concurrency ledger), `MultiLimit` (check all, then write all),
  `AllOrNothing`, `ClaimRelease`, `RefusalWait`, `StoreRuns` (the whole store seen through one key),
  `Costs` and `LimitSpecs` (what a cost must be, and the budgets a client's limits stand for),
  `TurnCharges` (what a turn charges each limit).
- Freeze and thaw: `Freeze`.
- Queue and protocol: `MemberOrder` (UTF-16 against UTF-8 order, RFC 3629 sections 1 and 3 and RFC
  2781 section 2.2), `QueueEntry` (score and lease), `RequestQueue`, `QueueEffects` (what one
  operation leaves for later ones), `FastPaths` (admission on arrival), `Dispatch` (any number of
  overlapping drain loops), `Turns` (one turn for one asking), `Probes` (one probe per freeze scope),
  `QueueRuns` (every run of the queue is a run of that protocol), `HandOff` and `HandOffRuns`
  (completions over a lossy network, and how they come to an end).
- The imperative code: `MemoryBackend`, `QueueBackend`, `MeteredClient`, `Drain` and `Completions`
  are classes whose fields the methods change in place, loops included. Each method is proved to do
  what the functions above say, so what is proved of those holds of it.

Tokens and costs are reals, milliseconds are integers, and the time of an operation is a
parameter. A stored value carries the time its key expires and reads as absent from then on.

What turned out not to hold in general is stated with the exact condition under which it does:

- refilling in two steps is refilling in one, except that the first decline of a bucket nobody has
  written fixes its refill phase (`FirstDeclineFixesPhase`);
- a requested freeze deadline is honoured to the millisecond, unless it is fractional or beyond
  2^53-1 (`CutShortExactly`);
- a queued request is ranked rightly, unless it is stamped outside the score epoch and below the
  top band (`RankedRightlyExactly`);
- a request is handed out no more often than its owner asks, unless a loop that a call failed returns
  an entry that is dispatched and whose owner has been told or is about to be
  (`LooseningIsTheWholeDifference`); both a lost answer and a message wrongly heard to fail get there
  (`LooseningIsReached`, `MisreportIsReached`), and an overwrite whose owner nobody tells costs nothing
  (`UntoldOverwriteIsHarmless`);
- a confirmation is the latest claimer's, unless a step made the entry pending in the millisecond of a
  claim still to be confirmed, which the next claim then shares its stamp with
  (`DisplacingIsTheWholeDifference`);
- the wait a refusal reports is neither too long nor too short, unless a bucket's debt takes longer to
  pay off than its key lives (`WaitExactIfKeyLives`, `RefusalWaitIsShortestExactly`), and any bucket can
  get there (`IndebtedWaitsTooLong`);
- a probe's report is answered with the freeze that is read afterwards, unless its completion comes
  again on a freeze that is over, which is then still reported (`ThawAnswersWhatIsRead`,
  `StaleRedeliveryIsReached`);
- the stored marks show one probe per freeze scope, unless a step leaves a mark on a pending entry,
  as the retry of a probe does (`MarkLeftIsTheWholeDifference`, `RetriedProbeShowsTwo`);
- the largest amount a bucket ever hands to one claim is its ceiling and the claim tolerance on top,
  slightly more than the cost check's own comment says (`ClaimableExactly`).

## Model

| member | source | states |
|---|---|---|
| `TokenBucket.UnusableBudget` | packages/core/src/backend/memory.ts:245-265 | a budget is reported unusable exactly when it cannot hand out tokens or the cost is negative |
| `TokenBucket.RefillGrows` | packages/core/src/backend/memory.ts:651-684 | a refill only adds: what it credits is kept as tokens or counted as overflow, the counters never fall, and overflow never grows without a fill |
| `TokenBucket.FillsExactly` | packages/core/src/backend/memory.ts:651-684 | `fills` counts just the refills that bring the balance to its ceiling, with or without discarding anything, each once |
| `TokenBucket.RefillIsCurrent` | packages/core/src/backend/memory.ts:663-670 | `lastUpdate` moves in whole intervals, so just after a refill less than one interval is outstanding |
| `TokenBucket.RefillTwice` | packages/core/src/backend/memory.ts:651-684 | refilling at one time and again later is refilling once: same tokens, clock and overflow, and `fills` has moved in one exactly when it has in the other |
| `TokenBucket.RefillPathIndependent` | packages/core/src/backend/memory.ts:651-775 | the same for any number of persisted declines on the way |
| `TokenBucket.FirstDeclineFixesPhase` | packages/core/src/backend/memory.ts:651-684 | the exception, for a bucket never written: the tokens agree, the clock agrees exactly when a whole number of intervals lies between, the overflow exactly inside the first interval |
| `TokenBucket.WaitIsExact` | packages/core/src/backend/memory.ts:766-776 | a declined claim's wait: with no claim in between the bucket holds the cost if and only if the wait has been served |
| `TokenBucket.RefillSettles` | packages/core/src/backend/memory.ts:651-684 | a refilled balance is one a refill at the same instant leaves alone |
| `TokenBucket.WaitWithinTtl` | packages/core/src/backend/memory.ts:230-236 | the key of a bucket not in debt outlives any wait it reports |
| `TokenBucket.TtlIsShortestStorable` | packages/core/src/backend/memory.ts:230-236 | the key lifetime is the least that is at least the one asked for and covers a refill from empty, or all that can be stored |
| `Settlement.SettleAmount` | packages/core/src/backend/settlement.ts:50-92 | a debit is conserved as applied, forgiven or unapplied; forgiveness stays within the refill discarded since the claim; only the debt limit leaves anything unapplied; a credit is zero after a fill and otherwise all that fits; nothing moves on another bucket |
| `Settlement.RunKeepsAhead` | packages/core/src/backend/settlement.ts:64-83 | the invariant behind late debits: through any refills and spends the late path leads the early one by what the bucket has not yet discarded |
| `Settlement.LateDebitIsEarlyDebit` | packages/core/src/backend/settlement.ts:64-83 | settling late at a higher actual leaves the balance that taking the actual at claim time would have left, plus what the debt limit refused |
| `Settlement.LateCreditUnlessFilled` | packages/core/src/backend/settlement.ts:84-91 | settling late at a lower actual gives the difference back, up to the ceiling, unless some refill since the claim brought the bucket to its ceiling; then it gives nothing |
| `Settlement.DeclinesChangeNothing` | packages/core/src/backend/memory.ts:766-776 | persisting the refill on declines changes neither a later decision, nor its wait, nor a later settlement |
| `BucketRuns.DiscardedTokensForgiveOnce` | packages/core/src/backend/settlement.ts:64-83 | in every run, from any instant on, what settlements answer they let the claims made since keep unpaid never exceeds the refill discarded since, and `forgiven` never exceeds `overflow` |
| `BucketRuns.ForgivenRises` | packages/core/src/backend/memory.ts:862-894 | what a settlement by its answer lets a claim keep unpaid, the actual cost less the claimed, applied and unapplied ones, is what the stored `forgiven` rises by |
| `BucketRuns.SettlesOnlyItsOwnBucket` | packages/core/src/backend/memory.ts:834-894 | after any run a settlement moves the balance only if its mark was written under the standing incarnation of the bucket, with no emptying or reset in between |
| `BucketRuns.GoneMarkStaysGone` | packages/core/src/backend/memory.ts:1343-1353 | no operation but a new claim brings back a mark that is gone |
| `BucketRuns.SettlesOnce` | packages/core/src/backend/memory.ts:834-860 | once settled, a mark settles nothing more until it is claimed again |
| `BucketRuns.CoveredSpend` | packages/core/src/backend/balance.ts:15-21 | the claim tolerance takes a balance at most one tolerance of the ceiling below zero |
| `BucketRuns.BalanceStaysWithinBounds` | packages/core/src/backend/memory.ts:740-925 | in every run the balance stays between the larger of the debt limit and the tolerance below zero, and the ceiling |
| `BucketRuns.ClaimsRun` | packages/core/src/backend/memory.ts:740-777 | a run of claims is, to the balance, a run of refills and spends, and keeps an earlier claim's mark |
| `BucketRuns.LateSettlementIsEarlyClaim` | packages/core/src/backend/memory.ts:718-894 | end to end on the stored bucket: claim, let others claim and leave marks, settle; the balance is that of a claim that took the actual at once |
| `BucketRuns.LateRefundUnlessFilled` | packages/core/src/backend/memory.ts:718-894 | the same for a lower actual: the stored bucket gets the difference back, up to its ceiling, unless it has been at its ceiling since the claim |
| `BucketEffects.MarkLastsExactly` | packages/core/src/backend/memory.ts:718-738 | a claim's mark, or one a touch found alive, is settled at a later time exactly if that lies before the end of the lifetime it was given, whatever else the bucket goes through |
| `BucketEffects.EmptiedEarnsBack` | packages/core/src/backend/memory.ts:804-824 | an emptied bucket holds nothing and keeps a debt, its counters, marks and epoch, is one generation on, and later holds only what the intervals since then credit |
| `BucketEffects.ResetReadsFull` | packages/core/src/backend/memory.ts:787-802 | a bucket that was reset reads full at every later time, one generation on, its counters kept |
| `BucketEffects.CreditAddsExactly` | packages/core/src/backend/memory.ts:910-925 | a refund reads, at any later time, as the cost added to what would have been read, up to the ceiling; no clock, counter, mark or expiry moves |
| `RateWindow.TtlCoversFullRefill` | packages/core/src/backend/memory.ts:230-236 | every lifetime a bucket key is given covers a refill from empty |
| `RateWindow.AccountExpiry` | packages/core/src/backend/memory.ts:230-236 | a bucket recreated full after its key expired is paid for by the intervals the key outlived |
| `RateWindow.NetUseIsBounded` | packages/core/src/backend/settlement.ts:50-92 | the net charge of a window together with what settlements, by their answers, let the claims made in it keep unpaid is at most one bucket and a refill per interval touched, with one slip for the window and one per expiry |
| `RateWindow.NetChargeIsBounded` | packages/core/src/backend/memory.ts:230-925 | conservation: in every window of every run, settlements, refunds, emptyings and expiries included, what was claimed and settled less what was refunded is at most one bucket and a refill per interval touched, with one slip (the debt limit or the tolerance, if more) for the window and one per expiry |
| `RateWindow.RateLimitHolds` | packages/core/src/backend/memory.ts:230-777 | the rate limit: where the window only claims and empties, that is a bound on the cost admitted; if nothing before it settled either, the slip is the claim tolerance |
| `Slots.UnusableSlot` | packages/core/src/backend/memory.ts:87-110 | a ceiling, cost or lease is reported unusable exactly when it cannot be enforced |
| `Slots.OccupancyIsTotal` | packages/core/src/backend/memory.ts:1180-1192 | with every slot costed, the occupancy is the total of the costs but the resubmitted one |
| `Slots.ClaimCapped` | packages/core/src/backend/memory.ts:1194-1240 | a claim that fits beside the others keeps the ledger within its ceiling |
| `Slots.ReapedExactly` | packages/core/src/backend/memory.ts:1165-1178 | reaping drops exactly the slots whose lease is over, with their costs |
| `Slots.TouchRenewsOne` | packages/core/src/backend/memory.ts:1329-1341 | a touch answers true exactly for a slot that is held, restamps that one, and changes no other slot and no cost |
| `Slots.ConcurrencyIsCapped` | packages/core/src/backend/memory.ts:1165-1341 | in every run under one ceiling the ledger never holds more than it, and every slot shown has its cost |
| `Slots.YoungSlotLeavesOnlyByRelease` | packages/core/src/backend/memory.ts:1165-1341 | in every run a slot whose claim was admitted or whose touch answered true is a member at every time before that moment plus its lease, unless it is released meanwhile |
| `MultiLimit.PlansAreUsable` | packages/core/src/backend/memory.ts:1073-1160 | the check phase hands only usable budgets on to the write phase |
| `AllOrNothing.PlanOfDistinct` | packages/core/src/backend/memory.ts:1073-1160 | the check phase finds out whether every budget alone would admit its cost, and writes nothing but the reaping of expired slots |
| `AllOrNothing.PutsEach` | packages/core/src/backend/memory.ts:990-1062 | the write phase writes each named bucket once: spent, or only refilled |
| `AllOrNothing.ClaimsEach` | packages/core/src/backend/memory.ts:1000-1004 | each slot of the list is claimed once and no other ledger is touched |
| `AllOrNothing.ClaimedAlike` | packages/backend-redis/src/lua/multiLimit.ts:136-160 | a bucket claimed as one of several is left as its own claim would leave it, but for the number its first mark's epoch gets |
| `AllOrNothing.AcquiresAllOrNone` | packages/core/src/backend/memory.ts:979-1160 | a list of distinct usable budgets is acquired exactly when each alone would admit its cost; then each is debited once, otherwise buckets only refill and ledgers only lose expired slots |
| `ClaimRelease.OneBucketAlone` | packages/core/src/client/clientTypes/meteredClient.ts:51-66 | a list of one bucket decides, waits and leaves the store as the single call does |
| `ClaimRelease.OneSlotAlone` | packages/core/src/client/clientTypes/meteredClient.ts:51-66 | the same for a list of one slot ledger |
| `ClaimRelease.ReleasesEach` | packages/core/src/backend/memory.ts:1007-1020 | releasing a list refunds or releases each of its budgets once, and touches no other |
| `ClaimRelease.RefundRestores` | packages/core/src/backend/memory.ts:910-925 | a cost taken and refunded at one instant reads as if it had not been taken |
| `ClaimRelease.ReleaseUndoesAcquire` | packages/core/src/backend/memory.ts:979-1020 | an admitted list released at once, with fresh slot ids: every bucket and ledger reads as before |
| `RefusalWait.RefusalReport` | packages/core/src/backend/memory.ts:1103-1155 | a refusal reports the longest wait of the buckets that declined and blames that bucket; a ledger is blamed only when every bucket could pay, the first full one |
| `RefusalWait.DeclinedUntil` | packages/core/src/backend/memory.ts:766-776 | any declined bucket, in debt or not, its refill persisted, holds its cost exactly once its wait is served or its key has expired |
| `RefusalWait.WaitExactIfKeyLives` | packages/core/src/backend/memory.ts:766-776 | so its wait is exact at every later time if and only if its key lives to the end of it |
| `RefusalWait.UnindebtedKeyLives` | packages/core/src/backend/memory.ts:230-236 | which the key of a bucket with no negative balance and a storable lifetime always does |
| `RefusalWait.IndebtedWaitsTooLong` | packages/core/src/backend/memory.ts:834-894 | and which it need not: any bucket reaches, by one claim and its settlement, a debt whose wait outlasts the key |
| `RefusalWait.RefusalWaitIsExact` | packages/core/src/backend/memory.ts:1103-1119 | retrying after the reported wait finds every bucket of the list covering its cost, whatever their debts; before it the blamed bucket holds too little exactly until its key expires |
| `RefusalWait.RefusalWaitIsShortestExactly` | packages/core/src/backend/memory.ts:1103-1119 | no shorter wait would do if and only if some bucket that asks for the whole of it keeps its key that long |
| `StoreRuns.ViewOf` | packages/core/src/backend/memory.ts:718-1020 | every operation on the store is, seen through one key, a stretch of that bucket's own run |
| `StoreRuns.NetChargeIsBoundedInStore` | packages/core/src/backend/memory.ts:230-1062 | that bound on the net charge of one bucket, whatever the whole store does to it, by itself or together with others |
| `StoreRuns.RateLimitHoldsInStore` | packages/core/src/backend/memory.ts:230-1062 | the rate limit of one bucket in the whole store, claimed alone or with others |
| `StoreRuns.ForgivenWithinOverflowInStore` | packages/core/src/backend/memory.ts:718-894 | no bucket of a reachable store has forgiven more than it discarded |
| `StoreRuns.ConcurrencyIsCappedInStore` | packages/core/src/backend/memory.ts:979-1341 | the ceiling of one ledger in the whole store, claimed alone or with others |
| `StoreRuns.YoungSlotLeavesOnlyByReleaseInStore` | packages/core/src/backend/memory.ts:979-1341 | the same in the whole store, claimed alone or in a list |
| `MemoryBackend.Backend.Refill` | packages/core/src/backend/memory.ts:651-684 | the refill, field by field, is the specified reading of the bucket |
| `MemoryBackend.Backend.WriteBucket` | packages/core/src/backend/memory.ts:690-707 | writes the balance and re-arms the key; other fields and all other keys stay |
| `MemoryBackend.Backend.WriteMark` | packages/core/src/backend/memory.ts:718-738 | gives the bucket its epoch if it has none and records the claim beside it |
| `MemoryBackend.Backend.Spend` | packages/core/src/backend/memory.ts:1054-1062 | a spend and its mark are the specified commit |
| `MemoryBackend.Backend.AcquireTokens` | packages/core/src/backend/memory.ts:740-777 | the single claim does to the store, and answers, what is specified |
| `MemoryBackend.Backend.BumpGeneration` | packages/core/src/backend/memory.ts:826-832 | moves the generation on by one |
| `MemoryBackend.Backend.ResetTokenBucket` | packages/core/src/backend/memory.ts:787-802 | refills to the ceiling, keeps the counters, moves the generation on |
| `MemoryBackend.Backend.EmptyTokenBucket` | packages/core/src/backend/memory.ts:804-824 | empties without refilling, keeps debt and counters, moves the generation on |
| `MemoryBackend.Backend.SettleTokens` | packages/core/src/backend/memory.ts:834-894 | the loop settles its list one by one, each mark consumed at most once |
| `MemoryBackend.Backend.SettleMark` | packages/core/src/backend/memory.ts:838-891 | one settlement; one that settles nothing writes nothing |
| `MemoryBackend.Backend.CreditTokens` | packages/core/src/backend/memory.ts:910-925 | a refund up to the ceiling, refused under a freeze that emptied the bucket and lost on an absent one |
| `MemoryBackend.Backend.TouchClaimMark` | packages/core/src/backend/memory.ts:1343-1353 | extends a live mark and only that |
| `MemoryBackend.Backend.ReapConcurrency` | packages/core/src/backend/memory.ts:1165-1178 | the loop removes the slots whose lease is over |
| `MemoryBackend.Backend.ConcurrencyCost` | packages/core/src/backend/memory.ts:1180-1192 | the loop sums the costs of the other members, 1 for a missing one |
| `MemoryBackend.Backend.ClaimSlot` | packages/core/src/backend/memory.ts:1194-1206 | stamps the slot and its cost and re-arms both keys |
| `MemoryBackend.Backend.AcquireConcurrency` | packages/core/src/backend/memory.ts:1208-1244 | reaps, decides on the occupancy, and claims |
| `MemoryBackend.Backend.AcquireQueuedConcurrency` | packages/core/src/backend/memory.ts:1246-1288 | claims only for an entry in progress; otherwise reaps and declines |
| `MemoryBackend.Backend.ReleaseSlot` | packages/core/src/backend/memory.ts:1322-1327 | removes the slot and its cost, dropping emptied keys |
| `MemoryBackend.Backend.TouchConcurrency` | packages/core/src/backend/memory.ts:1329-1341 | restamps a held slot; one that is gone stays gone |
| `MemoryBackend.Backend.HasRoom` | packages/core/src/backend/memory.ts:1143-1155 | reaps a ledger and compares occupancy and cost with the ceiling |
| `MemoryBackend.Backend.CheckBucket` | packages/core/src/backend/memory.ts:1085-1113 | the refilled balance, and a wait exactly when it cannot cover the cost |
| `MemoryBackend.Backend.PlanBucket` | packages/core/src/backend/memory.ts:1085-1121 | one bucket taken into the check phase |
| `MemoryBackend.Backend.PlanSlot` | packages/core/src/backend/memory.ts:1123-1157 | one slot ledger taken into the check phase |
| `MemoryBackend.Backend.PlanMultiLimit` | packages/core/src/backend/memory.ts:1073-1160 | the loop over all budgets is the specified check phase |
| `MemoryBackend.Backend.WritePlanned` | packages/core/src/backend/memory.ts:990-1002 | the loop over planned buckets, spent or only refilled |
| `MemoryBackend.Backend.ClaimPlanned` | packages/core/src/backend/memory.ts:1001-1003 | the loop over planned slots claims each |
| `MemoryBackend.Backend.AcquireMultiLimit` | packages/core/src/backend/memory.ts:979-1005 | checks every budget before any is spent |
| `MemoryBackend.Backend.ReleaseMultiLimit` | packages/core/src/backend/memory.ts:1007-1020 | hands back a list one by one |
| `MemoryBackend.Backend.Waiting` | packages/core/src/backend/memory.ts:936-939 | whether the live queue holds anything, asked in the same operation |
| `MemoryBackend.Backend.TryAdmitImmediately` | packages/core/src/backend/memory.ts:927-959 | admits only past an empty queue and no freeze, and then as the single claim does |
| `MemoryBackend.Backend.TryAdmitConcurrency` | packages/core/src/backend/memory.ts:1290-1315 | the same gate for a slot |
| `MemoryBackend.Backend.TryAdmitMultiLimit` | packages/core/src/backend/memory.ts:1022-1052 | the same gate, every freeze checked, for several budgets |
| `MemoryBackend.Backend.FreezeBlocksAdmission` | packages/core/src/backend/memory.ts:439-446 | blocks inside the window and while probes are owed |
| `MemoryBackend.Backend.FreezeEmptiedBucket` | packages/core/src/backend/memory.ts:453-459 | a freeze stands and emptied the bucket |
| `MemoryBackend.Backend.ArmFreeze` | packages/core/src/backend/memory.ts:1729-1775 | merges with a standing freeze, keeping the larger of each field |
| `MemoryBackend.Backend.UpdateThawProgress` | packages/core/src/backend/memory.ts:1798-1847 | remembers the completion first, then counts a first success off the budget |
| `MemoryBackend.Backend.CanProcessRequest` | packages/core/src/backend/memory.ts:1863-1885 | refuses inside the window; past it, goes as a probe exactly while a freeze is in force |
| `MemoryBackend.SettlesInOrder` | packages/core/src/backend/memory.ts:834-894 | the answers to a list of settlements are in its order, each to the store as those before have left it |
| `MemoryBackend.SettledOncePerList` | packages/core/src/backend/memory.ts:834-860 | a mark named twice in one list is settled once |
| `Costs.UnusableCostReason` | packages/core/src/utils/cost.ts:24-52 | no flaw is found exactly in the spendable costs; a named entry is one that is neither zero nor above the floor |
| `Costs.TightestBreach` | packages/core/src/utils/cost.ts:142-153 | of the limits an amount exceeds, the one of lowest ceiling, the first of several |
| `Costs.GetCostProblem` | packages/core/src/utils/cost.ts:119-160 | a cost is accepted exactly when it names the metered limits and exceeds no ceiling; a mismatch lists both differences, an excess is blamed on the tightest breached limit |
| `Costs.FlatMeetsTheTightest` | packages/core/src/utils/cost.ts:142-160 | one number for all limits is told the lowest ceiling of all |
| `LimitSpecs.LimitSpecsAreDistinct` | packages/core/src/utils/rateLimit.ts:151-163 | limits of unique names never share a key, which is what claiming several needs |
| `LimitSpecs.MarkedBudgets` | packages/core/src/client/clientTypes/meteredClient.ts:399-437 | marking the specs of a claim afterwards gives what marking each limit would have given |
| `TurnCharges.BudgetsAreLimits` | packages/core/src/client/clientTypes/meteredClient.ts:149-180 | the budgets of a claim are the metered limits, one for one and in their order, each with that limit's kind, key, configuration, freeze and slot, at the amount the cost names for it |
| `TurnCharges.MarkOutlasts` | packages/core/src/client/clientTypes/meteredClient.ts:405-416 | exactly an attempt that will be settled leaves a mark, under its slot id, which outlasts the settle window and one refill from empty by less than a second |
| `TurnCharges.BudgetsCharge` | packages/core/src/client/clientTypes/meteredClient.ts:299-335 | a claim of every budget charges each limit its amount: its bucket reads exactly that much less and keeps the mark through the settle window, its ledger holds the slot at that cost; a declined claim charges none |
| `LimitSpecs.ClaimableExactly` | packages/core/src/client/clientTypes/meteredClient.ts:299-303 | some store admits a list exactly when no budget is asked for more than its ceiling, the claim tolerance included for a bucket |
| `LimitSpecs.AdmissibleIsClaimable` | packages/core/src/client/clientTypes/meteredClient.ts:287-303 | a cost that passes both checks is usable for every budget, and budgets nobody has drawn on admit it |
| `MeteredClient.TurnTaker.GetLimitSpecs` | packages/core/src/client/clientTypes/meteredClient.ts:149-180 | the metered limits one for one and in order, each at the amount the cost names for it; a claim fails exactly when its cost leaves one of them unnamed, a release charges that one nothing |
| `MeteredClient.SoleBucketClaim` | packages/core/src/client/clientTypes/meteredClient.ts:51-66 | the single call for one bucket decides, waits and leaves the budgets as the general call does |
| `MeteredClient.SoleSlotClaim` | packages/core/src/client/clientTypes/meteredClient.ts:51-66 | the single call for one slot ledger does so too |
| `MeteredClient.TurnTaker.ClaimBucket` | packages/core/src/client/clientTypes/meteredClient.ts:346-358 | the shortcut for one bucket comes to what the general call comes to |
| `MeteredClient.TurnTaker.ClaimSlot` | packages/core/src/client/clientTypes/meteredClient.ts:359-383 | the shortcut for one ledger comes to what the general call comes to, but turns away a request whose entry is no longer in progress |
| `MeteredClient.TurnTaker.Claim` | packages/core/src/client/clientTypes/meteredClient.ts:339-397 | whichever call is used, the outcome is the general one's, and the claimed keys are recorded |
| `MeteredClient.DeclineNamesAWait` | packages/core/src/client/clientTypes/meteredClient.ts:612-618 | a declined turn is always told to wait: the longest wait of the buckets that are short or, when none is, the lease of the slots |
| `MeteredClient.TurnTaker.ReleaseStaleSlots` | packages/core/src/client/clientTypes/meteredClient.ts:585-606 | the loop releases exactly the recorded ledgers that no limit names any longer |
| `MeteredClient.TurnTaker.ReleaseClaim` | packages/core/src/client/clientTypes/meteredClient.ts:546-577 | releases stale ledgers, then the budgets claimed from, by the matching call |
| `MeteredClient.UnclaimsEach` | packages/core/src/client/clientTypes/meteredClient.ts:538-577 | under limits that changed since: each budget claimed from and still named is released once, a stale ledger gives up the slot, and nothing the attempt did not draw on moves |
| `MeteredClient.UnclaimsWhole` | packages/core/src/client/clientTypes/meteredClient.ts:538-577 | under unchanged limits the recorded claim goes back whole |
| `MeteredClient.FrozenHandsBack` | packages/core/src/client/clientTypes/meteredClient.ts:322-334 | a claim released because a freeze landed leaves every budget reading as before, unless the freeze emptied it |
| `MeteredClient.TurnTaker.ClaimTurn` | packages/core/src/client/clientTypes/meteredClient.ts:312-336 | the claim, and its return if a freeze lands before the second look |
| `MeteredClient.TurnTaker.TryAcquireTurn` | packages/core/src/client/clientTypes/meteredClient.ts:275-336 | refused with nothing claimed exactly when the cost is not payable; acquired, every limit has been charged just the amount the cost names for it; declined, none has, and the refusal's wait is reported; under a freeze that lands the turn is never taken and the claim is handed back |
| `Freeze.ArmKeeps` | packages/core/src/backend/memory.ts:1729-1775 | an arm never shortens a standing freeze or lowers its probe budget, and its key outlives both |
| `Freeze.FreezeNeverCutShort` | packages/core/src/backend/memory.ts:1729-1885 | in every run, before the deadline any past arm stored, no request is processed and every fast path declines |
| `Freeze.StoredEarlierExactly` | packages/core/src/backend/memory.ts:215-217 | for every requested deadline: the one stored is earlier exactly when the requested one is not negative and is fractional or beyond 2^53-1 |
| `Freeze.CutShortExactly` | packages/core/src/backend/memory.ts:1729-1885 | exactly those requests let some request be processed before the deadline asked for, at a time when they were armed already |
| `Freeze.RedeliveryChangesNothing` | packages/core/src/backend/memory.ts:1798-1830 | a completion delivered again changes nothing, whether a freeze stood at its first delivery or was armed after it |
| `Freeze.ProbeBudgetIsPaid` | packages/core/src/backend/memory.ts:1798-1847 | after any arm owing probes the client reads as unfrozen only once that many first successes were counted |
| `Freeze.ProbesLiftFreeze` | packages/core/src/backend/memory.ts:1836-1846 | past its window a freeze stands for exactly as many distinct successes as it owes |
| `Freeze.EmptiedToTheEnd` | packages/core/src/backend/memory.ts:1744-1757 | after every run, an arm that empties the bucket, or comes on top of a freeze that has, leaves it emptied to the deadline then stored, whatever follows; an arm that does neither leaves it not emptied at once |
| `Freeze.ReadsAgree` | packages/core/src/backend/memory.ts:1853-1885 | admission is blocked exactly while a freeze is read, processing exactly before its deadline, and an emptied bucket is a frozen one |
| `Freeze.ThawAnswersWhatIsRead` | packages/core/src/backend/memory.ts:1798-1847 | a probe's report is answered with what is read afterwards, exactly but for a completion that comes again on a freeze that is over, which is answered with that freeze |
| `Freeze.StaleRedeliveryIsReached` | packages/core/src/backend/memory.ts:1823-1827 | a run that reaches such a redelivery, for any completion |
| `Freeze.FreezeEndsByItself` | packages/core/src/backend/memory.ts:1853-1885 | in every run whose arms owe no probe, nothing is blocked past the last stored deadline |
| `MemberOrder.CompareBytesLoop` | packages/core/src/backend/memory.ts:143-151 | the byte loop finds the first difference, else the shorter |
| `MemberOrder.CompareMembersLoop` | packages/core/src/backend/memory.ts:129-141 | the unit loop, with its detour through the encodings at a surrogate |
| `MemberOrder.UnitsOrderBytes` | packages/core/src/backend/memory.ts:122-141 | away from surrogates, UTF-16 units order as UTF-8 bytes do |
| `MemberOrder.AgreesWithBytes` | packages/core/src/backend/memory.ts:122-151 | for every two texts, lone surrogates included, the fast comparison has the sign of the byte comparison |
| `MemberOrder.MembersAreOrdered` | packages/core/src/backend/memory.ts:122-151 | so members are totally preordered, and tie exactly when their encodings are equal |
| `QueueEntry.AddAndUpdateAgree` | packages/core/src/backend/memory.ts:175-195 | an add and an update give one score exactly inside the score epoch, and it is below 2^53 |
| `QueueEntry.ScoreIsRank` | packages/core/src/backend/queueScore.ts:36-59 | one number orders by clamped priority, then clamped retries, then arrival: exactly |
| `QueueEntry.RankedRightlyExactly` | packages/core/src/backend/queueScore.ts:25-59 | a scored request is ranked rightly against all requests of the epoch exactly when it was made in it or clamps to the top band |
| `RequestQueue.OrderIsTotal` | packages/core/src/backend/memory.ts:398-405 | the order of the sorted set is total and transitive |
| `RequestQueue.RunConsistent` | packages/core/src/backend/memory.ts:1420-1577 | in every run each score is the packed score of the metadata beside it, updates included |
| `RequestQueue.FirstByRank` | packages/core/src/backend/memory.ts:1473-1577 | in every reachable queue the first entry by score is first by priority, retries, arrival and id bytes |
| `RequestQueue.RemovedStaysRemoved` | packages/core/src/backend/memory.ts:1437-1441 | a removed request stays out of the queue, its score with it, while its mark stands, whatever adds arrive |
| `QueueEffects.RemovalLeavesTheRest` | packages/core/src/backend/memory.ts:1579-1599 | a removal takes the score along and touches no other id: from then on the queue is empty for a new arrival exactly if nothing else waited in it |
| `QueueEffects.AddQueuesExactly` | packages/core/src/backend/memory.ts:1420-1464 | an add is refused exactly by a standing mark or a live entry; otherwise the request is there for its whole lifetime, unclaimed, at the rank of its metadata, and no other id changes |
| `QueueEffects.ClaimIsConfirmableExactly` | packages/core/src/backend/memory.ts:1500-1515 | whatever other requests go through meanwhile, a claim is confirmed at any time inside its lease and at none after it |
| `QueueEffects.UpdateWritesExactly` | packages/core/src/backend/memory.ts:1526-1577 | an update writes the fields it names and no other, except that a status ends any claim, and re-scores after a retry or priority |
| `QueueEffects.SweepDropsExactly` | packages/core/src/backend/memory.ts:1664-1690 | a sweep drops a queued request, score and all, exactly if its metadata is gone or no live replica owns it |
| `FastPaths.GateIsExact` | packages/core/src/backend/memory.ts:927-959 | a fast path's gate is open exactly when nothing waits in the live queue and no freeze of its budgets is read |
| `FastPaths.NoArrivalOvertakes` | packages/core/src/backend/memory.ts:927-959 | from the moment a request is queued until it is removed or its lifetime is over no fast path admits a new arrival, claimed and returned as the request may be |
| `FastPaths.LastRemovalOpens` | packages/core/src/backend/memory.ts:927-959 | and the last removal opens the gate |
| `FastPaths.AdmittedUntilPutBack` | packages/core/src/backend/memory.ts:1246-1288 | a queued slot may be claimed for a request from when it is handed out, past its lease too, until it is put back or removed |
| `QueueBackend.RequestQueueStore.Sorted` | packages/core/src/backend/memory.ts:398-405 | every member once, by score and then by bytes |
| `QueueBackend.RequestQueueStore.AddRequest` | packages/core/src/backend/memory.ts:1420-1464 | refused by a bad score, a tombstone or a live entry; otherwise stored with its score |
| `QueueBackend.RequestQueueStore.GetNextRequest` | packages/core/src/backend/memory.ts:1473-1498 | hands out and claims the first entry that may be handed out, or none exists |
| `QueueBackend.RequestQueueStore.ConfirmRequest` | packages/core/src/backend/memory.ts:1500-1515 | confirms only the claim that stands, inside its lease |
| `QueueBackend.RequestQueueStore.UpdateRequest` | packages/core/src/backend/memory.ts:1526-1577 | writes the fields, ends a claim with a status, re-scores with a retry or priority |
| `QueueBackend.RequestQueueStore.RemoveRequest` | packages/core/src/backend/memory.ts:1579-1599 | removes entry and score, leaves a tombstone, reports the probe mark |
| `QueueBackend.RequestQueueStore.TryStartThawRequest` | packages/core/src/backend/memory.ts:1928-1962 | marks an entry that exists exactly when no other probe of its scope is under way |
| `QueueBackend.RequestQueueStore.CleanupOrphanedRequests` | packages/core/src/backend/memory.ts:1664-1690 | sweeps exactly the entries whose owner or metadata is gone, unless the list of the living misses this instance |
| `Dispatch.RunOrderly` | packages/core/src/backend/memory.ts:1473-1515 | the protocol invariant over every interleaving of loops, lapses and lost answers |
| `Turns.StretchSpends` | packages/core/src/client/methods/processRequests.ts:123-146 | each hand-over is paid for by what was owed, an ask, or a loosening step |
| `Turns.AtMostOneDispatch` | packages/core/src/backend/memory.ts:1473-1515 | between two writes of `pending` at most one confirmation succeeds; the owner is told no more often than it asks and once more for each loosening step |
| `Turns.HeardDispatchesOnce` | packages/core/src/client/methods/processRequests.ts:257-295 | where every confirmation is answered and every message that arrives is known to have been sent, one turn per ask |
| `Turns.LoosenedTellsTwice` | packages/core/src/client/methods/processRequests.ts:123-146 | from any world, a loosening step has a continuation without another in which the owner is told twice for one ask |
| `Turns.LooseningIsTheWholeDifference` | packages/core/src/client/methods/processRequests.ts:123-146 | after a run without one, a step opens the way to that if and only if it is a loosening step: a loop failed by a call returns an entry that is dispatched and whose owner has been told or is about to be |
| `Turns.MisreportLoosens` | packages/core/src/client/methods/processRequests.ts:280-295 | the return that follows a message which arrived but was heard to fail is always such a step while the entry is there |
| `Turns.LooseningIsReached` | packages/core/src/client/methods/processRequests.ts:123-146 | a run that reaches such a step by an overwrite, for any request |
| `Turns.MisreportIsReached` | packages/core/src/client/methods/processRequests.ts:280-295 | a run that reaches one by a message that was heard to fail, for any request |
| `Turns.UntoldOverwriteIsHarmless` | packages/core/src/client/methods/processRequests.ts:123-146 | a run that overwrites a dispatched entry whose owner nobody tells: no second turn can follow |
| `Turns.ConfirmedByLatestClaimer` | packages/core/src/backend/memory.ts:1500-1515 | unless a claim was displaced, a granted confirmation is the latest claimer's, inside its lease |
| `Turns.DisplacingIsTheWholeDifference` | packages/core/src/backend/memory.ts:1500-1515 | after a run without one, a step opens the way to a stale confirmation if and only if it displaces a claim: it makes the entry pending in the millisecond of a claim still to be confirmed |
| `Turns.DisplacingIsReached` | packages/core/src/backend/memory.ts:1473-1515 | a run that displaces a claim, for any request |
| `Probes.ProbesAreSingleFlight` | packages/core/src/backend/memory.ts:1893-1962 | in every run no two entries of one freeze scope are probes under their latest claims at once |
| `Probes.LeavesMarkExactly` | packages/core/src/backend/memory.ts:1473-1577 | which steps leave a mark on a pending entry: these and no others |
| `Probes.StoredProbesAreSingleFlight` | packages/core/src/backend/memory.ts:1492-1514 | in a run none of whose steps leaves a mark on a pending entry, the stored marks never show two probes of one scope |
| `Probes.MarkShowsTwo` | packages/core/src/backend/memory.ts:1473-1577 | from any reachable world with a marked pending entry, a continuation shows two |
| `Probes.MarkLeftIsTheWholeDifference` | packages/core/src/backend/memory.ts:1473-1577 | so after a run of such steps, a step opens the way to two shown probes if and only if it leaves a mark |
| `Probes.RetriedProbeShowsTwo` | packages/core/src/client/methods/handleRequest.ts:494-520 | a run that does so, for any request: a probe is dispatched and its owner retries it |
| `QueueRuns.ContestedIsScanned` | packages/core/src/backend/memory.ts:1928-1962 | the scan of the sorted set finds a competing probe exactly where some live entry is one |
| `QueueRuns.EligibleIsClaimable` | packages/core/src/backend/memory.ts:1473-1498 | and the loop over it may hand out exactly the live entries that are claimable |
| `QueueRuns.StepIsOperation` | packages/core/src/backend/memory.ts:1420-1962 | each step of the protocol is one operation on the queue: it leaves the same entries alive with the same metadata |
| `QueueRuns.QueueIsProtocol` | packages/core/src/backend/memory.ts:1420-1962 | whatever loops and owners do to a queue under one lifetime, keys expiring between, is a run of the protocol that ends with the entries the queue has alive |
| `QueueRuns.QueueProbesAreSingleFlight` | packages/core/src/backend/memory.ts:1893-1962 | so what the protocol keeps the queue keeps: one probe at a time in each freeze scope |
| `Drain.EligibleThroughout` | packages/core/src/client/methods/processRequests.ts:96-104 | while nothing lapses or expires, an entry may be handed out throughout a pass or not at all |
| `Drain.VisitCloses` | packages/core/src/client/methods/processRequests.ts:150-350 | a visit opens nothing and closes what it visited, which is why a pass ends |
| `Drain.DrainLoop.ReturnToQueue` | packages/core/src/client/methods/processRequests.ts:135-146 | an entry still there is pending again without its mark; nothing else changes |
| `Drain.DeclineEnds` | packages/core/src/client/methods/processRequests.ts:210-228 | without isolation the first turn that is declined, by a freeze or a short budget, is the last of its pass, and nobody is told in it |
| `Drain.NominatedIsSole` | packages/core/src/backend/memory.ts:1928-1962 | a nomination is taken exactly for a request still there with no other probe standing, of its own grant where grants are apart |
| `Drain.GrantsNext` | packages/core/src/client/methods/processRequests.ts:96-104 | with isolation a declined entry takes its whole grant out of the pass: no entry of that grant is visited after it |
| `Drain.DrainLoop.StepOver` | packages/core/src/client/methods/processRequests.ts:29-48 | the same for an entry nothing will ever fit, and gone exactly if its waiter was failed here |
| `Drain.DrainLoop.TryTurn` | packages/core/src/client/methods/processRequests.ts:213-350 | what the claim of the budgets was answered decides: acquired, an entry still there is handed over unless its message fails; declined, it is returned and the pass stops or skips the entry or its grant; stepped over only for a cost no wait helps |
| `Drain.DrainLoop.VisitEntry` | packages/core/src/client/methods/processRequests.ts:150-350 | the same from the claim of the entry on: where it ends up, what the loop does next and whether its owner is told, by what the visit was answered |
| `Drain.DrainLoop.TakeTurn` | packages/core/src/client/methods/processRequests.ts:95-350 | one turn of the loop keeps what a pass keeps and shrinks what it may still be handed |
| `Drain.DrainLoop.RunPass` | packages/core/src/client/methods/processRequests.ts:83-350 | the loop ends |
| `Drain.DrainLoop.ProcessRequests` | packages/core/src/client/methods/processRequests.ts:65-350 | a worker or a halted replica does nothing, a call during a pass is remembered and brings another pass; every claimed entry is handed over, pending without a mark, or gone, and only a message that was heard to fail is both told and put back; each turn does with its entry what its answers call for; with isolation a decline keeps the rest of its grant, and nobody else, out of the pass; without it entries are visited in queue order and a turn that was declined is the last, with nobody told in it or after it, and a pass neither stopped nor thrown out of leaves only what no budget fits; the lock is free afterwards |
| `HandOff.FinalizeOk` | packages/core/src/client/index.ts:1093-1121 | a completion reaching a replica is stored there unless it is known to be applied or given up on, and only applied ones are acknowledged |
| `HandOff.ForwardOk` | packages/core/src/client/index.ts:1216-1234 | re-announcing counts up to the limit before giving up |
| `HandOff.RunSound` | packages/core/src/client/index.ts:803-1281 | the invariant over lost, repeated and reordered messages and role changes |
| `HandOff.NoCompletionSilentlyLost` | packages/core/src/client/methods/handleRequest.ts:532-562 | a completion its live owner stored is applied, pending at the owner, or given up on after all its announcements; its owner is sent word of exactly what was applied, always when another replica applied it; cleanups are single-flight |
| `HandOffRuns.AnnouncementIsAnswered` | packages/core/src/client/index.ts:1110-1121 | a controller told again of a completion it remembers answers its owner, who is not itself, and does no more; of one it does not remember it starts the cleanup and says nothing yet |
| `HandOffRuns.WorkerOnlyTakesIn` | packages/core/src/client/index.ts:1110-1121 | a replica that is not controller answers nobody and cleans up nothing; it takes in what it does not know |
| `HandOffRuns.AnswerEndsIt` | packages/core/src/client/index.ts:1146-1153 | the answer ends the owner's announcing: the completion is held no more and will not be taken in again |
| `HandOffRuns.HeldCompletionCanEnd` | packages/core/src/client/index.ts:803-1281 | after every run, a completion its live owner still holds, due and with announcements left, can be applied by any controller, after which the owner holds it no more; and the owner as controller can apply it itself |
| `HandOffRuns.ForwardGivesUp` | packages/core/src/client/index.ts:1220-1227 | announced as often as it may be, it is given up on, held no more and not taken in again |
| `HandOffRuns.RoleIsTaken` | packages/core/src/client/index.ts:803-823 | a new controller keeps exactly its own completions and its flush reaches all of them |
| `HandOffRuns.AnnouncementsAreATickApart` | packages/core/src/client/index.ts:1163-1184 | in every run, once its owner has taken a completion in or re-announced it, it is not re-announced by a forward pass begun less than a whole tick later |
| `HandOffRuns.WorkersApplyNothing` | packages/core/src/client/index.ts:1093-1121 | in every run a replica that was never controller applies no completion, whatever it is sent |
| `HandOffRuns.RememberHolds` | packages/core/src/client/index.ts:1155-1161 | remembering takes the completion in, keeps at most 10,000 and forgets none but the oldest |
| `Completions.CompletionTables.RememberCompleted` | packages/core/src/client/index.ts:1155-1161 | adds, dropping the oldest past 10,000 |
| `Completions.CompletionTables.StorePendingRequestDone` | packages/core/src/client/index.ts:1163-1184 | stores a completion not yet known, a tick before it may be forwarded |
| `Completions.CompletionTables.AcknowledgeCompletion` | packages/core/src/client/index.ts:1127-1143 | addressed to the owner and never to itself |
| `Completions.CompletionTables.BeginFlush` | packages/core/src/client/index.ts:1258-1280 | one cleanup of a completion at a time |
| `Completions.CompletionTables.FinishFlush` | packages/core/src/client/index.ts:1265-1280 | applied, remembered and acknowledged, or kept for the next tick |
| `Completions.CompletionTables.FinalizeOwnedRequest` | packages/core/src/client/index.ts:1093-1121 | the first stretch of a completion's arrival is the protocol's step |
| `Completions.CompletionTables.HandleRequestDoneApplied` | packages/core/src/client/index.ts:1146-1153 | an acknowledgement ends the announcing |
| `Completions.CompletionTables.DropRetainedCopies` | packages/core/src/client/index.ts:1241-1248 | the loop drops exactly the copies of other owners' completions |
| `Completions.CompletionTables.UpdateRole` | packages/core/src/client/index.ts:803-823 | becoming controller drops copies and flushes the rest |
| `Completions.CompletionTables.BeginForwardPass` | packages/core/src/client/index.ts:1216-1217 | a pass drops copies and samples its clock once |
| `Completions.CompletionTables.ForwardPending` | packages/core/src/client/index.ts:1218-1237 | skips, re-announces or gives up on one completion |

## Left out

Statements that are deliberately narrower than a reader might expect:

- NetUseIsBounded: no reset lies in the window or before it, since an operator's reset hands out a full bucket by design; the same goes for `NetChargeIsBounded`.
- RateLimitHolds: the cost admitted is bounded by itself only while the window claims and empties; with settlements and refunds in it, `NetChargeIsBounded` is the bound.
- RateLimitHoldsInStore: the same, and every list that is claimed is of usable budgets.
- NetChargeIsBoundedInStore: the same.
- FreezeNeverCutShort: before the deadline that was stored; `StoredEarlierExactly` says when that is the one asked for.
- FirstByRank: integer priorities, retries and timestamps, the latter inside the score epoch; `RankedRightlyExactly` says what happens outside it.
- YoungSlotLeavesOnlyByReleaseInStore: under the default key lifetime and one lease no longer than it.
- ProcessRequests: a pass shorter than one lease in which no key expires and no lease lapses; the only outside change is a claimed request that ends. A nomination or a write-back that itself fails leaves its entry to the lease, which `Dispatch`, `Turns` and `Probes` model and the loop here does not.
- TurnTaker.Claim: the keys claimed from are an out-parameter; the source stores them on the request.
- TurnTaker.ReleaseClaim: the refund and release calls are optional to a backend and skipped where it lacks them; the backend modelled here has both.
- CompletionTables.FinalizeOwnedRequest: the first stretch, up to the cleanup's start; a client that was rebuilt or that draws on another client's budget hands the completion to that client first.
- CompletionTables.UpdateRole: the change of role and the flush; of the sweeps that follow, that of orphaned requests is `CleanupOrphanedRequests`, and that of idle frozen grants is not modelled.
- LateSettlementIsEarlyClaim, and LateRefundUnlessFilled with it: the bucket's key does not expire between the claim and its settlement; `SettlesOnlyItsOwnBucket` says what happens when it does.
- SettleAmount: a credit is not counterfactually exact, in the source or here; `LateCreditUnlessFilled` says what it is.
- AcquiresAllOrNone: lists of usable budgets with distinct keys; an unusable budget ends the check phase with an error and spends nothing.
- ReleaseUndoesAcquire: what later claims read is restored; the keys' new lifetimes and a claim's mark remain.
- RefusalWaitIsExact: costs within the ceilings and positive intervals, as the cost check and construction leave them; the claim tolerance may admit a retry early.
- ProbeBudgetIsPaid: within the seven days a completion id is remembered; a success without an id counts each time.
- YoungSlotLeavesOnlyByRelease: under the default key lifetime and one lease no longer than it.
- QueueIsProtocol: adds that the queue accepts, each with the one lifetime; a refused add is no step, and neither is one whose id the owner is still waiting on.
- HeldCompletionCanEnd: there is such a continuation; that the network and the timers ever take it is not modelled.
- AnnouncementsAreATickApart: the re-announcements of forward passes; an owner that finishes the same request again announces it again.
- NoArrivalOvertakes: no sweep of orphans in between, and later requests are queued for no shorter a time.
- MarkLastsExactly: no other claim, settlement or touch of the same mark in between.
- NoCompletionSilentlyLost: owners that stay alive; a crashed owner's pending completions go with it.

Not part of this model:

- NaN, infinity, rounding and the parsing of stored text; the claim tolerance is kept.
- Fractional millisecond clocks and intervals, and a clock read twice within one operation.
- Lifetimes that a backend refuses to store: they throw before anything is written.
- Two keys whose texts coincide by chance, such as a mark's key and a bucket's.
- `setFreezeState`, `clearFreezeState` and `clearConcurrency`, which overwrite state by design.
- A client whose budget belongs to another client, and the completions handed over when a client is rebuilt.
- The parts of a completion's cleanup that are retried one by one; a cleanup is one event that goes through or fails.
- The Redis server, script loading and argument encoding: each script is the same atomic step.
- The string store, locks, publish and subscribe, instance heartbeats and role election; overlapping controllers are the adversary instead.
- Timers, back-off and retry headers, which only pace the work.
- HTTP, streams, authentication, encryption, logging, telemetry and process lifecycle.
