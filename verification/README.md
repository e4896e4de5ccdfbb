# Verified models of the correlation gate and the gauntlet's numeric kernels

Two parts of the repository are modelled in Dafny, one module per file, and their central promises are proved for all
inputs, all runs and all thread interleavings.

**The correlation gate** (`correlation-gate/src`) admits trade signals. Behind one lock it keeps a position cache, a
dict of pending admissions with expiry times, and spot prices. An evaluation projects cached positions, live pendings
and the new signal into per-currency baskets, tests three metrics against hard and soft limits, and either blocks or
reserves a slot. `Directional` and `Baskets` model instruments and the basket aggregation, `GateCore` what each
critical section does to the protected state, `CorrelationGate` the object with its fields updated in place.
`GateVerdict` says in sums, prices, ages and ids what a decision is and what it leaves; `GateSafety` proves what an
admission guarantees over whole runs and what it does not, `GateExpiry` that lazy expiry is unobservable in decisions,
`GateThreads` that every interleaving of any number of threads is a sequential run, and `GateHistory` which writes to
the state word can follow which.

**The gauntlet's kernels** (`gauntlet/forkb`, `gauntlet/ml_xsect`) are loops over arrays with statistics behind them:
Holm correction (`Holm`, `Family`), the stress battery (`Stress`, `Recovery`), block aggregation and the Newey-West
variance (`Blocks`, `Bartlett`), the permutation-null books and embargo thinning (`NullBook`, `Embargo`), the iterative
weight cap (`CapWeights`), two purged cross-validation schemes (`CombinatorialCv`, `Purge`) and fractional differencing
(`FracDiff`). `Arith`, `Permutations` and `StableSort` are shared vocabulary.

Numbers are exact reals and integers. Where the code uses a square root or a power root, the model states the defining
equation (an unrooted t, a squared Sortino ratio, a CAGR whose power is the equity's power), so comparisons are exact.

## Where the code and its documentation disagree

The model follows the code.

- `gauntlet/forkb/harness.py:74-76` says the weight cap iterates to convergence and returns weights summing to one.
  Its second exit drops weight: the total is one exactly when some positive name starts within the cap
  (`CapWeights.TotalIsOneIff`, `CapWeights.LoneNameLosesWeight`). It stops after 100 rounds: nobody ends above the cap
  under the input conditions of `CapWeights.PromiseKept` and `CapWeights.CappedWeighting`, and somebody does when the
  positive names lack the room (`CapWeights.SomebodyEndsOver`, `CapWeights.TotalWithoutCapacity`) or one of them is too
  small for 100 rounds (`CapWeights.BoundStopsShort`).
- `gauntlet/forkb/blocks.py:97-101` says the correction lowers |t| for every positive autocorrelation. The plain t
  divides by n - 1 and the corrected one by n, so it does exactly when rho (n - 1) > 1: `Blocks.CorrectionDirection`,
  with `Blocks.CorrectionCanInflate` as the four-block failure.
- `gauntlet/forkb/permnull.py:231-232` says windows with independent draws are at least an embargo apart. They are
  fixed bins of the start day, so that holds exactly when no two cohorts closer than the embargo straddle a bin edge:
  `NullBook.WindowsApartIff`, with `NullBook.BinEdgeSplitsNeighbours` as the failure.
- `gauntlet/forkb/selection_stats.py:57-58` calls the purge a leakage guard. It is one when test trades end within the
  embargoed span of their group (`Purge.NoLeakage`); in general a test trade leaks exactly when one of its own bars is
  usable for training (`Purge.LeaksIff`, `Purge.LeakExists`).
- `correlation-gate/src/gate.py:278-304` lets an evaluation in only while the gate is not initializing, synchronizing
  or failed. It reads the state word three times before it takes the lock. `GateThreads.EnteredWithoutServingIff` and
  `GateThreads.NotServingIff` say exactly when that falls short, at entry and at the decision;
  `GateThreads.AdmittedWithoutServing` and `GateThreads.AdmittedAfterFailure` are schedules on which it does.
- `correlation-gate/src/gate.py:516-518` sets FAILED as a fail-safe, outside the lock. It lasts until the gate is
  initialised again exactly when no initialisation and no refresh was midway at that moment
  (`GateHistory.FailureLastsIff`). An initialisation under way ends by writing READY or FAILED over it, and a failing
  refresh that has read READY writes DEGRADED over it (`GateHistory.FailureOverwritten`,
  `GateThreads.RefreshOverwritesIff`).
- `gauntlet/ml_xsect/mlx_cpcv.py:22-26` says train excludes test. With a negative purge plus embargo it does not:
  `CombinatorialCv.SidesDisjointIff`.

## Model

| member | source | states |
|---|---|---|
| `CorrelationGate.Gate.constructor` | correlation-gate/src/gate.py:125-144 | A new gate is INITIALIZING with no positions, no pendings and no ids used yet. |
| `CorrelationGate.Gate.Initialize` | correlation-gate/src/gate.py:199-246 | READY with a loaded cache exactly when the provider answered, FAILED with everything else untouched otherwise; pendings survive either way. |
| `CorrelationGate.Gate.GetPositionsSafe` | correlation-gate/src/gate.py:608-644 | The cache is fetched again only when it is older than five seconds; a timeout or provider error leaves all state as it was. |
| `CorrelationGate.Gate.PurgeExpiredPending` | correlation-gate/src/gate.py:802-807 | Exactly the entries past their expiry disappear, in place, and their number is returned. |
| `CorrelationGate.Gate.PendingPositions` | correlation-gate/src/gate.py:783-791 | Every pending contributes one position at the placeholder price, in dict order. |
| `CorrelationGate.Gate.FirstHardBlock` | correlation-gate/src/gate.py:662-693 | The reported currency is the first affected one whose count, net or gross reaches its hard limit; none is reported only if no affected one does. |
| `CorrelationGate.Gate.SoftWarnings` | correlation-gate/src/gate.py:695-720 | Exactly the affected currencies reaching some soft limit are reported, each once, in order. |
| `CorrelationGate.Gate.EvaluateThresholds` | correlation-gate/src/gate.py:646-725 | The loops over the basket dict compute the declarative judgement on per-currency sums. |
| `CorrelationGate.Gate.RegisterPending` | correlation-gate/src/gate.py:755-771 | One entry is appended under a fresh id, expiring one timeout from now, and nothing else changes. |
| `CorrelationGate.Gate.EvaluateWithLock` | correlation-gate/src/gate.py:310-391 | The in-place critical section refines the specification of an evaluation, on all error paths too. |
| `CorrelationGate.Gate.Decide` | correlation-gate/src/gate.py:342-375 | Projecting, judging and registering refine one step of the specification. |
| `CorrelationGate.Gate.Evaluate` | correlation-gate/src/gate.py:252-403 | Outside READY and DEGRADED, with an unreadable signal, or without the lock, the answer is fail-closed and no state changes; otherwise the call is one locked evaluation. After an admission the counts, net notionals and gross notionals of the pair, written out, are below their hard limits. |
| `CorrelationGate.Gate.RemovePending` | correlation-gate/src/gate.py:426-431 | Only the named entry goes, and the answer says whether it was there. |
| `CorrelationGate.Gate.ConfirmExecution` | correlation-gate/src/gate.py:410-431 | Confirming is one removal step of the specification; the position cache is not touched. |
| `CorrelationGate.Gate.CancelPending` | correlation-gate/src/gate.py:433-448 | Cancelling is the same removal. |
| `CorrelationGate.Gate.UpdateSpotPrices` | correlation-gate/src/gate.py:455-467 | Prices are merged into the known ones, never dropped. |
| `CorrelationGate.Gate.SynchronizeWithEngine` | correlation-gate/src/gate.py:469-529 | Exactly the pendings the engine does not know are purged, and both lists are reported; a malformed id list fails the gate and purges nothing. The ids held afterwards are those held before that the engine named. |
| `CorrelationGate.Gate.RefreshPositions` | correlation-gate/src/gate.py:547-569 | A failed refresh keeps the cache and degrades a READY gate only. |
| `Directional.AffectedAreTouched` | correlation-gate/src/directional.py:52-135 | The currencies the limits are tested on are exactly those on which the position creates exposure. |
| `Baskets.CountIsCardinality` | correlation-gate/src/basket.py:58-98 | A count is the number of positions with a leg on that side: long a pair is long its base and short its quote, and a self-pair keeps the quote leg only. |
| `Baskets.LegValue` | correlation-gate/src/directional.py:230-285 | One leg is worth gold at a known spot price, dollars at face value, and anything else at its entry price. |
| `Baskets.NoLegNoValue` | correlation-gate/src/basket.py:69-92 | A position without a leg on a side adds nothing to it. |
| `Baskets.BasketFields` | correlation-gate/src/models.py:198-233 | Direction, net count, net and gross notional and level of every basket, from the counts and notionals of its two sides. |
| `Baskets.CalculateBasketExposure` | correlation-gate/src/basket.py:32-98 | The dict-updating loop yields, per currency, the declarative counts and notionals over all positions, and fails exactly on an unreadable instrument. |
| `Baskets.OrderIrrelevant` | correlation-gate/src/basket.py:58-98 | Exposure depends on the multiset of positions, not on their order. |
| `Baskets.CountsConserve` | correlation-gate/src/basket.py:58-98 | Summed over currencies, longs equal shorts equal the number of positions, less the one leg a self-pair overwrites. |
| `Baskets.NotionalsConserve` | correlation-gate/src/basket.py:58-98 | Without self-pairs total long notional equals total short notional. |
| `Baskets.NetWithinGross` | correlation-gate/src/models.py:198-222 | With non-negative prices net notional never exceeds gross. |
| `Baskets.NetCountMovesByOne` | correlation-gate/src/models.py:198-222 | A further position moves the net count of each currency it touches by exactly one, and of no other. |
| `GateCore.StepWellFormed` | correlation-gate/src/gate.py:755-807 | Every critical section keeps pending ids distinct and below the supply of fresh ids. |
| `GateCore.JudgeMeaning` | correlation-gate/src/gate.py:646-725 | Blocked if and only if some affected currency reaches a hard limit; allowed if and only if none reaches any limit. |
| `GateCore.AdmissionIffNotBlocked` | correlation-gate/src/gate.py:364-388 | A slot is reserved if and only if the decision is not a hard block, under an id never pending before, beside exactly the live pendings; a fail-closed answer reserves and purges nothing. |
| `GateCore.ProjectionCounts` | correlation-gate/src/gate.py:342-351 | A decision that is not fail-closed was made on exactly positions + live pendings + 1 entries. |
| `GateVerdict.OverridesWin` | correlation-gate/src/models.py:366-390 | A currency's own setting wins, key by key; every other limit is the default. |
| `GateVerdict.FailsClosedIff` | correlation-gate/src/gate.py:252-403 | On a readable pair an evaluation inside the lock fails closed exactly when a fetch was due and failed, a cached instrument is unreadable, gold has no price, or the signal cannot be a position; it then blocks. |
| `GateVerdict.BlockOnSums` | correlation-gate/src/gate.py:657-694 | A decision that is not fail-closed is a block if and only if on some currency of the pair the longs and shorts weighed differ by the hard count or the hard net notional, or add up to the hard gross notional. |
| `GateVerdict.AllowOnSums` | correlation-gate/src/gate.py:646-725 | It is an allow if and only if on every currency of the pair count, net and gross stay below both their soft and their hard limit. |
| `GateVerdict.ReportedCurrencies` | correlation-gate/src/gate.py:657-725 | A block names the first currency of the pair at a hard limit, a warning every one at a soft limit, base first, an allow none. |
| `GateVerdict.AdmissionBelowLimits` | correlation-gate/src/gate.py:342-388 | After an admission, on each currency of the pair, what is held and reserved stays below the hard count, the hard net notional and the hard gross notional, with the sums written out. |
| `GateVerdict.AdmittedEntry` | correlation-gate/src/gate.py:755-771 | An admission appends one entry to the pendings still live, with the signal and the verdict, expiring one timeout from now under the next id; any other answer appends none. |
| `GateVerdict.OnlyLiveStay` | correlation-gate/src/gate.py:802-807 | A decision that is not fail-closed leaves just the pendings whose expiry is not past, and what it admitted. |
| `GateVerdict.WhatStaysPending` | correlation-gate/src/gate.py:410-503 | Confirming and cancelling drop the entry with that id, a handshake keeps the entries the engine knows. |
| `GateVerdict.HandshakeIds` | correlation-gate/src/gate.py:490-516 | After a handshake the gate holds exactly the ids both sides knew, and reports those and the ones it dropped. |
| `GateVerdict.LoadedCache` | correlation-gate/src/gate.py:547-569 | A successful fetch replaces the cache, dates it and moves the version by one; a failing one changes nothing behind the lock. |
| `GateVerdict.PricesMerged` | correlation-gate/src/gate.py:455-467 | New prices win, and no known price is forgotten. |
| `GateSafety.AdmissionRespectsLimits` | correlation-gate/src/gate.py:337-366 | Right after an admission, the exposure of positions and pendings is below all three hard limits on every affected currency. |
| `GateSafety.StepTracks` | correlation-gate/src/gate.py:410-448 | Any request that leaves positions and prices alone tracks no more gross notional and no more positions per side on a currency, unless it admitted a signal checked on that currency. |
| `GateSafety.GrossStaysBelowLimit` | correlation-gate/src/gate.py:646-693 | While positions and prices stand still, tracked gross notional below its hard limit stays below it through every run of every kind of request. |
| `GateSafety.SlotsStayWithinLimit` | correlation-gate/src/gate.py:671-676 | On a currency tracked and admitted on one side only, positions plus pendings stay at most hard_block_count - 1 through every run. |
| `GateSafety.SlotsWithinLimitFromAdmission` | correlation-gate/src/gate.py:671-676 | The same from any admission on that currency onwards, whatever was tracked before it. |
| `GateSafety.ConfirmDropsOne` | correlation-gate/src/gate.py:426-431 | Confirming takes exactly the confirmed position out of every tracked count and notional. |
| `GateSafety.RemovalReachesLimitIff` | correlation-gate/src/gate.py:426-448 | Removing a pending lifts a net count from below a limit to it if and only if it stood one below and the pending was not on the heavier side. |
| `GateSafety.DropReachesLimitIff` | correlation-gate/src/gate.py:802-807 | Dropping any set of pendings at once, as expiry and the handshake do, lifts a net count from below a limit to it if and only if the longs dropped less the shorts dropped carry the signed net count to the limit on either side. |
| `GateSafety.CancellingAHedge` | correlation-gate/src/gate.py:433-448 | A concrete gate where a cancel raises the net count from 1 to 2. |
| `GateSafety.LedgerBalances` | correlation-gate/src/gate.py:410-448 | Over every run on one state of the cache, for every position: occurrences tracked, plus confirmed, plus dropped unexecuted, equal occurrences tracked at the start plus admitted. |
| `GateSafety.ConfirmMovesExposure` | correlation-gate/src/gate.py:426-431 | After any run, a confirm moves exposure from tracked to confirmed-but-unseen and leaves their sum unchanged. |
| `GateSafety.ConfirmedTradesAreUnseen` | correlation-gate/src/gate.py:426-431 | So the limits bound tracked exposure only: until the cache is refreshed, a signal that fits once is admitted any number of times if each admission is confirmed. |
| `GateExpiry.StepAgrees` | correlation-gate/src/gate.py:793-807 | Gates that differ only in expired pendings stay so through every request and give evaluations the same answer. |
| `GateExpiry.LazyRefinesEager` | correlation-gate/src/gate.py:773-807 | Over every run, each evaluation decides as a gate would that drops pendings the moment they expire. |
| `GateExpiry.EagerHoldsOnlyLive` | correlation-gate/src/gate.py:802-807 | All that a section of the eager gate leaves pending was pending and is live, or is the entry it has just admitted. |
| `GateExpiry.ConfirmDiffersOnlyWhenExpired` | correlation-gate/src/gate.py:426-431 | A confirm is answered differently from the eager gate if and only if its pending has expired but is still held. |
| `GateThreads.MicroIsStep` | correlation-gate/src/gate.py:310-391 | Finishing a critical section from any of its intermediate states has the effect and answer of the whole section run at once. |
| `GateThreads.ActionKeepsInv` | correlation-gate/src/gate.py:278-391 | Every action of any thread keeps mutual exclusion, agreement with the sequential run, a monotone clock, and a history that accounts for the state word and for each of the three entry reads. |
| `GateThreads.ReachableInv` | correlation-gate/src/gate.py:278-391 | Hence every reachable system state satisfies them. |
| `GateThreads.InterleavingsAreSequential` | correlation-gate/src/gate.py:278-391 | Whenever the lock is free, state and answers are those of the requests run one by one in lock order, at non-decreasing times. |
| `GateThreads.GrossLimitUnderThreads` | correlation-gate/src/gate.py:646-693 | At every moment of every interleaving, in the middle of a section too: a tracked gross notional below its hard limit after any number k of sections is below it still, if positions and prices have stood still since. |
| `GateThreads.SlotLimitUnderThreads` | correlation-gate/src/gate.py:671-676 | So is the slot limit on a currency tracked and admitted on one side since: the gate is a counting semaphore. |
| `GateThreads.SlotLimitFromAdmission` | correlation-gate/src/gate.py:278-391 | From each admission on, at every moment of every interleaving: if everything tracked on the currency after it is on one side and admissions keep to that side while the cached positions and prices stand still, positions and slots are at most hard_block_count - 1, whatever happened before. |
| `GateThreads.EnteredWithoutServingIff` | correlation-gate/src/gate.py:278-296 | An evaluation past its three entry reads never saw READY or DEGRADED there if and only if it read FAILED second and SYNCHRONIZING third; if the word was not written during the reads, it saw one. |
| `GateThreads.AdmittedWithoutServing` | correlation-gate/src/gate.py:278-304 | A schedule in which the gate is never READY or DEGRADED and a signal is admitted: an initialisation starts between the second and third read, and fails. |
| `GateThreads.NotServingIff` | correlation-gate/src/gate.py:278-391 | While an evaluation holds the lock, and so when it decides, the gate is not in a serving state if and only if the last write to the state word since its entry reads was a failed handshake's or a failed initialisation's. |
| `GateThreads.OnlyHandshakesWrite` | correlation-gate/src/gate.py:516-524 | While an evaluation holds the lock only a failed handshake can write the state word. |
| `GateThreads.AdmissionsServe` | correlation-gate/src/gate.py:278-391 | With neither kind of write since its entry reads, an evaluation decides, and admits, in a serving state. |
| `GateThreads.RefreshOverwritesIff` | correlation-gate/src/gate.py:557-569 | A failed refresh about to write DEGRADED overwrites FAILED if and only if a handshake failed after the refresh had read READY; otherwise the word still says READY. |
| `GateThreads.AdmittedAfterFailure` | correlation-gate/src/gate.py:278-304 | A schedule in which a signal is admitted while the gate is already FAILED. |
| `GateHistory.HistoryIsLawful` | correlation-gate/src/gate.py:215-246 | Over every schedule, what is written over the state word next, handshake failures aside, is the end of the initialisation under way over SYNCHRONIZING, a failed refresh or the start of an initialisation over READY, and only the start of an initialisation over anything else. |
| `GateHistory.FailureLastsIff` | correlation-gate/src/gate.py:516-524 | Over every schedule, the FAILED of a failed handshake lasts until an initialisation starts if and only if no initialisation or refresh was midway when it was written; otherwise that section's last write replaces it. |
| `GateHistory.FailureOverwritten` | correlation-gate/src/gate.py:215-246 | Schedules on which both do: an initialisation under way ends READY, and a failed refresh DEGRADED, in place of the failure. |
| `Holm.HolmAdjustedPvalues` | gauntlet/forkb/deflation.py:18-46 | The sort, running maximum and scatter return, for each cell, the largest Bonferroni p over all sets of cells containing it (closed testing): the size of the set times its smallest p, at most one. Input is refused exactly when some value is outside [0, 1]. |
| `Holm.RunningMaxima` | gauntlet/forkb/deflation.py:35-43 | The loop leaves the running maximum of the step values at every rank. |
| `Holm.Scatter` | gauntlet/forkb/deflation.py:44-46 | The value at each rank lands on the cell of that rank and on no other. |
| `Holm.HolmReject` | gauntlet/forkb/deflation.py:49-51 | A cell is rejected if and only if the Bonferroni test of every set of cells containing it rejects at alpha. |
| `Holm.StepIsBonferroni` | gauntlet/forkb/deflation.py:35-43 | The step value at rank k is the Bonferroni p of the cells ranked k and above. |
| `Holm.BonferroniBelowRunning` | gauntlet/forkb/deflation.py:35-43 | No set of cells containing the cell at rank r has a Bonferroni p above the running maximum there. |
| `Holm.RunningIsClosedTest` | gauntlet/forkb/deflation.py:35-46 | So the running maximum at rank r is the closed-testing p of that cell. |
| `Holm.ClosedTestIsUnique` | gauntlet/forkb/deflation.py:25-46 | The closed-testing p determines the adjusted p, so ties in the sort cannot matter. |
| `Holm.ClosedTestOutright` | gauntlet/forkb/deflation.py:25-46 | The closed-testing p in full: the largest, over the sets holding the cell, of set size times smallest p, capped at one. |
| `Holm.SmallestIsMultiplied` | gauntlet/forkb/deflation.py:40-43 | The smallest p of a family is multiplied by the size of the family. |
| `Holm.RejectionNeedsSmallP` | gauntlet/forkb/deflation.py:49-51 | Rejecting any member of a set T of true nulls at alpha < 1 forces the smallest p in T to be at most alpha / |T|. |
| `Holm.AdjustedIsMonotone` | gauntlet/forkb/deflation.py:25-46 | Adjusted p-values are between the raw p and 1 and keep the order of the raw ones. |
| `Family.RegateInPlace` | gauntlet/forkb/gauntlet.py:270-280 | Every record of the family is re-gated on its own corrected p, in place. |
| `Family.ApplyFamilyCorrection` | gauntlet/forkb/gauntlet.py:263-280 | The records are re-gated on their closed-testing p-values; a p-value that is not one stops the correction with no record touched. |
| `Family.VerdictTable` | gauntlet/forkb/gauntlet.py:52-76 | When a corrected record carries each verdict: the table both ways, with the gate on the corrected p. |
| `Family.RecordKept` | gauntlet/forkb/gauntlet.py:272-279 | A corrected record carries its raw p, its closed-testing p and the size of the family, and is otherwise as it was. |
| `Family.VerdictKeptOrNulled` | gauntlet/forkb/gauntlet.py:52-76 | At the cells' own threshold a cell keeps its verdict if its adjusted p still passes and becomes NULL otherwise; the record stays consistent. |
| `Family.LargerFamilyRaisesP` | gauntlet/forkb/gauntlet.py:263-280 | Adding cells, in any positions, never lowers the adjusted p of a cell already there. |
| `Family.NullSurvivesLargerFamily` | gauntlet/forkb/gauntlet.py:263-280 | A cell nulled in a family stays NULL in every larger family. |
| `Family.CorrectionIsIdempotent` | gauntlet/forkb/gauntlet.py:263-280 | Correcting a corrected family changes nothing. |
| `Family.SingleCellUnchanged` | gauntlet/forkb/gauntlet.py:283-288 | A family of one keeps its p and its verdict. |
| `Recovery.MaxddRecoveryMonths` | gauntlet/forkb/p3.py:62-87 | The longest underwater spell with an open last spell counted at its elapsed length, the longest closed spell, and whether the series ends under water; months times days a year is twelve times the spell in days. |
| `Recovery.ScanSpells` | gauntlet/forkb/p3.py:70-82 | The scan holds the longest closed spell and the length of the open one. |
| `Recovery.CarryRecoveryMonths` | gauntlet/forkb/carry_gate.py:64-80 | The twin loop yields the same longest spell on every series, though it updates its maximum inside spells; an open spell makes its graded value unbounded. |
| `Recovery.LargerMaskLongerSpell` | gauntlet/forkb/p3.py:62-87 | More days under water never shorten the longest spell. |
| `Stress.InjectShortSqueeze` | gauntlet/forkb/p3.py:107-140 | There is a day per window, absent for an empty one, that is the first of the days on which the short leg, as the earlier windows left it, is worst; both results are the inputs less one shock for every window whose day it is. |
| `Stress.InjectionConserves` | gauntlet/forkb/p3.py:107-140 | Both legs lose the same shocks on the same days, and the number of shocks is the number of windows that hold a day. |
| `Stress.LessAt` | gauntlet/forkb/p3.py:138-139 | What a day lost is the number of windows that squeezed it times the shock. |
| `Stress.HitsAreCounted` | gauntlet/forkb/p3.py:131-139 | The hits on a day are the number of windows that squeezed it. |
| `Stress.ShockIsMidway` | gauntlet/forkb/p3.py:125-127 | The shock is midway between the shocks of the two gaps, and a gap of g shocks by g for each unit of weight. |
| `Stress.SqueezeDay` | gauntlet/forkb/p3.py:131-137 | The day is the earliest minimiser of the short leg within the window, absent exactly when the window is empty. |
| `Stress.ConstantGrowth` | gauntlet/forkb/p3.py:34-36 | Equity starts at one and k days at one return c multiply it to (1 + c)^k. |
| `Stress.DrawdownAttained` | gauntlet/forkb/p3.py:39-41 | The maximum drawdown is the loss from some earlier day to some later one... |
| `Stress.DrawdownIsWorst` | gauntlet/forkb/p3.py:39-41 | ...and no pair of days has a worse one. |
| `Stress.UnderwaterMeaning` | gauntlet/forkb/p3.py:73-75 | A day is under water when equity is more than one part in a million million below some earlier day. |
| `Stress.CagrOfConstant` | gauntlet/forkb/p3.py:51-54 | A book that earns c every day has a CAGR of (1 + c)^ann - 1, however long the series. |
| `Stress.CalmarOutright` | gauntlet/forkb/p3.py:57-59 | Calmar is the CAGR over the depth of the maximum drawdown, unbounded for a book that never falls. |
| `Stress.SortinoOfTwoDays` | gauntlet/forkb/p3.py:44-48 | For a gain and a smaller loss the squared ratio, twice over, times the squared loss is the squared sum times days a year. |
| `Stress.SortinoWithoutLoss` | gauntlet/forkb/p3.py:44-48 | Without a losing day Sortino is unbounded. |
| `Stress.PassingMeans` | gauntlet/forkb/p3.py:146-169 | Passing the floors, said of the equity curve: no loss from any day to any later one as deep as either drawdown bound, no spell under water beyond the ceiling, Calmar at its floor or above and Sortino above its floor. |
| `Stress.LoweredCurve` | gauntlet/forkb/p3.py:34-41 | With no day losing more than all, lowering returns never raises equity or equity over its peak, on any day. |
| `Stress.LoweredDrawdown` | gauntlet/forkb/p3.py:39-41 | With no day losing more than all, lowering returns never makes the maximum drawdown shallower. |
| `Stress.LoweredSpell` | gauntlet/forkb/p3.py:62-87 | With no day losing more than all, lowering returns never shortens the longest recovery. |
| `Stress.LoweredCagr` | gauntlet/forkb/p3.py:51-54 | With no day losing more than all, lowering returns never raises the CAGR, a wiped-out book included. |
| `Stress.LoweredCalmar` | gauntlet/forkb/p3.py:57-59 | A positive Calmar floor met by the lowered series is met by the series. |
| `Stress.LoweredSortino` | gauntlet/forkb/p3.py:44-48 | A non-negative Sortino floor exceeded by the lowered series is exceeded by the series. |
| `Stress.ShallowIsSolvent` | gauntlet/forkb/p3.py:39-41 | A drawdown above -100% means every daily growth factor was positive. |
| `Stress.PassingIsMonotone` | gauntlet/forkb/p3.py:146-169 | A series passes all five floors whenever a series nowhere above it does, given a drawdown floor of at least -100% or no day on which the lower series loses more than all. |
| `Stress.StressedPassImpliesRawPass` | gauntlet/forkb/p3.py:107-231 | Passing the battery after the squeeze, at the midpoint gap times a non-negative weight, implies passing it on the raw series, for all dates, windows and short legs. |
| `Bartlett.LongRunVarianceIsSumOfSquares` | gauntlet/forkb/blocks.py:124-137 | At every lag and for every series the Bartlett sum is a scaled sum of squared moving-window sums. |
| `Bartlett.LongRunVariancePositive` | gauntlet/forkb/factor_resid.py:132-146 | So it is never negative, and zero only for the zero series, at every lag. |
| `Blocks.NeweyWestVariance` | gauntlet/forkb/blocks.py:124-132 | The accumulation loop computes that long-run variance. |
| `Blocks.ToBlocks` | gauntlet/forkb/blocks.py:33-66 | Block b is the product of 1 + r over days b * bt up to (b + 1) * bt, less one; a shorter trailing block is kept or dropped as asked; the products of 1 + r over blocks and over the kept days are equal; a non-positive length is refused. |
| `Blocks.CompoundingIsConserved` | gauntlet/forkb/blocks.py:48-66 | The first m blocks compound to exactly the growth of the days they cover. |
| `Blocks.GrowthIsProduct` | gauntlet/forkb/blocks.py:64-65 | Growth is the product of 1 + r over its days. |
| `Blocks.OneDayBlocks` | gauntlet/forkb/blocks.py:63-65 | Blocks of one day are the series itself. |
| `Blocks.EqualDaysBlock` | gauntlet/forkb/blocks.py:63-65 | A full block whose days all return c is (1 + c)^bt - 1. |
| `Blocks.BlockT` | gauntlet/forkb/blocks.py:91-138 | t is undefined exactly on constant or single-block series, corrected exactly when |rho| exceeds the threshold, and its variance is positive: the fallback for a non-positive one is never taken. |
| `Blocks.VariancesPositive` | gauntlet/forkb/blocks.py:133-135 | A series that is not constant has positive plain and corrected variance at every lag. |
| `Blocks.VarianceOfPair` | gauntlet/forkb/blocks.py:112-117 | Two blocks have a plain variance of the mean of a quarter of their squared difference. |
| `Blocks.InterceptT` | gauntlet/forkb/factor_resid.py:123-150 | The second loop, cut short on short series, yields the same corrected variance at every lag and never needs its guard. |
| `Blocks.CorrectionDirection` | gauntlet/forkb/blocks.py:91-138 | The lag-1 correction lowers |t| if and only if rho (n - 1) > 1 and raises it if and only if rho (n - 1) < 1. |
| `Blocks.CorrectionPenalisesFromSixBlocks` | gauntlet/forkb/blocks.py:91-138 | With six blocks or more and threshold 0.2, an applied correction lowers |t| when rho is positive and raises it when rho is negative. |
| `Blocks.CorrectionCanInflate` | gauntlet/forkb/blocks.py:97-101 | Four blocks with rho = 0.25 whose corrected |t| is the larger. |
| `NullBook.AddCohort` | gauntlet/forkb/permnull.py:102-113 | One cohort's in-place additions extend both accumulators by exactly that cohort. |
| `NullBook.BookFromCohorts` | gauntlet/forkb/permnull.py:102-113 | Each day without a live cohort is zero; on any other the return times the number of live cohorts is the sum of what they earn, and it lies between the least and the most one of them earns. |
| `NullBook.NullBookIndependent` | gauntlet/forkb/permnull.py:207-221 | The result is the day by day average of cohorts with the same holds, each carrying on name j the weight of the name its own draw puts there. |
| `NullBook.BinCohorts` | gauntlet/forkb/permnull.py:236-237 | The dict of windows lists, under each window in order of first appearance, exactly its cohorts in input order. |
| `NullBook.AddWindow` | gauntlet/forkb/permnull.py:238-242 | Adding a window extends the accumulators by its cohorts, all under the one permutation. |
| `NullBook.NullBookPersistent` | gauntlet/forkb/permnull.py:224-246 | The result is the day by day average of the cohorts relabelled so, where cohorts of one window share a draw and the cohort that opens a window gets the draw numbered by the windows opened before it. |
| `NullBook.GroupedIsReordering` | gauntlet/forkb/permnull.py:236-242 | Grouping by windows only reorders the cohorts: none is lost, none added twice. |
| `NullBook.BookByMultiset` | gauntlet/forkb/permnull.py:102-113 | The book depends on which cohorts there are, not on their order. |
| `NullBook.BookAverages` | gauntlet/forkb/permnull.py:107-112 | The declarative book is that average. |
| `Arith.DotSingle` | gauntlet/forkb/permnull.py:108-108 | A return vector against weights on a single name is that name's product... |
| `Arith.DotAdds` | gauntlet/forkb/permnull.py:108-108 | ...and weights that add up earn the sum of what they earn apart. |
| `NullBook.GateNullIsTied` | gauntlet/forkb/permnull.py:207-246 | The persistent null is the independent null whose draws coincide within each window. |
| `NullBook.RelabelKeepsComposition` | gauntlet/forkb/permnull.py:207-211 | A name bijection keeps the multiset of weights. |
| `NullBook.NullKeepsComposition` | gauntlet/forkb/permnull.py:224-235 | In the persistent null each cohort keeps its hold and its multiset of weights. |
| `NullBook.NullKeepsLiveCounts` | gauntlet/forkb/permnull.py:224-246 | Every day averages over as many cohorts as in the real book. |
| `NullBook.IdentityNullIsRealBook` | gauntlet/forkb/permnull.py:224-246 | With identity draws the null is the real book. |
| `NullBook.SharedWindowIff` | gauntlet/forkb/permnull.py:236-237 | Two cohorts share a window if and only if the later one starts before the bin of the earlier one ends: its offset in the bin plus the gap is below the width. |
| `NullBook.WindowsApartIff` | gauntlet/forkb/permnull.py:231-237 | Cohorts of different windows start an embargo apart, as documented, if and only if no two cohorts closer than that straddle a bin edge. |
| `NullBook.SharedWindowIsShort` | gauntlet/forkb/permnull.py:236-237 | Cohorts sharing a draw start less than a bin apart. |
| `NullBook.BinEdgeSplitsNeighbours` | gauntlet/forkb/permnull.py:231-237 | For every embargo above one day, two cohorts one day apart with the second on a bin edge break the documented spacing. |
| `Embargo.EmbargoedCohorts` | gauntlet/forkb/permnull.py:174-188 | The walk keeps exactly the cohorts at the greedy positions of the start order. |
| `Embargo.ThinningSpaces` | gauntlet/forkb/permnull.py:174-188 | Consecutive kept cohorts start at least the embargo apart and all come from the input. |
| `Embargo.ThinningCovers` | gauntlet/forkb/permnull.py:174-188 | Every dropped cohort starts within the embargo after some kept one. |
| `Embargo.ThinningIsOptimal` | gauntlet/forkb/permnull.py:174-188 | No subset of the cohorts with that spacing has more members. |
| `Embargo.GreedyStaysAhead` | gauntlet/forkb/permnull.py:174-188 | On every prefix the walk has at least as many members as any spaced choice, and on equality ends no later. |
| `Embargo.OrderedIsPermutation` | gauntlet/forkb/permnull.py:180-181 | Sorting by start neither adds nor loses a cohort. |
| `Embargo.OrderedIsStable` | gauntlet/forkb/permnull.py:181-181 | Cohorts that start on one day stay in input order. |
| `StableSort.SortIsStable` | gauntlet/forkb/permnull.py:181-181 | Entries of equal key keep their input order. |
| `Embargo.KeptOpensItsDay` | gauntlet/forkb/permnull.py:182-188 | Of the cohorts that start on one day only the first can be kept, for an embargo of at least a day. |
| `Embargo.EmbargoWindowIds` | gauntlet/forkb/permnull.py:157-171 | Each date's window number counts the greedy positions up to it. |
| `Embargo.WindowCountIsKeptCount` | gauntlet/forkb/permnull.py:157-188 | On the same start days there are as many windows as kept cohorts. |
| `CapWeights.CapWeights` | gauntlet/forkb/harness.py:73-95 | The result equals the declarative one, and when no weight is positive or cap times names is at most one every weight is one over the number of names. |
| `CapWeights.CapOrSpread` | gauntlet/forkb/harness.py:77-95 | The clipped, normalised and repeatedly rewritten array equals a hundred rounds of the declarative round, whichever exit the loop takes. |
| `CapWeights.NoFallback` | gauntlet/forkb/harness.py:77-95 | Otherwise the rounds run, a hundred at most, on every name's share of the positive total. |
| `CapWeights.NothingToCap` | gauntlet/forkb/harness.py:77-87 | With nobody above the cap at the start the result is those shares. |
| `CapWeights.RoundOutright` | gauntlet/forkb/harness.py:85-94 | A round takes every name above the tolerated cap to the cap; the others never fall and keep their proportions to one another. |
| `CapWeights.RoundInPlace` | gauntlet/forkb/harness.py:84-94 | One loop body, in place, is one round; at either exit no weight is above the cap any more. |
| `CapWeights.RoundKeepsWeighting` | gauntlet/forkb/harness.py:84-94 | If the positive names can hold the total within the cap, a round keeps weights non-negative with total one on the same names, so the u <= 0 exit is never taken. |
| `CapWeights.ExactRound` | gauntlet/forkb/harness.py:89-94 | In such a state the names under the cap have positive total and receive exactly what the violators lose. |
| `CapWeights.RoundShrinksOvershoot` | gauntlet/forkb/harness.py:84-94 | With cap times positive names at least one, a violating round removes from the total overshoot at least the part of the excess that the smallest positive weight is of the total. |
| `CapWeights.ViolationStrictlyShrinks` | gauntlet/forkb/harness.py:84-94 | With cap times positive names at least one, each violating round strictly lowers the total overshoot. |
| `CapWeights.Converges` | gauntlet/forkb/harness.py:84-94 | If every round loses at least a share c of the excess, then while the guard still fires the overshoot beyond the slack has shrunk by (1 - c) each round. |
| `CapWeights.Settles` | gauntlet/forkb/harness.py:84-94 | If also the rounds after some geometric decay suffice to wear off the slack, nobody is above the cap when the loop ends. |
| `CapWeights.CappedWeighting` | gauntlet/forkb/harness.py:73-95 | With cap times positive names at least one, the result has total one on the same names, no weight above the cap by more than the slack and a geometric remainder, and nobody above the cap at all if the rounds suffice for that remainder. |
| `CapWeights.PromiseKept` | gauntlet/forkb/harness.py:73-95 | The documented result in full, total one and nobody above the cap by more than a million-millionth, from a condition on the input: the names below some threshold have room for what the others cannot hold, and start with a large enough share for the hundred rounds. |
| `CapWeights.PromiseReached` | gauntlet/forkb/harness.py:73-95 | A five-name leg with a name above the cap that meets this condition. |
| `CapWeights.SomebodyEndsOver` | gauntlet/forkb/harness.py:74-95 | Conversely, if some positive name starts within the cap but the positive names cannot hold the total within the tolerated cap, the total stays one and somebody ends above the cap. |
| `CapWeights.TotalWithoutCapacity` | gauntlet/forkb/harness.py:84-94 | Two names that trade places above the cap for ever: the total stays one although the names cannot hold it. |
| `CapWeights.RoundKeepsTotalIff` | gauntlet/forkb/harness.py:84-94 | A round keeps the total at one unless every positive name is above the cap, in which case it ends below one with nobody above it. |
| `CapWeights.NotAllOverAgain` | gauntlet/forkb/harness.py:84-94 | Violators leave a round at the cap, so only the first round can find every positive name above it. |
| `CapWeights.TotalIsOneIff` | gauntlet/forkb/harness.py:73-95 | On a non-empty leg the result sums to one if and only if equal weights were returned or some positive name starts within the cap. |
| `CapWeights.PromiseNeedsCapacity` | gauntlet/forkb/harness.py:74-76 | Any weighting with nobody above the cap totals at most the positive names times the tolerated cap, so the documented result needs that capacity. |
| `CapWeights.LoneNameLosesWeight` | gauntlet/forkb/harness.py:92-93 | A single positive name in a wider leg comes back holding only the cap: the total is not one. |
| `CapWeights.SeesawRuns` | gauntlet/forkb/harness.py:84-94 | Three names that stay near a seesaw, swapping each round, for a number of rounds that grows without bound as one of them gets smaller. |
| `CapWeights.BoundStopsShort` | gauntlet/forkb/harness.py:84-95 | Three names that could be held within 0.4 each but after the hundred rounds come back with weights of 0.4 and at least 0.5. |
| `CombinatorialCv.CpcvSplits` | gauntlet/ml_xsect/mlx_cpcv.py:22-37 | Split c has the test indices of combination c and the train indices no test index marks, for every purge and embargo, negative sums included. |
| `CombinatorialCv.TestIndices` | gauntlet/ml_xsect/mlx_cpcv.py:28-29 | The chosen contiguous groups, in increasing order, and nothing else. |
| `CombinatorialCv.TrainIndices` | gauntlet/ml_xsect/mlx_cpcv.py:30-36 | The marking loops leave exactly the indices outside every marked slice, in order; a negative slice bound counts from the end. |
| `CombinatorialCv.MarksNear` | gauntlet/ml_xsect/mlx_cpcv.py:32-33 | With a buffer that is not negative an index is marked by a test index exactly when it is within the buffer of it. |
| `CombinatorialCv.NegativeBufferMarks` | gauntlet/ml_xsect/mlx_cpcv.py:33-35 | With a negative buffer a test index marks nothing, unless the slice's end falls before the start and counts from the far end. |
| `CombinatorialCv.SidesDisjointIff` | gauntlet/ml_xsect/mlx_cpcv.py:22-37 | Train and test share no index if and only if purge plus embargo is not negative. |
| `CombinatorialCv.CombosCount` | gauntlet/ml_xsect/mlx_cpcv.py:40-42 | There are C(N, k) combinations. |
| `CombinatorialCv.CombosSound` | gauntlet/ml_xsect/mlx_cpcv.py:28-28 | Each listed combination is an increasing choice of k groups. |
| `CombinatorialCv.CombosComplete` | gauntlet/ml_xsect/mlx_cpcv.py:28-28 | Every such choice is listed. |
| `CombinatorialCv.CombosLexicographic` | gauntlet/ml_xsect/mlx_cpcv.py:30-30 | They come in lexicographic order... |
| `CombinatorialCv.CombosDistinct` | gauntlet/ml_xsect/mlx_cpcv.py:30-30 | ...so none is listed twice. |
| `CombinatorialCv.CombosPerGroup` | gauntlet/ml_xsect/mlx_cpcv.py:28-28 | Each group is in exactly C(N-1, k-1) combinations. |
| `CombinatorialCv.GroupStep` | gauntlet/ml_xsect/mlx_cpcv.py:17-19 | The first n mod N groups have one index more than the others. |
| `CombinatorialCv.SomeGroup` | gauntlet/ml_xsect/mlx_cpcv.py:17-19 | Every index lies in a group. |
| `CombinatorialCv.OneGroup` | gauntlet/ml_xsect/mlx_cpcv.py:17-19 | And in only one. |
| `CombinatorialCv.SplitsAreBalanced` | gauntlet/ml_xsect/mlx_cpcv.py:22-42 | There are C(N, k) splits and each index is tested in exactly C(N-1, k-1) of them. |
| `CombinatorialCv.SplitSeparates` | gauntlet/ml_xsect/mlx_cpcv.py:22-37 | With a buffer that is not negative, no train index is in or within the buffer of the test side, and an index on neither side is within the buffer of a test index. |
| `Purge.GroupSpan` | gauntlet/forkb/selection_stats.py:24-29 | An entry lies in the span of its group, off-grid entries being clipped to the end groups. |
| `Purge.EdgesAreEven` | gauntlet/forkb/selection_stats.py:24-29 | The groups cut the grid into equal widths. |
| `Purge.PurgeKeep` | gauntlet/forkb/selection_stats.py:56-65 | The mask loop keeps exactly the trades that, for every test group, end before its span less the embargo or enter after its span plus the embargo. |
| `Purge.NoLeakage` | gauntlet/forkb/selection_stats.py:24-65 | No trade used for training overlaps a test trade that ends within the embargoed span of its group, on or off the grid, for every choice of test groups. |
| `Purge.OverlapIsSharedBar` | gauntlet/forkb/selection_stats.py:56-65 | Trades overlap exactly when some bar lies in both. |
| `Purge.ShortTradesEndInTime` | gauntlet/forkb/selection_stats.py:56-65 | Every test trade no longer than the embargo is such a trade. |
| `Purge.TrainingBarsAreFree` | gauntlet/forkb/selection_stats.py:56-65 | Every bar of a training trade would itself be kept for training as a one-bar trade: the purge decides bar by bar. |
| `Purge.LeaksIff` | gauntlet/forkb/selection_stats.py:56-65 | Some training trade overlaps a given test trade if and only if one of the test trade's own bars is outside the test groups and all their widened spans. |
| `Purge.LeakExists` | gauntlet/forkb/selection_stats.py:56-65 | A grid of ten bars where a trade of length 3 leaks through an embargo of 1. |
| `FracDiff.FfdWeights` | gauntlet/ml_xsect/mlx_fracdiff.py:15-23 | The loop returns the recurrence's weights up to the first one below tau, or all lags tried. |
| `FracDiff.ApplyFfd` | gauntlet/ml_xsect/mlx_fracdiff.py:26-37 | A value is reported exactly where the whole window is present, and it is the weighted sum over that window. |
| `FracDiff.FracDiffFfd` | gauntlet/ml_xsect/mlx_fracdiff.py:26-37 | The same with the truncated weights of order d. |
| `FracDiff.ImpulseResponse` | gauntlet/ml_xsect/mlx_fracdiff.py:26-37 | A lone 1 at s comes out at t weighted by the lag t - s, and not at all beyond the window. |
| `FracDiff.FilterIsLinear` | gauntlet/ml_xsect/mlx_fracdiff.py:26-37 | Filtering respects sums and multiples, so the impulse responses determine it. |
| `FracDiff.WeightsShrink` | gauntlet/ml_xsect/mlx_fracdiff.py:15-23 | For 0 < d < 1 every weight after the first is negative and strictly smaller in magnitude than the one before. |
| `FracDiff.TruncationIsSafe` | gauntlet/ml_xsect/mlx_fracdiff.py:15-23 | When the loop stops on tau, every omitted weight, however far, is below tau. |
| `FracDiff.WeightsSumToProduct` | gauntlet/ml_xsect/mlx_fracdiff.py:15-23 | For every order the first K + 1 weights sum to the product of (1 - d/j) over j up to K. |
| `FracDiff.RetainedStaysPositive` | gauntlet/ml_xsect/mlx_fracdiff.py:15-23 | For 0 < d < 1 that product stays in (0, 1]. |
| `FracDiff.OrderZeroIsIdentity` | gauntlet/ml_xsect/mlx_fracdiff.py:26-37 | Order 0 returns the series unchanged, missing values included. |
| `FracDiff.OrderOneIsFirstDifference` | gauntlet/ml_xsect/mlx_fracdiff.py:26-37 | For tau at most 1, order 1 is the first difference, undefined at the first point and next to missing values. |
| `FracDiff.LargeTauKeepsOneWeight` | gauntlet/ml_xsect/mlx_fracdiff.py:15-37 | For tau above 1 order 1 keeps a single weight and returns the series unchanged. |

## Left out

- `flash/` and `blackbox/` are not part of this model.
- Floating-point rounding, NaN propagation and infinities: numbers are exact; a NaN p-value and a missing series value
  are `None`.
- Square and power roots are not computed: t keeps its mean and its unrooted variance, Sortino is given by its square
  and sign, CAGR by its power. CAGR, Calmar and Sortino are therefore predicates on a value, not functions.
- The dict `p3_battery` returns is not assembled; its metrics and grades are the predicates `Stress.IsBattery` and
  `Stress.Passes`.
- Empty return series in the battery, which the code would average.
- The provider, audit log, reasons, recommendations and evaluation times of the gate: the provider is an arbitrary
  answer or error handed to each critical section.
- uuid ids are a counter of fresh ids; the clock is read once per critical section.
- The pending dict is a sequence of entries in insertion order; basket objects are values, so aliasing between them is
  not captured; `contributing_positions`, the current-exposure snapshot, highest-exposure search, statistics and
  snapshot accessors are not modelled.
- The version stamp in a fail-closed answer after an exception is read inside the critical section, not after the lock
  is released.
- Parsing of instrument and direction text: an instrument is a pair or unrecognised, a direction is exact, readable only
  after trimming and upper-casing, or unreadable.
- GateSafety.GrossStaysBelowLimit: assumes a non-negative gold price, because a negative one would let a dropped
  pending raise gross notional.
- GateSafety.SlotsStayWithinLimit: states the slot limit on one-sided currencies only, because
  `GateSafety.RemovalReachesLimitIff` shows that the net count of a hedged one can rise when a slot is dropped.
- CapWeights.CappedWeighting: bounds weights by the cap plus the slack and a geometric remainder,
  because the loop is cut at 100 rounds (`CapWeights.BoundStopsShort`); `CapWeights.PromiseKept` and
  `CapWeights.SomebodyEndsOver` leave between them the inputs that have the room but too little time.
- Family.ApplyFamilyCorrection: the records are values in an array rather than shared dicts, and every cell is taken to
  have reached its verdict; cells that returned early are not modelled.
- CombinatorialCv.CpcvSplits: yields are collected into a sequence; no groups at all, which the code cannot split into,
  and an empty choice of test groups, which it cannot concatenate, are excluded.
- Sorting a series by date before it is cut into blocks, and aligning the short leg to the net series by date: series
  come in date order and of equal length.
- Drawing of permutations: a draw is any bijection of the names, handed in.
- Cohort weights from labels, return matrices, block Sharpe ratios, deflated Sharpe ratios, the overfitting probability,
  augmented Dickey-Fuller tests, regressions and the book builders around `_cap_weights`: library numerics or data
  plumbing.
