# Codna: a verified model

Codna fixes repositories with the help of a local code memory, a fleet of CI runners, a compiled worker
pool and a test-impact analysis. This project models the state machines and algorithms at its core and
proves what they keep. Code that works in place is a class or a method with loops, proved against a
function on values; the theorems are about those functions and about whole runs of steps.

| area | modules | what is proved |
|---|---|---|
| code memory | `Manifest`, `MemoryIndex`, `MemoryTheorems` | incremental indexing agrees with a rebuild over every refreshing run; the manifest never lies; interrupted runs converge; the frame |
| hybrid recall | `Sorting`, `Ranking` | rank fusion respects unanimity; the recall pipeline loses and invents nothing |
| fleet admission | `Admission`, `CiAdmission`, `Fleet`, `DurationLog` | the lease protocol over all interleavings; the shape of every decision; the bounded wait; the trimmed log |
| worker pool | `MojoPool`, `Utf8`, `Framing` | single-flight start among any threads; frame round trips over any chunking |
| test impact | `ImportGraph`, `Impact` | the graph construction and the worklist select exactly the reachable tests; selection is monotone |
| patches | `PatchLines`, `PatchPrinting` | the parser undoes a printer of unified diffs; ranges are the one canonical list |
| fix loop | `FixRun` | every returning run leaves one commit on its base; verified exactly when green in time |
| slices, paths, identity | `Segments`, `SitePath`, `Identity` | sliced extraction refines the flat slice; activation is idempotent and order-stable; equal ids mean equal findings |

`dafny verify dfyconfig.toml` checks everything.

## Where the code and its own words differ

The model follows the code. These differences came out as theorems with the exact condition or with a
concrete run.

- `codna/memory.py` promises that pruning keeps the collection in step with the extraction. That is so for
  coherent extractions only: two units under one id with different text make a second index overwrite the
  last one with an earlier one (`TwiceEqualsRebuildIffCoherent`). A run with `refresh=False` forgets every
  row it did not write, and these rows stay for good (`NoRefreshOrphansTheRest`). After an interrupted run
  the next refresh must find what it skips untouched and produce or prune what was written
  (`RefreshAfterStopEqualsRebuildIff`): an edit that was upserted and then reverted is missed
  (`RevertAfterInterruptionIsMissed`), and a unit that was added and then reverted is never pruned
  (`AddedThenRevertedStays`).
- `ensure_fresh` drops an index of another embedding space before it looks at the requested languages, so a
  request it then refuses leaves no index behind (`CodeMemory.EnsureFresh`).
- `codna/memory.py:653-656` promises never to touch another scope's rows. Ids carry no service, so indexing a
  repository under a second service takes the rows of the first over (`SecondServiceTakesRows`), and an old,
  scope-less entry under the repository's prefix is pruned whatever scope its row has. Nothing else is
  touched (`ForeignRowStaysIffNeitherProducedNorLegacy`).
- `codna/impact.py:141-146` says that extra aliases only add edges. An alias can take the name of a file that
  is walked later, and a longer alias can take an import away from a package (`AliasTakesLaterName`,
  `LongerAliasWins`). `AliasesOnlyAddIffUnshadowed` says for which layouts the promise holds.
- `codna/impact.py:159-175` counts the dots of a relative import from the file's parent module. In a package's
  own `__init__.py` every relative import therefore resolves one package too high
  (`RelativeImportReachesIffOrdinary`), so the re-exports that `codna/impact.py:252-255` calls covered are
  not: a change behind `from .module import name` selects no test (`ReExportedChangeIsMissed`). Too many dots
  wrap around to an ancestor (`TooManyDotsWrapAround`).
- `codna/memory_install.py:45-52` lists install roots in resolution order. When several provide the package,
  the last one wins the import (`LastProvidingCandidateWins`).
- `codna/memory.py:846-868` fuses two lanes by rank. While the test penalty of `codna/memory_rerank.py` is on,
  candidates are sorted again by lane score, so the fused order only breaks ties (`DownweightReorders`).
- `codna/ci_admission.py:431-440` cuts a name after stripping dashes. Naming a name again changes it exactly
  when the stripped name is longer than 120 characters and the 120th is a dash, and its pooled history is
  then looked up elsewhere (`SafeNameIdempotentIffNoDashAtCut`).
- `codna/ci_admission.py:389-391` keeps six decimals so that no accepted duration is dropped on reading. Those
  of at most half a microsecond still are (`SampleIsReadIff`).
- The safety valves of the fleet lock can overshoot the ceiling (`ValvesCanOvershoot`). Stealing the lock of a
  crashed process reads its age and unlinks it in two calls, so two stealers at once can do it without any
  lateness (`TwoStealersStayCalm`). The lock works exactly as long as every step is orderly
  (`ExclusiveIffOrderly`), and stealing is safe if no lock is taken under a pending removal
  (`CalmRunIsOrderly`).
- Two owners with the same safe file name share one lease (`ReleaseUndoesAcquireIffNoNamesake`).
- `codna/local_mojo_pool.py:705-719` checks that the pool runs before warming it up and not again, so a caller
  that requires the pool can return with a dead one (`DeadPoolIsReturnedOnce`).

## Model

| member | source | states |
|---|---|---|
| `MemoryIndex.CodeMemory.Index` | codna/memory.py:650-750 | one indexing run, loop by loop, leaves exactly the state and the report of the specification; an unsupported language changes nothing |
| `MemoryIndex.CodeMemory.WriteGroups` | codna/memory.py:709-737 | the nested loops over scopes upsert exactly the changed units, record every hash and count both kinds |
| `MemoryIndex.CodeMemory.GroupByScope` | codna/memory.py:682-687 | the dictionary of groups holds each scope once, in first-seen order, with its units in order |
| `MemoryIndex.CodeMemory.Compare` | codna/memory.py:712-726 | the inner loop splits a group into changed and unchanged units and records all hashes |
| `MemoryIndex.CodeMemory.Reset` | codna/memory.py:956-970 | reset leaves the empty directory: no rows, no manifest, no run record |
| `MemoryIndex.CodeMemory.EnsureFresh` | codna/memory.py:783-809 | rebuild on a new embedding space, refresh on a moved HEAD, and exactly otherwise nothing at all; a refused language leaves the memory empty after a change of embedder and untouched otherwise |
| `MemoryIndex.Database.UpsertTexts` | codna/memory.py:734-735 | a batch upsert is one write per unit, in order |
| `MemoryIndex.ResolveLanguages` | codna/codeunits.py:204-222 | languages resolve exactly when each one requested is registered; none requested means all registered |
| `MemoryIndex.UpsertedConcat` | codna/memory.py:728-736 | upserting scope by scope is one upsert of the concatenated batches |
| `MemoryIndex.RecordedMerge` | codna/memory.py:743-747 | collecting hashes apart and merging them last is recording into the old manifest |
| `MemoryTheorems.GroupingPermutes` | codna/memory.py:682-687 | the scope-by-scope loops visit every unit exactly as often as extraction produced it |
| `MemoryTheorems.ProducedAt` | codna/memory.py:709-747 | after any index a produced id holds its unit's row and entry, whether it was written or skipped |
| `MemoryTheorems.NotProducedAt` | codna/memory.py:689-707 | after any index an id not produced is gone if it vanished and untouched otherwise |
| `MemoryTheorems.IndexKeepsTruth` | codna/memory.py:675-747 | an index keeps every manifest entry honest and every row in its partition, with or without refresh |
| `MemoryTheorems.RefreshEqualsRebuildIffNoOrphan` | codna/memory.py:675-747 | after a refresh the owned scopes hold what a from-empty index stores exactly when no owned scope held an orphan row |
| `MemoryTheorems.RunKeepsTruth` | codna/memory.py:679-747 | over every run mixing repositories, services, languages, refresh flags, `ensure_fresh` and resets the manifest never lies; refreshing runs also track every row |
| `MemoryTheorems.RunEqualsRebuild` | codna/memory.py:675-747 | incremental equals rebuild after every indexing step of every refreshing run |
| `MemoryTheorems.RecordFollowsRun` | codna/memory.py:748-748 | over every run the record names the commit and the embedding space of the last index that ran, resets and indexes inside `ensure_fresh` included |
| `MemoryTheorems.EnsureFreshIsExact` | codna/memory.py:783-809 | told from the steps taken and in raw commits and spaces: after any refreshing run `ensure_fresh` gives the from-empty index on another non-empty space, exactly the rebuilt rows in the owned scopes when both commits are non-empty and differ, and otherwise the memory as it was |
| `MemoryTheorems.FreshAfterIndex` | codna/memory.py:783-809 | an index at one commit and `ensure_fresh` at another, by whatever instances and after whatever run: its three outcomes |
| `MemoryTheorems.ReportCounts` | codna/memory.py:706-750 | the report counts the entries that went, the partitions of the extraction, and no written unit exactly when the manifest knew them all |
| `MemoryTheorems.BareHashIsHonoured` | codna/memory_manifest.py:5-12 | a unit whose hash stands in the manifest in the older, bare form is not written again |
| `MemoryTheorems.BareEntryPrunedIffPrefix` | codna/memory_manifest.py:25-32 | a bare entry that is not produced is pruned exactly when its id carries the repository's prefix |
| `MemoryTheorems.EmptyServiceIsNone` | codna/memory.py:677-696 | an empty service, of the instance or of a unit, counts as none, and the instance's goes before the unit's |
| `MemoryTheorems.TextsAreTheRows` | codna/memory.py:668-668 | the texts kept for the reranker are those of the rows the index stands for, for exactly the produced ids |
| `MemoryTheorems.TwiceEqualsRebuildIffCoherent` | codna/memory.py:715-729 | indexing an extraction twice agrees with a rebuild exactly when units under one id agree on their content |
| `MemoryTheorems.LastWriterIsOverwritten` | codna/memory.py:715-729 | two different units under one id: the second index leaves a store unlike the rebuild |
| `MemoryTheorems.ReindexIsNoOp` | codna/memory.py:725-726 | an immediate second index changes nothing, writes and removes nothing, and skips every unit |
| `MemoryTheorems.CountsAddUp` | codna/memory.py:709-750 | indexed plus unchanged is the number of units, duplicates included |
| `MemoryTheorems.ForeignRowStaysIffNeitherProducedNorLegacy` | codna/memory.py:697-736 | a row of a scope this index does not own stays exactly when its id is not produced and no refresh finds a scope-less entry for it under the prefix |
| `MemoryTheorems.ForeignRowOfARunStaysIffNotProduced` | codna/memory.py:697-736 | in a memory no older version has written, after any run, such a row stays exactly when its id is not produced |
| `MemoryTheorems.ForeignEntryFollowsRefresh` | codna/memory.py:743-747 | the entry of such a row is kept by a refresh and forgotten without one |
| `MemoryTheorems.SecondServiceTakesRows` | codna/codeunits.py:154-158 | indexing any repository under a second service in the same database takes every row of the first over |
| `MemoryTheorems.InterruptedRunConverges` | codna/memory.py:706-747 | stopped after any deletes and any prefix of upserts, a rerun on the same extraction gives the memory of an uninterrupted run |
| `MemoryTheorems.RepeatedInterruptionsConverge` | codna/memory.py:706-747 | so do any number of interrupted attempts in a row |
| `MemoryTheorems.LateStopConverges` | codna/memory.py:747-748 | so does a stop between the manifest and the run record |
| `MemoryTheorems.RefreshEqualsRebuildIff` | codna/memory.py:675-747 | for any memory at all, honest or not, a refresh agrees with a rebuild on the owned scopes exactly when what it skips is stored and nothing stays behind |
| `MemoryTheorems.RefreshAfterStopEqualsRebuildIff` | codna/memory.py:706-747 | after any stop on any extraction, a refresh on another one agrees with its rebuild exactly when the stop touched nothing the refresh will skip and left no row it can neither produce nor prune |
| `MemoryTheorems.RevertAfterInterruptionIsMissed` | codna/memory.py:725-726 | an edit upserted by an interrupted run and then reverted leaves a stale row, for every unit and text |
| `MemoryTheorems.AddedThenRevertedStays` | codna/memory.py:697-704 | a unit added by an interrupted run and then reverted leaves a row that no later refresh prunes |
| `MemoryTheorems.NoRefreshOrphansTheRest` | codna/memory.py:679-679 | without refresh the manifest knows exactly the produced ids, the store keeps every old row, and nothing is orphaned exactly when all were produced |
| `Ranking.Accumulate` | codna/memory.py:857-861 | a fusion loop over the dictionary adds exactly the lane's shares and keeps first-seen order |
| `Ranking.Fuse` | codna/memory.py:856-862 | both loops and the sort compute the fused order |
| `Ranking.FusionListsEachOnce` | codna/memory.py:856-862 | the fused order lists each id of either lane exactly once |
| `Ranking.FusionRespectsUnanimity` | codna/memory.py:856-862 | a unit ranked ahead of another in every lane that holds the latter precedes it |
| `Ranking.BothLanesBeatOne` | codna/memory.py:855-862 | an id among the first 62 of both lanes, not last in both, precedes everything only one lane holds |
| `Ranking.DenseWinsTies` | codna/memory.py:855-862 | of two ids of one rank, each in one lane, the dense lane's comes first |
| `Ranking.DownweightReorders` | codna/memory_rerank.py:42-56 | the test penalty permutes the candidates, sorts by adjusted score, and lets the incoming order decide between equals |
| `Ranking.TestsOnlyFall` | codna/memory_rerank.py:42-56 | with a penalty between nought and one only tests fall back: a source keeps its place before what scores no better and gets ahead of what scores less |
| `Ranking.PenaltyReordersIff` | codna/memory_rerank.py:42-56 | a test falls behind a source it led exactly when its penalised score is below the source's |
| `Ranking.RerankPermutesHeadOnly` | codna/memory_rerank.py:107-135 | reranking gives every candidate of the head its own new score, sorts the head by it and leaves everything past the cutoff in place, for any cutoff |
| `Ranking.BetterNewScoreComesFirst` | codna/memory_rerank.py:118-135 | of two candidates of the head the one with the better new score comes first, whatever their old order |
| `Ranking.CutoffCountsFromEitherEnd` | codna/memory_rerank.py:107-107 | a cutoff is the first `k`, all but the last `-k`, nothing or everything |
| `Ranking.RecallIsLossless` | codna/memory.py:846-882 | fusion, filter, penalty and rerank together keep exactly the ids of either lane that pass the filter, each once |
| `Ranking.UnanimityReachesTheAnswer` | codna/memory.py:846-882 | with penalty and reranker off, what every lane that lists a unit puts ahead of it comes ahead of it in the answer, filter or not, lexical lane or not |
| `Sorting.SortIsStable` | codna/memory_rerank.py:56-56 | what stood ahead and may stay ahead does |
| `Admission.DetCap` | codna/admission_control.py:268-270 | the floor lies between one and the ceiling (or one) |
| `Admission.DecisionIsDownwardClosed` | codna/admission_control.py:272-285 | for a contention-monotone predictor, whoever is admitted at some occupancy is admitted at every lower one |
| `Admission.AdmittedWithinCeiling` | codna/admission_control.py:272-285 | no predictor can push admission past `max(1, ceiling)` |
| `Admission.SampleBreachProbability` | codna/admission_control.py:58-71 | the counting loop computes the sampled frequency of its draws |
| `Admission.SamplingIsContentionMonotone` | codna/admission_control.py:58-71 | for fixed positive draws it is a probability and grows with contention |
| `Admission.SampledPredictorIsMonotone` | codna/admission_control.py:58-71 | with draws fixed per history the sampled frequency is a contention-monotone predictor |
| `Admission.EqualDrawsDecide` | codna/admission_control.py:58-71 | where every sampled job took the same time, the contended zone admits exactly while that time, stretched by the jobs per floor slot, meets the limit |
| `Admission.MCAdmissionDecider.TryAdmitOne` | codna/admission_control.py:312-322 | check and reserve at once: the verdict, the new occupancy and the new arrivals, within the ceiling |
| `Admission.MCAdmissionDecider.FinishOne` | codna/admission_control.py:256-260 | a completion frees one slot, never below zero, and keeps a positive duration in the window |
| `Admission.RunStaysWithinCeiling` | codna/admission_control.py:239-322 | over every interleaving of admissions and completions occupancy stays between zero and `max(1, ceiling)`, and the window holds the latest positive durations |
| `Admission.ColdStartFillsFloor` | codna/admission_control.py:268-285 | without a history any number of arrivals fills the deterministic floor exactly, and is then held |
| `CiAdmission.CeilingIsCoreBudgetRoundedDown` | codna/ci_admission.py:172-192 | the derived ceiling is the core budget rounded down, for every share, reserve and machine |
| `CiAdmission.CeilingIsLargestAllowed` | codna/ci_admission.py:172-192 | the ceiling is the largest number that the operator's limit, or else both share and reserve, allow; one is always allowed |
| `CiAdmission.IdleFleetIsAdmitted` | codna/ci_admission.py:494-529 | an idle fleet always gets its job, under any pressure, history and predictor |
| `CiAdmission.PressureAdmitsOnlyIdle` | codna/ci_admission.py:501-525 | under load or memory pressure the fleet admits exactly when nothing is running |
| `CiAdmission.LoadDecides` | codna/ci_admission.py:511-516 | a load reading above the core budget with its headroom lets a job only into an idle fleet; any other changes nothing |
| `CiAdmission.MemoryDecides` | codna/ci_admission.py:517-525 | so does a free-memory reading below its limit |
| `CiAdmission.PressureNeverAdmits` | codna/ci_admission.py:501-525 | more load and less memory never let in a job that less would have kept out |
| `CiAdmission.CapacityIsDownwardClosed` | codna/ci_admission.py:494-529 | admission is downward closed in the live count, pressure or not |
| `CiAdmission.SampledFleetIsDownwardClosed` | codna/ci_admission.py:467-529 | so it is for the sampling predictor |
| `CiAdmission.PredictorMattersIffContended` | codna/ci_admission.py:467-529 | two predictors can differ exactly above half the ceiling, with room, a history and no pressure |
| `CiAdmission.TenPercentDecides` | codna/ci_admission.py:467-529 | there a job is let in exactly while the forecast stays below ten percent |
| `CiAdmission.EqualJobsDecide` | codna/ci_admission.py:467-529 | and where every sampled job took the same time, exactly while that time, stretched by the jobs per slot of half the ceiling, meets the limit |
| `CiAdmission.AdmittedFitsCeiling` | codna/ci_admission.py:522-528 | no predictor can push the fleet past its ceiling |
| `CiAdmission.AcquireSlot` | codna/ci_admission.py:532-570 | the wait loop ends after at most `ceil(max_wait / poll) + 1` attempts, always admits, holds a lease exactly when the last attempt was granted, retries refusals only, gives up only after the full wait and makes at most one more attempt once its polls fill it |
| `Fleet.ExclusiveIffOrderly` | codna/ci_admission.py:247-289 | over every run whoever is inside check-and-reserve holds the lock file exactly when no waiter enters without it and no removal hits the lock of a process inside |
| `Fleet.DisorderLetsTwoIn` | codna/ci_admission.py:264-277 | and nothing less will do: who removes the lock of a process inside can follow it in at once, and who gives up meanwhile has |
| `Fleet.OrderlyFleetIsSafe` | codna/ci_admission.py:246-289 | over all interleavings of orderly steps at most one process is inside, the lease files never exceed the ceiling and no owner holds two, with crashes, releases and reaps outside the lock |
| `Fleet.LockNeverStaysBehind` | codna/ci_admission.py:246-289 | over every orderly run without crashes the lock file is there only while somebody is inside |
| `Fleet.LockChangesHandsOnly` | codna/ci_admission.py:279-289 | on leaving only who came in with the lock frees it |
| `Fleet.CalmFleetIsSafe` | codna/ci_admission.py:246-289 | the same while no holder overstays, no waiter times out and no lock is taken under a pending removal |
| `Fleet.CalmRunIsOrderly` | codna/ci_admission.py:267-277 | under these three assumptions, which allow stealing from a crashed process, every step is orderly |
| `Fleet.TwoStealersStayCalm` | codna/ci_admission.py:268-270 | the third assumption is needed: two stealers of a crashed process's lock overshoot in a run without any lateness |
| `Fleet.StepKeepsInv` | codna/ci_admission.py:402-428 | every orderly step keeps the lock with whoever is inside, safe counts, naming and the bound |
| `Fleet.RemovalKeepsInv` | codna/ci_admission.py:423-428 | deleting a lease, by whomever and whenever, never makes a count unsafe |
| `Fleet.ValvesCanOvershoot` | codna/ci_admission.py:256-277 | for any two owners under a ceiling of one: impatience, a slow holder and a pair of stealers each have a run that ends with two leases |
| `Fleet.RoomIsGiven` | codna/ci_admission.py:494-529 | under an operator's limit of `k` and without readings of load and memory, a section lets its job in while twice the jobs then live fit the limit, and keeps it out when `k` are live |
| `Fleet.LeaseStore.Reap` | codna/ci_admission.py:304-333 | the loop deletes exactly the dead leases and counts the others |
| `Fleet.LeaseStore.Acquire` | codna/ci_admission.py:402-421 | with the lock held: what is kept, whether a lease is granted and under which name, within the ceiling |
| `Fleet.LeaseStore.Release` | codna/ci_admission.py:423-428 | a release removes that lease and no other, and measures the time it was held, never negative |
| `Fleet.ReleaseUndoesAcquireIffNoNamesake` | codna/ci_admission.py:402-428 | releasing what was just acquired leaves what the reap kept exactly when no other live owner has the same file name |
| `Fleet.UndisturbedReap` | codna/ci_admission.py:304-333 | undisturbed, the interleaved reads and unlinks of a section do what the store's loop does |
| `Fleet.LiveLeaseSurvives` | codna/ci_admission.py:304-333 | over any run, disorderly ones too, a lease that every step spares and that is at most six hours old at the end is still there, unchanged |
| `Fleet.GrantedSlotIsHeld` | codna/ci_admission.py:402-421 | six hours long nobody takes away the lease a process has just written |
| `Fleet.CountedSectionLeavesNoAbandonedLease` | codna/ci_admission.py:304-333 | no slot is held for good: if nobody writes a name again, a section that begins more than six hours after its lease, finds its process dead, cannot read it, or is of its own owner leaves it out of the directory once it has counted, whatever the others do meanwhile |
| `Fleet.GoneStaysGone` | codna/ci_admission.py:304-333 | and over any run in which nobody writes the name it stays out |
| `Fleet.GoneFleetCountsZero` | codna/ci_admission.py:304-333 | a fleet whose jobs are all gone counts no live lease, and the next job is let in |
| `DurationLog.LogFile.RecordDuration` | codna/ci_admission.py:380-399 | append a positive duration at six decimals and trim at twice the window |
| `DurationLog.LogFile.ReadDurations` | codna/ci_admission.py:348-364 | the positive readable entries among the last 200 lines |
| `DurationLog.TrimmingIsInvisible` | codna/ci_admission.py:348-399 | after any records, reading gives what the never-trimmed log would give |
| `DurationLog.DurationsAreLatest` | codna/ci_admission.py:348-399 | a log holds the last 200 samples, oldest first |
| `DurationLog.RoundingIsClose` | codna/ci_admission.py:393-393 | each is a whole number of microseconds and off by half of one at most |
| `DurationLog.SampleIsReadIff` | codna/ci_admission.py:358-393 | an accepted sample is read back exactly when it is longer than half a microsecond |
| `DurationLog.LogStaysBounded` | codna/ci_admission.py:395-397 | the file stays within 400 lines from the first recorded sample on |
| `DurationLog.SafeNameIsSafe` | codna/ci_admission.py:431-440 | a file name is non-empty, at most 120 long, made of alphanumerics, dashes and underscores only, and does not start with a dash |
| `DurationLog.SafeNameIdempotentIffNoDashAtCut` | codna/ci_admission.py:431-440 | naming a name again gives it back exactly when the stripped raw name has at most 120 characters or no dash as its 120th |
| `DurationLog.DashAtCutIsRenamed` | codna/ci_admission.py:366-378 | every name of 119 letters, a dash and a letter is named differently the second time, as the pooled history names it |
| `MojoPool.StartIsSingleFlight` | codna/local_mojo_pool.py:756-808 | for any threads and any interleaving with shutdowns the start section is entered at most once, the event is set up exactly while one thread is inside, and outcome and error are published before the event is set |
| `MojoPool.StepKeepsInv` | codna/local_mojo_pool.py:764-808 | every critical section keeps that invariant |
| `MojoPool.SecondPassLeaves` | codna/local_mojo_pool.py:763-780 | a waiter's second pass through the loop returns or raises: it neither waits nor starts |
| `MojoPool.WaiterHasAStarter` | codna/local_mojo_pool.py:725-740 | whoever waits has its event set or a thread that will set it, and whichever thread finishes wakes it |
| `MojoPool.RequiredReturnIsFoundOrStarted` | codna/local_mojo_pool.py:743-808 | a caller that requires the pool returns normally only if it found it running under the lock or published the one it started; the pool then runs exactly unless that one died while warming |
| `MojoPool.DeadPoolIsReturnedOnce` | codna/local_mojo_pool.py:705-794 | in that case its starter returns as if all were well and the next caller that requires it raises |
| `MojoPool.NoRestart` | codna/local_mojo_pool.py:770-808 | after its one attempt the module never starts or publishes a pool again, whatever shutdown did |
| `MojoPool.WhoRaises` | codna/local_mojo_pool.py:764-808 | a caller raises exactly when it started a pool that failed, or requires the pool and its start gave nothing, its wait was too long, or the one attempt is over with nothing running |
| `MojoPool.PrewarmSpawnsIffItWouldStart` | codna/local_mojo_pool.py:818-832 | a prewarm spawns a thread exactly when that thread, going straight on, would be the one to start, and does not require the pool |
| `MojoPool.PoolModule.EnterLocked` | codna/local_mojo_pool.py:764-778 | the first critical section: its four answers and what each leaves in the globals |
| `MojoPool.PoolModule.PublishLocked` | codna/local_mojo_pool.py:787-792 | the second critical section publishes state, error and event together |
| `MojoPool.PoolModule.TakeForShutdown` | codna/local_mojo_pool.py:835-840 | shutdown takes the pool away and touches nothing else |
| `Utf8.DecodeEncodeThen` | codna/codeunits.py:106-108 | strict decoding undoes encoding, whatever bytes follow |
| `Utf8.EncodeDecode` | codna/codeunits.py:106-108 | only encodings decode |
| `Framing.Socket.ReadExact` | codna/local_mojo_daemon.py:155-168 | however the stream is chunked the loop's result depends on its bytes only |
| `Framing.Socket.WriteFrame` | codna/local_mojo_daemon.py:150-152 | exactly the frame is sent, or nothing when the length does not fit 32 bits |
| `Framing.Socket.ReceiveFrame` | codna/local_mojo_daemon.py:171-189 | result and remaining stream are those of the specification, for each error case, the decoder's own among them |
| `Framing.FrameRoundTrip` | codna/local_mojo_daemon.py:150-189 | reading what was written returns the payload and consumes exactly header and data |
| `Framing.RefusedFrameIsConsumed` | codna/local_mojo_daemon.py:171-189 | a payload that is no text, no JSON or no object is consumed all the same, with its own error: the stream stays in step |
| `Framing.HeadersAreOrdered` | codna/local_mojo_daemon.py:150-152 | lengths travel most significant byte first: headers are ordered as their lengths are |
| `Framing.ConversationRoundTrip` | codna/local_mojo_daemon.py:150-189 | any number of frames come back one after another, and nothing of what follows is taken |
| `Framing.TruncatedFrameFails` | codna/local_mojo_daemon.py:160-165 | every frame cut short raises the protocol error with the number of bytes missing |
| `Framing.AcceptedFrameWasThere` | codna/local_mojo_daemon.py:171-189 | what a reader accepts is a frame of the stream and all it consumed |
| `Framing.FramesArePrefixFree` | codna/local_mojo_daemon.py:150-152 | a stream of frames splits in one way only |
| `ImportGraph.Graph.constructor` | codna/impact.py:93-126 | the three passes build packages, names, trees and exactly the edges of the import relation |
| `ImportGraph.Graph.NamePass` | codna/impact.py:107-119 | pass 2: first claim wins for every name, and a tree or an opaque mark per file |
| `ImportGraph.Graph.EdgePass` | codna/impact.py:120-126 | pass 3: an edge exactly where a parseable file loads another module |
| `ImportGraph.Graph.FileEdges` | codna/impact.py:123-126 | in whatever order statements are walked one file gains exactly its edges |
| `ImportGraph.Graph.ResolveTarget` | codna/impact.py:128-139 | the loop over prefixes computes resolution |
| `ImportGraph.RelativeImportReachesIffOrdinary` | codna/impact.py:159-175 | with the dots it takes to name an ancestor package, with or without a module, a relative import reaches it exactly when the file is not a package's own; in an `__init__.py` it lands one package too high |
| `ImportGraph.TooManyDotsWrapAround` | codna/impact.py:169-170 | with more dots than packages the slice wraps around and names an ancestor again |
| `ImportGraph.RelativeImportHasEdge` | codna/impact.py:120-126 | a relative import in an ordinary module makes the edge to the first file that claims the name it prints |
| `ImportGraph.AbsoluteImportHasEdge` | codna/impact.py:120-126 | so does an absolute import, in either form |
| `ImportGraph.NoSelfEdge` | codna/impact.py:120-126 | no file is an importer of its own module |
| `ImportGraph.RelativeReExportHasNoEdge` | codna/impact.py:159-175 | whatever top-level files there are, a package that re-exports its module relatively gets no edge to it; with the absolute form it does |
| `ImportGraph.TestFileByName` | codna/impact.py:61-63 | a test file is one whose file name starts with `test_` or ends in `_test.py` |
| `ImportGraph.ResolveIsLongestPrefix` | codna/impact.py:128-139 | resolution answers with the longest known prefix, and with none exactly when no prefix is known |
| `ImportGraph.AliasesAre` | codna/impact.py:141-157 | a file's aliases are exactly the suffixes of its key that start at the last part of an ancestor package |
| `ImportGraph.FirstClaimWins` | codna/impact.py:111-112 | a name belongs to the first file that claims it |
| `ImportGraph.ResolvesToFirstClaim` | codna/impact.py:107-139 | a target reaches the key of the first file that claims its longest claimed prefix |
| `ImportGraph.KeptIffUnshadowed` | codna/impact.py:141-157 | a target still reaches with aliases what it reached without exactly when no alias claims more of it than its longest key and no earlier file claims that key |
| `ImportGraph.AliasesOnlyAddIffUnshadowed` | codna/impact.py:141-157 | on a layout of files aliases only add edges, whatever the files import, exactly when no target is shadowed |
| `ImportGraph.AliasTakesLaterName` | codna/impact.py:111-112 | an alias takes the name of a file walked later, for any names |
| `ImportGraph.LongerAliasWins` | codna/impact.py:128-139 | a longer alias takes an import away from a package although every file keeps its own name |
| `Impact.ImporterClosure` | codna/impact.py:234-256 | the worklist ends, and in whatever order it is popped selects exactly the tests that import a reachable module |
| `Impact.VisitImporters` | codna/impact.py:241-248 | one module's importers, split into tests and unvisited keys |
| `Impact.ComputeImpact` | codna/impact.py:199-267 | all exits in order, the closure and the shared-core guard together |
| `Impact.SelectFromGraph` | codna/impact.py:222-267 | changed tests and reached tests, unless they come too close to the whole suite |
| `Impact.VisitedIsReachable` | codna/impact.py:234-248 | when the frontier is empty the visited modules are exactly those reachable through non-test importers |
| `Impact.SelectionIsMonotone` | codna/impact.py:199-267 | adding changed files never removes a selected test, through all exits together |
| `Impact.SelectionIsDiscovered` | codna/impact.py:210-267 | selections never leave the discovered tests |
| `Impact.ChangedTestAffectsItself` | codna/impact.py:231-239 | a changed test affects itself and nothing else |
| `Impact.SubsetIffBelowFraction` | codna/impact.py:263-267 | the graph answers with a subset exactly while the affected tests stay below the fraction of all |
| `Impact.UncertainChangeRunsAllIff` | codna/impact.py:178-228 | a changed file that is not a parsed Python file of the graph brings the whole suite, unless every changed file is source of a known other language in which extraction succeeds and finds no test |
| `Impact.ReExportedChangeIsMissed` | codna/impact.py:252-255 | a change of a module that its package re-exports relatively selects no test of that package; with the absolute form the test is affected |
| `PatchLines.ChangedFiles` | codna/local_repository_shims.py:297-334 | the parser loop over mutable state returns, for exactly the files with a change, their canonical ranges |
| `PatchLines.CompactRanges` | codna/local_repository_shims.py:475-488 | sorted, non-adjacent ranges covering exactly the set |
| `PatchLines.CanonicalIsUnique` | codna/local_repository_shims.py:475-488 | a set of lines has one such list |
| `PatchLines.CurrentFileIsKnown` | codna/local_repository_shims.py:315-328 | the file being read always has an entry, so the lookup cannot fail |
| `PatchLines.HeaderClosesHunk` | codna/local_repository_shims.py:308-323 | until the next hunk header no line after a file header counts for any file |
| `PatchPrinting.EditReadsBackIffClean` | codna/local_repository_shims.py:450-465 | a printed edit is read as what it means exactly when a deleted text does not start with `--` nor an added one with `++` |
| `PatchPrinting.HeaderReadsBack` | codna/local_repository_shims.py:22-25 | a printed hunk header gives its two start lines back, with or without counts |
| `PatchPrinting.HunkHeaderIff` | codna/local_repository_shims.py:22-25 | a line is taken for a hunk header exactly when it has the form of one: two numbers, each with an optional count, and whatever follows; these numbers are what is read |
| `PatchPrinting.FileReadsBack` | codna/local_repository_shims.py:303-328 | one printed file adds its lines to the file it is about: the new name, or the old one when deleted |
| `PatchPrinting.PatchReadsBack` | codna/local_repository_shims.py:297-334 | a whole multi-file patch, read on top of anything, adds exactly its lines per path |
| `PatchPrinting.ParsePrinted` | codna/local_repository_shims.py:297-334 | text in, ranges out: parsing a printed patch, with either line ending, returns the canonical ranges of the changed lines of exactly the changed files |
| `PatchPrinting.SplitUndoesJoin` | codna/local_repository_shims.py:303-303 | splitting the text gives the printed lines back, for line feeds and for carriage return and line feed |
| `PatchLines.PathIsReadOffItsPadding` | codna/local_repository_shims.py:468-472 | a path comes out of its header without the white space around it and otherwise as it was, and the null device is no path |
| `FixRun.Checkout.RunFix` | codna/fix_run.py:546-627 | the loop over the mutable checkout has the outcome of the specification, for any sequence of attempt outcomes |
| `FixRun.Checkout.Rollback` | codna/fix_run.py:242-266 | HEAD returns to the base exactly when it still is the commit this attempt made and the reset works |
| `FixRun.ReturningRunIsGood` | codna/fix_run.py:546-627 | every returning run made between one and the allowed number of attempts from one base, all but the last red, each retry informed by the red one before, and leaves one commit on the base |
| `FixRun.VerifiedIffGreenInTime` | codna/fix_run.py:598-627 | a run ends verified exactly when some attempt within the limit is green and every one before it was red and could be rolled back |
| `FixRun.AttemptsAreLimited` | codna/fix_run.py:537-546 | in the options' own fields: a returning run makes between one and `max(1, max_iterations)` attempts, and one unless tests are asked for on a local apply |
| `FixRun.HopelessRunUsesAllAttempts` | codna/fix_run.py:537-627 | a run whose attempts are all red and can be taken back makes exactly `max(1, max_iterations)` |
| `FixRun.VerifiedIffGreenBeforeLimit` | codna/fix_run.py:537-627 | a run that asks for tests on a local apply ends verified exactly when a green attempt comes before that number, after red ones that were taken back |
| `FixRun.UnaskedIsNeverVerified` | codna/fix_run.py:537-578 | any other run claims nothing about the tests |
| `FixRun.RaisingRunLeavesBaseOrOneCommit` | codna/fix_run.py:547-622 | every raising run leaves HEAD on the base, on the raising attempt's one commit on it, or where the tests moved it, after red attempts that were all taken back |
| `Segments.LinesConcatToSource` | codna/codeunits.py:91-91 | pre-splitting loses nothing |
| `Segments.LineShape` | codna/codeunits.py:91-91 | a line is a stretch without breaks and one terminator, or the end of the source |
| `Segments.LineEndsAtTerminator` | codna/codeunits.py:91-91 | a line ends at its terminator, and a carriage return with a line feed end one line |
| `Segments.SegmentIsFlatSlice` | codna/codeunits.py:94-109 | for every pair of positions in range a segment is the decoded bytes between the flat offsets, and fails when they do not decode |
| `Segments.SegmentAtBoundaries` | codna/codeunits.py:94-109 | on character boundaries it succeeds with exactly those characters of the source |
| `Segments.NoEndNoText` | codna/codeunits.py:94-109 | a node without an end has no text; in range only a cut character can fail |
| `SitePath.SearchPath.FindProvider` | codna/memory_install.py:91-103 | the first providing entry, or the length of the path |
| `SitePath.SearchPath.ActivateOne` | codna/memory_install.py:117-132 | one directory is left, moved or inserted in place, with the outcome reported |
| `SitePath.SearchPath.ActivateSitePackages` | codna/memory_install.py:106-133 | the loop over the directories, path and report together |
| `SitePath.ReportsAreTrue` | codna/memory_install.py:117-133 | each report is true: already effective means nothing moved and no provider stood ahead; moved or inserted names the place the entry has, before every provider, with nothing else gained or lost |
| `SitePath.ActivationClosedForm` | codna/memory_install.py:106-133 | where everything ends up, for every path and candidate list |
| `SitePath.ActivationIsIdempotent` | codna/memory_install.py:106-112 | activating twice leaves the path that activating once leaves |
| `SitePath.OthersKeepTheirOrder` | codna/memory_install.py:106-112 | entries that are not candidates are never lost, added or reordered |
| `SitePath.LastProvidingCandidateWins` | codna/memory_install.py:45-133 | the last providing candidate becomes the first provider, the other providing ones follow it, and every other candidate stands ahead |
| `Identity.SameIdIffSameMeaning` | codna/findings.py:114-134 | two findings share an id exactly when rule, kind and primary key agree and their flows are the same multiset of location-key sequences |
| `Identity.SameIdIffSamePlaces` | codna/findings.py:102-134 | in the findings' own fields: equal ids exactly when rule and kind agree and primary location and flows, lined up in some order, run through the same files, lines and symbols; columns do not count |
| `Identity.VolatileFieldsDoNotMatter` | codna/findings.py:102-120 | reordering flows, moving columns or giving the kind as a plain string never changes the id |

## Left out

- Row metadata: commit, branch, path and symbol type are stored with a row but not covered by its hash, so an unchanged row may carry old ones; rows here hold scope, service, text and space.
- Hashes, scope keys and serializations are taken as injective: the truncated digest of `index`, the separator byte between its parts, the vendor's scope key, and the two functions of `CanonicalId`.
- Extraction, language detection, glob matching and syntax trees are inputs: units, import statements, positions and predicates.
- Manifest files: reading a missing or broken file as empty, the temporary file and its replacement.
- MemoryTheorems.RunKeepsTruth: reads ids by a fixed naming, in which an id belongs to one repository and one language; two repositories one of whose ids is a prefix of the other's could share an id.
- `compact`, `status`, `export_serve_artifact`, the lexical build and the first-use licence and kernel checks of `codna/memory.py`.
- MemoryTheorems.RunEqualsRebuild: is about runs that never pass `refresh=False`, because the code forgets rows there; NoRefreshOrphansTheRest says what happens then.
- Ranking.TestsOnlyFall: is about scores that are not negative and a penalty between nought and one.
- Ranking.RerankPermutesHeadOnly: takes the new scores as given, any sorting of them by descending score; the z-score blend, the word-vector model and the external rerank hook are not modelled.
- Real numbers stand for floats and clocks: `SampleBreachProbability` takes its draws as an argument, `SampledPredictor` fixes them per history.
- Fleet.CalmFleetIsSafe: bounds lease files, not running jobs, under the three assumptions the code needs.
- The path on which the state directory is unwritable and every section runs unlocked; half-written lease files other than as unreadable ones.
- `gate`, `start` and `can_admit` of the decider, the compiled predictor, `evaluate`, and the pooled history beyond being some history.
- DurationLog.SafeNameIsSafe: `alnum` is any character predicate that holds on the letters of `job`.
- MojoPool: the body of the start section, stopping a pool, the two-second courtesy wait of shutdown and the environment switches read before the loop.
- `_Activity` and `_accept_loop` of the daemon: idle accounting and the listener.
- Framing.Socket.ReceiveFrame: socket timeouts are not modelled.
- Impact.ComputeImpact: the selected tests are a set; their order and the reason texts are left out. Edges are those the code builds: `from pkg import submodule` yields `pkg` only.
- Paths are sequences of components and dotted names sequences of parts, so a component that holds a dot is one part.
- PatchLines.ChangedFiles: digits of a hunk header are the ten ASCII ones.
- FixRun: a checkout is HEAD and parents; planning, applying, testing and resetting are outcomes, and asking git for HEAD always answers. Usage totals, elapsed time, the artifact cleanup, the recovery of an already applied branch, pull-request creation and the wording of a retry are left out.
- Segments.SegmentIsFlatSlice: positions are those of a syntax tree: lines count from one, columns lie within their lines.
- SitePath: which directories are candidates, and whether a directory exists, is decided before the loop; whether an entry provides the package is a predicate that does not change meanwhile.
- Git plumbing, HTTP, process control, command line, configuration, key store, rendering, and the gate, policy and evasion tables.
