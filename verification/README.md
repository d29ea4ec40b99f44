# Verification of the research tooling's concurrent and measuring cores

The repository's `tools/ci` directory runs a voting protocol's participants in real browsers and certifies what they
did: it keeps a bounded pool of browsers, relays published candidates, accepts or rejects measured multi-party traces,
and summarizes profiles, processes and reports. This project models the state machines and algorithms behind those
tools and proves what they promise, over every input, every run and every interleaving.

- **Browser pool** (`PoolModel`, `PoolProofs`, `PoolTheorems`, `PoolProgress`, `PoolHistory`, `BrowserPools`). Each
  stretch of code between two awaits is one step; any settled promise may run its continuation next. An inductive
  invariant holds in every reachable state; the safety theorems follow from it, a measure shows that every use returns
  in every run without further calls, and what became of each use and browser is told by the steps of the run alone.
  The class updates the pool's own fields, and every method is proved to be one step of the transition system.
- **Workflow trace checker** (`WorkflowModel`, `WorkflowCausality`, `WorkflowCosts`, `WorkflowReports`,
  `WorkflowExistence`, `WorkflowAcceptance`, `WorkflowSummary`, `WorkflowMonitors`). A table says who may do what, what
  each operation needs, publishes and finishes. Acceptance is proved to be exactly a condition on the trace itself and
  to order the whole protocol in real time, and the charged time to be conserved and bounded; some trace is accepted
  exactly while the thresholds can be attained. The class is the loop itself.
- **Interval sweep** (`EvaluationSweep`, `EvaluationKeys`). The endpoint sweep is proved to measure unions of intervals,
  defined tick by tick; the texts its entries are kept under stay apart.
- **Relay store and views** (`RelayStore`, `RelayLog`, `ParticipantRelays`, `CandidateFiles`, `CandidateViews`,
  `OfferAnnouncements`, `OfferLog`). A promise-chain lock per key, an append-only log, pages of it, chunked files, and a
  filtered view that walks the log while others append.
- **Codecs** (`CommandLine`, `KeySourceReport`, `Bytes`). Windows argument quoting against the C runtime's parsing rules,
  and a canonical binary report.
- **Smaller cores** (`ProcessTree`, `Departures`, `RecentOutputs`, `CheckGraphs`, `GatedGuards`, `GuardOutcomes`,
  `CpuProfiles`).
- **Shared** (`Basics`, `Sums`, `Ordering`, `Intervals`): optional values, sums over maps and sequences, a stable sort,
  ranges of integers.

Times are whole ticks: any finite list of floating-point times is a list of whole multiples of one common tick, so this
loses nothing but rounding in sums. Quorum and release thresholds are arbitrary integers. An unordered source
collection (a map, a directory listing) is visited in an arbitrary order.

## Model

| member | source | states |
|---|---|---|
| PoolProofs.NextKeepsInv | tools/ci/participant-browser-pool.ts:39-153 | Every step of every interleaving of uses, launches, crashes, closings and closeAll keeps the pool's invariant: holds equal the tasks that hold, an ended entry has left the map, waiters are parked tasks |
| PoolProofs.ReachableInv | tools/ci/participant-browser-pool.ts:29-153 | The invariant holds in every state of every run from the empty pool |
| PoolTheorems.BoundedAndExclusive | tools/ci/participant-browser-pool.ts:48-70 | In every reachable state at most `browsers` browsers run, each under its own key in the map until its ending settled, no two under one key |
| PoolTheorems.LaunchLeavesRoom | tools/ci/participant-browser-pool.ts:48-56 | A launch happens only while the pool is open to launches and the key is not in the map, and leaves one more guard once every open browser including the new one has grown to its guard |
| PoolTheorems.TurnLaunchesExactlyWithRoom | tools/ci/participant-browser-pool.ts:48-102 | A turn whose key is not open, in a pool not closed, launches exactly if fewer than `browsers` are open and free memory less what every open one may still grow to its guard is at least two guards; without that room it ends an idle browser if there is one, waits if all are busy, and is refused only if none is open |
| PoolTheorems.TurnFindsItsKey | tools/ci/participant-browser-pool.ts:71-83 | A turn is refused by a closed pool, awaits the ending of an ending entry under its key, and otherwise holds what is open under it once more |
| PoolTheorems.FullPoolIsReached | tools/ci/participant-browser-pool.ts:48-50 | For every configuration some run has exactly n live browsers, for each n up to `browsers`: the bound is tight |
| PoolTheorems.NeverHandsOutAnEndingEntry | tools/ci/participant-browser-pool.ts:71-84 | A task gets an entry only by launching it or by finding it open and not ending |
| PoolTheorems.TurnIsAlwaysPossible | tools/ci/participant-browser-pool.ts:72-102 | Acquire's loop body has an outcome in every state that keeps the invariant; when browsers are idle one is strictly least recently used |
| PoolTheorems.EvictionTakesTheLeastRecentlyUsed | tools/ci/participant-browser-pool.ts:84-99 | A browser ended for room was idle and its last action ended strictly first; ever after nobody holds it and it stays under its key exactly until its ending settles |
| PoolHistory.EvictedWasLetGoFirst | tools/ci/participant-browser-pool.ts:84-99 | Told by the steps of the run: whichever other browser was idle when one was ended for room had been let go of again after the last time that one was |
| PoolHistory.UseReturnsAsItsAction | tools/ci/participant-browser-pool.ts:126-141 | In every run a use returns well exactly if its action ended well, and fails only by its action, its launch, the ending it awaited for room, or a turn in a pool that is closed or has no browser at all |
| PoolHistory.ResumesAsItEnded | tools/ci/participant-browser-pool.ts:71-99 | What an awaiting use does next follows from how the launch or the ending it awaited turned out |
| PoolHistory.EveryStepOf | tools/ci/participant-browser-pool.ts:57-70 | Every step leaves a browser launched, ending and sampled exactly as that step says: it ends only if asked by its key, by closing all or for room, and an ending goes on to the browser only if that launched |
| PoolHistory.BrowserHistory | tools/ci/participant-browser-pool.ts:57-123 | In every run a browser launched, failed or ended exactly as some step had it, its recorded memory is its last sample, and it is in the map from its launch until its ending settled or its failed launch was handled |
| PoolTheorems.WaitersWaitForSomething | tools/ci/participant-browser-pool.ts:95-101 | While anyone waits for room the map is not empty and every open browser is held or ending |
| PoolProgress.RunsAreBounded | tools/ci/participant-browser-pool.ts:57-153 | Every run of completions and turns of acquire's loop, whatever free memory each turn finds, takes at most as many steps as the measure of its start |
| PoolProgress.EndsAtRest | tools/ci/participant-browser-pool.ts:43-70 | No completion is left exactly where nobody waits, every launch and ending is settled and handled, and every open browser is idle |
| PoolProgress.WaitersAreWoken | tools/ci/participant-browser-pool.ts:43-47 | Every run of completions, whatever the outcomes and their order, is bounded; where the run cannot go on nobody waits, every task that awaited room or an ending has its turn again or has failed with the ending, and every holder has returned |
| PoolProgress.EveryUseReturns | tools/ci/participant-browser-pool.ts:71-153 | In every pool, open or closed, a run of completions and turns is bounded, whatever the outcomes, their order and the free memory each turn finds; where neither a completion nor a turn is left every use and every closeAll has returned |
| PoolProgress.SomeRunEnds | tools/ci/participant-browser-pool.ts:57-153 | For any given outcomes of launches, actions and endings some run with those outcomes ends at rest |
| PoolTheorems.OneCompletionWakes | tools/ci/participant-browser-pool.ts:43-47 | While anyone waits, one launch, action or ending under way suffices to wake all, with the given outcomes |
| PoolTheorems.EndingCompletes | tools/ci/participant-browser-pool.ts:57-70 | With the given outcomes of its launch and its browser an ending settles accordingly, removes its entry and wakes every waiter, needing no other completion |
| PoolTheorems.HolderCompletes | tools/ci/participant-browser-pool.ts:133-140 | With the given outcomes of its launch and its action a use returns accordingly, releases its entry and wakes every waiter, needing no other completion |
| PoolTheorems.ClosedForGood | tools/ci/participant-browser-pool.ts:147-153 | Once closeAll returned the map is empty, and it stays empty and nothing launches in any continuation |
| PoolProgress.ClosingAllReturns | tools/ci/participant-browser-pool.ts:147-153 | Every run of completions and turns under a closeAll is bounded, whatever the outcomes and their order; where it cannot go on the closeAll has returned, the map is empty and every use has returned |
| PoolTheorems.CloseAllCompletes | tools/ci/participant-browser-pool.ts:147-153 | With the given outcomes a closeAll reaches its return with an empty map by its own endings alone |
| BrowserPools.BrowserPool.HasRoom | tools/ci/participant-browser-pool.ts:48-56 | The reduction over the open entries decides exactly the room the transition system requires: fewer than `browsers` open, and two guards free beside what each open one may still grow to its guard |
| BrowserPools.BrowserPool.FindIdle | tools/ci/participant-browser-pool.ts:84-94 | The scan over the map, in any order, finds the strictly least recently used idle entry, or that none is idle |
| BrowserPools.BrowserPool.End | tools/ci/participant-browser-pool.ts:57-70 | Starting an ending is the step StartEnding |
| BrowserPools.BrowserPool.TakeTurn | tools/ci/participant-browser-pool.ts:71-124 | One run of acquire's loop body, with its launch, is the step TurnEffect, whose outcomes TurnFindsItsKey and TurnLaunchesExactlyWithRoom tell apart |
| BrowserPools.BrowserPool.EndAction | tools/ci/participant-browser-pool.ts:136-140 | The release after an action is the step Release |
| BrowserPools.BrowserPool.FinishEnding | tools/ci/participant-browser-pool.ts:64-67 | The end of an ending is the step SettleEnding |
| BrowserPools.BrowserPool.ContinueEnding | tools/ci/participant-browser-pool.ts:60-64 | The continuation of an ending after the launch settled is the step ProceedEnding |
| BrowserPools.BrowserPool.ReactToLaunch | tools/ci/participant-browser-pool.ts:112-122 | The reaction to a settled launch is the step HandleLaunch |
| BrowserPools.BrowserPool.BeginCloseAll | tools/ci/participant-browser-pool.ts:147-149 | Closing all starts by refusing launches and listing the keys open at that moment |
| WorkflowCausality.NeedsHoldBefore | tools/ci/participant-workflow-measurements.ts:215-238 | Whatever an accepted completed operation needs was published by an earlier operation that finished before it started, with as many distinct participants as required |
| WorkflowAcceptance.AcceptedExactlyIfAdmissible | tools/ci/participant-workflow-measurements.ts:121-357 | A trace is accepted if and only if each operation is admissible after those before it, told by the trace alone: who it is and whose session it runs in, not before its predecessors, in its stage with the stages before it completed, and with everything it rests on published by operations that had finished |
| WorkflowCausality.ResultRestsOnTheWholeProtocol | tools/ci/participant-workflow-measurements.ts:239-357 | In every accepted trace a completed result is preceded in real time, transitively, by its own release and a threshold of them, a quorum of target signers, the closing proposal and intent, the other members' responses, everyone's ballot and setup, a quorum of endorsers, the selection, a threshold of offers, the roster and everyone's registration |
| WorkflowCausality.CohortRecordsAreTheOrganizers | tools/ci/participant-workflow-measurements.ts:251-327 | Roster proposal, roster, selection, closing intent and closing proposal come only from position 0 |
| WorkflowCausality.DependenciesPrecede | tools/ci/participant-workflow-measurements.ts:215-236 | A recorded dependency names an earlier completed operation that had finished when the dependent one started |
| WorkflowSummary.DependenciesAreTheProducers | tools/ci/participant-workflow-measurements.ts:215-236 | The recorded dependencies are exactly the last publishers of the records the operation draws on that had finished when it started; none where it was not completed |
| WorkflowCausality.DependenciesAreAcyclic | tools/ci/participant-workflow-measurements.ts:391-395 | Along every chain of recorded dependencies trace order strictly falls, so they form no cycle |
| WorkflowCosts.ReplayOrderIsDetermined | tools/ci/participant-workflow-measurements.ts:62-64 | The replayed list is the only one that is sorted by start and keeps operations with equal starts in the order given |
| WorkflowCosts.FinishedStagesAreAPrefix | tools/ci/participant-workflow-measurements.ts:193-214 | At every point of an accepted trace each participant's finished stages are 0..k-1 |
| WorkflowCosts.AllStagesFinished | tools/ci/participant-workflow-measurements.ts:397-402 | On acceptance every participant has finished exactly the eight stages |
| WorkflowCosts.RecordsAreItemized | tools/ci/participant-workflow-measurements.ts:358-373 | Each participant's active and bootstrap time and each visit's bound is the sum over its own traced operations |
| WorkflowCosts.VisitsCountCrossingsTwice | tools/ci/participant-workflow-measurements.ts:368-373 | A participant's visit bounds sum to its total plus only the cost of the closings that span two stages |
| WorkflowCosts.CohortIsTheSumOfItsParticipants | tools/ci/participant-workflow-measurements.ts:363-367 | The cohort's active and bootstrap times are the sums over its participants |
| WorkflowCosts.EverythingIsChargedOnce | tools/ci/participant-workflow-measurements.ts:143-157 | The summary's active time is that of all operations given and its bootstrap time that of all bootstraps given, each charged exactly once |
| WorkflowSummary.BootstrapIsChargedFirst | tools/ci/participant-workflow-measurements.ts:143-157 | A bootstrap's time is charged with the first operation of its session and with no other |
| WorkflowSummary.VisitsNameTheOperations | tools/ci/participant-workflow-measurements.ts:368-373 | Each visit names the operations of its participant and stage in trace order, and the attempts count all of a participant's operations |
| WorkflowSummary.PeakIsTheLargest | tools/ci/participant-workflow-measurements.ts:374-390 | A participant's peak is the largest combined memory that its operations measured, and absent if none did |
| WorkflowCosts.EffectiveIntervalsAreDisjoint | tools/ci/participant-workflow-measurements.ts:149-173 | One participant's operations, each with the bootstrap it is charged, never overlap; in a sequential run nobody's do |
| WorkflowCosts.SequentialCostFitsCompletion | tools/ci/participant-workflow-measurements.ts:408-423 | In an accepted sequential run active plus bootstrap time is at most the completion time, the inequality asserted in tools/ci/project-participant-phone-time.ts |
| WorkflowCosts.ParticipantCostFitsCohortWall | tools/ci/participant-workflow-measurements.ts:408-432 | In any accepted run each participant's total fits into the cohort's wall time |
| WorkflowSummary.WallIsFromFirstToLast | tools/ci/participant-workflow-measurements.ts:408-423 | The cohort wall runs from the first start of any operation or bootstrap given to the last finish of any operation given, and is the completion time in a sequential run and only there |
| WorkflowSummary.StartsExactlyIfValid | tools/ci/participant-workflow-measurements.ts:66-86 | The bootstraps are taken exactly if each has a session, a position and an interval in range and no two share a session |
| WorkflowSummary.SummarizedExactly | tools/ci/participant-workflow-measurements.ts:60-407 | A summary is given exactly if there are operations and at least three participants, the bootstraps are valid, each operation is admissible after those before it, every participant completed every stage and every bootstrap was used |
| WorkflowCosts.EveryParticipantsResultIsCertified | tools/ci/participant-workflow-measurements.ts:397-407 | In every accepted summary every participant computed a result, and that result rests on the whole protocol |
| WorkflowExistence.SomeTraceIsAccepted | tools/ci/participant-workflow-measurements.ts:60-450 | For all participants, thresholds and either mode some operations and bootstraps are accepted if and only if there are at least three participants and neither threshold exceeds their number |
| WorkflowExistence.ScheduleIsAccepted | tools/ci/participant-workflow-measurements.ts:121-396 | After every prefix of the ordinary schedule of any number of participants the records, sessions, times and finished stages are exactly those of the turns so far |
| WorkflowReports.SessionsAreTheBootstraps | tools/ci/participant-workflow-measurements.ts:435-437 | The distinct sessions of an accepted participant's visits are exactly those whose bootstraps were given for it |
| WorkflowReports.Report | tools/ci/participant-workflow-measurements.ts:435-446 | The reported number of sessions and the largest visit bound are those of the visits |
| WorkflowMonitors.WorkflowMonitor.Requirements | tools/ci/participant-workflow-measurements.ts:239-357 | The switch's assertions and required frontiers are those of the table |
| WorkflowMonitors.WorkflowMonitor.Publications | tools/ci/participant-workflow-measurements.ts:239-357 | The switch's marks and finished stages are those of the table |
| WorkflowMonitors.WorkflowMonitor.RequireCount | tools/ci/participant-workflow-measurements.ts:224-236 | The filter over published records finds as many ready producers as required exactly when the frontier is met, and collects all of them |
| WorkflowMonitors.WorkflowMonitor.StagesOk | tools/ci/participant-workflow-measurements.ts:189-214 | The loop over an operation's stages accepts exactly the stages that are allowed, whose predecessors are finished and whose successor is not |
| WorkflowMonitors.WorkflowMonitor.Observe | tools/ci/participant-workflow-measurements.ts:121-396 | One run of the loop body accepts exactly what the specification accepts, and then leaves exactly the specified state |
| WorkflowMonitors.SummarizeWorkflow | tools/ci/participant-workflow-measurements.ts:60-450 | The whole summary equals the specified one, told apart from its definition by SummarizedExactly and WallIsFromFirstToLast: same rejections, same state, same times, and each participant's number of distinct sessions and largest visit bound |
| EvaluationSweep.EndpointsCountCovering | tools/ci/participant-evaluation-profile.ts:268-281 | Endpoints up to a tick add up to the number of spans of a phase that cover it |
| EvaluationSweep.RunningBetween | tools/ci/participant-evaluation-profile.ts:287-291 | Between two consecutive endpoints the phases with a positive count are exactly the phases running at each tick |
| EvaluationSweep.SweepEnds | tools/ci/participant-evaluation-profile.ts:312-318 | After the last endpoint every count is zero, so the final assertion cannot fail |
| EvaluationSweep.TicksAreOfTheSpans | tools/ci/participant-evaluation-profile.ts:287-311 | The ticks a phase total, a partition entry and the union count, told by the spans that run during each: an entry has the ticks during which exactly its phases run, the three detailed ones kept apart |
| EvaluationSweep.SummarizeEvaluationProfile | tools/ci/participant-evaluation-profile.ts:259-331 | Given exactly if every span has one of the nine phases and an interval from zero on; then each phase's total is the measure of the union of its intervals, each partition entry is of known phases and measures the ticks with exactly these, and the entries sum to the measure of the union of all |
| EvaluationSweep.OrderDoesNotMatter | tools/ci/participant-evaluation-profile.ts:282 | What the summary measures does not depend on the order, the nesting or the repetition of spans |
| EvaluationKeys.KeysStayApart | tools/ci/participant-evaluation-profile.ts:295-310 | Two partition entries have the same key text if and only if they are of the same phases |
| EvaluationKeys.KeyReads | tools/ci/participant-evaluation-profile.ts:295-310 | An entry's text is its primary phases by the alphabet, or a word for none, and then its detailed ones if it has any |
| RelayStore.ReachableInv | tools/ci/participant-relay-record.ts:26-41 | The lock's and the log's invariant holds in every state of every interleaving of appends and pages, also where actions throw |
| RelayLog.OneAtATimeInOrder | tools/ci/participant-relay-record.ts:27-41 | While a call on a key is past its await, all earlier ones on that key have finished and all later ones still wait |
| RelayLog.PendingUntilTheLastFinishes | tools/ci/participant-relay-record.ts:33-39 | The lock map holds a key exactly while a call on it is unfinished, and then its entry is the last arrival's |
| RelayLog.BusyKeysMove | tools/ci/participant-relay-record.ts:34-36 | While a key is busy its first unfinished call can take a step that does not fail: no deadlock |
| RelayLog.EveryCallFinishes | tools/ci/participant-relay-record.ts:27-41 | Without new arrivals every step brings the outstanding calls closer to their end |
| RelayLog.FailsExactlyIfThrown | tools/ci/participant-relay-record.ts:27-41 | In every run a call fails exactly if its own action threw: no other call makes it fail |
| RelayLog.ActsOnItsLog | tools/ci/participant-relay-record.ts:169-178 | The last step of an append adds its locator and tells its place, that of an announcement adds only what is not listed, and no other log moves |
| RelayLog.LogIsTheAppendsInOrder | tools/ci/participant-relay-record.ts:169-178 | In every reachable state a key's log has entries 0..n-1, which are exactly the successful appends in the order they arrived, and each append was told its place |
| RelayLog.IndicesFollowArrivals | tools/ci/participant-relay-record.ts:172-177 | Of two successful appends on a key the later arrival was told the greater index |
| RelayLog.LogIsAppendOnly | tools/ci/participant-relay-record.ts:172-176 | A key's log at any moment is a prefix of its log at any later moment |
| RelayLog.PagesNeverChange | tools/ci/participant-relay-record.ts:181-202 | A page holds the entries of the log from its offset on, 64 of them or all up to its total, as the log was then and is ever after |
| RelayLog.PagesShowTheLog | tools/ci/participant-relay-record.ts:181-202 | Reading a page never fails by itself, and what it returns is a page of the whole log at that moment |
| RelayLog.AppendsAreFound | tools/ci/participant-relay-record.ts:177 | A successful append finds its locator under the index it was told, then and ever after |
| ParticipantRelays.Entries | tools/ci/participant-relay-record.ts:93-111 | Sorting and checking a directory listing in any order gives the number of entries exactly when they are numbered without a gap |
| ParticipantRelays.ParticipantRelay.Arrives | tools/ci/participant-relay-record.ts:27-34 | Taking the previous promise and leaving one's own is the step Arrive |
| ParticipantRelays.ParticipantRelay.Enters | tools/ci/participant-relay-record.ts:34 | Going on after the previous call's promise is the step Enter |
| ParticipantRelays.ParticipantRelay.Throws | tools/ci/participant-relay-record.ts:35-40 | An action that throws releases the lock all the same: the step Fail |
| ParticipantRelays.ParticipantRelay.Finally | tools/ci/participant-relay-record.ts:37-40 | Removing one's own entry and unlocking is Release |
| ParticipantRelays.ParticipantRelay.Counts | tools/ci/participant-relay-record.ts:170-172 | Reading the directory is the step Count, failing where the prefix is incomplete |
| ParticipantRelays.ParticipantRelay.WritesEntry | tools/ci/participant-relay-record.ts:172-177 | Writing the entry file is the append's step Act |
| ParticipantRelays.ParticipantRelay.WritesUnlessListed | tools/ci/participant-offer-announcements.ts:81-91 | Comparing an announcement with the listed ones and adding it otherwise is the announcement's step Act, or throws where one of them is gone |
| ParticipantRelays.ParticipantRelay.ReadsPage | tools/ci/participant-relay-record.ts:184-201 | Reading a page's entry files is the page's step Act: entry k is file offset + k, and there are 64 of them or all up to the total; it throws where one is not there |
| CandidateFiles.ChunksJoin | tools/ci/participant-candidate-view.ts:250-264 | Cutting bytes into chunks and joining them gives the bytes back, in as many chunks as the manifest names |
| CandidateFiles.ChunkByPlace | tools/ci/participant-candidate-view.ts:250-264 | Chunk i is the stretch of one MiB at i MiB, the last as long as it takes, and none of them empty |
| CandidateFiles.RestByPlace | tools/ci/participant-relay-record.ts:148-165 | A stepwise check passes exactly if every chunk has the size of its place: one MiB, what is left, and then nothing |
| CandidateFiles.CheckedFilesAreChunked | tools/ci/participant-relay-record.ts:148-165 | With the manifest's count of chunks, a file passes the size check if and only if its chunks are the one way to cut that many bytes, and then nothing remains, so every accepted file can be read |
| CandidateFiles.CountIsNeeded | tools/ci/participant-relay-record.ts:213-227 | Of the chunk lists that pass the stepwise check with nothing remaining, those with the manifest's count are exactly the ones that cut the bytes as chunking does |
| CandidateFiles.EmptyChunksPass | tools/ci/participant-relay-record.ts:213-227 | An empty chunk behind a list that passes changes neither the check nor the bytes |
| CandidateFiles.RechunkedReadsBack | tools/ci/participant-candidate-view.ts:239-274 | Bytes shown to a reader instead of a file read back as exactly those bytes |
| CandidateFiles.ChunkStore.Rechunk | tools/ci/participant-candidate-view.ts:248-264 | The loop stores the chunks of the bytes under new locators and touches no chunk stored before |
| CandidateFiles.ChunkStore.CheckSizes | tools/ci/participant-relay-record.ts:148-165 | The loop accepts exactly the files whose chunks exist and have the required sizes |
| CandidateFiles.ChunkStore.ReadFile | tools/ci/participant-relay-record.ts:212-228 | The loop yields the joined chunks exactly when all exist, have the required sizes and nothing remains |
| CandidateViews.CandidateView.Walk | tools/ci/participant-candidate-view.ts:213-230 | The loop terminates and finds exactly the matching locators of the log as it was when first read, whatever is appended between its reads |
| CandidateViews.CandidateView.Page | tools/ci/participant-candidate-view.ts:207-238 | The view's page holds the matches from the offset on, 64 of them or all to the end, with their number as its total; the store's own page without an override; empty for a withheld one |
| CandidateViews.LaterViewsContinue | tools/ci/participant-candidate-view.ts:231-237 | Views at different times fit together: the matches of an earlier log are a prefix of those of a later one, and so are their pages |
| CandidateViews.MatchingIsTheSelection | tools/ci/participant-candidate-view.ts:220-227 | A locator is shown as often as it was logged if it carries the selected identity, and never otherwise |
| OfferAnnouncements.EverythingIsListedOnce | tools/ci/participant-offer-announcements.ts:81-91 | After any announcements the list has exactly the announced identities, each once |
| OfferAnnouncements.ListsOnlyGrow | tools/ci/participant-offer-announcements.ts:81-91 | The list after some announcements is a prefix of the list after more |
| OfferLog.ListIsTheAnnouncementsInOrder | tools/ci/participant-offer-announcements.ts:13-34 | In every reachable state of every interleaving a position's list is what its successful announcements announced, in the order they arrived and each once |
| OfferAnnouncements.PagesDecodeExactly | packages/sdk/src/participant/worker/relay/candidate-codec.ts:184-210 | The reader accepts exactly the bytes that encode a page within the bounds, as that page |
| OfferAnnouncements.OfferStore.Append | tools/ci/participant-offer-announcements.ts:70-96 | Appends an identity unless it is listed, leaves other positions alone, and refuses a wrong length or a file that ends within a record |
| OfferAnnouncements.OfferStore.ReadPage | tools/ci/participant-offer-announcements.ts:97-123 | The bytes served are, byte for byte, the list's length, the number of entries and the identities from the offset on, 64 of them or all to the end |
| CommandLine.QuoteArgument | tools/ci/processor-placement.ts:80-95 | The loop produces the quoting the round trip is proved about |
| CommandLine.JoinArguments | tools/ci/processor-placement.ts:233-235 | Quoting every argument and joining them gives the line the round trip is proved about |
| CommandLine.QuotedByParts | tools/ci/processor-placement.ts:76-95 | Plain text stays as it is; a run of n backslashes is doubled before the closing mark, becomes 2n + 1 before a mark inside, and what follows that mark is quoted like an argument of its own |
| CommandLine.JoinedByParts | tools/ci/processor-placement.ts:233-235 | The line has exactly one space between each two quoted arguments |
| CommandLine.JoinedReadsBack | tools/ci/processor-placement.ts:76-95 | Parsing the space-joined quoted arguments gives back exactly the list, for any characters, empty arguments, runs of backslashes and marks, under all three readings of doubled marks |
| CommandLine.JoinedIsInjective | tools/ci/processor-placement.ts:233-235 | No two argument lists share a command line |
| KeySourceReport.DecodesExactlyTheEncodings | tools/ci/fhe-key-source-report.ts:337-391 | The grammar accepts exactly the encodings of reports with equal digests and centered samples at the required positions: no negative zero, no uncentered value, no trailing byte |
| KeySourceReport.AcceptedByteForByte | tools/ci/fhe-key-source-report.ts:337-391 | A report is accepted exactly if its length fits, the words at offsets 0, 4, 8, 12, 16 and 20 are the participants, options, degree, magnitude bytes, sample bits and number of samples, the digests at 24 and 88 are equal, and each record at its offset stands for its sample |
| KeySourceReport.SamplesRoundTrip | tools/ci/fhe-key-source-report.ts:365-388 | Sample records decode to samples if and only if they are those samples' encodings |
| KeySourceReport.Magnitude | tools/ci/fhe-key-source-report.ts:373-375 | The loop computes the little-endian value for every coefficient width |
| Bytes.BytesHaveWeights | tools/ci/fhe-key-source-report.ts:373-375 | Byte i of a magnitude weighs 256 to the i |
| KeySourceReport.ParseReport | tools/ci/fhe-key-source-report.ts:337-391 | The cursor parser accepts and returns exactly what the grammar does |
| ProcessTree.ClosedIsOwned | tools/ci/process-tree-memory.ts:29-46 | A set closed under children that holds only descendants of the root is exactly what chains of child links reach |
| ProcessTree.OwnedExactlyIfItsParentIs | tools/ci/process-tree-memory.ts:29-46 | A process other than the root is owned exactly if some record of it has an owned parent and did not start before it; an unknown start on either side never stands against it |
| ProcessTree.OwnedBesideItsParent | tools/ci/process-tree-memory.ts:36-42 | A process recorded once is owned under an owned parent that started no later, equality included, and not owned if all records of its parent start later |
| ProcessTree.LinksAloneDecide | tools/ci/process-tree-memory.ts:29-46 | Where no start is known, exactly what parent links lead to from the root is owned |
| ProcessTree.CollectOwned | tools/ci/process-tree-memory.ts:29-46 | The fixpoint loop terminates and owns exactly those processes |
| ProcessTree.DescribeProcessTree | tools/ci/process-tree-memory.ts:19-52 | Missing without the root, refused for an unsafe byte count, otherwise the owned processes' number and byte sum |
| ProcessTree.OrderDoesNotMatter | tools/ci/process-tree-memory.ts:15-18 | While records that share an identifier agree on its start, the description does not depend on the list's order |
| ProcessTree.OrderMattersExactlyOnDisagreement | tools/ci/process-tree-memory.ts:23-46 | Whatever further process joins a list, from whatever root, every order owns the same processes if and only if records that share an identifier agree on its start |
| ProcessTree.SharedIdentifiersDependOnOrder | tools/ci/process-tree-memory.ts:23-25 | A list with two starts of one process that owns a child in one order and not in another |
| Departures.RoundingIncreases | tools/ci/participant-browser-options.ts:39-45 | For any number of boundaries that is at least the number of departures, no two departures are rounded to one boundary |
| Departures.RoundedIsNearest | tools/ci/participant-browser-options.ts:39-45 | The rounded quotient is the nearest whole number, halves going up |
| Departures.SpreadIs | tools/ci/participant-browser-options.ts:39-45 | The boundaries of one to six departures, listed |
| Departures.ApartExactlyWithEnoughBoundaries | tools/ci/participant-browser-options.ts:35-45 | The rounding keeps all departures at different boundaries if and only if there are at least as many boundaries as departures |
| Departures.BoundariesIncrease | tools/ci/participant-browser-options.ts:39-45 | The schedule's boundaries are strictly later one after the other |
| Departures.SelectedPositions | tools/ci/participant-browser-options.ts:46-62 | The selection holds exactly the required number of eligible positions, the organizer's among them, and passes over a smaller position only if it never offers |
| Departures.ScheduleParticipantDepartures | tools/ci/participant-browser-options.ts:28-109 | For every f and every n >= 3f+1 the schedule fails exactly where f is not 1 to 6; the selected and the departures are the listed ones: f distinct members other than the organizer at those boundaries, unselected before the offer, selected authors before the selection and before the target vote, unselected in between; the selection passes over a smaller position only if it leaves before its offer |
| Departures.ScheduleProfile | tools/ci/participant-browser-options.ts:32-38 | With the profile's f = floor((n - 1) / 3) there is a schedule exactly for 4 to 21 participants |
| RecentOutputs.ChunksMayBeCutAnywhere | tools/ci/run-check.ts:90-94 | Splitting the pending line with the next chunk shows the lines the whole text has, also when the cut separates a carriage return from its line feed |
| RecentOutputs.SplitCuts | tools/ci/run-check.ts:90-94 | The lines of a text are what stands between its line ends, each of these taken as long as it is |
| RecentOutputs.ShowsTheLastThatPrint | tools/ci/run-check.ts:90-107 | At most 20 lines are shown, in order and stripped, each with a character other than white space; one that has such a character is left out only if 20 later ones are shown |
| RecentOutputs.FinishingShowsNothingNew | tools/ci/run-check.ts:96-99 | Finishing changes nothing that is shown |
| RecentOutputs.RecentOutput.Append | tools/ci/run-check.ts:90-94 | The ring holds the last 20 visible whole lines of everything that arrived |
| RecentOutputs.RecentOutput.Finish | tools/ci/run-check.ts:96-99 | What is shown stays the same |
| RecentOutputs.RecentOutput.Snapshot | tools/ci/run-check.ts:101-107 | At every moment the last 20 nonblank stripped lines of the concatenated text |
| CheckGraphs.StoppedImpliesFailed | tools/ci/run-check.ts:420-430 | In every order of completions a stopped lane has a cause: a lane that ended before it and failed with a nonzero exit code |
| CheckGraphs.OneFailsByItself | tools/ci/run-check.ts:420-430 | At most one parallel lane fails other than by its limit |
| CheckGraphs.ExitCodeIsTheFirstFailure | tools/ci/run-check.ts:509-517 | The exit code is nonzero exactly when some lane failed, and is the first failed one's |
| CheckGraphs.EndedExactly | tools/ci/run-check.ts:418-438 | A parallel lane's exit code is the one its commands gave, or 1 if it hit its limit with 0; it was stopped, failed or passed exactly by that, its limit and whether one before it failed |
| CheckGraphs.ParallelIsSound | tools/ci/run-check.ts:524-536 | All parallel lanes passed exactly when none failed or hit its limit; a stop has a cause |
| CheckGraphs.RunLane | tools/ci/run-check.ts:418-438 | A lane's result and whether it stops its siblings, from how its commands ended |
| CheckGraphs.ArrangedSorts | tools/ci/run-check.ts:532-535 | The arranged results are the lanes', longest first, and those that took equally long in lane order |
| CheckGraphs.RunParallel | tools/ci/run-check.ts:524-536 | The results are those of the completion order, arranged |
| CheckGraphs.RunCheckGraph | tools/ci/run-check.ts:500-544 | The exit code is 0 exactly when every lane passed, and otherwise the first failed lane's own; each lane's result tells its own ending; gating lanes run up to the first failure, parallel ones only after all of those passed, the desktop lane only after everything else passed |
| GatedGuards.ChunksAreHeardAlike | tools/ci/gated-operation-guard.ts:42-73 | However the operation's output is cut, the same events are heard |
| GatedGuards.ReachableInv | tools/ci/gated-operation-guard.ts:21-126 | The guard's invariant holds in every state of every interleaving of output, process end and monitor |
| GatedGuards.StartFileIsJustified | tools/ci/gated-operation-guard.ts:102-107 | The start file implies one readiness, one initial sample within the limit after it, and the authorization after that |
| GatedGuards.FinishFileIsJustified | tools/ci/gated-operation-guard.ts:119-124 | The finish file implies a completion after the authorization, and one final sample within the limit that was asked for only after the completion |
| GatedGuards.SuccessIsObserved | tools/ci/gated-operation-guard.ts:84-101 | A successful guard took one initial and one final sample and counted the periodic ones, and its peak is the largest of all samples and within the limit |
| GuardOutcomes.SucceedsExactlyIfWritten | tools/ci/gated-operation-guard.ts:119-125 | In every run the guard succeeds if and only if its finish file, begun after a final sample within the limit, was written |
| GuardOutcomes.FailsExactlyIfItGivesUp | tools/ci/gated-operation-guard.ts:83-126 | It fails if and only if a write failed, a reading was not a positive exact integer within the limit, or the process ended before what it awaited was heard |
| GuardOutcomes.GoesOnExactlyIfStarted | tools/ci/gated-operation-guard.ts:102-107 | It goes on from the start file if and only if that was written, unless it gives up later |
| GuardOutcomes.RejectedExactlyIfStopped | tools/ci/gated-operation-guard.ts:75-82 | A handshake is rejected if and only if the process ended before it was heard |
| GuardOutcomes.SuccessIsPossible | tools/ci/gated-operation-guard.ts:83-126 | For every limit and every acceptable first, last and in-between readings some run takes them all, writes both files and succeeds |
| GatedGuards.GatedGuard.ObserveStdout | tools/ci/gated-operation-guard.ts:42-74 | The line loop is the step Observe and throws exactly where a line is refused |
| GatedGuards.GatedGuard.SampleTaken | tools/ci/gated-operation-guard.ts:86-107 | A reading is refused before it is recorded unless it is a positive integer the number holds exactly; otherwise it is recorded, checked and followed as the step SampleReturned says |
| GatedGuards.GatedGuard.RaceDone | tools/ci/gated-operation-guard.ts:108-122 | The end of the race is the step RaceWon |
| GatedGuards.GatedGuard.StopMonitoring | tools/ci/gated-operation-guard.ts:75-82 | The end of the process is the step Stop: without effect once the finish was released, and otherwise rejecting what is still open |
| CpuProfiles.SelfWithinInclusive | tools/ci/participant-cpu-profile.ts:105-137 | A function's own time is at most its time on the stack, and that at most all sampled time, recursion or not |
| CpuProfiles.SampleAddsItsDelta | tools/ci/participant-cpu-profile.ts:105-137 | One more sample adds the time up to the next, if that is positive, to the sampled time and under its leaf, and once to every name up its stack |
| CpuProfiles.OnStackExactlyIfClimbed | tools/ci/participant-cpu-profile.ts:119-136 | A name is charged for a stack exactly if a walk up the parent links from the leaf comes to it and it is no idle frame |
| CpuProfiles.ChargeStack | tools/ci/participant-cpu-profile.ts:119-136 | The walk up the stack charges each function on it once |
| CpuProfiles.SummarizeThread | tools/ci/participant-cpu-profile.ts:98-137 | A thread's self times sum to its sampled time, and all its totals are those of its samples |
| CpuProfiles.SummarizeCpuTrace | tools/ci/participant-cpu-profile.ts:90-138 | Self times sum to the sampled total, thread totals to the whole, and self, inclusive and sampled times bound each other for every name |
| CpuProfiles.Ranked | tools/ci/participant-cpu-profile.ts:57-60 | The ranking lists the largest entries in descending order: nothing left out is larger |

## Left out

- Driving browsers, servers, processes, PowerShell and files: only the order of their effects is modelled, as steps whose outcome is arbitrary.
- Digests, signatures and proofs are opaque values; thresholds, profiles and stage paths are parameters with the stated assumptions.
- Fractions of a tick, infinities and values that are no numbers: the times' types exclude them, so the finiteness assertions are not modelled.
- Rounding and formatting of displayed milliseconds.
- The pool's callbacks (`launch`, `freeMemory`, `onEndedForRoom`) are taken not to call the pool back synchronously; an entry's number stands for object identity.
- PoolTheorems.LaunchLeavesRoom: free memory is an arbitrary value at each check, so the room it promises is as of that check.
- RelayStore.Next: a page reads its entry files in one step and an append's write is one step; its durability under a crash of the host, and a rename that fails after it took effect, are not modelled.
- WorkflowMonitors.WorkflowMonitor.Observe: says nothing of the state after a rejection, where the source throws and the state is dropped; dependencies are a set, not a list in order of discovery.
- WorkflowMonitors.SummarizeWorkflow: shown sums and counts that only repeat other fields are left out; an operation's outcome is one of the five allowed.
- WorkflowCausality.ResultRestsOnTheWholeProtocol: assumes a quorum of at least one and, as the source asserts, at least three participants.
- EvaluationSweep.SummarizeEvaluationProfile: keeps an entry under its two sets of known phases, which EvaluationKeys.KeysStayApart shows to be told apart by their text; the bookkeeping time and the target digests pass through unchanged and are not modelled.
- CandidateViews.CandidateView.Walk: a candidate's ballot identity is a function of its locator; candidates that cannot be read make the source throw.
- CandidateFiles.ChunkStore.PutChunk: locators never run out; the manifest's byte format is not part of this model.
- OfferAnnouncements.OfferStore.Append: one atomic step on the file's bytes; the interleaved steps under the lock are those of RelayStore, with the list's records as its entries; a write cut short by a crash is not modelled.
- CommandLine.JoinedReadsBack: characters are Unicode scalar values; a NUL, which no command line can carry, is not treated apart; the program name, parsed by other rules, is not part of the line.
- Departures.ScheduleParticipantDepartures: the contributor count is max(f + 1, 2) as the repository gives it in README.md:110; the profile that gives f for n (tests/threshold-completion-model.ts:59-61) enters only ScheduleProfile.
- CheckGraphs.RunCheckGraph: assumes that no lane throws; the printed and appended summaries are not modelled.
- GatedGuards.GatedGuard.ObserveStdout: parsing a line as JSON is a parameter that classifies trimmed lines.
- CpuProfiles.SummarizeCpuTrace: starts from profiles whose chunks were put together, with acyclic parent links; the final order of threads is not modelled.
- Instrumenting worker source text, option parsing, scenario scripts and report rendering: worker source, process arguments and the reports' text are not part of this model.
