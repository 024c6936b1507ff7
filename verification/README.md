# Spaniel, verified

A Dafny model of the stateful parts of Spaniel, an OTLP collector, with proofs of what
they promise. `dafny verify dfyconfig.toml` checks all of it.

What is modelled, and where:

- **Ingest batch coordinator** (`BatchCore`, `BatchRuns`, `BatchTrace`, `BatchTheorems`,
  `BatchErrors`, `BatchCallers`, `IngestBatcher`): a bounded queue with one lazily started
  worker, cancellation by callers, groups that share one flush, live limits, and a draining
  `Close`. Every section under the mutex is a method of a class proved against a function on
  values; callers, worker, settings and `Close` then interleave at those sections in a step
  system that also records the history of runs, flushes and effects.
- **Disk spool and its send loop** (`Framing`, `SpoolQueue`, `Spool`, `SpoolRuns`,
  `SpoolProgress`): the file, the two offsets and the offset file, as an object that refines
  an abstract queue; then all interleavings of writers, the one reader and restarts.
- **Trace assertions** (`TraceGraph`, `ParentCycle`, `Connectivity`, `Ancestry`): the span
  index, the three-colour cycle search, undirected connectivity, and the memoised,
  work-limited search for ordered ancestor paths, each against its meaning in terms of
  walks.
- **Alert instances** (`AlertLife`, `AlertPass`, `AlertGroups`, `AlertRepeatedRows`,
  `AlertHistory`, `AlertCooldown`, `AlertEvents`, `AlertEvaluator`): the life of one
  instance, what a pass over query results does to each of them, whole histories of
  passes, the global cooldown, and event rules.
- **Storage guard** (`StorageGuard`): the two-latch controller of ingestion.
- **Rates, windows, throttles and queues** (`TokenBuckets`, `SourceLimits`,
  `SourceWindow`, `Throughput`, `ThrottleTable`, `CoalescingQueue`).
- **Metric derivation** (`Histogram`, `MetricSeries`).

Conventions. Time is an integer passed into each step: nanoseconds, or unix seconds for
the rings. An announcement, or emission, of an alert is one call of `emitAlert`; it is sent
on those of the two channels that are due, maybe on none. Hashes, selectors, and the
outcomes of runs, flushes, sends, prunes and silence lookups are arbitrary. Token counts,
sums and percentiles are real numbers. Integer widths are written out where values can
reach them: the length prefixes and the offset of the spool, the probe sum of the
throttle, the total of a histogram.

## Findings

Properties that one might expect and that the code does not have on every input, with
lemmas that give a concrete input or say exactly when the property holds.

- When a query returns several rows for a group that is not stored yet, each of them
  starts a new instance, and only the last one is stored. Each may send, whatever the
  cooldown (`AlertRepeatedRows.TwoRowsNotifyTwice`), and what another row than the last has
  sent is forgotten (`AlertCooldown.SecondRowForgetsSend`). The cooldown holds exactly if no
  pass sends like that, or loses its writes (`AlertCooldown.CooldownHoldsExactlyWhen`).
- When the silences cannot be looked up for a second row of a stored group, the group may
  be stored as firing although no notification was sent, and then its firing is not
  announced in this episode (`AlertRepeatedRows.UnannouncedFiring`,
  `AlertRepeatedRows.FailedLookupPersistsExactlyWhen`).
- A pass sends its notifications before it writes, and the error of the write is ignored
  (internal/api/alert_evaluator.go:58); if the writes are lost the next pass notifies
  again (`AlertEvents.ReplayAnnouncesExactlyWhen`,
  `AlertHistory.ReplayAnnouncesExactlyWhen`).
- The chart of a cumulative sum subtracts the previous increment instead of the previous
  value (`MetricSeries.OverwrittenPredecessor`, `MetricSeries.DerivedExactlyWhen`).
- The worker of the pool metric queue takes a key without a name for an empty queue
  (`CoalescingQueues.BlankKeyStrands`, `CoalescingQueues.StrandsExactlyWhen`); the one
  caller, at internal/ingestion/metrics.go:117-120, passes two fixed names only.
- A new event under a rule with a pending time would become pending and never be looked
  at again (`AlertEvents.NewEventFires`); internal/api/alerts.go:103 refuses such rules.
- A span reads the limiter's settings under one lock and is charged under another, so one
  that read the old settings may overfill its bucket after they were lowered
  (`SourceLimits.StaleSpanOverfills`); the tokens charged stay within bounds
  (`SourceLimits.SourceBound`).
- A spool record whose fields exceed their length prefixes is stored clipped
  (`Framing.RoundTripIffFits`).
- After a restart, records that the cap had dropped come back, so that the pending bytes
  may exceed the cap until the next write (`SpoolRuns.RestartExceedsCap`,
  `SpoolRuns.RestartKeepsCapExactlyWhen`).

## Model

| member | source | states |
|---|---|---|
| BatchTheorems.NilAcknowledgement | internal/ingestion/batch.go:190-262 | In every reachable state, a work finished without error ran, its group was flushed after every run of the group, all of them succeeded, and exactly the effects it staged have run, all after the flush |
| BatchErrors.FailsExactlyWhen | internal/ingestion/batch.go:190-262 | In every reachable state a finished work ends with an error if and only if its caller gave up and it never ran, or it ran in a group of which some run, or the flush, failed |
| BatchErrors.CleanWorkAcknowledged | internal/ingestion/batch.go:235-251 | The converse of the nil acknowledgement: in every reachable state a finished work that ran, in a group without a failed run and with a successful flush, is free of error and exactly the effects it staged have run |
| BatchErrors.WaitingWorkRuns | internal/ingestion/batch.go:205-224 | In every reachable state a finished work whose caller has not given up has been run |
| BatchTheorems.EffectsOnlyWhenClean | internal/ingestion/batch.go:237-251 | An effect runs only for a work whose own run, whose whole group and whose flush succeeded before it, and such a work never ends with an error |
| BatchTheorems.EffectsInStagedOrder | internal/ingestion/batch.go:320-326 | In every reachable state the effects of one work have run in the order in which they were staged |
| BatchTheorems.HistoryOrdered | internal/ingestion/batch.go:142-169 | In every reachable state works have run in acceptance order and at most once, groups one after the other, and no group was flushed before its last run |
| BatchTheorems.AccountingExact | internal/ingestion/batch.go:99-106 | Under every interleaving of callers, cancellations, worker, settings and Close the two totals are those of the accepted unfinished works, and each done channel has been closed exactly once if its work is finished and never otherwise |
| BatchTheorems.OneWorkerOrIdle | internal/ingestion/batch.go:90-94 | At most one worker lives; when none does, the queue is empty, both totals are zero and everything accepted is finished |
| BatchTheorems.CloseDrains | internal/ingestion/batch.go:267-282 | After Close no submission changes anything, and whenever a call of Close may return nil everything accepted has finished |
| BatchTheorems.DrainingBound | internal/ingestion/batch.go:133-171 | In every run, however callers interleave, the worker takes after Close no more steps than eight for each queued work, those left for its group and one to end, with the effects that run meanwhile; when none are left it has ended |
| BatchTheorems.WorkerNeverStuck | internal/ingestion/batch.go:133-171 | In every reachable state a live worker can take a step, whatever the outcomes of runs and flushes |
| BatchTheorems.WaitsExactlyWhen | internal/ingestion/batch.go:142-169 | In every reachable state a worker with work pending waits, changing nothing, if and only if a group may still grow, and otherwise takes some of the oldest works as its next group |
| BatchTheorems.LimitsExactly | internal/ingestion/policy.go:23-34 | In every reachable state the limits in force are changed by new settings only, and values that are not positive mean 256 requests and 64 MiB |
| BatchTheorems.StepDrains | internal/ingestion/batch.go:154-170 | Once closed, no step of a caller brings the worker more to do, and every step of the worker is one less or an effect; it no longer waits for the collection window |
| BatchTheorems.RunKeepsInv | internal/ingestion/batch.go:73-282 | The invariant of scheduling, accounting and history holds in every state of every run |
| BatchTheorems.StepKeepsInv | internal/ingestion/batch.go:108-131 | Each critical section keeps that invariant, including a cancellation that lands between a group leaving the queue and its work being started |
| BatchTheorems.RunKeepsEffectsClean | internal/ingestion/batch.go:241-251 | In every reachable state a work that has had an effect was started and is free of error |
| BatchTheorems.EffectFollowsFlush | internal/ingestion/batch.go:233-248 | In a well-formed history an effect of a work comes after the flush of the group it ran in |
| BatchTheorems.OneRunPerWork | internal/ingestion/batch.go:205-224 | A work has at most one run in a whole history |
| BatchCore.AdmissionWithinLimits | internal/ingestion/batch.go:76-97 | An admission leaves the number and the bytes of unfinished works within the limits then in force, even right after they were lowered; a refusal changes nothing |
| BatchCore.AdmittedExactlyWhen | internal/ingestion/batch.go:76-84 | A request is admitted if and only if it is not cancelled, the batcher is open, and one more work of its size fits both limits in force; a cancelled one is refused as such first, and then a closed batcher |
| BatchCore.GroupIsFittingPrefix | internal/ingestion/batch.go:142-167 | A group is a non-empty prefix of the queue, holds several works only within 4096 rows and 4 MiB, and stops only when it is full or its next work would overfill it |
| BatchCore.ScanFits | internal/ingestion/batch.go:142-153 | The scan reports the rows and bytes of exactly the prefix that it chose, and that prefix meets the group limits |
| BatchCore.ArrivalsDoNotPostpone | internal/ingestion/batch.go:154-156 | A group that is due stays due whatever arrives later, so a steady stream cannot hold back the oldest work |
| BatchCore.ReadyExactlyWhen | internal/ingestion/batch.go:142-156 | A group is due if and only if the batcher is closed, the oldest work has been queued for the window, the limit of requests is reached, or what is queued fills a group by its rows or its bytes |
| BatchCore.RemoveExact | internal/ingestion/batch.go:115-120 | Cancelling takes exactly that work out of the queue and keeps the order of the others |
| BatchCore.WithdrawKeeps | internal/ingestion/batch.go:113-124 | Taking back a work that is neither started nor finished keeps the accounting and the queue consistent |
| BatchCore.ReleaseGroupKeeps | internal/ingestion/batch.go:255-260 | Releasing what is left of a group keeps the accounting, whichever of its works were cancelled meanwhile |
| BatchRuns.ReleaseGroupFinishes | internal/ingestion/batch.go:255-261 | Releasing a group finishes all of its works and touches no flag of any other |
| BatchRuns.StepKeepsSched | internal/ingestion/batch.go:133-171 | One worker at most, every unfinished work is queued or in the group under way, and everything in the group is older than everything queued |
| BatchTrace.SettledHistory | internal/ingestion/batch.go:237-251 | When a group has been settled, each of its started works that is free of error is rightly acknowledged |
| IngestBatchers.IngestBatcher.constructor | internal/ingestion/batch.go:62-64 | A new batcher is idle, open and has the default limits |
| IngestBatchers.IngestBatcher.Submit | internal/ingestion/batch.go:73-97 | Accepts exactly what fits; refuses a done context, a closed batcher and a full one, in this order, and otherwise queues the work and starts a worker if none lives |
| IngestBatchers.IngestBatcher.ReleaseOne | internal/ingestion/batch.go:99-106 | Finishes one work and gives back its share of the totals |
| IngestBatchers.IngestBatcher.TakeBack | internal/ingestion/batch.go:112-125 | The locked part of a cancelled wait takes back exactly an unstarted, unfinished work |
| IngestBatchers.IngestBatcher.ScanGroup | internal/ingestion/batch.go:142-153 | The loop over the queue computes the specified longest admissible group |
| IngestBatchers.IngestBatcher.TakeTurn | internal/ingestion/batch.go:135-168 | One turn of the worker ends it on an empty queue; it waits exactly while the batcher is open, the oldest work has not been queued for the window, the limit of requests is not reached and what is queued does not fill a group; otherwise it takes the group |
| IngestBatchers.IngestBatcher.MarkStarted | internal/ingestion/batch.go:206-212 | A work that was cancelled before its turn is skipped, any other becomes started |
| IngestBatchers.IngestBatcher.FinishGroup | internal/ingestion/batch.go:255-261 | The locked end of a group releases each of its works that is not finished yet |
| IngestBatchers.IngestBatcher.Configure | internal/ingestion/policy.go:23-34 | New limits take effect at once, with defaults for values that are not positive |
| IngestBatchers.IngestBatcher.Close | internal/ingestion/batch.go:267-275 | Close stops admission and waits for the worker then alive, if any |
| BatchTheorems.CancelledNeverRuns | internal/ingestion/batch.go:113-131 | In every reachable state a work that was never started has not run, and if it is finished, it ended with an error |
| BatchCallers.GivenUpNeverRuns | internal/ingestion/batch.go:113-124 | In every run, a caller that gives up waiting for a work neither started nor finished gets its own error at once and the work never runs; otherwise giving up changes nothing |
| BatchCallers.NoRunAfterCancellation | internal/ingestion/batch.go:220-223 | In every run, a work is not run any more once its context is done, whatever group has collected it |
| BatchCallers.CancelledExactlyWhen | internal/ingestion/batch.go:108-124 | In every reachable state the contexts that are done are exactly those that callers have cancelled |
| SpoolRuns.NothingLost | internal/forwarder/spool.go:88-252 | For every interleaving of writers, the one send loop and restarts, each record written is still pending, was dropped by the cap, or was accepted by the upstream |
| SpoolRuns.Conservation | internal/forwarder/spool.go:201-252 | Appended = acknowledged + dropped + pending, over every run |
| SpoolRuns.OldestFirstAtMostOnce | internal/forwarder/forwarder.go:266-321 | Between restarts the upstream accepts each record at most once, oldest first |
| SpoolProgress.DrainBound | internal/forwarder/forwarder.go:266-321 | In every stretch of a run without a restart, however writers interleave, the send loop gets on at most as often as was left of it, four times more for each write and twice for each failed send |
| SpoolProgress.GetsOnUntilDrained | internal/forwarder/forwarder.go:266-321 | In every reachable state the loop can get on until everything written has been accepted upstream or dropped by the cap |
| SpoolProgress.FailureRetries | internal/forwarder/forwarder.go:293-311 | A failed send leaves the spool as it is, and the next read begins with what is then the oldest record, the same one unless the cap has dropped it |
| SpoolRuns.CapAlwaysHolds | internal/forwarder/spool.go:243-252 | In every run without a restart the pending bytes are within the cap, or nothing is pending, after every step |
| SpoolRuns.WriteRestoresCap | internal/forwarder/spool.go:108-117 | In every run, restarts included, the pending bytes are within the cap, or nothing is pending, right after each write |
| SpoolRuns.RestartKeepsCapExactlyWhen | internal/forwarder/spool.go:65-73 | After a restart the cap holds if and only if nothing comes back, or the records dropped since the last persisted offset fit beside those still pending |
| SpoolRuns.RestartExceedsCap | internal/forwarder/spool.go:65-73 | A concrete run whose restart leaves twice the cap pending |
| SpoolRuns.RunKeepsInv | internal/forwarder/forwarder.go:266-321 | In every run each acknowledged record was accepted by the upstream, and what was accepted in a session precedes what may still be read |
| SpoolQueue.TrimDropsShortestPrefix | internal/forwarder/spool.go:241-252 | The cap drops the shortest oldest prefix that brings the pending bytes within bounds |
| SpoolQueue.ReopenKeepsUndelivered | internal/forwarder/spool.go:60-73 | After a restart the pending records are those pending before, preceded only by records that the cap dropped since the last persisted offset |
| SpoolQueue.CountsAddUp | internal/forwarder/spool.go:201-252 | Every record that left the queue was either delivered or dropped |
| Spools.Spool.Open | internal/forwarder/spool.go:48-84 | Opening any files succeeds with an offset within the spool; opening the image of a queue resumes that queue from its persisted offset |
| Spools.LoadOffset | internal/forwarder/spool.go:67-73 | Whatever the offset file holds, reading starts within the spool |
| Spools.OffsetLoadedExactlyWhen | internal/forwarder/spool.go:67-73 | Any offset but zero is loaded if and only if the offset file holds its eight bytes and it lies within the spool |
| Spools.Spool.Write | internal/forwarder/spool.go:88-124 | A successful append puts the clipped record at the end of the file and of the queue and enforces the cap, and reports how many records were dropped; a failed one changes nothing |
| Spools.Spool.EnforceCap | internal/forwarder/spool.go:243-252 | The loop over the file drops from the queue exactly what the abstract cap drops, one per record counted |
| Spools.Spool.BeginRead | internal/forwarder/spool.go:129-137 | The reader finds nothing exactly when nothing is pending, and otherwise the position of the head |
| Spools.Spool.FinishRead | internal/forwarder/spool.go:139-195 | Reading outside the lock yields exactly the record that was the head at the start, even if it has been dropped and others appended meanwhile |
| Spools.Spool.Acknowledge | internal/forwarder/spool.go:201-218 | Acknowledging removes the head only if it is still the record that was sent; an emptied spool is truncated, otherwise the file is kept and the offset persisted |
| Spools.Spool.Deliver | internal/forwarder/forwarder.go:266-321 | One turn of the send loop amid any writes, accepted or failing, before the record is read and while it is sent: the record sent is the head when the turn began, even if the cap drops it meanwhile, and only that one is acknowledged |
| Spools.Spool.WriteAll | internal/forwarder/spool.go:88-124 | Any series of writes appends exactly those that the disk accepts, applies the cap after each, and moves no record that the reader has taken |
| Spools.Spool.HeadSize | internal/forwarder/spool.go:257-278 | The size read at the read offset is that of the head of the queue, and moving over it is one step of the trimming |
| Spools.Spool.Compact | internal/forwarder/spool.go:222-228 | Compaction leaves an empty file and a persisted offset of zero |
| Spools.Spool.PendingBytes | internal/forwarder/spool.go:231-239 | The pending bytes reported are the total size of the encodings of the pending records, so never negative |
| Spools.Spool.UndeliveredBytes | internal/forwarder/spool.go:129-137 | The bytes between the two offsets are the concatenated encodings of the pending records |
| Spools.OffsetFileRoundTrip | internal/forwarder/spool.go:213-217 | An offset persisted by an acknowledgement is the offset that reopening finds |
| Spools.HeadRemoved | internal/forwarder/spool.go:257-278 | The size read from the length prefixes at the read offset is the size of the head record |
| Spools.CommitImage | internal/forwarder/spool.go:201-228 | After an acknowledgement the two files are again the image of the queue |
| Framing.RoundTripIffFits | internal/forwarder/spool.go:88-106 | A record written anywhere in a file is read back exactly when its fields fit their length prefixes; otherwise it is read back clipped and its neighbours are undisturbed |
| Framing.DecodeEncoded | internal/forwarder/spool.go:139-195 | Decoding is a left inverse of encoding wherever the record lies in the file |
| Framing.RecordSizeOfEncoded | internal/forwarder/spool.go:257-278 | The length prefixes alone give the size of an encoded record |
| Framing.LittleEndianRoundTrip | internal/forwarder/spool.go:96-104 | A number that fits its width is read back from its little-endian bytes |
| Framing.Marshal | internal/forwarder/spool.go:93-106 | The buffer filled in place is the encoding of the clipped record, although copies of oversized fields first spill over the next ones |
| Framing.PutField | internal/forwarder/spool.go:96-99 | Writing one prefix and its content extends the finished part of the buffer by that field |
| Framing.Copy | internal/forwarder/spool.go:98-106 | Copying into a buffer replaces as many bytes as both sides have and no other |
| TraceGraph.BuildIndex | traceassert/assert.go:300-313 | The index maps each key to its first well-formed span, and the failures are, in order, one for each malformed span and, on request, one for each whose key an earlier well-formed span has |
| TraceGraph.IsValidId | traceassert/decode.go:57-71 | Decoding an identifier into bytes, of which one must not be zero, accepts exactly the non-zero lower-case hexadecimal identifiers of the wanted length |
| TraceGraph.NoIdFailures | traceassert/assert.go:300-313 | No identifier failure is due exactly if all spans are well formed and, on request, have distinct keys |
| TraceGraph.KeyDetermines | traceassert/decode.go:56-71 | The key of a well-formed span equals a looked-up key exactly if both identifiers are equal, whatever was looked up |
| TraceGraph.ValidSpanShape | traceassert/decode.go:56-71 | The key of a well-formed span is 32 hexadecimal digits, a slash and 16 more, and a parent identifier has 16 |
| TraceGraph.ParentsExact | traceassert/assert.go:314-328 | The causal parents are exactly the first well-formed span with the trace identifier of the child and its parent identifier and, on request, those with the two identifiers of a link; without links there is at most one |
| ParentCycle.HasParentCycle | traceassert/assert.go:329-353 | The parent_cycle failure is reported exactly when some closed walk of parent edges exists |
| ParentCycle.Cycle | traceassert/assert.go:332-347 | The recursive colouring terminates, finds only real cycles, and otherwise blackens its span, changes white spans only, and keeps black spans closed under parents and off every cycle |
| Connectivity.BuildAdjacency | traceassert/assert.go:370-376 | The adjacency lists hold both directions of exactly the parent and link edges |
| Connectivity.CountDisconnected | traceassert/assert.go:377-391 | The count is the number of spans that no undirected path joins to the first one, so the failure is reported exactly when there is one |
| Ancestry.Search.Find | traceassert/assert.go:464-487 | Success means that a walk matching the remaining selectors in order exists; failure within the limit means that every state entered has failed; past the limit nothing succeeds; the search terminates on the unvisited states, and its work is one call and two for each parent of each state entered |
| Ancestry.Search.Through | traceassert/assert.go:478-485 | Going on through one parent succeeds only with a path, and otherwise leaves nothing untried through that parent |
| Ancestry.Search.Start | traceassert/assert.go:461-488 | Within the work limit the search from a terminal succeeds if and only if an ordered ancestor path exists; the memo loses no answer on cycles or diamonds and bounds the work by spans, selectors and fan-out |
| Ancestry.AllFailedNoPath | traceassert/assert.go:473-486 | If all the states that the search visited have failed, none of them has an ordered ancestor path |
| Ancestry.CheckRule | traceassert/assert.go:446-510 | Within the work limit the failures are exactly a missing ancestry with the number of terminals that have a path, if that is below the minimum, and a broken one with the number that lack one, if there are any; past the limit the rule fails, says so with its work, and counts no terminal as matched that is not; a capture whose bound is within the limit is never cut short; a rule without failures is satisfied by every terminal |
| Ancestry.CountTerminals | traceassert/assert.go:447-496 | The searches stop early exactly if their work exceeds the limit, their work is within the bound of the capture, and otherwise both counts are exact |
| Ancestry.RuleBoundIsProduct | traceassert/assert.go:446-488 | The bound of the work of a rule is the number of spans times one more than twice the fan-out times spans times selectors |
| AlertLife.FiresOnlyAfterPendingTime | internal/api/alert_evaluator.go:627-636 | Over every life of an instance, while it is pending or firing every evaluation since its episode began was a breach, and it fired only after the pending time of its rule |
| AlertLife.FiresAsSoonAsDue | internal/api/alert_evaluator.go:627-636 | A breached evaluation that succeeds leaves the instance firing, or pending for less than the pending time |
| AlertLife.OneFiringPerEpisode | internal/api/alert_evaluator.go:637-651 | Between two firing notifications of an instance it was resolved |
| AlertLife.ResolvedAndRepeatEmissions | internal/api/alert_evaluator.go:616-655 | A resolution is announced exactly when a pending or firing instance resolves; a repeat exactly for a breached, firing, unacknowledged instance whose repeat interval has passed on a channel |
| AlertLife.CooldownRespected | internal/api/alert_evaluator.go:701-760 | Two notifications of one instance on one channel are at least the global cooldown apart, whatever caused them, forced ones included |
| AlertLife.StepSends | internal/api/alert_evaluator.go:727-751 | A step sends on a channel only if that is enabled, not quiet and past the global cooldown, and the channel remembers exactly the latest send |
| AlertLife.SendsExactlyWhen | internal/api/alert_evaluator.go:701-767 | An emission is sent on a channel if and only if that is enabled, not quiet and delivers, the global cooldown has passed since the last notification on it, and, for a firing only, the rule's own cooldown has too; so resolutions and repeats ignore the rule's cooldown |
| AlertLife.RuleCooldownRespected | internal/api/alert_evaluator.go:727-738 | Over every life a firing is notified at least the rule's own cooldown after every earlier notification of the instance on that channel |
| AlertLife.StepFailsExactlyWhen | internal/api/alert_evaluator.go:630-643 | An evaluation fails if and only if it would make the instance fire and the silences cannot be looked up; as a step it then leaves nothing behind |
| AlertLife.StatusAfter | internal/api/alert_evaluator.go:608-666 | A breach leaves the instance firing, or pending as long as the pending time since its episode began has not passed; no breach resolves it; an instance no longer reported is resolved if it was pending or firing |
| AlertLife.TimesAfter | internal/api/alert_evaluator.go:608-666 | The beginning of the episode, the firing and the resolution are stamped exactly when they happen, and a new episode forgets the last resolution |
| AlertLife.AcknowledgedAfter | internal/api/alert_evaluator.go:618-626 | An acknowledgement outlives the resolution and ends exactly with its withdrawal or with the next episode |
| AlertGroups.PassTakesSteps | internal/api/alert_evaluator.go:295-337 | Whatever rows the query returns, and whether the pass fails or not, it takes each group, stored, new or missing, through exactly these steps of its life and emits what they emit: a stored group one for each of its rows before the one that ends the pass, a new group its last such row only, a group without a row its disappearance unless the pass ends early; the row that ends the pass is no step, but counts as a silenced one if earlier rows have its group written back. What the other rows of a new group emit is emitted as well and kept nowhere |
| AlertGroups.OneRowOneStep | internal/api/alert_evaluator.go:295-337 | For a group with at most one row a pass is at most one step, and nothing that it emits is forgotten |
| AlertGroups.FailsAtFirst | internal/api/alert_evaluator.go:309-319 | For all rows, repeated ones included, a pass fails exactly if some row has no number for a value, or makes its group, as the rows before have left it, fire while the silences cannot be looked up |
| AlertGroups.GoodIsFirst | internal/api/alert_evaluator.go:309-319 | The rows that count are those before the first that ends the pass |
| AlertPass.MissingShows | internal/api/alert_evaluator.go:496-509 | A loaded instance whose group was not seen is resolved exactly once in a pass |
| AlertRepeatedRows.NewGroupFiresOncePerRow | internal/api/alert_evaluator.go:598-608 | In the first pass over a group each of its rows that is breached and audible, under a rule without pending time, emits a firing and sends it on every channel that is enabled, not quiet and delivers, whatever the cooldown; the store remembers a notification exactly if the last row sent it |
| AlertRepeatedRows.NewGroupStartsAgain | internal/api/alert_evaluator.go:599-608 | Each row of a group that is not stored yet, in passes that fail too, is evaluated as if it were the first, because the instance made for one row is not found by the next; the instance of the last row is the one stored |
| AlertRepeatedRows.FailedLookupPersistsExactlyWhen | internal/api/alert_evaluator.go:639-643 | A row whose silence lookup fails is not announced, yet leaves its stored group firing if and only if some earlier row of the same pass changes more of that group than its evaluation time |
| AlertRepeatedRows.UnannouncedFiring | internal/api/alert_evaluator.go:627-643 | A concrete pass after which a group is stored as firing although nobody was told |
| AlertRepeatedRows.TwoRowsNotifyTwice | internal/api/alert_evaluator.go:295-320 | A concrete query result that notifies twice at the same instant despite a global cooldown of a minute |
| AlertHistory.StoreFollowsLife | internal/api/alert_evaluator.go:51-97 | Over every history of passes, with repeated rows, failures and lost writes, and acknowledgements, and from any store, the store holds of each group, but for the time of its last evaluation, what the steps of its one life make of it |
| AlertHistory.PassAnnouncesAsLife | internal/api/alert_evaluator.go:51-97 | Each pass, whether it keeps its writes or not, announces of each group exactly what its steps in that life would, after what only the forgotten rows of a new group say |
| AlertHistory.ResolvedInBetween | internal/api/alert_evaluator.go:639-651 | Over every history, between a firing announced by a pass that kept its writes, as a step of the group's life, and any later announcement of a firing, that life was resolved |
| AlertHistory.OneAnnouncementPerEpisode | internal/api/alert_evaluator.go:639-651 | If no pass from the one to the other has two rows of the group, and the first kept its writes, the store itself shows the group resolved between two announcements of a firing |
| AlertHistory.StoreFiresOnlyAfterPendingTime | internal/api/alert_evaluator.go:627-636 | Over every history, what the store calls firing, of a group that was not there at the start, has been breached by every evaluating step of its episode, and for the pending time before it fired |
| AlertHistory.ReplayAnnouncesExactlyWhen | internal/api/alert_evaluator.go:58 | A pass that announces that a group, with at most one row, fires or is resolved announces the same when it is replayed if and only if its writes were lost |
| AlertCooldown.CooldownSurvivesExactlyWhen | internal/api/alert_evaluator.go:598-608 | Under a global cooldown a pass that sends about a group on a channel sends once, and so that no pass with one row of the group sends again within the cooldown, if and only if it keeps its writes and either finds the group stored or only the last row of the new group sends |
| AlertCooldown.CooldownOverPasses | internal/api/alert_evaluator.go:701-760 | Over every history, with repeated rows, failures and lost writes, a notification comes at least the global cooldown after every earlier one on the channel about the group that was sent by a pass that keeps it in that sense |
| AlertCooldown.CooldownHoldsExactlyWhen | internal/api/alert_evaluator.go:701-760 | A history under a global cooldown, up to any of its rounds and with any further pass with one row of the group, keeps all notifications on a channel about the group the cooldown apart if and only if every pass of it that sends keeps its writes and either finds the group stored or sends by its last row only |
| AlertCooldown.SecondRowForgetsSend | internal/api/alert_evaluator.go:599-608 | A concrete history in which both passes keep their writes, only one row of the first sends, and the second sends again after fifteen seconds under a cooldown of a minute |
| AlertEvents.AnnouncedAtMostOnce | internal/api/alert_evaluator.go:189-236 | From any store, with any passes, replays and acknowledgements, an event is announced as firing at most once by passes that keep their writes, only if it was unknown at the start, and stays known from then on; so at most once if no writes are lost, and otherwise once more for each announcing pass that lost them |
| AlertEvents.AnnouncedTwiceOnlyIfLost | internal/api/alert_evaluator.go:209-213 | From any store and amid acknowledgements, if two passes announce the same event as firing, the first of them lost its writes |
| AlertEvents.ReplayAnnouncesExactlyWhen | internal/api/alert_evaluator.go:58 | In any state, a pass that announces an event as firing announces it again when it is replayed if and only if its writes were lost |
| AlertEvents.ResolvedForGood | internal/api/alert_evaluator.go:209-213 | An event stored as resolved stays resolved, and is not announced as firing, through every later pass and acknowledgement, whether writes are kept or not |
| AlertEvents.CarriedOverStaysSilent | internal/api/alert_evaluator.go:214-229 | When an acknowledged aggregate rule has become an event rule, an event that the acknowledgement covers is stored as resolved, not announced, by the first pass that reports it, succeeds and keeps its writes, and is never announced as firing afterwards |
| AlertEvents.EventPass | internal/api/alert_evaluator.go:189-236 | One pass leaves a stored event as it is, silently, or resolves it and announces just that, and if it succeeds it resolves exactly the unresolved ones that are not reported any more; a new one is announced at most once, as firing, and is stored if it was |
| AlertEvents.NewEventFires | internal/api/alert_evaluator.go:231-233 | A new audible event fires in the pass that reports it if and only if the rule has no pending time |
| AlertEvents.NewEventExactly | internal/api/alert_evaluator.go:209-234 | A new event that an acknowledgement of its base group covers is stored as resolved with that acknowledgement, silently; any other is evaluated as a breach of a new instance |
| AlertEvaluators.AlertEvaluator.AdvanceInstance | internal/api/alert_evaluator.go:598-658 | Evaluating a group in place has the specified effect on instances, queued writes and notifications, also when the silence lookup fails |
| AlertEvaluators.AlertEvaluator.AdvanceAll | internal/api/alert_evaluator.go:295-320 | The loop over the rows evaluates them in order and stops at the first failing lookup or value that is no number |
| AlertEvaluators.AlertEvaluator.ResolveMissingInstances | internal/api/alert_evaluator.go:496-509 | The loop over the loaded instances resolves those that were not seen |
| AlertEvaluators.AlertEvaluator.Notify | internal/api/alert_evaluator.go:701-753 | A notification is sent on exactly the channels that reach and are past the global cooldown and, unless it is forced, the rule's own, and marks the instance for those only |
| AlertEvaluators.AlertEvaluator.Queue | internal/api/alert_evaluator.go:663-671 | A write is queued exactly if something other than the evaluation time changed |
| StorageGuards.FullAfterCheck | cmd/spaniel/retention.go:176-278 | After a guard pass ingestion is paused exactly when recovering or when this pass failed hard; in preserve mode exactly at the cap; without a cap never |
| StorageGuards.RecoveryLatch | cmd/spaniel/retention.go:216-262 | Recovery starts only on an overrun of the cap or a hard failure above target, ends exactly in a pass that finds headroom or a soft stop below high water, and until then no call of any pass reopens admission |
| StorageGuards.RecoveringExactlyWhen | cmd/spaniel/retention.go:216-262 | After a pass the store is recovering if and only if the pass pruned, above its target and not to a safety stop below high water, and was recovering, found the cap reached before or after, or failed hard; and which calls set admission |
| StorageGuards.RecoveryHolds | cmd/spaniel/retention.go:176-320 | Over every run, once recovering the store stays full and recovering through all guard and WAL passes until one restores headroom |
| StorageGuards.RunKeepsInv | cmd/spaniel/retention.go:59-65 | In every run recovery is part of pruning, needs a cap and auto-pruning, and keeps the store full |
| StorageGuards.PrunesExactlyWhen | cmd/spaniel/retention.go:177-222 | In every run a pass prunes if and only if there is a cap and auto-pruning, it is above target, it measures high water or some pass has since which no step has found the target or changed the settings, and it is at the cap, recovering or past the cooldown; preserve mode never prunes |
| StorageGuards.PruningExactlyWhen | cmd/spaniel/retention.go:203-245 | In every run pruning is latched if and only if there is a cap and auto-pruning, some pass has measured high water, and since then no step has found the target, by measuring or by pruning, or changed the settings |
| StorageGuards.CooldownSetExactlyWhen | cmd/spaniel/retention.go:245-247 | The cooldown starts over exactly with a prune that leaves the store above its target without recovering, and only new settings end it |
| StorageGuards.ProactivePrunesApart | cmd/spaniel/retention.go:219-247 | Over every run, while the settings stay, a proactive prune comes at least the cooldown after every earlier prune that left the store above its target without recovering |
| StorageGuards.WalExactly | cmd/spaniel/retention.go:298-319 | A large WAL is handled unless eviction goes first; admission is closed before the checkpoint exactly if the store is recovering or at its cap, and after it also if it failed |
| StorageGuards.Thresholds | cmd/spaniel/retention.go:195-202 | For every positive cap 0 <= target < high water <= cap, and from a cap of ten bytes on they are 70 and 80 percent of it, rounded down |
| StorageGuards.StorageGuard.UpdatePolicy | cmd/spaniel/retention.go:59-65 | New settings clear both latches and the cooldown and leave admission alone |
| StorageGuards.StorageGuard.CheckStorage | cmd/spaniel/retention.go:176-278 | The in-place pass takes the specified step, with the specified calls of SetFull in order |
| StorageGuards.StorageGuard.Reclaim | cmd/spaniel/retention.go:223-262 | The part of the pass after the decision to prune sets the latches, the cooldown and admission as specified |
| StorageGuards.StorageGuard.CheckWal | cmd/spaniel/retention.go:298-319 | The WAL pass handles a large WAL exactly when eviction has no priority, and never lets admission through while recovering |
| TokenBuckets.WindowBound | internal/ingestion/sampler.go:143-213 | Over any window of T seconds and any mix of requests the tokens charged are at most budget + budget*T, whatever went before |
| TokenBuckets.RunInBounds | internal/ingestion/sampler.go:143-164 | The tokens stay between zero and the budget |
| TokenBuckets.IdleSecondRestores | internal/ingestion/sampler.go:151-163 | After an idle second any request within the budget is granted and leaves the rest of a full bucket |
| TokenBuckets.ServeBound | internal/ingestion/sampler.go:144-164 | What one request is charged and leaves is at most what was there and has flowed in since |
| TokenBuckets.GrantedExactlyWhen | internal/ingestion/sampler.go:144-164 | After any run of requests a request is granted if and only if every window that ends with it has that much left, be it from the start of the run on or from a full bucket at an earlier request on: stock plus inflow, less what was charged. Nothing that the inflow has paid for is refused |
| TokenBuckets.SampledExactlyWhen | internal/ingestion/sampler.go:144-164 | The same for a sampler, whose bucket holds, and gets in a second, its budget |
| TokenBuckets.Sampler.constructor | internal/ingestion/sampler.go:95-105 | A sampler with a budget starts with a full bucket |
| TokenBuckets.Sampler.ConsumeN | internal/ingestion/sampler.go:144-164 | Taking n tokens refills, caps and charges in place as specified; nothing is asked of the bucket for no tokens |
| TokenBuckets.Sampler.DecideSpan | internal/ingestion/sampler.go:109-117 | Without a budget, and for errors that are always kept, the span is kept and the bucket untouched; any other span costs a token |
| TokenBuckets.Sampler.DecideTrace | internal/ingestion/sampler.go:169-192 | A buffered trace is kept free of charge exactly if there is no budget or some always-keep signal holds, and otherwise costs one token per span, all or nothing |
| TokenBuckets.ExemptExactlyWhen | internal/ingestion/sampler.go:169-188 | The signals that bypass the budget: a span in error, repeated queries, or a span slower than twice the known 95th percentile of its service, each if it is to be kept |
| SourceLimits.SourceBound | internal/ingestion/limiter.go:135-196 | From any state, whatever its past, in any window of T seconds in which the two locked halves of spans of all sources and settings changes interleave, a source is charged at most one burst, one more for each effective change, and T times the rate, where burst and rate bound what the spans charged in the window have read, even before it, and the bursts set in it |
| SourceLimits.RunKeepsLevel | internal/ingestion/limiter.go:33-51 | In every run, with any rates, in which no span of the source is charged with stale settings of a larger burst, or with a negative one under a positive rate, it holds at most a full bucket of the burst now in force, and under a positive rate no debt |
| SourceLimits.AcceptedExactlyWhen | internal/ingestion/limiter.go:33-51 | While the settings stay, and whatever other sources do, a span is accepted if and only if every window that ends with it has a token left of its stock and inflow |
| SourceLimits.SteadyDraws | internal/ingestion/limiter.go:135-151 | While the settings stay, the bucket of a source goes through its own spans only, one token each |
| SourceLimits.StaleSpanOverfills | internal/ingestion/limiter.go:145-151 | A concrete run in which a span that read the old settings leaves a hundred times the burst now in force |
| SourceLimits.SourceLimiter.constructor | internal/ingestion/limiter.go:121-130 | A new limiter knows no source and defaults its burst to five seconds of tokens |
| SourceLimits.DefaultBurst | internal/ingestion/limiter.go:122-124 | Without a burst a positive rate gets what five seconds bring, in whole tokens and at least one; any other burst stands |
| SourceLimits.SourceLimiter.FindSource | internal/ingestion/limiter.go:135-146 | Under the limiter's lock a source seen for the first time gets a full bucket, or an empty one without a positive rate, no other changes, and the settings in force are read |
| SourceLimits.SourceLimiter.AdmitSpan | internal/ingestion/limiter.go:148-151 | Under the lock of the source alone only its bucket is refilled and charged, by the settings that were read; without a rate the span is accepted and no bucket touched |
| SourceLimits.SourceLimiter.AllowSpan | internal/ingestion/limiter.go:135-154 | Without anything in between, the two halves admit the span by the settings in force and update only the bucket of its source |
| SourceLimits.SourceLimiter.Reconfigure | internal/ingestion/limiter.go:179-196 | Settings that differ from those in force fill the bucket of every source to the new burst, at that time; the same settings touch nothing |
| SourceWindow.Entry.Record | internal/ingestion/limiter.go:54-76 | Counting into the ring, over any gap, keeps it in agreement with the history of all events, to whose second the event adds as accepted or rejected, and as an error and with its bytes only if accepted |
| SourceWindow.Entry.Snapshot | internal/ingestion/limiter.go:79-95 | The totals equal those of the last sixty seconds of the whole history, however long after the last event |
| SourceWindow.ReadIsBetween | internal/ingestion/limiter.go:82-95 | Reading the slots of any run of seconds within the window gives the totals of those seconds in the history, and nothing for seconds after the last event |
| SourceWindow.ClearedHolds | internal/ingestion/limiter.go:57-63 | Moving on by a second and clearing its slot keeps every other second of the window |
| SourceWindow.CountedHolds | internal/ingestion/limiter.go:64-74 | Counting an event changes the total of its own second only |
| ThroughputCounter.Counter.Count | internal/ingestion/throughput.go:39-76 | Counting keeps the ring and the peak in agreement with the history; numbers that are not positive change nothing |
| ThroughputCounter.Counter.Throughput | internal/ingestion/throughput.go:81-102 | The totals equal those of the last ten seconds of the whole history, and the peak is the largest number of spans that any second ever had |
| ThroughputCounter.PeakAfter | internal/ingestion/throughput.go:53-57 | The peak remains the maximum over all seconds when one more event is counted |
| ThrottleTable.Table.Schedule | internal/ingestion/cardinality_growth.go:35-58 | The probing loop refuses exactly if the slot of the key is recent or, without one, no slot is free, and otherwise writes that slot only; no key ever has two |
| ThrottleTable.RefusedExactlyWhen | internal/ingestion/cardinality_growth.go:28-58 | In every run a call is refused if and only if its key was accepted within the minute, or every slot holds another key accepted within the minute |
| ThrottleTable.MinuteApart | internal/ingestion/cardinality_growth.go:41-45 | Two acceptances of one key are at least a minute apart, whatever happens to its slot in between |
| ThrottleTable.RunRefines | internal/ingestion/cardinality_growth.go:28-58 | The table refines the map from keys to their last acceptance: what it holds agrees with the map, and what it lost is at least a minute old |
| ThrottleTable.ProbeVisits | internal/ingestion/cardinality_growth.go:38-40 | The probe of every key reaches every slot, also where the sum wraps at 64 bits |
| CoalescingQueues.NothingStranded | internal/ingestion/detector_queue.go:20-51 | In every unlocked state of every run without blank keys: never too many workers or pending keys, a live worker whenever something is pending, and exactly the keys owed a run are pending, so with no worker alive every admitted key has had a run started since |
| CoalescingQueues.RunsOnlyWhenOwed | internal/ingestion/detector_queue.go:33-48 | A run is started only for a key admitted since its last run, so repeated admissions coalesce |
| CoalescingQueues.DrainBound | internal/ingestion/pool_metrics.go:57-74 | In every stretch of a run, with any keys, the workers take at most the turns that were left and three more for each call that enqueues |
| CoalescingQueues.TurnsUntilDrained | internal/ingestion/pool_metrics.go:57-74 | In every reachable state without blank keys, while a key is owed a run some worker lives whose next turn can take it, or finishes its run first; turns are left exactly as long as a worker lives |
| CoalescingQueues.StrandsExactlyWhen | internal/ingestion/pool_metrics.go:57-70 | In every run, with any keys, work is stranded at some point if and only if in some step the last worker takes a blank key while other keys are pending |
| CoalescingQueues.StepStrandsExactlyWhen | internal/ingestion/pool_metrics.go:57-70 | From any state with a right count of workers and nothing stranded, a step strands work if and only if it is the last worker taking a blank key while other keys are pending |
| CoalescingQueues.DetectorsStrandNothing | internal/ingestion/detector_queue.go:20-51 | The detector queue never has more than two workers and strands nothing in any run |
| CoalescingQueues.BlankKeyStrands | internal/ingestion/pool_metrics.go:59-68 | A concrete run in which a pool key without a name strands another key |
| CoalescingQueues.CoalescingQueue.Enqueue | internal/ingestion/pool_metrics.go:39-55 | A key is admitted unless the queue is full, and a worker is started for it exactly if fewer than the maximum live |
| CoalescingQueues.CoalescingQueue.Take | internal/ingestion/pool_metrics.go:57-70 | A worker takes some pending key, or ends if there is none or the key is blank |
| Histograms.SeriesConserved | internal/api/metrics.go:342-366 | Over a whole cumulative series the intervals add up, in count, in sum and bucket by bucket, to the final snapshots of the segments between resets |
| Histograms.IntervalExactlyWhen | internal/api/metrics.go:397-426 | An interval plus the snapshot before is the snapshot, in count, sum and every bucket, if both tell a count and a sum over as many buckets, nothing has become less and the start is unset or unchanged; and in every other case it is the whole snapshot |
| Histograms.IntervalIsWhole | internal/api/metrics.go:407-409 | The first interval of a series, and every one of a series that is not cumulative, is the whole snapshot |
| Histograms.UnbrokenAddsUp | internal/api/metrics.go:397-426 | The intervals of a cumulative series that goes on throughout add up to its last snapshot, in count, in sum and bucket by bucket |
| Histograms.IntervalsAddUp | internal/api/metrics.go:397-426 | If the buckets of each snapshot add up to its count, so do those of each interval, which never exceeds its snapshot |
| Histograms.HistogramInterval | internal/api/metrics.go:397-426 | The loop with its early exit computes the specified interval: the whole snapshot on any sign of a reset, otherwise the difference |
| Histograms.PercentileMonotone | internal/api/metrics.go:462-492 | For sorted non-negative bounds the percentile grows with p on [0,1], across empty buckets, the overflow bucket and a total that has wrapped |
| Histograms.PercentileInRange | internal/api/metrics.go:462-492 | For sorted non-negative bounds the percentile lies between zero and the last bound |
| Histograms.PercentileInItsBucket | internal/api/metrics.go:470-488 | The percentile lies in the bucket in which the target observation falls |
| Histograms.PercentileExactly | internal/api/metrics.go:462-492 | The percentile is the target observation interpolated linearly in the bucket that it falls in, or the last bound if that is the overflow bucket |
| Histograms.HistogramPercentile | internal/api/metrics.go:462-492 | The loop computes the specified interpolation |
| Histograms.CountObserved | internal/api/metrics.go:463-466 | The total wraps at 64 bits |
| MetricSeries.DeriveGauge | internal/api/metrics.go:322-341 | In-place derivation yields at each point the average, minimum or maximum of all raw values so far, although it compares with overwritten ones |
| MetricSeries.DeriveCumulativeSum | internal/api/metrics.go:371-382 | The in-place loop shows zero first, and then each value less its overwritten predecessor, or the whole value if it is below that or the series started over |
| MetricSeries.DerivedExactlyWhen | internal/api/metrics.go:371-382 | The chart of a cumulative sum shows the increments of the raw series if and only if at every point the series restarts or the overwriting does no harm |
| MetricSeries.OverwrittenPredecessor | internal/api/metrics.go:377-381 | A counter at 5, 7 and 10 is shown as growing by 7 and 3 |

## Left out

Batcher:

- Pointers to works, their contexts and their channels: a work is its acceptance number,
  a done channel the number of times it was closed, an idle channel the worker's number.
- The loop of `execute` as one method: other callers interleave with it, so it is modelled
  step by step in `BatchRuns` (internal/ingestion/batch.go:190-262), on values.
- `complete` callbacks, the live notification, and the instrument and failure-version
  contexts; panics inside a run; the wake channel and the timer, which only decide when
  the worker looks again.
- BatchTheorems.DrainingBound: bounds the steps, and does not say that the Go scheduler
  takes them or that a run or a flush returns.
- The check of a single export against the request limit before it is queued
  (internal/ingestion/batch.go:290-293), filters and excluded services.

Spool and forwarder:

- Spools.Spool.Write: a failed write is taken to write nothing, although WriteAt may have
  written a part; and a crash inside an operation, with a torn record or a truncated file
  beside the old offset, is not modelled: each operation is atomic with its offset file.
- Write failures of the offset file and of truncation, which the source ignores.
- SpoolRuns.CapAlwaysHolds: is for runs without a restart, because after one the cap need
  not hold until the next write.
- Backoff, jitter and counters of the send loop; sampling of records; the path without a
  spool; read faults, which the send loop answers by trying again.

Trace assertions:

- Selectors are arbitrary predicates on spans; the span fields that only selectors read
  are omitted. Validation of the specification, the limit of 100000 spans, root counts,
  unresolved parents, counts, redaction, findings and diagnostics are simple scans.

Alerts:

- Reading rules and rows, labels, templates, quiet hours, the error instance of a rule,
  composite, no-data and log rules, discovered targets and the event log. Labels are not
  part of an instance, so a change of labels alone is not a change here.
- AlertHistory.OneAnnouncementPerEpisode: speaks of passes with at most one row of the
  group, because a pass with more may resolve it and fire it again before it writes;
  AlertHistory.ResolvedInBetween is for all passes.
- AlertHistory.ReplayAnnouncesExactlyWhen: is for a group with at most one row, for the same
  reason.
- Histories in which a rule changes its kind on the way: a history may start from any
  store, and is then either of a threshold rule or of an event rule.
- The write buffer of a pass reaches the store whole or not at all.
- A pass is atomic: an acknowledgement that is stored while a pass is under way, and
  overwritten by its flush, is not modelled.

Storage guard:

- Settings that change in the middle of a pass, the manual prune endpoint and the write
  path that also sets the full flag, overflow of the threshold products in 64 bits, and
  how a prune chooses what to delete.

Rates, windows, throttles and queues:

- The clock is taken not to go back within a bucket or ring, or between calls of the
  throttle.
- SourceLimits.RunKeepsLevel: for runs without a stale charge of the source, because one
  may overfill its bucket, or leave it in debt.
- SourceWindow.Entry.Snapshot: gives the totals; dividing them by the window, and errors
  by accepted spans, is left out, as it is in ThroughputCounter.Counter.Throughput.
- Rounding of floating-point tokens; the drop counters of the sampler.
- Keys of the throttle are 64-bit hashes: streams whose hashes collide share a slot.
- The epoch check around a cardinality evaluation, and what the queues' workers run.
- CoalescingQueues.NothingStranded: a run is taken to return; a panic in one, after which
  the worker is gone but still counted, is not modelled.

Metric derivation:

- The rate of sum series, the raw and last operations, delta sums, and the choice of
  operation; averages of histogram intervals.
- Rounding of floating-point sums and percentiles.

Everything else: HTTP handlers, MCP tools, the command line, the user interface, storage,
telemetry and logging.
