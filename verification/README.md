# Crash-safe bookkeeping of the message relayer

This project models the state machines by which the relayer promises that no cross-chain obligation
is lost, repeated without bound, or released too early, and proves those promises for every run. The
chain, the disk, the clock and RPC answers are explicit state, oracles or nondeterministic choices;
runs contain crashes at any point, failed and half-acknowledged writes, restarts with any lookback,
and any interleaving of arrivals.

`dafny verify dfyconfig.toml` checks everything. The modules:

- `Basics`, `Ordered`: results, saturating arithmetic, ascending listings and "the first n in order".
- `WorkWalk`, `WorkStore`: the durable store of unfinished messages. `WorkWalk` is the walk over the
  directory as a step system (fairness, bounded laps); `WorkStore` holds the imperative cursor and
  store, whose methods are proved to be runs of those steps.
- `Checkpoint`: the cursor file, its migration and its rollback.
- `SourceChain`, `SourceRun`, `SourceScan`: the finalized source chain; the persistence of the scan cursor
  as a step system over every run; and one poll (range shrinking, receipt fallback, authorization caches,
  journal before cursor), proved to be a run of those steps.
- `RouteScan`, `RouteHistory`, `Resolution`: the settlement route history, its halving scans, and the
  resolution of a message to its original Outbox.
- `Pending`, `Settlement`, `AckDiscovery`, `AckRun`: the acknowledgment pipeline: bounded queue, one
  settlement attempt, discovery with backpressure, and the whole worker over every run.
- `Schedules`, `FailedRetry`: retry schedules, and the gas budget with its memory and disk copies.
- `SetUpdate`, `Broadcast`: vote aggregation, and signer-serialized sending.

The imperative methods are proved against reference functions, or to be runs of the corresponding state
machine's steps, and the main theorems are about all runs of those machines.

## Findings

- **Set updates may carry a retired attestor's signature.** The comments promise signatures of current
  attestors. `refresh` clears collected votes only when the nonce changes, so a refresh that shows a
  changed attestor set under an unchanged nonce (the set, the threshold and the nonce come from separate
  calls) leaves the votes of retired attestors in their slots. `SetUpdate.RetiredSignerExample` is such
  a trace. `SetUpdate.RefreshKeepsVotersCurrentIff` gives the exact condition on a refresh, and
  `SetUpdate.SignersCurrentWithoutRetiredVoters` the promise for every trace without such a refresh.
- **A complete `pending` call does not offer every record once.** A comment says so, but a record that
  arrived inside the span of the current window, or beyond the lap's end, is left to a later lap.
  `WorkStore.MissedExample` is such a state, `WorkStore.MissedByCompleteCall` the exact condition, and
  `WorkStore.WorkStore.Pending` states exactly what a complete call examines.
- **A settlement worker without a checkpoint or a `start_block` restarts at the head.** Whatever was
  pending is then abandoned. `AckRun.RestartAtHeadExample` is such a run and `AckRun.RestartKeepsIff` states
  exactly when a restart keeps an obligation. The directory sync after a checkpoint write is best effort, so
  a power loss may also take away a first checkpoint; once every version of the file has one,
  `AckRun.FloorFixedOnceAnchored` shows that the floor never moves again.
- **A tombstone whose write failed may be undone by a restart.** The disk then still holds the older
  count; `FailedRetry.UndoneTombstoneExample` is such a run and `FailedRetry.UndoneTombstoneIff` gives the
  exact condition, power losses included.
- **The retry budget does not count a send that returned an error.** Such a transaction may have reached the
  node. `FailedRetry.OverspendExample` is a run that overspends, `FailedRetry.SentAheadIff` says exactly which
  steps let sent transactions run ahead of the count, and `FailedRetry.SentExactly` counts them.
- **A nonce can be spent although no broadcast stalled.** A send that returned an error releases the signer's
  slot and may still arrive; `Broadcast.LateArrivalExample` is such a run and `Broadcast.FreshIff` the exact
  condition.
- **A proof above the encoded-size cap releases its transaction unsettled.** It is the only such
  release (`Settlement.ReleaseIsJustified`); `Settlement.OversizedExample` is one, and `Settlement.OutcomeExactly`
  says when it happens.

## Model

| member | source | states |
|---|---|---|
| `WorkWalk.StepKeepsInv` | message-relayer/src/work.rs:61-129 | every record, completion, refill, examination and lap end keeps the window ascending, after `after` and within `lap_end` |
| `WorkWalk.ExaminedBeforePassed` | message-relayer/src/work.rs:92-129 | fair walk: in every run, from the start of any lap, a record that the directory passes find until the walk has gone by it was examined by then, whatever arrives or leaves and however many windows it takes |
| `WorkWalk.ExaminedByLapEnd` | message-relayer/src/work.rs:92-129 | and a lap does not end before it has examined every record its passes find |
| `WorkWalk.ExaminationsPerLap` | message-relayer/src/work.rs:69-72 | each examination moves the cursor past one more of the IDs that occur in the run, so a lap examines at most that many even if arrivals never stop |
| `WorkWalk.RunsCompose` | message-relayer/src/work.rs:168-303 | consecutive calls form one run, so the walk's theorems hold of any sequence of `record`, `complete` and `pending` calls |
| `WorkWalk.NoStarvation` | message-relayer/src/work.rs:92-129 | a record present throughout a run is examined within twice as many examinations as IDs occur in it; within as many, if the run starts with a lap |
| `Ordered.IsFirstUnique` | message-relayer/src/work.rs:98-129 | there is only one ascending listing of the first n, so every directory order gives the same window |
| `WorkStore.CountRecords` | message-relayer/src/work.rs:76-91 | the initial count is the number of record files; it fails exactly when the listing does |
| `WorkStore.PushBounded` | message-relayer/src/work.rs:117-120 | pushing into the bounded max-heap and popping its largest keeps exactly the first `WINDOW_SIZE` in order |
| `WorkStore.ScanListing` | message-relayer/src/work.rs:99-121 | one pass with a bounded heap yields the largest ID and, for every listing order, exactly the first `WINDOW_SIZE` qualifying IDs |
| `WorkStore.RouteCursor.Refill` | message-relayer/src/work.rs:98-129 | the window becomes those IDs, a new lap's end is the largest ID, and a failed pass changes nothing |
| `WorkStore.CyclicDistinct` | message-relayer/src/work.rs:224-275 | IDs examined in cyclic ascending order from the cursor are distinct |
| `WorkStore.WorkStore.Record` | message-relayer/src/work.rs:168-191 | success stores the message and nothing else; failure leaves the directory with or without it; `live_records` stays the number of files |
| `WorkStore.WorkStore.Complete` | message-relayer/src/work.rs:283-303 | a removal step, idempotent for a missing file, that never touches another record and keeps the count exact |
| `WorkStore.WorkStore.FillWindow` | message-relayer/src/work.rs:228-246 | an empty window is refilled, ends the lap exactly when nothing qualifies, or is left alone by a failed listing |
| `WorkStore.WorkStore.ReadRecord` | message-relayer/src/work.rs:253-268 | nothing for held or missing records, the stored message exactly for a readable record filed under its own ID and chain key, and an error otherwise |
| `WorkStore.WorkStore.Pending` | message-relayer/src/work.rs:196-279 | a call is a run of walk steps; it examines at most the cap, in cyclic order from the cursor, and returns exactly the stored messages among them the caller does not hold, with distinct IDs and at most `limit`; a call not cut short ends a lap and examines exactly what was in reach; it fails only on a listing or on the corrupt record it examined last |
| `WorkStore.MissedByCompleteCall` | message-relayer/src/work.rs:222-275 | a complete call misses a record if and only if it is ahead, not in the window, and below the window's last ID or past the lap's end |
| `WorkStore.MissedExample` | message-relayer/src/work.rs:247-250 | a concrete state in which a complete call leaves a record out |
| `WorkStore.WorkStore.WalkLap` | message-relayer/src/work.rs:222-275 | the loop of `pending`: at most one lap per call, never past its own starting point, and never stopping before that without a limit, cap or one of these failures |
| `Checkpoint.LoadInvertsSerialize` | message-relayer/src/checkpoint.rs:56-74 | loading what was persisted gives back the same entries |
| `Checkpoint.MemoryIsWhatLoadReturns` | message-relayer/src/checkpoint.rs:163-232 | after any updates with any persistence failures memory equals what `load` returns, and keys without a persisted update are untouched |
| `Checkpoint.MarkerComesFromJournal` | message-relayer/src/checkpoint.rs:163-207 | only a persisted journaled update of a key sets its durability marker |
| `Checkpoint.LoadsWhatWasSet` | message-relayer/src/checkpoint.rs:163-207 | after a persisted update a restart loads the new block, with the Outbox and marker kept, cleared or set as each setter promises |
| `Checkpoint.OlderFilesLoad` | message-relayer/src/checkpoint.rs:56-74 | bare numbers and objects without a marker load as unmarked cursors |
| `Checkpoint.Open` | message-relayer/src/checkpoint.rs:99-124 | a missing file is an empty store, a blank or unparseable one is refused |
| `Checkpoint.CheckpointStore.PersistEntry` | message-relayer/src/checkpoint.rs:209-225 | all or nothing: memory and file both carry the entry, or both are as before |
| `Checkpoint.CheckpointStore.Execute` | message-relayer/src/checkpoint.rs:163-207 | each setter is the corresponding update, applied exactly when persisted |
| `SourceScan.FinalityTracker.PickToBlock` | message-relayer/src/events/finality.rs:44-75 | the production policy scans to the finalized head and only forwards; an absent or regressed head is an error that changes nothing; the advance instant and the stall flag are exact |
| `SourceScan.LogsFromReceipts` | message-relayer/src/events/mod.rs:384-436 | with an honest node, the receipt fallback succeeds exactly on full, consistent receipts and returns exactly the block's publications |
| `SourceScan.FetchRange` | message-relayer/src/events/mod.rs:230-248 | halving terminates without overshooting and returns exactly the publications of a nonempty prefix of the range; it fails only on a broken query or a single block its receipts do not cover |
| `SourceScan.IndexComplete` | message-relayer/src/events/mod.rs:249-316 | the uncached per-log reference indexes every authorized, decodable publication |
| `SourceScan.IndexSound` | message-relayer/src/events/mod.rs:249-316 | and nothing else |
| `SourceScan.SourceWatcher.Authorize` | message-relayer/src/events/mod.rs:269-297 | the Discovery and membership caches answer what an uncached historical lookup answers |
| `SourceScan.SourceWatcher.IndexLogs` | message-relayer/src/events/mod.rs:249-334 | a finished pass journals exactly the uncached reference index, durably; a stopped one a prefix of it |
| `SourceScan.SourceWatcher.Record` | message-relayer/src/work.rs:168-191 | a journal write is a `Recorded` step, or none; success means visible and durable |
| `SourceScan.SourceWatcher.Poll` | message-relayer/src/events/mod.rs:198-336 | a poll is a run of journal writes that ends, exactly if it finishes with something to scan, in the cursor's advance; all publications passed were journaled by then, and everything indexed is an authorized publication of the range; it fails only on a fetch, read, write, stop or undecodable authorized log |
| `SourceRun.ResumesOnlyFromJournal` | message-relayer/src/events/mod.rs:77-87 | in every run, a process that starts above the floor resumes at or below a cursor that an earlier process persisted with the marker, below which everything is safe; an unmarked cursor is never resumed from |
| `SourceRun.ResumesAt` | message-relayer/src/events/mod.rs:77-87 | a start resumes exactly `lookback` blocks before a marked cursor, and otherwise so that the start block is scanned first |
| `SourceRun.PollMayAdvance` | message-relayer/src/events/mod.rs:317-335 | a poll whose steps interleave with completions, checkpoint writes and other records in any way may still advance once it has recorded its range |
| `SourceRun.JournaledUpdatePersists` | message-relayer/src/checkpoint.rs:195-225 | the journaled checkpoint update is the `Persisted` step, and a restart loads the model's cursor |
| `SourceRun.LeadsKeepsInv` | message-relayer/src/events/mod.rs:198-336 | any run of steps, a poll among them, keeps everything up to all cursors safe |
| `SourceRun.SafeStays` | message-relayer/src/work.rs:168-191 | no step, not even losing power, makes a journaled or completed publication unsafe |
| `SourceRun.RunKeepsInv` | message-relayer/src/events/mod.rs:139-185 | every reachable state: all cursor versions a power loss may leave, and the live cursor, have only safe publications below them |
| `SourceRun.NoPublicationLost` | message-relayer/src/events/mod.rs:139-185 | in every run each authorized publication between the floor and a marked persisted cursor is in the durable journal or completed |
| `RouteScan.CollectOutboxes` | message-relayer/src/ack/routes.rs:272-296 | one foreign, removed, misplaced or undecodable log refuses the whole answer; otherwise exactly the nonzero Outboxes named, added or removed |
| `RouteScan.ReceiptsCoverBlock` | message-relayer/src/ack/routes.rs:223-255 | the count, index and distinctness checks imply a receipt for every transaction of the block |
| `RouteScan.LogsFromReceipts` | message-relayer/src/ack/routes.rs:215-269 | the fallback succeeds exactly on full, consistent coverage and returns exactly the Inbox's logs |
| `RouteScan.FallbackNames` | message-relayer/src/ack/routes.rs:215-296 | with an honest node, the fallback names exactly the Outboxes of the block |
| `RouteScan.ReadRange` | message-relayer/src/ack/routes.rs:198-297 | a range read succeeds exactly under the stated conditions and then names exactly the range's Outboxes |
| `RouteScan.Scan` | message-relayer/src/ack/routes.rs:299-312 | returns a complete nonempty prefix; succeeds whenever the first block can be read alone |
| `RouteScan.ScanBackwards` | message-relayer/src/ack/routes.rs:314-327 | returns a complete nonempty suffix; succeeds whenever the last block can be read alone |
| `RouteHistory.StepKeepsCoverage` | message-relayer/src/ack/routes.rs:144-195 | loads, seeds, extensions with any commit result, and crashes keep both copies covering their interval |
| `RouteHistory.CoverageOverRuns` | message-relayer/src/ack/routes.rs:57-195 | at every point of every run, memory and every version of the file a power loss may leave hold a contiguous interval and every nonzero Outbox authorized in it |
| `RouteHistory.OnlyScansEnlarge` | message-relayer/src/ack/routes.rs:106-195 | only a committed scan moves the published interval, only outwards, and nothing drops an Outbox; on disk only a written scan goes beyond what memory knew |
| `RouteHistory.Load` | message-relayer/src/ack/routes.rs:57-94 | an unreadable, foreign or inverted history is refused; otherwise the stored one, or an empty one |
| `RouteHistory.RouteHistory.CommitState` | message-relayer/src/ack/routes.rs:184-195 | persist, then publish: a failed write never reaches memory |
| `RouteHistory.RouteHistory.Seed` | message-relayer/src/ack/routes.rs:106-120 | hints add candidates and never coverage |
| `RouteHistory.RouteHistory.SeedValidator` | message-relayer/src/ack/routes.rs:122-142 | the configured validator's nonzero Outbox becomes a candidate, never coverage |
| `RouteHistory.RouteHistory.Refresh` | message-relayer/src/ack/routes.rs:144-182 | every outcome is a run of coverage-keeping steps outwards; success extends forward and lowers a nonzero low bound; readable single blocks and working commits imply success |
| `RouteHistory.Backfill` | message-relayer/src/ack/routes.rs:144-182 | refreshing tick by tick is a run of coverage-keeping steps in which each success lowers the bound; if heads and single blocks can be read and commits succeed, every tick succeeds and genesis is reached |
| `RouteHistory.HistoryResolves` | message-relayer/src/ack/routes.rs:386-456 | after any run that scanned a block naming the message's own Outbox, the message resolves to nothing to do or to that Outbox's checked validator, whatever else the history holds |
| `Resolution.MatchUnique` | message-relayer/src/ack/routes.rs:329-340 | a message has one publishing Outbox |
| `Resolution.ValidatorFor` | message-relayer/src/ack/routes.rs:386-456 | the loop over candidates returns the answer of the publication's own Outbox, wherever it is listed, and otherwise fails |
| `Resolution.ResolvesExactly` | message-relayer/src/ack/routes.rs:386-456 | from the publishing Outbox's own record: nothing to do if and only if it cannot be or is acknowledged, a validator if and only if it is read, nonzero and bound to the Outbox and destination, and otherwise a failure |
| `Resolution.ResolutionSound` | message-relayer/src/ack/routes.rs:386-456 | no-op answers rest on a finalized matching record that needs no acknowledgment; a validator is bound to that Outbox and this destination |
| `Resolution.ResolutionMonotone` | message-relayer/src/ack/routes.rs:386-456 | further candidates, failing or not, never change an answer |
| `Resolution.ResolvesOnceKnown` | message-relayer/src/ack/routes.rs:386-456 | once the publishing Outbox is a candidate, only its own reads decide |
| `Resolution.Validators` | message-relayer/src/ack/routes.rs:351-384 | collects exactly the authorities still owed and reports a failure exactly when some message is unresolved (or none was given) |
| `Resolution.NothingLeft` | message-relayer/src/ack/routes.rs:342-384 | no authority and no failure means every message is settled |
| `Pending.PendingTxs.Insert` | message-relayer/src/pending.rs:141-162 | below capacity nothing is evicted; at capacity the entry first seen earliest is |
| `Pending.PendingTxs.Ready` | message-relayer/src/pending.rs:175-188 | the due transactions first seen earliest, in order; none is passed over for a younger one |
| `Pending.PendingTxs.NoteMeta` | message-relayer/src/pending.rs:166-172 | an event is added to its tracked transaction once and nothing else changes |
| `Pending.PendingTxs.RecordTransientFailure` | message-relayer/src/pending.rs:199-210 | the n-th failure reschedules by the n-th doubling delay |
| `Pending.PendingTxs.OldestPendingBlock` | message-relayer/src/pending.rs:134-136 | the least discovery block of the queue |
| `Pending.BoundedSeen.Insert` | message-relayer/src/pending.rs:215-244 | first-in first-out with set and queue in agreement |
| `Settlement.IdsOf` | message-relayer/src/ack/mod.rs:856-869 | the distinct IDs of one kind, ascending |
| `Settlement.RelayClaimableIds` | message-relayer/src/ack/mod.rs:813-832 | exactly the funded, unsettled IDs, or a failure exactly when some read fails |
| `Settlement.Precheck` | message-relayer/src/ack/mod.rs:856-900 | authorities, unresolved messages and claims of the first pass; a failed fee read attempts all claims |
| `Settlement.SubmitSettlements` | message-relayer/src/ack/mod.rs:994-1111 | every acknowledgment and every claim is sent and its answer taken; a failure is reported exactly if one was not sent |
| `Settlement.VerifySource` | message-relayer/src/ack/mod.rs:1113-1149 | passes exactly when the second pass over source state finds nothing still owed and no read failed |
| `Settlement.AcknowledgeTx` | message-relayer/src/ack/mod.rs:841-1155 | the whole attempt equals its reference outcome |
| `Settlement.OutcomeExactly` | message-relayer/src/ack/mod.rs:902-1154 | an if-and-only-if for every outcome in terms of reads, proof and sends: acknowledged exactly when something was owed, all resolved, the proof fits and builds, every submission was answered and the second pass found all settled; likewise nothing to settle, not ready, rejected and too large |
| `Settlement.ReleaseIsJustified` | message-relayer/src/ack/mod.rs:841-1155 | a releasing outcome means that the last pass the attempt made found every executed ID settled and, in claim mode, a pass it made found every fee settled or unfunded; the sole exception is an oversized proof |
| `Settlement.OversizedExample` | message-relayer/src/ack/mod.rs:962-978 | a concrete attempt that releases an unsettled claim |
| `Settlement.ShownHoldsOnChain` | message-relayer/src/ack/mod.rs:1113-1155 | with honest reads of state that stays settled, what an attempt's finalized reads showed settled is settled on the chain from then on |
| `AckDiscovery.DecodeLogs` | message-relayer/src/ack/mod.rs:486-506 | all or nothing: one bad log refuses the response, otherwise exactly its delivery events |
| `AckDiscovery.AckWorker.Admit` | message-relayer/src/ack/mod.rs:507-536 | for every log order and even if the queue fills midway: no eviction, each admitted transaction carries exactly its events, everything left out lies at or above the first block left out |
| `AckDiscovery.AckWorker.Discover` | message-relayer/src/ack/mod.rs:448-540 | fails exactly on a failed read or a bad log, and then changes nothing; otherwise the range up to the confirmed head, at most 2000 blocks, is admitted and the cursor never moves backwards, past that head, nor past what was left out |
| `AckDiscovery.AckWorker.PersistedCursor` | message-relayer/src/ack/mod.rs:374-383 | the persisted cursor is at or below the live one and below every pending block |
| `AckDiscovery.AckWorker.Settle` | message-relayer/src/ack/mod.rs:629-719 | only releasing outcomes remove a transaction; a not-ready one follows the polling policy, a rejected one waits the capped maximum, a failed one climbs the doubling schedule |
| `AckRun.ScanCovers` | message-relayer/src/ack/mod.rs:507-538 | after a scan every delivery above the floor and up to the new cursor is finished or pending |
| `AckRun.FinishDischarges` | message-relayer/src/ack/mod.rs:629-719 | the attempt that releases a transaction settled all of its events on the chain, or ended as an oversized proof |
| `AckRun.RunKeepsInv` | message-relayer/src/ack/mod.rs:290-388 | the pipeline's invariant holds in every reachable state, over crashes, power losses and failed checkpoint writes |
| `AckRun.NoSettlementSkipped` | message-relayer/src/ack/mod.rs:290-388 | in every run each delivery above the floor is discharged if at or below the persisted cursor, whichever version survives, and discharged or queued with all its events if at or below the live one |
| `AckRun.PersistedMeansSettled` | message-relayer/src/ack/mod.rs:290-388 | end to end: in every run, every event of every delivery between the floor and the persisted cursor has its configured obligation met in finalized source state, unless it was released for an oversized proof |
| `AckRun.FloorFixedOnceAnchored` | message-relayer/src/ack/mod.rs:290-315 | with a start block, or a checkpoint in every version of the file, the floor never moves again |
| `AckRun.SyncedCheckpointAnchors` | message-relayer/src/ack/mod.rs:374-388 | one checkpoint write that is safe from a power loss is enough for that |
| `AckRun.RestartKeepsIff` | message-relayer/src/ack/mod.rs:290-315 | a restart keeps an unfinished obligation if and only if it finds a checkpoint, a start block is configured, or the new head is below it |
| `AckRun.RestartResumesAt` | message-relayer/src/ack/mod.rs:290-315 | a restart resumes exactly `lookback` blocks before its checkpoint, else before the start block, else at the head |
| `AckRun.RestartAtHeadExample` | message-relayer/src/ack/mod.rs:290-315 | a concrete run in which a restart at the head abandons a queued delivery |
| `AckRun.LiveProgress` | message-relayer/src/ack/mod.rs:507-539 | while a process lives its cursor never moves backwards and only a releasing attempt drops a queued transaction |
| `Schedules.TransientIsDoubling` | message-relayer/src/pending.rs:199-210 | the backoff after failure k+1 is min(30·2^k, 600) s for every k |
| `Schedules.DoublingInSeconds` | message-relayer/src/pending.rs:44-57 | the schedule is 30, 60, 120, 240, 480 and then always 600 s |
| `Schedules.NotReadyPolicy.SameAsTransient` | message-relayer/src/pending.rs:44-57 | polling from the instant the window closes, the k-th counter-free delay equals the counter-based one |
| `Schedules.NotReadyPolicy.DelayExactly` | message-relayer/src/pending.rs:44-57 | the polling interval inside the window; past it the k-th doubling delay for an excess between 30·(2^k-1) and 30·(2^(k+1)-1) s |
| `Schedules.NotReadyPolicy.DelaysMonotone` | message-relayer/src/pending.rs:44-57 | past the window delays grow with waiting and stay within [30, 600] s |
| `Schedules.NotReadyPolicy.LatePollsBackOffNoLess` | message-relayer/src/pending.rs:44-57 | polls that come late by any amounts never back off less than the counter would |
| `Schedules.FailedRetryPolicy.BackoffExact` | message-relayer/src/config.rs:206-214 | the saturating 64-bit computation equals min(initial·2^n, max) for every n |
| `Schedules.FailedRetryPolicy.BackoffGrows` | message-relayer/src/config.rs:188-214 | a validated policy's spacing is positive, monotone and capped |
| `Schedules.FailedRetryPolicy.ValidIff` | message-relayer/src/config.rs:188-204 | exactly the policies whose first wait is the configured, positive one are accepted |
| `FailedRetry.FailedRetries.Get` | message-relayer/src/delivery/failed_retry.rs:63-86 | the stricter of both copies, cached; unknown only if the disk copy is unreadable and memory has none |
| `FailedRetry.FailedRetries.PutState` | message-relayer/src/delivery/failed_retry.rs:88-100 | memory always takes the state, the disk only on success, other messages are untouched |
| `FailedRetry.FailedRetries.Forget` | message-relayer/src/delivery/failed_retry.rs:103-111 | memory forgets; the disk copy stays if its removal fails |
| `FailedRetry.FailedRetries.Start` | message-relayer/src/delivery/failed_retry.rs:115-135 | an existing entry is kept and an unreadable one is never overwritten |
| `FailedRetry.FailedRetries.AskGate` | message-relayer/src/delivery/failed_retry.rs:140-157 | the verdict on the merged state; an unreadable entry waits |
| `FailedRetry.FailedRetries.RecordAttempt` | message-relayer/src/delivery/failed_retry.rs:160-182 | counts one more than what is known |
| `FailedRetry.FailedRetries.LeaveTombstone` | message-relayer/src/delivery/failed_retry.rs:185-197 | marks the message given up, keeping an earlier mark's time |
| `FailedRetry.GateExactly` | message-relayer/src/delivery/failed_retry.rs:140-157 | on the copies read: an unreadable entry waits one initial backoff, a tombstone or spent attempts in any copy give up, else the latest instant any copy asks for is waited for, else it proceeds |
| `FailedRetry.RecordCounts` | message-relayer/src/delivery/failed_retry.rs:160-182 | one more than the most attempts any copy shows, next due after the policy's spacing |
| `FailedRetry.StartExactly` | message-relayer/src/delivery/failed_retry.rs:115-135 | a fresh message first waits the initial backoff; a known entry is kept, so later gates decide the same |
| `FailedRetry.ForgetExactly` | message-relayer/src/delivery/failed_retry.rs:103-111 | a forgotten message starts afresh; if its file stays, the next gate reads just that |
| `FailedRetry.GiveUpIsEarned` | message-relayer/src/delivery/failed_retry.rs:140-157 | in every run a give-up verdict comes after an earlier tombstone or as many recorded attempts as the policy allows |
| `FailedRetry.StepKeepsInv` | message-relayer/src/delivery/failed_retry.rs:63-197 | the accounting invariant that ties both copies to the attempts recorded |
| `FailedRetry.SentAheadIff` | message-relayer/src/delivery/mod.rs:2013-2172 | a step lets the transactions sent run ahead of the attempts recorded if and only if it is a crash between `Proceed` and the record, or an errored send that reached the node |
| `FailedRetry.SentExactly` | message-relayer/src/delivery/mod.rs:2013-2172 | in every run the transactions sent since the last forget are exactly the attempts recorded and those steps |
| `FailedRetry.OverspendExample` | message-relayer/src/delivery/mod.rs:2122-2128 | a concrete run that sends two transactions under a budget of one |
| `FailedRetry.BudgetHolds` | message-relayer/src/delivery/failed_retry.rs:63-197 | one process records at most `max_attempts` attempts between forgets whatever reads and writes fail; over crashes and power losses the excess is at most the attempts no surviving copy shows |
| `FailedRetry.GasBudgetAcrossRestarts` | message-relayer/src/delivery/failed_retry.rs:160-182 | with successful writes (synced ones, if power may be lost) the transactions sent are at most the budget plus one per crash between `Proceed` and the record and one per errored send that reached the node |
| `FailedRetry.TombstoneIsFinal` | message-relayer/src/delivery/failed_retry.rs:140-197 | after a tombstone no gate proceeds, under any budget and failed reads or writes, until forgotten; a written one survives every restart, a synced one every power loss |
| `FailedRetry.UndoneTombstoneIff` | message-relayer/src/delivery/failed_retry.rs:88-197 | a tombstone is undone if and only if a restart comes with it unwritten, or a power loss with it unsynced, and the older copy then found is readable and absent, or alive, due and below the budget |
| `FailedRetry.UndoneTombstoneExample` | message-relayer/src/delivery/failed_retry.rs:88-197 | a concrete run in which a restart sends again after an unsaved tombstone |
| `SetUpdate.CanonicalAttestorOrder` | write-ability/src/hash.rs:45-50 | sorting and dropping adjacent repeats is the ascending listing of the address set |
| `SetUpdate.CanonicalIffSameSet` | write-ability/src/hash.rs:41-50 | two proposals have one canonical form if and only if they name the same set |
| `SetUpdate.SameSlotIffSameSet` | message-relayer/src/set_update/mod.rs:84-108 | two votes verified against one view share a slot if and only if they propose the same set |
| `SetUpdate.RouteState.Refresh` | message-relayer/src/set_update/mod.rs:118-143 | a failed read keeps everything; a changed nonce drops votes and in-flight marks; the view is replaced |
| `SetUpdate.RouteState.HandleVote` | message-relayer/src/set_update/mod.rs:196-246 | the whole new state and the submission triggered, for a submit that succeeds or fails |
| `SetUpdate.RouteState.CountVote` | message-relayer/src/set_update/mod.rs:215-245 | duplicate signers and in-flight digests submit nothing; a completed slot is submitted, cleared and marked only if the submit succeeded |
| `SetUpdate.VerifiedExactly` | message-relayer/src/set_update/mod.rs:84-108 | a vote is aggregated if and only if a current attestor signed the update's digest at the current nonce |
| `SetUpdate.SubmitsExactly` | message-relayer/src/set_update/mod.rs:213-236 | an update is submitted if and only if a new voter reaches the threshold while it is not in flight |
| `SetUpdate.SubmissionCarriesVotes` | message-relayer/src/set_update/mod.rs:228-236 | a submission carries exactly the votes held for the update and the one that reached the threshold |
| `SetUpdate.VoteIsHeld` | message-relayer/src/set_update/mod.rs:219-226 | any other verified vote is held with its newest signature, and nothing else changes |
| `SetUpdate.InFlightExactly` | message-relayer/src/set_update/mod.rs:118-246 | in every trace a digest is in flight if and only if a step submitted it successfully and the nonce has not changed since |
| `SetUpdate.VotersExactly` | message-relayer/src/set_update/mod.rs:118-246 | in every trace the votes held for an update are exactly those cast since its last submission and the last nonce change |
| `SetUpdate.SubmissionTouchesOnlyItsSlot` | message-relayer/src/set_update/mod.rs:228-245 | a submission empties its slot and touches no other update; a failed one leaves no mark, so new votes can complete it again |
| `SetUpdate.SubmissionsAreVerified` | message-relayer/src/set_update/mod.rs:84-246 | in every trace a submission carries at least `threshold` signatures of distinct signers over one digest of one canonical set at the view's nonce, each signer an attestor in a view of that nonce |
| `SetUpdate.BroadcastOncePerNonce` | message-relayer/src/set_update/mod.rs:118-246 | between nonce changes a digest is submitted successfully at most once |
| `SetUpdate.RefreshKeepsVotersCurrentIff` | message-relayer/src/set_update/mod.rs:130-141 | a refresh leaves stale votes if and only if it retires a voter under an unchanged nonce |
| `SetUpdate.SignersCurrentWithoutRetiredVoters` | message-relayer/src/set_update/mod.rs:84-246 | in every trace without such a refresh all signers of a submission are current attestors |
| `SetUpdate.RetiredSignerExample` | message-relayer/src/set_update/mod.rs:118-246 | a concrete trace whose submission carries a retired attestor's signature |
| `Broadcast.BroadcastLocks.SlotFor` | message-relayer/src/broadcast.rs:214-223 | one lock per signer, created once, never shared or replaced |
| `Broadcast.StepKeepsInv` | message-relayer/src/broadcast.rs:193-211 | every step keeps lock ownership and keeps held nonces at or below the pending count, which never shrinks |
| `Broadcast.OneSendPerSigner` | message-relayer/src/broadcast.rs:193-211 | for any workers and interleaving at most one send per signer is between lock and release |
| `Broadcast.SlotIsFree` | message-relayer/src/broadcast.rs:193-211 | no slot leaks: a waiting worker can take it as soon as no worker is inside |
| `Broadcast.BroadcastReturns` | message-relayer/src/broadcast.rs:193-211 | however a broadcast ends, its worker is out and its slot is free |
| `Broadcast.NoNonceGap` | message-relayer/src/broadcast.rs:135-211 | no transaction ever carries a nonce above the chain's pending count, not even one abandoned by a timeout or an error |
| `Broadcast.FreshWithoutStalls` | message-relayer/src/broadcast.rs:135-211 | without stalls, late arrivals and stale nonce reads every submitted nonce is the chain's next one and differs from all that landed before |
| `Broadcast.FreshIff` | message-relayer/src/broadcast.rs:135-211 | in every run a submitted nonce is the chain's next one if and only if its read was up to date and no abandoned transaction of the signer was taken in between |
| `Broadcast.LateArrivalExample` | message-relayer/src/broadcast.rs:193-211 | a concrete run without a stall that submits a spent nonce, because a send that errored arrives late |

## Left out

- The delivery worker and the vote pool: only the interfaces used by the modelled files appear.
- The fee-claim worker: it mirrors the settlement pipeline with eviction and an age limit, so it would only add weaker variants.
- Peer-to-peer networking, the observer node, HTTP, configuration parsing, metrics and health: plumbing over libraries.
- SCALE and ABI codecs, keccak256 and signature recovery: message IDs and update digests are injective functions, recovery is a partial function.
- Revert and proof-generator classification: their results are inputs of an attempt.
- Rate-limit pacing, heartbeats and log escalation.
- Task scheduling and wall-clock time: step order and instants are arbitrary; a monotonic clock is assumed only for finality stalls.
- `fsync` internals: a file write is an atomic old-or-new replacement, with a version a power loss may restore tracked for the source cursor, the settlement checkpoint, the route history, the retry sidecar and the journal.
- Reorganizations below the confirmation depth or of finalized source blocks.
- Dishonest nodes: completeness of a scan is stated for nodes that may fail any call but answer truthfully when they answer.
- Working-directory entries whose name ends in `.json` but is no message ID: the store model has none, so `live_records` counts only real records; `WorkStore.RouteCursor.Refill` does refuse such a listing.
- The position of the walk over a restart: a new process starts a new lap, so the fairness theorems hold per process.
- The injectivity of `checkpoint_key` strings.
- Overflow of the 32-bit transient-failure counter.
- FailedRetry.BudgetHolds: the budget is the largest `max_attempts` of the policies used in the run, and one worker handles a message at a time.
- SourceScan.SourceWatcher.Poll: reads of the chain within one poll are functions of their arguments, so a node that changes its answer to the same question within a poll is not modelled.
- Settlement.AcknowledgeTx: each of the two passes is a function of its questions, and the batch's concurrent attempts are modelled one at a time since they share no state.
