# Verified models of EverOS

EverOS is a memory runtime: conversations are buffered per session, a boundary detector cuts
the buffer into memory cells, strategies run over the cells in an offline engine, and a
backfill repairs rows whose vectors are missing. This project models the stateful protocols
behind that, and a few self-contained algorithms around it, and proves what they keep.

One module per component; every module is a file of the same name.

- **The memorize protocol** (`Messages`, `Merging`, `Boundary`, `Memorize`, `Conservation`,
  `Unlocked`, `Stage`, `SessionLocks`). `Memorize` is a step system: any number of calls on one
  session arrive, queue for the lock, read, ask the detector, insert cells, replace the buffer
  and return, one label per await, and `Abort` may strike any of them. `Serialised` reduces every
  such run to the calls run alone in lock-grant order; `Conservation` then proves that no stored
  id is ever lost and when each is stored exactly once; `Unlocked` shows that the lock is what
  makes the difference. `Stage` is the stage as it runs for one call on stored rows.
- **Backfill Phase 1** (`Backfill`, `BackfillPass`). The batched pass, with its whole-batch
  requests and per-row fallback, refines a loop over single rows for every batch size and
  every pattern of failures. `BackfillPass` says what a pass leaves for the next scan and what
  its two counters do and do not account for.
- **The offline engine** (`OmeRuns`, `OmeEngine`). In-flight counting with chain emits, waiters
  and restarts as a step system; the engine object with its lifecycle, rollback and file lock
  as a class, with every stage of a start and every clean-up step allowed to raise.
- **The DSH capture runtime** (`PromiseQueue`, `Capture`, `MemoryRuntime`, `CaptureSteps`,
  `CaptureAwaits`, `Recall`, `RecallQuery`). The map of per-session promise chains, the cursor over
  the event log, batches that may fail part way, pending counters, and the fencing of recalled text.
  `CaptureSteps` makes every await of a session a step, and `CaptureAwaits` shows that what
  `MemoryRuntime` proves of whole operations is what any interleaving amounts to.
- **Smaller algorithms** (`SplitCommand`, `Sampling`, `Rerank`, `Identifiers`, `Paragraphs`,
  `Monotonicity`). `Common` holds shared vocabulary.

Code that computes a value is a function; code that updates objects, tables or lists in place
is a class or a method with loops, proved against such a function.

## Assumptions

- The detector honours its contract where a lemma says so (`HonoursContract`): the items of its
  cells followed by its tail are the list it was given (`src/everos/service/_boundary.py:472`,
  `src/everos/service/_boundary.py:485-487`). The stage itself is modelled for any reply.
- A repository call is one atomic effect; a cancellation at its await falls before or after it.
- A backfill table has unique ids, embedding one text is deterministic, and a batch request that
  succeeds agrees with the single-text request.
- Event sequence numbers of a DSH session increase strictly, and an `add` that fails is one the
  server did not take.
- Timestamps, scores and vectors are mathematical numbers; scores are never NaN.

## Where the code and its documentation part

- The engine promises that a failed start rolls everything back "so a retry starts from a clean
  state" (`src/everos/infra/ome/engine.py:277-280`). A start cancelled during crash recovery rolls
  nothing back, since a cancellation is not an `Exception`: `OmeEngine.CancelledStartWedges` shows
  the engine then refuses every later start because of its own lock. An ordinary exception is
  rolled back completely exactly when no clean-up step raises (`OmeEngine.OfflineEngine.Start`).
- `wait_idle` returns True when idle was reached during the wait. On return the engine is still idle
  exactly when every run enqueued since that moment has finished (`OmeRuns.WokenIsIdleIff`); a run in
  which it is not is `OmeRuns.WokenMayBeBusy`. After a stop that timed out, the next session's idle event can be set
  with its own run in flight (`OmeRuns.UndrainedRestartIdlesEarly`).
- Backfill's `rows_processed + rows_failed` is not the number of rows: it is so exactly when the
  rows counted nowhere and the rows charged twice balance (`BackfillPass.CountersAddUpIff`).
- In agent mode a tool message without a call id is buffered but cannot be mapped for the detector.
  Once in the buffer it stops extraction of that session for good (`Stage.OrphanBlocksForever`).
- A buffered message with an empty tool-call list comes back with none (`Messages.RowRoundTrip`);
  nothing downstream can tell (`Messages.PersistedLooksTheSame`). Ingest never makes such a message:
  it coerces an empty list to none (`src/everos/memory/extract/ingest/service.py:94-99`).
- Pending work does not imply an armed timer (`MemoryRuntime.PendingWithoutTimer`); the contract of
  `MemoryRuntime.SessionMemory.DoCaptureAndSchedule` says exactly when it is armed.
- A forced flush of an empty session that fails for a reason other than the end of the session would
  stamp `firstPendingAt` (`MemoryRuntime.FirstPendingIff`). No caller sends one: only `seal` forces a
  flush, with a terminal reason, and for those runs the stamp is right (`MemoryRuntime.FirstPendingRun`).
- Sealing deletes the cursor, so a session used afterwards sends its whole log again (`MemoryRuntime.UseAfterSealRepeats`).
- `slice(-0)` is the whole list, so the recall query exceeds `queryN` messages exactly in the cases
  of `RecallQuery.WindowWithinQueryNIff`.
- `clipText` exceeds its limit when the limit is shorter than its own marker (`Capture.ClipWithinIff`).
- Message ids are meant to repeat when a request is repeated. They also repeat for two different
  requests of one session whose messages agree in timestamp and position
  (`Identifiers.MessageIdsCollideIff`), and the later one is then dropped by the merge.

## Model

| member | source | states |
|---|---|---|
| Messages.FilterKeepsExactly | src/everos/service/_boundary.py:227-233 | Agent mode keeps every message; chat mode exactly those of a user or assistant without tool calls |
| Messages.FilterPicksPlaces | src/everos/service/_boundary.py:227-233 | The filtered list is the passing messages in order, each as often as it occurs |
| Messages.FilterAppend | src/everos/service/_boundary.py:227-233 | Filtering for a mode distributes over batches, so splitting an add changes nothing |
| Messages.DetectorItems | src/everos/service/_boundary.py:319-375 | Items are 1:1 with the merged messages; mapping fails exactly for an agent-mode list holding a tool row without a call id |
| Messages.ItemSays | src/everos/service/_boundary.py:308-375 | Field by field, the item a message becomes in each mode: chat message, request with its calls in order, result, or none |
| Messages.RowRoundTrip | src/everos/service/_boundary.py:408-451 | A buffered message comes back unchanged exactly when it does not carry an empty tool-call list, which comes back as none |
| Messages.PersistedLooksTheSame | src/everos/service/_boundary.py:423-435 | What the buffer changes is invisible to ordering, filtering, the anchor check and the detector |
| Messages.PersistedItems | src/everos/service/_boundary.py:423-435 | A stored list gives the detector the same items as the list itself |
| Merging.MergeDedupeSort | src/everos/service/_boundary.py:457-465 | The loop yields the one strictly sorted list holding, for each id, the last buffered or else the first incoming copy |
| Merging.MergeIsMerge | src/everos/service/_boundary.py:457-465 | The merge has one copy of every id of either side and nothing else, in strict (timestamp, id) order |
| Merging.MergeUnique | src/everos/service/_boundary.py:457-465 | No other list has that description |
| Merging.MergeOrder | src/everos/service/_boundary.py:465-465 | Older first; among equal times the id with the smaller first difference first |
| Merging.MergeAssociates | src/everos/service/_boundary.py:96-116 | merge(merge(b,x),y) == merge(b,x+y); the first copy of an id wins |
| Merging.MergeIgnoresArrivalOrder | src/everos/service/_boundary.py:457-465 | With distinct ids neither the order rows are read in nor the order messages arrive in matters |
| Boundary.Detect | src/everos/service/_boundary.py:254-303 | At most three attempts; the first reply that is not a ValueError is returned or raised; an orphan tool row fails every attempt |
| Boundary.SplitMessagesPerCell | src/everos/service/_boundary.py:479-495 | Cell k gets the ids at the places its items occupy; running past the list is the IndexError |
| Boundary.Partition | src/everos/service/_boundary.py:468-495 | Cell ids followed by the sliced tail's ids are the merged ids exactly when the sizes add up, for any number of cells and any tail, empty or not |
| Boundary.ContractPartitions | src/everos/service/_boundary.py:468-495 | A reply that honours the contract partitions the merged ids in order, without overlap or gap |
| Boundary.ContractAligns | src/everos/service/_boundary.py:468-495 | Under the contract each cell item and each tail item is the image of the message filed under it |
| Boundary.FiledUnderItsItem | src/everos/service/_boundary.py:479-495 | Each cell files as many ids as it has items, and the i-th id is that of the message its i-th item is the image of |
| Boundary.UniqueAllSenders | src/everos/service/_boundary.py:498-509 | The senders of a cell are its speakers, each once, in the order they first speak |
| Boundary.SendersOfMeaning | src/everos/service/_boundary.py:498-509 | The same of the function the stage and the ledger rows use |
| Boundary.SpeaksForSender | src/everos/service/_boundary.py:498-509 | A message's item speaks for its sender, for nobody when it is a tool row in agent mode or names none |
| SessionLocks.LockRegistry.GetSessionLock | src/everos/service/_session_lock.py:39-46 | A session always gets its first lock, different sessions never share one, other entries stay |
| Memorize.DetectorRunsIff | src/everos/service/_boundary.py:132-160 | The detector is asked exactly when an LLM is configured, the call is not merely deferred, and there is something to flush, or something new with a user message in sight |
| Memorize.SoloKeepsSpaceOk | src/everos/service/_boundary.py:119-221 | A call leaves the buffer strictly sorted with distinct ids, wherever it was cut off |
| Memorize.InvStep | src/everos/service/memorize.py:229-237 | Every step of every call, cancellation included, keeps lock ownership, the turn record, and the equation between the store and the serial replay |
| Memorize.Serialised | src/everos/service/memorize.py:229-237 | For every interleaving and every cancellation the store is the serial replay of the finished calls in lock-grant order plus the holder's own progress; a returned call has exactly one turn, complete on the space it found: all its writes, or a route without any |
| Memorize.NobodyElseWrites | src/everos/service/memorize.py:229-237 | While a call holds the lock no step of another call changes the store or the owner |
| Memorize.CancelReleases | src/everos/service/_session_lock.py:23-26 | A cancelled call never keeps the lock or its place in the queue, stores nothing more, and the next waiter can be granted |
| Conservation.NothingIsLost | src/everos/service/_boundary.py:119-221 | An id in the buffer or a memcell at any await point of a run is there at every later one |
| Conservation.ReturnedIsStored | src/everos/service/_boundary.py:119-221 | In every state of every run each admitted id of each call that returned is in the buffer or in a memcell |
| Conservation.StoredIsAccepted | src/everos/service/_boundary.py:119-221 | With nobody inside, what is stored is what was there plus the admitted messages of every returned call; calls cancelled after they began to write are the only other source |
| Conservation.CompletedOnceIff | src/everos/service/_boundary.py:119-221 | A completed call keeps ids single exactly when it re-sends no extracted id |
| Conservation.CutCallOnceIff | src/everos/service/_boundary.py:199-212 | A call cut between ledger insert and buffer replace keeps ids single exactly when no id of the extracted prefix was stored before |
| Conservation.ExactlyOnce | src/everos/service/_boundary.py:119-221 | After a clean run no id is stored twice, and with nobody cancelled after beginning to write, exactly the ids of the calls that returned are stored; calls cancelled after their last write are the only addition |
| Unlocked.UnlockedLosesMessage | src/everos/service/_session_lock.py:3-14 | Without the lock, for any two user messages with different ids, two adds return and the first message is gone |
| Unlocked.LockForbidsTheRace | src/everos/service/_session_lock.py:16-17 | Under the lock that schedule is impossible |
| Stage.SpaceStore.ListForTrack | src/everos/service/_boundary.py:136-139 | Reading yields the stored rows as messages, in order |
| Stage.SpaceStore.ReplaceBuffer | src/everos/service/_boundary.py:378-390 | The buffer becomes the given list as it reads back; the ledger is untouched |
| Stage.BufferMessages | src/everos/service/_boundary.py:96-116 | A deferred add: skipped and nothing written when no message passes the filter, else the merge is buffered; no cells |
| Stage.PersistCells | src/everos/service/_boundary.py:177-221 | Ledger rows of the cells are appended and the tail replaces the buffer, or nothing is written when the cells run past the list |
| Stage.PrepareCells | src/everos/service/_boundary.py:119-221 | All branches, for any detector replies: the new state, exactly when it raises (and then writes nothing), the status and cells of each route, reported ids equal to the appended ledger rows, the count |
| Stage.PersistMerge | src/everos/service/_boundary.py:423-465 | Storing commutes with merging |
| Stage.DeferralTransparent | src/everos/service/_boundary.py:96-116 | Buffering batches one at a time and then flushing gives the detector the same items and ids as one flush with all of them |
| Stage.DeferralSameSpace | src/everos/service/_boundary.py:96-221 | For one detector reply both routes end in the same ledger and buffer |
| Stage.DetectableIff | src/everos/service/_boundary.py:279-302 | A list can be extracted exactly when it is not an agent-mode list with an orphan tool row |
| Stage.OrphanBlocksForever | src/everos/service/_boundary.py:319-375 | With an orphan buffered, no run of calls ever extends the ledger again or removes the orphan |
| Stage.DeferredOrphanEnters | src/everos/service/_boundary.py:96-116 | A deferred add admits such a row |
| Backfill.ScanNullVectorBacklog | src/everos/memory/cascade/_backfill.py:348-471 | The scan yields the rows with a fillable NULL side and counts the unreadable ones |
| Backfill.EmbedPrimaryBatch | src/everos/memory/cascade/_backfill.py:483-528 | Batch request or fallback, each row gets what embedding it alone gives |
| Backfill.EmbedSubjectBatch | src/everos/memory/cascade/_backfill.py:531-577 | The same for subjects, as a map by id that skips rows without a subject |
| Backfill.SubjectMapAt | src/everos/memory/cascade/_backfill.py:531-577 | With unique ids each row finds its own subject vector in the map and nobody else's |
| Backfill.PrimarySide | src/everos/memory/cascade/_backfill.py:617-661 | The primary map answers for each row what embedding it alone would; poison counts are the early failures |
| Backfill.WriteBatch | src/everos/memory/cascade/_backfill.py:663-728 | The write loop updates the table and the counters as one row at a time would |
| Backfill.EachRowLands | src/everos/memory/cascade/_backfill.py:667-700 | Each record gets, column by column, the embedding of that side's own text where its row needs it; records without a row stay |
| Backfill.BackfillBatch | src/everos/memory/cascade/_backfill.py:614-731 | One batch, outage or not, is its rows one at a time |
| Backfill.BackfillTable | src/everos/memory/cascade/_backfill.py:580-731 | For every batch size and every pattern of batch failures the table and all counters are those of the row-by-row loop, and every record holds its own vectors in their own columns |
| BackfillPass.PassIsPointwise | src/everos/memory/cascade/_backfill.py:663-728 | Writing the backlog row by row fills each record by itself |
| BackfillPass.FilledExactly | src/everos/memory/cascade/_backfill.py:348-700 | From the record alone: what each vector column holds after a pass |
| BackfillPass.BacklogRowIs | src/everos/memory/cascade/_backfill.py:348-429 | Which records are scanned, which sides their rows need, and whose tokens they count |
| BackfillPass.Pass | src/everos/memory/cascade/_backfill.py:432-731 | Scan and backfill: what every record's two vector columns hold afterwards, the tally, and the backlog shrinks by exactly rows_processed |
| BackfillPass.NothingOverwritten | src/everos/memory/cascade/_backfill.py:677-699 | A filled side is never written again and no other column changes |
| BackfillPass.StillOpen | src/everos/memory/cascade/_backfill.py:348-429 | A record is scanned again exactly when it was scanned and not processed, needing exactly the unwritten sides |
| BackfillPass.Rescan | src/everos/memory/cascade/_backfill.py:432-471 | A rescan finds precisely the unprocessed rows, in order |
| BackfillPass.Progress | src/everos/memory/cascade/_backfill.py:663-728 | Fillable NULL sides never grow, shrink exactly when some row was written, and are gone exactly when the backlog is empty |
| BackfillPass.Account | src/everos/memory/cascade/_backfill.py:657-728 | processed + failed + silent rows == rows + rows charged twice |
| BackfillPass.CountersAddUpIff | src/everos/memory/cascade/_backfill.py:657-728 | processed + failed == rows exactly when silent and double rows balance |
| BackfillPass.SilentRow | src/everos/memory/cascade/_backfill.py:673-674 | A subject-only row whose embed fails is in neither counter |
| BackfillPass.DoubleRow | src/everos/memory/cascade/_backfill.py:657-715 | A row with a failed primary and an embedded subject is charged twice |
| BackfillPass.SilentTable | src/everos/memory/cascade/_backfill.py:432-674 | A table of one such record is scanned, and its row is counted nowhere |
| BackfillPass.DoubleTable | src/everos/memory/cascade/_backfill.py:432-715 | A table of one such record is scanned, and its row is charged twice |
| BackfillPass.CountersDoNotAddUp | src/everos/memory/cascade/_backfill.py:657-728 | One-record tables whose backlog's counters sum to 0 and to 2 |
| BackfillPass.EmptyRescanIff | src/everos/memory/cascade/_backfill.py:663-728 | The next scan is empty exactly when nothing was charged and nothing was silent |
| BackfillPass.CleanCountersMeanDone | src/everos/memory/cascade/_backfill.py:663-728 | When every row needs its primary, rows_failed == 0 exactly when the rescan is empty |
| OmeRuns.CountIsExact | src/everos/infra/ome/engine.py:650-721 | In every reachable state of drained sessions the count is the runs enqueued and not completed, the event is set iff there are none, and the underflow branch was never taken |
| OmeRuns.RestartKeepsIff | src/everos/infra/ome/engine.py:526-545 | A stop and start keeps the account exactly when nothing was in flight |
| OmeRuns.IdleMeansTreesSettled | src/everos/infra/ome/engine.py:747-759 | When the event is set, every run that will ever descend from a known run is known and finished |
| OmeRuns.WokenSawIdle | src/everos/infra/ome/engine.py:470-492 | wait_idle returning True means the event was set at some moment of the wait |
| OmeRuns.StillIdleIff | src/everos/infra/ome/engine.py:650-721 | From a moment the event is set, it is set at a later one exactly when every run enqueued in between has finished; so it lasts while nothing is accepted |
| OmeRuns.WokenIsIdleIff | src/everos/infra/ome/engine.py:470-492 | On a True from wait_idle the engine is still idle exactly when every run enqueued since the moment it was is finished |
| OmeRuns.WokenMayBeBusy | src/everos/infra/ome/engine.py:470-492 | A run in which it is not |
| OmeRuns.PlayInSync | src/everos/infra/ome/engine.py:348-404 | Whatever runs are added or end during an await, the event is set exactly at count zero |
| OmeRuns.PlayCounts | src/everos/infra/ome/engine.py:697-721 | Without underflow the count is what it was plus the runs added minus those ended; underflow happens exactly when some moment would go below zero |
| OmeRuns.UndrainedRestartIdlesEarly | src/everos/infra/ome/engine.py:531-545 | After an undrained restart the event can be set with a run of the new session in flight |
| OmeEngine.OfflineEngine.AcquireLock | src/everos/infra/ome/engine.py:547-558 | The lock is taken exactly when nobody holds the path; other holders are undisturbed |
| OmeEngine.OfflineEngine.ReleaseLock | src/everos/infra/ome/engine.py:560-566 | The handle is closed even when unlocking raises |
| OmeEngine.OfflineEngine.OnRunEnqueued | src/everos/infra/ome/engine.py:697-701 | The count and event move as in the accounting model |
| OmeEngine.OfflineEngine.OnRunCompleted | src/everos/infra/ome/engine.py:703-721 | The same, with the underflow branch |
| OmeEngine.OfflineEngine.EnqueueRun | src/everos/infra/ome/engine.py:674-695 | Count up before add_job, taken back if it raises, with or without an event; the underflow branch is not reached |
| OmeEngine.OfflineEngine.DispatchRun | src/everos/infra/ome/engine.py:747-759 | Count down however the run ends, also for a left-over run that finds no event |
| OmeEngine.OfflineEngine.Await | src/everos/infra/ome/engine.py:369-404 | Runs added by recovery or by strategies, and runs ending, move count and event as the gauge |
| OmeEngine.OfflineEngine.RollbackPartialStart | src/everos/infra/ome/engine.py:443-468 | Reaches the stopped state exactly when no clean-up step raises; which step leaves the lock held, and the count when one raises |
| OmeEngine.OfflineEngine.Start | src/everos/infra/ome/engine.py:271-300 | Idempotent; ready on success, with count and event as crash recovery left them; an ordinary exception restores the stopped state exactly when no needed clean-up raises; a cancellation restores nothing |
| OmeEngine.OfflineEngine.Stop | src/everos/infra/ome/engine.py:494-545 | Idempotent; ends in the stopped state exactly when no clean-up step raises |
| OmeEngine.OfflineEngine.AtMostOneHolder | src/everos/infra/ome/engine.py:547-558 | Two engines on one jobstore path never both hold the lock |
| OmeEngine.OfflineEngine.OthersStaySane | src/everos/infra/ome/engine.py:547-566 | Nothing one engine does breaks another's lock invariant or its readiness, so the contracts of several engines compose |
| OmeEngine.CancelledStartWedges | src/everos/infra/ome/engine.py:284-300 | After a start cancelled in crash recovery, stop is a no-op and every later start finds the lock held |
| OmeEngine.StopThenStart | src/everos/infra/ome/engine.py:271-545 | A ready engine can be stopped and started again; it counts exactly what recovery left in flight and is idle exactly when that is nothing |
| PromiseQueue.OneAtATimeInOrder | examples/dsh/src/memory-runtime.ts:93-103 | For every interleaving over any sessions (captures, flushes, seals, timer callbacks), a session's operations run one at a time in submission order, and its map entry is missing only without unfinished work |
| PromiseQueue.NeverBlocked | examples/dsh/src/memory-runtime.ts:93-103 | A session's first unsettled operation runs or can begin, whatever failed before it and whatever other sessions do |
| PromiseQueue.NeverStalls | examples/dsh/src/memory-runtime.ts:93-103 | While an operation is unsettled, it or an earlier one of its session runs or can begin |
| PromiseQueue.SessionsDoNotMix | examples/dsh/src/memory-runtime.ts:93-103 | No step chains a session's operation on another's promise or changes another's entry |
| PromiseQueue.Runtime.Exclusive | examples/dsh/src/memory-runtime.ts:93-103 | The new operation can begin exactly when every earlier one of its session has settled; its promise becomes the session's entry, other entries stay, and the queue invariant is kept |
| PromiseQueue.Runtime.CleanUp | examples/dsh/src/memory-runtime.ts:98-101 | A later operation's entry stays, a deleted entry has no unfinished work behind it, other entries stay, and the queue invariant is kept |
| Capture.CaptureMessagesSince | examples/dsh/src/capture.ts:66-146 | In log order, one message for each capturable event after the cursor, each saying what its event says, and the highest sequence number seen |
| Capture.ClipWithinIff | examples/dsh/src/capture.ts:20-24 | Clipped text keeps to the limit exactly when nothing is cut or the marker fits; the rest is a prefix |
| Capture.WhatIsCaptured | examples/dsh/src/capture.ts:83-142 | Direct user messages with text, assistant messages with text or calls and all tool results are captured under any limit; tool results are never blank; contents are bounded |
| Capture.CapturedSaysEvent | examples/dsh/src/capture.ts:83-142 | What each kind of captured message holds: sender, its event's own text clipped, calls, call id, trimmed tool text |
| Capture.ErrorMarkStays | examples/dsh/src/capture.ts:124-125 | A failed tool's result begins with its error mark whenever that fits beside the truncation marker |
| Capture.BetweenCovers | examples/dsh/src/capture.ts:78-143 | One message for each capturable event in range, saying what it says, and none besides |
| Capture.BetweenSplits | examples/dsh/src/capture.ts:78-80 | Consecutive slices of an increasing log concatenate |
| Capture.BetweenPrefix | examples/dsh/src/memory-runtime.ts:128-129 | Stopping after a message is the slice up to its sequence number |
| MemoryRuntime.EstimateMessageTokens | examples/dsh/src/memory-runtime.ts:45-53 | A quarter of the ASCII characters rounded up plus the others, at least one |
| MemoryRuntime.EstimateFromParts | examples/dsh/src/memory-runtime.ts:37-53 | The estimate is the quarters of content, call list and call id added up (one for an ASCII character, four for others), rounded up, at least one |
| MemoryRuntime.CountAsciiIs | examples/dsh/src/memory-runtime.ts:45-53 | The ASCII count is the number of places with a character up to U+007F |
| MemoryRuntime.SessionMemory.DoCapture | examples/dsh/src/memory-runtime.ts:105-141 | Batches up to the first failing one are added; cursor, counters and stamp follow |
| MemoryRuntime.SessionMemory.ArmTimers | examples/dsh/src/memory-runtime.ts:150-171 | Timers are armed exactly when they were or work is pending |
| MemoryRuntime.SessionMemory.DoFlush | examples/dsh/src/memory-runtime.ts:189-220 | Capture, request and reset; exactly when it succeeds, and which timers are armed after each kind of failure |
| MemoryRuntime.SessionMemory.DoSeal | examples/dsh/src/memory-runtime.ts:244-261 | For any reason: a forced flush, the state retired exactly when it goes through, and a timer armed exactly when the request failed for a non-terminal reason with work pending |
| MemoryRuntime.SealDrains | examples/dsh/src/memory-runtime.ts:243-261 | A seal that goes through has sent and flushed the whole log; one that fails keeps the account right |
| MemoryRuntime.UseAfterSealRepeats | examples/dsh/src/memory-runtime.ts:64-77 | A session used after its seal sends everything again, which is harmless exactly when nothing had been sent |
| MemoryRuntime.SessionMemory.DoCaptureAndSchedule | examples/dsh/src/memory-runtime.ts:174-186 | A capture that goes through and reaches a threshold flushes, and below both leaves the captured state; pending work is armed afterwards exactly when the first capture goes through and the counters are under both thresholds or the threshold flush's capture goes through too |
| MemoryRuntime.PendingWithoutTimer | examples/dsh/src/memory-runtime.ts:174-186 | A capture failing after its first batch leaves five hundred pending messages and no timer |
| MemoryRuntime.ExactlyOnceCapture | examples/dsh/src/memory-runtime.ts:105-141 | Over any run, accepted batches concatenate to exactly the capturable messages from firstLiveSeq to the cursor |
| MemoryRuntime.CursorAdvances | examples/dsh/src/memory-runtime.ts:128-139 | The cursor never moves back, and an operation whose adds went through has sent the whole log |
| MemoryRuntime.PendingIsExact | examples/dsh/src/memory-runtime.ts:128-215 | Between operations the counters are the number and token sum of messages since the last successful flush; tokens >= messages |
| MemoryRuntime.FirstPendingIff | examples/dsh/src/memory-runtime.ts:189-220 | One operation keeps "stamp set iff work pending" exactly when it is no failing, non-terminal forced flush of an empty session |
| MemoryRuntime.FirstPendingRun | examples/dsh/src/memory-runtime.ts:128-215 | Over any run without such a flush, and so over any run whose forced flushes end the session, firstPendingAt is set iff work is pending |
| CaptureAwaits.StepsAreOperations | examples/dsh/src/memory-runtime.ts:93-220 | For every interleaving of submissions, log appends, adds and flush requests, between operations the session is where the finished operations leave it run one after the other, each submitted job once and in order |
| CaptureAwaits.ExactAtEveryAwait | examples/dsh/src/memory-runtime.ts:105-141 | In every state, also between two adds, what was accepted is exactly the capturable log up to the cursor, and the counters are exact |
| CaptureAwaits.AcceptedSaysEvents | examples/dsh/src/memory-runtime.ts:105-141 | In every state the accepted messages say what the capturable events up to the cursor say, one each |
| CaptureAwaits.StepsOnlyAdvance | examples/dsh/src/memory-runtime.ts:116-139 | No step moves the cursor back or takes back a message |
| Recall.NeutralizeRemovesFences | examples/dsh/src/recall.ts:99-101 | Neutralized text has no fence in any letter case, long s included |
| Recall.NeutralizeFixesClean | examples/dsh/src/recall.ts:99-101 | Text without fences is left alone |
| Recall.NeutralizeReplaces | examples/dsh/src/recall.ts:99-101 | After clean text a fence in any letter case becomes its bracketed form, and all that follows is neutralized and kept |
| Recall.JoinTwo | examples/dsh/src/recall.ts:162-162 | Joining lines cannot create a fence |
| Recall.SliceKeepsNoFence | examples/dsh/src/recall.ts:162-162 | Cutting anywhere cannot create a fence |
| Recall.EpisodeLine | examples/dsh/src/recall.ts:107-117 | An episode's line is its subject, summary, body and labelled facts in order, each neutralized by itself, dashes between the non-empty ones |
| Recall.CleanEpisodeLine | examples/dsh/src/recall.ts:107-117 | Fields without fences are rendered as they are |
| Recall.EpisodeFieldsOccur | examples/dsh/src/recall.ts:107-117 | Every non-empty field occurs in the line |
| Recall.CaseLine | examples/dsh/src/recall.ts:119-129 | Intent, approach and any insight under their labels, each neutralized by itself |
| Recall.SkillLine | examples/dsh/src/recall.ts:131-135 | Name, description and any content, each neutralized by itself |
| Recall.ProfileLine | examples/dsh/src/recall.ts:103-105 | A profile without fences is rendered as it is |
| Recall.SectionLists | examples/dsh/src/recall.ts:137-143 | A section lists every item that renders to something under its title, and is left out when none does |
| Recall.EveryHitIsListed | examples/dsh/src/recall.ts:103-156 | Every hit that renders to something has its own line before the cut; cases and skills always do |
| Recall.SectionsInOrder | examples/dsh/src/recall.ts:151-156 | Profiles, episodes, cases, skills, each independent of the others |
| Recall.OneUserHit | examples/dsh/src/recall.ts:137-156 | A profile or episode alone is its section's title and its line |
| Recall.OneAgentHit | examples/dsh/src/recall.ts:137-156 | The same for a case or a skill |
| Recall.ItemsInOrder | examples/dsh/src/recall.ts:137-143 | The items of a section keep their order |
| Recall.RenderedIsFenced | examples/dsh/src/recall.ts:146-165 | Rendered memory fits the budget, starts with the header, ends with the footer, and has fences only there; nothing is rendered exactly when there is nothing or no room |
| Recall.RenderedBody | examples/dsh/src/recall.ts:159-164 | Between header and footer stands as much of the beginning of the lines as the budget allows |
| RecallQuery.QueryShape | examples/dsh/src/recall.ts:71-97 | The query fits its budget and ends with the current prompt; empty exactly when the prompt is |
| RecallQuery.PromptIs | examples/dsh/src/recall.ts:77-84 | The prompt part is the beginning of the direct proposed texts, up to the limit |
| RecallQuery.QueryUsesHistory | examples/dsh/src/recall.ts:94-96 | When there is history and room, the query is as much of it as fits, a line break, and the prompt |
| RecallQuery.WindowIsLastOfHistory | examples/dsh/src/recall.ts:87-90 | History is every direct, unproposed message of the log; the window is its last ones, as many as queryN leaves |
| RecallQuery.WindowIsHistory | examples/dsh/src/recall.ts:87-90 | History messages are direct, from the log, and never repeat a proposed one |
| RecallQuery.WindowWithinQueryNIff | examples/dsh/src/recall.ts:90-90 | Exactly when the query keeps to queryN messages |
| SplitCommand.SplitCommand | examples/dsh/src/config.ts:152-163 | The loop over matches yields the glued matches without the empty ones |
| SplitCommand.MatchAtIs | examples/dsh/src/config.ts:156-158 | What matches at a place, partnerless quotes and white space included |
| SplitCommand.WrittenLineRoundTrip | examples/dsh/src/config.ts:152-163 | Arguments written as any mix of touching double-quoted, single-quoted and bare pieces split back into their values; only empty values are lost |
| SplitCommand.ArgvRoundTrip | examples/dsh/src/config.ts:152-163 | For every list of non-empty arguments, quoting, joining with spaces and splitting is the identity |
| Sampling.StratifiedSample | benchmarks/run.py:340-367 | The sample has min(n, categorised) items in input order and leaves out nothing the rounds reach before something it holds; it terminates |
| Sampling.SampleUnique | benchmarks/run.py:340-367 | No other list has that description |
| Sampling.SampleTakesPrefixes | benchmarks/run.py:340-367 | A prefix of each category is taken |
| Sampling.SampleIsFair | benchmarks/run.py:340-367 | Category counts differ by at most one unless the smaller is exhausted; lower categories are never behind |
| Sampling.TrimSessions | benchmarks/run.py:1533-1545 | The trimmed sessions hold exactly the first messages up to the limit, cutting at most the last session |
| Rerank.ScoreShapesAgree | src/everos/component/rerank/deepinfra_provider.py:169-187 | Nested and flat replies are read alike; a row is usable for exactly one number of documents, its own length |
| Rerank.Rerank | src/everos/component/rerank/deepinfra_provider.py:103-128 | Succeeds exactly when every chunk's reply is usable, with the sorted merge of all chunks |
| Rerank.RankingUnique | src/everos/component/rerank/deepinfra_provider.py:127-127 | There is one way to rank: score descending, ties in input order |
| Rerank.RankingCovers | src/everos/component/rerank/deepinfra_provider.py:121-128 | Every document appears exactly once with its own score |
| Rerank.ChunkedIsRanking | src/everos/component/rerank/deepinfra_provider.py:103-128 | For pointwise scores and every batch size the result is that ranking |
| Rerank.BatchSizeDoesNotShow | src/everos/component/rerank/deepinfra_provider.py:103-128 | Any two batch sizes, one request included, give the same result |
| Identifiers.MessageIdsCollideIff | src/everos/memory/extract/ingest/id_gen.py:15-17 | Message ids are equal exactly when session, timestamp and position are |
| Identifiers.ParagraphIdsDiffer | use-cases/game-of-throne-demo/scripts/load-novel-cloud.ts:378-382 | Paragraph ids are equal exactly when book, chapter and paragraph are |
| Identifiers.PaddedValue | use-cases/game-of-throne-demo/scripts/load-novel-cloud.ts:379-380 | Padding fills up to the width and keeps the number |
| Identifiers.CounterRoundTrip | src/everos/core/persistence/markdown/entries.py:82-86 | The counter read from a formatted entry id is the number it was made from |
| Identifiers.EntryCounterIs | scripts/check_consistency.py:54-59 | An id has a counter exactly when it ends in an underscore and digits, which denote it |
| Paragraphs.NumberParagraphs | use-cases/game-of-throne-demo/scripts/load-novel-cloud.ts:283-314 | The non-empty texts in order, numbered from 1, with the ids of their numbers |
| Paragraphs.GroupShortParagraphs | use-cases/game-of-throne-demo/scripts/load-novel-cloud.ts:328-376 | The chunks are the merged groups of a cut in which every group but the last reaches the minimum, and none before its last paragraph |
| Paragraphs.ChunkingUnique | use-cases/game-of-throne-demo/scripts/load-novel-cloud.ts:328-376 | No other chunks have that description |
| Paragraphs.GroupedText | use-cases/game-of-throne-demo/scripts/load-novel-cloud.ts:328-376 | The joined text is unchanged and every chunk but the last is at least minSize long |
| Paragraphs.GroupedStayInChapter | use-cases/game-of-throne-demo/scripts/load-novel-cloud.ts:355-365 | Chunks keep their chapter and its name |
| Paragraphs.GroupedIdsDistinct | use-cases/game-of-throne-demo/scripts/load-novel-cloud.ts:355-382 | Chunks carry the ids of their own numbers, in increasing order, pairwise distinct |
| Monotonicity.Scan | scripts/check_consistency.py:95-125 | The report's fields mean what they say, and it is ok exactly when the counters are 1, 2, ..., n |
| Monotonicity.OkIffNumbered | scripts/check_consistency.py:62-80 | The same for any report that describes the ids |
| Monotonicity.AppendedFilesAreOk | src/everos/core/persistence/markdown/entries.py:117-125 | Ids made by numbering each entry one past those before it always give a clean report |

## Left out

- The JSON columns of a buffer row, and the `json` texts of a profile, are kept as values: encoding and decoding are taken to be inverse to each other.
- Memcell ids and conversation-status timestamps: random or derived values written beside the modelled rows. A failed or cancelled timestamp touch is a call that ends where it stands.
- The pipelines that consume the cells after the boundary stage, and the retry hint appended to the detector prompt.
- Lock hand-over inside asyncio: a free lock is granted to the head of its queue. Cross-process callers are outside the lock's own scope.
- A timed-out repository write whose effect is unknown: an effect has happened or it has not.
- Memorize.CancelReleases: the timeout's clock is not modelled; a cancellation may strike at any step.
- Boundary.Detect: exceptions other than ValueError are one reply, `Broken`, without their type.
- Backfill.EmbedPrimaryBatch: a batch reply of the wrong length, which would end the pass, is not modelled.
- Backfill: the confirmation prompt, progress reporting, several tables in sequence, index optimisation, and Phases 2 and 3.
- Backfill.BackfillTable: the batch size is a parameter; the source fixes it at 32.
- OmeEngine: APScheduler, portalocker, the dispatcher's gates and retries, and which stale runs the crash-recovery scan finds; a stage of a start either raises or does not, and the runs added or ended while it awaits are the environment's choice. A cancellation during rollback or stop, and a lock file that cannot be opened, are not modelled.
- OmeRuns: a scheduler that drops a job without dispatching it; every queued run may still be dispatched.
- CaptureSteps: an operation reads the clock once, so the exact value of `firstPendingAt` is not that of several readings; timers are not part of it. That a session's jobs run one at a time in submission order is taken over from PromiseQueue.
- MemoryRuntime: wall-clock firing of timers, several sessions at once, the sharing of one seal between callers, `dispose`, `track` and `flushBeforeRecall`. The run statements cover a session up to the seal that retires it.
- Capture.CaptureMessagesSince: sender ids and names, timestamps, and the rendering of content blocks and tool-call arguments; each event carries its rendered text.
- Recall.RenderedIsFenced: strings are sequences of characters, so a slice that would split a surrogate pair is not modelled.
- Recall: the two searches behind a recall and their timeouts; a failed search is an empty one.
- Sampling: items are named by position, so two entries of the list that are one object are two items. The client pool's rotation is a single counter.
- Rerank.Rerank: HTTP, retries and concurrency of the chunks; which of several failing chunks raises first is not said, and a batch size below one, which the constructor does not reject, is excluded.
- Paragraphs.GroupShortParagraphs: text length counts characters; chapter detection and the splitting of a chapter at blank lines are not modelled, so the trimmed pieces are an input.
- Identifiers.EntryId: the date inside the id is part of an arbitrary stem.
- Monotonicity.Scan: one file at a time; digits are ASCII, as entry ids are.
- The knowledge-document operations, HTTP routes, configuration loading, the command line and reporting.
