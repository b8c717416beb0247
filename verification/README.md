# Verified models of the Seagull backend's core protocols

Seagull's backend keeps its promises in a handful of small state machines: an audit log chained by
hashes, a supervisor that restarts workers, rate limiters, batch deduplication, connection leases, a
realtime backplane, replica routing, locks and signed cursors. This project models those machines and
proves what they guarantee over every run. `dafny verify dfyconfig.toml` checks everything.

Objects whose methods change fields in the code are classes here, with loops where the code loops;
each method is proved against a specification function, and the theorems are about those functions.
Protocols whose clients interleave are step machines: a step is what one client does between two
points where another can come in, a run is any sequence of enabled steps, and the theorems hold in
every state any run reaches.

## The files

- `Common.dfy`: options, minimum and maximum, ceiling division, sizes of subsets.
- `AuditChain.dfy`: rows, head, checkpoints, append, prune and the page report as functions. Hashes and MACs are
  symbolic and injective. `AuditVerification.dfy`: what verification says about any store, honest or corrupted.
  `AuditRuns.dfy` and `AuditConservation.dfy`: runs of writes and prunes from the empty store and from the migrated one.
  `AuditBatches.dfy`: what the job with one batch size flags and misses. `AuditRetention.dfy`: which rows a prune takes.
  `AuditStore.dfy`: the log as an object.
- `Supervisor.dfy`, `SupervisorBounds.dfy`, `SupervisorOverflow.dfy`, `SupervisorManager.dfy`: one child's bookkeeping over
  any run of the loop, the bounds that follow, when its restart pause can overflow, and the manager as an object.
- `RateLimit.dfy`, `RateLimitWindows.dfy`: the bounded recency-ordered table, the shared counter, and the simple counter
  both stand in for.
- `Idempotency.dfy`: any number of clients on one batch record, and the record as an object.
- `Admission.dfy`: the sorted set of connection leases.
- `Portal.dfy`, `PortalRuns.dfy`, `PortalDelivery.dfy`, `PortalLag.dfy`, `PortalBackplane.dfy`: stream rows and sorting, runs of
  publishers and one reader, what is delivered how often, trimming and lag, and the backplane as an object.
- `Locks.dfy`, `SingleFlight.dfy`: the token lock and in-process single flight.
- `Replication.dfy`: probe hysteresis and round-robin choice.
- `Pagination.dfy`, `PaginationDecoding.dfy`: unpadded base64url (section 5 of RFC 4648), signed cursors, and what a cursor part
  decodes to for any text.

## Where a promise needs a condition

- Pruning selects rows by their timestamp, but the timestamp is taken before the head is locked, so sequence order and
  time order can differ. A prune is harmless exactly when it deletes no checked row behind one it keeps
  (`PruneHarmlessExactlyWhen`). Timestamps that never go back ensure that; `TimestampOrderMatters` shows the gap that
  appears without them, and `EveryBatchCanMissAGap` that a job with any batch size can miss such a gap; what it misses is stated
  exactly by `JobMissesExactly`.
- Paging through a corrupted chain flags the same rows as one unlimited page exactly when no checkpoint ends just before
  a row that has a hole, and then older checked rows, in front of it (`PageSizeNeverMatters`). Otherwise a page boundary
  at that row hides the hole.
- The bounded rate-limit table equals the unbounded counter for a key exactly when, between any two hits in one window of
  that key, fewer than `capacity` distinct other keys come and none of them sweeps its entry away
  (`BoundedTableIsCounterExactlyWhen`). Looking only at the keys since the latest hit is not enough: an eviction earlier
  in the window still shows (`LatestGapIsNotEnough`). A hit sweeps an expired entry when every entry before it has
  expired too, which a hit with a later reading cannot notice. But the clock is read before the table is locked, so a hit can carry an
  older reading than the one in front of it, and then finds its window gone (`LateReadingFindsItsWindowSwept`).
- For the same reason the guarantee of twice the limit per span, for local windows, needs readings that never go back: the
  clock is fractional, and however little late a reading may be, some traffic exceeds the bound (`NoLatenessTolerated`).
- The restart pause doubles in floating point, which ends in an error after 1024 failures in a row, and that error escapes
  the loop without a shutdown (`OverflowsExactlyAfterTooManyFailures`). Whether a viable child gets there depends on how
  late passes of the loop can be: exactly when the limit on quick failures exceeds 1024, or the longest spacings of that
  many quick failures, the first of them the second in a row, together exceed the window
  (`OverflowReachableExactlyWhen`). With the default settings that takes passes up to more than 52.5 seconds apart
  (`DefaultsOverflowExactlyWhen`), where the loop sleeps half a second.
- A reader loses an entry exactly when an append trims it before the tail has passed it and no replay held it
  (`NeverDeliveredExactlyWhenLost`, `OutrunLosesAnEntry`).
- Tailing starts at the replayed entry with the largest cursor, not the newest one, so replayed entries beyond it arrive
  twice. Publishers that overtake each other cause this (`OvertakingRepeatsAnEntry`); it happens exactly when the newest
  replayed entry does not have the largest cursor (`ExactlyOnceExactlyWhenNewestLeads`).
- A timestamp and id come back from their cursor exactly when they are stored under different keys
  (`TimestampIdRoundTrip`); under one key the id overwrites the timestamp.
- Batch deduplication needs each handler, with its store or delete, to end before its claim expires
  (`SecondHandlerExactlyAfterOverrun` shows what the next claim does otherwise).
- The connection limit holds in every run exactly when the longest gap between renew calls and the renewal interval
  together fit into one lease (`LimitHoldsExactlyWhenTimely`).

## Model

| member | source | states |
|---|---|---|
| AuditVerification.PageReportsExactlyTheFaults | backend/app/core/audit/chain.py:216-248 | For any store, `after_seq` and limit, a break is reported exactly where the stored rows and checkpoints show that fault (missing predecessor, sequence gap, wrong link, wrong hash): none missed, none invented |
| AuditVerification.FirstLinkReportedExactly | backend/app/core/audit/chain.py:186-203 | A page reports a wrong link at its first row if and only if: at or below the floor, the link is not empty; with the row before it stored, the link is not that row's hash; otherwise, with a checkpoint ending there, the link is not the last hash of the first such checkpoint |
| AuditVerification.LatestIsGreatest | backend/app/core/audit/chain.py:146-151 | The latest checkpoint ends last of all, and there is one unless none is stored |
| AuditVerification.FloorMeans | backend/app/core/audit/chain.py:141-143 | The floor is the head's, and one when there is no head or it names none |
| AuditVerification.WalkVisitsEachRowOnce | backend/app/workers/maintenance/audit_verifier.py:33-44 | Paging to exhaustion with any positive limits terminates, visits each checked row once and in order, and flags suspect rows only |
| AuditVerification.PageSizeNeverMatters | backend/app/core/audit/chain.py:186-248 | On any store, every sequence of limits flags the same sequence numbers as one unlimited page if and only if no checkpoint vouches for a row across a hole |
| AuditVerification.NoInnerCheckpointNoAdoption | backend/app/core/audit/chain.py:196-202 | A store in which no checkpoint ends inside the retained range meets that condition |
| AuditVerification.CleanRows | backend/app/core/audit/chain.py:231-241 | A clean pass establishes that every checked row carries its own signature, and is numbered and linked after the row before it |
| AuditVerification.TamperEvidence | backend/app/core/audit/chain.py:60-90 | Two clean stores that agree on number and hash of one row agree on every earlier checked row both retain, payload and link included |
| AuditRuns.SoundIsClean | backend/app/core/audit/chain.py:216-248 | No page of an honest log, from any position and of any size, reports a break |
| AuditRuns.AppendKeepsVerifiable | backend/app/core/audit/chain.py:129-138 | Appending keeps the log an honest account of its history, whatever the timestamps, also after everything was pruned and at the legacy floor |
| AuditRuns.PruneKeepsVerifiable | backend/app/core/audit/retention.py:31-55 | A prune that leaves no checked row behind keeps the log honest |
| AuditRuns.PruneHarmlessExactlyWhen | backend/app/core/audit/retention.py:31-55 | After a prune every page stays clean, and stays so after the next append, if and only if the prune deletes no checked row behind one it keeps |
| AuditConservation.InitialOrderly | backend/alembic/versions/20260813_0039_audit_chain_integrity.py:43-52 | The empty store and the migrated store (legacy rows numbered by age, empty head hash, floor above them) satisfy the run invariant |
| AuditConservation.RunKeepsOrderly | backend/app/core/audit/chain.py:154-183 | Any run of writes with timestamps that never go back and prunes with any cutoffs and batch sizes keeps the log honest and its checkpoints tiled |
| AuditConservation.EveryRunVerifiesAndConserves | backend/app/core/audit/chain.py:154-248 | After any such run every page is clean, checkpoints tile the pruned prefix and each is linked to its predecessor and to the last pruned row, the retained rows are the rest of the history, and sealed counts plus retained rows equal the head number |
| AuditConservation.TimestampOrderMatters | backend/app/core/audit/writer.py:140-162 | Three writes with the middle timestamp earliest and one prune make verification report a gap |
| AuditBatches.JobFlagsExactly | backend/app/workers/maintenance/audit_verifier.py:33-44 | The job with one batch size flags exactly the suspect rows, except those a checkpoint vouches for across a hole and that stand a whole number of batches behind the first checked row |
| AuditBatches.JobMissesExactly | backend/app/workers/maintenance/audit_verifier.py:33-44 | An unlimited page flags every suspect row, and the job misses one if and only if it is such a row |
| AuditBatches.EveryBatchCanMissAGap | backend/app/workers/maintenance/audit_verifier.py:25-44 | For every batch size there is a run of writes and one prune after which the job with that batch size does not report a gap that an unlimited page reports |
| AuditConservation.CleanChainEndingAtTheHeadIsHonest | backend/app/core/audit/chain.py:186-248 | Any clean store whose last row carries the honest head's number and hash holds only rows of the true history |
| AuditStore.AuditLog.LockedHead | backend/app/core/audit/chain.py:114-126 | The head is found, or created at number zero with an empty hash and floor one |
| AuditStore.AuditLog.WriteEvent | backend/app/core/audit/chain.py:129-138 | One row is added with the given content, numbered and linked after the head and signed; the head moves onto it and nothing else changes |
| AuditStore.AuditLog.SealPrunedRange | backend/app/core/audit/chain.py:154-183 | One checkpoint is added, signed onto the latest one |
| AuditStore.AuditLog.PruneAuditEvents | backend/app/core/audit/retention.py:31-55 | The number returned is the smaller of the batch and the number of rows older than the cutoff; a row is gone exactly when it is one of the first `batch` of those; the whole new store is the prune specification's |
| AuditRetention.PruneTakesExactly | backend/app/core/audit/retention.py:31-38 | With distinct ids, a stored row is deleted if and only if it is older than the cutoff and fewer than `batch` such rows precede it in sequence |
| AuditRetention.PruneCounts | backend/app/core/audit/retention.py:31-55 | With distinct ids, as many rows go as are older than the cutoff, up to the batch |
| AuditRetention.PruneSeals | backend/app/core/audit/retention.py:31-55 | A prune with something to take adds one checkpoint from the first old row to the last one that fits the batch, with their number and the last hash; any other prune changes nothing |
| AuditStore.AuditLog.CheckRow | backend/app/core/audit/chain.py:233-239 | The checks of one row yield exactly its gap, link and hash breaks |
| AuditStore.AuditLog.ScanPage | backend/app/core/audit/chain.py:231-241 | The loop over a page yields the breaks of the recursive specification |
| AuditStore.AuditLog.VerifyPage | backend/app/core/audit/chain.py:216-248 | The page report of the specification, including anchors from rows, from checkpoints, and from the row's own word |
| AuditStore.AuditLog.VerifyChain | backend/app/workers/maintenance/audit_verifier.py:33-44 | The verifier job checks every row at or above the floor once, returns the last number checked and the breaks of the paged walk, and flags exactly the suspect rows that no batch boundary hides |
| Supervisor.WatchFaithful | backend/app/workers/manager.py:280-302 | Over any exits and clock readings the loop's bookkeeping of a child is the one the exit history determines |
| SupervisorBounds.CountersClosedForm | backend/app/workers/manager.py:394-410 | After any exit the deque is the quick exits since the last long run and within the window, and consecutive failures count those exits, plus one after a long run |
| SupervisorBounds.StormBound | backend/app/workers/manager.py:394-429 | Any viable exit history has at most max_q*(floor(W/q)+2)-1 exits in a span of one restart window |
| SupervisorBounds.RestartStormBounded | backend/app/workers/manager.py:280-302 | The same bound for every run of the loop in which the group has not failed |
| SupervisorBounds.LongRunsDisjoint | backend/app/workers/manager.py:385-394 | Long runs ending in a span reach at least all but one of their lengths past its start |
| SupervisorBounds.RestartsWaitForBackoff | backend/app/workers/manager.py:431-435 | No start comes earlier after an exit than the capped doubling back-off that the exits so far call for |
| SupervisorBounds.StartsExactlyWhenDue | backend/app/workers/manager.py:284-299 | A child that is not running is started in a pass if and only if its back-off is over and the spawn succeeds; a spawn that fails then fails the group, and its exits stay as they were |
| SupervisorBounds.FailsExactlyOnTooManyQuickExits | backend/app/workers/manager.py:424-429 | Noticing an exit fails the group if and only if the quick exits since the last long run in the window reach the limit |
| SupervisorBounds.OverflowsExactlyAfterTooManyFailures | backend/app/workers/manager.py:431-434 | While the group has not failed, an error escapes the loop if and only if the child has failed more than 1024 times in a row |
| SupervisorOverflow.OverflowReachableExactlyWhen | backend/app/workers/manager.py:280-308 | With clamped settings, passes that rest half a second, and stamps of a pass at most `tick` after the pass before began (a second or more), some run ends in that error if and only if the limit on quick failures exceeds 1024, or one pause, tick and quick run for each of the 2nd to the limit-th failure in a row add up to more than the window |
| SupervisorOverflow.StretchBounded | backend/app/workers/manager.py:394-435 | If that sum fits the window and restarts come within a tick of their pause, a viable child never has as many quick exits in a row as the limit |
| SupervisorOverflow.DefaultsOverflowExactlyWhen | backend/app/workers/manager.py:227-231 | With the default settings the error can be reached if and only if the tick exceeds 52.5 seconds |
| SupervisorBounds.BackoffBounds | backend/app/workers/manager.py:431-434 | The back-off exists up to 1024 failures in a row and no further; there it never falls as failures add up, and stays between its initial value (or the cap, if smaller) and the cap |
| SupervisorManager.ChildRuntime.TrimQuickFailures | backend/app/workers/manager.py:397-399 | The loop drops exactly the leading entries before the cutoff |
| SupervisorManager.Fate | backend/app/workers/manager.py:446-468 | After any history of signals and failures the group is stopping if there was one, and exits 1 exactly when a failure is among them: no later signal resets it |
| SupervisorManager.WorkerGroupManager.constructor | backend/app/workers/manager.py:227-231 | Settings are clamped and the stop flag and exit code are clear |
| SupervisorManager.WorkerGroupManager.OnSignal | backend/app/workers/manager.py:447-458 | A signal stops a running group and changes nothing afterwards |
| SupervisorManager.WorkerGroupManager.FailGroup | backend/app/workers/manager.py:463-468 | A failure stops the group with exit code 1, also after a signal |
| SupervisorManager.WorkerGroupManager.HandleChildExit | backend/app/workers/manager.py:371-444 | The child's new bookkeeping is the specification's; the group fails exactly when the window is full, and otherwise the call ends in an error exactly beyond 1024 failures in a row |
| SupervisorManager.WorkerGroupManager.VisitChild | backend/app/workers/manager.py:284-299 | One visit of the loop handles an exit, waits for the back-off, starts, or fails the group, as the pass specification says, also when a signal came earlier in the pass |
| RateLimit.LocalWindows.MakeRoom | backend/app/core/security/rate_limit.py:71-78 | The two loops drop expired entries from the front, then the least recent ones until a slot is free |
| RateLimit.LocalWindows.Hit | backend/app/core/security/rate_limit.py:52-61 | The new table and the answer are the specification's |
| RateLimit.ResetIsLeast | backend/app/core/security/rate_limit.py:61-61 | The reset is the least whole number of seconds, and at least one, after which the window is over |
| RateLimit.TableNeverOverflows | backend/app/core/security/rate_limit.py:71-78 | After every hit of any trace, in whatever order the clock was read, the table has no key twice and at most `capacity` keys |
| RateLimit.TableIsPerKeyCounterExactlyWhen | backend/app/core/security/rate_limit.py:52-78 | For any clock readings, every hit of a key is told that counter's answer if and only if no hit reads its clock within a window whose entry another hit swept from the front since |
| RateLimit.TableIsPerKeyCounter | backend/app/core/security/rate_limit.py:52-61 | When hits enter the table in the order of their clock readings, what each is told is a counter of its key alone that is forgotten once `capacity` distinct other keys came since its last hit |
| RateLimitWindows.BoundedTableIsCounterExactlyWhen | backend/app/core/security/rate_limit.py:52-78 | On any trace, for any clock readings, every hit of a key is told what an unbounded fixed-window counter says if and only if, between two hits in one window, fewer than `capacity` distinct other keys come and none sweeps the entry away |
| RateLimitWindows.InOrderTheGapsDecide | backend/app/core/security/rate_limit.py:52-78 | When hits enter the table in the order of their readings, the number of distinct other keys alone decides |
| RateLimitWindows.LateReadingFindsItsWindowSwept | backend/app/core/security/rate_limit.py:53-57 | Three hits with room for all: the one that read its clock before the hit in front of it finds its window swept and starts over |
| RateLimitWindows.LatestGapIsNotEnough | backend/app/core/security/rate_limit.py:71-78 | A trace whose latest gap is empty and whose count still differs from the unbounded counter's |
| RateLimitWindows.SharedCounter.Lapse | backend/app/core/security/rate_limit.py:29-37 | The key is gone once its deadline is past |
| RateLimitWindows.SharedCounter.Eval | backend/app/core/security/rate_limit.py:29-37 | The script is one hit of the simple counter, and a counter always has a deadline |
| RateLimitWindows.FixedWindowGuarantee | backend/app/core/security/rate_limit.py:118-123 | On any trace whose readings never go back, shared and local windows allow at most twice the limit in a half-open span of one window length |
| RateLimitWindows.NoLatenessTolerated | backend/app/core/security/rate_limit.py:52-61 | All local traffic with readings late by at most `d` seconds keeps to twice its limit, whatever the limit, if and only if `d` is not positive; nine hits, two of them late by as little as wanted, exceed it |
| RateLimitWindows.DividedLimitGuarantee | backend/app/core/security/rate_limit.py:101-103 | Processes dividing the limit together allow at most twice the larger of limit and process count, if no process's readings go back |
| RateLimitWindows.ShareIsLargest | backend/app/core/security/rate_limit.py:101-103 | Each process gets the largest share with which all together keep to the limit, and at least one hit |
| RateLimitWindows.BoundedTableGuarantee | backend/app/core/security/rate_limit.py:52-78 | A key whose live windows are kept and whose readings never go back has the guarantee behind the bounded table |
| RateLimitWindows.InOrderTableGuarantee | backend/app/core/security/rate_limit.py:52-78 | When hits enter the table in the order of their readings, a key whose gaps are small has the guarantee |
| Idempotency.StepKeepsInv | backend/app/core/api/idempotency.py:83-136 | Every command of every client keeps the claim with its owner and the record with the last run |
| Idempotency.OneHandlerAtATime | backend/app/core/api/idempotency.py:93-94 | At most one client is between its claim and its store or delete |
| Idempotency.SuccessesSeparatedByExpiry | backend/app/core/api/idempotency.py:164-178 | After a successful run no other run begins before the record it left has expired |
| Idempotency.DuplicatesReplayTheStoredResult | backend/app/core/api/idempotency.py:98-123 | A refused client gets a duplicate exactly when a stored run is still held and the digests do not contradict each other, and the answer is that unique run's result |
| Idempotency.SecondHandlerExactlyAfterOverrun | backend/app/core/api/idempotency.py:93-94 | While a handler runs, the next claim starts a second one if and only if the clock has passed the first claim |
| Idempotency.RaisingFreesTheBatch | backend/app/core/api/idempotency.py:125-132 | In any run, after a handler raised, the next claim starts a handler if and only if the delete succeeded or the raiser's claim of 900 seconds has expired |
| Idempotency.StoringHoldsTheBatch | backend/app/core/api/idempotency.py:164-178 | In any run, after a store the next claim starts a handler if and only if the stored result has expired, or, if the store failed, the claim has; the storer is told its result or that the store was unavailable |
| Idempotency.RefusalsSpelledOut | backend/app/core/api/idempotency.py:98-123 | A refused client is told of a conflict exactly when both digests are given and differ, of the result exactly when one is stored and they do not, and otherwise to come back later |
| Idempotency.HandlerResultIsStored | backend/app/core/api/idempotency.py:134-135 | What a handler returns is what its client goes on to store |
| Idempotency.DigestIsTheArrivals | backend/app/core/api/idempotency.py:83-136 | In any run, the digest a client claims, compares and stores under is the one it came with |
| IdempotencyRecord.BatchRecord.TrySet | backend/app/core/api/idempotency.py:93-94 | Set if absent or expired, otherwise unchanged |
| IdempotencyRecord.BatchRecord.RunOnce | backend/app/core/api/idempotency.py:70-136 | Record and answer after an undisturbed delivery are those of the protocol's steps, also when the handler raises or ends after its claim |
| IdempotencyRecord.RedeliveryIsDuplicate | backend/app/core/api/idempotency.py:98-136 | A repeated delivery of the same content is answered from the record exactly while the stored result has not expired |
| IdempotencyRecord.RedeliveryAfterRaising | backend/app/core/api/idempotency.py:125-132 | After a delivery whose handler raised, the next one runs if the delete succeeded or the claim has expired, and is otherwise refused |
| Admission.Ledger.Admit | backend/app/core/realtime/admission.py:15-29 | The script trims, counts and adds as one step; the number returned counts the leases left, and a refused admission has no ledger |
| Admission.Ledger.Touch | backend/app/core/realtime/admission.py:127-138 | The member's score becomes the present and the set's life is extended |
| Admission.Ledger.Remove | backend/app/core/realtime/admission.py:140-147 | The member is gone, the others stay |
| Admission.ConnectionAdmission.Renew | backend/app/core/realtime/admission.py:55-63 | Touches when the interval has passed and the connection is not released, otherwise changes nothing |
| Admission.ConnectionAdmission.Release | backend/app/core/realtime/admission.py:65-71 | Removes once; a second release changes nothing |
| Admission.LimitIsNeverExceeded | backend/app/core/realtime/admission.py:15-29 | In every run whose gaps and renewal interval together fit the lease, the held connections never exceed the maximum, each is in the set, and a released one never comes back |
| Admission.LimitHoldsExactlyWhenTimely | backend/app/core/realtime/admission.py:55-63 | Every run keeps the limit if and only if the longest gap between renew calls and the renewal interval together are at most the lease |
| Admission.AdmittedExactlyWhenLeasesFree | backend/app/core/realtime/admission.py:15-29 | For any settings, a connection is admitted if and only if the running leases, abandoned ones less than one lease after their last renewal included, are fewer than the maximum |
| Portal.SortIsStablePermutation | backend/app/core/realtime/portal.py:219-220 | Sorting is cursor-ordered, keeps every entry, and keeps entries with one cursor in order |
| Portal.ReplayIsSortedPermutation | backend/app/core/realtime/portal.py:202-220 | A replay is a cursor-ordered permutation of its window's entries, whichever query fetched them |
| Portal.WindowIsNewest | backend/app/core/realtime/portal.py:202-210 | The window of an answered query is the last min(limit, retained) rows of the log; with no answer the replay is empty |
| Portal.WellFormedExactly | backend/app/core/realtime/portal.py:179-199 | A row yields an entry if and only if its cursor is positive and its envelope is text that is not blank |
| Portal.StrippedMeans | backend/app/core/realtime/portal.py:179-199 | An entry delivers its envelope without the white space around it, and nothing else is removed |
| Portal.SeekIsLargestCursor | backend/app/core/realtime/portal.py:296-299 | Tailing starts at a window row with the largest cursor, and at the beginning when the window has no entry |
| Portal.ParsedTimes | backend/app/core/realtime/portal.py:179-199 | A stretch of rows yields an entry once if the row with its cursor is in it and never otherwise |
| PortalRuns.TailTakes | backend/app/core/realtime/portal.py:302-347 | A read takes exactly the retained rows whose ids its seek id passes |
| PortalRuns.StepKeepsInv | backend/app/core/realtime/portal.py:364-379 | Draws, posts, failed posts, foreign rows, replays and reads, in any order, keep cursors unique and every delivery count right |
| PortalRuns.LostCursorNeverAppears | backend/app/core/realtime/portal.py:364-392 | However a run goes on, no row carries the cursor of an append that failed |
| PortalDelivery.ReplayThenTailLosesNothing | backend/app/core/realtime/portal.py:282-347 | In any run, each retained entry from the window's start on that the tail has passed was delivered twice if its replayed row lies beyond the largest cursor, and once otherwise |
| PortalDelivery.NothingInvented | backend/app/core/realtime/portal.py:302-347 | Only posted entries are delivered, and none more than twice |
| PortalDelivery.SeekIsNewestExactlyWhenLeading | backend/app/core/realtime/portal.py:296-299 | Tailing starts at the newest replayed entry if and only if it has the window's largest cursor |
| PortalDelivery.LoadOpensAtNewest | backend/app/core/realtime/portal.py:202-210 | The window the delivery theorems speak of opens at the last min(limit, retained) rows of the log |
| PortalDelivery.ExactlyOnceExactlyWhenNewestLeads | backend/app/core/realtime/portal.py:282-299 | Every retained entry is delivered exactly once if and only if the newest replayed entry has the window's largest cursor |
| PortalDelivery.ReadShrinksPending | backend/app/core/realtime/portal.py:315-347 | A read shrinks the backlog by its count, down to none, and takes nothing exactly when there is none |
| PortalDelivery.ReadsDrainExactly | backend/app/core/realtime/portal.py:315-347 | A number of undisturbed reads empties the backlog if and only if they ask for as many rows in all |
| PortalLag.KeepingUpLosesNothing | backend/app/core/realtime/portal.py:370-379 | If trims only meet rows the reader has passed or that precede its window, trimmed entries were delivered too, as often as retained ones |
| PortalLag.KeptUpAndDrained | backend/app/core/realtime/portal.py:370-379 | Such a reader with an empty backlog has passed every entry from its window's start on, trimmed ones included |
| PortalLag.NeverDeliveredExactlyWhenLost | backend/app/core/realtime/portal.py:282-379 | With nothing pending, an entry from the window's start on was never delivered if and only if an append trimmed it before the tail had passed it and it lies beyond the replayed window; if none trimmed it so, it was delivered as often as a retained one |
| PortalLag.OutrunLosesAnEntry | backend/app/core/realtime/portal.py:370-379 | A run in which an append trims an entry the reader has yet to pass, and the reader, with nothing pending, never gets it |
| PortalLag.ShortLagRunKeepsUp | backend/app/core/realtime/portal.py:370-379 | If every append leaves the newest `maxlen` rows and finds the reader with fewer to go, no append trims a row the reader still has to pass |
| PortalLag.ShortLagLosesNothing | backend/app/core/realtime/portal.py:370-379 | Under that condition on lengths, every entry from the window's start on that the tail has passed was delivered, trimmed or not, as often as a retained one |
| PortalLag.OvertakingRepeatsAnEntry | backend/app/core/realtime/portal.py:364-379 | Two publishers that append in the opposite order of their draws make one entry arrive twice |
| PortalBackplane.NormalizedDistinct | backend/app/core/realtime/portal.py:128-136 | Normalising keeps exactly the given partitions, each once |
| PortalBackplane.NormalizedKeepsOrder | backend/app/core/realtime/portal.py:128-136 | Partitions stay in the order of their first mention |
| PortalBackplane.Backplane.Publish | backend/app/core/realtime/portal.py:350-392 | Counter and log after each outcome; an append that fails uses up its cursor and leaves the log alone |
| PortalBackplane.Backplane.LoadPartitionEntries | backend/app/core/realtime/portal.py:202-220 | The loop returns a cursor-ordered permutation of the well-formed rows among the last min(limit, retained) ones, and none when both queries fail |
| PortalBackplane.ReplayIsNewest | backend/app/core/realtime/portal.py:202-220 | A partition's replay is a cursor-ordered permutation of the well-formed rows among its newest retained ones |
| PortalBackplane.Backplane.ReadWindows | backend/app/core/realtime/portal.py:223-230 | Every partition's replay, and where its tail starts |
| PortalBackplane.Backplane.LoadReplayState | backend/app/core/realtime/portal.py:282-299 | A cursor-ordered permutation of the well-formed rows among the newest retained ones of every partition, their first and last cursor, and the starting seek ids, whichever query each partition was answered by |
| PortalBackplane.MergedIsNewest | backend/app/core/realtime/portal.py:282-299 | The merged replays hold the well-formed rows among the newest retained ones of every partition, and nothing else |
| PortalBackplane.Backplane.ReadPartition | backend/app/core/realtime/portal.py:334-345 | The loop over one stream returns its well-formed entries and the last row's id, malformed rows included |
| PortalBackplane.Backplane.ReadStream | backend/app/core/realtime/portal.py:302-347 | A sorted permutation of what the requested partitions yield, and seek ids for those with rows |
| PortalBackplane.ReadStreamIsReads | backend/app/core/realtime/portal.py:327-347 | A call that reads several partitions delivers and advances as one tail step in each of them does |
| PortalBackplane.LoadReplayStateIsLoads | backend/app/core/realtime/portal.py:282-299 | A call that replays several partitions does what one load step in each of them does, failed queries included |
| TokenLock.LockServer.AcquireLock | backend/app/core/cache/locks.py:16-25 | The token is returned exactly when the key was free and the answer came back; other keys are untouched |
| TokenLock.LockServer.ReleaseLock | backend/app/core/cache/locks.py:28-35 | The key is deleted only while it holds the presented token |
| TokenLock.OneUnexpiredHolder | backend/app/core/cache/locks.py:16-35 | After any acquires, releases and lapses at most one lease is held and unexpired |
| TokenLock.GrantedExactlyWhenUnheld | backend/app/core/cache/locks.py:16-25 | An acquire that reaches the server is granted if and only if nobody holds an unexpired lease |
| TokenLock.GrantedHoldsForItsLength | backend/app/core/cache/locks.py:16-25 | In any run a granted lease that is left alone is held exactly until its length has passed |
| TokenLock.LeaseLength | backend/app/core/cache/locks.py:22-22 | A lease is the whole milliseconds of its length, and at least a second |
| TokenLock.ReleaseEndsOnlyItsOwn | backend/app/core/cache/locks.py:28-35 | A release frees the key exactly when its own lease is unexpired, and never takes away anybody else's lock |
| SingleFlight.Future.constructor | backend/app/core/cache/locks.py:45-47 | A new future is not settled |
| SingleFlight.InProcessFlights.Begin | backend/app/core/cache/locks.py:45-49 | A fresh future takes the key, other keys stay |
| SingleFlight.InProcessFlights.Finish | backend/app/core/cache/locks.py:51-58 | A future is settled once, and its own entry is gone, while an entry of another flight stays |
| SingleFlight.WaitForLeader | backend/app/core/cache/locks.py:128-148 | The loop sleeps exactly while in time, without a hit and with the lock held, then gives the hit, the error, or the fallback factory |
| SingleFlight.StepKeepsInv | backend/app/core/cache/locks.py:64-115 | What a call does between two awaits keeps calls, flights and table in step |
| SingleFlight.OneLeaderPerKey | backend/app/core/cache/locks.py:74-112 | Between begin and finish a key has one leader, so at most one factory of it runs, fallback included |
| SingleFlight.OneFactoryPerFlight | backend/app/core/cache/locks.py:80-108 | A flight starts its factory at most once, and settles without it only when waiting on another process's leader |
| SingleFlight.WaitersGetTheLeadersOutcome | backend/app/core/cache/locks.py:74-78 | Every call that shared a flight returned exactly its one leader's result or error |
| SingleFlight.FactoryOutcomeSettles | backend/app/core/cache/locks.py:80-115 | However a run goes on, a flight settles with nothing but what its factory ended with |
| SingleFlight.PolledOutcomeSettles | backend/app/core/cache/locks.py:136-148 | A turn of the wait that reads a value or an error settles the flight with it, one with nothing to wait for starts the factory without the lock, and any other changes nothing |
| SingleFlight.EntriesAreTheLeaders | backend/app/core/cache/locks.py:51-58 | A key has an entry if and only if it has a leader on the way: no entry survives its leader |
| SingleFlight.WaitersAreServed | backend/app/core/cache/locks.py:74-78 | A waiter can resume, or its leader is still on the way |
| Replication.HealthyExactly | backend/app/core/db/replication.py:78-87 | A replica is eligible if and only if it is configured, not degraded and probed within three intervals |
| Replication.HysteresisClosedForm | backend/app/core/db/replication.py:139-173 | After any probes a replica is not degraded if and only if some probe was good, only error-free lagging ones followed, and those span less than the grace period |
| Replication.ReplayClosedForm | backend/app/core/db/replication.py:139-173 | The stored status after any probes is the one their current lagging stretch determines |
| Replication.StatusHoldsLastProbe | backend/app/core/db/replication.py:139-145 | After any probes the status holds the time, lag and error of the last one |
| Replication.RoutedExactlyWhen | backend/app/core/db/replication.py:74-90 | A replica whose status is that of its probes is eligible if and only if it is configured, its history is tolerated, and its last probe is at most three intervals old |
| Replication.HealthyInOrder | backend/app/core/db/replication.py:78-87 | Eligible replicas come in the configured order |
| Replication.HealthyAsOften | backend/app/core/db/replication.py:78-87 | Each eligible replica is listed as often as it is configured |
| Replication.LagMeans | backend/app/core/db/replication.py:121-126 | The lag is known exactly when both positions are and the replica answered; it is the distance the replica is behind, and none when it is ahead |
| Replication.RoundRobinIsFair | backend/app/core/db/replication.py:90-90 | Over m consecutive counter values from any start each of n residues comes up floor(m/n) or ceil(m/n) times |
| Replication.EveryHealthyReplicaGetsItsShare | backend/app/core/db/replication.py:74-90 | Over m acquires with an unchanged healthy list each replica on it is chosen floor(m/n) or ceil(m/n) times |
| Replication.ReadRouter.RecordProbe | backend/app/core/db/replication.py:139-173 | The probed replica's status holds the probe's time, lag and error; its lagging stretch and degradation are the specification's, and the other replicas are unchanged |
| Replication.ReadRouter.ProbeAll | backend/app/core/db/replication.py:92-126 | Every replica records its lag from the two positions, or its failure, at one time |
| Replication.ReadRouter.Acquire | backend/app/core/db/replication.py:74-90 | The healthy replica whose turn it is, none when there is none; the counter advances only on a choice |
| Pagination.Base64RoundTrip | backend/app/core/api/pagination.py:16-23 | Stripping the padding and putting it back inverts base64url for every byte string, and the text has neither padding nor a dot |
| Pagination.EncodeSpellsTheBits | backend/app/core/api/pagination.py:16-17 | The text has exactly the digits the bits need, and read in base 64 it is the bytes' number followed by zero bits (section 4 of RFC 4648) |
| Pagination.AlphabetInOrder | backend/app/core/api/pagination.py:16-17 | All 64 digits are distinct and in the order of the url-safe alphabet (section 5 of RFC 4648) |
| PaginationDecoding.DecodesExactly | backend/app/core/api/pagination.py:20-23 | Any text at all is decoded if and only if it is ASCII and, with its filler, padding completes a group or the digits end in a whole one; then the bytes are those its digits up to there spell, other characters skipped |
| PaginationDecoding.UnpaddedDecodesExactlyWhen | backend/app/core/api/pagination.py:20-23 | ASCII text without padding is decoded if and only if its digits end in a whole group, or the last group has two digits or three and its length calls for as much filler as the group lacks |
| PaginationDecoding.DigitMeans | backend/app/core/api/pagination.py:20-23 | The digits are the 64 letters, each worth its place, and `+` and `/` for the last two |
| Pagination.FirstDotAfterPlain | backend/app/core/api/pagination.py:44-46 | The first dot of a token is the one between payload and signature |
| Pagination.CursorRoundTrip | backend/app/core/api/pagination.py:31-62 | Every object comes back from its cursor |
| Pagination.TimestampIdRoundTrip | backend/app/core/api/pagination.py:65-83 | A timestamp and id come back from their cursor if and only if their keys differ |
| Pagination.AcceptedExactlyWhenSigned | backend/app/core/api/pagination.py:38-62 | A token yields an object if and only if what follows its first dot decodes to the MAC of what precedes it, and that is the object's text |

## Left out

- Hashes, checkpoint hashes and MACs are symbolic and injective; secrets and key rotation are not modelled.
- JSON text, ISO timestamps and the message body are parameters that are assumed to read back as written; a JSON `true` or `false` as an id counts as a number.
- Audit rows without a sequence number (written before the migration numbers them), and ties between checkpoints with the same end beyond the first stored one.
- Concurrent audit writers: the head lock makes each append one step; the timestamp taken before it is an argument.
- Times are reals in seconds, except for Redis keys and audit timestamps, which are integers; each machine runs on one clock, and clock skew between processes is not modelled.
- Supervisor: the state file, health report, metrics, enable flags, required paths and the shutdown of children; one child is followed at a time, a failed spawn is an input, and a signal falls between two visits of the loop.
- Rate limiting: the switch to the local or denying policy when Redis fails, key digests, and the shared counter's rounding of milliseconds to seconds.
- Batch deduplication: records without a state, results that are not objects, oversized results, and Redis faults other than a store or delete that fails and leaves the record as it was; one batch key at a time.
- Connection admission: an unreachable ledger, which admits; one user at a time; a command runs at the instant its timestamp was taken.
- Realtime: topic normalisation and the mapping of topics to partitions, the conversion of cursor text to a number, seek ids that are blank, blocking and time-outs of a read, the trim lengths themselves (any trim of old rows is covered), and the delivery filter by last cursor in the API. Its callers advance their seek ids only when a read returned an entry; the model advances them as returned.
- Locks: Redis faults other than a command that never arrives or whose answer is lost; lock tokens are drawn fresh; `on_role` callbacks that raise; cancellation of a waiting call, which cancels the shared future.
- SingleFlight.WaitForLeader: a clock that passes the deadline at some turn is assumed; nothing else bounds the loop when the poll interval is zero.
- Replica routing: the monitor thread, `probe_if_stale`, the status report, and parsing of log positions.
- Cursors: the default secret and the choice of MAC.
- Modules that only wrap a library or carry text: certificates, ClickHouse, Kafka, installers, the command line, the frontend.
