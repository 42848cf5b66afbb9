# Keeper.sh in Dafny

Keeper.sh is a calendar sync engine. This project models the parts of it where correctness
depends on whole runs or on all inputs, and proves what those parts are for. `dafny verify
dfyconfig.toml` checks everything.

| module | models | main results |
|---|---|---|
| `SyncLock` | the Redis sync lock: its atomic scripts and any number of interleaving callers of `acquire`, under a clock with key expiry | mutual exclusion over runs, a free lock is obtained, no residue of callers that gave up, the waiter stack and its hand-off, preemption is never masked, leases end when not renewed |
| `IngestSchedule` | the ingest schedule: claim, complete, wake and release as statements over rows and as steps of runs | exclusive leases, powerless superseded tokens, back-off that no wake beats, no lost wake, due times that return, outside releases that survive |
| `RowLocks` | the row locks those statements take, one lock per step | the waits-for graph is acyclic and somebody can always step |
| `Consolidation` | the four SQL statements that merge duplicate recurring states | meaning preserved, the best mapping kept, nothing orphaned, unique groups, idempotence |
| `SourceAuthority` | the windows that decide what a run may delete | the aggregate is the greatest common window and never grows during a run |
| `ActiveDestinationJobs` | per-user run holds with debounce and watchdog timers | begin and release alternate, and holds follow jobs, on every run |
| `SpanExport` | the bounded span export queue and its drop reports | every span offered is accounted for, in order, and `flush` ends exactly when it should |
| `SerializedPatch` | the coalescing patch queue | merged flushes have the effect of all submissions |
| `MappingToggles` | the optimistic toggle queue | the display is the server's set with pending toggles applied, and agrees with it once drained |
| `IcsText`, `IcsDates`, `IcsDateText`, `IcsDateOrder` | folding, escaping, civil dates, date texts and their order | folding and escaping lose nothing; dates and instants are read back exactly when they can be |
| `IcsContentLine` | the quote-aware scanner of content lines | lines with any parameters, quoted or not, are taken apart rightly |
| `IcsReader`, `IcsProperties`, `IcsStyles` | the component stack and the reader | an event is what its own lines say, nested components do not leak, and the style of the file does not matter |
| `IcsCalendar` | the writer | print and parse: what is written is read back |

How the models are built. Code that changes things step by step is a class or a loop, proved equal
to a function of the state before (`CalendarKeys`, `ScheduleTable`, `Database`, `Tracker`,
`SpanExportQueue`, `PatchMutations`, `ToggleQueue`, `FileReader`); the theorems are about those
functions. Concurrent code is a transition system: a run is a sequence of states and steps from the
initial state, every step enabled where it is taken, and each theorem holds of every run.

Assumptions, all of them parameters or enabling conditions of the models:

- Redis calls return, each script is atomic, and `crypto.randomUUID` never repeats (a caller's holder
  id is new when it calls `acquire`). A tick advances the clock and drops every key whose time has come.
- Each SQL statement is atomic, except in `RowLocks`. Lease tokens are fresh, and a completion carries
  the sequence numbers of the claim it answers. `releaseSeq` is bumped only from outside
  `ingest-schedule.ts`, by triggers that may also rewrite `dueAt`, `parkedReason` and `failureCount`
  and nothing else (packages/database/drizzle/0099_source_ingest_schedule_triggers.sql).
- Each calendar belongs to one user (`ActiveDestinationJobs`); a toggle queue is opened with the ids the
  server holds and a failed send leaves the server unchanged (`MappingToggles`).
- `IcsContentLine.Platform` stands for two functions of the JavaScript engine, `toUpperCase` and `Date.parse`
  (which depends on the local time zone). The round trips assume only that capitals stay as they are and
  that midnight UTC of a date with a four-digit year is read as such; `SomePlatformConforms` shows that
  this can be met, and `SomeDraftIsWritten` that the round trips apply.

Three properties hold on a condition, which is stated exactly. The UID is recovered if and only if it
holds no line break (`UidReadsBackExactlyWhenOneLine`): the writer does not escape it. A date or time is
recovered if and only if its year has four digits, so an all-day event ending on 31 December 9999 loses
its end (`InstantRoundTrip`, `ExclusiveEndRoundTrip`). `flush` ends if and only if the batch size is
positive or nothing is queued (`Flush`, `FlushRoundWithoutBatchSize`).

## Model

| member | source | states |
|---|---|---|
| SyncLock.CalendarKeys.RunAcquireOrSignal | packages/sync/src/sync-lock.ts:82-102 | the script moves the caller to the head of the stack, puts the signal on it, takes a free lock, and does nothing when blocked |
| SyncLock.CalendarKeys.RunRelease | packages/sync/src/sync-lock.ts:110-117 | only the holder's own lock is deleted |
| SyncLock.CalendarKeys.RunRenew | packages/sync/src/sync-lock.ts:119-126 | only the holder's own lock is extended |
| SyncLock.CalendarKeys.RunCancelWaiter | packages/sync/src/sync-lock.ts:133-148 | the caller leaves stack and lock, and the next waiter is promoted |
| SyncLock.CalendarKeys.RunConfirm | packages/sync/src/sync-lock.ts:155-165 | it succeeds exactly for a caller named by lock, signal and head of the stack, and then clears the waiters |
| SyncLock.CalendarKeys.RunIsCurrent | packages/sync/src/sync-lock.ts:178-192 | true exactly when the caller holds the lock and every other waiter is a background one |
| SyncLock.NextKeepsInv | packages/sync/src/sync-lock.ts:253-389 | every step of every caller, tick and late renewal keeps the protocol invariant |
| SyncLock.WaiterStackAndSignal | packages/sync/src/sync-lock.ts:82-165 | in every reachable state the signal is absent exactly when nobody waits, else it is the head with the stack's expiry; nobody waits twice; newest first |
| SyncLock.CancelPromotesNewest | packages/sync/src/sync-lock.ts:128-148 | any cancel removes just its caller and leaves the signal on the newest caller still waiting |
| SyncLock.NoResidue | packages/sync/src/sync-lock.ts:268-388 | once `acquire` has returned without the lock, or the lock was released, the holder id is on no key of any calendar, then and ever after |
| SyncLock.OthersKeepLock | packages/sync/src/sync-lock.ts:82-165 | no step of another caller deletes, replaces or extends a lock |
| SyncLock.HolderKeepsLock | packages/sync/src/sync-lock.ts:284-308 | from confirmation until release or lease expiry the holder owns the lock key |
| SyncLock.MutualExclusion | packages/sync/src/sync-lock.ts:150-165 | between two confirmations on a calendar the first holder has released or its lease has expired |
| SyncLock.TenureIsLockValue | packages/sync/src/sync-lock.ts:320-388 | the callers that confirmed and have not ended their tenure are exactly the confirmed caller named by the lock key |
| SyncLock.PreemptionNotMasked | packages/sync/src/sync-lock.ts:167-192 | from the moment a preempting waiter is queued, `isCurrent` is false for the holder until that waiter cancels or the stack expires, whoever queues after it |
| SyncLock.OnlyPreemptionStops | packages/sync/src/sync-lock.ts:20-32 | `isCurrent` is false for a holder only if a preempting caller has queued and not cancelled since |
| SyncLock.BackgroundWaitersNeverPreempt | packages/sync/src/sync-lock.ts:20-32 | a queueing caller keeps a current holder current exactly when it is a background one |
| SyncLock.AcquireStep | packages/sync/src/sync-lock.ts:82-102 | a blocked caller changes nothing; any other heads the stack and carries the signal for 570 s, everybody else stays in line, and a free lock, and only that, is taken for 120 s |
| SyncLock.AcquireTakesFreeLock | packages/sync/src/sync-lock.ts:93-96 | an unblocked caller that sends the script while the lock is free owns it and can confirm |
| SyncLock.FreeLockIsObtained | packages/sync/src/sync-lock.ts:284-335 | a caller neither aborted nor blocked holds a free lock three of its steps later, and nobody is left waiting |
| SyncLock.SignalledWaiterObtainsLock | packages/sync/src/sync-lock.ts:340-377 | a waiting caller that carries the signal while the lock is free holds it six steps later |
| SyncLock.PollStep | packages/sync/src/sync-lock.ts:284-388 | when a caller gives up, keeps polling, tries again, confirms and cancels |
| SyncLock.CallStep | packages/sync/src/sync-lock.ts:262-270 | a call aborted beforehand returns without touching a key |
| SyncLock.ReleaseStep | packages/sync/src/sync-lock.ts:241-244 | a release frees the caller's own lock and changes nothing else |
| SyncLock.PresentKeysAreLive | packages/sync/src/sync-lock.ts:88-96 | in every reachable state the keys present are those whose time has not come |
| SyncLock.TickExpires | packages/sync/src/sync-lock.ts:88-96 | the passing of time removes exactly the keys whose time has come |
| SyncLock.RenewalExtends | packages/sync/src/sync-lock.ts:119-126 | a renewal moves the holder's expiry to 120 s from now and nothing else |
| SyncLock.UnrenewedLeaseEnds | packages/sync/src/sync-lock.ts:201-214 | a holder whose lease is not renewed has lost the lock once its time has come, whatever else happens |
| IngestSchedule.ScheduleTable.SelectDue | packages/database/src/database/ingest-schedule.ts:89-129 | as many unlocked eligible rows as the limit allows, earliest first |
| IngestSchedule.ScheduleTable.ClaimIngests | packages/database/src/database/ingest-schedule.ts:113-165 | exactly the selected rows are leased, and each claim reports its row as it was |
| IngestSchedule.ScheduleTable.CompleteIngests | packages/database/src/database/ingest-schedule.ts:197-252 | every row whose token a completion carries is written once, by such a completion, and no other row |
| IngestSchedule.ScheduleTable.WakeIngests | packages/database/src/database/ingest-schedule.ts:254-291 | each listed unparked row is woken once; a parked one is not |
| IngestSchedule.ScheduleTable.ReleaseIngests | packages/database/src/database/ingest-schedule.ts:315-340 | exactly the rows that carry the given tokens are released |
| IngestSchedule.ExclusiveLeases | packages/database/src/database/ingest-schedule.ts:87-165 | a second claim within the first lease comes only after a completion or release with the first token |
| IngestSchedule.SupersededTokenChangesNothing | packages/database/src/database/ingest-schedule.ts:246-248 | after a later claim or a settlement, completions and releases with the old token leave the row unchanged |
| IngestSchedule.LostTokenStaysLost | packages/database/src/database/ingest-schedule.ts:130-136 | a row never carries again a token it has lost |
| IngestSchedule.AbandonedClaimReturns | packages/database/src/database/ingest-schedule.ts:87-97 | an abandoned claim is fleet-claimable exactly from the end of its lease, and no lane can take it before |
| IngestSchedule.BackOffHolds | packages/database/src/database/ingest-schedule.ts:89-97 | after an applied completion with failures and delay d no lane claims the row within d, whatever wakes arrive, unless released from outside |
| IngestSchedule.NoWakeIsLost | packages/database/src/database/ingest-schedule.ts:204-232 | `wakeDueAt` is cleared after an accepted wake only by an attempted completion of a read claimed after that wake |
| IngestSchedule.ReceivedTimeNamesAWake | packages/database/src/database/ingest-schedule.ts:260-263 | a pending `wakeReceivedAt` is the time of an accepted wake |
| IngestSchedule.ParkedIsLeftAlone | packages/database/src/database/ingest-schedule.ts:211-215 | a calendar completed without a next due time is neither claimed nor woken until released from outside |
| IngestSchedule.OutsideReleaseSurvives | packages/database/src/database/ingest-schedule.ts:205-221 | a read that completes after an outside release gives up its lease and leaves the released due time, parked reason and failure count |
| IngestSchedule.CompletionOutcome | packages/database/src/database/ingest-schedule.ts:204-233 | every column an applied completion leaves: carried due time, failures and parking unless released, dated success and failure, the wake cleared, kept or deferred |
| IngestSchedule.DueAgainAfterDelay | packages/database/src/database/ingest-schedule.ts:206-215 | after a completion with delay d the fleet lane can take the row exactly from d later on, however many wakes arrive |
| IngestSchedule.ClaimOutcome | packages/database/src/database/ingest-schedule.ts:130-136 | a claim sets lease, token, due time and attempt, and no other column |
| IngestSchedule.WakeOutcome | packages/database/src/database/ingest-schedule.ts:254-271 | a wake is due at the earlier deadline and counted, and takes over the received time and correlation id only from a wake the current read covers |
| IngestSchedule.WakeBecomesClaimable | packages/database/src/database/ingest-schedule.ts:89-95 | the wake lane can take a woken row exactly from the earlier deadline on, with no lease running and back-off over |
| IngestSchedule.ReleaseOutcome | packages/database/src/database/ingest-schedule.ts:325-329 | a released row is due now and fleet-claimable, unless ineligible |
| RowLocks.NoDeadlock | packages/database/src/database/ingest-schedule.ts:167-175 | in every reachable state the waits-for graph has no cycle |
| RowLocks.Progress | packages/database/src/database/ingest-schedule.ts:121-129 | while a transaction is unfinished some unfinished transaction can step |
| Consolidation.Database.RunConsolidation | packages/database/src/database/legacy-recurring-state-consolidation.ts:34-103 | the four statements in order are the transformation the theorems are about |
| Consolidation.Canonical | packages/database/src/database/legacy-recurring-state-consolidation.ts:45-55 | the canonical state is the newest of its group by (createdAt, id) |
| Consolidation.RankOneIsLeader | packages/database/src/database/legacy-recurring-state-consolidation.ts:56-69 | rank one is exactly the mapping no rival precedes |
| Consolidation.StatesAfter | packages/database/src/database/legacy-recurring-state-consolidation.ts:85-101 | what remains are the states out of scope, untouched, and the newest of each group in scope |
| Consolidation.MappingsAfter | packages/database/src/database/legacy-recurring-state-consolidation.ts:71-84 | mappings out of scope are untouched; one in scope survives exactly when it leads its rivals, attached to the canonical state; the foreign key's action removes nothing |
| Consolidation.StateIsDeletedExactlyForLaterDuplicate | packages/database/src/database/legacy-recurring-state-consolidation.ts:85-101 | in the table's columns: a state goes exactly when a duplicate has a later createdAt, or an equal one and a greater id |
| Consolidation.SurvivorIsBest | packages/database/src/database/legacy-recurring-state-consolidation.ts:60-66 | the surviving mapping hangs on the latest state if any competitor does; of those equal on that, none is newer by (createdAt, id); no competitor survives with it |
| Consolidation.BestSurvives | packages/database/src/database/legacy-recurring-state-consolidation.ts:60-84 | the mapping better than all its competitors survives, on the latest state |
| Consolidation.ForeignKeyKept | packages/database/src/database/legacy-recurring-state-consolidation.ts:71-101 | no surviving mapping refers to a deleted state |
| Consolidation.ServicePreserved | packages/database/src/database/legacy-recurring-state-consolidation.ts:41-101 | a group is served at a destination afterwards exactly when it was before, then by one mapping on the group's newest state |
| Consolidation.GroupsAreUnique | packages/database/src/database/legacy-recurring-state-consolidation.ts:8-13 | afterwards the unique index over in-scope groups can be built |
| Consolidation.Idempotent | packages/database/src/database/legacy-recurring-state-consolidation.ts:34-103 | a second run changes nothing |
| SourceAuthority.CreateSyncWindow | packages/calendar/src/core/sync/sync-range.ts:23-31 | a window that is created is not empty |
| SourceAuthority.IntersectSyncWindows | packages/calendar/src/core/sync/sync-range.ts:33-50 | the greatest window inside both, null when there is none |
| SourceAuthority.CreateAggregateAuthorityWindow | packages/sync/src/sync-user.ts:229-258 | the greatest window inside the requested window and every source window; null without sources or when a source has no window |
| SourceAuthority.AggregateIsUnique | packages/sync/src/sync-user.ts:229-258 | that condition determines the aggregate |
| SourceAuthority.ResolveSourceWindows | packages/sync/src/sync-user.ts:203-222 | exactly the sources whose stored window was recorded, has allowed ranges, is not empty and meets the request get a window: from the later start to the earlier end |
| SourceAuthority.NarrowSourceAuthority | packages/sync/src/sync-user.ts:301-317 | exactly the sources with a common part keep a window, and it is that part |
| SourceAuthority.GetBoundingSourceAuthorityWindow | packages/sync/src/sync-user.ts:319-337 | the least window around all source windows |
| SourceAuthority.ChangeIsByContent | packages/sync/src/sync-user.ts:339-352 | a change is reported exactly when the lists differ other than in order |
| SourceAuthority.AuthorityNeverGrows | packages/sync/src/sync-user.ts:1016-1036 | with an unchanged source list the re-read aggregate lies inside the initial one and inside every re-read source window, and null stays null |
| SourceAuthority.AuthorityIsNested | packages/sync/src/sync-user.ts:1037-1040 | aggregate ⊆ each source window ⊆ bounding window ⊆ requested window |
| SourceAuthority.ReadAuthorityTwice | packages/sync/src/sync-user.ts:997-1040 | one run of both reads: changed sources forfeit all authority; otherwise it only shrinks and lies inside the window the local events are read over |
| ActiveDestinationJobs.Tracker.JobActive | services/worker/src/active-destination-jobs.ts:94-119 | the callback on the four maps is the transition `OnActive` |
| ActiveDestinationJobs.Tracker.JobSettled | services/worker/src/active-destination-jobs.ts:60-83 | the callback is the transition `OnSettled` |
| ActiveDestinationJobs.Tracker.TimerFires | services/worker/src/active-destination-jobs.ts:76-91 | a firing timer runs its own callback and no other |
| ActiveDestinationJobs.Tracker.CloseAll | services/worker/src/active-destination-jobs.ts:121-135 | every timer is cleared and every pending release called once |
| ActiveDestinationJobs.OnActiveKeepsInv | services/worker/src/active-destination-jobs.ts:94-119 | a run begins exactly when the job's user is not held |
| ActiveDestinationJobs.OnActiveRunsTheJob | services/worker/src/active-destination-jobs.ts:94-119 | the job is the one that runs on its calendar, and no release of its user is pending |
| ActiveDestinationJobs.SettlingDefersRelease | services/worker/src/active-destination-jobs.ts:60-83 | settling calls nothing; a user's last job leaves a release pending with its timer armed and the user held; a job that is not running changes nothing |
| ActiveDestinationJobs.FireReleaseKeepsInv | services/worker/src/active-destination-jobs.ts:76-82 | a release that fires always releases: no job can have started since it was set |
| ActiveDestinationJobs.FireWatchdogKeepsInv | services/worker/src/active-destination-jobs.ts:85-92 | a watchdog that fires settles exactly the job it was armed for, which is still running |
| ActiveDestinationJobs.CloseKeepsInv | services/worker/src/active-destination-jobs.ts:121-135 | closing leaves no timer, and held exactly the users with running jobs |
| ActiveDestinationJobs.RunHoldsBalance | services/worker/src/active-destination-jobs.ts:28-138 | on every run begin and release alternate, holds match counts and pending releases, and before `close` each running job has one watchdog of its own |
| ActiveDestinationJobs.HeldExactlyWhile | services/worker/src/active-destination-jobs.ts:28-138 | a user is held exactly while it has running jobs or a pending release, never both; the count is that of its running calendars; begins exceed releases by one exactly while held |
| SpanExport.DroppedSpansReporter.Record | packages/otelemetry/src/tracing/dropped-spans.ts:33-39 | per reason, reported plus pending stays equal to recorded, and totals stay the sums by reason |
| SpanExport.DroppedSpansReporter.Flush | packages/otelemetry/src/tracing/dropped-spans.ts:20-27 | pending drops are written once, in a report that is never empty |
| SpanExport.SpanExportQueue.Enqueue | packages/otelemetry/src/tracing/span-export-queue.ts:96-100 | what fits is appended, the rest recorded as dropped; under queue_full; the queue keeps its limit and every span offered stays accounted for |
| SpanExport.SpanExportQueue.ExportNextBatch | packages/otelemetry/src/tracing/span-export-queue.ts:70-82 | at most one batch is in flight, taken from the front |
| SpanExport.SpanExportQueue.Settle | packages/otelemetry/src/tracing/span-export-queue.ts:46-60 | the batch counts as exported, or as dropped whole under export_timeout or export_failed, and batches settle in the order spans came in |
| SpanExport.SpanExportQueue.Flush | packages/otelemetry/src/tracing/span-export-queue.ts:87-93 | it ends with nothing queued or in flight and all spans exported or recorded as dropped |
| SpanExport.SpanExportQueue.FlushRoundWithoutBatchSize | packages/otelemetry/src/tracing/span-export-queue.ts:77-93 | without a positive batch size a round leaves a non-empty queue as it was |
| SpanExport.ReportsAccountForDrops | packages/otelemetry/src/tracing/dropped-spans.ts:14-46 | reported plus pending totals are all drops recorded |
| SerializedPatch.PatchMutations.SubmitPatch | applications/web/src/lib/serialized-mutate.ts:38-69 | the call is the transition `Submit` of its key and leaves other keys alone |
| SerializedPatch.PatchMutations.FlushSettles | applications/web/src/lib/serialized-mutate.ts:22-36 | completion is the transition `Settle` of its key and leaves other keys alone |
| SerializedPatch.CoalescingPreservesMeaning | applications/web/src/lib/serialized-mutate.ts:9-69 | on every interleaving, flushed patches in order and then the queued one have the effect of all submitted; one flush runs at most; a patch is queued only while one runs; an idle key has flushed everything |
| SerializedPatch.LatestFlushFunctionIsUsed | applications/web/src/lib/serialized-mutate.ts:46-61 | an idle key flushes at once; what is queued goes out with the flush function submitted last |
| MappingToggles.ApplyMappingToggle | applications/web/src/lib/mapping-toggles.ts:21-26 | only the toggled calendar's membership is set, to what was asked |
| MappingToggles.LastToggleWins | applications/web/src/lib/mapping-toggles.ts:28-29 | a calendar is displayed by its last pending toggle or else as confirmed |
| MappingToggles.ToggleQueue.EnqueueToggle | applications/web/src/lib/mapping-toggles.ts:44-59 | the call is the transition `Enqueue` |
| MappingToggles.ToggleQueue.SendEnds | applications/web/src/lib/mapping-toggles.ts:31-42 | a turn of the drain loop is the transition `SettleSend` |
| MappingToggles.TogglesAgreeWithServer | applications/web/src/lib/mapping-toggles.ts:19-59 | on every run toggles are sent in order, each once; the display is the server's set with the last pending toggle per calendar winning; drained, everything was sent and the display is the server's set |
| IcsText.TrimTakesOnlyBlanks | applications/web/src/utils/ics.ts:158-159 | what is left is one piece of the text, with white space before and after it and none at its ends |
| IcsText.TrimIsUnique | applications/web/src/utils/ics.ts:158-159 | that determines the trimmed text |
| IcsText.Utf8LengthIsEncodedLength | applications/web/src/utils/ics.ts:15-21 | the octets counted for a code point are those of its UTF-8 form |
| IcsText.FoldLine | applications/web/src/utils/ics.ts:23-46 | the loop writes the segments of `Fold`, joined by CRLF and a space |
| IcsText.FoldIsFolding | applications/web/src/utils/ics.ts:23-46 | the segments make up the line, no code point split; each fits its physical line, and one ends only when the next code point would not fit |
| IcsText.FoldingIsUnique | applications/web/src/utils/ics.ts:23-46 | those conditions determine the folding |
| IcsText.UnfoldUndoesFold | applications/web/src/utils/ics.ts:12-46 | unfolding returns the line, also where a segment starts with a space or tab |
| IcsText.PhysicalLinesFit | applications/web/src/utils/ics.ts:3-5 | each physical line has at most 75 octets, its leading space included |
| IcsText.DocumentLines | applications/web/src/utils/ics.ts:381 | a written document is unfolded and split into exactly its lines |
| IcsText.DocumentFits | applications/web/src/utils/ics.ts:177 | every physical line of a document has at most 75 octets |
| IcsText.WriteDocument | applications/web/src/utils/ics.ts:177 | the loop writes the lines, each folded and ended by CRLF |
| IcsText.EscapePassesAgree | applications/web/src/utils/ics.ts:48-54 | the four passes do what one pass does: none disturbs what an earlier one wrote |
| IcsText.UnescapeUndoesEscape | applications/web/src/utils/ics.ts:48-59 | escaped text has no line break and is read back with CRLF and CR as LF |
| IcsText.UnescapeCases | applications/web/src/utils/ics.ts:56-59 | the five escapes are resolved, any other backslash and character stays |
| IcsText.NormaliseMeaning | applications/web/src/utils/ics.ts:53 | each CRLF and each lone CR counts as one LF, and nothing else changes |
| IcsDates.MonthStartTable | applications/web/src/utils/ics.ts:69-72 | the days before each month, and so the length of each |
| IcsDates.DateOfDayNumber | applications/web/src/utils/ics.ts:69-72 | day numbers name dates one to one |
| IcsDates.YearStartClosedForm | applications/web/src/utils/ics.ts:69-72 | a leap day every 4 years, not every 100, but every 400 |
| IcsDates.ShiftByOneDay | applications/web/src/utils/ics.ts:69-72 | moving the day number by one moves to the next day of the calendar, and back |
| IcsDateText.ShiftForward | applications/web/src/utils/ics.ts:69-72 | `shiftIsoDate` by one day writes the next calendar day |
| IcsDateText.ShiftBack | applications/web/src/utils/ics.ts:454-456 | shifting an exclusive end back by one day writes the last day covered |
| IcsDateText.DateRoundTrip | applications/web/src/utils/ics.ts:287-305 | a written date is read back as that date |
| IcsDateText.InstantRoundTrip | applications/web/src/utils/ics.ts:61-63 | an instant is read back as its UTC date and time, to the second, exactly when its year has four digits |
| IcsDateText.LocalTimeIsRead | applications/web/src/utils/ics.ts:307-322 | a date and time without Z is read field by field, not as UTC |
| IcsDateText.ExclusiveEndRoundTrip | applications/web/src/utils/ics.ts:134-140 | the written end of an all-day event is read back as the day after, except for the last day of year 9999 |
| IcsDateOrder.DateTextOrder | applications/web/src/utils/ics.ts:112-117 | comparing all-day dates as strings compares the days they name |
| IcsContentLine.FindColon | applications/web/src/utils/ics.ts:258-270 | the first colon outside quotes, or the end of the line |
| IcsContentLine.SplitAtUnquoted | applications/web/src/utils/ics.ts:233-255 | the loop splits at the separators outside quotes |
| IcsContentLine.SplitUnquotedKeepsText | applications/web/src/utils/ics.ts:233-255 | splitting loses nothing but the quotes |
| IcsContentLine.ScanContentLine | applications/web/src/utils/ics.ts:257-285 | the loops compute the content line, or nothing for a line without a colon |
| IcsContentLine.ParsePlainLine | applications/web/src/utils/ics.ts:257-285 | without parameters, everything after the first colon is the value |
| IcsContentLine.ParseQuotedParameter | applications/web/src/utils/ics.ts:257-285 | a quoted parameter may hold colons and semicolons and is read without its quotes |
| IcsContentLine.ParseAnyParameters | applications/web/src/utils/ics.ts:257-285 | a line with any number of parameters, bare or quoted, is read into its name, all parameters with the last of a name winning, and its value |
| IcsReader.FileReader.Parse | applications/web/src/utils/ics.ts:372-431 | the loop over the lines computes `ParseIcsFile` |
| IcsReader.NestedComponentsDoNotLeak | applications/web/src/utils/ics.ts:386-424 | a balanced block of other components inside an open event, at any depth, changes no event and no calendar property |
| IcsReader.EventIsItsOwnProperties | applications/web/src/utils/ics.ts:395-415 | between BEGIN:VEVENT and END:VEVENT exactly one event is added, the one its own property lines describe |
| IcsReader.ReportedErrors | applications/web/src/utils/ics.ts:387-393 | the errors of any file are its malformed lines in order, or that it is not a calendar |
| IcsStyles.StyleDoesNotMatter | applications/web/src/utils/ics.ts:381 | a file with CRLF, LF or CR, mixed or not, folded anywhere with space or tab, is read as its logical lines |
| IcsProperties.UidAndTextLines | applications/web/src/utils/ics.ts:341-352 | each line sets its own field, texts unescaped, and nothing else |
| IcsProperties.StatusAndRuleLines | applications/web/src/utils/ics.ts:356-361 | STATUS and RRULE lines set their own field as written and nothing else |
| IcsProperties.OrganizerLine | applications/web/src/utils/ics.ts:353-355 | without CN the organizer is the value less a leading mailto in any case |
| IcsProperties.OrganizerNameLine | applications/web/src/utils/ics.ts:353-355 | with CN, quoted or not, the organizer is that name |
| IcsProperties.DateLines | applications/web/src/utils/ics.ts:362-367 | DTSTART and DTEND set their own field, in the time zone of their TZID if they have one |
| IcsProperties.OtherEventLines | applications/web/src/utils/ics.ts:368-369 | any other property of an event changes nothing |
| IcsProperties.CalendarLinesOutsideEvents | applications/web/src/utils/ics.ts:417-423 | X-WR-CALNAME, PRODID and VERSION set the calendar's fields directly inside VCALENDAR and nowhere else |
| IcsReader.ParsedUidsAreOneLine | applications/web/src/utils/ics.ts:341-343 | no event of any file has a line break in its UID |
| IcsCalendar.BuildIcsCalendar | applications/web/src/utils/ics.ts:152-178 | invalid drafts are rejected with all their errors; text is returned exactly when the dates can be written too, and it is the calendar's folded lines |
| IcsCalendar.CalendarReadsBack | applications/web/src/utils/ics.ts:152-178 | reading a written calendar gives no errors and exactly one event: trimmed texts with LF line breaks, null for empty ones, and the written times |
| IcsCalendar.TextsComeBack | applications/web/src/utils/ics.ts:158-172 | what lies between the outer white space of summary, description and location comes back, line breaks as LF; white space alone comes back as null |
| IcsCalendar.WrittenLines | applications/web/src/utils/ics.ts:161-175 | the fixed lines of every calendar, its UID and its DTSTAMP, which reads back as the stamp |
| IcsCalendar.TimedDraftIsValid | applications/web/src/utils/ics.ts:119-131 | a timed draft is valid exactly with a title and two readable times, the end after the start |
| IcsCalendar.DraftErrors | applications/web/src/utils/ics.ts:93-132 | every complaint is made exactly when there is reason for it |
| IcsCalendar.CalendarFits | applications/web/src/utils/ics.ts:177 | no physical line of the file exceeds 75 octets |
| IcsCalendar.UidReadsBackExactlyWhenOneLine | applications/web/src/utils/ics.ts:167 | the UID is recovered if and only if it holds no line break |
| IcsCalendar.AllDayDraftIsWritten | applications/web/src/utils/ics.ts:93-117 | an all-day draft is valid exactly with a title and an end not before its start, and is then written |
| IcsCalendar.AllDayRoundTrip | applications/web/src/utils/ics.ts:134-140 | the start date comes back, the end comes back as the day after, which is later than the start |
| IcsCalendar.TimedRoundTrip | applications/web/src/utils/ics.ts:142-150 | both instants come back exactly when their years have four digits, and the end is later |

## Left out

- Database drivers, Redis transport, BullMQ, HTTP clients and the telemetry exporter itself: their outcomes are inputs of the models.
- Failing Redis calls: `renewalState.error`, `SyncLockRenewalError` and an `acquire` that throws are not modelled, and neither is `isHeld`, a plain read of the lock key.
- Liveness of the sync lock: a preempting waiter need not obtain the lock, because a newer background waiter that confirms clears the stack.
- The intervals of polling, renewal, debounce and watchdog timers: a poll, renewal or timer may happen at any time.
- Inserting and deleting schedule rows, and the wake trigger on user settings (packages/database/drizzle/0102_source_ingest_schedule_lock_order.sql), which sets the wake columns slightly differently from `wakeIngests`; `wakeUserIngests` is `WakeIngests` over the user's calendars.
- `hasSiblingReadSinceLastSuccess`, `readIngestScheduleHealth`, the `userId` and `updatedAt` columns and the rounding of `lagMs`: easy, no deep property.
- IngestSchedule.ExclusiveLeases: a lease already in the table when the run starts is never settled within the run, here and in the lemmas beside it.
- RowLocks.NoDeadlock: models the row locks of these statements only, not locks other tables' statements take in the same transaction.
- Consolidation ids are natural numbers standing for uuids in Postgres order; the readiness test and the temporary table's lifetime are not modelled.
- The rest of sync-user.ts, such as `planTargetedDestinationRead`, mapping verification and telemetry fields.
- SpanExport.SpanExportQueue.Flush: models flush with nothing enqueued meanwhile; the shutdown deadline and the interval timers only choose when batches are exported and drops reported.
- SerializedPatch: error handlers, and flush functions that throw before returning a promise.
- MappingToggles: the callbacks and options of the latest caller; `publish` is the field `displayed`.
- Lone surrogates: strings are sequences of code points, so text that is not well-formed UTF-16 is not covered, and strings are ordered by code point.
- IcsCalendar.CalendarReadsBack: an all-day start that is not a date input's value may hold anything; one with a line break is excluded.
- The texts of the draft complaints: each is a constructor of `DraftError`.
- `icsFileName`, `formatIcsDateValue` and the local-time formatting of dates.
- Auth, OAuth, MCP, encryption, the web interface and content plugins.
