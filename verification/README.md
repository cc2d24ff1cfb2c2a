# Control API: verified models

A Dafny 4.11 model of the state machines and algorithms the control API depends on, with proofs about all of
their runs or all of their inputs. `dafny verify dfyconfig.toml` checks everything.

A class stands for each object the program updates in place. Each of its methods is proved to do what a function
from old state to new state says, and the results about whole runs are lemmas about those functions. Where a
protocol is interleaved, a `World` holds the whole state, an `Event` is one atomic step, `Steps` runs any list of
events, and an event that cannot happen leaves the world as it is, so a lemma about `Steps` is about every
interleaving.

* `MaintenancePass`, `MaintenanceAdmission`: passes that share a process-wide permit count and resource set, with a
  clock and timers. A caller's wait ends at the deadline; the permit is held until the work settles.
* `LocalTime`, `Schedules`, `ZoneChanges`: the fixed-point search for a local wall time and the latest due occurrence.
  Dates are day numbers, and a zone is the whole-minute offset it applies at each instant.
* `Listing`, `CompletedOccurrences`, `AutomationScheduling`: the scheduler. `SchedulerRuns`, `SchedulerCycle`,
  `SchedulerBlocked` (which records are dealt with), `SchedulerDue`, `SchedulerOnce`, `SchedulerMemory` (what is run
  and remembered), `SchedulerFailures`, `SchedulerStops` (what is reported and what ends a wake): its runs. It is a
  resumable, budgeted, paged scan and its insertion-ordered memory of completed occurrences. Everything a wake
  observes, including failing listing reads and the moments at which the scheduler is closed, is an `Environment`.
* `ScanSlot`: concurrent wakes share one scan and a close waits for it, so scans never overlap and the results about
  wakes one after the other are about every run.
* `TableOrder`, `BatchCopy`, `SnapshotRows`, `SnapshotCopy`, `SnapshotValues`: dependency order of the captured tables,
  the batched copy and read-back loops, the expansion of rows and their normal form. A digest is represented by what it
  digests.
* `SortedRows`, `CanonicalJson`: the sorted-key printer, down to characters and escapes, and the JSON normal form.
  `JsonReader` is a reader of RFC 8259 texts that knows nothing of the printer.
* `OwnershipCheck`, `OwnershipOutcome`: the deduplicating check scope, with files that may become invalid at any moment.
* `Activation`, `ActivationChecks`, `ActivationRuns`: prepare, refresh and the one-shot check at commit. Each await is a
  separate step of an operation and the environment may change between any two; the commit check and the selection write
  are one step.
* `WorkspaceClient`, `WorkspaceAnswers`: in-flight requests of the IPC client, over every client a process ever creates.
* `CreativePage`: pages cut to a byte limit, and following their cursors through a list.
* `ManagedBlock`: replacing and validating a marked block inside a user's file.

## What does not hold, and exactly when it does

* The migration reads back the counted rows rounded up to whole batches. Whether it can miss further rows of the target
  depends on the count alone: an accepted copy stays accepted with a further row if and only if the count is a multiple
  of 128 (`UnreadRows`, `ReadBackIsExact`; `ExtraRowUnread` is a table with distinct keys). The migration locks the
  target's tables and finds them empty first, and captures only tables with rows, so such a row can only come from
  inside its own transaction, as through a trigger.
* The read-back parses a returned JSON string a second time, which goes wrong both ways. A good copy is refused: a
  target that holds exactly the converted source rows is accepted if and only if no JSON column holds a bare JSON
  string (`TablePassesUnlessBareString`; `BareStringRefused` is the value "a"). A wrong copy is accepted: in an accepted
  table a JSON value of the target is the source's up to key order if and only if it is no string
  (`AcceptedJsonIsEquivalent`); a string is accepted whenever its text is JSON for the source's value
  (`TakenForExactly`; `StringTakenForNumber` is the string "5" in place of the number 5).
* From the start of a listing the scheduler does not always come to every record: as long as computing the occurrence
  of one record throws, that record and all after it are never dealt with (`ThrowingRecordBlocks`). When no
  computation throws and nothing else interrupts the wakes, every record is (`CycleVisitsAllOnce`).
* A validator runs at most twice in an outermost check scope if and only if at most two of the checks of its key that
  the scope's code reaches throw (`AtMostTwice`). That is so whenever no failure is swallowed
  (`AtMostTwiceUnlessSwallowed`); `SwallowedFailuresRunAgain` is a scope with three.
* The search for a wall time finds an instant that shows it if and only if the wall time is not in the gap of a
  forward offset change, a comparison of the wall time with the change and the two offsets (`SearchFindsWallTime`,
  `InGap`). In the gap `SearchInGap` says which of the two neighbouring instants is returned and by how much the time
  shown there is off.
* A daily occurrence that is returned is not always in the past: for a time in the gap of a forward change the search may
  take an instant after midnight, and the clock, which already shows the next day, returns it before it has come. That
  never happens if and only if no day's time slips over midnight in this way, a comparison of the time of day with the
  change and the jump (`NeverAheadExactly`, `SlipsOverMidnight`; `OccurrenceAhead` is a clock that goes from 23:00 to
  midnight and a schedule at 23:30).
* A newer refresh of a candidate does not hold back its commit: an older one that ends later arms the candidate all the
  same (`OlderRefreshArms`). What always holds is that the refresh that armed it has made all its checks since its own
  start (`RefreshWasReviewed`).
* Replacing a block in a text whose only end marker precedes its only begin marker raises the error of the failed
  search instead of the program's own error for a malformed block (`ReplaceSucceedsExactly`).

## Model

| member | source | states |
|---|---|---|
| `MaintenancePass.BoundedMaintenancePass.constructor` | apps/control-api/src/bounded-maintenance-pass.ts:29-37 | a new pass is idle and open; the duration is 1 to 10000 ms |
| `MaintenancePass.BoundedMaintenancePass.RunPass` | apps/control-api/src/bounded-maintenance-pass.ts:48-87 | a closed pass answers idle, an active one its own wait; otherwise the run is admitted, or deferred when two passes are active or the resource is taken |
| `MaintenancePass.BoundedMaintenancePass.Admit` | apps/control-api/src/bounded-maintenance-pass.ts:58-81 | an admitted run takes a permit and the resource, starts a generation with its own wait and timer, and begins to execute |
| `MaintenancePass.BoundedMaintenancePass.ClosePass` | apps/control-api/src/bounded-maintenance-pass.ts:89-105 | the first close aborts and re-times an observed run to the shorter of the grace and the deadline; later closes answer the same promise |
| `MaintenancePass.BoundedMaintenancePass.TimeoutPass` | apps/control-api/src/bounded-maintenance-pass.ts:117-126 | a timeout ends the observation and resolves the wait, and keeps permit, resource and activity |
| `MaintenancePass.BoundedMaintenancePass.FinishPass` | apps/control-api/src/bounded-maintenance-pass.ts:128-140 | settlement returns permit and resource, clears the timer and resolves the wait if it is still open |
| `MaintenancePass.BoundedMaintenancePass.ResolveWait` | apps/control-api/src/bounded-maintenance-pass.ts:123-124 | the resolver is used once and dropped |
| `MaintenancePass.AdmissionAlwaysHolds` | apps/control-api/src/bounded-maintenance-pass.ts:48-140 | in every reachable state of any passes the permit count is the number of active passes and at most 2, the resource set is exactly theirs, none is shared, observing implies active, and a run is aborted exactly from its close or timeout on |
| `MaintenancePass.ResolvedExactlyOnce` | apps/control-api/src/bounded-maintenance-pass.ts:65-68 | every generation's wait has been resolved exactly once, or not yet while it is the one observed |
| `MaintenancePass.ResolvedByItsOwnStep` | apps/control-api/src/bounded-maintenance-pass.ts:117-140 | a wait is resolved only by the settlement of its generation or by the timer of its pass, at the moment its observation ends |
| `MaintenancePass.TimerActsOnItsGeneration` | apps/control-api/src/bounded-maintenance-pass.ts:70-73 | a live timer always belongs to the generation now observed by its pass, and touches no other pass |
| `MaintenancePass.PermitReturnedBySettlement` | apps/control-api/src/bounded-maintenance-pass.ts:125-136 | an active pass becomes inactive exactly by the settlement of its current execution, never by a timeout or a close |
| `MaintenancePass.ClosedNeverStarts` | apps/control-api/src/bounded-maintenance-pass.ts:49-49 | once closed, a pass admits no further generation in any run |
| `MaintenancePass.CloseEndsObservation` | apps/control-api/src/bounded-maintenance-pass.ts:93-102 | after a close at t, when timers fire on time, the observation ends by max(t, min(t + 250, deadline)) |
| `MaintenancePass.WaitEndsByDeadline` | apps/control-api/src/bounded-maintenance-pass.ts:69-73 | when timers fire on time, no run is observed past the deadline set at its admission |
| `MaintenanceAdmission.RunAdmittedExactly` | apps/control-api/src/bounded-maintenance-pass.ts:48-81 | in every reachable state a run is admitted, as the next generation, exactly when its pass is idle and open, fewer than two passes are active and none works on its resource; an idle, open pass is otherwise marked as deferred |
| `MaintenanceAdmission.RunAnswers` | apps/control-api/src/bounded-maintenance-pass.ts:48-86 | in every reachable state run answers with the wait of the run it starts, with that of the run under way, or with none when closed or deferred |
| `MaintenanceAdmission.RunKeepsItsTime` | apps/control-api/src/bounded-maintenance-pass.ts:69-73 | no timer ends the observation of a run that is not closed before its full duration has passed |
| `MaintenanceAdmission.CloseLeavesGrace` | apps/control-api/src/bounded-maintenance-pass.ts:93-102 | no timer ends the observation of a closed run before max(t, min(t + 250, deadline)) |
| `MaintenanceAdmission.CloseWaitsForTheRun` | apps/control-api/src/bounded-maintenance-pass.ts:89-105 | a close waits for the run under way, if there is one, and that wait is resolved once when the grace is over and timers fire on time |
| `LocalTime.WallTimeToInstant` | apps/control-api/src/automation-scheduler.ts:359-385 | the loop computes at most four corrections of the candidate |
| `LocalTime.DaysFromEpoch` | apps/control-api/src/automation-scheduler.ts:307-357 | UTC shows the milliseconds since the epoch cut into days and minutes; weekdays count on from the epoch, a Thursday |
| `LocalTime.SearchFindsWallTime` | apps/control-api/src/automation-scheduler.ts:359-385 | around a single offset change the result shows the requested wall time if and only if some instant does, and if and only if the wall time is not in the gap |
| `LocalTime.SearchInGap` | apps/control-api/src/automation-scheduler.ts:370-384 | for a wall time in the gap the result is the target minus one of the two offsets, and the time shown is off by exactly the jump |
| `LocalTime.SearchInOverlap` | apps/control-api/src/automation-scheduler.ts:370-384 | for a wall time shown twice around a backward change the result is the first reading if the search starts before the change, else the second |
| `LocalTime.OverlapShowsTwice` | apps/control-api/src/automation-scheduler.ts:359-385 | both readings of such a wall time show it |
| `Schedules.LatestIsGreatest` | apps/control-api/src/automation-scheduler.ts:257-297 | with a constant offset the result is the greatest instant of the schedule in [anchor, now], and null exactly when there is none |
| `Schedules.LatestIsMonotone` | apps/control-api/src/automation-scheduler.ts:257-297 | the result never moves back as time passes, and changes exactly when an occurrence lies in between |
| `ZoneChanges.LatestThroughChange` | apps/control-api/src/automation-scheduler.ts:274-296 | through a change of offset a daily or weekly schedule keeps its local time and yields the instant of the last of its days that has come, as long as its time is not in the gap and the change does not turn the calendar back |
| `ZoneChanges.NeverAheadExactly` | apps/control-api/src/automation-scheduler.ts:286-296 | a daily schedule never yields an occurrence still to come if and only if its time never falls in the gap in such a way that the instant taken for it comes after midnight |
| `ZoneChanges.OccurrenceAhead` | apps/control-api/src/automation-scheduler.ts:286-296 | a concrete clock, schedule and moment at which the occurrence returned is still to come |
| `Listing.PageResumes` | apps/control-api/src/automation-scheduler.ts:152-155 | a read by limit and cursor resumes exactly where the cursor stands in the listing |
| `CompletedOccurrences.RememberIsMostRecent` | apps/control-api/src/automation-scheduler.ts:221-232 | remembering one more identity keeps the map equal to the most recent distinct automations of the history, up to the limit, in order of recency |
| `CompletedOccurrences.LatestDistinct` | apps/control-api/src/automation-scheduler.ts:226-227 | an automation appears once, with its latest occurrence |
| `AutomationScheduling.AutomationScheduler.WakeUp` | apps/control-api/src/automation-scheduler.ts:136-143 | a wake scans and records the failure it ends with, or none |
| `AutomationScheduling.AutomationScheduler.CloseScheduler` | apps/control-api/src/automation-scheduler.ts:122-134 | closing empties the map and the cursor and keeps the history |
| `SchedulerRuns.ClosedForGood` | apps/control-api/src/automation-scheduler.ts:91-92 | no later wake changes anything about a closed scheduler |
| `ScanSlot.SchedulerSlot.WakeUp` | apps/control-api/src/automation-scheduler.ts:91-99 | a wake of a closed scheduler answers at once, a wake during a scan joins it, any other starts the next scan |
| `ScanSlot.SchedulerSlot.FinishScan` | apps/control-api/src/automation-scheduler.ts:94-96 | the handler at a scan's end empties the slot if the scan is still in it |
| `ScanSlot.SchedulerSlot.CallClose` | apps/control-api/src/automation-scheduler.ts:122-129 | a close is final at once and waits for the scan then in the slot |
| `ScanSlot.SchedulerSlot.FinishClose` | apps/control-api/src/automation-scheduler.ts:128-133 | a close clears what is remembered once the scan it waits for has ended |
| `ScanSlot.OneScanAtATime` | apps/control-api/src/automation-scheduler.ts:91-99 | however wakes, scan ends and closes interleave, at most one scan runs and a wake waits for exactly that one |
| `ScanSlot.CloseWaitsForTheScan` | apps/control-api/src/automation-scheduler.ts:128-133 | in every reachable state a close resumes exactly when no scan is running |
| `ScanSlot.ClearedForGood` | apps/control-api/src/automation-scheduler.ts:122-134 | once a close has cleared what is remembered, no scan runs, then or later |
| `ScanSlot.WakeStartsExactly` | apps/control-api/src/automation-scheduler.ts:91-99 | in every reachable state a wake starts a scan exactly when the scheduler is open and none runs, waits for the one then running, and for none once closed |
| `ScanSlot.EndFreesTheSlot` | apps/control-api/src/automation-scheduler.ts:94-96 | when the running scan ends none runs, and an open scheduler can start the next |
| `ScanSlot.CloseClears` | apps/control-api/src/automation-scheduler.ts:122-133 | a close takes effect at once and clears what is remembered when the scan that was running then has ended |
| `AutomationScheduling.AutomationScheduler.ScanDueAutomations` | apps/control-api/src/automation-scheduler.ts:145-219 | the page loop: admission first, at most the budgeted pages, a failure that ends the scan thrown at once, the first failure of a record at the end |
| `AutomationScheduling.AutomationScheduler.ReadPage` | apps/control-api/src/automation-scheduler.ts:151-217 | one page: a failing read ends the scan, else its records are visited and a short page resets the cursor and ends the scan |
| `AutomationScheduling.AutomationScheduler.VisitRecords` | apps/control-api/src/automation-scheduler.ts:156-211 | the records of a page in order, up to the first that ends the scan |
| `AutomationScheduling.AutomationScheduler.VisitRecord` | apps/control-api/src/automation-scheduler.ts:157-186 | an occurrence that cannot be computed ends the scan, a record that is not due or is remembered is passed over, any other is tried |
| `AutomationScheduling.AutomationScheduler.TryRecord` | apps/control-api/src/automation-scheduler.ts:187-210 | lookup, admission and run, with a closed check after each await; success is remembered |
| `AutomationScheduling.AutomationScheduler.CatchFailure` | apps/control-api/src/automation-scheduler.ts:206-210 | a storage refusal stops the scan at the record, any other failure is kept once and passed over |
| `AutomationScheduling.AutomationScheduler.RememberOccurrence` | apps/control-api/src/automation-scheduler.ts:221-232 | delete, set, and evict the oldest entry beyond the limit; nothing when closed or the limit is 0 |
| `SchedulerRuns.WakeOrder` | apps/control-api/src/automation-scheduler.ts:145-219 | one wake deals with a contiguous run of records from the cursor; a record stopped by a storage refusal is the next one tried |
| `SchedulerRuns.NothingIsSkipped` | apps/control-api/src/automation-scheduler.ts:145-219 | over any wakes on a fixed listing, whatever fails, stops, runs out of budget or closes, the records dealt with are those of a walk round the listing |
| `SchedulerCycle.CycleVisitsAllOnce` | apps/control-api/src/automation-scheduler.ts:150-217 | with no stop, ceil((floor(n / 100) + 1) / maxPagesPerWake) wakes deal with all n records exactly once, in order, and end open at the start |
| `SchedulerCycle.CyclesRepeat` | apps/control-api/src/automation-scheduler.ts:145-219 | m such cycles deal with the listing m times over |
| `SchedulerBlocked.ThrowingRecordBlocks` | apps/control-api/src/automation-scheduler.ts:170-173 | while the occurrence of record p throws, wakes that start at or before p deal with records before p only, in order, and never with p or any later one |
| `SchedulerBlocked.VisitThrowsExactly` | apps/control-api/src/automation-scheduler.ts:257-296 | a visit throws exactly for a started schedule that is an interval of no length or a local time in a zone the runtime does not know |
| `SchedulerDue.VisitRunsLatestDue` | apps/control-api/src/automation-scheduler.ts:157-205 | a visit runs exactly the greatest instant of the record's schedule in the record's own time zone by now, skips it if remembered, and runs nothing when there is none, the scheduler is closed or a call fails |
| `SchedulerDue.VisitRunsLatestDay` | apps/control-api/src/automation-scheduler.ts:157-205 | the same through a change of offset of the record's time zone |
| `SchedulerDue.EveryRunIsDue` | apps/control-api/src/automation-scheduler.ts:145-219 | over any wakes, every run logged is one of a listed record for the greatest instant its schedule names by the time of the wake |
| `SchedulerDue.CycleRunsAllDue` | apps/control-api/src/automation-scheduler.ts:150-217 | a cycle of wakes in which every call succeeds leaves every listed record run for the latest occurrence due at the time of one of them |
| `SchedulerOnce.NoRunTwice` | apps/control-api/src/automation-scheduler.ts:178-205 | on a fixed listing of no more automations than the map holds, with a clock that never goes back, no run is committed twice, whatever fails or closes |
| `SchedulerFailures.WakeReports` | apps/control-api/src/automation-scheduler.ts:136-143 | a wake that reports no failure was closed or came to its end with every due record run or skipped; one it reports is the admission's, a page read's, that of the record it came to, or the first ordinary one of the records it dealt with |
| `SchedulerStops.UnadmittedWakeDealsWithNothing` | apps/control-api/src/automation-scheduler.ts:145-147 | a wake that is refused admission, or closed meanwhile, deals with nothing and reports the refusal, if any |
| `SchedulerStops.WakeEndsAtPage` | apps/control-api/src/automation-scheduler.ts:150-155 | a wake whose read of page p fails, or is closed during it, deals with at most the p pages before |
| `SchedulerStops.WakeEndsAtClose` | apps/control-api/src/automation-scheduler.ts:157-194 | of the records a wake deals with, only the last can be one whose calls closed the scheduler |
| `SchedulerStops.ClosedBeforeTheRun` | apps/control-api/src/automation-scheduler.ts:188-194 | a close that comes before the run is asked for ends the scan with nothing run, reported, remembered or dealt with |
| `SchedulerStops.ClosedDuringTheRun` | apps/control-api/src/automation-scheduler.ts:195-222 | a run that completes as the scheduler closes is not remembered |
| `SchedulerMemory.MapIsFunctionOfHistory` | apps/control-api/src/automation-scheduler.ts:179-186 | after any wakes the map is the function of the remembered history above, and within its limit; while the scheduler is open that history is every run it committed or skipped |
| `SchedulerMemory.SkippedOnlyAfterCompletion` | apps/control-api/src/automation-scheduler.ts:178-205 | every run skipped through the map follows a committed one with the same key, definition, tenant, space, automation and identities |
| `SchedulerMemory.CacheLimitIsIrrelevant` | apps/control-api/src/automation-scheduler.ts:178-210 | when no call refuses admission, no read or occurrence fails, nothing closes the scheduler and outcomes depend on record and wake only, the committed keys are the same for every cache limit, including 0 |
| `TableOrder.TopologicalOrder` | apps/control-api/src/control-snapshot-postgres-migration.ts:421-438 | the loop yields a permutation with every captured parent before its child and then no closed walk exists, or fails and a cycle exists |
| `TableOrder.OrderTables` | apps/control-api/src/control-snapshot-postgres-migration.ts:410-439 | with the outbox edge added, it fails exactly when the edges close a cycle through two or more captured tables |
| `TableOrder.FindCycle` | apps/control-api/src/control-snapshot-postgres-migration.ts:425-434 | when every pending table waits for another pending one, following the waits yields a simple cycle |
| `TableOrder.OrderedHasNoWalk` | apps/control-api/src/control-snapshot-postgres-migration.ts:435-438 | an order with parents first admits no closed walk |
| `BatchCopy.BatchesPartition` | apps/control-api/src/control-snapshot-postgres-migration.ts:130-137 | the batches of 1 to 128 rows are, in order, the counted rows |
| `BatchCopy.CopyBatch` | apps/control-api/src/control-snapshot-postgres-migration.ts:138-174 | a batch succeeds exactly when it is not empty, all its rows convert, the table accepts it and the store writes as many rows |
| `BatchCopy.CopyRows` | apps/control-api/src/control-snapshot-postgres-migration.ts:130-175 | the loop succeeds exactly when every batch does, and has sent and expects each taken row once, in order |
| `BatchCopy.ReadRows` | apps/control-api/src/control-snapshot-postgres-migration.ts:176-192 | the read-back takes the forms of the stored rows up to the count rounded up to whole batches |
| `BatchCopy.CopyTable` | apps/control-api/src/control-snapshot-postgres-migration.ts:128-202 | a report is given exactly when every batch copied, the forms agree in order and the number of rows read is the count |
| `BatchCopy.AcceptedCopyIsComplete` | apps/control-api/src/control-snapshot-postgres-migration.ts:130-196 | with the count of the same snapshot, an accepted copy has sent every source row once and read back rows of the same forms |
| `BatchCopy.AcceptedCopyReadsEverything` | apps/control-api/src/control-snapshot-postgres-migration.ts:183-196 | an accepted copy agrees with the whole target exactly when the target has no further row, which is certain when the count is no multiple of 128 |
| `BatchCopy.FullBatchHidesRows` | apps/control-api/src/control-snapshot-postgres-migration.ts:183-196 | after a full last batch an accepted copy stays accepted with any further rows in the target |
| `BatchCopy.ReadBackIsExact` | apps/control-api/src/control-snapshot-postgres-migration.ts:183-196 | for every accepted copy, acceptance rules further rows out if and only if the count is no multiple of 128 |
| `SnapshotRows.ExpandRow` | apps/control-api/src/control-snapshot-postgres-migration.ts:361-409 | the loop expands a row's values in column order and fails on an invalid timestamp; a history row must then agree with its item and gets the item's indexes |
| `SnapshotRows.ExpandedAt` | apps/control-api/src/control-snapshot-postgres-migration.ts:366-382 | an expanded row holds the source's value in each column of the same name, and its milliseconds as a date |
| `SnapshotRows.HistoryRowsAgree` | apps/control-api/src/control-snapshot-postgres-migration.ts:383-409 | a history row expands only if its identity columns and the indexes it has agree with the item in its own text; call and kind are then the item's and nothing else changes |
| `SnapshotRows.MaintenanceRowIsHeld` | apps/control-api/src/control-snapshot-postgres-migration.ts:152-160 | only the due time of the maintenance row is sent, and beside the target's own singleton that makes the whole of the source's row |
| `SnapshotValues.ColumnsExpandExactly` | apps/control-api/src/control-snapshot-postgres-migration.ts:366-382 | a row's columns expand exactly when each of its dates is null or a number of milliseconds from 0 to 8640000000000000 |
| `SnapshotValues.MillisecondsBecomeDates` | apps/control-api/src/control-snapshot-postgres-migration.ts:370-379 | a date column of an expanded row is null exactly when the source's value is, and otherwise the text of the very instant the source holds |
| `SnapshotValues.OthersAreKept` | apps/control-api/src/control-snapshot-postgres-migration.ts:380-381 | every other column of the source is taken over as it is |
| `SnapshotValues.HistoryRowsExpandExactly` | apps/control-api/src/control-snapshot-postgres-migration.ts:383-407 | a history row expands exactly when its dates are in range, its text is a history item, and its seven identifying columns and any index it has are that item's |
| `SnapshotValues.HistoryRowsCarryTheirItem` | apps/control-api/src/control-snapshot-postgres-migration.ts:383-409 | an expanded history row has its text intact, its item's identity, and its item's call and kind, null for no tool item |
| `SnapshotValues.RowConvertsExactly` | apps/control-api/src/control-snapshot-postgres-migration.ts:448-467 | a row is converted exactly when every value suits its column's type |
| `SnapshotValues.OrdinaryTableIsSentExactly` | apps/control-api/src/control-snapshot-postgres-migration.ts:130-172 | every table but the maintenance table is copied exactly when each of its rows converts and the store writes each batch in full |
| `SnapshotValues.MaintenanceIsOneRow` | apps/control-api/src/control-snapshot-postgres-migration.ts:152-162 | an accepted maintenance table is the one row with singleton 1 |
| `SnapshotValues.RowTakenExactly` | apps/control-api/src/control-snapshot-postgres-migration.ts:448-487 | a source row is taken exactly when it expands and each value then suits its column's type and, in a JSON or timestamp column, is JSON or a date |
| `SnapshotValues.AcceptedInstantsAreSource` | apps/control-api/src/control-snapshot-postgres-migration.ts:370-484 | in an accepted copy a timestamp of the target that comes from milliseconds is the source's very instant |
| `SnapshotValues.AcceptedScalarsAreSource` | apps/control-api/src/control-snapshot-postgres-migration.ts:448-484 | in an accepted copy every boolean, byte string, text and timestamp of the target is the source's, and a null is a null |
| `SnapshotCopy.MigrateTable` | apps/control-api/src/control-snapshot-postgres-migration.ts:106-202 | a report is given exactly when the copy is accepted under this program's row rules; every source row has then been sent once, in order, in batches of 1 to 128, and the digest is that of the source rows' forms |
| `SnapshotCopy.AcceptedTableAgrees` | apps/control-api/src/control-snapshot-postgres-migration.ts:124-202 | each stored row of an accepted table has the form expected of the source row in its place |
| `SnapshotCopy.AcceptedJsonIsEquivalent` | apps/control-api/src/control-snapshot-postgres-migration.ts:468-504 | in an accepted table a JSON value the target holds is the source's up to key order if and only if it is no string; a string is there only if its text is JSON for the source's value |
| `SnapshotCopy.TextTakenForJson` | apps/control-api/src/control-snapshot-postgres-migration.ts:475-476 | whatever JSON a text is, a target that holds the string of that text instead is accepted |
| `SnapshotCopy.StringTakenForNumber` | apps/control-api/src/control-snapshot-postgres-migration.ts:475-476 | a concrete table: the string "5" is accepted in place of the number 5 |
| `SnapshotCopy.TablePassesUnlessBareString` | apps/control-api/src/control-snapshot-postgres-migration.ts:176-196 | a target that holds exactly the converted source rows is accepted if and only if no JSON column holds a bare JSON string |
| `SnapshotCopy.BareStringRefused` | apps/control-api/src/control-snapshot-postgres-migration.ts:475-476 | a concrete table: the one JSON value "a" is refused although the target holds it |
| `SnapshotCopy.UnreadRows` | apps/control-api/src/control-snapshot-postgres-migration.ts:183-196 | an accepted table stays accepted with a further row in the target if and only if its count is a multiple of 128 |
| `SnapshotCopy.ExtraRowUnread` | apps/control-api/src/control-snapshot-postgres-migration.ts:183-196 | a concrete table of 128 distinct keys is accepted although the target holds a further key |
| `SnapshotRows.RowFormsAgree` | apps/control-api/src/control-snapshot-postgres-migration.ts:468-487 | two rows have one form exactly when each pair of values has |
| `SnapshotRows.JsonFormIffEquivalent` | apps/control-api/src/control-snapshot-postgres-migration.ts:475-504 | two JSON columns have one form exactly when their values are equal up to key order |
| `SnapshotRows.TakenForExactly` | apps/control-api/src/control-snapshot-postgres-migration.ts:475-476 | a JSON value in the target is taken for the source's exactly when it is it up to key order, or is a string whose text is JSON for it |
| `SnapshotRows.ReadsBackUnlessBareString` | apps/control-api/src/control-snapshot-postgres-migration.ts:475-484 | any value that can be sent has the same form when it comes back, exactly when it is no bare JSON string |
| `SnapshotRows.RowReadsBack` | apps/control-api/src/control-snapshot-postgres-migration.ts:468-487 | the same of a whole row |
| `SortedRows.SortAscends` | apps/control-api/src/control-snapshot-postgres-migration.ts:499-500 | sorting distinct keys gives the same members in ascending key order |
| `SortedRows.SortedEqually` | apps/control-api/src/control-snapshot-postgres-migration.ts:499-500 | two lists of distinct keys sort to the same list exactly when they have the same members |
| `CanonicalJson.NormalIffEquivalent` | apps/control-api/src/control-snapshot-postgres-migration.ts:495-504 | two values have one normal form exactly when they are equal up to key order at every depth |
| `CanonicalJson.CanonicalIsPrintedNormal` | apps/control-api/src/desktop-plugin-configuration-canonical.ts:14-28 | the sorting printer prints the normal form |
| `CanonicalJson.AscendingIsNormal` | apps/control-api/src/desktop-plugin-configuration-canonical.ts:17-26 | a value whose keys ascend at every depth is its own normal form |
| `JsonReader.EscapeIsShortest` | apps/control-api/src/desktop-plugin-configuration-canonical.ts:23-27 | a character of a string is written in the shortest way the JSON grammar has for it |
| `JsonReader.GrammarNumbersAreTokens` | apps/control-api/src/desktop-plugin-configuration-canonical.ts:27-27 | every number of the JSON grammar is a token the printer takes |
| `JsonReader.PrintParses` | apps/control-api/src/desktop-plugin-configuration-canonical.ts:14-28 | a reader written from the JSON grammar reads every print back as the value printed |
| `JsonReader.CanonicalTextParses` | apps/control-api/src/desktop-plugin-configuration-canonical.ts:14-28 | a canonical text is JSON for the value up to key order, with all keys ascending |
| `JsonReader.PrintCut` | apps/control-api/src/desktop-plugin-configuration-canonical.ts:14-28 | a printed value can be told from any other by any text in which it is delimited |
| `JsonReader.QuoteCut` | apps/control-api/src/desktop-plugin-configuration-canonical.ts:23-27 | a quoted and escaped string delimits itself |
| `JsonReader.PrintIsInjective` | apps/control-api/src/desktop-plugin-configuration-canonical.ts:14-28 | values that print alike are equal |
| `JsonReader.CanonicalIffEquivalent` | apps/control-api/src/desktop-plugin-configuration-canonical.ts:14-28 | two values have the same canonical text exactly when they are equal up to key order |
| `OwnershipCheck.OwnershipChecks.CheckNativeOwnershipFile` | apps/control-api/src/desktop-native-ownership-check.ts:24-40 | outside a scope a check validates; inside, a first check validates and joins the batch, a later one is marked repeated |
| `OwnershipCheck.OwnershipChecks.ValidateNativeOwnership` | apps/control-api/src/desktop-native-ownership-check.ts:7-21 | an inner scope only runs its body; an outermost one opens a batch, runs the body, closes it and runs the repeated checks again |
| `OwnershipCheck.OwnershipChecks.RecheckAll` | apps/control-api/src/desktop-native-ownership-check.ts:17-17 | the repeated checks run in insertion order until one throws |
| `OwnershipCheck.BatchedIsAsStrongAsDirect` | apps/control-api/src/desktop-native-ownership-check.ts:4-21 | when an outermost scope returns normally, running every check at its own call site, with the same changes at the same moments, would have too |
| `OwnershipOutcome.ScopeReturnsExactly` | apps/control-api/src/desktop-native-ownership-check.ts:7-40 | an outermost scope returns normally exactly when running every check at its own call site would and no file checked again after it passed has become invalid by its turn of the last loop |
| `OwnershipOutcome.ValidFilesRaiseNoAlarm` | apps/control-api/src/desktop-native-ownership-check.ts:7-40 | when no file the scope checks becomes invalid, the scope ends as its code does with every check run at its own call site |
| `OwnershipOutcome.RunsExactly` | apps/control-api/src/desktop-native-ownership-check.ts:12-39 | in an outermost scope that returns normally a validator has run once if its file passed, once more if it was checked again after that, and once for each check of it that threw and was swallowed |
| `OwnershipCheck.InsideIsDirect` | apps/control-api/src/desktop-native-ownership-check.ts:28-39 | if every repeated check is valid at the end, the batched body has the very outcome of the direct one, swallowed failures included |
| `OwnershipCheck.NoneCurrentOutside` | apps/control-api/src/desktop-native-ownership-check.ts:16-20 | however it ends, code outside every scope leaves no scope current |
| `OwnershipCheck.AtMostTwice` | apps/control-api/src/desktop-native-ownership-check.ts:12-39 | in any outermost scope a validator runs at most twice if and only if at most two reached checks of its key throw |
| `OwnershipCheck.AtMostTwiceUnlessSwallowed` | apps/control-api/src/desktop-native-ownership-check.ts:12-39 | so it does whenever no failure is swallowed |
| `OwnershipCheck.SwallowedFailuresRunAgain` | apps/control-api/src/desktop-native-ownership-check.ts:33-39 | a concrete scope that swallows failures runs one validator three times |
| `Activation.PreparedCandidate.AssertBeforeSelectionCommit` | apps/control-api/src/desktop-installed-plugin-activation-owner.ts:336-346 | a commit check passes only for a refreshed candidate, the prepared selection and unchanged facts, and uses the refresh up even when it fails on the facts |
| `Activation.CommitPassesExactly` | apps/control-api/src/desktop-installed-plugin-activation-owner.ts:321-346 | in every run a commit check passes exactly when the last thing that happened to its candidate is a finished refresh, it is asked for the prepared selection, and the live facts are the prepared ones |
| `Activation.CommitFollowsItsRefresh` | apps/control-api/src/desktop-installed-plugin-activation-owner.ts:321-346 | in every run, the last thing that happened to a candidate before its commit is a finished refresh no earlier commit check consumed |
| `Activation.CommitFindsPreparedFacts` | apps/control-api/src/desktop-installed-plugin-activation-owner.ts:336-346 | a commit writes exactly the prepared selection, while selection, package, configuration and deployment are what was prepared |
| `ActivationChecks.RefreshWasReviewed` | apps/control-api/src/desktop-installed-plugin-activation-owner.ts:324-335 | in every run a refresh arms its candidate only after it has, since its own start, found owner, selection, registration, configuration and deployment as prepared, then the activation allowed, then the facts again |
| `ActivationChecks.CommitWasReviewed` | apps/control-api/src/desktop-installed-plugin-activation-owner.ts:321-346 | in every run a commit follows such a refresh, and nothing else happened to its candidate since |
| `ActivationChecks.IssueWasVetted` | apps/control-api/src/desktop-installed-plugin-activation-owner.ts:262-320 | in every run a candidate is issued only after the facts were found as it carries them, the activation allowed, the peer ready and the activation allowed again, with the facts unchanged before and after each |
| `ActivationRuns.UndisturbedPreparationIssues` | apps/control-api/src/desktop-installed-plugin-activation-owner.ts:255-346 | if nothing changes meanwhile, a preparation of what is there issues the candidate it was asked for |
| `ActivationRuns.UndisturbedRefreshArms` | apps/control-api/src/desktop-installed-plugin-activation-owner.ts:324-335 | if nothing changes meanwhile, a refresh of a candidate arms it |
| `ActivationRuns.UndisturbedCommitPasses` | apps/control-api/src/desktop-installed-plugin-activation-owner.ts:324-346 | and the selection can then be committed |
| `ActivationRuns.PendingIsBounded` | apps/control-api/src/desktop-installed-plugin-activation-owner.ts:638-657 | in every run at most 128 operations are pending, and none starts once the owner has closed |
| `ActivationRuns.NothingCommitsAfterClose` | apps/control-api/src/desktop-installed-plugin-activation-owner.ts:364-366 | once the owner has closed nothing commits, in any run |
| `ActivationRuns.ChangedFactsRefuseCommit` | apps/control-api/src/desktop-installed-plugin-activation-owner.ts:336-346 | a refreshed candidate does not commit when the facts have changed meanwhile, and its refresh is used up |
| `ActivationRuns.OlderRefreshArms` | apps/control-api/src/desktop-installed-plugin-activation-owner.ts:321-335 | a refresh with one step left arms the candidate also when a newer refresh, of which nothing is checked yet, has just disarmed it |
| `Activation.AtMostOneCommit` | apps/control-api/src/desktop-installed-plugin-activation-owner.ts:255-363 | in every run, any two commits are of candidates prepared from different disabled selections |
| `Activation.ReachableWorlds` | apps/control-api/src/desktop-installed-plugin-activation-owner.ts:262-285 | in every run each candidate leads from a disabled to an enabled selection |
| `Activation.ClosedCommitsNothing` | apps/control-api/src/desktop-installed-plugin-activation-owner.ts:364-366 | after the owner closes, nothing commits in any run |
| `WorkspaceClient.WorkspaceClient.Create` | apps/control-api/src/desktop-native-project-workspace-client.ts:41-82 | a client is created exactly when no client owns the process, its signal has not fired and the channel is connected |
| `WorkspaceClient.WorkspaceClient.StartExchange` | apps/control-api/src/desktop-native-project-workspace-client.ts:113-172 | refusals in order: not current, aborted, capacity; else the request is registered with its timers and sent, and a failing send settles it at once |
| `WorkspaceClient.WorkspaceClient.SettleResponse` | apps/control-api/src/desktop-native-project-workspace-client.ts:124-138 | the first settlement counts, clears the timer and removes the pending entry |
| `WorkspaceClient.WorkspaceClient.EndSend` | apps/control-api/src/desktop-native-project-workspace-client.ts:153-160 | the first end of a send counts, and a failed one settles a response that is still pending |
| `WorkspaceClient.WorkspaceClient.AcceptMessage` | apps/control-api/src/desktop-native-project-workspace-client.ts:266-286 | unknown schemas and identifiers are ignored; a message for a pending request settles it, as invalid if its schema is the other one or its parser throws |
| `WorkspaceClient.WorkspaceClient.AbortExchange` | apps/control-api/src/desktop-native-project-workspace-client.ts:122-148 | the request's own signal settles it once |
| `WorkspaceClient.WorkspaceClient.WithdrawClient` | apps/control-api/src/desktop-native-project-workspace-client.ts:246-250 | the loop settles every pending response as unavailable, and nothing else |
| `WorkspaceClient.WorkspaceClient.CloseClient` | apps/control-api/src/desktop-native-project-workspace-client.ts:251-257 | the first close withdraws and waits for the sends then physical; later closes do nothing |
| `WorkspaceClient.WorkspaceClient.CompleteClose` | apps/control-api/src/desktop-native-project-workspace-client.ts:257-260 | once those sends are gone the client is closed and stops owning the process |
| `WorkspaceClient.WorkspaceClient.ResumeExchange` | apps/control-api/src/desktop-native-project-workspace-client.ts:173-176 | the caller gets the outcome, but a result only if the client is current and the signal has not fired |
| `WorkspaceClient.SettledByItsOwnCause` | apps/control-api/src/desktop-native-project-workspace-client.ts:121-172 | each action settles an open response exactly with what it causes: own message, deadline, own abort, own send failure, withdrawal; a settled one never changes |
| `WorkspaceClient.SettlesAtMostOnce` | apps/control-api/src/desktop-native-project-workspace-client.ts:121-160 | in every reachable state a request has settled at most once, and is pending with a running timer exactly when it has not |
| `WorkspaceClient.EndsByItsDeadline` | apps/control-api/src/desktop-native-project-workspace-client.ts:139-164 | when timers fire on time, every request has settled and every send has ended once its deadline is past |
| `WorkspaceClient.ResultComesFromItsMessage` | apps/control-api/src/desktop-native-project-workspace-client.ts:266-286 | in every run, a result was carried by a received message with the request's own identifier and expected schema |
| `WorkspaceClient.CapacityHolds` | apps/control-api/src/desktop-native-project-workspace-client.ts:119-120 | in every reachable state at most four responses are pending and four sends physical, and only the owner of the process has any |
| `WorkspaceClient.OneClientAtATime` | apps/control-api/src/desktop-native-project-workspace-client.ts:70-78 | in every reachable state at most one client of the process has not closed |
| `WorkspaceClient.WithdrawnForGood` | apps/control-api/src/desktop-native-project-workspace-client.ts:246-265 | after a withdrawal nothing is pending, nothing starts and no send is added, in any run |
| `WorkspaceClient.NoResultAfterWithdrawal` | apps/control-api/src/desktop-native-project-workspace-client.ts:173-176 | a caller that resumes after the withdrawal never gets a result, even if its message had arrived before |
| `WorkspaceClient.CloseCompletesWhenSendsAreGone` | apps/control-api/src/desktop-native-project-workspace-client.ts:257-259 | a waiting close completes exactly when no physical send remains |
| `WorkspaceClient.ClosedHasNothingInFlight` | apps/control-api/src/desktop-native-project-workspace-client.ts:251-261 | in every reachable state a closed client has no physical send, and each of its requests is settled and sent |
| `WorkspaceAnswers.ClientCreatedExactly` | apps/control-api/src/desktop-native-project-workspace-client.ts:41-82 | in every reachable state a client is created exactly when every earlier one has closed, its signal has not fired and the channel is connected |
| `WorkspaceAnswers.StartsExactly` | apps/control-api/src/desktop-native-project-workspace-client.ts:113-172 | a request starts, with its schema and its deadline, exactly when the client is current, its signal has not fired and fewer than four responses are pending and four sends physical; a refused one changes nothing |
| `WorkspaceAnswers.ResumeAnswers` | apps/control-api/src/desktop-native-project-workspace-client.ts:173-176 | in every reachable state a resuming caller gets its response's outcome; a result only if the client is not withdrawn, its signal has not fired, the channel is connected and the request's own signal has not fired |
| `WorkspaceAnswers.RequestIsServed` | apps/control-api/src/desktop-native-project-workspace-client.ts:113-176 | a request that may start and whose message comes is given the result the message carries, if nothing intervenes |
| `WorkspaceAnswers.FirstRequestIsServed` | apps/control-api/src/desktop-native-project-workspace-client.ts:41-176 | so is the first request of the first client of a process |
| `WorkspaceAnswers.RequestTimesOut` | apps/control-api/src/desktop-native-project-workspace-client.ts:139-148 | a request nobody answers is settled by its deadline as soon as the clock has come to it, and its caller is told so |
| `WorkspaceAnswers.LostChannelWithholds` | apps/control-api/src/desktop-native-project-workspace-client.ts:173-176 | a delivered result is not given to a caller that resumes after the channel was lost |
| `WorkspaceAnswers.NoResultAfterAbort` | apps/control-api/src/desktop-native-project-workspace-client.ts:122-176 | once a request's own signal has fired its caller gets no result in any run, even if its message had arrived |
| `WorkspaceAnswers.CloseEnds` | apps/control-api/src/desktop-native-project-workspace-client.ts:251-261 | a close withdraws the client, and completes once every send physical then has ended and been taken out, in any order; the process is then free for the next client |
| `CreativePage.BoundedCreativePage` | apps/control-api/src/creative-project-projection.ts:108-129 | the result is the longest prefix whose response fits, with the right continuation; it is an error exactly when none fits, the empty prefix of a nonempty list not counting |
| `CreativePage.BoundedIsLongestFitting` | apps/control-api/src/creative-project-projection.ts:108-129 | the same of the specification function, for any starting length |
| `CreativePage.RequestAt` | apps/control-api/src/creative-project-route.ts:141-157 | a page read after the first k items is the next stretch of the list, ends the reading only at its end, is empty only there, and hands over the cursor where it stops |
| `CreativePage.FinishedReadingIsComplete` | apps/control-api/src/creative-project-route.ts:141-157 | following cursors from null to null yields every item exactly once, in order, whenever no request fails |
| `CreativePage.EveryItemOnce` | apps/control-api/src/creative-project-projection.ts:108-129 | if every single-item response and the empty one fit, no request fails and n + 1 requests are enough |
| `ManagedBlock.CountOne` | scripts/setup-local-provider-runtime.py:341-342 | the greedy count is one exactly when there is a single occurrence, which the search then finds |
| `ManagedBlock.ReplaceSucceedsExactly` | scripts/setup-local-provider-runtime.py:340-353 | replacement succeeds exactly on texts with no marker or one begin before one end, and the search fails exactly on one end before one begin |
| `ManagedBlock.ReplaceComposes` | scripts/setup-local-provider-runtime.py:345-353 | the result is the user's text before and after, without newlines at the seams, around the new block |
| `ManagedBlock.OutsideSurvives` | scripts/setup-local-provider-runtime.py:346-351 | the text outside the block survives, in order, except for newlines next to it and at the end |
| `ManagedBlock.ValidateSucceedsExactly` | scripts/setup-local-provider-runtime.py:356-364 | validation accepts exactly the block between the only begin and the only end marker |
| `ManagedBlock.ValidationAcceptsReplacement` | scripts/setup-local-provider-runtime.py:340-364 | validation accepts what replacement wrote exactly when the block starts with its only begin and ends with its only end marker |
| `ManagedBlock.LastReplacementWins` | scripts/setup-local-provider-runtime.py:340-353 | replacing with one block and then another equals replacing with the other; in particular replacement is idempotent |

## Left out

- LocalTime.SearchFindsWallTime: zones with a single offset change within a day of the target; several changes close together are not covered.
- LocalTime.WallTimeToInstant: offsets with seconds, and the mapping between calendar fields and day numbers (so years 0 to 99, which Date.UTC shifts by 1900), are not modelled.
- Schedules.LatestIsGreatest: zones with a constant offset; ZoneChanges has the same through one change. Instants too large for toISOString are not modelled.
- ZoneChanges.LatestThroughChange: one change of offset in all. Which occurrence is the latest when the schedule's time is in the gap, or when the change turns the calendar back, is not stated.
- SchedulerDue.VisitRunsLatestDue: zones with a constant offset, and schedules as the domain's parser leaves them; VisitRunsLatestDay is the statement through one change.
- SchedulerOnce.NoRunTwice: zones with a constant offset. With a smaller map a run may be repeated once its automation has been evicted; the idempotency key is then what the control plane relies on.
- AutomationScheduling.AutomationScheduler.WakeUp: a whole scan is one step; what else can happen during it is in its environment. The interval timer and start are left out.
- AutomationScheduling.AutomationScheduler.CloseScheduler: the wait for the running scan is the subject of ScanSlot (CloseWaitsForTheScan, ClearedForGood), not of this contract.
- SchedulerCycle.CycleVisitsAllOnce: wakes that no storage refusal, failing read, failing occurrence or close interrupts; other failures of records are allowed.
- AutomationScheduling.AutomationScheduler.VisitRecord: an occurrence is taken to fail for an interval of zero seconds and for an unknown time zone; times that are no numbers and dates out of range are not modelled.
- CompletedOccurrences.RememberIsMostRecent: identities and keys are the tuples that are hashed, with SHA-256 taken as injective.
- MaintenancePass.CloseEndsObservation: assumes that the event loop fires a timer before the clock passes it, and does not model the runtime's minimum timer delay of 1 ms.
- MaintenancePass.BoundedMaintenancePass.FinishPass: callbacks that themselves throw (onFailure, onTimeout) are not modelled.
- TableOrder.OrderTables: table names are distinct, as the capture guarantees; the catalogue query is left out.
- SnapshotCopy.MigrateTable: identity sequences, the file digest, capturing the tables and cancellation are left out; JSON.parse, Date, String and the history validator are parameters.
- SnapshotCopy.TablePassesUnlessBareString: the maintenance table has the two columns of its schema, its row in the target the singleton 1.
- SnapshotRows.RowFormsAgree: numbers and JSON values are sent as they are instead of as text, and the normal form of a number is what the runtime shows for it, the same on both sides.
- JsonReader.CanonicalIffEquivalent: numbers are their printed tokens, so values the runtime prints alike count as equal (0 and -0), and a number too large for the runtime (1e400), which prints as null, is no well-formed value. A character is a Unicode scalar value, not a UTF-16 code unit: keys with characters beyond the basic plane may be ordered differently from the runtime's, and lone surrogates, which the runtime escapes, cannot be represented. The 64 KiB limit on a scalar is left out.
- JsonReader.PrintParses: the reader takes no insignificant white space, which the printer never writes, and a number is the longest run of number characters.
- CanonicalJson.NormalIffEquivalent: integer-like keys, which the runtime's objects list first whatever the order of insertion, are sorted like any other; the two orders are both fixed by the set of keys.
- OwnershipCheck.BatchedIsAsStrongAsDirect: every key always carries the same validator, and an invalid file stays invalid.
- Activation.AtMostOneCommit: selection revisions strictly increase on every write, and the check at commit and the write are one step, as the store promises.
- ActivationChecks.RefreshWasReviewed: a refresh does not compare the package it finds with the prepared one, nor does the program; the commit check does (CommitFindsPreparedFacts). The registration is read at one moment, everything else at a later one.
- Activation.CommitFindsPreparedFacts: digests stand for package, configuration, registration and deployment; their parsing, the peer protocol and assertBeforePublication are left out.
- WorkspaceClient.WorkspaceClient.StartExchange: request identifiers are fresh, as 24 random bytes make them; argument checks, ticket parsing and the expiry of a ticket only choose the deadline passed in.
- WorkspaceClient.WorkspaceClient.CompleteClose: a close resolves after the handlers that take its sends out of the physical set, which were registered first.
- CreativePage.EveryItemOnce: the list does not change while it is read, and a cursor is its rank in the list's order; the size of a response is a parameter.
- ManagedBlock.LastReplacementWins: the second block is not empty (an empty one is written differently into a text without a block).
- Reading and writing files, HTTP routes, identity resolution, stores and their transactions, Intl.DateTimeFormat, process messaging and hashing are parameters or assumptions of the model.
