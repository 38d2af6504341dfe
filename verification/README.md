# Verified model of the reactor control daemon

This project models the fail-closed core of the reactor upper computer and proves what it promises. Everything is
stated over all inputs, all runs or all reachable states; exact reals stand for `f64`.

* **Production lifecycle and safety latches.** Process, batch and v1 starts, target writes, auto-enable, fault and
  emergency resets, stops and finishes share one runtime, one `batches` table and one device. Each handler is a
  program counter over its lock-held sections and single database or device calls (`Handlers`), any number of them
  interleave with the surroundings, and any call may fail, with or without having taken effect (`Runs`). `Shared` keeps
  a log of everything that happened, so that theorems can speak about whole runs. `LockedSections` holds the same
  lock-held sections as methods that update `RuntimeState` in place, each proved to be the step of the interleaving
  model. `Guards` says what every guarded section lets pass, in terms of flags, counters and unfinished rows, and
  `TargetFields` what a target write does to each field. The theorems over runs are in these two and in
  `StartExclusion`, `Compensation`, `LatchWindows`, `Closure`, `Activations`, `Outcomes` and `Restart`; `Undisturbed`
  shows that requests which meet their conditions succeed; `Races` holds the concrete runs that show why some theorems
  carry a condition.
* **Hash-chained audit log** (`AuditChain`): append, windowed and full verification, tamper evidence. SHA-256
  (section 6.2 of FIPS 180-4) over the payload is a parameter; tamper evidence is stated for every hash, up to a
  collision between two stored events, and for an injective one without that exception.
* **Integration tasks** (`TaskTable`, `TaskRuns`): the idempotent task table, the in-place repair of legacy
  duplicates, and interleaved executions.
* **ESP32 line protocol** (`Texts`, `Frames`, `FrameLaws`): frame printer, parser, XOR checksum, handshake loop. Texts
  are sequences of UTF-8 bytes.
* **JSON bridge** (`Bridge`): the one-command-per-call reconciler with its two caches, and a downstream.
* **Bounded arithmetic** (`Numbers`, `Control`, `Registers`): two-decimal rounding, step clamping against limits and
  forbidden zones, register quantisation (section 6.6 of the MODBUS Application Protocol Specification V1.1b3).

## What the code does that a reader might not expect

* The generation counters saturate. A latch that fires and clears inside a window goes unseen once its counter is at
  the largest `u64`; the window theorems say so and `SaturatedEngagementIsMissed` shows it.
* Start exclusion needs the operator not to finish the row of a start in flight: `OperatorFinishBreaksExclusion`.
* `finish_batch` decides from an earlier read whether its batch is active. A finish that read before the activation
  and looked the row up after it releases the batch without a stop command: `EarlyFinishReleasesUnstopped`. The exact
  condition is in `ReleaseIsStoppedIffReadActive`; a caller can rely on `OnceActiveIsStopped`: if the batch was seen
  active before the finish was requested, its release comes with a stop.
* A start whose device write reports failure latches the fault and closes its row, but sends no stop command. If the
  device took the command all the same, it is never stopped: `FailedWriteIsNotStopped`. Compensation by a stop or a
  held batch is therefore proved for the starts whose write was accepted, and `FailedWriteNeverStops` covers the rest.
* A failed start that could not stop the device holds its batch with the activation targets; a stop or finish attempt
  of an earlier batch that is past its own device write can then replace those targets with the stop targets:
  `HeldTargetsCanBeReplaced`.
* A finish of the active batch that cannot read its row back after closing it returns its error without latching the
  fault, unlike its other failures after the device write: `FailedFinishIsLatched`.
* v1 control tests the targets as asked for against the forbidden zones and stores them rounded; the other target
  writes test what they store: `CommittedTargetsFit`.
* Overlapping requests with one external id can both execute: `OverlappingClaimsExecuteTwice`.
* `docs/command_ack_handshake.md` says the checksum covers the line except the `chk` field; the parser checks only
  what precedes it: `FieldBehindChecksumIsRead`.
* The simulator's speed step of 5 against the default deadband of 1 makes the bridge swing for ever: `SimulatorSwings`.

## Model

| member | source | states |
|---|---|---|
| `StartExclusion.StartsExcludeEachOther` | src/api.rs:1247-1305 | In every disciplined run, with any number of process, batch and v1 starts and any failures: no two starts are past their pre-write check at once, the one that is has its row unfinished and no batch is active, and no start command, activation or hold ever happened over another active batch; that the check itself saw clear latches and a healthy field is `Guards.StartCommandsAreChecked` |
| `StartExclusion.RunKeepsInv` | src/api.rs:1686-1714 | The exclusion invariant (each pending start alone in the table past its check, no closer aims at a pending row) holds in every state of every disciplined run |
| `Races.OperatorFinishBreaksExclusion` | src/api.rs:3888-3960 | Without the discipline a run exists in which two starts are both about to write the device |
| `Guards.PreWriteCheckIsExact` | src/api.rs:1911-1929 | The check before the device write passes exactly if all three latches are clear, the field is healthy, no batch is active, the table could be read and the row of the start is the only unfinished one |
| `Guards.SendersPassedTheCheck` | src/api.rs:1911-1943 | In every run a start that is about to send its command, or has sent it, passed that check for its row in an earlier step |
| `Guards.StartCommandsAreChecked` | src/api.rs:1911-1943 | In every run every start command the device received, reported as accepted or as failed, was preceded by a check in which the latches were clear, the field healthy, no batch active and its row the only unfinished one |
| `Guards.FailedCheckSendsNothing` | src/api.rs:1911-1929 | In every run a start that comes to the check with a latch set, an unhealthy field, an active batch or another unfinished row never sends a command and never succeeds; all it still does is try to close its own row |
| `Guards.EntryIsExact` | src/api.rs:1264-1272 | The entry of a start turns auto off, takes its snapshot of flags and generations, and goes on exactly under the conditions of its kind |
| `Guards.EntryQueryIsExact` | src/api.rs:1686-1714 | A new start passes the table check exactly if no latch was set, the field is healthy and the runtime accounts for every unfinished row |
| `Guards.V1EntryIsExact` | src/api.rs:3219-3225 | A v1 start is turned away before it touches anything exactly if a batch is active, a row is unfinished or the table cannot be read |
| `Guards.ActivationIsExact` | src/api.rs:1793-1825 | The final interlock activates the batch exactly if latches, health, generations, active batch and the table it read allow it, and otherwise rolls back |
| `Guards.ActivationReadIsExact` | src/api.rs:1740-1768 | The table read for that interlock is in order exactly if the row of the start is the only unfinished one |
| `Compensation.FailedStartIsCompensated` | src/api.rs:1291-1427 | For every pattern of failures, a start that returns an error after issuing its device command returns with a fault latched; if the device had accepted the command, it later accepted stop targets or the runtime holds the batch active, with its activation targets or exactly the last ones assigned since, which are the stop targets of another attempt or those of a component action; an unfinished row of a batch that is not held is one whose closing call did not take effect, and leaves recovery required |
| `Compensation.ErrorReturnIsCompensated` | src/api.rs:3818-3884 | The same for the single step that returns the error, from the invariant alone |
| `Compensation.FailedWriteNeverStops` | src/api.rs:1911-1943 | In every run, from the step in which its device write fails, no step of that start writes stop targets or holds a batch; it never succeeds, and only latches the fault and tries to close its own row |
| `Compensation.RefusedStartOnlyLatches` | src/api.rs:1291-1305 | The same for one step |
| `Compensation.ForcedIsLogged` | src/api.rs:1516-1532 | Every whole target set an effect logs is the one the runtime then has, and without one the targets are kept |
| `Races.HeldTargetsCanBeReplaced` | src/api.rs:1514-1532 | A disciplined run exists in which a failed start holds its batch, the device accepted no stop after the start command, and the targets are the stop targets of an attempt on the batch before it |
| `Races.FailedWriteIsNotStopped` | src/api.rs:1291-1305 | A disciplined run exists in which the device took a start command that reported failure, the start returned its error, and no stop command was ever sent |
| `Compensation.RunKeepsInv` | src/api.rs:3267-3372 | The compensation invariant of every start in flight holds in every state of every disciplined run |
| `LatchWindows.CommitsHappenInQuietWindows` | src/api.rs:1777-1855 | In every run each activation, auto-enable and target commit happened with no latch engaged since its snapshot, cleared again or not; each fault or emergency reset kept its own generation and had no active batch, no unfinished row and a healthy field; automatic control is never on while a latch is set |
| `LatchWindows.NoLostUpdates` | src/modbus_registers.rs:107-217 | In every run, also with component actions that overwrite the targets at any time, the targets are the initial ones with every committed patch and every assigned set applied in log order; `TargetFields` says the same field by field |
| `LatchWindows.WriterCommitsOrLeavesTargets` | src/api.rs:4480-4541 | A refused target write changes neither targets nor log; an accepted one logs exactly its own patch |
| `TargetFields.AcceptedWriteSetsItsFields` | src/modbus_registers.rs:107-217 | In every run, after an accepted write each field the request sets holds that value, and each other field the value it had at the commit, rounded to two decimals |
| `TargetFields.FieldsFollowTheLog` | src/api.rs:4480-4541 | In every state of every run each of the seven fields is the initial one with every logged update of that field applied in order, and is the last value a committed request or an assigned set gave it, as given or rounded to two decimals |
| `TargetFields.MergeIsFieldwise` | src/api.rs:4488-4497 | A patch replaces exactly the fields it sets, and the result is rounded field by field |
| `TargetFields.ReplayIsFieldwise` | src/modbus_registers.rs:133-142 | Replaying the log on the whole set is replaying it on every field alone |
| `TargetFields.CommittedTargetsFit` | src/api.rs:4543-4573 | In every run an accepted write leaves the rounding of a set within the limits of its kind, itself within them when the limits have two decimals; the set tested against the zones lies outside all of them, and is the committed one except for v1 control |
| `TargetFields.ReadSectionIsExact` | src/modbus_registers.rs:107-174 | A request is taken on exactly if it sets the fields its kind demands, is within the limits, its tested set lies outside every zone and, for Modbus, its register can carry the value |
| `TargetFields.PatchShapeIsExact` | src/modbus_registers.rs:123-167 | The shape test is: one field for Modbus, temperature and stirrer and at most the shaker for operators, at least one for AINAS, all for v1 |
| `TargetFields.RunKeepsInv` | src/modbus_registers.rs:644-672 | Every write under way has been tested, in every state of every run |
| `Guards.WriteEntryIsExact` | src/modbus_registers.rs:175-184 | The entry of a target write turns auto off and goes on exactly if no latch is set and the field is healthy |
| `Guards.WriteEntryQueryIsExact` | src/modbus_registers.rs:185-190 | A Modbus write passes its table check exactly if the runtime accounts for every unfinished row |
| `Guards.TargetCommitIsExact` | src/api.rs:1827-1855 | The final interlock commits exactly if latches, health, generations, the table read and, for the kinds that derive from current targets, unchanged targets allow it |
| `Guards.TargetReadIsExact` | src/api.rs:1740-1768 | The table read for that interlock is in order exactly if the runtime accounts for every unfinished row |
| `Guards.AutoEntryIsExact` | src/api.rs:4195-4231 | Auto-enable is taken on exactly if no latch is set, the field is healthy and the runtime accounts for every unfinished row; switching off needs none of it |
| `Guards.AutoEnableIsExact` | src/api.rs:4232-4261 | The final section of auto-enable switches auto on exactly under the same conditions and unchanged generations |
| `Guards.FaultResetIsExact` | src/api.rs:4405-4478 | A fault reset is taken on exactly with a fault, a live control loop and an idle, healthy installation, and clears exactly the fault it acknowledged |
| `Guards.EmergencyResetIsExact` | src/api.rs:4649-4716 | The same for an emergency reset |
| `Undisturbed.UndisturbedWriteCommits` | src/modbus_registers.rs:107-217 | An admissible target write of any kind, no latch set and every unfinished row accounted for, succeeds if nothing fails or interferes, and changes nothing but auto and the targets it asks for |
| `Undisturbed.UndisturbedAutoSwitches` | src/api.rs:4195-4264 | Under its conditions an undisturbed auto switch succeeds and changes nothing else |
| `Undisturbed.UndisturbedEmergencyResetClears` | src/api.rs:4649-4716 | Under its conditions an undisturbed emergency reset clears exactly that latch |
| `Outcomes.SuccessMadeItsCalls` | src/api.rs:3267-3372 | In every run a request that is past one of its device, audit, marking or table calls made that call successfully in an earlier step, so one that succeeded made them all |
| `Outcomes.HandlersAssignOnlyStopOrOwn` | src/api.rs:1516-1532 | In every run handlers assign a whole target set only as the stop targets, or with the activation or the hold of a batch |
| `Outcomes.AutoAfter` | src/state.rs:226-275 | Which effects leave auto on |
| `Outcomes.ActiveAfter` | src/api.rs:1647-1654 | Which effects change the active batch, and to what |
| `Outcomes.LatchAfter` | src/state.rs:226-275 | For each latch, which effects set it, which one clears it, and that every setting below saturation adds one to its counter |
| `Outcomes.UnfinishedAfter` | src/db.rs:2092-2112 | Which effects change the set of unfinished rows, and how |
| `Outcomes.TerminatedLoopStaysFaulted` | src/main.rs:210-219 | In every run, once the control loop has terminated, the fault stays latched and auto off: no reset clears it, not even one under way, unless the fault counter was saturated |
| `LatchWindows.UnchangedMeansQuiet` | src/api.rs:4172-4193 | Equal generations at snapshot and commit mean that the latch was not engaged in between, unless its counter was saturated |
| `LatchWindows.RunKeepsInv` | src/api.rs:4195-4264 | Every handler's acknowledged generations are those of its snapshot position in the log, in every state of every run |
| `Runtime.ChangedSinceIsExact` | src/api.rs:4188-4193 | The generation comparison reports a change exactly when some latch was engaged in between and its counter was not saturated |
| `Runtime.GenerationsOnlyGrow` | src/state.rs:226-275 | Over any sequence of engagements and clears a generation never falls, and moves exactly when its latch was engaged below saturation |
| `Runtime.SaturatedEngagementIsMissed` | src/state.rs:265-275 | At saturation an emergency stop that fires and clears leaves no trace in the comparison |
| `LockedSections.RuntimeState.Recovered` | src/runtime_recovery.rs:5-22 | Building the runtime in place from the rows read gives the recovered runtime of the restart theorems |
| `LockedSections.RuntimeState.LatchControlFault` | src/state.rs:226-234 | The in-place latch is the value-level engagement, and the result says whether auto was on or the reason is new |
| `LockedSections.RuntimeState.EngageManualLock` | src/state.rs:254-258 | The in-place manual lock is the value-level engagement |
| `LockedSections.RuntimeState.EngageEmergencyStop` | src/state.rs:265-269 | The in-place emergency stop is the value-level engagement |
| `LockedSections.RuntimeState.ClearLatch` | src/state.rs:249-275 | Each clear only clears its latch and turns auto off |
| `LockedSections.RuntimeState.LatchesUnchanged` | src/api.rs:1777-1791 | Refuses exactly when a generation changed, and then turns auto off |
| `LockedSections.RuntimeState.CommitActivation` | src/api.rs:1793-1825 | The in-place activation section is the commit step of a start, with the same verdict, for every runtime and choice |
| `LockedSections.RuntimeState.CommitTargets` | src/api.rs:1827-1855 | The in-place target commit is the commit step of a target write, with the same verdict |
| `LockedSections.RuntimeState.EnableAuto` | src/api.rs:4232-4261 | The in-place final section of auto-enable is the final step of the handler, with the same verdict |
| `LockedSections.RuntimeState.ReleaseStopped` | src/api.rs:1647-1654 | The in-place release at the end of a stop is the release step of the handler |
| `Closure.ReleasesAreBacked` | src/api.rs:1483-1664 | In every run, every batch a stop or finish handler released has its stop audit row written within that attempt; within it the device accepted stop targets, or, for a release without a stop, the batch became active only after the attempt had read the runtime; and the batch is finished or missing from then on |
| `Closure.ReleaseIsStoppedIffReadActive` | src/api.rs:3888-4076 | In every run, a release by a stop or finish attempt is of the batch it is on, and comes with a stop if and only if that batch was active when the attempt read the runtime; an attempt that did not read it as active never sends a stop command |
| `Closure.OnlyAttemptsRelease` | src/api.rs:1647-1654 | In every state only a stop or finish attempt in its last section releases a batch |
| `Outcomes.SuccessfulAttemptsClose` | src/api.rs:1483-1664 | In every run, when a stop or finish returns success: its stop audit row was written and, for a stop and a finish of the active batch, the device accepted stop targets, all within the attempt; the row is closed, the batch not active, auto off and, in those cases, the stop targets set |
| `Outcomes.FailedStopIsLatched` | src/api.rs:1483-1664 | A stop that fails after its lookup latches the fault in the step that returns the error |
| `Outcomes.FailedFinishIsLatched` | src/api.rs:3888-4076 | So does a finish of the active batch, except when reading the closed row back fails |
| `Outcomes.FailedWriteLeadsToLatch` | src/api.rs:1513-1515 | A failed device write of an attempt leads to the latch and nothing else |
| `Outcomes.StopIsRefusedIff` | src/api.rs:1483-1500 | A stop is refused before anything is sent exactly without an active batch or with a failed lookup |
| `Outcomes.FinishIsRefusedIff` | src/api.rs:3888-3960 | A finish is refused at its lookup exactly if the lookup fails, or the batch is not active and its row is missing, finished or another batch is active |
| `Outcomes.AuditFollowsReading` | src/api.rs:1533-1646 | The closing audit row is written only for a row that was read back after closing, or was found finished |
| `Outcomes.StopTargetsAreAssigned` | src/api.rs:1514-1532 | After an accepted stop the next section of the attempt assigns the stop targets and turns auto off |
| `Outcomes.FoundRowIsClosed` | src/api.rs:1533-1546 | An attempt closes a row exactly if it found it unfinished |
| `Outcomes.FailedStartTidiesUp` | src/api.rs:1291-1305 | A failed start closes its row unless that call fails too; after an accepted stop it sets the stop targets and does not keep its batch active |
| `Activations.OnceActiveIsStopped` | src/api.rs:3888-4076 | In every run, if the batch was active in any state up to an attempt's reading of the runtime, every release that attempt makes comes with a stop |
| `Activations.BatchesAreActiveOnce` | src/api.rs:1793-1825 | In every run a batch that was active and is not any more is never active again |
| `Closure.FinishTimeIsStampedOnce` | src/db.rs:2092-2112 | In every run a finished row keeps its first finish time |
| `Closure.FailureFreeStopCloses` | src/api.rs:1483-1664 | From any state with an active batch, however earlier attempts failed, one undisturbed failure-free stop closes exactly that batch and leaves stop targets |
| `Closure.FailureFreeFinishCloses` | src/api.rs:3888-4076 | The same for a finish of the active batch, its row present or missing; exactly that row leaves the unfinished set, and of the runtime only active batch, auto and targets change |
| `Closure.OnTrackIdleFinishCloses` | src/api.rs:3888-4022 | With no active batch a failure-free finish closes its row and nothing else |
| `Closure.RunKeepsInv` | src/api.rs:4024-4076 | What each stop and finish attempt has established at its program counter holds in every state of every run |
| `Races.EarlyFinishReleasesUnstopped` | src/api.rs:3888-4022 | A disciplined run exists in which an accepted start is released although the device never received stop targets |
| `Restart.NothingSucceedsBeforeRepair` | src/runtime_recovery.rs:5-22 | In every run from a restart, while any row left unfinished is still unfinished: the fault stays latched, auto is off, and no start, target write, auto-enable or reset has succeeded |
| `Restart.NewestIsClosedFirst` | src/api.rs:3888-4022 | In every run from a restart, until a batch is released the newest one stays active under the fault and every other row left unfinished is still unfinished or lost |
| `Restart.FirstReleaseIsNewest` | src/api.rs:3888-4022 | In every run from a restart, the first batch any attempt releases is the newest one |
| `Restart.RecoverHoldsNewest` | src/runtime_recovery.rs:7-19 | The recovered runtime holds the newest unfinished row under a fault |
| `Restart.IdleFinishesCloseAll` | src/api.rs:3888-4022 | Failure-free finishes in any order remove exactly their rows, one each |
| `Restart.RepairCompletes` | src/runtime_recovery.rs:5-22 | From any restart, finishing the newest row and then the others in any order leaves no unfinished row, no active batch and no recovery required, the fault still latched and the other latches as they were |
| `Restart.RepairedDaemonResumes` | src/api.rs:4405-4478 | After that repair a failure-free fault reset clears the fault, and the next failure-free start of any kind activates its batch with its targets as the only unfinished row |
| `Batches.VerdictIsExact` | src/api.rs:1740-1768 | Read through any window of at least two rows, recovery is required exactly when the whole set of unfinished rows is not the one the runtime accounts for |
| `Batches.OneRowWindowHidesRecovery` | src/db.rs:3489-3508 | A window of one row would hide a second unfinished row |
| `Batches.NoUnclosedIsExact` | src/api.rs:1686-1714 | The pre-start check passes exactly when the expected row is the only unfinished one |
| `Batches.NewestFirstIsExact` | src/db.rs:3489-3508 | The query returns distinct unfinished ids, newest first, as many as fit, all of them when they fit |
| `Batches.FinishRowClosesOne` | src/db.rs:2092-2112 | Finishing a row removes exactly it from the unfinished set and touches no other row |
| `AuditChain.AuditLog.Insert` | src/db.rs:2348-2413 | An insert appends one event chained to the last hash, or refuses out-of-range targets and changes nothing |
| `AuditChain.AuditLog.Verify` | src/db.rs:3868-3899 | The bounded verifier reports on exactly the newest rows within the limit: how many, from which id to which, the last hash, and as broken the rows that disagree with their predecessor or hash, the first row of a truncated window being judged by its own hash only |
| `AuditChain.AuditLog.VerifyAll` | src/db.rs:3944-3997 | The full verifier's loop reports on every hashed row in the same sense |
| `AuditChain.WindowReportIsExact` | src/db.rs:3868-3899 | For any stored rows and limit the report is the one stated over positions of all hashed rows: count, ids, last hash, number of failing rows, and validity exactly if none of the newest rows within the limit fails |
| `AuditChain.WindowRowFails` | src/db.rs:5318-5367 | A row is judged broken in the window exactly if it fails at its position among all hashed rows |
| `AuditChain.WindowCount` | src/db.rs:5318-5367 | The broken count after any number of window rows is the number of failing positions among them |
| `AuditChain.StatusFromEvents` | src/db.rs:5318-5367 | The verifier loop counts exactly the events whose link or hash disagrees with their stored predecessor |
| `AuditChain.BuiltLogVerifies` | src/db.rs:2348-2413 | Every log built by inserts from empty verifies with no broken event, by both verifiers and every limit |
| `AuditChain.BuiltLogIsUnbroken` | src/db.rs:2348-2413 | No event of a built log is broken |
| `AuditChain.BuiltLogIsInRange` | src/db.rs:2348-2413 | Every stored event of a built log has its temperature, stirrer and shaker targets within the accepted ranges |
| `AuditChain.InsertRefusesOutOfRange` | src/db.rs:2348-2413 | An insert is refused exactly if a target value is out of its range |
| `AuditChain.SameLastHashSameLog` | src/db.rs:5369-5392 | For every hash, two complete unbroken logs with the same last hash have the same length and agree on every hashed field and hash, unless an event of the one and an event of the other with different payloads have the same hash |
| `AuditChain.ValidReportsWithSameLastHashAgree` | src/db.rs:3944-3997 | The same from two valid full reports with the same last hash |
| `AuditChain.InjectiveHashShowsTampering` | src/db.rs:5369-5392 | Under an injective hash two valid full reports with the same last hash always come from logs that agree |
| `AuditChain.InjectiveHashExists` | src/db.rs:5369-5392 | There is an injective hash |
| `AuditChain.UserColumnsAreUnprotected` | src/db.rs:5379-5388 | Rewriting actor and role of any event changes no broken count |
| `AuditChain.WindowVerdictsAgree` | src/db.rs:5318-5367 | For any stored rows both verifiers agree on every window event after the first, and the first is broken in the window only if broken in full |
| `AuditChain.WindowRefinesFull` | src/db.rs:3868-3899 | The windowed broken count never exceeds the full one; within the limit the reports agree on every field but the limit; a valid window report means a valid full report |
| `TaskTable.IntegrationTasks.Create` | src/db.rs:2588-2618 | Creation returns the row stored under the external id, or appends one in `received` with the given action and request |
| `TaskTable.IntegrationTasks.MarkExecuting` | src/db.rs:2740-2761 | A received row becomes executing; any other row is returned as it is |
| `TaskTable.IntegrationTasks.Update` | src/db.rs:2685-2706 | Only the addressed row's status and response change |
| `TaskTable.Lookup` | src/db.rs:4289-4308 | Lookup returns the oldest row with the key, and nothing only if there is none |
| `TaskTable.RepairInPlace` | src/db.rs:5791-5838 | For any table and visiting order the in-place repair equals the simultaneous one and changes as many rows as were counted |
| `TaskTable.ConditionIsStable` | src/db.rs:5822-5834 | On a partly repaired table the duplicate condition still gives its original answer |
| `TaskTable.RepairLeavesUniqueKeys` | src/db.rs:5818-5838 | At most one active row is left per (source, external id) |
| `TaskTable.RepairKeepsLookup` | src/db.rs:4289-4308 | Lookup by external id returns the same row with the same contents |
| `TaskTable.RepairChangesExactlyTheCount` | src/db.rs:5791-5838 | The changed rows are exactly the counted ones, only their external id changes, and no row is dropped |
| `TaskTable.ChangedIsExact` | src/db.rs:5818-5838 | A row changes exactly if it has an external id, is received, executing or executed, and an older such row has the same source and id |
| `TaskTable.RepairIsIdempotent` | src/db.rs:5818-5838 | A second repair changes nothing |
| `TaskRuns.TasksRunAtMostOnce` | src/api_integrations.rs:106-186 | In every run whose create-to-claim sections of one key do not overlap, no row is executed twice and no two executed rows share a key |
| `TaskRuns.RunKeepsInv` | src/api_integrations.rs:106-186 | Every request between creation and receipt holds its row alone, in the status its position implies, in every state of every such run |
| `TaskRuns.ReplayOrConflictChangesNothing` | src/api_integrations.rs:128-150 | A request whose key is stored returns the stored record or conflicts, and changes neither table nor device |
| `TaskRuns.DifferentRequestConflicts` | src/api_integrations.rs:188-200 | A request whose key is stored conflicts exactly if the stored action or the stored payload differs |
| `TaskRuns.ClaimIsExact` | src/db.rs:2740-2761 | A claim leads to execution exactly for a received or executing row; any other is returned as it is |
| `TaskRuns.OutcomeIsStored` | src/api_integrations.rs:148-185 | A success is stored as executed, a server error as failed, another error as rejected, with the response, and nothing else changes |
| `TaskRuns.ActionDecidesStatus` | src/api_integrations.rs:148-185 | The stored status is decided by how the action ended |
| `TaskRuns.OverlappingClaimsExecuteTwice` | src/db.rs:2763-2795 | An overlapping run exists that executes one row twice |
| `Frames.ScanFields` | src/device.rs:1836-1848 | The parsers' field loop yields exactly the fields and the last `chk` with its position, or fails at the first part without `=` |
| `Frames.ReadFields` | src/device.rs:1831-1866 | The shared part of the parsers yields exactly the fields or the error of the specification |
| `Frames.FrameParses` | src/device.rs:1825-1866 | A parser that expects the building prefix reads back the frame's fields, the last one trimmed if there is no checksum |
| `FrameLaws.AckRoundTrip` | src/device.rs:1948-2024 | A built acknowledgement parses to itself if and only if prefix, id and error text contain no separator, the prefix starts with no white space, and, without a checksum, the error text ends with none |
| `FrameLaws.SampleRoundTrip` | src/device.rs:2026-2048 | A built sample parses to itself if and only if its prefix fits, its tilt is 0 or 1 and every value lies on the 0.01 grid |
| `FrameLaws.SampleParses` | src/device.rs:1868-1892 | A built sample parses to its values rounded to two decimals, or is refused when prefix or tilt do not fit |
| `FrameLaws.SampleFromIsExact` | src/device.rs:1868-1892 | For any fields, a sample is read exactly if version, aliases in their order, numbers, defaults and tilt say it |
| `FrameLaws.AckFromIsExact` | src/device.rs:1998-2024 | For any fields, an acknowledgement is read exactly if version, type, id, outcome and error text say it |
| `FrameLaws.NumberAnyIsExact` | src/device.rs:2062-2106 | The first key of the list that is present decides the number |
| `FrameLaws.SampleCarriesTime` | src/device.rs:2026-2048 | A built sample carries its time in milliseconds, zero for a time before the epoch |
| `FrameLaws.CommandRoundTrip` | src/device.rs:1894-1934 | A built command, with or without request id, reads back with each of its seven numbers under its own key rounded to two decimals, version 1 and the id as given, if and only if prefix and id contain no separator and the prefix starts with no white space |
| `FrameLaws.CommandLookup` | src/device.rs:1894-1934 | Every number of a command is found printed under its own key |
| `FrameLaws.SampleIsNoAck` | src/device.rs:1970-2024 | No built sample parses as an acknowledgement, whatever prefix and checksum setting the parser has |
| `FrameLaws.AckIsNoSample` | src/device.rs:1825-1892 | No built acknowledgement parses as a sample |
| `FrameLaws.OneChangedByteIsRefused` | src/device.rs:1836-1865 | Replacing any one byte before `\|chk=` of a checksummed sample, command or acknowledgement frame by any other byte makes both parsers refuse it, however the line then splits or trims |
| `FrameLaws.ChecksumIsCompared` | src/device.rs:1850-1865 | A line that ends in some text's checksum is accepted only if what precedes it, trimmed, has that checksum and the expected first part |
| `FrameLaws.LowerCaseChecksumIsAccepted` | src/device.rs:1859-1865 | A frame whose checksum is written in lower-case digits is read like the built one |
| `FrameLaws.FieldBehindChecksumIsRead` | src/device.rs:1839-1858 | A field added behind the checksum is accepted and overrides the frame's own |
| `FrameLaws.AwaitAck` | src/device.rs:551-598 | The wait loop returns the status of the first answer to its own request among the polls, and times out exactly when there is none |
| `FrameLaws.HandshakeEndsWithItsAnswer` | src/device.rs:519-600 | Whatever silence, samples, other answers and one-byte-damaged frames come first, the handshake ends with the downstream's answer to this request: accepted, or rejected with its error text or the default one |
| `Texts.OneByteChangesChecksum` | src/device.rs:2050-2053 | Any one changed byte changes the XOR checksum |
| `Texts.HexIsExact` | src/device.rs:2050-2053 | Hexadecimal checksums compared without case agree exactly when the checksums do |
| `Texts.PrintParse` | src/device.rs:2098-2106 | A value printed with two decimals parses back to the value rounded to two decimals |
| `Texts.ExponentReads` | src/device.rs:2098-2106 | An unsigned exponent of either letter case reads as its digits |
| `Texts.SignedExponentReads` | src/device.rs:2098-2106 | A signed exponent reads as its digits with that sign |
| `Texts.ShiftIsPowerOfTen` | src/device.rs:2098-2106 | Shifting by an exponent multiplies or divides by that power of ten |
| `Texts.PlusReads` | src/device.rs:2098-2106 | A leading plus sign changes no value |
| `Texts.ParseWhole` | src/device.rs:2098-2106 | Digits without a point read as their number, scaled by the exponent that follows |
| `Texts.JoinSplit` | src/device.rs:1831-1857 | Joining the parts of a split line gives the line back |
| `Texts.AsciiSpaceIsExact` | src/device.rs:1825-1835 | The one-byte white space that trimming removes is tab, line feed, vertical tab, form feed, carriage return and space |
| `Texts.Space2IsExact` | src/device.rs:1825-1835 | The two-byte white space is U+0085 and U+00A0 |
| `Texts.Space3IsExact` | src/device.rs:1825-1835 | The three-byte white space is U+1680, U+2000 to U+200A, U+2028, U+2029, U+202F, U+205F and U+3000 |
| `Bridge.JsonBridge.Reconcile` | src/device.rs:678-703 | One call decides from report and caches, and updates the caches only for a command that was written |
| `Bridge.EachCallTakesOneOff` | src/device.rs:1616-1750 | A reconciliation is quiet exactly at measure zero and otherwise takes exactly one off the measure |
| `Bridge.StatusByteReads` | src/device.rs:1809-1811 | Without direct fields the motor is bit 1 and the relay bit 0 of the status byte |
| `Bridge.DirectFieldsRead` | src/device.rs:1629-1703 | A direct field is taken as reported, and motor and relay count as off if neither field nor status byte is there |
| `Bridge.DelayReads` | src/device.rs:1813-1819 | Without a reported speed the step delay gives it: as many cycles of that many steps as fit a minute, rounded to two decimals |
| `Bridge.NoSpeedIsReported` | src/device.rs:1813-1819 | No speed is known exactly without field and without a positive delay and step count |
| `Bridge.ConverterReads` | src/device.rs:1687-1701 | Without a direct temperature the converter line gives it, exactly if it is set up for temperature and there is a reading |
| `Bridge.RefusalIsExact` | src/device.rs:1623-1701 | A reconciliation is refused only for an unusable report or, with relay control, a missing temperature |
| `Bridge.CommandUpdatesItsCache` | src/device.rs:1630-1750 | A motor, speed or stirrer command caches exactly the target it stands for, a relay command nothing |
| `Bridge.UnknownSpeedIsZero` | src/device.rs:1662-1685 | A speed neither reported nor cached counts as zero |
| `Bridge.ReconcilerConverges` | src/device.rs:1616-1750 | With a speed step of at most twice the deadband the reconciler sends exactly as many commands as the initial measure counts, then stays quiet, and is quiet only where the plant agrees with the targets to the deadbands |
| `Bridge.StepBoundIsExact` | src/device.rs:1666-1691 | Every plant falls quiet for every target if and only if the step is at most twice the deadband |
| `Bridge.LargeStepSwings` | src/device.rs:1666-1691 | With a larger step a plant half a step beside its target gets up and down commands in turn, for ever |
| `Bridge.SimulatorSwings` | scripts/simulate-device.js:327-338 | With the default deadband and the simulator's step one such plant never falls quiet |
| `Bridge.UnreportedSpeedIsTrusted` | src/device.rs:1186-1202 | Without a reported speed no speed command follows a motor or speed command for the same targets |
| `Registers.ReadBackIsClose` | src/device.rs:2131-2151 | Decoding an encoded value gives it within half a scale step plus 0.005 |
| `Registers.EncodeIsExact` | src/device.rs:2131-2144 | A value is refused exactly at scale zero or if its nearest word is outside 0 to 65535, and is else encoded as that word |
| `Registers.ReencodeIsExact` | src/device.rs:2131-2151 | For every register and word, encoding the read-back word returns it if and only if the shift of two-decimal rounding, in scale steps, is below one half and at least minus one half, or above it for word zero |
| `Registers.ReencodeIsStable` | src/modbus_registers.rs:688-697 | Encoding a read-back word returns it, for every word, when the scale exceeds 0.01 or scale and offset lie on the grid |
| `Registers.EncodeDecodeEncode` | src/device.rs:2131-2151 | Encode, decode, encode returns the first word under the same condition |
| `Registers.BoundaryStepIsUnstable` | src/number.rs:1-3 | At a scale of exactly 0.01 an offset off the grid loses a word |
| `Registers.FineStepMergesWords` | src/number.rs:1-3 | A finer scale merges neighbouring words |
| `Numbers.Round2Exact` | src/number.rs:1-3 | Rounding lands on the grid, moves a value by at most 0.005, and fixes exactly the grid |
| `Numbers.Round2IsNearest` | src/number.rs:1-3 | No value with two decimals is nearer than the rounded one |
| `Control.GridCommandIsSafe` | src/control.rs:92-169 | On the grid every written command is the stepped value itself, within limits, at most one step from an in-limit sample and in no forbidden zone; when one is written is `Control.WriteIsExact` |
| `Control.WriteIsExact` | src/control.rs:92-169 | A command is written exactly if auto is on, no latch is set, a status is there when required and reports no fault, the sample is there and fresh, and the stepped pair lies outside every forbidden zone |
| `Control.BlockReasonIsFirst` | src/control.rs:92-147 | The reason of a block is the first failing condition, in the order emergency stop, manual lock, fault, auto, status, field fault, command fault, sample, freshness |
| `Control.CommandCarriesTargets` | src/control.rs:148-169 | A written command carries the stepped temperature and stirrer speed and the other five targets, each rounded to two decimals |
| `Control.ZoneTestIsExact` | src/control.rs:155-160 | The zone test finds exactly the pairs that lie strictly outside no side of some zone |
| `Control.OffGridCommandAvoidsInteriors` | src/control.rs:155-164 | Off the grid no command lies in the interior of a grid-aligned zone, although rounding follows the zone test |
| `Control.OffGridCommandCanTouchBoundary` | src/control.rs:155-164 | An off-grid sample can be rounded onto a zone's boundary |
| `Control.OperatorClampIsExact` | src/control.rs:171-189 | With limits on the grid every field of the operator clamp is the nearest two-decimal value within its limits, and exactly the targets that already fit stay unchanged |
| `Control.FollowedRunIsStraight` | src/control.rs:240-244 | A plant that follows unblocked commands walks straight towards the clamped target on both axes |
| `Control.ArrivalIsExact` | src/control.rs:240-244 | That walk is monotone and arrives exactly at the ceiling of distance over step |
| `Control.UnblockedPlantArrives` | src/control.rs:92-169 | The plant is at the clamped target pair exactly from the larger of the two ceilings on |

## Left out

- HTTP routing, JSON extraction, login, tokens, TLS, report export, encryption, backup, serial and Modbus RTU bodies.
- The handlers as async functions: their lock-held commits are in-place methods in `LockedSections`; the interleaving itself is a state machine over values, with one step per lock-held section or call.
- Manual unlock, emergency-stop delivery and the control loop: they appear only as surroundings that may engage or clear the manual lock, engage any latch, write stop targets or turn auto off at any time; nothing is promised about them.
- `apply_ai_targets` and the component actions as handlers: their target writes are surroundings that may overwrite the whole set at any time, so nothing is promised about when they are refused.
- How a start or a v1 request comes to its targets (process steps, parameter defaults, the refusal of a start with both speeds zero): a start carries its targets and a v1 write all seven fields as given, and whether a Modbus register can carry a value is an input of the step.
- Sample freshness and device health: an input of each step, not computed from clocks and status records.
- Messages: control-fault reasons and error texts are carried but not composed.
- Floating point: exact reals replace `f64`, so ties of `{:.2}` printing, overflow to infinity and the shortest-digits output of the JSON hash payload are not modelled.
- The serial line's read timeouts and byte limit: the handshake loop sees a finite sequence of polls, and a line that is not UTF-8 is not told apart from one the parser sees.
- The JSON bridge's own acknowledgement poll and single-component commands.
- Texts.PrintParse: number texts are finite decimals with optional exponent; `inf` and `nan`, which the source rejects after parsing, are rejected while parsing.
- AuditChain.AuditLog.Insert: the timestamp is an input, and its re-formatting between insert and verification is not modelled.
- TaskRuns.TasksRunAtMostOnce: text normalisation of action, source and external id happens before the modelled part, and the receipt-failure latch after an executed action is not part of it.
- Compensation.FailedStartIsCompensated: a stop or a held batch is stated only for a start command the device accepted, because the source sends no stop after a failed write, as `Compensation.FailedWriteNeverStops` states.
- LatchWindows.CommitsHappenInQuietWindows: excepts a latch whose counter was already saturated at the snapshot, because the source's comparison cannot see it.
- Closure.ReleasesAreBacked: a stop command is stated only for the releases whose attempt read the batch as active, because the source sends none otherwise, as `Closure.ReleaseIsStoppedIffReadActive` states.
- Queries made while the runtime lock is held (the reset's and auto-enable's final sections, the check before a start's device write): the section is one step at the instant of the query, so a row inserted between that query and the release of the lock counts as later, and "no unfinished row" holds at the query.
