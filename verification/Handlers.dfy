/**
 The handlers as programs: one program counter per atomic section (a lock-held section, or a single
 database or device call), and a step function that maps the shared state, the handler and the outcome
 of the call to an effect and the next program counter.
 */
module Handlers {
  import opened Common
  import opened Control
  import opened Runtime
  import opened Batches
  import opened Shared

  /**
   What the surroundings decide in one step: did the call succeed, did a failed call take effect all the same, is the
   field proven healthy, the clock, the text.
   */
  datatype Choice = Choice(ok: bool, applied: bool, healthy: bool, now: nat, reason: string)

  /** The effect of a database or device call: a call that reports failure may or may not have happened. */
  function Attempt(c: Choice, e: Effect): Effect {
    if TookEffect(c) then e else Nothing
  }

  predicate TookEffect(c: Choice) { c.ok || c.applied }

  /** SELECT ... WHERE finished_at IS NULL ORDER BY id DESC LIMIT 100 */
  function ReadUnfinished(sh: Shared): seq<int> {
    NewestFirst(Unfinished(sh.rows), READ_LIMIT)
  }

  /** `ensure_persisted_batch_status_consistent` on the rows read. */
  predicate Consistent(list: seq<int>, active: Option<int>) {
    !StatusOf(list, active).RecoveryRequired()
  }

  /** The runtime as a handler saw it under the lock, with the position of the log at that moment. */
  datatype Snapshot = Snapshot(active: Option<int>, clear: bool, since: nat, ack: Generations) {
    static function Of(sh: Shared): Snapshot {
      Snapshot(sh.rt.active, sh.rt.LatchesClear(), |sh.log|, Generations.From(sh.rt))
    }
  }

  const NO_SNAPSHOT := Snapshot(None, false, 0, Generations(0, 0, 0))

  // ---------- starts: start_process_lifecycle, start_batch, v1_control with auto_start ----------

  datatype StartKind = ProcessStart | BatchStart | V1Start

  datatype StartPc =
    | SPreRead | SPreQuery | SEnter | SEnterQuery | SInsert | SPreCheck | SWrite
    | SWriteLatch | SFailAudit | SFailFinish
    | SAudit | SMarkApplied | SCommitQuery | SCommit
    | SRollStop | SRollStopLatch | SRollHold | SRollClear | SRollFinish | STailLatch
    | SDone(ok: bool)

  /** The start command: not sent yet, sent and refused by the device, or accepted at a position of the log. */
  datatype Command = Unsent | Refused | Accepted(at: nat)

  datatype Start = Start(
    kind: StartKind, targets: Targets, pc: StartPc, snap: Snapshot,
    row: int, list: seq<int>, command: Command,
    held: Option<nat>,   // where the log records that a failed rollback kept the batch active
    unclosed: bool)      // the call that should have closed the row did not take effect

  function NewStart(kind: StartKind, targets: Targets): Start {
    Start(kind, targets, if kind == V1Start then SPreRead else SEnter, NO_SNAPSHOT, 0, [], Unsent, None, false)
  }

  function StartStep(sh: Shared, l: Start, c: Choice): (Effect, Start) {
    match l.pc
    case SPreRead =>
      (Nothing, l.(pc := if sh.rt.active.Some? then SDone(false) else SPreQuery))
    case SPreQuery =>
      (Nothing, l.(pc := if c.ok && NoUnclosedExcept(ReadUnfinished(sh), None, None) then SEnter else SDone(false)))
    case SEnter =>
      var next := match l.kind
        case ProcessStart => if sh.rt.active.Some? then SDone(false) else SEnterQuery
        case BatchStart => SEnterQuery
        case V1Start => if sh.rt.InterlockClear(c.healthy) then SInsert else SDone(false);
      (AutoOff, l.(snap := Snapshot.Of(sh), pc := next))
    case SEnterQuery =>
      (Nothing, l.(pc := if && c.ok && NoUnclosedExcept(ReadUnfinished(sh), l.snap.active, None)
                            && l.snap.clear && c.healthy
                         then SInsert else SDone(false)))
    case SInsert =>
      (Attempt(c, InsertRow), if c.ok then l.(row := sh.nextId, pc := SPreCheck) else l.(pc := SDone(false)))
    case SPreCheck =>
      // the read lock is held across the query, so the runtime cannot change in between
      if && sh.rt.active.None? && c.ok
         && NoUnclosedExcept(ReadUnfinished(sh), sh.rt.active, Some(l.row))
         && sh.rt.InterlockClear(c.healthy)
      then (Nothing, l.(pc := SWrite))
      else (Nothing, l.(pc := SFailAudit))
    case SWrite =>
      (Attempt(c, WriteStart(l.row)),
       if c.ok then l.(command := Accepted(|sh.log|), pc := SAudit) else l.(command := Refused, pc := SWriteLatch))
    case SWriteLatch =>
      (EngageLatch(ControlFault, c.reason), l.(pc := SFailAudit))
    case SFailAudit =>
      (Nothing, l.(pc := SFailFinish))     // a failed audit is only reported
    case SFailFinish =>
      (Attempt(c, CloseRow(l.row, c.now)), l.(unclosed := !TookEffect(c), pc := SDone(false)))
    case SAudit =>
      (Nothing, l.(pc := if !c.ok then SRollStop else if l.kind == ProcessStart then SMarkApplied else SCommitQuery))
    case SMarkApplied =>
      (Nothing, l.(pc := if c.ok then SCommitQuery else SRollStop))
    case SCommitQuery =>
      (Nothing, if c.ok then l.(list := ReadUnfinished(sh), pc := SCommit) else l.(pc := SRollStop))
    case SCommit =>
      if !sh.rt.InterlockClear(c.healthy) then (Nothing, l.(pc := SRollStop))
      else if l.snap.ack.ChangedSince(sh.rt) then (AutoOff, l.(pc := SRollStop))
      else if sh.rt.active.Some? then (Nothing, l.(pc := SRollStop))
      else if !Consistent(l.list, Some(l.row)) then (Nothing, l.(pc := SRollStop))
      else (Activate(l.row, l.targets, l.kind != BatchStart, l.snap.since), l.(pc := SDone(true)))
    case SRollStop =>
      (Attempt(c, WriteStop), l.(pc := if c.ok then SRollClear else SRollStopLatch))
    case SRollStopLatch =>
      (EngageLatch(ControlFault, c.reason), l.(pc := SRollHold))
    case SRollHold =>
      (Hold(l.row, l.targets, c.reason), l.(held := Some(|sh.log| + 2), pc := STailLatch))
    case SRollClear =>
      (RollBack(l.row, sh.stopTargets), l.(pc := SRollFinish))
    case SRollFinish =>
      (Attempt(c, CloseRow(l.row, c.now)), l.(unclosed := !TookEffect(c), pc := STailLatch))
    case STailLatch =>
      (EngageLatch(ControlFault, c.reason), l.(pc := SDone(false)))
    case SDone(_) => (Nothing, l)
  }

  // ---------- target writes: Modbus, operator, AINAS, v1 control without auto_start, v1 process load ----------

  datatype WriterKind = ModbusWrite | OperatorWrite | AinasWrite | V1Write | V1Load

  datatype WriterPc = WRead | WEnter | WEnterQuery | WAudit | WCommitQuery | WCommit | WDone(ok: bool)

  datatype Writer = Writer(
    kind: WriterKind, patch: Patch, pc: WriterPc,
    current: Targets, next: Targets, snap: Snapshot, list: seq<int>)

  datatype Limits = Limits(maxTemperature: real, maxStirrer: real, maxHeat: real, maxHold: real, zones: seq<Zone>)

  /** AINAS and the v1 forms take their heating and holding limits from the configuration. */
  predicate ConfiguresDurations(kind: WriterKind) {
    kind == AinasWrite || kind == V1Write || kind == V1Load
  }

  /** The range validators of the merged target set. */
  predicate InRange(lim: Limits, kind: WriterKind, t: Targets) {
    && 0.0 <= t.temperature <= 500.0 && t.temperature <= lim.maxTemperature
    && 0.0 <= t.stirrer <= 2000.0 && t.stirrer <= lim.maxStirrer
    && 0.0 <= t.shake <= 60.0 && 0.0 <= t.pressure <= 10.0
    && 0.0 <= t.heat <= (if ConfiguresDurations(kind) then lim.maxHeat else 3600.0)
    && 0.0 <= t.hold <= (if ConfiguresDurations(kind) then lim.maxHold else 7200.0)
    && 0.0 <= t.cool <= 3600.0
  }

  predicate ZoneFree(lim: Limits, t: Targets) {
    forall i :: 0 <= i < |lim.zones| ==> !lim.zones[i].Contains(t.temperature, t.stirrer)
  }

  /** The values tested against the forbidden zones: v1 control tests before rounding, every other kind after. */
  function ZoneTested(kind: WriterKind, merged: Targets): Targets {
    if kind == V1Write then merged else RoundAll(merged)
  }

  /** Whether the kind reads the current targets first and compares against them at commit. */
  predicate ComparesTargets(kind: WriterKind) {
    kind == ModbusWrite || kind == OperatorWrite || kind == AinasWrite
  }

  function NewWriter(kind: WriterKind, patch: Patch): Writer {
    var zero := Targets(0.0, 0.0, 0.0, 0.0, 0.0, 0.0, 0.0);
    Writer(kind, patch, WRead, zero, zero, NO_SNAPSHOT, [])
  }

  /** A Modbus write sets one field, the operator form three at most, AINAS any, the v1 forms all of them. */
  predicate PatchFits(kind: WriterKind, p: Patch) {
    match kind
    case ModbusWrite => FieldCount(p) == 1
    case OperatorWrite =>
      p.temperature.Some? && p.stirrer.Some? && p.heat.None? && p.hold.None? && p.cool.None? && p.pressure.None?
    case AinasWrite => FieldCount(p) >= 1
    case V1Write | V1Load => FieldCount(p) == 7
  }

  function WriterStep(sh: Shared, lim: Limits, l: Writer, c: Choice): (Effect, Writer) {
    match l.pc
    case WRead =>
      var merged := Merge(l.patch, sh.rt.targets);
      var next := ApplyPatch(l.patch, sh.rt.targets);
      (Nothing, l.(current := sh.rt.targets, next := next,
                   pc := if && PatchFits(l.kind, l.patch) && InRange(lim, l.kind, merged)
                            && ZoneFree(lim, ZoneTested(l.kind, merged))
                            && (l.kind == ModbusWrite ==> c.ok) // false when the register cannot carry the value
                         then WEnter else WDone(false)))
    case WEnter =>
      (AutoOff, l.(snap := Snapshot.Of(sh),
                   pc := if !sh.rt.InterlockClear(c.healthy) then WDone(false)
                         else if l.kind == ModbusWrite then WEnterQuery else WAudit))
    case WEnterQuery =>
      (Nothing, l.(pc := if c.ok && Consistent(ReadUnfinished(sh), l.snap.active) then WAudit else WDone(false)))
    case WAudit =>
      (Nothing, l.(pc := if c.ok then WCommitQuery else WDone(false)))
    case WCommitQuery =>
      (Nothing, if c.ok then l.(list := ReadUnfinished(sh), pc := WCommit) else l.(pc := WDone(false)))
    case WCommit =>
      if !sh.rt.InterlockClear(c.healthy) then (Nothing, l.(pc := WDone(false)))
      else if l.snap.ack.ChangedSince(sh.rt) then (AutoOff, l.(pc := WDone(false)))
      else if !Consistent(l.list, sh.rt.active) then (Nothing, l.(pc := WDone(false)))
      else if ComparesTargets(l.kind) && sh.rt.targets != l.current then (AutoOff, l.(pc := WDone(false)))
      else (CommitTargets(l.patch, l.next, l.snap.since), l.(pc := WDone(true)))
    case WDone(_) => (Nothing, l)
  }

  // ---------- set_auto ----------

  datatype AutoPc = AEnter | AEnterQuery | AAudit | AFinal | ADone(ok: bool)

  datatype Auto = Auto(enable: bool, pc: AutoPc, snap: Snapshot)

  function NewAuto(enable: bool): Auto {
    Auto(enable, AEnter, NO_SNAPSHOT)
  }

  function AutoStep(sh: Shared, l: Auto, c: Choice): (Effect, Auto) {
    match l.pc
    case AEnter =>
      (AutoOff, l.(snap := Snapshot.Of(sh), pc := if l.enable then AEnterQuery else AAudit))
    case AEnterQuery =>
      (Nothing, l.(pc := if l.snap.clear && c.healthy && c.ok && Consistent(ReadUnfinished(sh), l.snap.active)
                         then AAudit else ADone(false)))
    case AAudit =>
      (Nothing, l.(pc := if !c.ok then ADone(false) else if l.enable then AFinal else ADone(true)))
    case AFinal =>
      // the write lock is held across the query
      if !sh.rt.InterlockClear(c.healthy) then (Nothing, l.(pc := ADone(false)))
      else if l.snap.ack.ChangedSince(sh.rt) then (AutoOff, l.(pc := ADone(false)))
      else if !(c.ok && Consistent(ReadUnfinished(sh), sh.rt.active)) then (Nothing, l.(pc := ADone(false)))
      else (EnableAuto(l.snap.since), l.(pc := ADone(true)))
    case ADone(_) => (Nothing, l)
  }

  // ---------- reset_control_fault, reset_emergency_stop ----------
  // A section that queries the table while it holds the runtime lock is one step, taken at the query: nobody sees the
  // runtime before the lock is released, and the table steps of others in between do not touch the runtime.

  datatype ResetPc = REnter | REnterQuery | RAudit | RFinal | RDone(ok: bool)

  datatype Reset = Reset(
    latch: Latch, pc: ResetPc, seenActive: Option<int>, since: nat, ackGen: u64, ackError: Option<string>)

  function NewReset(latch: Latch): Reset {
    Reset(latch, REnter, None, 0, 0, None)
  }

  /** No active batch, consistent persisted batches, a fresh sample and a healthy device. */
  predicate ResetAllowed(sh: Shared, c: Choice, active: Option<int>) {
    active.None? && c.ok && Consistent(ReadUnfinished(sh), active) && c.healthy
  }

  function FaultResetStep(sh: Shared, l: Reset, c: Choice): (Effect, Reset) {
    match l.pc
    case REnter =>
      if sh.rt.fault.None? || sh.rt.loopTerminated then (Nothing, l.(pc := RDone(false)))
      else (AutoOff, l.(since := |sh.log|, ackGen := sh.rt.faultGen, ackError := sh.rt.fault,
                        pc := if ResetAllowed(sh, c, sh.rt.active) then RAudit else RDone(false)))
    case RAudit => (Nothing, l.(pc := if c.ok then RFinal else RDone(false)))
    case RFinal =>
      if ResetAllowed(sh, c, sh.rt.active) && sh.rt.faultGen == l.ackGen && sh.rt.fault == l.ackError
      then (ClearFault(l.since, c.healthy), l.(pc := RDone(true)))
      else (AutoOff, l.(pc := RDone(false)))
    case REnterQuery => (Nothing, l.(pc := RDone(false)))   // the fault reset has no such section
    case RDone(_) => (Nothing, l)
  }

  function EmergencyResetStep(sh: Shared, l: Reset, c: Choice): (Effect, Reset) {
    match l.pc
    case REnter =>
      if !sh.rt.emergencyStop then (Nothing, l.(pc := RDone(false)))
      else (AutoOff, l.(seenActive := sh.rt.active, since := |sh.log|, ackGen := sh.rt.emergencyGen, pc := REnterQuery))
    case REnterQuery => (Nothing, l.(pc := if ResetAllowed(sh, c, l.seenActive) then RAudit else RDone(false)))
    case RAudit => (Nothing, l.(pc := if c.ok then RFinal else RDone(false)))
    case RFinal =>
      if !sh.rt.emergencyStop || sh.rt.emergencyGen != l.ackGen then (AutoOff, l.(pc := RDone(false)))
      else if ResetAllowed(sh, c, sh.rt.active) then (ClearEmergency(l.since, c.healthy), l.(pc := RDone(true)))
      else if sh.rt.active.None? && c.ok && Consistent(ReadUnfinished(sh), sh.rt.active)
      then (AutoOff, l.(pc := RDone(false)))
      else (Nothing, l.(pc := RDone(false)))
    case RDone(_) => (Nothing, l)
  }

  function ResetStep(sh: Shared, l: Reset, c: Choice): (Effect, Reset) {
    match l.latch
    case ControlFault => FaultResetStep(sh, l, c)
    case EmergencyStop => EmergencyResetStep(sh, l, c)
    case ManualLock => (Nothing, l.(pc := RDone(false)))
  }

  // ---------- stop_process_lifecycle ----------

  datatype StopPc =
    | PRead | PLookup | PWrite | PWriteLatch | PSettle | PFinish | PReload | PAudit | PMissingAudit
    | PTailLatch | PRelease | PDone(ok: bool)

  datatype Stop = Stop(pc: StopPc, batch: int, seen: Option<Row>, since: nat)

  function NewStop(): Stop { Stop(PRead, 0, None, 0) }

  function Lookup(rows: Table, id: int): Option<Row> {
    if id in rows then Some(rows[id]) else None
  }

  function StopStep(sh: Shared, l: Stop, c: Choice): (Effect, Stop) {
    match l.pc
    case PRead =>
      if sh.rt.active.None? then (Nothing, l.(pc := PDone(false)))
      else (Nothing, l.(batch := sh.rt.active.value, since := |sh.log|, pc := PLookup))
    case PLookup =>
      // c.ok is false when the read fails or the batch belongs to another process
      (Nothing, if c.ok then l.(seen := Lookup(sh.rows, l.batch), pc := PWrite) else l.(pc := PDone(false)))
    case PWrite =>
      (Attempt(c, WriteStop), l.(pc := if c.ok then PSettle else PWriteLatch))
    case PWriteLatch => (EngageLatch(ControlFault, c.reason), l.(pc := PDone(false)))
    case PSettle =>
      if sh.rt.active != Some(l.batch)
      then (ForceTargetsAndFault(sh.stopTargets, c.reason), l.(pc := PDone(false)))
      else (ForceTargets(sh.stopTargets),
            l.(pc := if l.seen.None? then PMissingAudit else if l.seen.value.finishedAt.Some? then PAudit else PFinish))
    case PFinish =>
      (Attempt(c, CloseRow(l.batch, c.now)), l.(pc := if c.ok then PReload else PTailLatch))
    case PReload =>
      (Nothing, l.(pc := if c.ok && l.batch in sh.rows then PAudit else PTailLatch))
    case PAudit =>
      (Attempt(c, AuditStop(l.batch)), l.(pc := if c.ok then PRelease else PTailLatch))
    case PMissingAudit =>
      (Attempt(c, AuditStop(l.batch)), l.(pc := if c.ok then PRelease else PTailLatch))
    case PTailLatch => (EngageLatch(ControlFault, c.reason), l.(pc := PDone(false)))
    case PRelease => (Release(l.batch, Some(sh.stopTargets), l.since), l.(pc := PDone(true)))
    case PDone(_) => (Nothing, l)
  }

  // ---------- finish_batch and finish_missing_active_batch_recovery ----------

  datatype FinishPc =
    | FRead | FLookup | FWrite | FWriteLatch | FSettle | FClose | FReload | FAudit
    | FMissingWrite | FMissingSettle | FMissingAudit
    | FTailLatch | FRelease | FDone(ok: bool)

  datatype Finish = Finish(pc: FinishPc, batch: int, seenActive: Option<int>, seen: Option<Row>, since: nat) {
    predicate WasActive() { seenActive == Some(batch) }
  }

  function NewFinish(batch: int): Finish { Finish(FRead, batch, None, None, 0) }

  function FinishStep(sh: Shared, l: Finish, c: Choice): (Effect, Finish) {
    match l.pc
    case FRead => (Nothing, l.(seenActive := sh.rt.active, since := |sh.log|, pc := FLookup))
    case FLookup =>
      var found := Lookup(sh.rows, l.batch);
      (Nothing, l.(seen := found,
                   pc := if !c.ok then FDone(false)
                         else if found.None? then (if l.WasActive() then FMissingWrite else FDone(false))
                         else if found.value.finishedAt.Some? && !l.WasActive() then FDone(false)
                         else if l.seenActive.Some? && !l.WasActive() then FDone(false)
                         else if l.WasActive() then FWrite else FSettle))
    case FWrite => (Attempt(c, WriteStop), l.(pc := if c.ok then FSettle else FWriteLatch))
    case FWriteLatch => (EngageLatch(ControlFault, c.reason), l.(pc := FDone(false)))
    case FSettle =>
      var next := if l.seen.Some? && l.seen.value.finishedAt.None? then FClose else FReload;
      if !l.WasActive() then (AutoOff, l.(pc := next))
      else if sh.rt.active != Some(l.batch)
      then (ForceTargetsAndFault(sh.stopTargets, c.reason), l.(pc := FDone(false)))
      else (ForceTargets(sh.stopTargets), l.(pc := next))
    case FClose =>
      (Attempt(c, CloseRow(l.batch, c.now)),
       l.(pc := if c.ok then FReload else if l.WasActive() then FTailLatch else FDone(false)))
    case FReload =>
      // a failed read returns at once; a missing or still unfinished row is latched for an active batch
      (Nothing, l.(pc := if !c.ok then FDone(false)
                         else if l.batch in sh.rows && sh.rows[l.batch].finishedAt.Some? then FAudit
                         else if l.WasActive() then FTailLatch else FDone(false)))
    case FAudit =>
      (Attempt(c, AuditStop(l.batch)),
       l.(pc := if c.ok then FRelease else if l.WasActive() then FTailLatch else FDone(false)))
    case FMissingWrite => (Attempt(c, WriteStop), l.(pc := if c.ok then FMissingSettle else FWriteLatch))
    case FMissingSettle => (ForceTargets(sh.stopTargets), l.(pc := FMissingAudit))
    case FMissingAudit =>
      (Attempt(c, AuditStop(l.batch)), l.(pc := if c.ok then FRelease else FTailLatch))
    case FTailLatch => (EngageLatch(ControlFault, c.reason), l.(pc := FDone(false)))
    case FRelease =>
      (Release(l.batch, if l.WasActive() then Some(sh.stopTargets) else None, l.since), l.(pc := FDone(true)))
    case FDone(_) => (Nothing, l)
  }

  // ---------- all handlers ----------

  datatype Handler =
    | HStart(start: Start)
    | HWriter(writer: Writer)
    | HAuto(autoReq: Auto)
    | HReset(reset: Reset)
    | HStop(stop: Stop)
    | HFinish(finish: Finish)

  predicate IsNew(h: Handler) {
    match h
    case HStart(l) => l == NewStart(l.kind, l.targets)
    case HWriter(l) => l == NewWriter(l.kind, l.patch)
    case HAuto(l) => l == NewAuto(l.enable)
    case HReset(l) => l == NewReset(l.latch)
    case HStop(l) => l == NewStop()
    case HFinish(l) => l == NewFinish(l.batch)
  }

  function HandlerStep(sh: Shared, lim: Limits, h: Handler, c: Choice): (Effect, Handler) {
    match h
    case HStart(l) => var r := StartStep(sh, l, c); (r.0, HStart(r.1))
    case HWriter(l) => var r := WriterStep(sh, lim, l, c); (r.0, HWriter(r.1))
    case HAuto(l) => var r := AutoStep(sh, l, c); (r.0, HAuto(r.1))
    case HReset(l) => var r := ResetStep(sh, l, c); (r.0, HReset(r.1))
    case HStop(l) => var r := StopStep(sh, l, c); (r.0, HStop(r.1))
    case HFinish(l) => var r := FinishStep(sh, l, c); (r.0, HFinish(r.1))
  }
}
