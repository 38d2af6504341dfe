/**
 What every handler shares: the runtime under its lock, the `batches` table, and a chronological log of
 everything that happened to them and to the device. Each atomic section of a handler has one `Effect`.
 */
module Shared {
  import opened Common
  import opened Control
  import opened Runtime
  import opened Batches

  // ---------- target updates ----------

  /** The fields one request sets; the others are inherited from the targets it read. */
  datatype Patch = Patch(temperature: Option<real>, heat: Option<real>, hold: Option<real>, cool: Option<real>,
                         stirrer: Option<real>, shake: Option<real>, pressure: Option<real>)

  function Or(o: Option<real>, inherited: real): real {
    if o.Some? then o.value else inherited
  }

  function Merge(p: Patch, t: Targets): Targets {
    Targets(Or(p.temperature, t.temperature), Or(p.heat, t.heat), Or(p.hold, t.hold), Or(p.cool, t.cool),
            Or(p.stirrer, t.stirrer), Or(p.shake, t.shake), Or(p.pressure, t.pressure))
  }

  /** The validators round every field of the merged set. */
  function ApplyPatch(p: Patch, t: Targets): Targets {
    RoundAll(Merge(p, t))
  }

  /** How many fields a patch sets. */
  function FieldCount(p: Patch): nat {
    (if p.temperature.Some? then 1 else 0) + (if p.heat.Some? then 1 else 0) + (if p.hold.Some? then 1 else 0) +
    (if p.cool.Some? then 1 else 0) + (if p.stirrer.Some? then 1 else 0) + (if p.shake.Some? then 1 else 0) +
    (if p.pressure.Some? then 1 else 0)
  }

  // ---------- the log ----------

  /**
   `since` is the length of the log when the acting handler took its snapshot. The remaining fields record
   what the runtime, the table and the field looked like in the atomic section that logged the event.
   */
  datatype Event =
    | Engaged(latch: Latch)
    | ManualUnlocked
    | FaultCleared(since: nat, active: Option<int>, unfinished: set<int>, healthy: bool)
    | EmergencyCleared(since: nat, active: Option<int>, unfinished: set<int>, healthy: bool)
    | StartWritten(row: int, active: Option<int>)
    | StopWritten
    | StopAudited(batch: int)
    | Activated(batch: int, since: nat, replaced: Option<int>)
    | AutoEnabled(since: nat)
    | TargetsCommitted(patch: Patch, since: nat)
    | TargetsForced(targets: Targets)
    | TargetsOverwritten(targets: Targets)
    | HeldActive(batch: int, replaced: Option<int>)
    | Released(batch: int, since: nat, stopped: bool)

  datatype Shared = Shared(
    rt: Runtime,
    rows: Table, nextId: int,
    log: seq<Event>,
    origin: Runtime,        // the runtime at the start of the run
    stopTargets: Targets)   // process_stop_targets, fixed by the configuration

  // ---------- effects of atomic sections ----------

  datatype Effect =
    | Nothing
    | AutoOff
    | EngageLatch(latch: Latch, reason: string)
    | TerminateLoop(reason: string)
    | Unlock
    | ClearFault(since: nat, healthy: bool)
    | ClearEmergency(since: nat, healthy: bool)
    | InsertRow
    | CloseRow(row: int, now: nat)
    | LoseRow(row: int)
    | WriteStart(row: int)
    | WriteStop
    | AuditStop(batch: int)
    | Activate(batch: int, targets: Targets, autoOn: bool, since: nat)
    | EnableAuto(since: nat)
    | CommitTargets(patch: Patch, targets: Targets, since: nat)
    | ForceTargets(targets: Targets)
    | ForceTargetsAndFault(targets: Targets, reason: string)
    | OverwriteTargets(targets: Targets)
    | Release(batch: int, settle: Option<Targets>, since: nat)
    | Hold(batch: int, targets: Targets, reason: string)
    | RollBack(batch: int, targets: Targets)

  function Apply(sh: Shared, e: Effect): Shared {
    match e
    case Nothing => sh
    case AutoOff => sh.(rt := sh.rt.(auto := false))
    case EngageLatch(latch, reason) =>
      sh.(rt := sh.rt.Engage(latch, reason), log := sh.log + [Engaged(latch)])
    case TerminateLoop(reason) =>
      sh.(rt := sh.rt.Engage(ControlFault, reason).(loopTerminated := true), log := sh.log + [Engaged(ControlFault)])
    case Unlock =>
      sh.(rt := sh.rt.Clear(ManualLock), log := sh.log + [ManualUnlocked])
    case ClearFault(since, healthy) =>
      sh.(rt := sh.rt.Clear(ControlFault),
          log := sh.log + [FaultCleared(since, sh.rt.active, Unfinished(sh.rows), healthy)])
    case ClearEmergency(since, healthy) =>
      sh.(rt := sh.rt.Clear(EmergencyStop),
          log := sh.log + [EmergencyCleared(since, sh.rt.active, Unfinished(sh.rows), healthy)])
    case InsertRow =>
      sh.(rows := sh.rows[sh.nextId := Row(None)], nextId := sh.nextId + 1)
    case CloseRow(row, now) =>
      sh.(rows := FinishRow(sh.rows, row, now))
    case LoseRow(row) =>
      sh.(rows := sh.rows - {row})
    case WriteStart(row) =>
      sh.(log := sh.log + [StartWritten(row, sh.rt.active)])
    case WriteStop =>
      sh.(log := sh.log + [StopWritten])
    case AuditStop(batch) =>
      sh.(log := sh.log + [StopAudited(batch)])
    case Activate(batch, targets, autoOn, since) =>
      sh.(rt := sh.rt.(targets := targets, active := Some(batch), auto := autoOn),
          log := sh.log + [TargetsForced(targets), Activated(batch, since, sh.rt.active)])
    case EnableAuto(since) =>
      sh.(rt := sh.rt.(auto := true), log := sh.log + [AutoEnabled(since)])
    case CommitTargets(patch, targets, since) =>
      sh.(rt := sh.rt.(targets := targets), log := sh.log + [TargetsCommitted(patch, since)])
    case ForceTargets(targets) =>
      sh.(rt := sh.rt.(targets := targets, auto := false), log := sh.log + [TargetsForced(targets)])
    case ForceTargetsAndFault(targets, reason) =>
      sh.(rt := sh.rt.(targets := targets).Engage(ControlFault, reason),
          log := sh.log + [TargetsForced(targets), Engaged(ControlFault)])
    case OverwriteTargets(targets) =>
      sh.(rt := sh.rt.(targets := targets), log := sh.log + [TargetsOverwritten(targets)])
    case Release(batch, settle, since) =>
      var forced := if settle.Some? then [TargetsForced(settle.value)] else [];
      var cleared := if sh.rt.active == Some(batch) then [Released(batch, since, settle.Some?)] else [];
      sh.(rt := sh.rt.(active := if sh.rt.active == Some(batch) then None else sh.rt.active,
                       auto := false,
                       targets := if settle.Some? then settle.value else sh.rt.targets),
          log := sh.log + forced + cleared)
    case Hold(batch, targets, reason) =>
      sh.(rt := sh.rt.(active := Some(batch), targets := targets).Engage(ControlFault, reason),
          log := sh.log + [TargetsForced(targets), Engaged(ControlFault), HeldActive(batch, sh.rt.active)])
    case RollBack(batch, targets) =>
      var mine := sh.rt.active == Some(batch);
      sh.(rt := sh.rt.(active := if mine then None else sh.rt.active,
                       auto := if mine then false else sh.rt.auto,
                       targets := targets),
          log := sh.log + [TargetsForced(targets)])
  }

  /** Only the effect that clears it takes a fault away. */
  lemma FaultStays(sh: Shared, e: Effect)
    requires sh.rt.fault.Some? && !e.ClearFault?
    ensures Apply(sh, e).rt.fault.Some?
  {
  }
}
