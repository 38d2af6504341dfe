/**
 The lock-held sections that change `RuntimeState`, as methods that update its fields in place in the order the
 handlers do. Each is proved to be the atomic step the interleaving model takes at that point.
 */
module LockedSections {
  import opened Common
  import opened Control
  import opened Runtime
  import opened Batches
  import opened Shared
  import opened Handlers
  import Restart

  class RuntimeState {
    var targets: Targets
    var auto: bool
    var manualLock: bool
    var manualGen: u64
    var emergencyStop: bool
    var emergencyGen: u64
    var fault: Option<string>
    var faultGen: u64
    var active: Option<int>
    var loopTerminated: bool

    /** A clone of the state, as the handlers take one under the lock. */
    function Value(): Runtime
      reads this
    {
      Runtime(targets, auto, manualLock, manualGen, emergencyStop, emergencyGen, fault, faultGen, active,
              loopTerminated)
    }

    /** recover_runtime_from_db, given the rows read with the limit of 100. */
    constructor Recovered(initial: Runtime, unfinished: seq<int>, reason: string)
      ensures Value() == Restart.RecoverFrom(initial, unfinished, reason)
    {
      targets, loopTerminated := initial.targets, initial.loopTerminated;
      manualLock, manualGen := initial.manualLock, initial.manualGen;
      emergencyStop, emergencyGen := initial.emergencyStop, initial.emergencyGen;
      fault, faultGen := initial.fault, initial.faultGen;
      auto, active := initial.auto, initial.active;
      new;
      if unfinished != [] {
        active := Some(unfinished[0]);
        auto := false;
        var _ := LatchControlFault(reason);
      }
    }

    /** Whether the caller should report the fault: auto was on, or the reason is new. */
    method LatchControlFault(reason: string) returns (changed: bool)
      modifies this
      ensures Value() == old(Value()).Engage(ControlFault, reason)
      ensures changed <==> old(auto) || old(fault) != Some(reason)
    {
      changed := auto || fault != Some(reason);
      faultGen := SaturatingInc(faultGen);
      fault := Some(reason);
      auto := false;
    }

    method EngageManualLock()
      modifies this
      ensures Value() == old(Value()).Engage(ManualLock, "")
    {
      manualLock := true;
      manualGen := SaturatingInc(manualGen);
      auto := false;
    }

    method EngageEmergencyStop()
      modifies this
      ensures Value() == old(Value()).Engage(EmergencyStop, "")
    {
      emergencyStop := true;
      emergencyGen := SaturatingInc(emergencyGen);
      auto := false;
    }

    method ClearLatch(latch: Latch)
      modifies this
      ensures Value() == old(Value()).Clear(latch)
    {
      match latch {
        case ManualLock => manualLock := false;
        case EmergencyStop => emergencyStop := false;
        case ControlFault => fault := None;
      }
      auto := false;
    }

    /** ensure_safety_latches_unchanged_for_commit */
    method LatchesUnchanged(ack: Generations) returns (ok: bool)
      modifies this`auto
      ensures ok <==> !ack.ChangedSince(old(Value()))
      ensures auto == (ok && old(auto))
    {
      ok := !ack.ChangedSince(Value());
      if !ok { auto := false; }
    }

    /** commit_process_activation_after_final_interlock */
    method CommitActivation(l: Start, healthy: bool, ghost sh: Shared, ghost c: Choice) returns (ok: bool)
      requires l.pc == SCommit && sh.rt == Value() && c.healthy == healthy
      modifies this
      ensures Value() == Apply(sh, StartStep(sh, l, c).0).rt
      ensures ok <==> StartStep(sh, l, c).1.pc == SDone(true)
    {
      if !Value().InterlockClear(healthy) { return false; }
      var quiet := LatchesUnchanged(l.snap.ack);
      if !quiet { return false; }
      if active.Some? { return false; }
      if StatusOf(l.list, Some(l.row)).RecoveryRequired() { return false; }
      targets := l.targets;
      active := Some(l.row);
      auto := l.kind != BatchStart;
      return true;
    }

    /** commit_targets_after_final_interlock */
    method CommitTargets(l: Writer, healthy: bool, lim: Limits, ghost sh: Shared, ghost c: Choice) returns (ok: bool)
      requires l.pc == WCommit && sh.rt == Value() && c.healthy == healthy
      modifies this
      ensures Value() == Apply(sh, WriterStep(sh, lim, l, c).0).rt
      ensures ok <==> WriterStep(sh, lim, l, c).1.pc == WDone(true)
    {
      if !Value().InterlockClear(healthy) { return false; }
      var quiet := LatchesUnchanged(l.snap.ack);
      if !quiet { return false; }
      if StatusOf(l.list, active).RecoveryRequired() { return false; }
      if ComparesTargets(l.kind) && targets != l.current {
        auto := false;
        return false;
      }
      targets := l.next;
      return true;
    }

    /** The final section of `set_auto`; `read` is the outcome of the query made under the lock. */
    method EnableAuto(l: Auto, healthy: bool, read: Option<seq<int>>, ghost sh: Shared, ghost c: Choice)
      returns (ok: bool)
      requires l.pc == AFinal && sh.rt == Value() && c.healthy == healthy
      requires read == if c.ok then Some(ReadUnfinished(sh)) else None
      modifies this
      ensures Value() == Apply(sh, AutoStep(sh, l, c).0).rt
      ensures ok <==> AutoStep(sh, l, c).1.pc == ADone(true)
    {
      if !Value().InterlockClear(healthy) { return false; }
      var quiet := LatchesUnchanged(l.snap.ack);
      if !quiet { return false; }
      if read.None? || StatusOf(read.value, active).RecoveryRequired() { return false; }
      auto := true;
      return true;
    }

    /** The last section of `stop_process_lifecycle`. */
    method ReleaseStopped(l: Stop, stopTargets: Targets, ghost sh: Shared, ghost c: Choice)
      requires l.pc == PRelease && sh.rt == Value() && sh.stopTargets == stopTargets
      modifies this
      ensures Value() == Apply(sh, StopStep(sh, l, c).0).rt
    {
      if active == Some(l.batch) { active := None; }
      auto := false;
      targets := stopTargets;
    }
  }
}
