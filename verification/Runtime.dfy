/**
 `RuntimeState`: the latches with their generation counters (state.rs), the acknowledged
 generations (api.rs), and the interlock test every risk-increasing action makes.
 */
module Runtime {
  import opened Common
  import opened Control

  datatype Latch = ManualLock | EmergencyStop | ControlFault

  datatype Runtime = Runtime(
    targets: Targets,
    auto: bool,
    manualLock: bool, manualGen: u64,
    emergencyStop: bool, emergencyGen: u64,
    fault: Option<string>, faultGen: u64,
    active: Option<int>,
    loopTerminated: bool)
  {
    predicate Engaged(latch: Latch) {
      match latch
      case ManualLock => manualLock
      case EmergencyStop => emergencyStop
      case ControlFault => fault.Some?
    }

    function Gen(latch: Latch): u64 {
      match latch
      case ManualLock => manualGen
      case EmergencyStop => emergencyGen
      case ControlFault => faultGen
    }

    /** engage_manual_lock, engage_emergency_stop, latch_control_fault */
    function Engage(latch: Latch, reason: string): Runtime {
      match latch
      case ManualLock => this.(manualLock := true, manualGen := SaturatingInc(manualGen), auto := false)
      case EmergencyStop => this.(emergencyStop := true, emergencyGen := SaturatingInc(emergencyGen), auto := false)
      case ControlFault => this.(fault := Some(reason), faultGen := SaturatingInc(faultGen), auto := false)
    }

    /** clear_manual_lock, clear_emergency_stop, clear_control_fault */
    function Clear(latch: Latch): Runtime {
      match latch
      case ManualLock => this.(manualLock := false, auto := false)
      case EmergencyStop => this.(emergencyStop := false, auto := false)
      case ControlFault => this.(fault := None, auto := false)
    }

    predicate LatchesClear() {
      !emergencyStop && !manualLock && fault.None?
    }

    /** `ensure_target_update_interlock_clear`; `healthy` is the device-status and sample verdict. */
    predicate InterlockClear(healthy: bool) {
      LatchesClear() && healthy
    }
  }

  /** `SafetyLatchGenerations` */
  datatype Generations = Generations(manualLock: u64, emergencyStop: u64, controlFault: u64) {
    static function From(rt: Runtime): Generations {
      Generations(rt.manualGen, rt.emergencyGen, rt.faultGen)
    }

    predicate ChangedSince(rt: Runtime) {
      manualLock != rt.manualGen || emergencyStop != rt.emergencyGen || controlFault != rt.faultGen
    }

    function Gen(latch: Latch): u64 {
      match latch
      case ManualLock => manualLock
      case EmergencyStop => emergencyStop
      case ControlFault => controlFault
    }
  }

  // ---------- what the generation comparison can and cannot see ----------

  datatype LatchOp = EngageOp(latch: Latch, reason: string) | ClearOp(latch: Latch)

  function RunOps(rt: Runtime, ops: seq<LatchOp>): Runtime {
    if ops == [] then rt else
      var before := RunOps(rt, ops[..|ops| - 1]);
      match ops[|ops| - 1]
      case EngageOp(latch, reason) => before.Engage(latch, reason)
      case ClearOp(latch) => before.Clear(latch)
  }

  predicate Engages(ops: seq<LatchOp>, latch: Latch) {
    exists i :: 0 <= i < |ops| && ops[i].EngageOp? && ops[i].latch == latch
  }

  lemma {:induction false} GenerationsOnlyGrow(rt: Runtime, ops: seq<LatchOp>, latch: Latch)
    ensures rt.Gen(latch) <= RunOps(rt, ops).Gen(latch)
    ensures RunOps(rt, ops).Gen(latch) != rt.Gen(latch) <==> Engages(ops, latch) && rt.Gen(latch) < U64_MAX
  {
    if ops != [] {
      var n := |ops| - 1;
      GenerationsOnlyGrow(rt, ops[..n], latch);
      assert forall i :: 0 <= i < n ==> ops[..n][i] == ops[i];
      assert Engages(ops, latch) <==> Engages(ops[..n], latch) || (ops[n].EngageOp? && ops[n].latch == latch);
    }
  }

  /**
   The acknowledged generations differ exactly when some latch was engaged in between, however often it was
   cleared again, and that latch's counter was not already saturated.
   */
  lemma ChangedSinceIsExact(rt: Runtime, ops: seq<LatchOp>)
    ensures Generations.From(rt).ChangedSince(RunOps(rt, ops)) <==>
            exists latch :: Engages(ops, latch) && rt.Gen(latch) < U64_MAX
  {
    GenerationsOnlyGrow(rt, ops, ManualLock);
    GenerationsOnlyGrow(rt, ops, EmergencyStop);
    GenerationsOnlyGrow(rt, ops, ControlFault);
  }

  /** At saturation an emergency stop that fires and clears inside the window goes unseen. */
  lemma SaturatedEngagementIsMissed(rt: Runtime)
    requires rt.emergencyGen == U64_MAX && !rt.emergencyStop
    ensures
      var ops := [EngageOp(EmergencyStop, ""), ClearOp(EmergencyStop)];
      && Engages(ops, EmergencyStop)
      && !Generations.From(rt).ChangedSince(RunOps(rt, ops))
      && RunOps(rt, ops) == rt.(auto := false)
  {
    var ops := [EngageOp(EmergencyStop, ""), ClearOp(EmergencyStop)];
    assert ops[0] == EngageOp(EmergencyStop, "");
    assert ops[..1] == [EngageOp(EmergencyStop, "")];
    assert ops[..1][..0] == [];
    assert RunOps(rt, ops[..1]) == rt.Engage(EmergencyStop, "");
  }
}
