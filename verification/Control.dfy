/**
 The automatic control decision (control.rs) with the forbidden-zone test of
 config.rs, and the trajectories of a plant that follows its commands.
 */
module Control {
  import opened Common
  import opened Numbers

  datatype Targets = Targets(temperature: real, heat: real, hold: real, cool: real,
                             stirrer: real, shake: real, pressure: real)

  /** Limits and largest step of one controlled quantity. */
  datatype Axis = Axis(min: real, max: real, maxStep: real)

  datatype Zone = Zone(minTemperature: real, maxTemperature: real, minStirrer: real, maxStirrer: real) {
    predicate Contains(temperature: real, stirrer: real) {
      && minTemperature <= temperature <= maxTemperature
      && minStirrer <= stirrer <= maxStirrer
    }

    predicate Interior(temperature: real, stirrer: real) {
      && minTemperature < temperature < maxTemperature
      && minStirrer < stirrer < maxStirrer
    }

    predicate Aligned() {
      OnGrid(minTemperature) && OnGrid(maxTemperature) && OnGrid(minStirrer) && OnGrid(maxStirrer)
    }
  }

  datatype Safety = Safety(temperature: Axis, stirrer: Axis, zones: seq<Zone>, requireStatus: bool)

  /** The part of `validate_safety_config` that the decision relies on. */
  predicate ValidAxis(a: Axis) {
    a.min <= a.max && 0.0 <= a.maxStep
  }

  predicate ValidSafety(s: Safety) {
    ValidAxis(s.temperature) && ValidAxis(s.stirrer)
  }

  datatype Sample = Sample(temperature: real, stirrer: real, isFresh: bool)

  /** What the two status checks found: a field fault, a downstream command fault. */
  datatype DeviceStatus = DeviceStatus(fieldFault: bool, commandFault: bool)

  datatype Flags = Flags(auto: bool, manualLock: bool, emergencyStop: bool, controlFault: bool)

  datatype BlockReason =
    | AutoDisabled | ManualLockOn | EmergencyStopOn | ControlFaultOn
    | MissingDeviceStatus | DeviceStatusFault | DownstreamCommandFault
    | MissingSensorSample | SensorStale | ForbiddenControlZone

  datatype Decision = Write(command: Targets) | Blocked(reason: BlockReason)

  function Clamp(x: real, min: real, max: real): (r: real)
    requires min <= max
    ensures min <= r <= max
    ensures min <= x <= max ==> r == x
  {
    if x < min then min else if x > max then max else x
  }

  function ClampStep(current: real, desired: real, a: Axis): real
    requires ValidAxis(a)
  {
    var bounded := Clamp(desired, a.min, a.max);
    var delta := Clamp(bounded - current, -a.maxStep, a.maxStep);
    Clamp(current + delta, a.min, a.max)
  }

  predicate InForbiddenZone(s: Safety, temperature: real, stirrer: real) {
    exists i :: 0 <= i < |s.zones| && s.zones[i].Contains(temperature, stirrer)
  }

  function RoundAll(t: Targets): Targets {
    Targets(Round2(t.temperature), Round2(t.heat), Round2(t.hold), Round2(t.cool),
            Round2(t.stirrer), Round2(t.shake), Round2(t.pressure))
  }

  function Decide(s: Safety, sample: Option<Sample>, targets: Targets, f: Flags, status: Option<DeviceStatus>): Decision
    requires ValidSafety(s)
  {
    if f.emergencyStop then Blocked(EmergencyStopOn)
    else if f.manualLock then Blocked(ManualLockOn)
    else if f.controlFault then Blocked(ControlFaultOn)
    else if !f.auto then Blocked(AutoDisabled)
    else if s.requireStatus && status.None? then Blocked(MissingDeviceStatus)
    else if status.Some? && status.value.fieldFault then Blocked(DeviceStatusFault)
    else if status.Some? && status.value.commandFault then Blocked(DownstreamCommandFault)
    else if sample.None? then Blocked(MissingSensorSample)
    else if !sample.value.isFresh then Blocked(SensorStale)
    else
      var temperature := ClampStep(sample.value.temperature, targets.temperature, s.temperature);
      var stirrer := ClampStep(sample.value.stirrer, targets.stirrer, s.stirrer);
      if InForbiddenZone(s, temperature, stirrer) then Blocked(ForbiddenControlZone)
      else Write(RoundAll(targets.(temperature := temperature, stirrer := stirrer)))
  }

  function ClampOperatorTargets(s: Safety, t: Targets): Targets
    requires ValidSafety(s)
  {
    RoundAll(Targets(Clamp(t.temperature, s.temperature.min, s.temperature.max),
                     Clamp(t.heat, 0.0, 3600.0), Clamp(t.hold, 0.0, 7200.0), Clamp(t.cool, 0.0, 3600.0),
                     Clamp(t.stirrer, s.stirrer.min, s.stirrer.max),
                     Clamp(t.shake, 0.0, 60.0), Clamp(t.pressure, 0.0, 10.0)))
  }

  /** Within the operator limits, and with at most two decimals, in every field. */
  predicate FitsOperatorLimits(s: Safety, t: Targets) {
    && Fits(t.temperature, s.temperature.min, s.temperature.max) && Fits(t.stirrer, s.stirrer.min, s.stirrer.max)
    && Fits(t.heat, 0.0, 3600.0) && Fits(t.hold, 0.0, 7200.0) && Fits(t.cool, 0.0, 3600.0)
    && Fits(t.shake, 0.0, 60.0) && Fits(t.pressure, 0.0, 10.0)
  }

  predicate Fits(x: real, min: real, max: real) { min <= x <= max && OnGrid(x) }

  /** Among the values that fit, this one is nearest to x. */
  ghost predicate IsNearest(r: real, x: real, min: real, max: real) {
    Fits(r, min, max) && forall y :: Fits(y, min, max) ==> Distance(x, r) <= Distance(x, y)
  }

  lemma ClampIsNearest(x: real, min: real, max: real)
    requires min <= max && OnGrid(min) && OnGrid(max)
    ensures IsNearest(Round2(Clamp(x, min, max)), x, min, max)
  {
    ClampThenRound(x, min, max);
    Round2Exact(min);
    Round2Exact(max);
    forall y | Fits(y, min, max) ensures Distance(x, Round2(Clamp(x, min, max))) <= Distance(x, y) {
      Round2IsNearest(x, y);
    }
  }

  lemma ClampThenRound(x: real, min: real, max: real)
    requires min <= max && OnGrid(min) && OnGrid(max)
    ensures Fits(Round2(Clamp(x, min, max)), min, max)
    ensures Round2(Clamp(x, min, max)) == x <==> Fits(x, min, max)
  {
    var y := Clamp(x, min, max);
    Round2Exact(y);
    Round2StaysBelow(y, min);
    Round2StaysBelow(y, max);
  }

  /** Every field of the operator clamp is the nearest value that fits, so exactly the targets that fit are kept. */
  lemma OperatorClampIsExact(s: Safety, t: Targets)
    requires ValidSafety(s) && GridAxis(s.temperature) && GridAxis(s.stirrer)
    ensures
      var r := ClampOperatorTargets(s, t);
      && IsNearest(r.temperature, t.temperature, s.temperature.min, s.temperature.max)
      && IsNearest(r.stirrer, t.stirrer, s.stirrer.min, s.stirrer.max)
      && IsNearest(r.heat, t.heat, 0.0, 3600.0) && IsNearest(r.hold, t.hold, 0.0, 7200.0)
      && IsNearest(r.cool, t.cool, 0.0, 3600.0) && IsNearest(r.shake, t.shake, 0.0, 60.0)
      && IsNearest(r.pressure, t.pressure, 0.0, 10.0)
    ensures ClampOperatorTargets(s, t) == t <==> FitsOperatorLimits(s, t)
  {
    OperatorClampKeepsFitting(s, t);
    GridConstants();
    ClampIsNearest(t.temperature, s.temperature.min, s.temperature.max);
    ClampIsNearest(t.stirrer, s.stirrer.min, s.stirrer.max);
    ClampIsNearest(t.heat, 0.0, 3600.0);
    ClampIsNearest(t.hold, 0.0, 7200.0);
    ClampIsNearest(t.cool, 0.0, 3600.0);
    ClampIsNearest(t.shake, 0.0, 60.0);
    ClampIsNearest(t.pressure, 0.0, 10.0);
  }

  lemma GridConstants()
    ensures OnGrid(0.0) && OnGrid(10.0) && OnGrid(60.0) && OnGrid(3600.0) && OnGrid(7200.0)
  {
    HundredthsOnGrid(0);
    HundredthsOnGrid(1000);
    HundredthsOnGrid(6000);
    HundredthsOnGrid(360000);
    HundredthsOnGrid(720000);
  }

  lemma OperatorClampKeepsFitting(s: Safety, t: Targets)
    requires ValidSafety(s) && GridAxis(s.temperature) && GridAxis(s.stirrer)
    ensures ClampOperatorTargets(s, t) == t <==> FitsOperatorLimits(s, t)
  {
    GridConstants();
    ClampThenRound(t.temperature, s.temperature.min, s.temperature.max);
    ClampThenRound(t.stirrer, s.stirrer.min, s.stirrer.max);
    ClampThenRound(t.heat, 0.0, 3600.0);
    ClampThenRound(t.hold, 0.0, 7200.0);
    ClampThenRound(t.cool, 0.0, 3600.0);
    ClampThenRound(t.shake, 0.0, 60.0);
    ClampThenRound(t.pressure, 0.0, 10.0);
  }

  predicate GridAxis(a: Axis) {
    OnGrid(a.min) && OnGrid(a.max) && OnGrid(a.maxStep)
  }

  predicate InLimits(x: real, a: Axis) { a.min <= x <= a.max }

  function Distance(x: real, y: real): real { if x <= y then y - x else x - y }

  // ---------- when a command is written, and which ----------

  /** One bounded step from where the sample is, kept within the limits of the axis. */
  function SteppedTo(current: real, desired: real, a: Axis): real
    requires ValidAxis(a)
  {
    Clamp(Approach(current, Goal(desired, a), a.maxStep), a.min, a.max)
  }

  /** Strictly outside the zone on some side. */
  predicate OutsideZone(z: Zone, temperature: real, stirrer: real) {
    || temperature < z.minTemperature || temperature > z.maxTemperature
    || stirrer < z.minStirrer || stirrer > z.maxStirrer
  }

  predicate OutsideZones(zones: seq<Zone>, temperature: real, stirrer: real) {
    forall i :: 0 <= i < |zones| ==> OutsideZone(zones[i], temperature, stirrer)
  }

  /** The device status, if there is one or one is required, is there and reports no fault. */
  predicate StatusClear(s: Safety, status: Option<DeviceStatus>) {
    if status.Some? then !status.value.fieldFault && !status.value.commandFault else !s.requireStatus
  }

  predicate FlagsClear(f: Flags) { f == Flags(true, false, false, false) }

  lemma ZoneTestIsExact(s: Safety, temperature: real, stirrer: real)
    ensures InForbiddenZone(s, temperature, stirrer) <==> !OutsideZones(s.zones, temperature, stirrer)
  {
    if !InForbiddenZone(s, temperature, stirrer) {
      forall i | 0 <= i < |s.zones| ensures !s.zones[i].Contains(temperature, stirrer) {}
    }
  }

  /** A command is written exactly under these conditions. */
  lemma WriteIsExact(s: Safety, sample: Option<Sample>, targets: Targets, f: Flags, status: Option<DeviceStatus>)
    requires ValidSafety(s)
    ensures Decide(s, sample, targets, f, status).Write? <==>
            && FlagsClear(f) && StatusClear(s, status) && sample.Some? && sample.value.isFresh
            && OutsideZones(s.zones, SteppedTo(sample.value.temperature, targets.temperature, s.temperature),
                            SteppedTo(sample.value.stirrer, targets.stirrer, s.stirrer))
  {
    if sample.Some? {
      ZoneTestIsExact(s, SteppedTo(sample.value.temperature, targets.temperature, s.temperature),
                      SteppedTo(sample.value.stirrer, targets.stirrer, s.stirrer));
    }
  }

  /** What a written command carries: the stepped pair and the other targets, each rounded to two decimals. */
  lemma CommandCarriesTargets(s: Safety, sample: Sample, targets: Targets, f: Flags, status: Option<DeviceStatus>)
    requires ValidSafety(s) && Decide(s, Some(sample), targets, f, status).Write?
    ensures
      var c := Decide(s, Some(sample), targets, f, status).command;
      && c.temperature == Round2(SteppedTo(sample.temperature, targets.temperature, s.temperature))
      && c.stirrer == Round2(SteppedTo(sample.stirrer, targets.stirrer, s.stirrer))
      && c.heat == Round2(targets.heat) && c.hold == Round2(targets.hold) && c.cool == Round2(targets.cool)
      && c.shake == Round2(targets.shake) && c.pressure == Round2(targets.pressure)
  {
  }

  /** The reason returned is the first of the source's conditions that fails. */
  lemma BlockReasonIsFirst(s: Safety, sample: Option<Sample>, targets: Targets, f: Flags, status: Option<DeviceStatus>)
    requires ValidSafety(s)
    ensures
      var d := Decide(s, sample, targets, f, status);
      var fault := status.Some? && status.value.fieldFault;
      && (d == Blocked(EmergencyStopOn) <==> f.emergencyStop)
      && (d == Blocked(ManualLockOn) <==> f.manualLock && !f.emergencyStop)
      && (d == Blocked(ControlFaultOn) <==> f.controlFault && !f.manualLock && !f.emergencyStop)
      && (d == Blocked(AutoDisabled) <==> f == Flags(false, false, false, false))
      && (d == Blocked(MissingDeviceStatus) <==> FlagsClear(f) && s.requireStatus && status.None?)
      && (d == Blocked(DeviceStatusFault) <==> FlagsClear(f) && fault)
      && (d == Blocked(DownstreamCommandFault) <==>
            FlagsClear(f) && !fault && status.Some? && status.value.commandFault)
      && (d == Blocked(MissingSensorSample) <==> FlagsClear(f) && StatusClear(s, status) && sample.None?)
      && (d == Blocked(SensorStale) <==>
            FlagsClear(f) && StatusClear(s, status) && sample.Some? && !sample.value.isFresh)
  {
  }

  // ---------- one command ----------

  lemma ClampStepOnGrid(current: real, desired: real, a: Axis)
    requires ValidAxis(a) && GridAxis(a) && OnGrid(current) && OnGrid(desired)
    ensures OnGrid(ClampStep(current, desired, a))
  {
    GridSum(a.maxStep, a.maxStep);
    var bounded := Clamp(desired, a.min, a.max);
    GridSum(bounded, current);
    GridSum(current, Clamp(bounded - current, -a.maxStep, a.maxStep));
  }

  /** The unrounded step moves towards the clamped target, by at most one step, without overshoot. */
  lemma ClampStepMoves(current: real, desired: real, a: Axis)
    requires ValidAxis(a) && InLimits(current, a)
    ensures
      var goal := Clamp(desired, a.min, a.max);
      var next := ClampStep(current, desired, a);
      && InLimits(next, a)
      && next == Approach(current, goal, a.maxStep)
      && (current <= goal ==> current <= next <= goal)
      && (goal <= current ==> goal <= next <= current)
  {
  }

  /**
   Grid inputs: a written command carries the stepped values unrounded, is within limits, is at
   most one step away from an in-limit sample, and lies in no (closed) forbidden zone.
   */
  lemma GridCommandIsSafe(s: Safety, sample: Sample, targets: Targets, f: Flags, status: Option<DeviceStatus>)
    requires ValidSafety(s) && GridAxis(s.temperature) && GridAxis(s.stirrer)
    requires OnGrid(sample.temperature) && OnGrid(sample.stirrer)
    requires OnGrid(targets.temperature) && OnGrid(targets.stirrer)
    requires Decide(s, Some(sample), targets, f, status).Write?
    ensures
      var c := Decide(s, Some(sample), targets, f, status).command;
      && c.temperature == ClampStep(sample.temperature, targets.temperature, s.temperature)
      && c.stirrer == ClampStep(sample.stirrer, targets.stirrer, s.stirrer)
      && InLimits(c.temperature, s.temperature) && InLimits(c.stirrer, s.stirrer)
      && (InLimits(sample.temperature, s.temperature) ==>
            -s.temperature.maxStep <= c.temperature - sample.temperature <= s.temperature.maxStep)
      && (InLimits(sample.stirrer, s.stirrer) ==>
            -s.stirrer.maxStep <= c.stirrer - sample.stirrer <= s.stirrer.maxStep)
      && !InForbiddenZone(s, c.temperature, c.stirrer)
      && f == Flags(true, false, false, false) && sample.isFresh
  {
    ClampStepOnGrid(sample.temperature, targets.temperature, s.temperature);
    ClampStepOnGrid(sample.stirrer, targets.stirrer, s.stirrer);
    Round2Exact(ClampStep(sample.temperature, targets.temperature, s.temperature));
    Round2Exact(ClampStep(sample.stirrer, targets.stirrer, s.stirrer));
  }

  /** Off-grid samples: rounding happens after the zone test, but never enters an aligned zone's interior. */
  lemma OffGridCommandAvoidsInteriors(s: Safety, sample: Sample, targets: Targets, f: Flags,
                                      status: Option<DeviceStatus>, i: nat)
    requires ValidSafety(s) && i < |s.zones| && s.zones[i].Aligned()
    requires Decide(s, Some(sample), targets, f, status).Write?
    ensures
      var c := Decide(s, Some(sample), targets, f, status).command;
      !s.zones[i].Interior(c.temperature, c.stirrer)
  {
    var t := ClampStep(sample.temperature, targets.temperature, s.temperature);
    var r := ClampStep(sample.stirrer, targets.stirrer, s.stirrer);
    var z := s.zones[i];
    assert !z.Contains(t, r);
    Round2StaysBelow(t, z.minTemperature);
    Round2StaysBelow(t, z.maxTemperature);
    Round2StaysBelow(r, z.minStirrer);
    Round2StaysBelow(r, z.maxStirrer);
  }

  /** The closed zone is not avoided: this off-grid sample is rounded onto a zone's boundary. */
  lemma OffGridCommandCanTouchBoundary()
    ensures
      var s := Safety(Axis(0.0, 200.0, 5.0), Axis(0.0, 1000.0, 50.0), [Zone(50.0, 60.0, 0.0, 1000.0)], false);
      var t := Targets(49.996, 0.0, 0.0, 0.0, 100.0, 0.0, 0.0);
      var d := Decide(s, Some(Sample(49.996, 100.0, true)), t, Flags(true, false, false, false), None);
      && d.Write? && s.zones[0].Contains(d.command.temperature, d.command.stirrer)
  {
    assert (49.996 * 100.0 + 0.5).Floor == 5000;
    assert (100.0 * 100.0 + 0.5).Floor == 10000;
  }

  // ---------- trajectories ----------

  /** The fresh, healthy, unlatched decision at position p writes position q. */
  predicate Commanded(s: Safety, targets: Targets, p: (real, real), q: (real, real))
    requires ValidSafety(s)
  {
    var d := Decide(s, Some(Sample(p.0, p.1, true)), targets, Flags(true, false, false, false),
                    Some(DeviceStatus(false, false)));
    d.Write? && d.command.temperature == q.0 && d.command.stirrer == q.1
  }

  /** A run of a plant that follows each written command exactly and is never blocked. */
  predicate FollowsCommands(s: Safety, targets: Targets, run: seq<(real, real)>)
    requires ValidSafety(s)
  {
    && |run| > 0
    && OnGrid(run[0].0) && OnGrid(run[0].1)
    && InLimits(run[0].0, s.temperature) && InLimits(run[0].1, s.stirrer)
    && forall i :: 0 < i < |run| ==> Commanded(s, targets, run[i - 1], run[i])
  }

  predicate GridControl(s: Safety, targets: Targets) {
    && ValidSafety(s) && GridAxis(s.temperature) && GridAxis(s.stirrer)
    && OnGrid(targets.temperature) && OnGrid(targets.stirrer)
  }

  /** One move of at most `step` towards `goal`, without overshoot. */
  function Approach(x: real, goal: real, step: real): real {
    if Distance(x, goal) <= step then goal else if x <= goal then x + step else x - step
  }

  /** The target within the limits of its axis. */
  function Goal(desired: real, a: Axis): real
    requires ValidAxis(a)
  {
    Clamp(desired, a.min, a.max)
  }

  /** The straight walk: the position after n moves towards `goal`. */
  function Towards(start: real, goal: real, step: real, n: nat): real {
    if n == 0 then start else Approach(Towards(start, goal, step, n - 1), goal, step)
  }

  lemma CommandedIsStepped(s: Safety, targets: Targets, p: (real, real), q: (real, real))
    requires GridControl(s, targets) && OnGrid(p.0) && OnGrid(p.1) && Commanded(s, targets, p, q)
    ensures q.0 == ClampStep(p.0, targets.temperature, s.temperature) && OnGrid(q.0)
    ensures q.1 == ClampStep(p.1, targets.stirrer, s.stirrer) && OnGrid(q.1)
    ensures !InForbiddenZone(s, q.0, q.1)
  {
    GridCommandIsSafe(s, Sample(p.0, p.1, true), targets, Flags(true, false, false, false),
                      Some(DeviceStatus(false, false)));
    ClampStepOnGrid(p.0, targets.temperature, s.temperature);
    ClampStepOnGrid(p.1, targets.stirrer, s.stirrer);
  }

  /** Every position of a followed run is on the grid, and every commanded one is outside every zone. */
  lemma {:induction false} FollowedRunIsStepped(s: Safety, targets: Targets, run: seq<(real, real)>, k: nat)
    requires GridControl(s, targets) && FollowsCommands(s, targets, run) && k < |run|
    ensures OnGrid(run[k].0) && OnGrid(run[k].1)
    ensures k > 0 ==> && run[k].0 == ClampStep(run[k - 1].0, targets.temperature, s.temperature)
                      && run[k].1 == ClampStep(run[k - 1].1, targets.stirrer, s.stirrer)
                      && !InForbiddenZone(s, run[k].0, run[k].1)
  {
    if k > 0 {
      FollowedRunIsStepped(s, targets, run, k - 1);
      CommandedIsStepped(s, targets, run[k - 1], run[k]);
    }
  }

  lemma {:induction false} SteppedAxisIsStraight(xs: seq<real>, desired: real, a: Axis, k: nat)
    requires ValidAxis(a) && k < |xs| && InLimits(xs[0], a)
    requires forall i :: 0 < i < |xs| ==> xs[i] == ClampStep(xs[i - 1], desired, a)
    ensures InLimits(xs[k], a)
    ensures xs[k] == Towards(xs[0], Clamp(desired, a.min, a.max), a.maxStep, k)
  {
    if k > 0 {
      SteppedAxisIsStraight(xs, desired, a, k - 1);
      ClampStepMoves(xs[k - 1], desired, a);
    }
  }

  /** Every followed run of grid values walks straight to the clamped target pair. */
  lemma FollowedRunIsStraight(s: Safety, targets: Targets, run: seq<(real, real)>, k: nat)
    requires GridControl(s, targets) && FollowsCommands(s, targets, run) && k < |run|
    ensures InLimits(run[k].0, s.temperature) && InLimits(run[k].1, s.stirrer)
    ensures run[k].0 == Towards(run[0].0, Goal(targets.temperature, s.temperature), s.temperature.maxStep, k)
    ensures run[k].1 == Towards(run[0].1, Goal(targets.stirrer, s.stirrer), s.stirrer.maxStep, k)
    ensures k > 0 ==> !InForbiddenZone(s, run[k].0, run[k].1)
  {
    forall i | 0 <= i < |run|
      ensures i > 0 ==> && run[i].0 == ClampStep(run[i - 1].0, targets.temperature, s.temperature)
                        && run[i].1 == ClampStep(run[i - 1].1, targets.stirrer, s.stirrer)
                        && !InForbiddenZone(s, run[i].0, run[i].1)
    {
      FollowedRunIsStepped(s, targets, run, i);
    }
    SteppedAxisIsStraight(seq(|run|, i requires 0 <= i < |run| => run[i].0), targets.temperature, s.temperature, k);
    SteppedAxisIsStraight(seq(|run|, i requires 0 <= i < |run| => run[i].1), targets.stirrer, s.stirrer, k);
  }

  /** The number of steps of length `step` that cover `distance`: the ceiling of their quotient. */
  function StepsNeeded(distance: real, step: real): int
    requires step > 0.0
  {
    -((-(distance / step)).Floor)
  }

  lemma StepsNeededIsExact(distance: real, step: real, n: nat)
    requires step > 0.0
    ensures StepsNeeded(distance, step) <= n <==> distance <= n as real * step
  {
    var q := distance / step;
    assert q * step == distance;
    if q <= n as real {
      assert q * step <= n as real * step;
    } else {
      assert q * step > n as real * step;
    }
    assert -((-q).Floor) <= n <==> q <= n as real;
  }

  /** After n moves the remaining distance is the original one less n steps, down to zero, on the same side. */
  lemma {:induction false} RemainingDistance(start: real, goal: real, step: real, n: nat, covered: real)
    requires step > 0.0 && covered == n as real * step
    ensures Towards(start, goal, step, n) ==
            if Distance(start, goal) <= covered then goal
            else if start <= goal then start + covered else start - covered
    ensures covered >= 0.0
  {
    if n > 0 {
      assert covered - step == (n - 1) as real * step;
      RemainingDistance(start, goal, step, n - 1, covered - step);
    }
  }

  /** The straight walk is monotone and arrives exactly at the ceiling of distance over step. */
  lemma ArrivalIsExact(start: real, goal: real, step: real, n: nat)
    requires step > 0.0
    ensures Towards(start, goal, step, n) == goal <==> StepsNeeded(Distance(start, goal), step) <= n
    ensures start <= goal ==> start <= Towards(start, goal, step, n) <= Towards(start, goal, step, n + 1) <= goal
    ensures goal <= start ==> goal <= Towards(start, goal, step, n + 1) <= Towards(start, goal, step, n) <= start
  {
    StepsNeededIsExact(Distance(start, goal), step, n);
    RemainingDistance(start, goal, step, n, n as real * step);
  }

  /**
   A plant that follows unblocked commands is at the clamped target pair exactly from the moment it has
   made the ceiling of distance over step on both axes.
   */
  lemma UnblockedPlantArrives(s: Safety, targets: Targets, run: seq<(real, real)>, n: nat)
    requires GridControl(s, targets) && FollowsCommands(s, targets, run) && n < |run|
    requires s.temperature.maxStep > 0.0 && s.stirrer.maxStep > 0.0
    ensures
      var goal := (Goal(targets.temperature, s.temperature), Goal(targets.stirrer, s.stirrer));
      run[n] == goal <==>
      && StepsNeeded(Distance(run[0].0, goal.0), s.temperature.maxStep) <= n
      && StepsNeeded(Distance(run[0].1, goal.1), s.stirrer.maxStep) <= n
  {
    FollowedRunIsStraight(s, targets, run, n);
    ArrivalIsExact(run[0].0, Goal(targets.temperature, s.temperature), s.temperature.maxStep, n);
    ArrivalIsExact(run[0].1, Goal(targets.stirrer, s.stirrer), s.stirrer.maxStep, n);
  }
}
