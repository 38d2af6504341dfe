/**
 The JSON-bridge reconciler of device.rs: each call compares the state the downstream last reported with the targets
 and sends at most one atomic command. Repeated calls reach "no command" in exactly as many commands as a measure of
 the initial disagreement says, provided one speed command moves the speed by at most twice the deadband.
 */
module Bridge {
  import opened Common
  import opened Numbers
  import Control

  datatype Config = Config(
    speedDeadband: real, temperatureDeadband: real, stepsPerCycle: real, relayControl: bool,
    adcIsTemperature: bool, adcScale: real, adcOffset: real)

  /** The bounds a loaded configuration meets. */
  predicate ValidConfig(c: Config) { c.speedDeadband >= 0.0 && c.temperatureDeadband >= 0.0 && c.stepsPerCycle > 0.0 }

  /** What the state file holds; `usable` is the outcome of the connection, frame and age checks. */
  datatype Report = Report(
    usable: bool, motor: Option<nat>, relay: Option<nat>, status: Option<nat>, speed: Option<real>,
    speedDelay: Option<nat>, temperature: Option<real>, adc: Option<nat>, stirrer: Option<real>)

  datatype Targets = Targets(temperature: real, shake: real, stirrer: real)

  datatype BridgeControl = Motor(on: bool) | Speed(up: bool) | Relay(value: nat) | Stir(rpm: real)

  /** The last commanded shake speed and stirrer speed. */
  datatype Caches = Caches(speed: Option<real>, stirrer: Option<real>)

  datatype Pending = Pending(control: BridgeControl, update: Caches)

  datatype Decision = Refused | Quiet | Command(pending: Pending)

  // ---------- reading a report ----------

  function Or<T>(a: Option<T>, b: Option<T>): Option<T> { if a.Some? then a else b }

  function GetOr<T>(a: Option<T>, otherwise: T): T { if a.Some? then a.value else otherwise }

  function StatusBit(status: Option<nat>, weight: nat): Option<nat>
    requires weight > 0
  {
    if status.Some? then Some(status.value / weight % 2) else None
  }

  /** `bit_or_field`: bit 1 of the status byte. */
  function MotorReading(r: Report): nat { GetOr(Or(r.motor, StatusBit(r.status, 2)), 0) }

  function RelayReading(r: Report): nat { GetOr(Or(r.relay, StatusBit(r.status, 1)), 0) }

  function SpeedFromDelay(delay: Option<nat>, stepsPerCycle: real): Option<real> {
    if delay.None? || delay.value == 0 || stepsPerCycle <= 0.0 then None
    else
      CycleIsPositive(delay.value, stepsPerCycle);
      Some(SpeedOf(CycleLength(delay.value, stepsPerCycle)))
  }

  /** The microseconds one cycle takes. */
  function CycleLength(delay: nat, stepsPerCycle: real): real { delay as real * stepsPerCycle }

  lemma CycleIsPositive(delay: nat, stepsPerCycle: real)
    requires delay > 0 && stepsPerCycle > 0.0
    ensures CycleLength(delay, stepsPerCycle) > 0.0
  {
  }

  function SpeedOf(us: real): real
    requires us > 0.0
  {
    Round2(60000000.0 / us)
  }

  function SpeedReported(c: Config, r: Report): Option<real> {
    Or(r.speed, SpeedFromDelay(r.speedDelay, c.stepsPerCycle))
  }

  function TemperatureReading(c: Config, r: Report): Option<real> {
    if r.temperature.Some? then r.temperature
    else if c.adcIsTemperature && r.adc.Some? then Some(Converted(c, r.adc.value))
    else None
  }

  function Converted(c: Config, adc: nat): real { adc as real * c.adcScale + c.adcOffset }

  lemma BitsOfByte(high: nat, motor: nat, relay: nat)
    requires motor <= 1 && relay <= 1
    ensures (4 * high + 2 * motor + relay) / 2 == 2 * high + motor
    ensures (2 * high + motor) % 2 == motor && (4 * high + 2 * motor + relay) % 2 == relay
  {
  }

  /** Without the direct fields, the status byte gives motor and relay: bit 1 and bit 0. */
  lemma StatusByteReads(r: Report, high: nat, motor: nat, relay: nat)
    requires r.motor.None? && r.relay.None? && motor <= 1 && relay <= 1
    requires r.status == Some(4 * high + 2 * motor + relay)
    ensures MotorReading(r) == motor && RelayReading(r) == relay
  {
    BitsOfByte(high, motor, relay);
  }

  /** A direct field wins over every other source, and without field and status byte the reading is zero. */
  lemma DirectFieldsRead(c: Config, r: Report)
    ensures r.motor.Some? ==> MotorReading(r) == r.motor.value
    ensures r.relay.Some? ==> RelayReading(r) == r.relay.value
    ensures r.status.None? && r.motor.None? ==> MotorReading(r) == 0
    ensures r.status.None? && r.relay.None? ==> RelayReading(r) == 0
    ensures r.speed.Some? ==> SpeedReported(c, r) == r.speed
    ensures r.temperature.Some? ==> TemperatureReading(c, r) == r.temperature
  {
  }

  lemma SpeedOfIs(us: real, cpm: real)
    requires us > 0.0 && cpm * us == 60000000.0
    ensures SpeedOf(us) == Round2(cpm)
  {
    Cancel(60000000.0 / us, cpm, us);
  }

  /** Without a direct speed, the step delay gives it: as many cycles of that length as fit a minute, rounded. */
  lemma DelayReads(c: Config, r: Report, us: real, cpm: real)
    requires r.speed.None? && r.speedDelay.Some? && r.speedDelay.value > 0 && c.stepsPerCycle > 0.0
    requires us == r.speedDelay.value as real * c.stepsPerCycle && us > 0.0 && cpm * us == 60000000.0
    ensures SpeedReported(c, r) == Some(Round2(cpm))
  {
    assert CycleLength(r.speedDelay.value, c.stepsPerCycle) == us;
    SpeedOfIs(us, cpm);
  }

  lemma NoSpeedIsReported(c: Config, r: Report)
    requires r.speed.None?
    ensures SpeedReported(c, r).None? <==> r.speedDelay.None? || r.speedDelay.value == 0 || c.stepsPerCycle <= 0.0
  {
  }

  /** Without a direct temperature, a converter configured for it gives it on its line, and otherwise there is none. */
  lemma ConverterReads(c: Config, r: Report, p: real)
    requires r.temperature.None? && (r.adc.Some? ==> p == r.adc.value as real * c.adcScale)
    ensures TemperatureReading(c, r)
         == if c.adcIsTemperature && r.adc.Some? then Some(p + c.adcOffset) else None
  {
    if r.adc.Some? { assert Converted(c, r.adc.value) == p + c.adcOffset; }
  }

  function DesiredRelay(c: Config, target: real, temperature: real, relay: nat): nat {
    if target > temperature + c.temperatureDeadband then 1
    else if target < temperature - c.temperatureDeadband then 0
    else relay
  }

  const NO_UPDATE := Caches(None, None)

  // ---------- the decision ----------

  function StirrerDecision(r: Report, t: Targets, caches: Caches): Decision {
    var current := Or(r.stirrer, caches.stirrer);
    if current.None? || Control.Distance(t.stirrer, current.value) > 0.01
    then Command(Pending(Stir(t.stirrer), Caches(None, Some(t.stirrer))))
    else Quiet
  }

  function RelayDecision(c: Config, r: Report, t: Targets, caches: Caches): Decision {
    if !c.relayControl then StirrerDecision(r, t, caches)
    else match TemperatureReading(c, r)
      case None => Refused
      case Some(temperature) =>
        var relay := RelayReading(r);
        var desired := DesiredRelay(c, t.temperature, temperature, relay);
        if desired != relay then Command(Pending(Relay(desired), NO_UPDATE)) else StirrerDecision(r, t, caches)
  }

  /** next_json_bridge_control */
  function Decide(c: Config, r: Report, t: Targets, caches: Caches): Decision {
    if !r.usable then Refused
    else if t.shake <= 0.01 && MotorReading(r) != 0 then Command(Pending(Motor(false), Caches(Some(0.0), None)))
    else if t.shake > 0.01 && MotorReading(r) == 0 then Command(Pending(Motor(true), Caches(Some(t.shake), None)))
    else
      var current := GetOr(Or(SpeedReported(c, r), caches.speed), 0.0);
      if Control.Distance(t.shake, current) > c.speedDeadband
      then Command(Pending(Speed(t.shake > current), Caches(Some(t.shake), None)))
      else RelayDecision(c, r, t, caches)
  }

  /** Nothing is decided from a report that is not usable, and the relay is not controlled without a temperature. */
  lemma RefusalIsExact(c: Config, r: Report, t: Targets, caches: Caches)
    ensures !r.usable ==> Decide(c, r, t, caches).Refused?
    ensures Decide(c, r, t, caches).Refused? && r.usable ==> c.relayControl && TemperatureReading(c, r).None?
    ensures c.relayControl && TemperatureReading(c, r).None? ==>
              var d := Decide(c, r, t, caches);
              d.Refused? || (d.Command? && (d.pending.control.Motor? || d.pending.control.Speed?))
  {
  }

  /** A shaker whose speed is neither reported nor cached is taken to stand still. */
  lemma UnknownSpeedIsZero(c: Config, r: Report, t: Targets, caches: Caches)
    requires r.usable && SpeedReported(c, r).None? && caches.speed.None? && (t.shake > 0.01 <==> MotorReading(r) != 0)
    ensures
      var d := Decide(c, r, t, caches);
      (d.Command? && d.pending.control == Speed(t.shake > 0.0)) <==>
      t.shake > c.speedDeadband || t.shake < -c.speedDeadband
  {
  }

  /** What each kind of command leaves in the caches: the shaker and stirrer targets it stands for, and nothing else. */
  lemma CommandUpdatesItsCache(c: Config, r: Report, t: Targets, caches: Caches)
    requires Decide(c, r, t, caches).Command?
    ensures
      var p := Decide(c, r, t, caches).pending;
      match p.control
      case Motor(on) => (on <==> t.shake > 0.01) && p.update == Caches(Some(if on then t.shake else 0.0), None)
      case Speed(_) => p.update == Caches(Some(t.shake), None)
      case Relay(_) => p.update == Caches(None, None)
      case Stir(rpm) => rpm == t.stirrer && p.update == Caches(None, Some(t.stirrer))
  {
  }

  /** apply_json_bridge_cache_update */
  function Updated(caches: Caches, update: Caches): Caches {
    Caches(Or(update.speed, caches.speed), Or(update.stirrer, caches.stirrer))
  }

  /** The device object: its two caches are written only after the command file was. */
  class JsonBridge {
    var lastSpeed: Option<real>
    var lastStirrer: Option<real>

    function Held(): Caches
      reads this
    {
      Caches(lastSpeed, lastStirrer)
    }

    constructor ()
      ensures Held() == Caches(None, None)
    {
      lastSpeed, lastStirrer := None, None;
    }

    /** write_targets; `written` says whether the command file could be written. */
    method Reconcile(c: Config, r: Report, t: Targets, written: bool) returns (d: Decision)
      modifies this
      ensures d == Decide(c, r, t, old(Held()))
      ensures Held() == if d.Command? && written then Updated(old(Held()), d.pending.update) else old(Held())
    {
      d := Decide(c, r, t, Held());
      if d.Command? && written {
        if d.pending.update.speed.Some? { lastSpeed := d.pending.update.speed; }
        if d.pending.update.stirrer.Some? { lastStirrer := d.pending.update.stirrer; }
      }
    }
  }

  // ---------- a downstream ----------

  datatype Plant = Plant(motor: nat, speed: real, relay: nat, temperature: real, stirrer: real)

  /** Motor, relay and stirrer commands apply at once, a speed command moves the speed by a fixed step. */
  function Applied(p: Plant, control: BridgeControl, step: real): Plant {
    match control
    case Motor(on) => p.(motor := if on then 1 else 0)
    case Speed(up) => p.(speed := if up then p.speed + step else p.speed - step)
    case Relay(value) => p.(relay := value)
    case Stir(rpm) => p.(stirrer := rpm)
  }

  datatype Situation = Situation(plant: Plant, caches: Caches)

  /**
   The report shows the plant: by field, status bit, delay or converter value, whichever the configuration reads. The
   stirrer speed may go unreported throughout; then the cache, once written, stands for it.
   */
  predicate Shows(c: Config, r: Report, s: Situation, stirrerReported: bool) {
    && r.usable
    && MotorReading(r) == s.plant.motor
    && SpeedReported(c, r) == Some(s.plant.speed)
    && (c.relayControl ==> RelayReading(r) == s.plant.relay && TemperatureReading(c, r) == Some(s.plant.temperature))
    && (if stirrerReported then r.stirrer == Some(s.plant.stirrer)
        else r.stirrer.None? && (s.caches.stirrer.None? || s.caches.stirrer == Some(s.plant.stirrer)))
  }

  function After(c: Config, t: Targets, step: real, r: Report, s: Situation): Situation {
    match Decide(c, r, t, s.caches)
    case Command(pending) => Situation(Applied(s.plant, pending.control, step), Updated(s.caches, pending.update))
    case Refused => s
    case Quiet => s
  }

  predicate IsRun(c: Config, t: Targets, step: real, stirrerReported: bool, reports: seq<Report>, run: seq<Situation>) {
    && |run| == |reports| + 1
    && forall i :: 0 <= i < |reports| ==>
         Shows(c, reports[i], run[i], stirrerReported) && run[i + 1] == After(c, t, step, reports[i], run[i])
  }

  // ---------- convergence ----------

  predicate MotorWrong(t: Targets, p: Plant) { t.shake > 0.01 <==> p.motor == 0 }

  /** How many speed commands bring the speed within the deadband. */
  function SpeedSteps(c: Config, t: Targets, p: Plant, step: real): (n: int)
    requires step > 0.0
  {
    if Control.Distance(t.shake, p.speed) <= c.speedDeadband then 0
    else Control.StepsNeeded(Control.Distance(t.shake, p.speed) - c.speedDeadband, step)
  }

  predicate RelayWrong(c: Config, t: Targets, p: Plant) {
    c.relayControl && DesiredRelay(c, t.temperature, p.temperature, p.relay) != p.relay
  }

  predicate StirrerWrong(t: Targets, s: Situation, stirrerReported: bool) {
    (!stirrerReported && s.caches.stirrer.None?) || Control.Distance(t.stirrer, s.plant.stirrer) > 0.01
  }

  /** The disagreement between plant and targets, counted in commands. */
  function Measure(c: Config, t: Targets, step: real, stirrerReported: bool, s: Situation): int
    requires step > 0.0
  {
    (if MotorWrong(t, s.plant) then 1 else 0) + SpeedSteps(c, t, s.plant, step)
    + (if RelayWrong(c, t, s.plant) then 1 else 0) + (if StirrerWrong(t, s, stirrerReported) then 1 else 0)
  }

  /** The plant is where the targets ask it to be, to the deadbands. */
  predicate Agrees(c: Config, t: Targets, p: Plant) {
    && (t.shake > 0.01 <==> p.motor != 0)
    && Control.Distance(t.shake, p.speed) <= c.speedDeadband
    && (c.relayControl && t.temperature > p.temperature + c.temperatureDeadband ==> p.relay == 1)
    && (c.relayControl && t.temperature < p.temperature - c.temperatureDeadband ==> p.relay == 0)
    && Control.Distance(t.stirrer, p.stirrer) <= 0.01
  }

  lemma Cancel(a: real, b: real, step: real)
    requires step > 0.0 && a * step == b * step
    ensures a == b
  {
    var d := a - b;
    assert d * step == 0.0;
    assert d > 0.0 ==> d * step > 0.0;
    assert d < 0.0 ==> d * step < 0.0;
  }

  lemma OneStepLess(x: real, step: real)
    requires step > 0.0
    ensures Control.StepsNeeded(x - step, step) == Control.StepsNeeded(x, step) - 1
    ensures 0.0 < x ==> Control.StepsNeeded(x, step) >= 1
    ensures 0.0 < x <= step ==> Control.StepsNeeded(x, step) == 1
  {
    var q := x / step;
    assert q * step == x;
    assert (q - 1.0) * step == x - step;
    Cancel((x - step) / step, q - 1.0, step);
    assert 0.0 < x ==> q > 0.0;
    assert x <= step ==> q <= 1.0;
  }

  lemma SpeedStepsCount(c: Config, t: Targets, p: Plant, step: real)
    requires step > 0.0
    ensures SpeedSteps(c, t, p, step) >= 0
    ensures SpeedSteps(c, t, p, step) == 0 <==> Control.Distance(t.shake, p.speed) <= c.speedDeadband
  {
    OneStepLess(Control.Distance(t.shake, p.speed) - c.speedDeadband, step);
  }

  /** A speed command takes exactly one off the steps that remain, if it cannot jump across the deadband. */
  lemma SpeedCommandCounts(c: Config, t: Targets, p: Plant, step: real)
    requires 0.0 < step <= 2.0 * c.speedDeadband && Control.Distance(t.shake, p.speed) > c.speedDeadband
    ensures SpeedSteps(c, t, Applied(p, Speed(t.shake > p.speed), step), step) == SpeedSteps(c, t, p, step) - 1
  {
    OneStepLess(Control.Distance(t.shake, p.speed) - c.speedDeadband, step);
  }

  /** What each reconciliation does: it is quiet exactly at measure zero, and otherwise takes exactly one off it. */
  lemma EachCallTakesOneOff(c: Config, t: Targets, step: real, stirrerReported: bool, r: Report, s: Situation)
    requires 0.0 < step <= 2.0 * c.speedDeadband && Shows(c, r, s, stirrerReported)
    ensures
      var d, m := Decide(c, r, t, s.caches), Measure(c, t, step, stirrerReported, s);
      && m >= 0 && !d.Refused?
      && (d.Quiet? <==> m == 0)
      && Measure(c, t, step, stirrerReported, After(c, t, step, r, s)) == (if m == 0 then 0 else m - 1)
  {
    SpeedStepsCount(c, t, s.plant, step);
    if Control.Distance(t.shake, s.plant.speed) > c.speedDeadband { SpeedCommandCounts(c, t, s.plant, step); }
  }

  lemma {:induction false} MeasureCountsDown(
      c: Config, t: Targets, step: real, stirrerReported: bool, reports: seq<Report>, run: seq<Situation>, k: nat)
    requires 0.0 < step <= 2.0 * c.speedDeadband && IsRun(c, t, step, stirrerReported, reports, run) && k < |reports|
    ensures
      var m := Measure(c, t, step, stirrerReported, run[0]);
      Measure(c, t, step, stirrerReported, run[k]) == if m <= k then 0 else m - k
  {
    EachCallTakesOneOff(c, t, step, stirrerReported, reports[0], run[0]);
    if k > 0 {
      MeasureCountsDown(c, t, step, stirrerReported, reports, run, k - 1);
      EachCallTakesOneOff(c, t, step, stirrerReported, reports[k - 1], run[k - 1]);
    }
  }

  lemma QuietAgrees(c: Config, t: Targets, step: real, stirrerReported: bool, s: Situation)
    requires ValidConfig(c) && step > 0.0 && Measure(c, t, step, stirrerReported, s) == 0
    ensures Agrees(c, t, s.plant)
  {
    SpeedStepsCount(c, t, s.plant, step);
  }

  /**
   With a step of at most twice the deadband, the reconciler falls quiet after exactly as many commands as the initial
   measure counts, stays quiet, and is quiet only where the plant agrees with the targets to the deadbands.
   */
  lemma ReconcilerConverges(
      c: Config, t: Targets, step: real, stirrerReported: bool, reports: seq<Report>, run: seq<Situation>, k: nat)
    requires ValidConfig(c) && 0.0 < step <= 2.0 * c.speedDeadband
    requires IsRun(c, t, step, stirrerReported, reports, run) && k < |reports|
    ensures
      var d, m := Decide(c, reports[k], t, run[k].caches), Measure(c, t, step, stirrerReported, run[0]);
      && (d.Quiet? <==> k >= m)
      && (d.Command? <==> k < m)
      && (d.Quiet? ==> Agrees(c, t, run[k].plant))
  {
    var m, left := Measure(c, t, step, stirrerReported, run[0]), Measure(c, t, step, stirrerReported, run[k]);
    assert left == if m <= k then 0 else m - k by { MeasureCountsDown(c, t, step, stirrerReported, reports, run, k); }
    EachCallTakesOneOff(c, t, step, stirrerReported, reports[k], run[k]);
    if left == 0 { QuietAgrees(c, t, step, stirrerReported, run[k]); }
  }

  /**
   Why the speed has to be reported: without a report the bridge trusts its own last command, so after one motor or
   speed command it sends no speed command for the same targets, wherever the plant is.
   */
  lemma UnreportedSpeedIsTrusted(c: Config, t: Targets, caches: Caches, r: Report, later: Report)
    requires c.speedDeadband >= 0.01 && t.shake >= 0.0 && SpeedReported(c, later).None?
    ensures
      var d := Decide(c, r, t, caches);
      d.Command? && (d.pending.control.Motor? || d.pending.control.Speed?) ==>
        var next := Decide(c, later, t, Updated(caches, d.pending.update));
        !(next.Command? && next.pending.control.Speed?)
  {
  }

  // ---------- larger steps ----------

  function FullReport(p: Plant): Report {
    Report(true, Some(p.motor), Some(p.relay), None, Some(p.speed), None, Some(p.temperature), None, Some(p.stirrer))
  }

  /** A plant half a step beside its target, on alternating sides. */
  function Swinging(t: Targets, step: real, k: nat): Plant {
    Plant(1, if k % 2 == 0 then t.shake + step / 2.0 else t.shake - step / 2.0, 0, t.temperature, t.stirrer)
  }

  lemma SwingingIsCommanded(c: Config, t: Targets, step: real, r: Report, s: Situation, k: nat)
    requires step > 2.0 * c.speedDeadband && step > 0.0 && t.shake > 0.01
    requires Shows(c, r, s, true) && s.plant == Swinging(t, step, k)
    ensures var d := Decide(c, r, t, s.caches); d.Command? && d.pending.control == Speed(k % 2 == 1)
  {
    assert Control.Distance(t.shake, s.plant.speed) == step / 2.0;
  }

  lemma SwingingGoesOn(t: Targets, step: real, k: nat)
    ensures Applied(Swinging(t, step, k), Speed(k % 2 == 1), step) == Swinging(t, step, k + 1)
  {
  }

  lemma {:induction false} LargeStepSwings(
      c: Config, t: Targets, step: real, run: seq<Situation>, reports: seq<Report>, k: nat)
    requires step > 2.0 * c.speedDeadband && step > 0.0 && t.shake > 0.01
    requires IsRun(c, t, step, true, reports, run) && k < |reports| && run[0].plant == Swinging(t, step, 0)
    ensures run[k].plant == Swinging(t, step, k)
    ensures var d := Decide(c, reports[k], t, run[k].caches); d.Command? && d.pending.control == Speed(k % 2 == 1)
  {
    if k > 0 {
      LargeStepSwings(c, t, step, run, reports, k - 1);
      SwingingGoesOn(t, step, k - 1);
      assert run[k] == After(c, t, step, reports[k - 1], run[k - 1]);
    }
    SwingingIsCommanded(c, t, step, reports[k], run[k], k);
  }

  /** The run in which a plant that reports everything is reconciled n times. */
  function ReportedRun(c: Config, t: Targets, step: real, s: Situation, n: nat): (seq<Report>, seq<Situation>)
    decreases n
  {
    if n == 0 then ([], [s])
    else
      var r := FullReport(s.plant);
      var rest := ReportedRun(c, t, step, After(c, t, step, r, s), n - 1);
      ([r] + rest.0, [s] + rest.1)
  }

  lemma {:induction false} ReportedRunIsRun(c: Config, t: Targets, step: real, s: Situation, n: nat)
    ensures
      var (reports, run) := ReportedRun(c, t, step, s, n);
      IsRun(c, t, step, true, reports, run) && |reports| == n && run[0] == s
    decreases n
  {
    if n > 0 {
      var r := FullReport(s.plant);
      var s' := After(c, t, step, r, s);
      ReportedRunIsRun(c, t, step, s', n - 1);
      var (reports', run') := ReportedRun(c, t, step, s', n - 1);
      var reports, run := [r] + reports', [s] + run';
      forall i | 0 <= i < n
        ensures Shows(c, reports[i], run[i], true) && run[i + 1] == After(c, t, step, reports[i], run[i])
      {
        if i > 0 { assert reports[i] == reports'[i - 1] && run[i] == run'[i - 1]; }
      }
    }
  }

  predicate QuietWithin(c: Config, t: Targets, step: real, s: Situation, n: nat) {
    var (reports, run) := ReportedRun(c, t, step, s, n);
    |run| > |reports| && exists k :: 0 <= k < |reports| && Decide(c, reports[k], t, run[k].caches).Quiet?
  }

  ghost predicate EventuallyQuiet(c: Config, t: Targets, step: real, s: Situation) {
    exists n: nat :: QuietWithin(c, t, step, s, n)
  }

  lemma SmallStepFallsQuiet(c: Config, t: Targets, step: real, s: Situation)
    requires ValidConfig(c) && 0.0 < step <= 2.0 * c.speedDeadband
    ensures EventuallyQuiet(c, t, step, s)
  {
    EachCallTakesOneOff(c, t, step, true, FullReport(s.plant), s);
    var m: nat := Measure(c, t, step, true, s);
    var (reports, run) := ReportedRun(c, t, step, s, m + 1);
    ReportedRunIsRun(c, t, step, s, m + 1);
    ReconcilerConverges(c, t, step, true, reports, run, m);
    assert QuietWithin(c, t, step, s, m + 1);
  }

  lemma LargeStepNeverFallsQuiet(c: Config, t: Targets, step: real)
    requires step > 2.0 * c.speedDeadband && step > 0.0 && t.shake > 0.01
    ensures !EventuallyQuiet(c, t, step, Situation(Swinging(t, step, 0), NO_UPDATE))
  {
    var s := Situation(Swinging(t, step, 0), NO_UPDATE);
    forall n: nat ensures !QuietWithin(c, t, step, s, n) {
      var (reports, run) := ReportedRun(c, t, step, s, n);
      ReportedRunIsRun(c, t, step, s, n);
      forall k | 0 <= k < |reports| ensures !Decide(c, reports[k], t, run[k].caches).Quiet? {
        LargeStepSwings(c, t, step, run, reports, k);
      }
    }
  }

  /** Twice the deadband is the exact bound: any larger step admits a plant that swings up and down for ever. */
  lemma StepBoundIsExact(c: Config, step: real)
    requires ValidConfig(c) && step > 0.0
    ensures (forall t: Targets, s: Situation :: EventuallyQuiet(c, t, step, s)) <==> step <= 2.0 * c.speedDeadband
  {
    if step <= 2.0 * c.speedDeadband {
      forall t: Targets, s: Situation ensures EventuallyQuiet(c, t, step, s) {
        SmallStepFallsQuiet(c, t, step, s);
      }
    } else {
      LargeStepNeverFallsQuiet(c, Targets(0.0, 1.0, 0.0), step);
    }
  }

  /** The simulator moves by 5 where the default deadband is 1: asked for 32.5 at 35 it swings for ever. */
  lemma SimulatorSwings(c: Config)
    requires c.speedDeadband == 1.0
    ensures !EventuallyQuiet(c, Targets(0.0, 32.5, 0.0), 5.0, Situation(Plant(1, 35.0, 0, 0.0, 0.0), NO_UPDATE))
  {
    LargeStepNeverFallsQuiet(c, Targets(0.0, 32.5, 0.0), 5.0);
  }
}
