/**
 Target writes field by field: what a committed write leaves in each of the seven fields, what each field holds in every
 state of every run, and the bounds every committed set is within.
 */
module TargetFields {
  import opened Common
  import opened Numbers
  import opened Control
  import opened Shared
  import opened Handlers
  import opened Runs
  import LatchWindows

  datatype FieldName = TemperatureField | HeatField | HoldField | CoolField | StirrerField | ShakeField | PressureField

  function Value(t: Targets, f: FieldName): real {
    match f
    case TemperatureField => t.temperature
    case HeatField => t.heat
    case HoldField => t.hold
    case CoolField => t.cool
    case StirrerField => t.stirrer
    case ShakeField => t.shake
    case PressureField => t.pressure
  }

  /** What a request asks for in a field, if anything. */
  function Requested(p: Patch, f: FieldName): Option<real> {
    match f
    case TemperatureField => p.temperature
    case HeatField => p.heat
    case HoldField => p.hold
    case CoolField => p.cool
    case StirrerField => p.stirrer
    case ShakeField => p.shake
    case PressureField => p.pressure
  }

  /** What a request wants a field to be: the value it asks for, or the one there is. */
  function Wanted(p: Patch, t: Targets, f: FieldName): real {
    match Requested(p, f) case Some(v) => v case None => Value(t, f)
  }

  // ---------- one write ----------

  lemma MergeIsFieldwise(p: Patch, t: Targets, f: FieldName)
    ensures Value(Merge(p, t), f) == Wanted(p, t, f)
    ensures Value(ApplyPatch(p, t), f) == Round2(Wanted(p, t, f))
  {
  }

  /** A step in which a target write is accepted. */
  predicate AcceptsWrite(s: State, a: Label, id: nat) {
    && a.Act? && a.id == id && id in s.hs && s.hs[id].HWriter?
    && s.hs[id].writer.pc == WCommit && WriterStep(s.sh, s.lim, s.hs[id].writer, a.choice).1.pc == WDone(true)
  }

  lemma AcceptedStep(s: State, a: Label, s': State, id: nat)
    requires StepOf(s, a, s') && AcceptsWrite(s, a, id)
    ensures
      var l := s.hs[id].writer;
      EffectOf(s, a) == CommitTargets(l.patch, l.next, l.snap.since) && s'.sh.rt.targets == l.next
  {
  }

  /**
   In every run, after an accepted write each field the request sets holds that value, and each other field the value it
   had at the commit, rounded to two decimals.
   */
  lemma AcceptedWriteSetsItsFields(run: seq<State>, labels: seq<Label>, k: nat, id: nat, f: FieldName)
    requires IsRun(run, labels) && k < |labels| && AcceptsWrite(run[k], labels[k], id)
    ensures
      var request := Requested(run[k].hs[id].writer.patch, f);
      Value(run[k + 1].sh.rt.targets, f)
        == Round2(if request.Some? then request.value else Value(run[k].sh.rt.targets, f))
  {
    assert StepOf(run[k], labels[k], run[k + 1]);
    LatchWindows.RunKeepsInv(run, labels, k);
    AcceptedStep(run[k], labels[k], run[k + 1], id);
    LatchWindows.HandlerIsPermitted(run[k].sh, run[k].lim, run[k].hs[id], labels[k].choice);
    MergeIsFieldwise(run[k].hs[id].writer.patch, run[k].sh.rt.targets, f);
  }

  // ---------- every state ----------

  /** One field after one logged event. */
  function FieldAfter(v: real, f: FieldName, e: Event): real {
    match e
    case TargetsCommitted(patch, _) =>
      Round2(match Requested(patch, f) case Some(requested) => requested case None => v)
    case TargetsForced(t) => Value(t, f)
    case TargetsOverwritten(t) => Value(t, f)
    case _ => v
  }

  function FieldReplay(log: seq<Event>, f: FieldName, v: real): real {
    if log == [] then v else FieldAfter(FieldReplay(log[..|log| - 1], f, v), f, log[|log| - 1])
  }

  lemma {:induction false} ReplayIsFieldwise(log: seq<Event>, t: Targets, f: FieldName)
    ensures Value(LatchWindows.Replay(log, t), f) == FieldReplay(log, f, Value(t, f))
  {
    if log != [] {
      var before, e := log[..|log| - 1], log[|log| - 1];
      ReplayIsFieldwise(before, t, f);
      if e.TargetsCommitted? { MergeIsFieldwise(e.patch, LatchWindows.Replay(before, t), f); }
    }
  }

  /** The last value given to a field: by a committed request that sets it, or by an assigned set. */
  function LastGiven(log: seq<Event>, f: FieldName, v: real): real {
    if log == [] then v else
      match log[|log| - 1]
      case TargetsCommitted(patch, _) =>
        (match Requested(patch, f) case Some(requested) => requested case None => LastGiven(log[..|log| - 1], f, v))
      case TargetsForced(t) => Value(t, f)
      case TargetsOverwritten(t) => Value(t, f)
      case _ => LastGiven(log[..|log| - 1], f, v)
  }

  lemma Round2Twice(x: real)
    ensures Round2(Round2(x)) == Round2(x)
  {
    Round2Exact(x);
    Round2Exact(Round2(x));
  }

  lemma {:induction false} ReplayKeepsLastGiven(log: seq<Event>, f: FieldName, v: real)
    ensures FieldReplay(log, f, v) == LastGiven(log, f, v) || FieldReplay(log, f, v) == Round2(LastGiven(log, f, v))
  {
    if log != [] {
      var before := log[..|log| - 1];
      ReplayKeepsLastGiven(before, f, v);
      Round2Twice(LastGiven(before, f, v));
    }
  }

  /**
   In every state of every run, each target field is the initial one with every logged update of that field applied in
   order, and is the last value given to it, as given or rounded to two decimals.
   */
  lemma FieldsFollowTheLog(run: seq<State>, labels: seq<Label>, k: nat, f: FieldName)
    requires IsRun(run, labels) && k < |run|
    ensures
      var v, log, initial := Value(run[k].sh.rt.targets, f), run[k].sh.log, Value(run[0].sh.rt.targets, f);
      && v == FieldReplay(log, f, initial)
      && (v == LastGiven(log, f, initial) || v == Round2(LastGiven(log, f, initial)))
  {
    LatchWindows.NoLostUpdates(run, labels, k);
    ReplayIsFieldwise(run[k].sh.log, run[0].sh.rt.targets, f);
    ReplayKeepsLastGiven(run[k].sh.log, f, Value(run[0].sh.rt.targets, f));
  }

  // ---------- bounds ----------

  function MaxHeat(lim: Limits, kind: WriterKind): real {
    match kind case ModbusWrite | OperatorWrite => 3600.0 case AinasWrite | V1Write | V1Load => lim.maxHeat
  }

  function MaxHold(lim: Limits, kind: WriterKind): real {
    match kind case ModbusWrite | OperatorWrite => 7200.0 case AinasWrite | V1Write | V1Load => lim.maxHold
  }

  /** The accepted range of every field of a target set. */
  predicate WithinBounds(lim: Limits, kind: WriterKind, t: Targets) {
    && 0.0 <= t.temperature <= 500.0 && t.temperature <= lim.maxTemperature
    && 0.0 <= t.stirrer <= 2000.0 && t.stirrer <= lim.maxStirrer
    && 0.0 <= t.shake <= 60.0 && 0.0 <= t.pressure <= 10.0 && 0.0 <= t.cool <= 3600.0
    && 0.0 <= t.heat <= MaxHeat(lim, kind) && 0.0 <= t.hold <= MaxHold(lim, kind)
  }

  /** Temperature and stirrer speed lie outside every forbidden zone. */
  predicate ZonesAvoided(lim: Limits, t: Targets) { OutsideZones(lim.zones, t.temperature, t.stirrer) }

  /** The set a request wants, before rounding. */
  function WantedSet(p: Patch, t: Targets): Targets {
    Targets(Wanted(p, t, TemperatureField), Wanted(p, t, HeatField), Wanted(p, t, HoldField), Wanted(p, t, CoolField),
            Wanted(p, t, StirrerField), Wanted(p, t, ShakeField), Wanted(p, t, PressureField))
  }

  /** The set that is tested against the zones: v1 control tests what was asked for, the others what will be stored. */
  function TestedSet(kind: WriterKind, t: Targets): Targets {
    match kind case V1Write => t case ModbusWrite | OperatorWrite | AinasWrite | V1Load => RoundAll(t)
  }

  predicate SetsOnly(p: Patch, f: FieldName) {
    Requested(p, f).Some? && forall g :: Requested(p, g).Some? ==> g == f
  }

  /** The fields each kind of request sets: one, some of three, any, or all. */
  predicate Shaped(kind: WriterKind, p: Patch) {
    match kind
    case ModbusWrite => exists f :: SetsOnly(p, f)
    case OperatorWrite =>
      && Requested(p, TemperatureField).Some? && Requested(p, StirrerField).Some?
      && forall f :: Requested(p, f).Some? ==> f == TemperatureField || f == StirrerField || f == ShakeField
    case AinasWrite => exists f :: Requested(p, f).Some?
    case V1Write | V1Load => forall f :: Requested(p, f).Some?
  }

  /** Every field of a patch by name. */
  predicate Named(p: Patch) {
    && Requested(p, TemperatureField) == p.temperature && Requested(p, HeatField) == p.heat
    && Requested(p, HoldField) == p.hold && Requested(p, CoolField) == p.cool
    && Requested(p, StirrerField) == p.stirrer && Requested(p, ShakeField) == p.shake
    && Requested(p, PressureField) == p.pressure
  }

  lemma OneFieldIsSet(p: Patch)
    ensures FieldCount(p) == 1 <==> exists f :: SetsOnly(p, f)
  {
    assert Named(p);
    if f :| SetsOnly(p, f) {
      match f
      case TemperatureField => case HeatField => case HoldField => case CoolField => case StirrerField =>
      case ShakeField => case PressureField =>
    } else if FieldCount(p) == 1 {
      var f := if p.temperature.Some? then TemperatureField else if p.heat.Some? then HeatField
               else if p.hold.Some? then HoldField else if p.cool.Some? then CoolField
               else if p.stirrer.Some? then StirrerField else if p.shake.Some? then ShakeField else PressureField;
      forall g | Requested(p, g).Some? ensures g == f {
        match g
        case TemperatureField => case HeatField => case HoldField => case CoolField => case StirrerField =>
        case ShakeField => case PressureField =>
      }
      assert SetsOnly(p, f);
    }
  }

  lemma SomeFieldIsSet(p: Patch)
    ensures FieldCount(p) >= 1 <==> exists f :: Requested(p, f).Some?
  {
    assert Named(p);
    if f :| Requested(p, f).Some? {
      match f
      case TemperatureField => case HeatField => case HoldField => case CoolField => case StirrerField =>
      case ShakeField => case PressureField =>
    }
  }

  lemma AllFieldsAreSet(p: Patch)
    ensures FieldCount(p) == 7 <==> forall f :: Requested(p, f).Some?
  {
    assert Named(p);
    if FieldCount(p) == 7 {
      forall f ensures Requested(p, f).Some? {
        match f
        case TemperatureField => case HeatField => case HoldField => case CoolField => case StirrerField =>
        case ShakeField => case PressureField =>
      }
    }
  }

  lemma OperatorFieldsAreSet(p: Patch)
    ensures PatchFits(OperatorWrite, p) <==> Shaped(OperatorWrite, p)
  {
    assert Named(p);
    if PatchFits(OperatorWrite, p) {
      forall f | Requested(p, f).Some? ensures f == TemperatureField || f == StirrerField || f == ShakeField {
        match f
        case TemperatureField => case HeatField => case HoldField => case CoolField => case StirrerField =>
        case ShakeField => case PressureField =>
      }
    }
  }

  lemma PatchShapeIsExact(kind: WriterKind, p: Patch)
    ensures PatchFits(kind, p) <==> Shaped(kind, p)
  {
    match kind
    case ModbusWrite => OneFieldIsSet(p);
    case OperatorWrite => OperatorFieldsAreSet(p);
    case AinasWrite => SomeFieldIsSet(p);
    case V1Write | V1Load => AllFieldsAreSet(p);
  }

  lemma WantedIsMerged(p: Patch, t: Targets)
    ensures WantedSet(p, t) == Merge(p, t) && RoundAll(WantedSet(p, t)) == ApplyPatch(p, t)
  {
  }

  lemma ZoneTestIsExact(lim: Limits, t: Targets)
    ensures ZoneFree(lim, t) <==> ZonesAvoided(lim, t)
  {
    if ZonesAvoided(lim, t) {
      forall i | 0 <= i < |lim.zones| ensures !lim.zones[i].Contains(t.temperature, t.stirrer) {
        assert OutsideZone(lim.zones[i], t.temperature, t.stirrer);
      }
    }
    if ZoneFree(lim, t) {
      forall i | 0 <= i < |lim.zones| ensures OutsideZone(lim.zones[i], t.temperature, t.stirrer) {
        assert !lim.zones[i].Contains(t.temperature, t.stirrer);
      }
    }
  }

  /**
   A request is read on exactly if it has the shape of its kind, is within bounds and outside the zones and, for Modbus,
   its register can carry the value.
   */
  lemma ReadSectionIsExact(sh: Shared, lim: Limits, l: Writer, c: Choice)
    requires l.pc == WRead
    ensures
      var (e, l') := WriterStep(sh, lim, l, c);
      var wanted := WantedSet(l.patch, sh.rt.targets);
      && e == Nothing && l'.current == sh.rt.targets && l'.next == RoundAll(wanted)
      && l'.kind == l.kind && l'.patch == l.patch
      && l'.pc == if && Shaped(l.kind, l.patch) && WithinBounds(lim, l.kind, wanted)
                     && ZonesAvoided(lim, TestedSet(l.kind, wanted)) && (l.kind == ModbusWrite ==> c.ok)
                  then WEnter else WDone(false)
  {
    PatchShapeIsExact(l.kind, l.patch);
    WantedIsMerged(l.patch, sh.rt.targets);
    ZoneTestIsExact(lim, TestedSet(l.kind, WantedSet(l.patch, sh.rt.targets)));
  }

  /** What a write that is under way has been tested for. */
  predicate Tested(lim: Limits, l: Writer) {
    l.pc != WRead && !l.pc.WDone? ==>
      var wanted := WantedSet(l.patch, l.current);
      && l.next == RoundAll(wanted) && WithinBounds(lim, l.kind, wanted)
      && ZonesAvoided(lim, TestedSet(l.kind, wanted))
  }

  lemma WriterStaysTested(sh: Shared, lim: Limits, l: Writer, c: Choice)
    requires Tested(lim, l)
    ensures Tested(lim, WriterStep(sh, lim, l, c).1)
  {
    if l.pc == WRead {
      ReadSectionIsExact(sh, lim, l, c);
    } else {
      var l' := WriterStep(sh, lim, l, c).1;
      assert l'.patch == l.patch && l'.current == l.current && l'.next == l.next && l'.kind == l.kind;
    }
  }

  predicate Inv(s: State) { forall id :: id in s.hs && s.hs[id].HWriter? ==> Tested(s.lim, s.hs[id].writer) }

  lemma StepKeepsInv(s: State, a: Label, s': State)
    requires StepOf(s, a, s') && Inv(s)
    ensures Inv(s')
  {
    if a.Act? && s.hs[a.id].HWriter? { WriterStaysTested(s.sh, s.lim, s.hs[a.id].writer, a.choice); }
  }

  lemma {:induction false} RunKeepsInv(run: seq<State>, labels: seq<Label>, k: nat)
    requires IsRun(run, labels) && k < |run|
    ensures Inv(run[k])
  {
    if k > 0 {
      RunKeepsInv(run, labels, k - 1);
      StepKeepsInv(run[k - 1], labels[k - 1], run[k]);
    }
  }

  /** Rounding keeps a value within bounds that lie on the grid. */
  lemma RoundWithin(x: real, min: real, max: real)
    requires min <= x <= max && OnGrid(min)
    ensures OnGrid(Round2(x)) && min <= Round2(x) && (OnGrid(max) ==> Round2(x) <= max)
  {
    Round2Exact(x);
    Round2StaysBelow(x, min);
    if OnGrid(max) { Round2StaysBelow(x, max); }
  }

  predicate GridLimits(lim: Limits) {
    OnGrid(lim.maxTemperature) && OnGrid(lim.maxStirrer) && OnGrid(lim.maxHeat) && OnGrid(lim.maxHold)
  }

  lemma RoundedWithinBounds(lim: Limits, kind: WriterKind, t: Targets)
    requires WithinBounds(lim, kind, t) && GridLimits(lim)
    ensures WithinBounds(lim, kind, RoundAll(t))
  {
    GridConstants();
    HundredthsOnGrid(50000);
    HundredthsOnGrid(200000);
    RoundWithin(t.temperature, 0.0, 500.0);
    RoundWithin(t.temperature, 0.0, lim.maxTemperature);
    RoundWithin(t.stirrer, 0.0, 2000.0);
    RoundWithin(t.stirrer, 0.0, lim.maxStirrer);
    RoundWithin(t.shake, 0.0, 60.0);
    RoundWithin(t.pressure, 0.0, 10.0);
    RoundWithin(t.cool, 0.0, 3600.0);
    RoundWithin(t.heat, 0.0, MaxHeat(lim, kind));
    RoundWithin(t.hold, 0.0, MaxHold(lim, kind));
  }

  /**
   In every run, the targets an accepted write leaves are the rounding of a set within bounds; the set tested against
   the zones is outside all of them, and for every kind but v1 control that is the committed set itself.
   */
  lemma CommittedTargetsFit(run: seq<State>, labels: seq<Label>, k: nat, id: nat)
    requires IsRun(run, labels) && k < |labels| && AcceptsWrite(run[k], labels[k], id)
    ensures
      var l, t := run[k].hs[id].writer, run[k + 1].sh.rt.targets;
      var wanted := WantedSet(l.patch, l.current);
      && t == RoundAll(wanted) && WithinBounds(run[k].lim, l.kind, wanted)
      && (GridLimits(run[k].lim) ==> WithinBounds(run[k].lim, l.kind, t))
      && (l.kind != V1Write ==> ZonesAvoided(run[k].lim, t))
      && (l.kind == V1Write ==> ZonesAvoided(run[k].lim, wanted))
  {
    assert StepOf(run[k], labels[k], run[k + 1]);
    RunKeepsInv(run, labels, k);
    AcceptedStep(run[k], labels[k], run[k + 1], id);
    var l := run[k].hs[id].writer;
    assert Tested(run[k].lim, l);
    if GridLimits(run[k].lim) { RoundedWithinBounds(run[k].lim, l.kind, WantedSet(l.patch, l.current)); }
  }
}
