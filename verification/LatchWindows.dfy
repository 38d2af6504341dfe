/**
 What every run keeps about latches, targets and resets, whatever the operator and the surroundings do:
 a risk-increasing commit takes effect only in a window without engagements, automatic control is never
 on under a latch, the targets are the committed updates in commit order, and resets clear only the
 engagement they acknowledged.
 */
module LatchWindows {
  import opened Common
  import opened Control
  import opened Runtime
  import opened Batches
  import opened Shared
  import opened Handlers
  import opened Runs

  // ---------- counting engagements ----------

  function EngagedCount(log: seq<Event>, latch: Latch): nat {
    if log == [] then 0 else
      EngagedCount(log[..|log| - 1], latch) + if log[|log| - 1] == Engaged(latch) then 1 else 0
  }

  /** No engagement of the latch is logged in positions [from, to). */
  predicate Quiet(log: seq<Event>, from: nat, to: nat, latch: Latch)
    requires to <= |log|
  {
    forall k :: from <= k < to ==> log[k] != Engaged(latch)
  }

  lemma {:induction false} CountOfPrefix(log: seq<Event>, p: nat, latch: Latch)
    requires p <= |log|
    ensures EngagedCount(log[..p], latch) <= EngagedCount(log, latch)
    ensures EngagedCount(log[..p], latch) == EngagedCount(log, latch) <==> Quiet(log, p, |log|, latch)
  {
    if p == |log| {
      assert log[..p] == log;
    } else {
      var n := |log| - 1;
      CountOfPrefix(log[..n], p, latch);
      assert log[..n][..p] == log[..p];
      assert forall k :: p <= k < n ==> log[..n][k] == log[k];
      assert Quiet(log, p, |log|, latch) <==> Quiet(log[..n], p, n, latch) && log[n] != Engaged(latch);
    }
  }

  lemma CountAppend1(log: seq<Event>, e: Event, latch: Latch)
    ensures EngagedCount(log + [e], latch) == EngagedCount(log, latch) + if e == Engaged(latch) then 1 else 0
  {
    assert (log + [e])[..|log|] == log;
  }

  /** The counter after n engagements, starting from g. */
  function SaturatingAdd(g: u64, n: nat): u64 {
    if g + n <= U64_MAX then g + n else U64_MAX
  }

  // ---------- the targets as a replay of the log ----------

  function ReplayOne(t: Targets, e: Event): Targets {
    match e
    case TargetsCommitted(patch, _) => ApplyPatch(patch, t)
    case TargetsForced(forced) => forced
    case TargetsOverwritten(overwritten) => overwritten
    case _ => t
  }

  /** Every committed field update and every whole-set assignment, applied in log order. */
  function Replay(log: seq<Event>, t: Targets): Targets {
    if log == [] then t else ReplayOne(Replay(log[..|log| - 1], t), log[|log| - 1])
  }

  lemma ReplayAppend1(log: seq<Event>, e: Event, t: Targets)
    ensures Replay(log + [e], t) == ReplayOne(Replay(log, t), e)
  {
    assert (log + [e])[..|log|] == log;
  }

  // ---------- what the log entries promise ----------

  /** The latch was quiet between the snapshot and the commit, or its counter was saturated at the snapshot. */
  predicate WindowHolds(log: seq<Event>, origin: Runtime, latch: Latch, since: nat, at: nat) {
    && since <= at <= |log|
    && (Quiet(log, since, at, latch) || SaturatingAdd(origin.Gen(latch), EngagedCount(log[..since], latch)) == U64_MAX)
  }

  predicate AllWindowsHold(log: seq<Event>, origin: Runtime, since: nat, at: nat) {
    forall latch :: WindowHolds(log, origin, latch, since, at)
  }

  predicate EntryOk(log: seq<Event>, origin: Runtime, i: nat)
    requires i < |log|
  {
    match log[i]
    case Activated(_, since, replaced) => replaced.None? && AllWindowsHold(log, origin, since, i)
    case AutoEnabled(since) => AllWindowsHold(log, origin, since, i)
    case TargetsCommitted(_, since) => AllWindowsHold(log, origin, since, i)
    case FaultCleared(since, active, unfinished, healthy) =>
      active.None? && unfinished == {} && healthy && WindowHolds(log, origin, ControlFault, since, i)
    case EmergencyCleared(since, active, unfinished, healthy) =>
      active.None? && unfinished == {} && healthy && WindowHolds(log, origin, EmergencyStop, since, i)
    case _ => true
  }

  predicate GensMatch(sh: Shared) {
    forall latch: Latch :: sh.rt.Gen(latch) == SaturatingAdd(sh.origin.Gen(latch), EngagedCount(sh.log, latch))
  }

  predicate SharedOk(sh: Shared) {
    && (sh.rt.auto ==> sh.rt.LatchesClear())
    && GensMatch(sh)
    && sh.rt.targets == Replay(sh.log, sh.origin.targets)
    && forall i :: 0 <= i < |sh.log| ==> EntryOk(sh.log, sh.origin, i)
  }

  // ---------- which effects a handler may have ----------

  predicate Permitted(sh: Shared, e: Effect) {
    match e
    case Activate(_, _, _, since) =>
      sh.rt.LatchesClear() && sh.rt.active.None? && AllWindowsHold(sh.log, sh.origin, since, |sh.log|)
    case EnableAuto(since) =>
      sh.rt.LatchesClear() && AllWindowsHold(sh.log, sh.origin, since, |sh.log|)
    case CommitTargets(patch, targets, since) =>
      && sh.rt.LatchesClear() && AllWindowsHold(sh.log, sh.origin, since, |sh.log|)
      && targets == ApplyPatch(patch, sh.rt.targets)
    case ClearFault(since, healthy) =>
      && sh.rt.active.None? && Unfinished(sh.rows) == {} && healthy
      && WindowHolds(sh.log, sh.origin, ControlFault, since, |sh.log|)
    case ClearEmergency(since, healthy) =>
      && sh.rt.active.None? && Unfinished(sh.rows) == {} && healthy
      && WindowHolds(sh.log, sh.origin, EmergencyStop, since, |sh.log|)
    case _ => true
  }

  /** The acknowledged generations are those of the log prefix at the snapshot. */
  predicate AckOk(sh: Shared, since: nat, latch: Latch, gen: u64) {
    since <= |sh.log| && gen == SaturatingAdd(sh.origin.Gen(latch), EngagedCount(sh.log[..since], latch))
  }

  predicate SnapshotOk(sh: Shared, snap: Snapshot) {
    forall latch :: AckOk(sh, snap.since, latch, snap.ack.Gen(latch))
  }

  predicate HoldsSnapshot(pc: StartPc) {
    match pc
    case SEnterQuery | SInsert | SPreCheck | SWrite | SAudit | SMarkApplied | SCommitQuery | SCommit => true
    case _ => false
  }

  predicate LocalOk(sh: Shared, h: Handler) {
    match h
    case HStart(l) =>
      HoldsSnapshot(l.pc) ==> SnapshotOk(sh, l.snap)
    case HWriter(l) =>
      && (l.pc == WEnterQuery || l.pc == WAudit || l.pc == WCommitQuery || l.pc == WCommit ==> SnapshotOk(sh, l.snap))
      && (l.pc != WRead && !l.pc.WDone? ==> l.next == ApplyPatch(l.patch, l.current) && PatchFits(l.kind, l.patch))
    case HAuto(l) =>
      l.pc == AEnterQuery || l.pc == AAudit || l.pc == AFinal ==> SnapshotOk(sh, l.snap)
    case HReset(l) =>
      l.pc == REnterQuery || l.pc == RAudit || l.pc == RFinal ==> AckOk(sh, l.since, l.latch, l.ackGen)
    case HStop(_) => true
    case HFinish(_) => true
  }

  // ---------- one entry at a time ----------

  /** A window that holds in a log holds in every extension of that log. */
  lemma WindowStable(log: seq<Event>, more: seq<Event>, origin: Runtime, latch: Latch, since: nat, at: nat)
    requires WindowHolds(log, origin, latch, since, at)
    ensures WindowHolds(log + more, origin, latch, since, at)
  {
    assert (log + more)[..since] == log[..since];
    if Quiet(log, since, at, latch) {
      assert forall k :: since <= k < at ==> (log + more)[k] == log[k];
    }
  }

  lemma AllWindowsStable(log: seq<Event>, more: seq<Event>, origin: Runtime, since: nat, at: nat)
    requires AllWindowsHold(log, origin, since, at)
    ensures AllWindowsHold(log + more, origin, since, at)
  {
    forall latch ensures WindowHolds(log + more, origin, latch, since, at) {
      WindowStable(log, more, origin, latch, since, at);
    }
  }

  lemma EntryOkStable(log: seq<Event>, more: seq<Event>, origin: Runtime, i: nat)
    requires i < |log| && EntryOk(log, origin, i)
    ensures EntryOk(log + more, origin, i)
  {
    match log[i]
    case Activated(_, since, _) => AllWindowsStable(log, more, origin, since, i);
    case AutoEnabled(since) => AllWindowsStable(log, more, origin, since, i);
    case TargetsCommitted(_, since) => AllWindowsStable(log, more, origin, since, i);
    case FaultCleared(since, _, _, _) => WindowStable(log, more, origin, ControlFault, since, i);
    case EmergencyCleared(since, _, _, _) => WindowStable(log, more, origin, EmergencyStop, since, i);
    case _ =>
  }

  /** Appending one admissible event keeps everything that is only about the log. */
  lemma AppendKeepsLog(sh: Shared, e: Event)
    requires forall i :: 0 <= i < |sh.log| ==> EntryOk(sh.log, sh.origin, i)
    requires EntryOk(sh.log + [e], sh.origin, |sh.log|)
    ensures forall i :: 0 <= i < |sh.log + [e]| ==> EntryOk(sh.log + [e], sh.origin, i)
    ensures Replay(sh.log + [e], sh.origin.targets) == ReplayOne(Replay(sh.log, sh.origin.targets), e)
    ensures forall latch ::
              EngagedCount(sh.log + [e], latch) == EngagedCount(sh.log, latch) + if e == Engaged(latch) then 1 else 0
  {
    forall i | 0 <= i < |sh.log| ensures EntryOk(sh.log + [e], sh.origin, i) {
      EntryOkStable(sh.log, [e], sh.origin, i);
    }
    ReplayAppend1(sh.log, e, sh.origin.targets);
    forall latch
      ensures EngagedCount(sh.log + [e], latch) == EngagedCount(sh.log, latch) + if e == Engaged(latch) then 1 else 0
    {
      CountAppend1(sh.log, e, latch);
    }
  }

  /** One logged event, together with the runtime change that goes with it, keeps the shared promises. */
  lemma LoggedStepKeepsShared(sh: Shared, rt: Runtime, e: Event)
    requires SharedOk(sh)
    requires EntryOk(sh.log + [e], sh.origin, |sh.log|)
    requires rt.auto ==> rt.LatchesClear()
    requires rt.targets == ReplayOne(sh.rt.targets, e)
    requires forall latch: Latch ::
               rt.Gen(latch) == if e == Engaged(latch) then SaturatingInc(sh.rt.Gen(latch)) else sh.rt.Gen(latch)
    ensures SharedOk(sh.(rt := rt, log := sh.log + [e]))
  {
    AppendKeepsLog(sh, e);
  }

  lemma QuietLoggedStep(sh: Shared, rt: Runtime, e: Event)
    requires SharedOk(sh)
    requires e.StartWritten? || e.StopWritten? || e.StopAudited? || e.HeldActive? || e.Released? || e.ManualUnlocked?
             || e.TargetsForced? || e.TargetsOverwritten?
    requires rt.auto ==> rt.LatchesClear()
    requires rt.targets == ReplayOne(sh.rt.targets, e)
    requires rt.manualGen == sh.rt.manualGen && rt.emergencyGen == sh.rt.emergencyGen && rt.faultGen == sh.rt.faultGen
    ensures SharedOk(sh.(rt := rt, log := sh.log + [e]))
  {
    LoggedStepKeepsShared(sh, rt, e);
  }

  lemma EngagedLoggedStep(sh: Shared, latch: Latch, reason: string)
    requires SharedOk(sh)
    ensures SharedOk(Apply(sh, EngageLatch(latch, reason)))
  {
    LoggedStepKeepsShared(sh, sh.rt.Engage(latch, reason), Engaged(latch));
  }

  /** A fault engagement, with the generations given latch by latch. */
  lemma FaultLoggedStep(sh: Shared, rt: Runtime)
    requires SharedOk(sh)
    requires !rt.auto && rt.targets == sh.rt.targets
    requires rt.manualGen == sh.rt.manualGen && rt.emergencyGen == sh.rt.emergencyGen
    requires rt.faultGen == SaturatingInc(sh.rt.faultGen)
    ensures SharedOk(sh.(rt := rt, log := sh.log + [Engaged(ControlFault)]))
  {
    var e := Engaged(ControlFault);
    forall latch: Latch
      ensures rt.Gen(latch) == if e == Engaged(latch) then SaturatingInc(sh.rt.Gen(latch)) else sh.rt.Gen(latch)
    {
      match latch case ManualLock => case EmergencyStop => case ControlFault =>
    }
    LoggedStepKeepsShared(sh, rt, e);
  }

  lemma ForcedThenFault(sh: Shared, rt: Runtime, targets: Targets)
    requires SharedOk(sh)
    requires !rt.auto && rt.targets == targets
    requires rt.manualGen == sh.rt.manualGen && rt.emergencyGen == sh.rt.emergencyGen
    requires rt.faultGen == SaturatingInc(sh.rt.faultGen)
    ensures SharedOk(sh.(rt := rt, log := sh.log + [TargetsForced(targets)] + [Engaged(ControlFault)]))
  {
    var forced := sh.rt.(targets := targets);
    QuietLoggedStep(sh, forced, TargetsForced(targets));
    var mid := sh.(rt := forced, log := sh.log + [TargetsForced(targets)]);
    FaultLoggedStep(mid, rt);
  }

  // ---------- effects ----------

  lemma CommitEffectKeepsShared(sh: Shared, e: Effect)
    requires SharedOk(sh) && Permitted(sh, e)
    requires e.EnableAuto? || e.CommitTargets? || e.Activate?
    ensures SharedOk(Apply(sh, e))
  {
    match e
    case EnableAuto(since) =>
      AllWindowsStable(sh.log, [AutoEnabled(since)], sh.origin, since, |sh.log|);
      LoggedStepKeepsShared(sh, sh.rt.(auto := true), AutoEnabled(since));
    case CommitTargets(patch, targets, since) =>
      AllWindowsStable(sh.log, [TargetsCommitted(patch, since)], sh.origin, since, |sh.log|);
      LoggedStepKeepsShared(sh, sh.rt.(targets := targets), TargetsCommitted(patch, since));
    case Activate(batch, targets, autoOn, since) =>
      var forced := TargetsForced(targets);
      var mid := sh.(rt := sh.rt.(targets := targets), log := sh.log + [forced]);
      QuietLoggedStep(sh, mid.rt, forced);
      ActivationWindow(sh.log, sh.origin, since, forced);
      var last := Activated(batch, since, sh.rt.active);
      AllWindowsStable(mid.log, [last], sh.origin, since, |mid.log|);
      LoggedStepKeepsShared(mid, mid.rt.(active := Some(batch), auto := autoOn), last);
      assert sh.log + [forced, last] == mid.log + [last];
  }

  lemma ActivationWindow(log: seq<Event>, origin: Runtime, since: nat, forced: Event)
    requires AllWindowsHold(log, origin, since, |log|) && forced.TargetsForced?
    ensures AllWindowsHold(log + [forced], origin, since, |log| + 1)
  {
    AllWindowsStable(log, [forced], origin, since, |log|);
    var end := |log| + 1;
    forall latch ensures WindowHolds(log + [forced], origin, latch, since, end) {
      assert WindowHolds(log + [forced], origin, latch, since, |log|);
    }
  }

  lemma ClearEffectKeepsShared(sh: Shared, e: Effect)
    requires SharedOk(sh) && Permitted(sh, e)
    requires e.ClearFault? || e.ClearEmergency?
    ensures SharedOk(Apply(sh, e))
  {
    match e
    case ClearFault(since, healthy) =>
      var last := FaultCleared(since, sh.rt.active, Unfinished(sh.rows), healthy);
      WindowStable(sh.log, [last], sh.origin, ControlFault, since, |sh.log|);
      LoggedStepKeepsShared(sh, sh.rt.Clear(ControlFault), last);
    case ClearEmergency(since, healthy) =>
      var last := EmergencyCleared(since, sh.rt.active, Unfinished(sh.rows), healthy);
      WindowStable(sh.log, [last], sh.origin, EmergencyStop, since, |sh.log|);
      LoggedStepKeepsShared(sh, sh.rt.Clear(EmergencyStop), last);
  }

  /** A release logs itself only if the batch was the active one. */
  lemma ClearedKeepsShared(sh: Shared, batch: int, since: nat, stopped: bool)
    requires SharedOk(sh) && !sh.rt.auto
    ensures
      var mine := sh.rt.active == Some(batch);
      SharedOk(sh.(rt := sh.rt.(active := if mine then None else sh.rt.active),
                   log := sh.log + if mine then [Released(batch, since, stopped)] else []))
  {
    if sh.rt.active == Some(batch) {
      QuietLoggedStep(sh, sh.rt.(active := None), Released(batch, since, stopped));
    } else {
      assert sh.log + [] == sh.log && sh.rt.(active := sh.rt.active) == sh.rt;
    }
  }

  lemma AutoOffKeepsShared(sh: Shared)
    requires SharedOk(sh)
    ensures SharedOk(sh.(rt := sh.rt.(auto := false)))
  {
    var off := sh.(rt := sh.rt.(auto := false));
    forall latch: Latch ensures off.rt.Gen(latch) == sh.rt.Gen(latch) {
      match latch case ManualLock => case EmergencyStop => case ControlFault =>
    }
  }

  lemma ReleaseKeepsShared(sh: Shared, batch: int, settle: Option<Targets>, since: nat)
    requires SharedOk(sh)
    ensures SharedOk(Apply(sh, Release(batch, settle, since)))
  {
    if settle.Some? {
      var forced := TargetsForced(settle.value);
      var mid := sh.(rt := sh.rt.(auto := false, targets := settle.value), log := sh.log + [forced]);
      QuietLoggedStep(sh, mid.rt, forced);
      ClearedKeepsShared(mid, batch, since, true);
    } else {
      AutoOffKeepsShared(sh);
      ClearedKeepsShared(sh.(rt := sh.rt.(auto := false)), batch, since, false);
      assert sh.log + [] == sh.log;
    }
  }

  lemma HoldKeepsShared(sh: Shared, batch: int, targets: Targets, reason: string)
    requires SharedOk(sh)
    ensures SharedOk(Apply(sh, Hold(batch, targets, reason)))
  {
    var rt := sh.rt.(active := Some(batch), targets := targets).Engage(ControlFault, reason);
    ForcedThenFault(sh, rt, targets);
    var mid := sh.(rt := rt, log := sh.log + [TargetsForced(targets)] + [Engaged(ControlFault)]);
    QuietLoggedStep(mid, rt, HeldActive(batch, sh.rt.active));
    assert sh.log + [TargetsForced(targets), Engaged(ControlFault), HeldActive(batch, sh.rt.active)]
        == mid.log + [HeldActive(batch, sh.rt.active)];
  }

  /** Every permitted effect keeps the shared promises. */
  lemma EffectKeepsShared(sh: Shared, e: Effect)
    requires SharedOk(sh) && Permitted(sh, e)
    ensures SharedOk(Apply(sh, e))
  {
    match e
    case Nothing | InsertRow | CloseRow(_, _) | LoseRow(_) =>
    case AutoOff => AutoOffKeepsShared(sh);
    case EngageLatch(latch, reason) => EngagedLoggedStep(sh, latch, reason);
    case TerminateLoop(reason) =>
      FaultLoggedStep(sh, sh.rt.Engage(ControlFault, reason).(loopTerminated := true));
    case Unlock => QuietLoggedStep(sh, sh.rt.Clear(ManualLock), ManualUnlocked);
    case ClearFault(_, _) | ClearEmergency(_, _) => ClearEffectKeepsShared(sh, e);
    case WriteStart(row) => QuietLoggedStep(sh, sh.rt, StartWritten(row, sh.rt.active));
    case WriteStop => QuietLoggedStep(sh, sh.rt, StopWritten);
    case AuditStop(batch) => QuietLoggedStep(sh, sh.rt, StopAudited(batch));
    case Activate(_, _, _, _) | EnableAuto(_) | CommitTargets(_, _, _) => CommitEffectKeepsShared(sh, e);
    case ForceTargets(targets) =>
      QuietLoggedStep(sh, sh.rt.(targets := targets, auto := false), TargetsForced(targets));
    case OverwriteTargets(targets) =>
      QuietLoggedStep(sh, sh.rt.(targets := targets), TargetsOverwritten(targets));
    case ForceTargetsAndFault(targets, reason) =>
      ForcedThenFault(sh, sh.rt.(targets := targets).Engage(ControlFault, reason), targets);
      assert sh.log + [TargetsForced(targets), Engaged(ControlFault)]
          == sh.log + [TargetsForced(targets)] + [Engaged(ControlFault)];
    case Release(batch, settle, since) => ReleaseKeepsShared(sh, batch, settle, since);
    case Hold(batch, targets, reason) => HoldKeepsShared(sh, batch, targets, reason);
    case RollBack(batch, targets) => QuietLoggedStep(sh, Apply(sh, e).rt, TargetsForced(targets));
  }

  // ---------- handlers ----------

  /** The log only grows, and the configuration is fixed. */
  lemma ApplyExtendsLog(sh: Shared, e: Effect)
    ensures |sh.log| <= |Apply(sh, e).log| && Apply(sh, e).log[..|sh.log|] == sh.log
    ensures Apply(sh, e).origin == sh.origin && Apply(sh, e).stopTargets == sh.stopTargets
  {
  }

  lemma AckOkStable(sh: Shared, e: Effect, since: nat, latch: Latch, gen: u64)
    requires AckOk(sh, since, latch, gen)
    ensures AckOk(Apply(sh, e), since, latch, gen)
  {
    ApplyExtendsLog(sh, e);
    assert Apply(sh, e).log[..since] == Apply(sh, e).log[..|sh.log|][..since] == sh.log[..since];
  }

  lemma SnapshotOkStable(sh: Shared, e: Effect, snap: Snapshot)
    requires SnapshotOk(sh, snap)
    ensures SnapshotOk(Apply(sh, e), snap)
  {
    forall latch ensures AckOk(Apply(sh, e), snap.since, latch, snap.ack.Gen(latch)) {
      AckOkStable(sh, e, snap.since, latch, snap.ack.Gen(latch));
    }
  }

  /** What a handler relies on survives every effect of every other handler. */
  lemma LocalOkStable(sh: Shared, e: Effect, h: Handler)
    requires LocalOk(sh, h)
    ensures LocalOk(Apply(sh, e), h)
  {
    match h
    case HStart(l) => if SnapshotOk(sh, l.snap) { SnapshotOkStable(sh, e, l.snap); }
    case HWriter(l) => if SnapshotOk(sh, l.snap) { SnapshotOkStable(sh, e, l.snap); }
    case HAuto(l) => if SnapshotOk(sh, l.snap) { SnapshotOkStable(sh, e, l.snap); }
    case HReset(l) => if AckOk(sh, l.since, l.latch, l.ackGen) { AckOkStable(sh, e, l.since, l.latch, l.ackGen); }
    case HStop(_) | HFinish(_) =>
  }

  lemma FreshSnapshot(sh: Shared)
    requires SharedOk(sh)
    ensures SnapshotOk(sh, Snapshot.Of(sh))
    ensures forall latch :: AckOk(sh, |sh.log|, latch, sh.rt.Gen(latch))
  {
    assert sh.log[..|sh.log|] == sh.log;
    forall latch ensures AckOk(sh, |sh.log|, latch, Generations.From(sh.rt).Gen(latch)) {
      assert Generations.From(sh.rt).Gen(latch) == sh.rt.Gen(latch);
    }
  }

  /** An unchanged generation means a quiet window, or a saturated counter. */
  lemma UnchangedMeansQuiet(sh: Shared, since: nat, latch: Latch, gen: u64)
    requires SharedOk(sh) && AckOk(sh, since, latch, gen) && gen == sh.rt.Gen(latch)
    ensures WindowHolds(sh.log, sh.origin, latch, since, |sh.log|)
  {
    CountOfPrefix(sh.log, since, latch);
  }

  lemma UnchangedSnapshot(sh: Shared, snap: Snapshot)
    requires SharedOk(sh) && SnapshotOk(sh, snap) && !snap.ack.ChangedSince(sh.rt)
    ensures AllWindowsHold(sh.log, sh.origin, snap.since, |sh.log|)
  {
    forall latch ensures WindowHolds(sh.log, sh.origin, latch, snap.since, |sh.log|) {
      assert AckOk(sh, snap.since, latch, snap.ack.Gen(latch));
      UnchangedMeansQuiet(sh, snap.since, latch, snap.ack.Gen(latch));
    }
  }

  lemma StartCarriesSnapshot(sh: Shared, l: Start, c: Choice)
    ensures
      var (e, l') := StartStep(sh, l, c);
      HoldsSnapshot(l'.pc) ==>
        || (e == AutoOff && l'.snap == Snapshot.Of(sh))
        || (HoldsSnapshot(l.pc) && l'.snap == l.snap)
  {
    if HoldsSnapshot(l.pc) {
      assert StartStep(sh, l, c).1.snap == l.snap;
    } else if l.pc == SEnter {
      assert StartStep(sh, l, c).0 == AutoOff && StartStep(sh, l, c).1.snap == Snapshot.Of(sh);
    } else {
      assert !HoldsSnapshot(StartStep(sh, l, c).1.pc);
    }
  }

  lemma StartIsPermitted(sh: Shared, l: Start, c: Choice)
    requires SharedOk(sh) && LocalOk(sh, HStart(l))
    ensures Permitted(sh, StartStep(sh, l, c).0)
  {
    if l.pc == SCommit && !l.snap.ack.ChangedSince(sh.rt) { UnchangedSnapshot(sh, l.snap); }
  }

  lemma StartKeepsLocal(sh: Shared, l: Start, c: Choice)
    requires SharedOk(sh) && LocalOk(sh, HStart(l))
    ensures LocalOk(Apply(sh, StartStep(sh, l, c).0), HStart(StartStep(sh, l, c).1))
  {
    StartCarriesSnapshot(sh, l, c);
    var (e, l') := StartStep(sh, l, c);
    FreshSnapshot(sh);
    if SnapshotOk(sh, l'.snap) { SnapshotOkStable(sh, e, l'.snap); }
  }

  lemma WriterIsPermitted(sh: Shared, lim: Limits, l: Writer, c: Choice)
    requires SharedOk(sh) && LocalOk(sh, HWriter(l))
    ensures Permitted(sh, WriterStep(sh, lim, l, c).0)
    ensures LocalOk(Apply(sh, WriterStep(sh, lim, l, c).0), HWriter(WriterStep(sh, lim, l, c).1))
  {
    var e := WriterStep(sh, lim, l, c).0;
    if SnapshotOk(sh, l.snap) { SnapshotOkStable(sh, e, l.snap); }
    if l.pc == WEnter {
      FreshSnapshot(sh);
      SnapshotOkStable(sh, AutoOff, Snapshot.Of(sh));
    }
    if l.pc == WCommit && !l.snap.ack.ChangedSince(sh.rt) { UnchangedSnapshot(sh, l.snap); }
  }

  lemma AutoIsPermitted(sh: Shared, l: Auto, c: Choice)
    requires SharedOk(sh) && LocalOk(sh, HAuto(l))
    ensures Permitted(sh, AutoStep(sh, l, c).0)
    ensures LocalOk(Apply(sh, AutoStep(sh, l, c).0), HAuto(AutoStep(sh, l, c).1))
  {
    var e := AutoStep(sh, l, c).0;
    if SnapshotOk(sh, l.snap) { SnapshotOkStable(sh, e, l.snap); }
    if l.pc == AEnter {
      FreshSnapshot(sh);
      SnapshotOkStable(sh, AutoOff, Snapshot.Of(sh));
    }
    if l.pc == AFinal && !l.snap.ack.ChangedSince(sh.rt) { UnchangedSnapshot(sh, l.snap); }
  }

  lemma ResetIsPermitted(sh: Shared, l: Reset, c: Choice)
    requires SharedOk(sh) && LocalOk(sh, HReset(l))
    ensures Permitted(sh, ResetStep(sh, l, c).0)
  {
    VerdictIsExact(Unfinished(sh.rows), None, READ_LIMIT);
    if l.pc == RFinal && l.ackGen == sh.rt.Gen(l.latch) {
      UnchangedMeansQuiet(sh, l.since, l.latch, l.ackGen);
    }
  }

  lemma ResetKeepsLocal(sh: Shared, l: Reset, c: Choice)
    requires SharedOk(sh) && LocalOk(sh, HReset(l))
    ensures LocalOk(Apply(sh, ResetStep(sh, l, c).0), HReset(ResetStep(sh, l, c).1))
  {
    var (e, l') := ResetStep(sh, l, c);
    if l.pc == REnter {
      FreshSnapshot(sh);
      AckOkStable(sh, e, |sh.log|, l.latch, sh.rt.Gen(l.latch));
    } else if AckOk(sh, l.since, l.latch, l.ackGen) {
      AckOkStable(sh, e, l.since, l.latch, l.ackGen);
    }
  }

  lemma HandlerIsPermitted(sh: Shared, lim: Limits, h: Handler, c: Choice)
    requires SharedOk(sh) && LocalOk(sh, h)
    ensures Permitted(sh, HandlerStep(sh, lim, h, c).0)
    ensures LocalOk(Apply(sh, HandlerStep(sh, lim, h, c).0), HandlerStep(sh, lim, h, c).1)
  {
    match h
    case HStart(l) => StartIsPermitted(sh, l, c); StartKeepsLocal(sh, l, c);
    case HWriter(l) => WriterIsPermitted(sh, lim, l, c);
    case HAuto(l) => AutoIsPermitted(sh, l, c);
    case HReset(l) => ResetIsPermitted(sh, l, c); ResetKeepsLocal(sh, l, c);
    case HStop(_) | HFinish(_) =>
  }

  // ---------- runs ----------

  predicate Inv(s: State) {
    SharedOk(s.sh) && forall id :: id in s.hs ==> LocalOk(s.sh, s.hs[id])
  }

  lemma InitialInv(s: State)
    requires Initial(s)
    ensures Inv(s)
  {
  }

  lemma StepKeepsInv(s: State, a: Label, s': State)
    requires Inv(s) && StepOf(s, a, s')
    ensures Inv(s')
  {
    var e := EffectOf(s, a);
    if a.Act? { HandlerIsPermitted(s.sh, s.lim, s.hs[a.id], a.choice); }
    EffectKeepsShared(s.sh, e);
    forall id | id in Next(s, a).hs ensures LocalOk(Next(s, a).sh, Next(s, a).hs[id]) {
      if id in s.hs && !(a.Act? && a.id == id) { LocalOkStable(s.sh, e, s.hs[id]); }
    }
  }

  lemma {:induction false} RunKeepsInv(run: seq<State>, labels: seq<Label>, k: nat)
    requires IsRun(run, labels) && k < |run|
    ensures Inv(run[k])
    ensures run[k].sh.origin == run[0].sh.rt
  {
    if k == 0 {
      InitialInv(run[0]);
    } else {
      RunKeepsInv(run, labels, k - 1);
      StepKeepsInv(run[k - 1], labels[k - 1], run[k]);
      assert StepOf(run[k - 1], labels[k - 1], run[k]);
      ApplyExtendsLog(run[k - 1].sh, EffectOf(run[k - 1], labels[k - 1]));
    }
  }

  // ---------- theorems ----------

  /**
   In every run, every activation, auto-enable and target commit in the log happened in a window in which no
   latch was engaged since the snapshot the handler acknowledged, even if it was cleared again, and no activation
   replaced another active batch; automatic control is never on while a latch is set.
   */
  lemma CommitsHappenInQuietWindows(run: seq<State>, labels: seq<Label>, k: nat)
    requires IsRun(run, labels) && k < |run|
    ensures run[k].sh.rt.auto ==> run[k].sh.rt.LatchesClear()
    ensures forall i :: 0 <= i < |run[k].sh.log| ==> EntryOk(run[k].sh.log, run[0].sh.rt, i)
  {
    RunKeepsInv(run, labels, k);
  }

  /** In every run the targets are the initial ones with every logged update applied in commit order. */
  lemma NoLostUpdates(run: seq<State>, labels: seq<Label>, k: nat)
    requires IsRun(run, labels) && k < |run|
    ensures run[k].sh.rt.targets == Replay(run[k].sh.log, run[0].sh.rt.targets)
  {
    RunKeepsInv(run, labels, k);
  }

  /** A refused target write changes neither the targets nor the log; an accepted one logs its own patch. */
  lemma WriterCommitsOrLeavesTargets(sh: Shared, lim: Limits, l: Writer, c: Choice)
    requires !l.pc.WDone?
    ensures
      var (e, l') := WriterStep(sh, lim, l, c);
      && (l'.pc != WDone(true) ==> Apply(sh, e).rt.targets == sh.rt.targets && Apply(sh, e).log == sh.log)
      && (l'.pc == WDone(true) ==> Apply(sh, e).log == sh.log + [TargetsCommitted(l.patch, l.snap.since)])
  {
  }
}
