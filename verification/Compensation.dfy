/**
 Start compensation, over every disciplined run and every pattern of failures: what holds when a start that
 has issued its device command returns an error.
 */
module Compensation {
  import opened Common
  import opened Control
  import opened Runtime
  import opened Batches
  import opened Shared
  import opened Handlers
  import opened Runs
  import LatchWindows
  import StartExclusion
  import Closure

  /** The device accepted stop targets after position `at` of the log. */
  predicate StopAfter(log: seq<Event>, at: nat) {
    exists j :: at < j < |log| && log[j] == StopWritten
  }

  /** A whole-set assignment of the targets. */
  predicate SetsTargets(e: Event) { e.TargetsForced? || e.TargetsOverwritten? }

  /** The targets are the last ones assigned after position `at`, or the given ones if there was no assignment. */
  predicate LastSetSince(log: seq<Event>, at: nat, own: Targets, targets: Targets) {
    || (targets == own && forall j :: at < j < |log| ==> !SetsTargets(log[j]))
    || exists j :: at < j < |log| && SetsTargets(log[j]) && EndsWith(log, j, targets)
  }

  /** Every assignment from position `from` on is of these targets. */
  predicate EndsWith(log: seq<Event>, from: nat, targets: Targets) {
    forall i :: from <= i < |log| && SetsTargets(log[i]) ==> log[i].targets == targets
  }

  /** What handlers assigned after position `at` are the stop targets. */
  predicate OnlyStopForced(sh: Shared, at: nat) {
    forall j :: at < j < |sh.log| && sh.log[j].TargetsForced? ==> sh.log[j].targets == sh.stopTargets
  }

  /**
   The runtime still holds the batch as active, under a latched fault. Its targets are the activation targets, unless
   they were assigned since; then they are the last ones assigned, and those are the stop targets of another stop or
   finish attempt, or what a component action overwrote them with.
   */
  predicate HeldSafely(sh: Shared, l: Start) {
    && sh.rt.active == Some(l.row) && sh.rt.fault.Some?
    && l.held.Some? && l.held.value < |sh.log|
    && LastSetSince(sh.log, l.held.value, l.targets, sh.rt.targets) && OnlyStopForced(sh, l.held.value)
  }

  predicate StartOk(sh: Shared, l: Start) {
    && (l.command.Accepted? ==> l.command.at < |sh.log|)
    && ((l.pc == SFailAudit || l.pc == SFailFinish) && l.command.Refused? ==> sh.rt.fault.Some?)
    && (l.pc == SRollClear || l.pc == SRollFinish || (l.pc == STailLatch && l.held.None?) ==>
          l.command.Accepted? && StopAfter(sh.log, l.command.at))
    && (l.held.Some? ==> l.pc == STailLatch || l.pc.SDone?)
    && (l.pc == STailLatch && l.held.Some? ==>
          l.command.Accepted? && (StopAfter(sh.log, l.command.at) || HeldSafely(sh, l)))
  }

  /** The row a start answers for is known; once its rollback is done it is not active, closed if the call worked. */
  predicate RowOk(sh: Shared, l: Start) {
    && (Owns(l) ==> l.row < sh.nextId)
    && (l.pc == STailLatch && l.held.None? ==>
          sh.rt.active != Some(l.row) && (!l.unclosed ==> Closed(sh.rows, l.row)))
  }

  /** A stop or finish handler whose stop command the device has accepted. */
  predicate PastWrite(h: Handler) {
    match h
    case HStop(l) =>
      l.pc == PSettle || l.pc == PFinish || l.pc == PReload || l.pc == PAudit || l.pc == PMissingAudit
      || l.pc == PTailLatch || l.pc == PRelease
    case HFinish(l) =>
      l.WasActive() &&
      (l.pc == FSettle || l.pc == FClose || l.pc == FReload || l.pc == FAudit || l.pc == FMissingSettle
       || l.pc == FMissingAudit || l.pc == FTailLatch || l.pc == FRelease)
    case _ => false
  }

  /** A closer of a held batch either has not stopped the device yet, or its stop command came after the start. */
  predicate PairOk(sh: Shared, h: Handler, m: Handler) {
    h.HStart? && h.start.pc == STailLatch && h.start.held.Some? && StartExclusion.Closing(m) == Some(h.start.row) ==>
      && !(m.HFinish? && !m.finish.WasActive())
      && (PastWrite(m) ==> h.start.command.Accepted? && StopAfter(sh.log, h.start.command.at))
  }

  predicate OwnRows(h: Handler, m: Handler) {
    h.HStart? && m.HStart? && Owns(h.start) && Owns(m.start) ==> h.start.row != m.start.row
  }

  predicate Inv(s: State) {
    && (forall id :: id in s.hs && s.hs[id].HStart? ==> StartOk(s.sh, s.hs[id].start) && RowOk(s.sh, s.hs[id].start))
    && (forall id, other :: id in s.hs && other in s.hs && id != other ==>
          PairOk(s.sh, s.hs[id], s.hs[other]) && OwnRows(s.hs[id], s.hs[other]))
  }

  // ---------- effects ----------

  lemma StopAfterStable(sh: Shared, e: Effect, at: nat)
    ensures StopAfter(sh.log, at) ==> StopAfter(Apply(sh, e).log, at)
    ensures e.WriteStop? && at < |sh.log| ==> StopAfter(Apply(sh, e).log, at)
  {
    LatchWindows.ApplyExtendsLog(sh, e);
    var log' := Apply(sh, e).log;
    if StopAfter(sh.log, at) {
      var j :| at < j < |sh.log| && sh.log[j] == StopWritten;
      assert log'[j] == log'[..|sh.log|][j];
    }
    if e.WriteStop? { assert log'[|sh.log|] == StopWritten; }
  }

  /** Stop and finish handlers only ever force the stop targets, and release only the batch they are closing. */
  predicate StopsOnly(sh: Shared, e: Effect, h: Handler) {
    && (e.ForceTargets? ==> e.targets == sh.stopTargets)
    && (e.ForceTargetsAndFault? ==> e.targets == sh.stopTargets)
    && (e.Release? ==>
          && StartExclusion.Closing(h) == Some(e.batch)
          && (e.settle.Some? ==> PastWrite(h) && e.settle.value == sh.stopTargets)
          && (e.settle.None? ==> h.HFinish? && !h.finish.WasActive()))
  }

  lemma HandlerStopsOnly(sh: Shared, lim: Limits, h: Handler, c: Choice)
    ensures StopsOnly(sh, HandlerStep(sh, lim, h, c).0, h)
  {
  }

  /** Every target set an effect logs is the one the runtime then has, and without one the targets are kept. */
  lemma ForcedIsLogged(sh: Shared, e: Effect)
    requires !e.CommitTargets?
    ensures
      var sh' := Apply(sh, e);
      && (forall j :: |sh.log| <= j < |sh'.log| && SetsTargets(sh'.log[j]) ==> sh'.log[j].targets == sh'.rt.targets)
      && (sh'.rt.targets == sh.rt.targets || exists j :: |sh.log| <= j < |sh'.log| && SetsTargets(sh'.log[j]))
  {
    var sh' := Apply(sh, e);
    match e
    case Activate(_, _, _, _) => assert SetsTargets(sh'.log[|sh.log|]);
    case Hold(_, _, _) => assert SetsTargets(sh'.log[|sh.log|]);
    case RollBack(_, _) => assert SetsTargets(sh'.log[|sh.log|]);
    case ForceTargets(_) => assert SetsTargets(sh'.log[|sh.log|]);
    case ForceTargetsAndFault(_, _) => assert SetsTargets(sh'.log[|sh.log|]);
    case OverwriteTargets(_) => assert SetsTargets(sh'.log[|sh.log|]);
    case Release(_, settle, _) => assert settle.Some? ==> SetsTargets(sh'.log[|sh.log|]);
    case _ =>
  }

  /** The runtime keeps the last assigned targets. */
  lemma HeldTargetsStay(sh: Shared, e: Effect, at: nat, own: Targets)
    requires at < |sh.log| && !e.CommitTargets? && LastSetSince(sh.log, at, own, sh.rt.targets)
    ensures LastSetSince(Apply(sh, e).log, at, own, Apply(sh, e).rt.targets)
  {
    LatchWindows.ApplyExtendsLog(sh, e);
    ForcedIsLogged(sh, e);
    var log, log', t := sh.log, Apply(sh, e).log, Apply(sh, e).rt.targets;
    assert forall j :: 0 <= j < |log| ==> log'[j] == log'[..|log|][j] == log[j];
    if j :| |log| <= j < |log'| && SetsTargets(log'[j]) {
      assert EndsWith(log', j, t);
    } else if j :| at < j < |log| && SetsTargets(log[j]) && EndsWith(log, j, sh.rt.targets) {
      assert SetsTargets(log'[j]) && EndsWith(log', j, t);
    }
  }

  /** New assignments by handlers are of the stop targets. */
  predicate ForcesOnlyStop(sh: Shared, e: Effect) {
    var log' := Apply(sh, e).log;
    forall j :: |sh.log| <= j < |log'| && log'[j].TargetsForced? ==> log'[j].targets == sh.stopTargets
  }

  lemma OnlyStopForcedStays(sh: Shared, e: Effect, at: nat)
    requires at < |sh.log| && OnlyStopForced(sh, at) && ForcesOnlyStop(sh, e)
    ensures OnlyStopForced(Apply(sh, e), at)
  {
    LatchWindows.ApplyExtendsLog(sh, e);
    var log, log' := sh.log, Apply(sh, e).log;
    assert forall j :: 0 <= j < |log| ==> log'[j] == log'[..|log|][j] == log[j];
  }

  /** While a batch is active no start forces its own targets, and closers force only the stop targets. */
  lemma ActiveBatchForcesOnlyStop(sh: Shared, e: Effect, h: Handler)
    requires StartExclusion.LocalOk(sh, h) && StartExclusion.Bounded(sh, e, h) && StopsOnly(sh, e, h)
    requires sh.rt.active.Some?
    ensures ForcesOnlyStop(sh, e)
  {
  }

  /** A held batch stays held. */
  lemma HeldStays(sh: Shared, e: Effect, h: Handler, l: Start)
    requires HeldSafely(sh, l)
    requires LatchWindows.Permitted(sh, e) && StartExclusion.LocalOk(sh, h) && StartExclusion.Bounded(sh, e, h)
    requires StopsOnly(sh, e, h)
    requires e.Release? ==> e.batch != l.row
    ensures HeldSafely(Apply(sh, e), l)
  {
    LatchWindows.ApplyExtendsLog(sh, e);
    HeldTargetsStay(sh, e, l.held.value, l.targets);
    ActiveBatchForcesOnlyStop(sh, e, h);
    OnlyStopForcedStays(sh, e, l.held.value);
  }

  lemma StartStaysOk(sh: Shared, e: Effect, h: Handler, l: Start)
    requires StartOk(sh, l) && StartExclusion.LocalOk(sh, HStart(l))
    requires LatchWindows.Permitted(sh, e) && StartExclusion.LocalOk(sh, h) && StartExclusion.Bounded(sh, e, h)
    requires StopsOnly(sh, e, h) && PairOk(sh, HStart(l), h)
    ensures StartOk(Apply(sh, e), l)
  {
    LatchWindows.ApplyExtendsLog(sh, e);
    if l.command.Accepted? { StopAfterStable(sh, e, l.command.at); }
    if sh.rt.fault.Some? && !e.ClearFault? { FaultStays(sh, e); }
    if l.pc == STailLatch && l.held.Some? && !StopAfter(sh.log, l.command.at) { HeldStays(sh, e, h, l); }
  }

  lemma SurroundingsLeaveStart(sh: Shared, e: Effect, l: Start)
    requires StartOk(sh, l) && FromSurroundings(e)
    ensures StartOk(Apply(sh, e), l)
  {
    LatchWindows.ApplyExtendsLog(sh, e);
    if l.command.Accepted? { StopAfterStable(sh, e, l.command.at); }
    if l.pc == STailLatch && l.held.Some? && HeldSafely(sh, l) {
      HeldTargetsStay(sh, e, l.held.value, l.targets);
      OnlyStopForcedStays(sh, e, l.held.value);
    }
  }

  lemma PairStaysOk(sh: Shared, e: Effect, h: Handler, m: Handler)
    requires PairOk(sh, h, m)
    ensures PairOk(Apply(sh, e), h, m)
  {
    if h.HStart? && h.start.command.Accepted? { StopAfterStable(sh, e, h.start.command.at); }
  }

  // ---------- rows ----------

  /** Nobody else activates the row, and a closed row stays closed. */
  lemma RowStaysOk(sh: Shared, e: Effect, l: Start)
    requires RowOk(sh, l)
    requires (e.Activate? || e.Hold?) && Owns(l) ==> e.batch != l.row
    ensures RowOk(Apply(sh, e), l)
  {
    if Owns(l) { Closure.ClosedStays(sh, e, l.row); }
  }

  lemma RowAfterStart(sh: Shared, l: Start, c: Choice)
    requires RowOk(sh, l) && StartExclusion.LocalOk(sh, HStart(l))
    ensures RowOk(Apply(sh, StartStep(sh, l, c).0), StartStep(sh, l, c).1)
  {
    Closure.StartKeepsRow(sh, l, c);
    Closure.NextIdGrows(sh, StartStep(sh, l, c).0);
  }

  lemma OwnRowsAfterStart(sh: Shared, l: Start, c: Choice, m: Handler)
    requires OwnRows(HStart(l), m) && OwnRows(m, HStart(l)) && (m.HStart? ==> RowOk(sh, m.start))
    ensures OwnRows(HStart(StartStep(sh, l, c).1), m) && OwnRows(m, HStart(StartStep(sh, l, c).1))
  {
    Closure.StartKeepsRow(sh, l, c);
  }

  // ---------- the acting handler ----------

  predicate RollingBack(pc: StartPc) {
    match pc
    case SRollStop | SRollStopLatch | SRollHold | SRollClear | SRollFinish | STailLatch => true
    case _ => false
  }

  lemma EarlyStartActs(sh: Shared, l: Start, c: Choice)
    requires StartOk(sh, l) && StartExclusion.CommandOk(l) && !RollingBack(l.pc)
    ensures StartOk(Apply(sh, StartStep(sh, l, c).0), StartStep(sh, l, c).1)
  {
    LatchWindows.ApplyExtendsLog(sh, StartStep(sh, l, c).0);
  }

  lemma RollbackActs(sh: Shared, l: Start, c: Choice)
    requires StartOk(sh, l) && StartExclusion.CommandOk(l) && RollingBack(l.pc)
    ensures StartOk(Apply(sh, StartStep(sh, l, c).0), StartStep(sh, l, c).1)
  {
    var e := StartStep(sh, l, c).0;
    LatchWindows.ApplyExtendsLog(sh, e);
    StopAfterStable(sh, e, l.command.at);
  }

  lemma StartActs(sh: Shared, l: Start, c: Choice)
    requires StartOk(sh, l) && StartExclusion.CommandOk(l)
    ensures StartOk(Apply(sh, StartStep(sh, l, c).0), StartStep(sh, l, c).1)
  {
    if RollingBack(l.pc) { RollbackActs(sh, l, c); } else { EarlyStartActs(sh, l, c); }
  }

  /** A start reaches the held tail only from its own pending part. */
  lemma HeldTailComesFromPending(sh: Shared, l: Start, c: Choice)
    requires StartOk(sh, l)
    ensures
      var l' := StartStep(sh, l, c).1;
      l'.pc == STailLatch && l'.held.Some? ==> Pending(l) && l'.row == l.row
  {
  }

  /** A closer gets past its write only by an accepted stop command. */
  lemma CloserPassesWrite(sh: Shared, lim: Limits, h: Handler, c: Choice)
    ensures
      var (e, h') := HandlerStep(sh, lim, h, c);
      PastWrite(h') ==> e.WriteStop? || (PastWrite(h) && StartExclusion.Closing(h') == StartExclusion.Closing(h))
  {
  }

  lemma UnstoppedFinishTarget(sh: Shared, l: Finish, c: Choice)
    ensures
      var l' := FinishStep(sh, l, c).1;
      !l'.WasActive() && StartExclusion.Closing(HFinish(l')).Some? ==>
        && !l.WasActive() && l'.batch == l.batch
        && (l.pc == FLookup || StartExclusion.Closing(HFinish(l)) == Some(l.batch))
  {
  }

  lemma PairAfterStart(sh: Shared, l: Start, c: Choice, m: Handler)
    requires StartOk(sh, l) && StartExclusion.PairOk(HStart(l), m)
    ensures PairOk(Apply(sh, StartStep(sh, l, c).0), HStart(StartStep(sh, l, c).1), m)
  {
    HeldTailComesFromPending(sh, l, c);
  }

  lemma PairAfterCloser(sh: Shared, lim: Limits, h: Handler, c: Choice, m: Handler)
    requires !h.HStart? && m.HStart? && StartOk(sh, m.start) && PairOk(sh, m, h)
    requires h.HFinish? && h.finish.pc == FLookup && !h.finish.WasActive() && Owns(m.start) ==>
               m.start.row != h.finish.batch
    ensures PairOk(Apply(sh, HandlerStep(sh, lim, h, c).0), m, HandlerStep(sh, lim, h, c).1)
  {
    CloserPassesWrite(sh, lim, h, c);
    if h.HFinish? { UnstoppedFinishTarget(sh, h.finish, c); }
    if m.start.command.Accepted? { StopAfterStable(sh, HandlerStep(sh, lim, h, c).0, m.start.command.at); }
  }

  // ---------- runs ----------

  predicate AllInv(s: State) {
    LatchWindows.Inv(s) && StartExclusion.Inv(s) && Inv(s)
  }

  lemma ActKeepsStarts(s: State, id: nat, c: Choice, other: nat)
    requires AllInv(s) && Enabled(s, Act(id, c)) && Disciplined(s, Act(id, c))
    requires other in s.hs && Next(s, Act(id, c)).hs[other].HStart?
    ensures StartOk(Next(s, Act(id, c)).sh, Next(s, Act(id, c)).hs[other].start)
    ensures RowOk(Next(s, Act(id, c)).sh, Next(s, Act(id, c)).hs[other].start)
  {
    var h := s.hs[id];
    var e := HandlerStep(s.sh, s.lim, h, c).0;
    if other == id {
      StartActs(s.sh, h.start, c);
      RowAfterStart(s.sh, h.start, c);
    } else {
      LatchWindows.HandlerIsPermitted(s.sh, s.lim, h, c);
      StartExclusion.HandlerIsBounded(s.sh, s.lim, h, c);
      HandlerStopsOnly(s.sh, s.lim, h, c);
      StartStaysOk(s.sh, e, h, s.hs[other].start);
      RowStaysOk(s.sh, e, s.hs[other].start);
    }
  }

  lemma ActKeepsPairs(s: State, id: nat, c: Choice, one: nat, two: nat)
    requires AllInv(s) && Enabled(s, Act(id, c)) && Disciplined(s, Act(id, c))
    requires one in s.hs && two in s.hs && one != two
    ensures PairOk(Next(s, Act(id, c)).sh, Next(s, Act(id, c)).hs[one], Next(s, Act(id, c)).hs[two])
    ensures OwnRows(Next(s, Act(id, c)).hs[one], Next(s, Act(id, c)).hs[two])
  {
    var h := s.hs[id];
    var e := HandlerStep(s.sh, s.lim, h, c).0;
    if one == id {
      if h.HStart? {
        PairAfterStart(s.sh, h.start, c, s.hs[two]);
        OwnRowsAfterStart(s.sh, h.start, c, s.hs[two]);
      }
    } else if two == id {
      var m := s.hs[one];
      if m.HStart? && !h.HStart? { PairAfterCloser(s.sh, s.lim, h, c, m); }
      if h.HStart? { OwnRowsAfterStart(s.sh, h.start, c, m); }
    } else {
      PairStaysOk(s.sh, e, s.hs[one], s.hs[two]);
    }
  }

  lemma StepKeepsStarts(s: State, a: Label, s': State, id: nat)
    requires AllInv(s) && DisciplinedStep(s, a, s') && id in s'.hs && s'.hs[id].HStart?
    ensures StartOk(s'.sh, s'.hs[id].start) && RowOk(s'.sh, s'.hs[id].start)
  {
    if a.Act? { ActKeepsStarts(s, a.id, a.choice, id); }
    if a.Surroundings? {
      SurroundingsLeaveStart(s.sh, a.effect, s.hs[id].start);
      RowStaysOk(s.sh, a.effect, s.hs[id].start);
    }
  }

  lemma StepKeepsPairs(s: State, a: Label, s': State, id: nat, other: nat)
    requires AllInv(s) && DisciplinedStep(s, a, s') && id in s'.hs && other in s'.hs && id != other
    ensures PairOk(s'.sh, s'.hs[id], s'.hs[other]) && OwnRows(s'.hs[id], s'.hs[other])
  {
    if a.Act? { ActKeepsPairs(s, a.id, a.choice, id, other); }
    if a.Surroundings? { PairStaysOk(s.sh, a.effect, s.hs[id], s.hs[other]); }
  }

  lemma StepKeepsInv(s: State, a: Label, s': State)
    requires AllInv(s) && DisciplinedStep(s, a, s')
    ensures Inv(s')
  {
    forall id | id in s'.hs && s'.hs[id].HStart?
      ensures StartOk(s'.sh, s'.hs[id].start) && RowOk(s'.sh, s'.hs[id].start)
    {
      StepKeepsStarts(s, a, s', id);
    }
    forall id, other | id in s'.hs && other in s'.hs && id != other
      ensures PairOk(s'.sh, s'.hs[id], s'.hs[other]) && OwnRows(s'.hs[id], s'.hs[other])
    {
      StepKeepsPairs(s, a, s', id, other);
    }
  }

  lemma InitialInv(s: State)
    requires Initial(s)
    ensures AllInv(s)
  {
    LatchWindows.InitialInv(s);
    StartExclusion.InitialInv(s);
  }

  lemma StepKeepsAllInv(s: State, a: Label, s': State)
    requires AllInv(s) && DisciplinedStep(s, a, s')
    ensures AllInv(s')
  {
    LatchWindows.StepKeepsInv(s, a, s');
    StartExclusion.StepKeepsInv(s, a, s');
    StepKeepsInv(s, a, s');
  }

  lemma {:induction false} RunKeepsInv(run: seq<State>, labels: seq<Label>, k: nat)
    requires IsDisciplinedRun(run, labels) && k < |run|
    ensures AllInv(run[k])
  {
    if k == 0 {
      InitialInv(run[0]);
    } else {
      RunKeepsInv(run, labels, k - 1);
      StepKeepsAllInv(run[k - 1], labels[k - 1], run[k]);
    }
  }

  /**
   What a start establishes with the step that returns its error. Its row is unfinished only if the batch is held or
   the call that should have closed the row did not take effect, and in the latter case recovery is required.
   */
  predicate Compensated(sh: Shared, l: Start) {
    && sh.rt.fault.Some?
    && (l.command.Accepted? ==> StopAfter(sh.log, l.command.at) || HeldSafely(sh, l))
    && (l.row in Unfinished(sh.rows) && l.held.None? ==>
          l.unclosed && StatusOf(ReadUnfinished(sh), sh.rt.active).RecoveryRequired())
  }

  /** The latch that ends a rollback keeps what the rollback established. */
  lemma TailKeepsHeld(sh: Shared, l: Start, e: Effect)
    requires StartOk(sh, l) && l.pc == STailLatch && e.EngageLatch?
    ensures StopAfter(Apply(sh, e).log, l.command.at) || HeldSafely(Apply(sh, e), l.(pc := SDone(false)))
  {
    LatchWindows.ApplyExtendsLog(sh, e);
    StopAfterStable(sh, e, l.command.at);
    if !StopAfter(sh.log, l.command.at) {
      HeldTargetsStay(sh, e, l.held.value, l.targets);
      OnlyStopForcedStays(sh, e, l.held.value);
    }
  }

  /** An unfinished row that is not the active batch makes recovery required. */
  lemma UnaccountedRowNeedsRecovery(sh: Shared, row: int)
    requires row in Unfinished(sh.rows) && sh.rt.active != Some(row)
    ensures StatusOf(ReadUnfinished(sh), sh.rt.active).RecoveryRequired()
  {
    VerdictIsExact(Unfinished(sh.rows), sh.rt.active, READ_LIMIT);
  }

  lemma ErrorReturnRow(sh: Shared, l: Start, c: Choice)
    requires RowOk(sh, l) && StartExclusion.LocalOk(sh, HStart(l)) && (l.pc == SFailFinish || l.pc == STailLatch)
    ensures
      var (e, l') := StartStep(sh, l, c);
      l'.row in Unfinished(Apply(sh, e).rows) && l'.held.None? ==>
        l'.unclosed && Apply(sh, e).rt.active != Some(l'.row)
  {
  }

  lemma ErrorReturnIsCompensated(sh: Shared, l: Start, c: Choice)
    requires StartOk(sh, l) && RowOk(sh, l) && StartExclusion.LocalOk(sh, HStart(l)) && !l.pc.SDone?
    requires StartStep(sh, l, c).1.pc == SDone(false) && !StartStep(sh, l, c).1.command.Unsent?
    ensures Compensated(Apply(sh, StartStep(sh, l, c).0), StartStep(sh, l, c).1)
  {
    assert l.pc == SFailFinish || l.pc == STailLatch;
    ErrorReturnRow(sh, l, c);
    var (e, l') := StartStep(sh, l, c);
    if l'.row in Unfinished(Apply(sh, e).rows) && l'.held.None? { UnaccountedRowNeedsRecovery(Apply(sh, e), l'.row); }
    if l.pc == STailLatch { TailKeepsHeld(sh, l, StartStep(sh, l, c).0); }
  }

  /**
   In every disciplined run, when a start that has issued its device command returns an error: a control fault is
   latched; if the device had accepted the command, either it accepted stop targets later or the runtime holds that
   batch as active, with its activation targets or exactly the last ones assigned since; and an unfinished row of a
   batch that is not held is one whose closing call did not take effect, and leaves recovery required.
   */
  lemma FailedStartIsCompensated(run: seq<State>, labels: seq<Label>, k: nat, id: nat)
    requires IsDisciplinedRun(run, labels) && k < |labels| && labels[k].Act? && labels[k].id == id
    requires id in run[k].hs && run[k].hs[id].HStart? && !run[k].hs[id].start.pc.SDone?
    requires id in run[k + 1].hs && run[k + 1].hs[id].HStart? && run[k + 1].hs[id].start.pc == SDone(false)
    requires !run[k + 1].hs[id].start.command.Unsent?
    ensures Compensated(run[k + 1].sh, run[k + 1].hs[id].start)
  {
    RunKeepsInv(run, labels, k);
    assert StepOf(run[k], labels[k], run[k + 1]);
    var s, c := run[k], labels[k].choice;
    var l := s.hs[id].start;
    assert StartExclusion.LocalOk(s.sh, s.hs[id]) && StartOk(s.sh, l);
    assert run[k + 1] == Next(s, Act(id, c));
    ErrorReturnIsCompensated(s.sh, l, c);
  }

  // ---------- after a failed device write ----------

  /** A start whose device command failed. */
  predicate WriteFailed(h: Handler) {
    h.HStart? && h.start.command.Refused? && StartExclusion.CommandOk(h.start) && h.start.pc != SDone(true)
  }

  /** All such a start does in one step is latch the fault and try to close its row. */
  predicate OnlyLatches(e: Effect, row: int) {
    e.Nothing? || (e.EngageLatch? && e.latch == ControlFault) || (e.CloseRow? && e.row == row)
  }

  lemma RefusedStartOnlyLatches(sh: Shared, l: Start, c: Choice)
    requires WriteFailed(HStart(l))
    ensures
      var (e, l') := StartStep(sh, l, c);
      WriteFailed(HStart(l')) && l'.row == l.row && OnlyLatches(e, l.row)
  {
  }

  predicate FailedWriteOf(s: State, id: nat, row: int) {
    id in s.hs && WriteFailed(s.hs[id]) && s.hs[id].start.row == row
  }

  lemma StepKeepsFailedWrite(s: State, a: Label, s': State, id: nat, row: int)
    requires StepOf(s, a, s') && FailedWriteOf(s, id, row)
    ensures FailedWriteOf(s', id, row)
  {
    if a.Act? && a.id == id { RefusedStartOnlyLatches(s.sh, s.hs[id].start, a.choice); }
  }

  lemma {:induction false} FailedWriteStays(run: seq<State>, labels: seq<Label>, k: nat, m: nat, id: nat, row: int)
    requires IsRun(run, labels) && k <= m < |run| && FailedWriteOf(run[k], id, row)
    ensures FailedWriteOf(run[m], id, row)
    decreases m
  {
    if k < m {
      FailedWriteStays(run, labels, k, m - 1, id, row);
      StepKeepsFailedWrite(run[m - 1], labels[m - 1], run[m], id, row);
    }
  }

  lemma FailedWriteBegins(s: State, id: nat, c: Choice)
    requires id in s.hs && s.hs[id].HStart? && s.hs[id].start.pc == SWrite && !c.ok
    ensures FailedWriteOf(Next(s, Act(id, c)), id, s.hs[id].start.row)
  {
  }

  /**
   In every run: from the step in which its device write fails, no step of that start writes stop targets or holds a
   batch; it never succeeds, and all it does is latch the fault and try to close its own row.
   */
  lemma FailedWriteNeverStops(run: seq<State>, labels: seq<Label>, k: nat, m: nat, id: nat)
    requires IsRun(run, labels) && k < m < |labels|
    requires labels[k].Act? && labels[k].id == id && !labels[k].choice.ok
    requires id in run[k].hs && run[k].hs[id].HStart? && run[k].hs[id].start.pc == SWrite
    ensures id in run[m].hs && run[m].hs[id].HStart? && run[m].hs[id].start.pc != SDone(true)
    ensures labels[m].Act? && labels[m].id == id ==> OnlyLatches(EffectAt(run[m], labels[m]), run[k].hs[id].start.row)
  {
    var row := run[k].hs[id].start.row;
    assert StepOf(run[k], labels[k], run[k + 1]) && StepOf(run[m], labels[m], run[m + 1]);
    FailedWriteBegins(run[k], id, labels[k].choice);
    assert FailedWriteOf(run[k + 1], id, row);
    FailedWriteStays(run, labels, k + 1, m, id, row);
    if labels[m].Act? && labels[m].id == id {
      RefusedStartOnlyLatches(run[m].sh, run[m].hs[id].start, labels[m].choice);
    }
  }
}
