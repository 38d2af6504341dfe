/**
 What the outcome of a request tells, over every run: a request that succeeded had each of its calls succeed before it,
 a stop or finish that fails after it went to the device leaves the fault latched, and handlers assign whole target sets
 only as stop targets or with an activation.
 */
module Outcomes {
  import opened Common
  import Control
  import opened Runtime
  import opened Batches
  import opened Shared
  import opened Handlers
  import opened Runs
  import Closure
  import LatchWindows

  // ---------- success needs every call ----------

  /** The sections in which a request makes a call it depends on. */
  datatype Call = DeviceWrite | Audit | Mark | TableRead | Commit

  /** The handler is at this call. */
  predicate IsAt(h: Handler, call: Call) {
    match (h, call)
    case (HStart(l), DeviceWrite) => l.pc == SWrite
    case (HStart(l), Audit) => l.pc == SAudit
    case (HStart(l), Mark) => l.pc == SMarkApplied
    case (HStart(l), TableRead) => l.pc == SCommitQuery
    case (HStart(l), Commit) => l.pc == SCommit
    case (HWriter(l), Audit) => l.pc == WAudit
    case (HWriter(l), TableRead) => l.pc == WCommitQuery
    case (HWriter(l), Commit) => l.pc == WCommit
    case (HAuto(l), Audit) => l.pc == AAudit
    case (HReset(l), Audit) => l.pc == RAudit
    case _ => false
  }

  /** In this step the handler made the call, and it succeeded. */
  predicate Makes(s: State, a: Label, id: nat, call: Call) {
    && a.Act? && a.id == id && id in s.hs && IsAt(s.hs[id], call)
    && (call != Commit ==> a.choice.ok)
  }

  ghost predicate Made(run: seq<State>, labels: seq<Label>, k: nat, id: nat, call: Call) {
    k <= |labels| < |run| && exists j :: 0 <= j < k && Makes(run[j], labels[j], id, call)
  }

  /** The handler is past this call on the way to success. */
  predicate IsPast(h: Handler, call: Call) {
    match h
    case HStart(l) =>
      (match call
       case DeviceWrite =>
         l.pc == SAudit || l.pc == SMarkApplied || l.pc == SCommitQuery || l.pc == SCommit || l.pc == SDone(true)
       case Audit => l.pc == SMarkApplied || l.pc == SCommitQuery || l.pc == SCommit || l.pc == SDone(true)
       case Mark => l.kind == ProcessStart && (l.pc == SCommitQuery || l.pc == SCommit || l.pc == SDone(true))
       case TableRead => l.pc == SCommit || l.pc == SDone(true)
       case Commit => l.pc == SDone(true))
    case HWriter(l) =>
      (match call
       case Audit => l.pc == WCommitQuery || l.pc == WCommit || l.pc == WDone(true)
       case TableRead => l.pc == WCommit || l.pc == WDone(true)
       case Commit => l.pc == WDone(true)
       case _ => false)
    case HAuto(l) => call == Audit && (l.pc == AFinal || l.pc == ADone(true))
    case HReset(l) => call == Audit && l.latch != ManualLock && (l.pc == RFinal || l.pc == RDone(true))
    case _ => false
  }

  /** A handler gets past a call only by making it successfully. */
  lemma StartPassesByCall(sh: Shared, l: Start, c: Choice, call: Call)
    requires IsPast(HStart(StartStep(sh, l, c).1), call)
    ensures IsPast(HStart(l), call) || (IsAt(HStart(l), call) && (call != Commit ==> c.ok))
  {
    match l.pc
    case SPreRead | SPreQuery | SEnter | SEnterQuery | SInsert =>
    case SPreCheck | SWrite | SWriteLatch | SFailAudit | SFailFinish =>
    case SAudit | SMarkApplied | SCommitQuery | SCommit =>
    case SRollStop | SRollStopLatch | SRollHold | SRollClear | SRollFinish | STailLatch =>
    case SDone(_) =>
  }

  lemma OthersPassByCall(sh: Shared, lim: Limits, h: Handler, c: Choice, call: Call)
    requires !h.HStart? && IsPast(HandlerStep(sh, lim, h, c).1, call)
    ensures IsPast(h, call) || (IsAt(h, call) && (call != Commit ==> c.ok))
  {
    match h
    case HWriter(l) =>
    case HAuto(l) =>
    case HReset(l) =>
    case HStop(_) =>
    case HFinish(_) =>
  }

  predicate PastIn(s: State, id: nat, call: Call) { id in s.hs && IsPast(s.hs[id], call) }

  lemma PassingStep(s: State, a: Label, s': State, id: nat, call: Call)
    requires StepOf(s, a, s') && PastIn(s', id, call)
    ensures PastIn(s, id, call) || Makes(s, a, id, call)
  {
    if a.Act? && a.id == id {
      match s.hs[id]
      case HStart(l) => StartPassesByCall(s.sh, l, a.choice, call);
      case _ => OthersPassByCall(s.sh, s.lim, s.hs[id], a.choice, call);
    }
  }

  /**
   In every run, a request that is past one of its calls made that call successfully in an earlier step. So a start that
   succeeded had its device write accepted, its audit row written, its process marked if it has one, and the table read;
   a target write, an auto switch or a reset that succeeded had its audit row written.
   */
  lemma {:induction false} SuccessMadeItsCalls(run: seq<State>, labels: seq<Label>, k: nat, id: nat, call: Call)
    requires IsRun(run, labels) && k < |run| && PastIn(run[k], id, call)
    ensures Made(run, labels, k, id, call)
  {
    if k > 0 {
      PassingStep(run[k - 1], labels[k - 1], run[k], id, call);
      if PastIn(run[k - 1], id, call) {
        SuccessMadeItsCalls(run, labels, k - 1, id, call);
        var j :| 0 <= j < k - 1 && Makes(run[j], labels[j], id, call);
      } else {
        assert Makes(run[k - 1], labels[k - 1], id, call);
      }
    }
  }

  // ---------- stop and finish attempts ----------

  predicate EndsLatched(sh: Shared, e: Effect) {
    var sh' := Apply(sh, e);
    sh'.rt.fault.Some? && !sh'.rt.auto && |sh'.log| > |sh.log| && sh'.log[|sh'.log| - 1] == Engaged(ControlFault)
  }

  /** A stop attempt that fails after it turned to the device latches the fault in the step that returns the error. */
  lemma FailedStopIsLatched(sh: Shared, l: Stop, c: Choice)
    requires l.pc != PRead && l.pc != PLookup && !l.pc.PDone? && StopStep(sh, l, c).1.pc == PDone(false)
    ensures EndsLatched(sh, StopStep(sh, l, c).0)
  {
  }

  /** So does a finish of the active batch, but for one case: a failed read of the closed row is only reported. */
  lemma FailedFinishIsLatched(sh: Shared, l: Finish, c: Choice)
    requires l.pc != FRead && l.pc != FLookup && !l.pc.FDone? && FinishStep(sh, l, c).1.pc == FDone(false)
    requires l.WasActive()
    ensures if l.pc == FReload then !c.ok && FinishStep(sh, l, c).0 == Nothing
            else EndsLatched(sh, FinishStep(sh, l, c).0)
  {
  }

  /** A failed device write of an attempt leads to nothing but that error. */
  lemma FailedWriteLeadsToLatch(sh: Shared, l: Stop, f: Finish, c: Choice)
    requires !c.ok
    ensures l.pc == PWrite ==> StopStep(sh, l, c).1 == l.(pc := PWriteLatch)
    ensures f.pc == FWrite || f.pc == FMissingWrite ==> FinishStep(sh, f, c).1 == f.(pc := FWriteLatch)
  {
  }

  /** A stop without an active batch, or whose lookup fails, is refused before anything is sent. */
  lemma StopIsRefusedIff(sh: Shared, l: Stop, c: Choice)
    requires l.pc == PRead || l.pc == PLookup
    ensures
      var (e, l') := StopStep(sh, l, c);
      && e == Nothing
      && (l'.pc == PDone(false) <==> if l.pc == PRead then sh.rt.active.None? else !c.ok)
      && (l.pc == PRead && l'.pc != PDone(false) ==> l'.pc == PLookup && sh.rt.active == Some(l'.batch))
      && (l.pc == PLookup && l'.pc != PDone(false) ==> l'.pc == PWrite && l'.batch == l.batch)
  {
  }

  /** A finish request is refused at its lookup exactly in these cases. */
  lemma FinishIsRefusedIff(sh: Shared, l: Finish, c: Choice)
    requires l.pc == FLookup
    ensures FinishStep(sh, l, c).1.pc == FDone(false) <==>
            || !c.ok
            || (!l.WasActive() && (l.batch !in sh.rows || sh.rows[l.batch].finishedAt.Some? || l.seenActive.Some?))
  {
  }

  /** The closing audit row is written only for a row that was read back, or was found finished or missing. */
  lemma AuditFollowsReading(sh: Shared, l: Stop, f: Finish, c: Choice)
    ensures StopStep(sh, l, c).1.pc == PAudit && l.pc != PAudit ==>
              || (l.pc == PReload && c.ok && l.batch in sh.rows)
              || (l.pc == PSettle && l.seen.Some? && l.seen.value.finishedAt.Some?)
    ensures FinishStep(sh, f, c).1.pc == FAudit && f.pc != FAudit ==>
              f.pc == FReload && c.ok && f.batch in sh.rows && sh.rows[f.batch].finishedAt.Some?
  {
  }

  /** What a stop or finish attempt that returns success has behind it, and what it leaves. */
  predicate ClosedBy(sh: Shared, batch: int, since: nat, stopped: bool) {
    && sh.rt.active != Some(batch) && !sh.rt.auto && Closed(sh.rows, batch) && since <= |sh.log|
    && Closure.Happened(sh.log, since, |sh.log|, StopAudited(batch))
    && (stopped ==> sh.rt.targets == sh.stopTargets && Closure.Happened(sh.log, since, |sh.log|, StopWritten))
  }

  /** In this step the stop or finish attempt returns success. */
  predicate ReturnsSuccess(s: State, c: Choice, id: nat)
    requires id in s.hs
  {
    match s.hs[id]
    case HStop(l) => !l.pc.PDone? && StopStep(s.sh, l, c).1.pc == PDone(true)
    case HFinish(l) => !l.pc.FDone? && FinishStep(s.sh, l, c).1.pc == FDone(true)
    case _ => false
  }

  lemma StopSucceedsByReleasing(sh: Shared, l: Stop, c: Choice)
    requires !l.pc.PDone? && StopStep(sh, l, c).1.pc == PDone(true)
    ensures l.pc == PRelease && StopStep(sh, l, c).0 == Release(l.batch, Some(sh.stopTargets), l.since)
  {
  }

  lemma FinishSucceedsByReleasing(sh: Shared, l: Finish, c: Choice)
    requires !l.pc.FDone? && FinishStep(sh, l, c).1.pc == FDone(true)
    ensures l.pc == FRelease
    ensures FinishStep(sh, l, c).0 == Release(l.batch, if l.WasActive() then Some(sh.stopTargets) else None, l.since)
  {
  }

  lemma ReleaseCloses(sh: Shared, batch: int, settle: Option<Control.Targets>, since: nat)
    requires Closed(sh.rows, batch) && since <= |sh.log| && (settle.Some? ==> settle.value == sh.stopTargets)
    requires Closure.Happened(sh.log, since, |sh.log|, StopAudited(batch))
    requires settle.Some? ==> Closure.Happened(sh.log, since, |sh.log|, StopWritten)
    ensures ClosedBy(Apply(sh, Release(batch, settle, since)), batch, since, settle.Some?)
  {
    var e := Release(batch, settle, since);
    var log' := Apply(sh, e).log;
    LatchWindows.ApplyExtendsLog(sh, e);
    Closure.HappenedUpTo(sh.log, log', since, |log'|, StopAudited(batch));
    if settle.Some? { Closure.HappenedUpTo(sh.log, log', since, |log'|, StopWritten); }
  }

  /**
   In every run, when a stop or finish attempt returns success: within the attempt the stop audit row was written, for a
   stop and for a finish that read its batch as active the device accepted stop targets, and the state it leaves has the
   row closed, the batch not active, auto off and, in those cases, the stop targets.
   */
  lemma SuccessfulAttemptsClose(run: seq<State>, labels: seq<Label>, k: nat, id: nat)
    requires IsRun(run, labels) && k < |labels| && labels[k].Act? && labels[k].id == id && id in run[k].hs
    ensures ReturnsSuccess(run[k], labels[k].choice, id) ==>
              match run[k].hs[id]
              case HStop(l) => ClosedBy(run[k + 1].sh, l.batch, l.since, true)
              case HFinish(l) => ClosedBy(run[k + 1].sh, l.batch, l.since, l.WasActive())
              case _ => true
  {
    assert StepOf(run[k], labels[k], run[k + 1]);
    Closure.RunKeepsInv(run, labels, k);
    assert Closure.LocalOk(run[k].sh, run[k].hs[id]);
    var sh, c := run[k].sh, labels[k].choice;
    if ReturnsSuccess(run[k], c, id) {
      match run[k].hs[id]
      case HStop(l) =>
        StopSucceedsByReleasing(sh, l, c);
        ReleaseCloses(sh, l.batch, Some(sh.stopTargets), l.since);
      case HFinish(l) =>
        FinishSucceedsByReleasing(sh, l, c);
        ReleaseCloses(sh, l.batch, if l.WasActive() then Some(sh.stopTargets) else None, l.since);
      case _ =>
    }
  }

  // ---------- assigned target sets ----------

  /** An assigned set is the stop targets, or comes with the activation or the hold of a batch. */
  predicate AssignmentOk(log: seq<Event>, stop: Control.Targets, i: nat)
    requires i < |log|
  {
    log[i].TargetsForced? ==>
      || log[i].targets == stop
      || (i + 1 < |log| && log[i + 1].Activated?)
      || (i + 2 < |log| && log[i + 2].HeldActive?)
  }

  predicate AssignmentsOk(s: State) {
    forall i :: 0 <= i < |s.sh.log| ==> AssignmentOk(s.sh.log, s.sh.stopTargets, i)
  }

  predicate AssignsStop(sh: Shared, e: Effect) {
    && (e.ForceTargets? || e.ForceTargetsAndFault? || e.RollBack? ==> e.targets == sh.stopTargets)
    && (e.Release? && e.settle.Some? ==> e.settle.value == sh.stopTargets)
  }

  lemma HandlersAssignStop(sh: Shared, lim: Limits, h: Handler, c: Choice)
    ensures AssignsStop(sh, HandlerStep(sh, lim, h, c).0)
  {
    match h
    case HStart(l) => StartAssignsStop(sh, l, c);
    case HStop(_) =>
    case HFinish(_) =>
    case HWriter(_) =>
    case HAuto(_) =>
    case HReset(_) =>
  }

  lemma StartAssignsStop(sh: Shared, l: Start, c: Choice)
    ensures AssignsStop(sh, StartStep(sh, l, c).0)
  {
  }

  lemma NewAssignmentOk(sh: Shared, e: Effect, i: nat)
    requires AssignsStop(sh, e) && |sh.log| <= i < |Apply(sh, e).log|
    ensures AssignmentOk(Apply(sh, e).log, sh.stopTargets, i)
  {
  }

  lemma StepKeepsAssignments(s: State, a: Label, s': State)
    requires StepOf(s, a, s') && AssignmentsOk(s)
    ensures AssignmentsOk(s')
  {
    var e := EffectOf(s, a);
    LatchWindows.ApplyExtendsLog(s.sh, e);
    if a.Act? { HandlersAssignStop(s.sh, s.lim, s.hs[a.id], a.choice); }
    var log, log' := s.sh.log, s'.sh.log;
    assert forall i :: 0 <= i < |log| ==> log'[i] == log'[..|log|][i] == log[i];
    forall i | 0 <= i < |log'| ensures AssignmentOk(log', s'.sh.stopTargets, i) {
      if i < |log| { assert AssignmentOk(log, s.sh.stopTargets, i); } else { NewAssignmentOk(s.sh, e, i); }
    }
  }

  /** In every run, handlers assign a whole target set only as the stop targets, or with an activation or a hold. */
  lemma {:induction false} HandlersAssignOnlyStopOrOwn(run: seq<State>, labels: seq<Label>, k: nat)
    requires IsRun(run, labels) && k < |run|
    ensures AssignmentsOk(run[k])
  {
    if k > 0 {
      HandlersAssignOnlyStopOrOwn(run, labels, k - 1);
      StepKeepsAssignments(run[k - 1], labels[k - 1], run[k]);
    }
  }

  // ---------- the auto flag and the active batch ----------

  /** Auto is on after an effect only if the effect turns it on, or leaves it alone and it was. */
  lemma AutoAfter(sh: Shared, e: Effect)
    ensures Apply(sh, e).rt.auto <==>
            match e
            case EnableAuto(_) => true
            case Activate(_, _, autoOn, _) => autoOn
            case RollBack(batch, _) => sh.rt.auto && sh.rt.active != Some(batch)
            case Nothing | InsertRow | CloseRow(_, _) | LoseRow(_) => sh.rt.auto
            case WriteStart(_) | WriteStop | AuditStop(_) | CommitTargets(_, _, _) | OverwriteTargets(_) => sh.rt.auto
            case _ => false
  {
  }

  /** The active batch after an effect. */
  lemma ActiveAfter(sh: Shared, e: Effect)
    ensures Apply(sh, e).rt.active ==
            match e
            case Activate(batch, _, _, _) => Some(batch)
            case Hold(batch, _, _) => Some(batch)
            case Release(batch, _, _) => if sh.rt.active == Some(batch) then None else sh.rt.active
            case RollBack(batch, _) => if sh.rt.active == Some(batch) then None else sh.rt.active
            case _ => sh.rt.active
  {
  }

  /** The latch an effect engages. */
  predicate Sets(e: Effect, latch: Latch) {
    match e
    case EngageLatch(l, _) => l == latch
    case TerminateLoop(_) | ForceTargetsAndFault(_, _) | Hold(_, _, _) => latch == ControlFault
    case _ => false
  }

  /** The latch an effect clears. */
  predicate Resets(e: Effect, latch: Latch) {
    match e
    case Unlock => latch == ManualLock
    case ClearFault(_, _) => latch == ControlFault
    case ClearEmergency(_, _) => latch == EmergencyStop
    case _ => false
  }

  /** A latch is set by the effects that set it, stays set but for the one that clears it, and counts its settings. */
  lemma LatchAfter(sh: Shared, e: Effect, latch: Latch)
    ensures Apply(sh, e).rt.Engaged(latch) <==> Sets(e, latch) || (sh.rt.Engaged(latch) && !Resets(e, latch))
    ensures Apply(sh, e).rt.Gen(latch)
         == if Sets(e, latch) && sh.rt.Gen(latch) < U64_MAX then sh.rt.Gen(latch) + 1 else sh.rt.Gen(latch)
  {
  }

  /** The unfinished rows after an effect. */
  lemma UnfinishedAfter(sh: Shared, e: Effect)
    ensures Unfinished(Apply(sh, e).rows) ==
            match e
            case InsertRow => Unfinished(sh.rows) + {sh.nextId}
            case CloseRow(row, _) => Unfinished(sh.rows) - {row}
            case LoseRow(row) => Unfinished(sh.rows) - {row}
            case _ => Unfinished(sh.rows)
  {
    if e.CloseRow? { FinishRowClosesOne(sh.rows, e.row, e.now); }
  }

  // ---------- the sections after the device call ----------

  /** Once the device has accepted stop targets, the next section of the attempt assigns them and turns auto off. */
  lemma StopTargetsAreAssigned(sh: Shared, l: Stop, f: Finish, c: Choice)
    ensures l.pc == PSettle ==>
              var sh' := Apply(sh, StopStep(sh, l, c).0);
              sh'.rt.targets == sh.stopTargets && !sh'.rt.auto && sh'.rt.active == sh.rt.active
    ensures f.pc == FMissingSettle || (f.pc == FSettle && f.WasActive()) ==>
              var sh' := Apply(sh, FinishStep(sh, f, c).0);
              sh'.rt.targets == sh.stopTargets && !sh'.rt.auto && sh'.rt.active == sh.rt.active
  {
  }

  /** A row is closed by an attempt only if it was found unfinished, and is closed then. */
  lemma FoundRowIsClosed(sh: Shared, l: Stop, f: Finish, c: Choice)
    ensures l.pc == PSettle && sh.rt.active == Some(l.batch) ==>
              (StopStep(sh, l, c).1.pc == PFinish <==> l.seen.Some? && l.seen.value.finishedAt.None?)
    ensures f.pc == FSettle && (!f.WasActive() || sh.rt.active == Some(f.batch)) ==>
              (FinishStep(sh, f, c).1.pc == FClose <==> f.seen.Some? && f.seen.value.finishedAt.None?)
    ensures l.pc == PFinish && TookEffect(c) ==> Closed(Apply(sh, StopStep(sh, l, c).0).rows, l.batch)
    ensures f.pc == FClose && TookEffect(c) ==> Closed(Apply(sh, FinishStep(sh, f, c).0).rows, f.batch)
  {
  }

  /** A failed start closes its row unless that call fails too, and after an accepted stop sets the stop targets. */
  lemma FailedStartTidiesUp(sh: Shared, l: Start, c: Choice)
    ensures
      var sh' := Apply(sh, StartStep(sh, l, c).0);
      && ((l.pc == SFailFinish || l.pc == SRollFinish) && TookEffect(c) ==> Closed(sh'.rows, l.row))
      && (l.pc == SRollClear ==> sh'.rt.targets == sh.stopTargets && sh'.rt.active != Some(l.row))
  {
  }

  // ---------- a terminated control loop ----------

  /** A fault reset that has acknowledged a generation, with how it compares to the current one. */
  predicate Acknowledged(h: Handler) {
    h.HReset? && h.reset.latch == ControlFault && (h.reset.pc == RAudit || h.reset.pc == RFinal)
  }

  predicate AckNotAhead(s: State) {
    forall id :: id in s.hs && Acknowledged(s.hs[id]) ==> s.hs[id].reset.ackGen <= s.sh.rt.faultGen
  }

  /** The loop has ended, the fault is latched, and every reset under way acknowledged an older fault. */
  predicate LoopEnded(s: State) {
    && s.sh.rt.loopTerminated && s.sh.rt.fault.Some?
    && forall id :: id in s.hs && Acknowledged(s.hs[id]) ==> s.hs[id].reset.ackGen < s.sh.rt.faultGen
  }

  lemma FaultGenGrows(sh: Shared, e: Effect)
    ensures Apply(sh, e).rt.faultGen >= sh.rt.faultGen
    ensures sh.rt.loopTerminated ==> Apply(sh, e).rt.loopTerminated
  {
  }

  lemma ResetAcknowledges(sh: Shared, lim: Limits, h: Handler, c: Choice)
    ensures
      var (e, h') := HandlerStep(sh, lim, h, c);
      && (Acknowledged(h') ==>
            || (Acknowledged(h) && h'.reset.ackGen == h.reset.ackGen)
            || (!sh.rt.loopTerminated && h'.reset.ackGen == sh.rt.faultGen))
      && (e.ClearFault? ==> Acknowledged(h) && h.reset.ackGen == sh.rt.faultGen)
  {
    match h
    case HReset(l) =>
    case HStart(_) =>
    case HStop(_) =>
    case HFinish(_) =>
    case HWriter(_) =>
    case HAuto(_) =>
  }

  lemma StepKeepsAck(s: State, a: Label, s': State)
    requires StepOf(s, a, s') && AckNotAhead(s)
    ensures AckNotAhead(s')
  {
    FaultGenGrows(s.sh, EffectOf(s, a));
    if a.Act? { ResetAcknowledges(s.sh, s.lim, s.hs[a.id], a.choice); }
  }

  lemma {:induction false} RunKeepsAck(run: seq<State>, labels: seq<Label>, k: nat)
    requires IsRun(run, labels) && k < |run|
    ensures AckNotAhead(run[k])
  {
    if k > 0 {
      RunKeepsAck(run, labels, k - 1);
      StepKeepsAck(run[k - 1], labels[k - 1], run[k]);
    }
  }

  lemma StepKeepsEnded(s: State, a: Label, s': State)
    requires StepOf(s, a, s') && LoopEnded(s)
    ensures LoopEnded(s')
  {
    var e := EffectOf(s, a);
    FaultGenGrows(s.sh, e);
    if a.Act? { ResetAcknowledges(s.sh, s.lim, s.hs[a.id], a.choice); }
    FaultStays(s.sh, e);
  }

  lemma {:induction false} EndedStays(run: seq<State>, labels: seq<Label>, k: nat, m: nat)
    requires IsRun(run, labels) && k <= m < |run| && LoopEnded(run[k])
    ensures LoopEnded(run[m])
    decreases m - k
  {
    if k < m {
      StepKeepsEnded(run[k], labels[k], run[k + 1]);
      EndedStays(run, labels, k + 1, m);
    }
  }

  /**
   In every run, once the control loop has terminated, the fault stays latched and auto stays off: no reset, not even
   one under way at that moment, clears it, provided the fault counter was not yet saturated.
   */
  lemma TerminatedLoopStaysFaulted(run: seq<State>, labels: seq<Label>, k: nat, m: nat)
    requires IsRun(run, labels) && k < m < |run|
    requires labels[k].Surroundings? && labels[k].effect.TerminateLoop? && run[k].sh.rt.faultGen < U64_MAX
    ensures run[m].sh.rt.loopTerminated && run[m].sh.rt.fault.Some? && !run[m].sh.rt.auto
  {
    assert StepOf(run[k], labels[k], run[k + 1]);
    RunKeepsAck(run, labels, k);
    assert LoopEnded(run[k + 1]);
    EndedStays(run, labels, k + 1, m);
    LatchWindows.CommitsHappenInQuietWindows(run, labels, m);
  }
}
