/**
 Restart repair: the runtime rebuilt from the table (runtime_recovery.rs), what no handler can achieve before
 every row left unfinished by the previous process is closed, and that closing them is always possible.
 */
module Restart {
  import opened Common
  import opened Control
  import opened Runtime
  import opened Batches
  import opened Shared
  import opened Handlers
  import opened Runs
  import LatchWindows
  import Closure

  /** `recover_runtime_from_db`: `fresh` is the runtime built from the safety configuration. */
  function RecoverFrom(freshRt: Runtime, unfinished: seq<int>, reason: string): Runtime {
    if unfinished == [] then freshRt
    else freshRt.(active := Some(unfinished[0]), auto := false).Engage(ControlFault, reason)
  }

  function Recover(freshRt: Runtime, rows: Table, reason: string): Runtime {
    RecoverFrom(freshRt, NewestFirst(Unfinished(rows), READ_LIMIT), reason)
  }

  /** The first state after a restart with a non-empty set of unfinished rows. */
  predicate Restarted(s: State, freshRt: Runtime, reason: string) {
    && Initial(s) && Unfinished(s.sh.rows) != {}
    && s.sh.rt == Recover(freshRt, s.sh.rows, reason)
  }

  lemma RecoverHoldsNewest(freshRt: Runtime, rows: Table, reason: string)
    requires Unfinished(rows) != {}
    ensures Recover(freshRt, rows, reason).active == Some(NewestId(Unfinished(rows)))
    ensures Recover(freshRt, rows, reason).fault.Some?
  {
    var ids := Unfinished(rows);
    assert NewestFirst(ids, READ_LIMIT) == [NewestId(ids)] + NewestFirst(ids - {NewestId(ids)}, READ_LIMIT - 1);
  }

  // ---------- nothing succeeds before every row is closed ----------

  /** Some row of the restart is still unfinished. */
  predicate Open(sh: Shared, left: set<int>) {
    exists id :: id in left && id in Unfinished(sh.rows)
  }

  /** The handler has not got past its interlocks. */
  predicate Blocked(h: Handler) {
    match h
    case HStart(l) =>
      || l.pc == SPreRead || l.pc == SPreQuery || l.pc == SEnter || (l.pc == SEnterQuery && !l.snap.clear)
      || l.pc == SDone(false)
    case HWriter(l) => l.pc == WRead || l.pc == WEnter || l.pc == WDone(false)
    case HAuto(l) => l.enable ==> l.pc == AEnter || (l.pc == AEnterQuery && !l.snap.clear) || l.pc == ADone(false)
    case HReset(l) => l.pc == REnter || l.pc == REnterQuery || l.pc == RDone(false)
    case HStop(_) | HFinish(_) => true
  }

  predicate Inv(s: State, left: set<int>) {
    && (forall id :: id in left ==> id < s.sh.nextId)
    && (Open(s.sh, left) ==> s.sh.rt.fault.Some? && forall id :: id in s.hs ==> Blocked(s.hs[id]))
  }

  /** Rows of the restart never reopen. */
  lemma OpenOnlyShrinks(sh: Shared, e: Effect, left: set<int>)
    requires forall id :: id in left ==> id < sh.nextId
    ensures Open(Apply(sh, e), left) ==> Open(sh, left)
    ensures forall id :: id in left ==> id < Apply(sh, e).nextId
  {
    if Open(Apply(sh, e), left) {
      var id :| id in left && id in Unfinished(Apply(sh, e).rows);
      assert id in Unfinished(sh.rows);
    }
  }

  lemma ResetIsRefused(sh: Shared, c: Choice, active: Option<int>, left: set<int>)
    requires Open(sh, left)
    ensures !ResetAllowed(sh, c, active)
  {
    VerdictIsExact(Unfinished(sh.rows), active, READ_LIMIT);
  }

  lemma BlockedResetStaysBlocked(sh: Shared, l: Reset, c: Choice, left: set<int>)
    requires Blocked(HReset(l)) && sh.rt.fault.Some? && Open(sh, left)
    ensures Blocked(HReset(ResetStep(sh, l, c).1))
    ensures !ResetStep(sh, l, c).0.ClearFault?
  {
    ResetIsRefused(sh, c, sh.rt.active, left);
    ResetIsRefused(sh, c, l.seenActive, left);
  }

  /** Under a latched fault with an unfinished row, a blocked handler stays blocked and cannot clear the fault. */
  lemma BlockedStaysBlocked(sh: Shared, lim: Limits, h: Handler, c: Choice, left: set<int>)
    requires Blocked(h) && sh.rt.fault.Some? && Open(sh, left)
    ensures Blocked(HandlerStep(sh, lim, h, c).1)
    ensures !HandlerStep(sh, lim, h, c).0.ClearFault?
  {
    if h.HReset? { BlockedResetStaysBlocked(sh, h.reset, c, left); }
  }

  lemma StepKeepsInv(s: State, a: Label, s': State, left: set<int>)
    requires Inv(s, left) && StepOf(s, a, s')
    ensures Inv(s', left)
  {
    var e := EffectOf(s, a);
    OpenOnlyShrinks(s.sh, e, left);
    if Open(s.sh, left) {
      if a.Act? { BlockedStaysBlocked(s.sh, s.lim, s.hs[a.id], a.choice, left); }
      FaultStays(s.sh, e);
    }
  }

  lemma RestartedInv(s: State, freshRt: Runtime, reason: string)
    requires Restarted(s, freshRt, reason)
    ensures Inv(s, Unfinished(s.sh.rows))
  {
    RecoverHoldsNewest(freshRt, s.sh.rows, reason);
  }

  lemma {:induction false} InvStays(run: seq<State>, labels: seq<Label>, k: nat, left: set<int>)
    requires IsRun(run, labels) && k < |run| && Inv(run[0], left)
    ensures Inv(run[k], left)
  {
    if k > 0 {
      InvStays(run, labels, k - 1, left);
      StepKeepsInv(run[k - 1], labels[k - 1], run[k], left);
    }
  }

  lemma RunKeepsInv(run: seq<State>, labels: seq<Label>, k: nat, freshRt: Runtime, reason: string)
    requires IsRun(run, labels) && Restarted(run[0], freshRt, reason) && k < |run|
    ensures Inv(run[k], Unfinished(run[0].sh.rows))
  {
    RestartedInv(run[0], freshRt, reason);
    InvStays(run, labels, k, Unfinished(run[0].sh.rows));
  }

  /** Whether a start, target write, auto-enable or reset has succeeded. */
  predicate Succeeded(h: Handler) {
    match h
    case HStart(l) => l.pc == SDone(true)
    case HWriter(l) => l.pc == WDone(true)
    case HAuto(l) => l.enable && l.pc == ADone(true)
    case HReset(l) => l.pc == RDone(true)
    case _ => false
  }

  /**
   In every run from a restart: while any row that was unfinished at the restart is still unfinished, the fault is
   latched, automatic control is off, and no start, target write, auto-enable or latch reset has succeeded.
   */
  lemma NothingSucceedsBeforeRepair(run: seq<State>, labels: seq<Label>, k: nat, freshRt: Runtime, reason: string)
    requires IsRun(run, labels) && Restarted(run[0], freshRt, reason) && k < |run|
    requires Open(run[k].sh, Unfinished(run[0].sh.rows))
    ensures run[k].sh.rt.fault.Some? && !run[k].sh.rt.auto
    ensures forall id :: id in run[k].hs ==> !Succeeded(run[k].hs[id])
  {
    RunKeepsInv(run, labels, k, freshRt, reason);
    LatchWindows.RunKeepsInv(run, labels, k);
    forall id | id in run[k].hs ensures !Succeeded(run[k].hs[id]) {
      assert Blocked(run[k].hs[id]);
    }
  }

  // ---------- the newest row is closed first ----------

  predicate Unreleased(log: seq<Event>) {
    forall i :: 0 <= i < |log| ==> !log[i].Released?
  }

  /** Closers work on the newest row; other finish requests have seen it active and will be refused. */
  predicate WorksOnNewest(h: Handler, newest: int) {
    match h
    case HStart(l) =>
      || l.pc == SPreRead || l.pc == SPreQuery || l.pc == SEnter || (l.pc == SEnterQuery && !l.snap.clear)
      || l.pc == SDone(false)
    case HStop(l) => l.pc != PRead && !l.pc.PDone? ==> l.batch == newest
    case HFinish(l) =>
      && (l.pc != FRead && !l.pc.FDone? ==> l.seenActive == Some(newest))
      && (Closure.FinishLooked(l.pc) ==> l.batch == newest)
    case _ => true
  }

  predicate FirstInv(s: State, left: set<int>, newest: int) {
    && (forall id :: id in left ==> id < s.sh.nextId)
    && (Unreleased(s.sh.log) ==>
          && s.sh.rt.active == Some(newest) && s.sh.rt.fault.Some?
          && (forall id :: id in left && id != newest && id in s.sh.rows ==> s.sh.rows[id].finishedAt.None?)
          && (forall id :: id in s.hs ==> WorksOnNewest(s.hs[id], newest)))
  }

  lemma UnreleasedPrefix(sh: Shared, e: Effect)
    ensures Unreleased(Apply(sh, e).log) ==> Unreleased(sh.log)
  {
    LatchWindows.ApplyExtendsLog(sh, e);
    var log' := Apply(sh, e).log;
    assert forall i :: 0 <= i < |sh.log| ==> log'[i] == log'[..|sh.log|][i];
  }

  lemma ReleaseIsLogged(sh: Shared, e: Effect)
    requires e.Release? && sh.rt.active == Some(e.batch)
    ensures !Unreleased(Apply(sh, e).log)
  {
    var log' := Apply(sh, e).log;
    assert log'[|log'| - 1].Released?;
  }

  /** What such a handler may do: close and release the newest batch, and nothing that starts or resets. */
  predicate ClosesOnly(e: Effect, newest: int) {
    && !e.ClearFault? && !e.Activate? && !e.Hold? && !e.RollBack? && !e.LoseRow?
    && (e.CloseRow? ==> e.row == newest) && (e.Release? ==> e.batch == newest)
  }

  lemma StartClosesOnly(sh: Shared, l: Start, c: Choice, newest: int)
    requires WorksOnNewest(HStart(l), newest) && sh.rt.active == Some(newest) && sh.rt.fault.Some?
    ensures WorksOnNewest(HStart(StartStep(sh, l, c).1), newest) && ClosesOnly(StartStep(sh, l, c).0, newest)
  {
  }

  lemma StopClosesOnly(sh: Shared, l: Stop, c: Choice, newest: int)
    requires WorksOnNewest(HStop(l), newest) && sh.rt.active == Some(newest)
    ensures WorksOnNewest(HStop(StopStep(sh, l, c).1), newest) && ClosesOnly(StopStep(sh, l, c).0, newest)
  {
  }

  lemma FinishClosesOnly(sh: Shared, l: Finish, c: Choice, newest: int)
    requires WorksOnNewest(HFinish(l), newest) && sh.rt.active == Some(newest)
    ensures WorksOnNewest(HFinish(FinishStep(sh, l, c).1), newest) && ClosesOnly(FinishStep(sh, l, c).0, newest)
  {
  }

  lemma ResetClosesOnly(sh: Shared, l: Reset, c: Choice, newest: int)
    requires sh.rt.active == Some(newest)
    ensures ClosesOnly(ResetStep(sh, l, c).0, newest)
  {
  }

  /** While the newest batch is active under the fault, a handler can only close the newest row. */
  lemma OnlyNewestCloses(sh: Shared, lim: Limits, h: Handler, c: Choice, newest: int)
    requires WorksOnNewest(h, newest) && sh.rt.active == Some(newest) && sh.rt.fault.Some?
    ensures WorksOnNewest(HandlerStep(sh, lim, h, c).1, newest) && ClosesOnly(HandlerStep(sh, lim, h, c).0, newest)
  {
    match h
    case HStart(l) => StartClosesOnly(sh, l, c, newest);
    case HStop(l) => StopClosesOnly(sh, l, c, newest);
    case HFinish(l) => FinishClosesOnly(sh, l, c, newest);
    case HReset(l) => ResetClosesOnly(sh, l, c, newest);
    case HWriter(_) | HAuto(_) =>
  }

  /** What an effect that touches no other row leaves in place. */
  lemma EffectKeepsFirst(sh: Shared, e: Effect, left: set<int>, newest: int)
    requires forall id :: id in left ==> id < sh.nextId
    requires forall id :: id in left && id != newest && id in sh.rows ==> sh.rows[id].finishedAt.None?
    requires sh.rt.active == Some(newest) && !e.Activate? && !e.Hold? && !e.RollBack? && !e.Release?
    requires e.CloseRow? ==> e.row == newest
    ensures
      var sh' := Apply(sh, e);
      && sh'.rt.active == Some(newest)
      && forall id :: id in left && id != newest && id in sh'.rows ==> sh'.rows[id].finishedAt.None?
  {
  }

  lemma StepKeepsFirst(s: State, a: Label, s': State, left: set<int>, newest: int)
    requires FirstInv(s, left, newest) && StepOf(s, a, s')
    ensures FirstInv(s', left, newest)
  {
    var e := EffectOf(s, a);
    UnreleasedPrefix(s.sh, e);
    Closure.NextIdGrows(s.sh, e);
    if Unreleased(Apply(s.sh, e).log) {
      if a.Act? { OnlyNewestCloses(s.sh, s.lim, s.hs[a.id], a.choice, newest); }
      if e.Release? { ReleaseIsLogged(s.sh, e); }
      FaultStays(s.sh, e);
      EffectKeepsFirst(s.sh, e, left, newest);
    }
  }

  lemma RestartedFirst(s: State, freshRt: Runtime, reason: string)
    requires Restarted(s, freshRt, reason)
    ensures FirstInv(s, Unfinished(s.sh.rows), NewestId(Unfinished(s.sh.rows)))
  {
    RecoverHoldsNewest(freshRt, s.sh.rows, reason);
  }

  lemma {:induction false} FirstStays(run: seq<State>, labels: seq<Label>, k: nat, left: set<int>, newest: int)
    requires IsRun(run, labels) && k < |run| && FirstInv(run[0], left, newest)
    ensures FirstInv(run[k], left, newest)
  {
    if k > 0 {
      FirstStays(run, labels, k - 1, left, newest);
      StepKeepsFirst(run[k - 1], labels[k - 1], run[k], left, newest);
    }
  }

  /**
   In every run from a restart: as long as no batch has been released, the newest one stays active under the fault, and
   every other row that was left unfinished is still unfinished (or lost from the table).
   */
  lemma NewestIsClosedFirst(run: seq<State>, labels: seq<Label>, k: nat, freshRt: Runtime, reason: string)
    requires IsRun(run, labels) && Restarted(run[0], freshRt, reason) && k < |run|
    ensures FirstInv(run[k], Unfinished(run[0].sh.rows), NewestId(Unfinished(run[0].sh.rows)))
  {
    var left := Unfinished(run[0].sh.rows);
    RestartedFirst(run[0], freshRt, reason);
    FirstStays(run, labels, k, left, NewestId(left));
  }

  /** The first release in the log, if there is one, is of this batch. */
  predicate FirstReleaseIs(log: seq<Event>, batch: int) {
    forall i :: 0 <= i < |log| && log[i].Released? && Unreleased(log[..i]) ==> log[i].batch == batch
  }

  lemma StepKeepsFirstRelease(s: State, a: Label, s': State, left: set<int>, newest: int)
    requires FirstInv(s, left, newest) && StepOf(s, a, s') && FirstReleaseIn(s, newest)
    ensures FirstReleaseIn(s', newest)
  {
    var e := EffectOf(s, a);
    var log, log' := s.sh.log, Apply(s.sh, e).log;
    LatchWindows.ApplyExtendsLog(s.sh, e);
    forall i | 0 <= i < |log'| && log'[i].Released? && Unreleased(log'[..i]) ensures log'[i].batch == newest {
      if i < |log| {
        assert log'[..|log|][i] == log[i] && log'[..i] == log'[..|log|][..i];
      } else {
        assert forall j :: 0 <= j < |log| ==> log[j] == log'[..i][j];
        assert Unreleased(log);
        Closure.ReleaseEntriesComeFromReleases(s.sh, e, i);
        OnlyNewestCloses(s.sh, s.lim, s.hs[a.id], a.choice, newest);
      }
    }
  }

  predicate FirstReleaseIn(s: State, newest: int) { FirstReleaseIs(s.sh.log, newest) }

  lemma {:induction false} FirstReleaseStays(run: seq<State>, labels: seq<Label>, k: nat, left: set<int>, newest: int)
    requires IsRun(run, labels) && k < |run| && FirstInv(run[0], left, newest)
    ensures FirstReleaseIn(run[k], newest)
  {
    if k > 0 {
      FirstReleaseStays(run, labels, k - 1, left, newest);
      FirstStays(run, labels, k - 1, left, newest);
      StepKeepsFirstRelease(run[k - 1], labels[k - 1], run[k], left, newest);
    }
  }

  /** In every run from a restart, the first batch any stop or finish attempt releases is the newest one. */
  lemma FirstReleaseIsNewest(run: seq<State>, labels: seq<Label>, k: nat, freshRt: Runtime, reason: string)
    requires IsRun(run, labels) && Restarted(run[0], freshRt, reason) && k < |run|
    ensures FirstReleaseIs(run[k].sh.log, NewestId(Unfinished(run[0].sh.rows)))
  {
    var left := Unfinished(run[0].sh.rows);
    RestartedFirst(run[0], freshRt, reason);
    FirstReleaseStays(run, labels, k, left, NewestId(left));
  }

  // ---------- repair is always possible ----------

  /** Failure-free finish attempts, one after another. */
  function FinishAll(sh: Shared, order: seq<int>, c: Choice): Shared
    decreases |order|
  {
    if order == [] then sh else
      FinishAll(Closure.FinishToEnd(sh, NewFinish(order[0]), c).0, order[1..], c)
  }

  lemma {:induction false} IdleFinishesCloseAll(sh: Shared, order: seq<int>, c: Choice)
    requires c.ok && sh.rt.active.None?
    requires forall i :: 0 <= i < |order| ==> order[i] in Unfinished(sh.rows)
    requires forall i, j :: 0 <= i < j < |order| ==> order[i] != order[j]
    ensures
      var sh' := FinishAll(sh, order, c);
      && Unfinished(sh'.rows) == Unfinished(sh.rows) - (set id | id in order)
      && sh'.rt == (if order == [] then sh.rt else sh.rt.(auto := false))
    decreases |order|
  {
    if order != [] {
      var mid := Closure.FinishToEnd(sh, NewFinish(order[0]), c).0;
      Closure.OnTrackIdleFinishCloses(sh, NewFinish(order[0]), c);
      var rest := order[1..];
      forall i | 0 <= i < |rest| ensures rest[i] in Unfinished(mid.rows) {
        assert rest[i] == order[i + 1] && order[0] != order[i + 1];
      }
      IdleFinishesCloseAll(mid, rest, c);
      assert forall id :: id in order <==> id == order[0] || id in rest;
    }
  }

  /**
   From any restart, finishing the newest row and then the others in any order leaves no unfinished row and no active
   batch, the fault still latched and the other latches as they were; and then recovery is no longer required.
   */
  lemma RepairCompletes(s: State, freshRt: Runtime, reason: string, order: seq<int>, c: Choice)
    requires Restarted(s, freshRt, reason) && c.ok
    requires order != [] && order[0] == NewestId(Unfinished(s.sh.rows))
    requires (set id | id in order) == Unfinished(s.sh.rows)
    requires forall i, j :: 0 <= i < j < |order| ==> order[i] != order[j]
    ensures
      var sh := FinishAll(s.sh, order, c);
      && Unfinished(sh.rows) == {}
      && sh.rt == freshRt.Engage(ControlFault, reason).(active := None, targets := s.sh.stopTargets)
      && !StatusOf(ReadUnfinished(sh), sh.rt.active).RecoveryRequired()
  {
    RecoverHoldsNewest(freshRt, s.sh.rows, reason);
    Closure.FailureFreeFinishCloses(s.sh, order[0], c);
    var mid := Closure.FinishToEnd(s.sh, NewFinish(order[0]), c).0;
    var rest := order[1..];
    forall i | 0 <= i < |rest| ensures rest[i] in Unfinished(mid.rows) {
      assert rest[i] == order[i + 1] && order[0] != order[i + 1];
      assert order[i + 1] in (set id | id in order);
    }
    IdleFinishesCloseAll(mid, rest, c);
    assert forall id :: id in order <==> id == order[0] || id in rest;
    VerdictIsExact({}, None, READ_LIMIT);
  }

  // ---------- and production resumes ----------

  function ResetRank(pc: ResetPc): nat {
    match pc
    case REnter => 4 case REnterQuery => 3 case RAudit => 2 case RFinal => 1 case RDone(_) => 0
  }

  /** A fault reset running alone, every call with the same outcome, until it returns. */
  function ResetToEnd(sh: Shared, l: Reset, c: Choice): (Shared, Reset)
    requires l.latch == ControlFault
    decreases ResetRank(l.pc)
  {
    if l.pc.RDone? then (sh, l) else
      var (e, l') := FaultResetStep(sh, l, c);
      ResetToEnd(Apply(sh, e), l', c)
  }

  /** Where a failure-free fault reset can be while no row is unfinished and no batch active. */
  predicate ResetOnTrack(sh: Shared, l: Reset) {
    && sh.rt.active.None? && sh.rt.fault.Some? && !sh.rt.loopTerminated && Unfinished(sh.rows) == {}
    && l.latch == ControlFault && l.pc != REnterQuery && !l.pc.RDone?
    && (l.pc != REnter ==> l.ackGen == sh.rt.faultGen && l.ackError == sh.rt.fault)
  }

  lemma {:induction false} OnTrackResetClears(sh: Shared, l: Reset, c: Choice)
    requires c.ok && c.healthy && ResetOnTrack(sh, l)
    ensures
      var (sh', l') := ResetToEnd(sh, l, c);
      l'.pc == RDone(true) && sh'.rt == sh.rt.Clear(ControlFault) && sh'.rows == sh.rows
    decreases ResetRank(l.pc)
  {
    VerdictIsExact({}, None, READ_LIMIT);
    var (e, l') := FaultResetStep(sh, l, c);
    if l.pc != RFinal { OnTrackResetClears(Apply(sh, e), l', c); }
  }

  function StartRank(pc: StartPc): nat {
    match pc
    case SPreRead => 20 case SPreQuery => 19 case SEnter => 18 case SEnterQuery => 17 case SInsert => 16
    case SPreCheck => 15 case SWrite => 14 case SWriteLatch => 13 case SFailAudit => 12 case SFailFinish => 11
    case SAudit => 13 case SMarkApplied => 12 case SCommitQuery => 11 case SCommit => 10
    case SRollStop => 9 case SRollStopLatch => 8 case SRollHold => 7 case SRollClear => 8 case SRollFinish => 7
    case STailLatch => 6 case SDone(_) => 0
  }

  lemma EarlyRankFalls(sh: Shared, l: Start, c: Choice)
    requires StartRank(l.pc) >= 14
    ensures StartRank(StartStep(sh, l, c).1.pc) < StartRank(l.pc)
  {
  }

  lemma LateRankFalls(sh: Shared, l: Start, c: Choice)
    requires 0 < StartRank(l.pc) < 14
    ensures StartRank(StartStep(sh, l, c).1.pc) < StartRank(l.pc)
  {
  }

  lemma StartRankFalls(sh: Shared, l: Start, c: Choice)
    requires !l.pc.SDone?
    ensures StartRank(StartStep(sh, l, c).1.pc) < StartRank(l.pc)
  {
    if StartRank(l.pc) >= 14 { EarlyRankFalls(sh, l, c); } else { LateRankFalls(sh, l, c); }
  }

  /** A start running alone, every call with the same outcome, until it returns. */
  function StartToEnd(sh: Shared, l: Start, c: Choice): (Shared, Start)
    decreases StartRank(l.pc)
  {
    if l.pc.SDone? then (sh, l) else
      StartRankFalls(sh, l, c);
      var (e, l') := StartStep(sh, l, c);
      StartToEnd(Apply(sh, e), l', c)
  }

  /** Where a failure-free start can be while nothing interferes. */
  predicate StartOnTrack(sh: Shared, l: Start) {
    && sh.rt.active.None? && sh.rt.LatchesClear()
    && match l.pc
       case SPreRead | SPreQuery | SEnter => Unfinished(sh.rows) == {}
       case SEnterQuery | SInsert => Unfinished(sh.rows) == {} && SnapshotFits(sh, l)
       case SPreCheck | SWrite | SAudit | SMarkApplied | SCommitQuery =>
         Unfinished(sh.rows) == {l.row} && SnapshotFits(sh, l)
       case SCommit => Unfinished(sh.rows) == {l.row} && SnapshotFits(sh, l) && l.list == ReadUnfinished(sh)
       case _ => false
  }

  predicate SnapshotFits(sh: Shared, l: Start) {
    l.snap.active.None? && l.snap.clear && l.snap.ack == Generations.From(sh.rt)
  }

  /** The checks of the start pass on the tables it meets. */
  lemma ChecksPass(sh: Shared, l: Start)
    requires StartOnTrack(sh, l)
    ensures Unfinished(sh.rows) == {} ==> NoUnclosedExcept(ReadUnfinished(sh), None, None)
    ensures Unfinished(sh.rows) == {l.row} ==>
              NoUnclosedExcept(ReadUnfinished(sh), None, Some(l.row)) && Consistent(ReadUnfinished(sh), Some(l.row))
  {
    NoUnclosedIsExact(Unfinished(sh.rows), None, None);
    NoUnclosedIsExact(Unfinished(sh.rows), None, Some(l.row));
    VerdictIsExact(Unfinished(sh.rows), Some(l.row), READ_LIMIT);
  }

  lemma StepStaysOnTrack(sh: Shared, l: Start, c: Choice)
    requires c.ok && c.healthy && StartOnTrack(sh, l) && l.pc != SCommit
    ensures
      var (e, l') := StartStep(sh, l, c);
      StartOnTrack(Apply(sh, e), l') && l'.kind == l.kind && l'.targets == l.targets
  {
    ChecksPass(sh, l);
    if l.pc == SInsert { assert Unfinished(sh.rows[sh.nextId := Row(None)]) == {sh.nextId}; }
  }

  lemma {:induction false} OnTrackStartActivates(sh: Shared, l: Start, c: Choice)
    requires c.ok && c.healthy && StartOnTrack(sh, l)
    ensures
      var (sh', l') := StartToEnd(sh, l, c);
      && l'.pc == SDone(true) && sh'.rt.active == Some(l'.row) && sh'.rt.targets == l.targets
      && sh'.rt.auto == (l.kind != BatchStart) && Unfinished(sh'.rows) == {l'.row}
    decreases StartRank(l.pc)
  {
    StartRankFalls(sh, l, c);
    var (e, l') := StartStep(sh, l, c);
    if l.pc == SCommit {
      ChecksPass(sh, l);
    } else {
      StepStaysOnTrack(sh, l, c);
      OnTrackStartActivates(Apply(sh, e), l', c);
    }
  }

  /**
   After the repair of any restart, a failure-free fault reset clears the fault and the next failure-free start of any
   kind activates its batch, if the control loop runs and neither the manual lock nor the emergency stop is set.
   */
  lemma RepairedDaemonResumes(
      s: State, freshRt: Runtime, reason: string, order: seq<int>, c: Choice, kind: StartKind, targets: Targets)
    requires Restarted(s, freshRt, reason) && c.ok && c.healthy
    requires order != [] && order[0] == NewestId(Unfinished(s.sh.rows))
    requires (set id | id in order) == Unfinished(s.sh.rows)
    requires forall i, j :: 0 <= i < j < |order| ==> order[i] != order[j]
    requires !freshRt.loopTerminated && !freshRt.manualLock && !freshRt.emergencyStop
    ensures
      var repaired := FinishAll(s.sh, order, c);
      var (cleared, reset) := ResetToEnd(repaired, NewReset(ControlFault), c);
      var (sh, start) := StartToEnd(cleared, NewStart(kind, targets), c);
      && reset.pc == RDone(true) && cleared.rt.LatchesClear()
      && start.pc == SDone(true) && sh.rt.active == Some(start.row) && sh.rt.targets == targets
      && sh.rt.auto == (kind != BatchStart) && Unfinished(sh.rows) == {start.row}
  {
    RepairCompletes(s, freshRt, reason, order, c);
    var repaired := FinishAll(s.sh, order, c);
    OnTrackResetClears(repaired, NewReset(ControlFault), c);
    var cleared := ResetToEnd(repaired, NewReset(ControlFault), c).0;
    OnTrackStartActivates(cleared, NewStart(kind, targets), c);
  }
}
