/** Concrete runs that show why the theorems about starts and finishes carry their conditions. */
module Races {
  import opened Common
  import opened Control
  import opened Runtime
  import opened Batches
  import opened Shared
  import opened Handlers
  import opened Runs
  import Compensation

  // ---------- building runs one step at a time ----------

  predicate IsRunOf(run: seq<State>, labels: seq<Label>, disciplined: bool) {
    IsRun(run, labels) && (disciplined ==> IsDisciplinedRun(run, labels))
  }

  /** Some run, disciplined if asked for, ends in this state. */
  ghost predicate Reaches(s: State, disciplined: bool) {
    exists run, labels :: IsRunOf(run, labels, disciplined) && run[|run| - 1] == s
  }

  lemma ReachInitial(s: State, d: bool)
    requires Initial(s)
    ensures Reaches(s, d)
  {
    assert IsRunOf([s], [], d) && [s][|[s]| - 1] == s;
  }

  lemma ExtendRun(run: seq<State>, labels: seq<Label>, a: Label)
    requires IsRun(run, labels) && Enabled(run[|run| - 1], a)
    ensures IsRun(run + [Next(run[|run| - 1], a)], labels + [a])
    ensures IsDisciplinedRun(run, labels) && Disciplined(run[|run| - 1], a)
            ==> IsDisciplinedRun(run + [Next(run[|run| - 1], a)], labels + [a])
  {
    var n := |labels|;
    var run', labels' := run + [Next(run[n], a)], labels + [a];
    forall i | 0 <= i < |labels'| ensures StepOf(run'[i], labels'[i], run'[i + 1]) {
      if i < n { assert StepOf(run[i], labels[i], run[i + 1]) && run'[i + 1] == run[i + 1]; }
    }
    if IsDisciplinedRun(run, labels) && Disciplined(run[n], a) {
      forall i | 0 <= i < |labels'| ensures DisciplinedStep(run'[i], labels'[i], run'[i + 1]) {
        if i < n { assert DisciplinedStep(run[i], labels[i], run[i + 1]); }
      }
    }
  }

  lemma Step(s: State, a: Label, d: bool)
    requires Reaches(s, d) && Enabled(s, a) && (d ==> Disciplined(s, a))
    ensures Reaches(Next(s, a), d)
  {
    var run, labels :| IsRunOf(run, labels, d) && run[|run| - 1] == s;
    ExtendRun(run, labels, a);
    var run', labels' := run + [Next(s, a)], labels + [a];
    assert IsRunOf(run', labels', d) && run'[|run'| - 1] == Next(s, a);
  }

  // ---------- the scene ----------

  const T := Targets(1.0, 0.0, 0.0, 0.0, 0.0, 0.0, 0.0)
  const STOP := Targets(0.0, 0.0, 0.0, 0.0, 0.0, 0.0, 0.0)
  const IDLE := Runtime(STOP, false, false, 0, false, 0, None, 0, None, false)
  const GOOD := Choice(true, true, true, 1, "")
  const LIMITS := Limits(0.0, 0.0, 0.0, 0.0, [])
  const SNAP := SnapAt(0)
  const RUNNING := IDLE.(active := Some(1), targets := T)
  const OPEN_ROW: Row := Row(None)

  function SnapAt(since: nat): Snapshot { Snapshot(None, true, since, Generations(0, 0, 0)) }

  function Sh(rt: Runtime, rows: Table, nextId: int, log: seq<Event>): Shared {
    Shared(rt, rows, nextId, log, IDLE, STOP)
  }

  /** A batch start at a program counter. */
  function At(pc: StartPc, snap: Snapshot, row: int, list: seq<int>, command: Command): Handler {
    HStart(Start(BatchStart, T, pc, snap, row, list, command, None, false))
  }

  function S(sh: Shared, hs: map<nat, Handler>): State { State(sh, hs, LIMITS) }

  /** One step of handler `id`, given what the step does. */
  lemma AdvanceWith(s: State, id: nat, c: Choice, e: Effect, h: Handler, d: bool)
    requires Reaches(s, d) && s.lim == LIMITS && id in s.hs && HandlerStep(s.sh, LIMITS, s.hs[id], c) == (e, h)
    requires d ==> Disciplined(s, Act(id, c))
    ensures Reaches(S(Apply(s.sh, e), s.hs[id := h]), d)
  {
    Step(s, Act(id, c), d);
    assert Next(s, Act(id, c)) == S(Apply(s.sh, e), s.hs[id := h]);
  }

  /** The same with every call succeeding. */
  lemma Advance(s: State, id: nat, e: Effect, h: Handler, d: bool)
    requires Reaches(s, d) && s.lim == LIMITS && id in s.hs && HandlerStep(s.sh, LIMITS, s.hs[id], GOOD) == (e, h)
    requires d ==> Disciplined(s, Act(id, GOOD))
    ensures Reaches(S(Apply(s.sh, e), s.hs[id := h]), d)
  {
    AdvanceWith(s, id, GOOD, e, h, d);
  }

  /** One step of a stop attempt. */
  lemma StopMove(s: State, id: nat, l: Stop, e: Effect, l': Stop)
    requires Reaches(s, true) && s.lim == LIMITS && id in s.hs && s.hs[id] == HStop(l)
    requires StopStep(s.sh, l, GOOD) == (e, l')
    ensures Reaches(S(Apply(s.sh, e), s.hs[id := HStop(l')]), true)
  {
    Advance(s, id, e, HStop(l'), true);
  }

  /** One step of a start. */
  lemma StartMove(s: State, id: nat, l: Start, c: Choice, e: Effect, l': Start)
    requires Reaches(s, true) && s.lim == LIMITS && id in s.hs && s.hs[id] == HStart(l)
    requires StartStep(s.sh, l, c) == (e, l')
    ensures Reaches(S(Apply(s.sh, e), s.hs[id := HStart(l')]), true)
  {
    AdvanceWith(s, id, c, e, HStart(l'), true);
  }

  lemma Overwrite(hs: map<nat, Handler>, id: nat, h: Handler, h': Handler)
    ensures hs[id := h][id := h'] == hs[id := h']
  {
  }

  lemma Request(s: State, id: nat, h: Handler, d: bool)
    requires Reaches(s, d) && s.lim == LIMITS && id !in s.hs && IsNew(h)
    ensures Reaches(S(s.sh, s.hs[id := h]), d)
  {
    Step(s, Spawn(id, h), d);
    assert Next(s, Spawn(id, h)) == S(s.sh, s.hs[id := h]);
  }

  /** A start, from its request to its insert, while no row is unfinished. */
  lemma StartReachesInsert(s: State, id: nat, snap: Snapshot, d: bool)
    requires Reaches(s, d) && s.lim == LIMITS && id !in s.hs
    requires s.sh.rt == IDLE && Unfinished(s.sh.rows) == {} && snap == SnapAt(|s.sh.log|)
    ensures Reaches(S(s.sh, s.hs[id := At(SInsert, snap, 0, [], Unsent)]), d)
  {
    NoUnclosedIsExact({}, None, None);
    var h1, h2 := At(SEnter, NO_SNAPSHOT, 0, [], Unsent), At(SEnterQuery, snap, 0, [], Unsent);
    var h3 := At(SInsert, snap, 0, [], Unsent);
    Request(s, id, h1, d);
    Advance(S(s.sh, s.hs[id := h1]), id, AutoOff, h2, d);
    assert Apply(s.sh, AutoOff) == s.sh && s.hs[id := h1][id := h2] == s.hs[id := h2];
    Advance(S(s.sh, s.hs[id := h2]), id, Nothing, h3, d);
    assert s.hs[id := h2][id := h3] == s.hs[id := h3];
  }

  /** Alone in the table, a start passes the check before the device write. */
  lemma CheckStep(sh: Shared, snap: Snapshot, row: int)
    requires sh.rt == IDLE && Unfinished(sh.rows) == {row}
    ensures HandlerStep(sh, LIMITS, At(SPreCheck, snap, row, [], Unsent), GOOD)
         == (Nothing, At(SWrite, snap, row, [], Unsent))
  {
    NoUnclosedIsExact({row}, None, Some(row));
  }

  /** From its insert past that check. */
  lemma StartPassesCheck(s: State, id: nat, snap: Snapshot, sh': Shared, d: bool)
    requires Reaches(s, d) && s.lim == LIMITS && id in s.hs && s.hs[id] == At(SInsert, snap, 0, [], Unsent)
    requires s.sh.rt == IDLE && Unfinished(s.sh.rows) == {} && s.sh.nextId !in s.sh.rows
    requires sh' == s.sh.(rows := s.sh.rows[s.sh.nextId := OPEN_ROW], nextId := s.sh.nextId + 1)
    ensures Reaches(S(sh', s.hs[id := At(SWrite, snap, s.sh.nextId, [], Unsent)]), d)
  {
    var row := s.sh.nextId;
    var h1, h2 := At(SPreCheck, snap, row, [], Unsent), At(SWrite, snap, row, [], Unsent);
    Advance(s, id, InsertRow, h1, d);
    assert Unfinished(sh'.rows) == {row};
    CheckStep(sh', snap, row);
    Advance(S(sh', s.hs[id := h1]), id, Nothing, h2, d);
    assert s.hs[id := h1][id := h2] == s.hs[id := h2];
  }

  lemma FirstStartAtWrite(d: bool)
    ensures Reaches(S(Sh(IDLE, map[1 := OPEN_ROW], 2, []), map[0 := At(SWrite, SNAP, 1, [], Unsent)]), d)
  {
    var s0 := S(Sh(IDLE, map[], 1, []), map[]);
    ReachInitial(s0, d);
    StartReachesInsert(s0, 0, SNAP, d);
    var h0, h1 := At(SInsert, SNAP, 0, [], Unsent), At(SWrite, SNAP, 1, [], Unsent);
    StartPassesCheck(S(s0.sh, map[0 := h0]), 0, SNAP, Sh(IDLE, map[1 := OPEN_ROW], 2, []), d);
    assert map[0 := h0][0 := h1] == map[0 := h1];
  }

  // ---------- an operator who finishes a pending row defeats the exclusion ----------

  function Fin(pc: FinishPc, seenActive: Option<int>, seen: Option<Row>, since: nat): Handler {
    HFinish(Finish(pc, 1, seenActive, seen, since))
  }

  lemma FinishStartsOnPendingRow(s: State)
    requires Reaches(s, false) && s.lim == LIMITS && 1 !in s.hs && s.sh.rt == IDLE && s.sh.log == []
    requires s.sh.rows == map[1 := OPEN_ROW]
    ensures Reaches(S(s.sh, s.hs[1 := Fin(FSettle, None, Some(OPEN_ROW), 0)]), false)
  {
    var h0, h1, h2 := Fin(FRead, None, None, 0), Fin(FLookup, None, None, 0), Fin(FSettle, None, Some(OPEN_ROW), 0);
    Request(s, 1, h0, false);
    Advance(S(s.sh, s.hs[1 := h0]), 1, Nothing, h1, false);
    assert s.hs[1 := h0][1 := h1] == s.hs[1 := h1];
    Advance(S(s.sh, s.hs[1 := h1]), 1, Nothing, h2, false);
    assert s.hs[1 := h1][1 := h2] == s.hs[1 := h2];
  }

  lemma FinishSettlesPendingRow(s: State)
    requires Reaches(s, false) && s.lim == LIMITS && 1 !in s.hs && s.sh.rt == IDLE && s.sh.log == []
    requires s.sh.rows == map[1 := OPEN_ROW]
    ensures Reaches(S(s.sh, s.hs[1 := Fin(FClose, None, Some(OPEN_ROW), 0)]), false)
  {
    FinishStartsOnPendingRow(s);
    var h2, h3 := Fin(FSettle, None, Some(OPEN_ROW), 0), Fin(FClose, None, Some(OPEN_ROW), 0);
    Advance(S(s.sh, s.hs[1 := h2]), 1, AutoOff, h3, false);
    assert Apply(s.sh, AutoOff) == s.sh && s.hs[1 := h2][1 := h3] == s.hs[1 := h3];
  }

  lemma OperatorClosesPendingRow(s: State)
    requires Reaches(s, false) && s.lim == LIMITS && 1 !in s.hs && s.sh.rt == IDLE && s.sh.log == []
    requires s.sh.rows == map[1 := OPEN_ROW]
    ensures Reaches(S(s.sh.(rows := map[1 := Row(Some(1))]), s.hs[1 := Fin(FReload, None, Some(OPEN_ROW), 0)]), false)
  {
    FinishSettlesPendingRow(s);
    var h3, h4 := Fin(FClose, None, Some(OPEN_ROW), 0), Fin(FReload, None, Some(OPEN_ROW), 0);
    Advance(S(s.sh, s.hs[1 := h3]), 1, CloseRow(1, 1), h4, false);
    assert s.hs[1 := h3][1 := h4] == s.hs[1 := h4];
    assert FinishRow(s.sh.rows, 1, 1) == map[1 := Row(Some(1))];
  }

  /** Without the discipline, two starts can be past their check, about to write the device, at the same time. */
  lemma OperatorFinishBreaksExclusion()
    ensures exists s :: Reaches(s, false) && 0 in s.hs && 2 in s.hs && s.hs[0].HStart? && s.hs[2].HStart?
                        && s.hs[0].start.pc == SWrite && s.hs[2].start.pc == SWrite
  {
    FirstStartAtWrite(false);
    var a := At(SWrite, SNAP, 1, [], Unsent);
    var s1 := S(Sh(IDLE, map[1 := OPEN_ROW], 2, []), map[0 := a]);
    OperatorClosesPendingRow(s1);
    var closed := Sh(IDLE, map[1 := Row(Some(1))], 2, []);
    var hs := s1.hs[1 := Fin(FReload, None, Some(OPEN_ROW), 0)];
    StartReachesInsert(S(closed, hs), 2, SNAP, false);
    var hs' := hs[2 := At(SInsert, SNAP, 0, [], Unsent)];
    StartPassesCheck(S(closed, hs'), 2, SNAP, Sh(IDLE, closed.rows[2 := OPEN_ROW], 3, []), false);
  }

  // ---------- a start command that fails but reaches the device is not stopped ----------

  const LOST := Choice(false, true, true, 1, "")
  const FAULTED := IDLE.(fault := Some(""), faultGen := 1)

  /** The start of batch 1 after its failed device write. */
  function FailedAt(pc: StartPc): Start { At(pc, SNAP, 1, [], Refused).start }

  const LOST_LOG := [StartWritten(1, None), Engaged(ControlFault)]

  lemma WriteFails()
    ensures Reaches(S(Sh(IDLE, map[1 := OPEN_ROW], 2, [StartWritten(1, None)]),
                      map[0 := HStart(FailedAt(SWriteLatch))]), true)
  {
    FirstStartAtWrite(true);
    var sh0 := Sh(IDLE, map[1 := OPEN_ROW], 2, []);
    var a0, l1 := At(SWrite, SNAP, 1, [], Unsent), FailedAt(SWriteLatch);
    StartMove(S(sh0, map[0 := a0]), 0, a0.start, LOST, WriteStart(1), l1);
    assert Apply(sh0, WriteStart(1)).log == [StartWritten(1, None)];
    assert map[0 := a0][0 := HStart(l1)] == map[0 := HStart(l1)];
  }

  lemma FailedWriteLatches()
    ensures Reaches(S(Sh(FAULTED, map[1 := OPEN_ROW], 2, LOST_LOG), map[0 := HStart(FailedAt(SFailAudit))]), true)
  {
    WriteFails();
    var sh1 := Sh(IDLE, map[1 := OPEN_ROW], 2, [StartWritten(1, None)]);
    var l1, l2 := FailedAt(SWriteLatch), FailedAt(SFailAudit);
    StartMove(S(sh1, map[0 := HStart(l1)]), 0, l1, GOOD, EngageLatch(ControlFault, ""), l2);
    assert Apply(sh1, EngageLatch(ControlFault, "")).log == LOST_LOG;
    assert map[0 := HStart(l1)][0 := HStart(l2)] == map[0 := HStart(l2)];
  }

  lemma FailedWriteIsAudited()
    ensures Reaches(S(Sh(FAULTED, map[1 := OPEN_ROW], 2, LOST_LOG), map[0 := HStart(FailedAt(SFailFinish))]), true)
  {
    FailedWriteLatches();
    var sh := Sh(FAULTED, map[1 := OPEN_ROW], 2, LOST_LOG);
    var l2, l3 := FailedAt(SFailAudit), FailedAt(SFailFinish);
    StartMove(S(sh, map[0 := HStart(l2)]), 0, l2, GOOD, Nothing, l3);
    assert map[0 := HStart(l2)][0 := HStart(l3)] == map[0 := HStart(l3)];
  }

  /** A start that returned its error after the device took its command, with nothing but the fault to show for it. */
  predicate TakenButNotStopped(s: State, id: nat, row: int) {
    && id in s.hs && s.hs[id].HStart? && s.hs[id].start.pc == SDone(false)
    && StartWritten(row, None) in s.sh.log && StopWritten !in s.sh.log
    && s.sh.rt.fault.Some? && s.sh.rt.active.None? && Unfinished(s.sh.rows) == {}
  }

  /**
   A disciplined run in which the device took the start command although the call reported failure: the start returns
   its error with the fault latched, its row closed and no batch active, and the device never receives stop targets.
   */
  lemma FailedWriteIsNotStopped()
    ensures exists s :: Reaches(s, true) && TakenButNotStopped(s, 0, 1)
  {
    FailedWriteIsAudited();
    var sh := Sh(FAULTED, map[1 := OPEN_ROW], 2, LOST_LOG);
    var l3, l4 := FailedAt(SFailFinish), FailedAt(SDone(false));
    StartMove(S(sh, map[0 := HStart(l3)]), 0, l3, GOOD, CloseRow(1, 1), l4);
    var last := S(Apply(sh, CloseRow(1, 1)), map[0 := HStart(l3)][0 := HStart(l4)]);
    assert last.sh.log[0] == StartWritten(1, None);
    assert TakenButNotStopped(last, 0, 1);
  }

  // ---------- a finish that began before the activation releases the batch unstopped ----------

  const L1 := [StartWritten(1, None)]
  const L2 := [StartWritten(1, None), TargetsForced(T), Activated(1, 0, None)]

  const LIST := NewestFirst({1}, READ_LIMIT)

  lemma StartWrites()
    ensures Reaches(S(Sh(IDLE, map[1 := OPEN_ROW], 2, L1), map[0 := At(SAudit, SNAP, 1, [], Accepted(0))]), true)
  {
    FirstStartAtWrite(true);
    var sh0 := Sh(IDLE, map[1 := OPEN_ROW], 2, []);
    var a0, a1 := At(SWrite, SNAP, 1, [], Unsent), At(SAudit, SNAP, 1, [], Accepted(0));
    Advance(S(sh0, map[0 := a0]), 0, WriteStart(1), a1, true);
    assert Apply(sh0, WriteStart(1)) == Sh(IDLE, map[1 := OPEN_ROW], 2, L1) && map[0 := a0][0 := a1] == map[0 := a1];
  }

  lemma StartReadsTable()
    ensures Reaches(S(Sh(IDLE, map[1 := OPEN_ROW], 2, L1), map[0 := At(SCommit, SNAP, 1, LIST, Accepted(0))]), true)
  {
    StartWrites();
    var rows: Table := map[1 := OPEN_ROW];
    var sh1 := Sh(IDLE, rows, 2, L1);
    var a1, a2 := At(SAudit, SNAP, 1, [], Accepted(0)), At(SCommitQuery, SNAP, 1, [], Accepted(0));
    var a3 := At(SCommit, SNAP, 1, LIST, Accepted(0));
    Advance(S(sh1, map[0 := a1]), 0, Nothing, a2, true);
    assert map[0 := a1][0 := a2] == map[0 := a2];
    assert Unfinished(rows) == {1};
    Advance(S(sh1, map[0 := a2]), 0, Nothing, a3, true);
    assert map[0 := a2][0 := a3] == map[0 := a3];
  }

  /** A finish request sees no active batch while the start is about to commit. */
  lemma FinishReadsBeforeCommit()
    ensures Reaches(S(Sh(IDLE, map[1 := OPEN_ROW], 2, L1),
                      map[0 := At(SCommit, SNAP, 1, LIST, Accepted(0)), 1 := Fin(FLookup, None, None, 1)]), true)
  {
    StartReadsTable();
    var sh1 := Sh(IDLE, map[1 := OPEN_ROW], 2, L1);
    var a3, f0, f1 := At(SCommit, SNAP, 1, LIST, Accepted(0)), Fin(FRead, None, None, 0), Fin(FLookup, None, None, 1);
    Request(S(sh1, map[0 := a3]), 1, f0, true);
    assert map[0 := a3][1 := f0] == map[0 := a3, 1 := f0];
    Advance(S(sh1, map[0 := a3, 1 := f0]), 1, Nothing, f1, true);
    assert map[0 := a3, 1 := f0][1 := f1] == map[0 := a3, 1 := f1];
  }

  lemma CommitStep(sh1: Shared)
    requires sh1 == Sh(IDLE, map[1 := OPEN_ROW], 2, L1)
    ensures HandlerStep(sh1, LIMITS, At(SCommit, SNAP, 1, LIST, Accepted(0)), GOOD)
         == (Activate(1, T, false, 0), At(SDone(true), SNAP, 1, LIST, Accepted(0)))
  {
    VerdictIsExact({1}, Some(1), READ_LIMIT);
  }

  lemma CommitActivates(sh1: Shared)
    requires sh1 == Sh(IDLE, map[1 := OPEN_ROW], 2, L1)
    ensures Apply(sh1, Activate(1, T, false, 0)) == Sh(RUNNING, map[1 := OPEN_ROW], 2, L2)
  {
    assert L1 + [TargetsForced(T), Activated(1, 0, None)] == L2;
  }

  lemma StartCommits()
    ensures Reaches(S(Sh(RUNNING, map[1 := OPEN_ROW], 2, L2),
                      map[0 := At(SDone(true), SNAP, 1, LIST, Accepted(0)), 1 := Fin(FLookup, None, None, 1)]), true)
  {
    FinishReadsBeforeCommit();
    var a3, a4 := At(SCommit, SNAP, 1, LIST, Accepted(0)), At(SDone(true), SNAP, 1, LIST, Accepted(0));
    var f1 := Fin(FLookup, None, None, 1);
    var sh1 := Sh(IDLE, map[1 := OPEN_ROW], 2, L1);
    CommitStep(sh1);
    CommitActivates(sh1);
    Advance(S(sh1, map[0 := a3, 1 := f1]), 0, Activate(1, T, false, 0), a4, true);
    assert map[0 := a3, 1 := f1][0 := a4] == map[0 := a4, 1 := f1];
  }

  /** Only after the start has returned does the finish request look up the row. */
  lemma CommitThenLookup()
    ensures Reaches(S(Sh(RUNNING, map[1 := OPEN_ROW], 2, L2),
                      map[0 := At(SDone(true), SNAP, 1, LIST, Accepted(0)),
                          1 := Fin(FSettle, None, Some(OPEN_ROW), 1)]), true)
  {
    StartCommits();
    var a4 := At(SDone(true), SNAP, 1, LIST, Accepted(0));
    var f1, f2 := Fin(FLookup, None, None, 1), Fin(FSettle, None, Some(OPEN_ROW), 1);
    Advance(S(Sh(RUNNING, map[1 := OPEN_ROW], 2, L2), map[0 := a4, 1 := f1]), 1, Nothing, f2, true);
    assert map[0 := a4, 1 := f1][1 := f2] == map[0 := a4, 1 := f2];
  }

  /**
   A disciplined run in which a batch whose start the device accepted is released although the device never received
   stop targets: the finish request read the active batch before the activation and looked its row up afterwards.
   */
  lemma EarlyFinishReleasesUnstopped()
    ensures exists s :: Reaches(s, true) && s.sh.rt.active.None? && StartWritten(1, None) in s.sh.log
                        && (exists since :: Released(1, since, false) in s.sh.log) && StopWritten !in s.sh.log
  {
    CommitThenLookup();
    var a := At(SDone(true), SNAP, 1, LIST, Accepted(0));
    var f2, f3 := Fin(FSettle, None, Some(OPEN_ROW), 1), Fin(FClose, None, Some(OPEN_ROW), 1);
    var f4 := Fin(FReload, None, Some(OPEN_ROW), 1);
    var sh2 := Sh(RUNNING, map[1 := OPEN_ROW], 2, L2);
    var sh3 := Sh(RUNNING, map[1 := Row(Some(1))], 2, L2);
    Advance(S(sh2, map[0 := a, 1 := f2]), 1, AutoOff, f3, true);
    assert Apply(sh2, AutoOff) == sh2 && map[0 := a, 1 := f2][1 := f3] == map[0 := a, 1 := f3];
    Advance(S(sh2, map[0 := a, 1 := f3]), 1, CloseRow(1, 1), f4, true);
    assert Apply(sh2, CloseRow(1, 1)) == sh3 && map[0 := a, 1 := f3][1 := f4] == map[0 := a, 1 := f4];
    UnstoppedTail(a, sh3);
  }

  lemma UnstoppedTail(a: Handler, sh3: Shared)
    requires sh3 == Sh(RUNNING, map[1 := Row(Some(1))], 2, L2)
    requires Reaches(S(sh3, map[0 := a, 1 := Fin(FReload, None, Some(OPEN_ROW), 1)]), true)
    ensures exists s :: Reaches(s, true) && s.sh.rt.active.None? && StartWritten(1, None) in s.sh.log
                        && (exists since :: Released(1, since, false) in s.sh.log) && StopWritten !in s.sh.log
  {
    var f4, f5 := Fin(FReload, None, Some(OPEN_ROW), 1), Fin(FAudit, None, Some(OPEN_ROW), 1);
    var f6 := Fin(FRelease, None, Some(OPEN_ROW), 1);
    Advance(S(sh3, map[0 := a, 1 := f4]), 1, Nothing, f5, true);
    assert map[0 := a, 1 := f4][1 := f5] == map[0 := a, 1 := f5];
    Advance(S(sh3, map[0 := a, 1 := f5]), 1, AuditStop(1), f6, true);
    assert map[0 := a, 1 := f5][1 := f6] == map[0 := a, 1 := f6];
    UnstoppedRelease(a, sh3.(log := L2 + [StopAudited(1)]));
  }

  lemma ReleaseStep(sh4: Shared)
    requires sh4 == Sh(RUNNING, map[1 := Row(Some(1))], 2, L2 + [StopAudited(1)])
    ensures HandlerStep(sh4, LIMITS, Fin(FRelease, None, Some(OPEN_ROW), 1), GOOD)
         == (Release(1, None, 1), Fin(FDone(true), None, Some(OPEN_ROW), 1))
    ensures
      var sh5 := Apply(sh4, Release(1, None, 1));
      && sh5.rt.active.None?
      && sh5.log == [StartWritten(1, None), TargetsForced(T), Activated(1, 0, None), StopAudited(1),
                     Released(1, 1, false)]
  {
  }

  lemma UnstoppedRelease(a: Handler, sh4: Shared)
    requires sh4 == Sh(RUNNING, map[1 := Row(Some(1))], 2, L2 + [StopAudited(1)])
    requires Reaches(S(sh4, map[0 := a, 1 := Fin(FRelease, None, Some(OPEN_ROW), 1)]), true)
    ensures exists s :: Reaches(s, true) && s.sh.rt.active.None? && StartWritten(1, None) in s.sh.log
                        && (exists since :: Released(1, since, false) in s.sh.log) && StopWritten !in s.sh.log
  {
    var f6, f7 := Fin(FRelease, None, Some(OPEN_ROW), 1), Fin(FDone(true), None, Some(OPEN_ROW), 1);
    var hs := map[0 := a, 1 := f6];
    ReleaseStep(sh4);
    Advance(S(sh4, hs), 1, Release(1, None, 1), f7, true);
    var last := S(Apply(sh4, Release(1, None, 1)), hs[1 := f7]);
    assert last.sh.log[4] == Released(1, 1, false) && last.sh.log[0] == StartWritten(1, None);
    assert Reaches(last, true);
  }

  // ---------- a stop attempt left behind replaces the targets of a held batch ----------

  const FAILING := Choice(false, false, true, 1, "")
  const FINISHED_ROW: Row := Row(Some(0))

  /** A stop of batch 1, whose row an earlier attempt has finished. */
  function StopAt(pc: StopPc, seen: Option<Row>, since: nat): Handler { HStop(Stop(pc, 1, seen, since)) }

  predicate BatchOneRuns(sh: Shared) {
    sh.rt == RUNNING && sh.rows == map[1 := FINISHED_ROW] && sh.stopTargets == STOP
  }

  lemma StopReads(s: State, id: nat)
    requires Reaches(s, true) && s.lim == LIMITS && id !in s.hs && BatchOneRuns(s.sh)
    ensures Reaches(S(s.sh, s.hs[id := StopAt(PLookup, None, |s.sh.log|)]), true)
  {
    var h0, h1 := HStop(NewStop()), StopAt(PLookup, None, |s.sh.log|);
    Request(s, id, h0, true);
    StopMove(S(s.sh, s.hs[id := h0]), id, h0.stop, Nothing, h1.stop);
    Overwrite(s.hs, id, h0, h1);
  }

  /** A stop attempt up to its accepted device write. */
  lemma StopWrites(s: State, id: nat)
    requires Reaches(s, true) && s.lim == LIMITS && id !in s.hs && BatchOneRuns(s.sh)
    ensures Reaches(S(Apply(s.sh, WriteStop), s.hs[id := StopAt(PSettle, Some(FINISHED_ROW), |s.sh.log|)]), true)
  {
    StopReads(s, id);
    var n := |s.sh.log|;
    var h1, h2 := StopAt(PLookup, None, n), StopAt(PWrite, Some(FINISHED_ROW), n);
    var h3 := StopAt(PSettle, Some(FINISHED_ROW), n);
    StopMove(S(s.sh, s.hs[id := h1]), id, h1.stop, Nothing, h2.stop);
    Overwrite(s.hs, id, h1, h2);
    StopMove(S(s.sh, s.hs[id := h2]), id, h2.stop, WriteStop, h3.stop);
    Overwrite(s.hs, id, h2, h3);
  }

  lemma StopSettles(s: State, id: nat, since: nat)
    requires Reaches(s, true) && s.lim == LIMITS && BatchOneRuns(s.sh)
    requires id in s.hs && s.hs[id] == StopAt(PSettle, Some(FINISHED_ROW), since)
    ensures Reaches(S(Apply(s.sh, ForceTargets(STOP)), s.hs[id := StopAt(PAudit, Some(FINISHED_ROW), since)]), true)
  {
    StopMove(s, id, s.hs[id].stop, ForceTargets(STOP), StopAt(PAudit, Some(FINISHED_ROW), since).stop);
  }

  /** What the rest of an undisturbed stop attempt does to the shared state. */
  function Stopped(sh: Shared, since: nat): Shared {
    Apply(Apply(Apply(sh, ForceTargets(STOP)), AuditStop(1)), Release(1, Some(STOP), since))
  }

  lemma StopAudits(s: State, id: nat, since: nat)
    requires Reaches(s, true) && s.lim == LIMITS && BatchOneRuns(s.sh)
    requires id in s.hs && s.hs[id] == StopAt(PSettle, Some(FINISHED_ROW), since)
    ensures Reaches(S(Apply(Apply(s.sh, ForceTargets(STOP)), AuditStop(1)),
                      s.hs[id := StopAt(PRelease, Some(FINISHED_ROW), since)]), true)
  {
    StopSettles(s, id, since);
    var h1, h2 := StopAt(PAudit, Some(FINISHED_ROW), since), StopAt(PRelease, Some(FINISHED_ROW), since);
    StopMove(S(Apply(s.sh, ForceTargets(STOP)), s.hs[id := h1]), id, h1.stop, AuditStop(1), h2.stop);
    Overwrite(s.hs, id, h1, h2);
  }

  lemma StopEnds(s: State, id: nat, since: nat)
    requires Reaches(s, true) && s.lim == LIMITS && BatchOneRuns(s.sh)
    requires id in s.hs && s.hs[id] == StopAt(PSettle, Some(FINISHED_ROW), since)
    ensures Reaches(S(Stopped(s.sh, since), s.hs[id := StopAt(PDone(true), Some(FINISHED_ROW), since)]), true)
  {
    StopAudits(s, id, since);
    var h2, h3 := StopAt(PRelease, Some(FINISHED_ROW), since), StopAt(PDone(true), Some(FINISHED_ROW), since);
    var sh2 := Apply(Apply(s.sh, ForceTargets(STOP)), AuditStop(1));
    assert sh2.stopTargets == STOP;
    StopMove(S(sh2, s.hs[id := h2]), id, h2.stop, Release(1, Some(STOP), since), h3.stop);
    Overwrite(s.hs, id, h2, h3);
  }

  const L6 := [StopWritten, StopWritten, TargetsForced(STOP), StopAudited(1), TargetsForced(STOP), Released(1, 1, true)]

  function SceneAt(rt: Runtime, log: seq<Event>): Shared { Shared(rt, map[1 := FINISHED_ROW], 2, log, RUNNING, STOP) }

  lemma SceneSteps()
    ensures Apply(SceneAt(RUNNING, []), WriteStop) == SceneAt(RUNNING, [StopWritten])
    ensures Apply(SceneAt(RUNNING, [StopWritten]), WriteStop) == SceneAt(RUNNING, [StopWritten, StopWritten])
    ensures Stopped(SceneAt(RUNNING, [StopWritten, StopWritten]), 1) == SceneAt(IDLE, L6)
  {
    assert Stopped(SceneAt(RUNNING, [StopWritten, StopWritten]), 1).log == L6;
  }

  const A := StopAt(PSettle, Some(FINISHED_ROW), 0)
  const B := StopAt(PSettle, Some(FINISHED_ROW), 1)
  const B' := StopAt(PDone(true), Some(FINISHED_ROW), 1)

  lemma BothStopsWrite()
    ensures Reaches(S(SceneAt(RUNNING, [StopWritten, StopWritten]), map[0 := A, 1 := B]), true)
  {
    ReachInitial(S(SceneAt(RUNNING, []), map[]), true);
    StopWrites(S(SceneAt(RUNNING, []), map[]), 0);
    SceneSteps();
    assert map[][0 := A] == map[0 := A] && map[0 := A][1 := B] == map[0 := A, 1 := B];
    StopWrites(S(SceneAt(RUNNING, [StopWritten]), map[0 := A]), 1);
  }

  /** Two stop attempts on batch 1 have both written; the second has released it, the first is still to settle. */
  lemma OneStopLeftBehind()
    ensures Reaches(S(SceneAt(IDLE, L6), map[0 := A, 1 := B']), true)
  {
    BothStopsWrite();
    StopEnds(S(SceneAt(RUNNING, [StopWritten, StopWritten]), map[0 := A, 1 := B]), 1, 1);
    SceneSteps();
    assert map[0 := A, 1 := B][1 := B'] == map[0 := A, 1 := B'];
  }

  /** The table and the log once the start of batch 2 is past its check. */
  function SecondScene(log: seq<Event>): Shared {
    Shared(IDLE, map[1 := FINISHED_ROW, 2 := OPEN_ROW], 3, log, RUNNING, STOP)
  }

  const C0 := At(SInsert, SnapAt(6), 0, [], Unsent)
  const C1 := At(SWrite, SnapAt(6), 2, [], Unsent)
  const C2 := At(SAudit, SnapAt(6), 2, [], Accepted(6))

  lemma SecondStartPasses()
    ensures Reaches(S(SecondScene(L6), map[0 := A, 1 := B', 2 := C1]), true)
  {
    OneStopLeftBehind();
    var rows: Table := map[1 := FINISHED_ROW];
    assert Unfinished(rows) == {};
    var hs := map[0 := A, 1 := B'];
    StartReachesInsert(S(SceneAt(IDLE, L6), hs), 2, SnapAt(6), true);
    StartPassesCheck(S(SceneAt(IDLE, L6), hs[2 := C0]), 2, SnapAt(6), SecondScene(L6), true);
    Overwrite(hs, 2, C0, C1);
    assert hs[2 := C1] == map[0 := A, 1 := B', 2 := C1];
  }

  /** The start of batch 2 has its device write accepted, next to the stop attempt left behind. */
  lemma SecondStartWrites()
    ensures Reaches(S(SecondScene(L6 + [StartWritten(2, None)]), map[0 := A, 1 := B', 2 := C2]), true)
  {
    SecondStartPasses();
    var hs := map[0 := A, 1 := B', 2 := C1];
    StartMove(S(SecondScene(L6), hs), 2, C1.start, GOOD, WriteStart(2), C2.start);
    assert hs[2 := C2] == map[0 := A, 1 := B', 2 := C2];
  }

  lemma StartFailsItsStop(s: State, id: nat, l: Start)
    requires Reaches(s, true) && s.lim == LIMITS && id in s.hs && s.hs[id] == HStart(l) && l.pc == SAudit
    ensures Reaches(S(s.sh, s.hs[id := HStart(l.(pc := SRollStopLatch))]), true)
  {
    var l1, l2 := l.(pc := SRollStop), l.(pc := SRollStopLatch);
    StartMove(s, id, l, FAILING, Nothing, l1);
    StartMove(S(s.sh, s.hs[id := HStart(l1)]), id, l1, FAILING, Nothing, l2);
    Overwrite(s.hs, id, HStart(l1), HStart(l2));
  }

  lemma StartLatchesItsFault(s: State, id: nat, l: Start)
    requires Reaches(s, true) && s.lim == LIMITS && id in s.hs && s.hs[id] == HStart(l) && l.pc == SAudit
    ensures Reaches(S(Apply(s.sh, EngageLatch(ControlFault, "")), s.hs[id := HStart(l.(pc := SRollHold))]), true)
  {
    StartFailsItsStop(s, id, l);
    var l2, l3 := l.(pc := SRollStopLatch), l.(pc := SRollHold);
    StartMove(S(s.sh, s.hs[id := HStart(l2)]), id, l2, GOOD, EngageLatch(ControlFault, ""), l3);
    Overwrite(s.hs, id, HStart(l2), HStart(l3));
  }

  /** What a start whose audit and whose rollback stop both fail does to the shared state. */
  function Holding(sh: Shared, l: Start): Shared {
    Apply(Apply(sh, EngageLatch(ControlFault, "")), Hold(l.row, l.targets, ""))
  }

  function Held(l: Start, at: nat): Start { l.(held := Some(at), pc := STailLatch) }

  lemma StartHolds(s: State, id: nat, l: Start)
    requires Reaches(s, true) && s.lim == LIMITS && id in s.hs && s.hs[id] == HStart(l) && l.pc == SAudit
    ensures Reaches(S(Holding(s.sh, l), s.hs[id := HStart(Held(l, |s.sh.log| + 3))]), true)
  {
    StartLatchesItsFault(s, id, l);
    var sh1, l3 := Apply(s.sh, EngageLatch(ControlFault, "")), l.(pc := SRollHold);
    assert |sh1.log| == |s.sh.log| + 1;
    StartMove(S(sh1, s.hs[id := HStart(l3)]), id, l3, GOOD, Hold(l.row, l.targets, ""), Held(l, |s.sh.log| + 3));
    Overwrite(s.hs, id, HStart(l3), HStart(Held(l, |s.sh.log| + 3)));
  }

  const A' := StopAt(PDone(false), Some(FINISHED_ROW), 0)

  /** What the late settling and the end of the start do to the shared state. */
  function Replaced(sh: Shared): Shared {
    Apply(Apply(sh, ForceTargetsAndFault(STOP, "")), EngageLatch(ControlFault, ""))
  }

  /** The stop attempt left behind settles, and then the start returns its error. */
  lemma LeftBehindSettles(s: State, l: Start)
    requires Reaches(s, true) && s.lim == LIMITS && s.sh.rt.active == Some(2) && s.sh.stopTargets == STOP
    requires 0 in s.hs && s.hs[0] == A && 2 in s.hs && s.hs[2] == HStart(l) && l.pc == STailLatch
    ensures Reaches(S(Replaced(s.sh), s.hs[0 := A'][2 := HStart(l.(pc := SDone(false)))]), true)
  {
    StopMove(s, 0, A.stop, ForceTargetsAndFault(STOP, ""), A'.stop);
    var s1 := S(Apply(s.sh, ForceTargetsAndFault(STOP, "")), s.hs[0 := A']);
    StartMove(s1, 2, l, GOOD, EngageLatch(ControlFault, ""), l.(pc := SDone(false)));
  }

  lemma HeldScene(sh8: Shared, l: Start)
    requires sh8.rt == IDLE && sh8.stopTargets == STOP && sh8.log == L6 + [StartWritten(2, None)] && l == C2.start
    ensures Holding(sh8, l).rt.active == Some(2) && Holding(sh8, l).stopTargets == STOP
    ensures
      var sh := Replaced(Holding(sh8, l));
      !Compensation.StopAfter(sh.log, 6) && sh.rt.active == Some(2) && sh.rt.targets == sh.stopTargets == STOP
  {
    var sh := Replaced(Holding(sh8, l));
    assert sh.log == sh8.log + [Engaged(ControlFault), TargetsForced(T), Engaged(ControlFault), HeldActive(2, None),
                                TargetsForced(STOP), Engaged(ControlFault), Engaged(ControlFault)];
  }

  /** A start that returned its error with its batch held under targets that are not its own. */
  predicate HeldUnderStopTargets(s: State, id: nat) {
    && id in s.hs && s.hs[id].HStart? && s.hs[id].start.pc == SDone(false)
    && s.hs[id].start.command.Accepted? && !Compensation.StopAfter(s.sh.log, s.hs[id].start.command.at)
    && s.sh.rt.active == Some(s.hs[id].start.row)
    && s.sh.rt.targets == s.sh.stopTargets != s.hs[id].start.targets
  }

  /**
   A disciplined run in which a failed start holds its batch, the device never accepted stop targets after the start
   command, and the targets are nevertheless the stop targets: a stop attempt of the batch before it settled late.
   */
  lemma HeldTargetsCanBeReplaced()
    ensures exists s :: Reaches(s, true) && HeldUnderStopTargets(s, 2)
  {
    SecondStartWrites();
    var sh8 := SecondScene(L6 + [StartWritten(2, None)]);
    var hs := map[0 := A, 1 := B', 2 := C2];
    var l := C2.start;
    StartHolds(S(sh8, hs), 2, l);
    HeldScene(sh8, l);
    var held := Held(l, |sh8.log| + 3);
    var s := S(Holding(sh8, l), hs[2 := HStart(held)]);
    LeftBehindSettles(s, held);
    var last := S(Replaced(s.sh), s.hs[0 := A'][2 := HStart(held.(pc := SDone(false)))]);
    assert last.hs[2] == HStart(held.(pc := SDone(false)));
    assert HeldUnderStopTargets(last, 2);
  }
}
