/**
 What the guarded sections of the handlers let pass, said in terms of the runtime's flags, the set of unfinished rows
 and the health of the field; and, over every run, that no start command is sent without the check before it.
 */
module Guards {
  import opened Common
  import opened Runtime
  import opened Batches
  import opened Shared
  import opened Handlers
  import opened Runs
  import Activations
  import LatchWindows
  import StartExclusion

  /** None of the three latches is set. */
  predicate AllClear(rt: Runtime) { !rt.emergencyStop && !rt.manualLock && rt.fault.None? }

  /** No latch was engaged since the snapshot, as far as the three counters tell. */
  predicate SameGenerations(ack: Generations, rt: Runtime) {
    ack.manualLock == rt.manualGen && ack.emergencyStop == rt.emergencyGen && ack.controlFault == rt.faultGen
  }

  /** The unfinished rows are exactly those the runtime accounts for. */
  predicate Accounted(sh: Shared, active: Option<int>) {
    Unfinished(sh.rows) == if active.Some? then {active.value} else {}
  }

  lemma ReadIsExact(sh: Shared, active: Option<int>)
    ensures Consistent(ReadUnfinished(sh), active) <==> Accounted(sh, active)
  {
    VerdictIsExact(Unfinished(sh.rows), active, READ_LIMIT);
  }

  // ---------- starts ----------

  /** The table check of a new start passes exactly if the runtime accounts for every unfinished row. */
  lemma EntryQueryIsExact(sh: Shared, l: Start, c: Choice)
    requires l.pc == SEnterQuery
    ensures
      var (e, l') := StartStep(sh, l, c);
      e == Nothing && l' == l.(pc := if c.ok && Accounted(sh, l.snap.active) && l.snap.clear && c.healthy
                                     then SInsert else SDone(false))
  {
    NoUnclosedIsExact(Unfinished(sh.rows), l.snap.active, None);
  }

  /** The entry of a start turns auto off and takes its snapshot; latches and active batch decide who goes on. */
  lemma EntryIsExact(sh: Shared, l: Start, c: Choice)
    requires l.pc == SEnter
    ensures
      var (e, l') := StartStep(sh, l, c);
      && e == AutoOff
      && l'.snap.active == sh.rt.active && (l'.snap.clear <==> AllClear(sh.rt)) && l'.snap.since == |sh.log|
      && SameGenerations(l'.snap.ack, sh.rt)
      && l'.pc == (match l.kind
                   case ProcessStart => if sh.rt.active.None? then SEnterQuery else SDone(false)
                   case BatchStart => SEnterQuery
                   case V1Start => if AllClear(sh.rt) && c.healthy then SInsert else SDone(false))
  {
  }

  /** A v1 start is turned away before it touches anything while a batch is active or a row is unfinished. */
  lemma V1EntryIsExact(sh: Shared, l: Start, c: Choice)
    requires l.pc == SPreRead || l.pc == SPreQuery
    ensures
      var (e, l') := StartStep(sh, l, c);
      && e == Nothing
      && (l.pc == SPreRead ==> l'.pc == if sh.rt.active.None? then SPreQuery else SDone(false))
      && (l.pc == SPreQuery ==> l'.pc == if c.ok && Unfinished(sh.rows) == {} then SEnter else SDone(false))
  {
    NoUnclosedIsExact(Unfinished(sh.rows), None, None);
  }

  /** The check before the device write. */
  lemma PreWriteCheckIsExact(sh: Shared, l: Start, c: Choice)
    requires l.pc == SPreCheck
    ensures
      var (e, l') := StartStep(sh, l, c);
      e == Nothing && l' == l.(pc := if && AllClear(sh.rt) && c.healthy && sh.rt.active.None? && c.ok
                                        && Unfinished(sh.rows) == {l.row}
                                     then SWrite else SFailAudit)
  {
    NoUnclosedIsExact(Unfinished(sh.rows), None, Some(l.row));
  }

  /** The final interlock of a start, on the table it read for it. */
  lemma ActivationIsExact(sh: Shared, l: Start, c: Choice)
    requires l.pc == SCommit
    ensures
      var (e, l') := StartStep(sh, l, c);
      var pass := && AllClear(sh.rt) && c.healthy && SameGenerations(l.snap.ack, sh.rt) && sh.rt.active.None?
                  && !StatusOf(l.list, Some(l.row)).RecoveryRequired();
      && l'.pc == (if pass then SDone(true) else SRollStop)
      && (pass ==> e == Activate(l.row, l.targets, l.kind != BatchStart, l.snap.since))
      && (!pass ==>
            e == if AllClear(sh.rt) && c.healthy && !SameGenerations(l.snap.ack, sh.rt) then AutoOff else Nothing)
  {
  }

  /** The read for that interlock finds the table in order exactly if the start's row is the only unfinished one. */
  lemma ActivationReadIsExact(sh: Shared, l: Start, c: Choice)
    requires l.pc == SCommitQuery && c.ok
    ensures
      var l' := StartStep(sh, l, c).1;
      l'.pc == SCommit && (!StatusOf(l'.list, Some(l.row)).RecoveryRequired() <==> Unfinished(sh.rows) == {l.row})
  {
    VerdictIsExact(Unfinished(sh.rows), Some(l.row), READ_LIMIT);
  }

  // ---------- target writes, auto-enable and resets ----------

  lemma WriteEntryIsExact(sh: Shared, lim: Limits, l: Writer, c: Choice)
    requires l.pc == WEnter
    ensures
      var (e, l') := WriterStep(sh, lim, l, c);
      && e == AutoOff && SameGenerations(l'.snap.ack, sh.rt) && l'.snap.active == sh.rt.active
      && l'.pc == (if !(AllClear(sh.rt) && c.healthy) then WDone(false)
                   else if l.kind == ModbusWrite then WEnterQuery else WAudit)
  {
  }

  lemma WriteEntryQueryIsExact(sh: Shared, lim: Limits, l: Writer, c: Choice)
    requires l.pc == WEnterQuery
    ensures WriterStep(sh, lim, l, c)
         == (Nothing, l.(pc := if c.ok && Accounted(sh, l.snap.active) then WAudit else WDone(false)))
  {
    ReadIsExact(sh, l.snap.active);
  }

  /** The final interlock of a target write; kinds that derive their targets from current ones compare them. */
  lemma TargetCommitIsExact(sh: Shared, lim: Limits, l: Writer, c: Choice)
    requires l.pc == WCommit
    ensures
      var (e, l') := WriterStep(sh, lim, l, c);
      var pass := && AllClear(sh.rt) && c.healthy && SameGenerations(l.snap.ack, sh.rt)
                  && !StatusOf(l.list, sh.rt.active).RecoveryRequired()
                  && (l.kind == V1Write || l.kind == V1Load || sh.rt.targets == l.current);
      && l'.pc == WDone(pass) && (pass ==> e == CommitTargets(l.patch, l.next, l.snap.since))
      && (!pass ==> e == Nothing || e == AutoOff)
  {
  }

  lemma TargetReadIsExact(sh: Shared, lim: Limits, l: Writer, c: Choice, active: Option<int>)
    requires l.pc == WCommitQuery && c.ok
    ensures
      var l' := WriterStep(sh, lim, l, c).1;
      l'.pc == WCommit && (!StatusOf(l'.list, active).RecoveryRequired() <==> Accounted(sh, active))
  {
    ReadIsExact(sh, active);
  }

  lemma AutoEntryIsExact(sh: Shared, l: Auto, c: Choice)
    requires l.pc == AEnter || l.pc == AEnterQuery
    ensures
      var (e, l') := AutoStep(sh, l, c);
      && (l.pc == AEnter ==>
            && e == AutoOff && SameGenerations(l'.snap.ack, sh.rt) && (l'.snap.clear <==> AllClear(sh.rt))
            && l'.snap.active == sh.rt.active && l'.pc == if l.enable then AEnterQuery else AAudit)
      && (l.pc == AEnterQuery ==>
            && e == Nothing
            && l'.pc == if l.snap.clear && c.healthy && c.ok && Accounted(sh, l.snap.active)
                        then AAudit else ADone(false))
  {
    ReadIsExact(sh, l.snap.active);
  }

  lemma AutoEnableIsExact(sh: Shared, l: Auto, c: Choice)
    requires l.pc == AFinal
    ensures
      var (e, l') := AutoStep(sh, l, c);
      var pass := && AllClear(sh.rt) && c.healthy && SameGenerations(l.snap.ack, sh.rt)
                  && c.ok && Accounted(sh, sh.rt.active);
      && l'.pc == ADone(pass) && (pass ==> e == EnableAuto(l.snap.since)) && (!pass ==> e == Nothing || e == AutoOff)
  {
    ReadIsExact(sh, sh.rt.active);
  }

  /** A fault reset clears only the fault it acknowledged, on an idle and healthy installation. */
  lemma FaultResetIsExact(sh: Shared, l: Reset, c: Choice)
    requires l.pc == REnter || l.pc == RFinal
    ensures
      var (e, l') := FaultResetStep(sh, l, c);
      var idle := sh.rt.active.None? && c.ok && Unfinished(sh.rows) == {} && c.healthy;
      && (l.pc == REnter ==>
            && l'.pc == (if sh.rt.fault.Some? && !sh.rt.loopTerminated && idle then RAudit else RDone(false))
            && (l'.pc == RAudit ==> e == AutoOff && l'.ackGen == sh.rt.faultGen && l'.ackError == sh.rt.fault))
      && (l.pc == RFinal ==>
            var pass := idle && sh.rt.faultGen == l.ackGen && sh.rt.fault == l.ackError;
            l'.pc == RDone(pass) && e == if pass then ClearFault(l.since, c.healthy) else AutoOff)
  {
    ReadIsExact(sh, None);
  }

  lemma EmergencyResetIsExact(sh: Shared, l: Reset, c: Choice)
    requires l.pc == REnter || l.pc == REnterQuery || l.pc == RFinal
    ensures
      var (e, l') := EmergencyResetStep(sh, l, c);
      var idle := c.ok && Unfinished(sh.rows) == {} && c.healthy;
      && (l.pc == REnter ==>
            && l'.pc == (if sh.rt.emergencyStop then REnterQuery else RDone(false))
            && (l'.pc == REnterQuery ==>
                  e == AutoOff && l'.ackGen == sh.rt.emergencyGen && l'.seenActive == sh.rt.active))
      && (l.pc == REnterQuery ==>
            e == Nothing && l'.pc == if l.seenActive.None? && idle then RAudit else RDone(false))
      && (l.pc == RFinal ==>
            var pass := sh.rt.emergencyStop && sh.rt.emergencyGen == l.ackGen && sh.rt.active.None? && idle;
            && l'.pc == RDone(pass) && (pass ==> e == ClearEmergency(l.since, c.healthy))
            && (!pass ==> e == Nothing || e == AutoOff))
  {
    ReadIsExact(sh, None);
  }

  // ---------- no start command without the check ----------

  /** In this step the start passes the check before the device write. */
  predicate PassesCheck(s: State, a: Label, id: nat, row: int) {
    && a.Act? && a.id == id && id in s.hs && s.hs[id].HStart?
    && s.hs[id].start.pc == SPreCheck && s.hs[id].start.row == row
    && AllClear(s.sh.rt) && a.choice.healthy && s.sh.rt.active.None? && Unfinished(s.sh.rows) == {row}
  }

  /** The start is about to send its command, or has. */
  predicate MaySend(l: Start) { l.pc == SWrite || !l.command.Unsent? }

  predicate SenderOf(s: State, id: nat, row: int) {
    id in s.hs && s.hs[id].HStart? && MaySend(s.hs[id].start) && s.hs[id].start.row == row
  }

  /** A start comes to that point only by the check, and keeps its row from then on. */
  lemma SenderComesFromCheck(sh: Shared, l: Start, c: Choice)
    requires StartExclusion.CommandOk(l) && MaySend(StartStep(sh, l, c).1)
    ensures StartStep(sh, l, c).1.row == l.row
    ensures MaySend(l) || (l.pc == SPreCheck && StartStep(sh, l, c).1.pc == SWrite)
  {
    match l.pc
    case SPreRead | SPreQuery | SEnter | SEnterQuery | SInsert =>
    case SPreCheck =>
    case SWrite | SWriteLatch | SFailAudit | SFailFinish =>
    case SAudit | SMarkApplied | SCommitQuery | SCommit =>
    case SRollStop | SRollStopLatch | SRollHold | SRollClear | SRollFinish | STailLatch =>
    case SDone(_) =>
  }

  lemma SenderStep(s: State, a: Label, s': State, id: nat, row: int)
    requires StepOf(s, a, s') && Activations.Inv(s) && SenderOf(s', id, row)
    ensures SenderOf(s, id, row) || PassesCheck(s, a, id, row)
  {
    if a.Act? && a.id == id {
      assert Activations.LocalOk(s.sh, s.hs[id]);
      SenderComesFromCheck(s.sh, s.hs[id].start, a.choice);
      if !MaySend(s.hs[id].start) { PreWriteCheckIsExact(s.sh, s.hs[id].start, a.choice); }
    }
  }

  /** In every run, a start that is about to send its command, or has sent it, passed the check in an earlier step. */
  lemma {:induction false} SendersPassedTheCheck(run: seq<State>, labels: seq<Label>, k: nat, id: nat, row: int)
    requires IsRun(run, labels) && k < |run| && SenderOf(run[k], id, row)
    ensures exists j :: 0 <= j < k && PassesCheck(run[j], labels[j], id, row)
  {
    if k > 0 {
      Activations.RunKeepsInv(run, labels, k - 1);
      SenderStep(run[k - 1], labels[k - 1], run[k], id, row);
      if SenderOf(run[k - 1], id, row) {
        SendersPassedTheCheck(run, labels, k - 1, id, row);
      } else {
        assert PassesCheck(run[k - 1], labels[k - 1], id, row);
      }
    }
  }

  lemma StartEntryIsWritten(sh: Shared, e: Effect, i: nat)
    requires |sh.log| <= i < |Apply(sh, e).log| && Apply(sh, e).log[i].StartWritten?
    ensures e.WriteStart? && Apply(sh, e).log[i].row == e.row
  {
  }

  lemma WriterOfStart(sh: Shared, lim: Limits, h: Handler, c: Choice)
    ensures
      var e := HandlerStep(sh, lim, h, c).0;
      e.WriteStart? ==> h.HStart? && h.start.pc == SWrite && e.row == h.start.row
  {
    match h
    case HStart(l) => StartWritesItsRow(sh, l, c);
    case HStop(_) =>
    case HFinish(_) =>
    case HReset(_) =>
    case HWriter(_) =>
    case HAuto(_) =>
  }

  lemma StartWritesItsRow(sh: Shared, l: Start, c: Choice)
    ensures var e := StartStep(sh, l, c).0; e.WriteStart? ==> l.pc == SWrite && e.row == l.row
  {
  }

  /** A start command is logged only by a start at its device write, for its own row. */
  lemma StartCommandIsSent(s: State, a: Label, s': State, i: nat)
    requires StepOf(s, a, s') && |s.sh.log| <= i < |s'.sh.log| && s'.sh.log[i].StartWritten?
    ensures a.Act? && SenderOf(s, a.id, s'.sh.log[i].row)
  {
    StartEntryIsWritten(s.sh, EffectOf(s, a), i);
    if a.Act? { WriterOfStart(s.sh, s.lim, s.hs[a.id], a.choice); }
  }

  lemma LogEntryStays(s: State, a: Label, s': State, i: nat)
    requires StepOf(s, a, s') && i < |s.sh.log|
    ensures i < |s'.sh.log| && s'.sh.log[i] == s.sh.log[i]
  {
    LatchWindows.ApplyExtendsLog(s.sh, EffectOf(s, a));
    assert s'.sh.log[i] == s'.sh.log[..|s.sh.log|][i];
  }

  /** Some start passed the check for this row before step k. */
  ghost predicate Checked(run: seq<State>, labels: seq<Label>, k: nat, row: int) {
    k <= |labels| < |run| && exists j, id :: 0 <= j < k && PassesCheck(run[j], labels[j], id, row)
  }

  /**
   In every run, every start command in the log, accepted or failed but received, was sent after a check in which all
   three latches were clear, the field was healthy, no batch was active and its row was the only unfinished one.
   */
  lemma {:induction false} StartCommandsAreChecked(run: seq<State>, labels: seq<Label>, k: nat, i: nat)
    requires IsRun(run, labels) && k < |run| && i < |run[k].sh.log| && run[k].sh.log[i].StartWritten?
    ensures Checked(run, labels, k, run[k].sh.log[i].row)
  {
    var row := run[k].sh.log[i].row;
    if k > 0 {
      assert StepOf(run[k - 1], labels[k - 1], run[k]);
      if i < |run[k - 1].sh.log| {
        LogEntryStays(run[k - 1], labels[k - 1], run[k], i);
        StartCommandsAreChecked(run, labels, k - 1, i);
        var j, id :| 0 <= j < k - 1 && PassesCheck(run[j], labels[j], id, row);
      } else {
        StartCommandIsSent(run[k - 1], labels[k - 1], run[k], i);
        SendersPassedTheCheck(run, labels, k - 1, labels[k - 1].id, row);
      }
    }
  }

  // ---------- a start that fails the check sends nothing ----------

  /** A start that was turned back at the check. */
  predicate TurnedBack(h: Handler, row: int) {
    && h.HStart? && h.start.command.Unsent? && h.start.row == row
    && (h.start.pc == SFailAudit || h.start.pc == SFailFinish || h.start.pc == SDone(false))
  }

  lemma TurnedBackOnlyCloses(sh: Shared, lim: Limits, h: Handler, c: Choice, row: int)
    requires TurnedBack(h, row)
    ensures
      var (e, h') := HandlerStep(sh, lim, h, c);
      TurnedBack(h', row) && (e == Nothing || (e.CloseRow? && e.row == row))
  {
  }

  predicate TurnedBackIn(s: State, id: nat, row: int) { id in s.hs && TurnedBack(s.hs[id], row) }

  lemma StepKeepsTurnedBack(s: State, a: Label, s': State, id: nat, row: int)
    requires StepOf(s, a, s') && TurnedBackIn(s, id, row)
    ensures TurnedBackIn(s', id, row)
  {
    if a.Act? && a.id == id { TurnedBackOnlyCloses(s.sh, s.lim, s.hs[id], a.choice, row); }
  }

  lemma {:induction false} TurnedBackStays(run: seq<State>, labels: seq<Label>, k: nat, m: nat, id: nat, row: int)
    requires IsRun(run, labels) && k <= m < |run| && TurnedBackIn(run[k], id, row)
    ensures TurnedBackIn(run[m], id, row)
    decreases m - k
  {
    if k < m {
      StepKeepsTurnedBack(run[k], labels[k], run[k + 1], id, row);
      TurnedBackStays(run, labels, k + 1, m, id, row);
    }
  }

  /**
   In every run, a start that comes to the check while a latch is set, the field is not healthy, a batch is active or
   its row is not the only unfinished one, never sends a command and never succeeds: all it does from then on is try to
   close its own row.
   */
  lemma FailedCheckSendsNothing(run: seq<State>, labels: seq<Label>, k: nat, m: nat, id: nat)
    requires IsRun(run, labels) && k < m < |labels| && labels[k].Act? && labels[k].id == id
    requires id in run[k].hs && run[k].hs[id].HStart? && run[k].hs[id].start.pc == SPreCheck
    requires !PassesCheck(run[k], labels[k], id, run[k].hs[id].start.row)
    ensures id in run[m].hs && run[m].hs[id].HStart? && run[m].hs[id].start.pc != SDone(true)
    ensures
      var e := EffectAt(run[m], labels[m]);
      labels[m].Act? && labels[m].id == id ==> e == Nothing || (e.CloseRow? && e.row == run[k].hs[id].start.row)
  {
    var row := run[k].hs[id].start.row;
    assert StepOf(run[k], labels[k], run[k + 1]) && StepOf(run[m], labels[m], run[m + 1]);
    Activations.RunKeepsInv(run, labels, k);
    assert Activations.LocalOk(run[k].sh, run[k].hs[id]);
    PreWriteCheckIsExact(run[k].sh, run[k].hs[id].start, labels[k].choice);
    assert TurnedBackIn(run[k + 1], id, row);
    TurnedBackStays(run, labels, k + 1, m, id, row);
    if labels[m].Act? && labels[m].id == id {
      TurnedBackOnlyCloses(run[m].sh, run[m].lim, run[m].hs[id], labels[m].choice, row);
    }
  }
}
