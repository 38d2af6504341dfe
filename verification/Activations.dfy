/**
 A batch is activated at most once: once it is no longer active it never becomes active again. So whether a finish
 request will send a stop command can be told from any earlier state in which its batch was active.
 */
module Activations {
  import opened Common
  import opened Shared
  import opened Handlers
  import opened Runs
  import Closure
  import StartExclusion

  /** What one handler relies on: a pending start's row is not active. */
  predicate LocalOk(sh: Shared, h: Handler) {
    h.HStart? ==> StartExclusion.CommandOk(h.start) && (Pending(h.start) ==> sh.rt.active != Some(h.start.row))
  }

  /** Pending starts have rows of their own. */
  predicate PairOk(h: Handler, m: Handler) {
    h.HStart? && m.HStart? && Pending(h.start) && Pending(m.start) ==> h.start.row != m.start.row
  }

  predicate Inv(s: State) {
    && Closure.Inv(s)
    && (forall id :: id in s.hs ==> LocalOk(s.sh, s.hs[id]))
    && (forall id, other :: id in s.hs && other in s.hs && id != other ==> PairOk(s.hs[id], s.hs[other]))
  }

  // ---------- one step ----------

  /** Only a pending start makes a batch active, its own, and with that it is no longer pending. */
  lemma StartActivatesItsRow(sh: Shared, l: Start, c: Choice)
    requires StartExclusion.CommandOk(l)
    ensures
      var (e, l') := StartStep(sh, l, c);
      e.Activate? || e.Hold? ==> Pending(l) && e.batch == l.row && !Pending(l')
  {
    match l.pc
    case SPreRead | SPreQuery | SEnter | SEnterQuery | SInsert =>
    case SPreCheck | SWrite | SWriteLatch | SFailAudit | SFailFinish =>
    case SAudit | SMarkApplied | SCommitQuery | SCommit =>
    case SRollStop | SRollStopLatch | SRollHold | SRollClear | SRollFinish | STailLatch =>
    case SDone(_) =>
  }

  lemma OthersDoNotActivate(sh: Shared, lim: Limits, h: Handler, c: Choice)
    requires !h.HStart?
    ensures var e := HandlerStep(sh, lim, h, c).0; !e.Activate? && !e.Hold? && !e.InsertRow?
    ensures !HandlerStep(sh, lim, h, c).1.HStart?
  {
    match h
    case HStop(_) =>
    case HFinish(_) =>
    case HReset(_) =>
    case HWriter(_) =>
    case HAuto(_) =>
  }

  /** The active batch after an effect: as before, none, or the one it activates. */
  lemma ActiveAfter(sh: Shared, e: Effect)
    ensures
      var active := Apply(sh, e).rt.active;
      || active == sh.rt.active || active.None?
      || ((e.Activate? || e.Hold?) && active == Some(e.batch))
  {
    StartExclusion.EffectOnTable(sh, e);
  }

  /** What another handler relies on survives the step of this one. */
  lemma OtherStaysOk(sh: Shared, lim: Limits, h: Handler, c: Choice, m: Handler)
    requires LocalOk(sh, h) && LocalOk(sh, m) && PairOk(h, m)
    ensures LocalOk(Apply(sh, HandlerStep(sh, lim, h, c).0), m)
  {
    ActiveAfter(sh, HandlerStep(sh, lim, h, c).0);
    if h.HStart? { StartActivatesItsRow(sh, h.start, c); } else { OthersDoNotActivate(sh, lim, h, c); }
  }

  lemma StartStaysOk(sh: Shared, l: Start, c: Choice)
    requires Closure.SharedOk(sh) && LocalOk(sh, HStart(l))
    ensures LocalOk(Apply(sh, StartStep(sh, l, c).0), HStart(StartStep(sh, l, c).1))
  {
    ActiveAfter(sh, StartStep(sh, l, c).0);
    StartActivatesItsRow(sh, l, c);
    StartExclusion.StartKeepsCommand(sh, l, c);
    StartExclusion.StartBecomesPending(sh, l, c);
  }

  lemma PairAfterStart(sh: Shared, l: Start, c: Choice, m: Handler)
    requires LocalOk(sh, HStart(l)) && Closure.LocalOk(sh, m) && PairOk(HStart(l), m)
    ensures PairOk(HStart(StartStep(sh, l, c).1), m) && PairOk(m, HStart(StartStep(sh, l, c).1))
  {
    StartExclusion.StartBecomesPending(sh, l, c);
  }

  // ---------- runs ----------

  lemma ActKeepsInv(s: State, id: nat, c: Choice, s': State)
    requires Inv(s) && StepOf(s, Act(id, c), s')
    ensures Inv(s')
  {
    var h := s.hs[id];
    Closure.StepKeepsInv(s, Act(id, c), s');
    if h.HStart? { StartStaysOk(s.sh, h.start, c); } else { OthersDoNotActivate(s.sh, s.lim, h, c); }
    forall other | other in s.hs && other != id
      ensures LocalOk(s'.sh, s'.hs[other]) && PairOk(s'.hs[id], s'.hs[other]) && PairOk(s'.hs[other], s'.hs[id])
    {
      OtherStaysOk(s.sh, s.lim, h, c, s.hs[other]);
      if h.HStart? { PairAfterStart(s.sh, h.start, c, s.hs[other]); }
    }
  }

  lemma SurroundingsKeepActive(sh: Shared, e: Effect)
    requires FromSurroundings(e)
    ensures Apply(sh, e).rt.active == sh.rt.active && Apply(sh, e).nextId == sh.nextId
  {
  }

  lemma StepKeepsInv(s: State, a: Label, s': State)
    requires Inv(s) && StepOf(s, a, s')
    ensures Inv(s')
  {
    match a
    case Act(id, c) => ActKeepsInv(s, id, c, s');
    case Spawn(_, _) => Closure.StepKeepsInv(s, a, s');
    case Surroundings(e) =>
      Closure.StepKeepsInv(s, a, s');
      SurroundingsKeepActive(s.sh, e);
  }

  lemma InitialInv(s: State)
    requires Initial(s)
    ensures Inv(s)
  {
    Closure.InitialInv(s);
  }

  lemma {:induction false} RunKeepsInv(run: seq<State>, labels: seq<Label>, k: nat)
    requires IsRun(run, labels) && k < |run|
    ensures Inv(run[k])
  {
    if k == 0 {
      InitialInv(run[0]);
    } else {
      RunKeepsInv(run, labels, k - 1);
      StepKeepsInv(run[k - 1], labels[k - 1], run[k]);
    }
  }

  // ---------- a batch that was active ----------

  /** No step of this start can make the batch active. */
  predicate CannotActivate(h: Handler, batch: int) {
    h.HStart? ==> StartExclusion.CommandOk(h.start) && (Pending(h.start) ==> h.start.row != batch)
  }

  /** No start in flight can make the batch active; `gone` says that it is not active either. */
  predicate Spent(s: State, batch: int, gone: bool) {
    && batch < s.sh.nextId && (gone ==> s.sh.rt.active != Some(batch))
    && forall id :: id in s.hs ==> CannotActivate(s.hs[id], batch)
  }

  lemma ActiveIsSpent(s: State, batch: int)
    requires Inv(s) && s.sh.rt.active == Some(batch)
    ensures Spent(s, batch, false)
  {
    forall id | id in s.hs ensures CannotActivate(s.hs[id], batch) {
      assert LocalOk(s.sh, s.hs[id]);
    }
  }

  /** A start that can no longer make the batch active stays so: new rows get new ids. */
  lemma StartStaysClear(sh: Shared, l: Start, c: Choice, batch: int)
    requires StartExclusion.CommandOk(l) && batch < sh.nextId && (Pending(l) ==> l.row != batch)
    ensures
      var (e, l') := StartStep(sh, l, c);
      && (Pending(l') ==> l'.row != batch)
      && (sh.rt.active != Some(batch) ==> Apply(sh, e).rt.active != Some(batch))
  {
    StartExclusion.StartBecomesPending(sh, l, c);
    StartActivatesItsRow(sh, l, c);
    ActiveAfter(sh, StartStep(sh, l, c).0);
  }

  lemma StepKeepsSpent(s: State, a: Label, s': State, batch: int, gone: bool)
    requires StepOf(s, a, s') && Spent(s, batch, gone)
    ensures Spent(s', batch, gone)
  {
    Closure.NextIdGrows(s.sh, EffectOf(s, a));
    match a
    case Spawn(_, _) =>
    case Surroundings(e) => SurroundingsKeepActive(s.sh, e);
    case Act(id, c) =>
      assert CannotActivate(s.hs[id], batch);
      if s.hs[id].HStart? {
        StartStaysClear(s.sh, s.hs[id].start, c, batch);
        StartExclusion.StartKeepsCommand(s.sh, s.hs[id].start, c);
      } else {
        OthersDoNotActivate(s.sh, s.lim, s.hs[id], c);
        ActiveAfter(s.sh, EffectOf(s, a));
      }
  }

  lemma {:induction false} SpentStays(run: seq<State>, labels: seq<Label>, k: nat, m: nat, batch: int, gone: bool)
    requires IsRun(run, labels) && k <= m < |run| && Spent(run[k], batch, gone)
    ensures Spent(run[m], batch, gone)
    decreases m - k
  {
    if k < m {
      StepKeepsSpent(run[k], labels[k], run[k + 1], batch, gone);
      SpentStays(run, labels, k + 1, m, batch, gone);
    }
  }

  /** In every run, a batch that was active and is not any more is never active again. */
  lemma BatchesAreActiveOnce(run: seq<State>, labels: seq<Label>, j: nat, k: nat, m: nat, batch: int)
    requires IsRun(run, labels) && j <= k <= m < |run|
    requires run[j].sh.rt.active == Some(batch) && run[k].sh.rt.active != Some(batch)
    ensures run[m].sh.rt.active != Some(batch)
  {
    RunKeepsInv(run, labels, j);
    ActiveIsSpent(run[j], batch);
    SpentStays(run, labels, j, k, batch, false);
    SpentStays(run, labels, k, m, batch, true);
  }

  /** A release is logged only of the active batch. */
  lemma ReleasedBatchWasActive(s: State, a: Label, s': State, i: nat)
    requires StepOf(s, a, s') && |s.sh.log| <= i < |s'.sh.log| && s'.sh.log[i].Released?
    ensures s.sh.rt.active == Some(s'.sh.log[i].batch)
  {
    Closure.ReleaseEntriesComeFromReleases(s.sh, EffectOf(s, a), i);
  }

  lemma InactiveBatchIsNotReleased(s: State, a: Label, s': State, batch: int, since: nat, stopped: bool)
    requires StepOf(s, a, s') && s.sh.rt.active != Some(batch)
    requires Closure.ReleasesOnly(s'.sh.log, |s.sh.log|, Released(batch, since, stopped))
    ensures Closure.ReleasesOnly(s'.sh.log, |s.sh.log|, Released(batch, since, true))
  {
    forall i | |s.sh.log| <= i < |s'.sh.log| ensures !s'.sh.log[i].Released? {
      if s'.sh.log[i].Released? { ReleasedBatchWasActive(s, a, s', i); }
    }
  }

  /**
   What a caller can rely on before asking: if the batch was active in any state up to the attempt's reading of the
   runtime, then every release that attempt makes comes with a stop.
   */
  lemma OnceActiveIsStopped(run: seq<State>, labels: seq<Label>, j: nat, k: nat, m: nat, id: nat, batch: int)
    requires IsRun(run, labels) && j <= k < m < |labels| && run[j].sh.rt.active == Some(batch)
    requires labels[k].Act? && labels[k].id == id && labels[m].Act? && labels[m].id == id
    requires id in run[k].hs && Closure.AttemptReads(run[k].hs[id], batch)
    requires run[k].hs[id].HStop? ==> run[k].sh.rt.active == Some(batch)
    ensures Closure.ReleasesOnly(run[m + 1].sh.log, |run[m].sh.log|, Released(batch, |run[k].sh.log|, true))
  {
    Closure.ReleaseIsStoppedIffReadActive(run, labels, k, m, id, batch);
    if run[k].sh.rt.active != Some(batch) {
      BatchesAreActiveOnce(run, labels, j, k, m, batch);
      assert StepOf(run[m], labels[m], run[m + 1]);
      InactiveBatchIsNotReleased(run[m], labels[m], run[m + 1], batch, |run[k].sh.log|, false);
    }
  }
}
