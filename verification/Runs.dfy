/** Runs: any number of handlers interleaved with the surroundings, one atomic section at a time. */
module Runs {
  import opened Shared
  import opened Handlers

  datatype State = State(sh: Shared, hs: map<nat, Handler>, lim: Limits)

  /**
   A label either spawns a request, lets one handler take its next atomic section, or lets the
   surroundings act: emergency stop, manual lock and unlock, control loop and sensor faults, loop
   termination, rows lost from the table, and component actions that assign the whole target set
   without an interlock.
   */
  datatype Label =
    | Spawn(id: nat, handler: Handler)
    | Act(id: nat, choice: Choice)
    | Surroundings(effect: Effect)

  predicate FromSurroundings(e: Effect) {
    e.Nothing? || e.AutoOff? || e.EngageLatch? || e.TerminateLoop? || e.Unlock? || e.LoseRow?
    || e.WriteStop? || e.OverwriteTargets?
  }

  predicate Enabled(s: State, a: Label) {
    match a
    case Spawn(id, handler) => id !in s.hs && IsNew(handler)
    case Act(id, _) => id in s.hs
    case Surroundings(e) => FromSurroundings(e)
  }

  function EffectOf(s: State, a: Label): Effect
    requires Enabled(s, a)
  {
    match a
    case Spawn(_, _) => Nothing
    case Act(id, c) => HandlerStep(s.sh, s.lim, s.hs[id], c).0
    case Surroundings(e) => e
  }

  function Next(s: State, a: Label): State
    requires Enabled(s, a)
  {
    var sh := Apply(s.sh, EffectOf(s, a));
    match a
    case Spawn(id, handler) => s.(sh := sh, hs := s.hs[id := handler])
    case Act(id, c) => s.(sh := sh, hs := s.hs[id := HandlerStep(s.sh, s.lim, s.hs[id], c).1])
    case Surroundings(_) => s.(sh := sh)
  }

  /** No request in flight, an empty log, auto off or every latch clear, and ids below the next one. */
  predicate Initial(s: State) {
    && s.hs == map[] && s.sh.log == [] && s.sh.origin == s.sh.rt
    && (s.sh.rt.auto ==> s.sh.rt.LatchesClear())
    && (forall id :: id in s.sh.rows ==> id < s.sh.nextId)
    && (s.sh.rt.active.Some? ==> s.sh.rt.active.value < s.sh.nextId)
  }

  // ---------- pending starts ----------

  /** The start owns a row and has not finished with it. */
  predicate Pending(l: Start) {
    l.pc == SPreCheck || l.pc == SFailAudit || l.pc == SFailFinish || InRegion(l)
  }

  /** The start has passed the check before the device write and has neither committed nor been compensated. */
  predicate InRegion(l: Start) {
    match l.pc
    case SWrite | SWriteLatch | SAudit | SMarkApplied | SCommitQuery | SCommit => true
    case SRollStop | SRollStopLatch | SRollHold | SRollClear | SRollFinish => true
    case SFailAudit | SFailFinish => !l.command.Unsent?
    case _ => false
  }

  /** The start is still in flight with a row in the table. */
  predicate Owns(l: Start) {
    Pending(l) || l.pc == STailLatch
  }

  predicate OwnedRow(s: State, row: int) {
    exists id :: id in s.hs && s.hs[id].HStart? && Owns(s.hs[id].start) && s.hs[id].start.row == row
  }

  /** The operator does not finish, and the table does not lose, the row of a start that is still in flight. */
  predicate Disciplined(s: State, a: Label)
    requires Enabled(s, a)
  {
    match a
    case Spawn(_, _) => true
    case Act(id, _) =>
      s.hs[id].HFinish? && s.hs[id].finish.pc == FLookup && !s.hs[id].finish.WasActive()
      ==> !OwnedRow(s, s.hs[id].finish.batch)
    case Surroundings(e) => e.LoseRow? ==> !OwnedRow(s, e.row)
  }

  // ---------- runs ----------

  /** The effect of a step of a run. */
  function EffectAt(s: State, a: Label): Effect { if Enabled(s, a) then EffectOf(s, a) else Nothing }

  predicate StepOf(s: State, a: Label, s': State) { Enabled(s, a) && s' == Next(s, a) }

  predicate DisciplinedStep(s: State, a: Label, s': State) { StepOf(s, a, s') && Disciplined(s, a) }

  predicate IsRun(run: seq<State>, labels: seq<Label>) {
    && |run| == |labels| + 1
    && Initial(run[0])
    && forall i :: 0 <= i < |labels| ==> StepOf(run[i], labels[i], run[i + 1])
  }

  predicate IsDisciplinedRun(run: seq<State>, labels: seq<Label>) {
    && IsRun(run, labels)
    && forall i :: 0 <= i < |labels| ==> DisciplinedStep(run[i], labels[i], run[i + 1])
  }
}
