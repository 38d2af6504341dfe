/**
 Start mutual exclusion, over every disciplined run: any number of starts, stops,
 finishes, target writes, resets and faults, interleaved in any way, with any call failing.
 */
module StartExclusion {
  import opened Common
  import opened Batches
  import opened Shared
  import opened Handlers
  import opened Runs
  import LatchWindows

  // ---------- who refers to which batch ----------

  /** The batch a stop or finish handler is about to close, once it has committed itself to it. */
  function Closing(h: Handler): Option<int> {
    match h
    case HStop(l) => if l.pc == PRead || l.pc.PDone? then None else Some(l.batch)
    case HFinish(l) =>
      if l.pc == FRead || l.pc.FDone? || (l.pc == FLookup && !l.WasActive()) then None else Some(l.batch)
    case _ => None
  }

  /** Nothing has been sent before the write section. */
  predicate CommandOk(l: Start) {
    match l.pc
    case SPreRead | SPreQuery | SEnter | SEnterQuery | SInsert | SPreCheck | SWrite => l.command.Unsent?
    case SWriteLatch => l.command.Refused?
    case SAudit | SMarkApplied | SCommitQuery | SCommit => l.command.Accepted?
    case SRollStop | SRollStopLatch | SRollHold | SRollClear | SRollFinish | STailLatch => l.command.Accepted?
    case SFailAudit | SFailFinish => !l.command.Accepted?
    case SDone(_) => true
  }

  /** What one handler relies on. */
  predicate LocalOk(sh: Shared, h: Handler) {
    && (h.HStart? ==> CommandOk(h.start))
    && (h.HStart? && Pending(h.start) ==> h.start.row < sh.nextId && sh.rt.active != Some(h.start.row))
    && (h.HStart? && InRegion(h.start) ==> h.start.row in Unfinished(sh.rows) && sh.rt.active.None?)
    && (Closing(h).Some? ==> Closing(h).value < sh.nextId)
  }

  /** What two different handlers rely on together, seen from the first. */
  predicate PairOk(h: Handler, m: Handler) {
    && (h.HStart? && m.HStart? && Pending(h.start) && Pending(m.start) ==>
          h.start.row != m.start.row && !(InRegion(h.start) && InRegion(m.start)))
    && (h.HStart? && Pending(h.start) ==> Closing(m) != Some(h.start.row))
  }

  predicate SharedOk(sh: Shared) {
    && (forall id :: id in sh.rows ==> id < sh.nextId)
    && (sh.rt.active.Some? ==> sh.rt.active.value < sh.nextId)
    && EntriesOk(sh.log)
  }

  /** No start command is accepted, and no batch is held, over another active batch. */
  predicate EntryOk(e: Event) {
    && (e.StartWritten? ==> e.active.None?)
    && (e.HeldActive? ==> e.replaced.None?)
    && (e.Activated? ==> e.replaced.None?)
  }

  predicate Inv(s: State) {
    && SharedOk(s.sh)
    && (forall id :: id in s.hs ==> LocalOk(s.sh, s.hs[id]))
    && (forall id, other :: id in s.hs && other in s.hs && id != other ==> PairOk(s.hs[id], s.hs[other]))
  }

  // ---------- effects and the rows and the active batch ----------

  /** What an effect can do to the table and the active batch. */
  predicate Bounded(sh: Shared, e: Effect, h: Handler) {
    && (e.CloseRow? ==> (h.HStart? && Pending(h.start) && e.row == h.start.row) || Closing(h) == Some(e.row))
    && (e.LoseRow? ==> false)
    && (e.Activate? ==> h.HStart? && InRegion(h.start) && e.batch == h.start.row && sh.rt.active.None?)
    && (e.Hold? ==> h.HStart? && InRegion(h.start) && e.batch == h.start.row && sh.rt.active.None?)
    && (e.WriteStart? ==> h.HStart? && InRegion(h.start) && sh.rt.active.None?)
    && (e.RollBack? ==> h.HStart? && InRegion(h.start))
    && (e.InsertRow? ==> h.HStart? && h.start.pc == SInsert)
  }

  lemma HandlerIsBounded(sh: Shared, lim: Limits, h: Handler, c: Choice)
    requires LocalOk(sh, h)
    ensures Bounded(sh, HandlerStep(sh, lim, h, c).0, h)
  {
  }

  predicate EntriesOk(log: seq<Event>) { forall i :: 0 <= i < |log| ==> EntryOk(log[i]) }

  lemma EffectKeepsEntries(sh: Shared, e: Effect, h: Handler)
    requires EntriesOk(sh.log) && Bounded(sh, e, h)
    ensures EntriesOk(Apply(sh, e).log)
  {
    LatchWindows.ApplyExtendsLog(sh, e);
  }

  lemma EffectKeepsIds(sh: Shared, e: Effect, h: Handler)
    requires SharedOk(sh) && LocalOk(sh, h) && Bounded(sh, e, h)
    ensures
      var sh' := Apply(sh, e);
      (forall id :: id in sh'.rows ==> id < sh'.nextId) && (sh'.rt.active.Some? ==> sh'.rt.active.value < sh'.nextId)
  {
  }

  lemma EffectKeepsShared(sh: Shared, e: Effect, h: Handler)
    requires SharedOk(sh) && LocalOk(sh, h) && Bounded(sh, e, h)
    ensures SharedOk(Apply(sh, e))
  {
    EffectKeepsEntries(sh, e, h);
    EffectKeepsIds(sh, e, h);
  }

  lemma SurroundingsKeepShared(sh: Shared, e: Effect)
    requires SharedOk(sh) && FromSurroundings(e)
    ensures SharedOk(Apply(sh, e))
  {
    LatchWindows.ApplyExtendsLog(sh, e);
  }

  /** The rows and the active batch after an effect. */
  lemma EffectOnTable(sh: Shared, e: Effect)
    ensures Apply(sh, e).nextId >= sh.nextId
    ensures !e.CloseRow? && !e.LoseRow? ==> Unfinished(sh.rows) - {sh.nextId} <= Unfinished(Apply(sh, e).rows)
    ensures e.CloseRow? || e.LoseRow? ==> Unfinished(sh.rows) - {e.row} <= Unfinished(Apply(sh, e).rows)
    ensures Apply(sh, e).rt.active == sh.rt.active || Apply(sh, e).rt.active.None?
            || (e.Activate? && Apply(sh, e).rt.active == Some(e.batch))
            || (e.Hold? && Apply(sh, e).rt.active == Some(e.batch))
  {
  }

  /** What another handler relies on survives the step of this one. */
  lemma OtherStaysOk(sh: Shared, e: Effect, h: Handler, m: Handler)
    requires LocalOk(sh, h) && LocalOk(sh, m) && Bounded(sh, e, h) && PairOk(h, m) && PairOk(m, h)
    ensures LocalOk(Apply(sh, e), m)
  {
    EffectOnTable(sh, e);
  }

  lemma SurroundingsLeaveOk(sh: Shared, e: Effect, m: Handler)
    requires LocalOk(sh, m) && FromSurroundings(e)
    requires e.LoseRow? && m.HStart? && Pending(m.start) ==> m.start.row != e.row
    ensures LocalOk(Apply(sh, e), m)
  {
    EffectOnTable(sh, e);
  }

  // ---------- the acting handler ----------

  /** A start becomes pending with the row it inserts, and keeps that row. */
  lemma StartBecomesPending(sh: Shared, l: Start, c: Choice)
    requires CommandOk(l)
    ensures
      var l' := StartStep(sh, l, c).1;
      && (Pending(l') && !Pending(l) ==> l.pc == SInsert && l'.row == sh.nextId && !InRegion(l'))
      && (Pending(l') && Pending(l) ==> l'.row == l.row)
  {
    match l.pc
    case SPreRead | SPreQuery | SEnter | SEnterQuery =>
    case SInsert =>
    case SPreCheck | SWrite | SWriteLatch | SFailAudit | SFailFinish =>
    case SAudit | SMarkApplied | SCommitQuery | SCommit =>
    case SRollStop | SRollStopLatch | SRollHold | SRollClear | SRollFinish | STailLatch =>
    case SDone(_) =>
  }

  /** The check before the device write passes only for the one unfinished row, with no batch active. */
  lemma CheckLetsOneIn(sh: Shared, l: Start, c: Choice)
    requires l.pc == SPreCheck && l.command.Unsent? && InRegion(StartStep(sh, l, c).1)
    ensures Unfinished(sh.rows) == {l.row} && sh.rt.active.None?
  {
    NoUnclosedIsExact(Unfinished(sh.rows), None, Some(l.row));
  }

  /** Only that check leads into the region. */
  lemma RegionIsEnteredByCheck(sh: Shared, l: Start, c: Choice)
    requires CommandOk(l)
    ensures InRegion(StartStep(sh, l, c).1) && !InRegion(l) ==> l.pc == SPreCheck
  {
    match l.pc
    case SPreRead | SPreQuery | SEnter | SEnterQuery | SInsert =>
    case SPreCheck =>
    case SWrite | SWriteLatch | SFailAudit | SFailFinish =>
    case SAudit | SMarkApplied | SCommitQuery | SCommit =>
    case SRollStop | SRollStopLatch | SRollHold | SRollClear | SRollFinish | STailLatch =>
    case SDone(_) =>
  }

  /** Which start steps enter or stay in the pending part, and what they establish. */
  lemma StartEntersAlone(sh: Shared, l: Start, c: Choice)
    requires CommandOk(l)
    ensures
      var l' := StartStep(sh, l, c).1;
      && (Pending(l') && !Pending(l) ==> l.pc == SInsert && l'.row == sh.nextId && !InRegion(l'))
      && (Pending(l') && Pending(l) ==> l'.row == l.row)
      && (InRegion(l') && !InRegion(l) ==> Pending(l) && Unfinished(sh.rows) == {l.row} && sh.rt.active.None?)
  {
    StartBecomesPending(sh, l, c);
    RegionIsEnteredByCheck(sh, l, c);
    if l.pc == SPreCheck && InRegion(StartStep(sh, l, c).1) { CheckLetsOneIn(sh, l, c); }
  }

  lemma StartKeepsCommand(sh: Shared, l: Start, c: Choice)
    requires CommandOk(l)
    ensures CommandOk(StartStep(sh, l, c).1)
  {
  }

  lemma PendingStartEffect(sh: Shared, l: Start, c: Choice)
    requires CommandOk(l)
    ensures
      var (e, l') := StartStep(sh, l, c);
      && (InRegion(l') ==> !e.CloseRow? && !e.LoseRow?)
      && (Pending(l') ==> !e.Activate? && !e.Hold?)
      && (e.InsertRow? ==> l.pc == SInsert) && (l.pc == SInsert && Pending(l') ==> e.InsertRow?)
  {
  }

  lemma StartStaysOk(sh: Shared, l: Start, c: Choice)
    requires SharedOk(sh) && LocalOk(sh, HStart(l))
    ensures LocalOk(Apply(sh, StartStep(sh, l, c).0), HStart(StartStep(sh, l, c).1))
  {
    StartEntersAlone(sh, l, c);
    StartKeepsCommand(sh, l, c);
    PendingStartEffect(sh, l, c);
    EffectOnTable(sh, StartStep(sh, l, c).0);
  }

  lemma CloserStaysOk(sh: Shared, lim: Limits, h: Handler, c: Choice)
    requires SharedOk(sh) && LocalOk(sh, h) && !h.HStart?
    ensures LocalOk(Apply(sh, HandlerStep(sh, lim, h, c).0), HandlerStep(sh, lim, h, c).1)
  {
    EffectOnTable(sh, HandlerStep(sh, lim, h, c).0);
  }

  /** A closer's batch is the one it had, or the active one, or one it looked up under the discipline. */
  lemma CloserTarget(sh: Shared, lim: Limits, h: Handler, c: Choice)
    requires !h.HStart?
    ensures
      var h' := HandlerStep(sh, lim, h, c).1;
      Closing(h').Some? ==>
        || Closing(h') == Closing(h)
        || Closing(h') == sh.rt.active
        || (h.HFinish? && h.finish.pc == FLookup && !h.finish.WasActive() && Closing(h') == Some(h.finish.batch))
  {
  }

  lemma PairAfterStart(sh: Shared, l: Start, c: Choice, m: Handler)
    requires SharedOk(sh) && LocalOk(sh, HStart(l)) && LocalOk(sh, m)
    requires PairOk(HStart(l), m) && PairOk(m, HStart(l))
    ensures PairOk(HStart(StartStep(sh, l, c).1), m) && PairOk(m, HStart(StartStep(sh, l, c).1))
  {
    StartEntersAlone(sh, l, c);
  }

  lemma PairAfterCloser(sh: Shared, lim: Limits, h: Handler, c: Choice, m: Handler)
    requires SharedOk(sh) && LocalOk(sh, h) && LocalOk(sh, m) && !h.HStart?
    requires PairOk(h, m) && PairOk(m, h)
    requires h.HFinish? && h.finish.pc == FLookup && !h.finish.WasActive() && m.HStart? && Pending(m.start)
             ==> m.start.row != h.finish.batch
    ensures PairOk(HandlerStep(sh, lim, h, c).1, m) && PairOk(m, HandlerStep(sh, lim, h, c).1)
  {
    CloserTarget(sh, lim, h, c);
  }

  // ---------- runs ----------

  lemma ActKeepsInv(s: State, id: nat, c: Choice)
    requires Inv(s) && Enabled(s, Act(id, c)) && Disciplined(s, Act(id, c))
    ensures Inv(Next(s, Act(id, c)))
  {
    var h := s.hs[id];
    var (e, h') := HandlerStep(s.sh, s.lim, h, c);
    var s' := Next(s, Act(id, c));
    HandlerIsBounded(s.sh, s.lim, h, c);
    EffectKeepsShared(s.sh, e, h);
    if h.HStart? { StartStaysOk(s.sh, h.start, c); } else { CloserStaysOk(s.sh, s.lim, h, c); }
    forall other | other in s.hs && other != id
      ensures LocalOk(s'.sh, s.hs[other]) && PairOk(h', s.hs[other]) && PairOk(s.hs[other], h')
    {
      var m := s.hs[other];
      OtherStaysOk(s.sh, e, h, m);
      if h.HStart? {
        PairAfterStart(s.sh, h.start, c, m);
      } else {
        PairAfterCloser(s.sh, s.lim, h, c, m);
      }
    }
  }

  lemma SurroundingsKeepInv(s: State, e: Effect)
    requires Inv(s) && Enabled(s, Surroundings(e)) && Disciplined(s, Surroundings(e))
    ensures Inv(Next(s, Surroundings(e)))
  {
    SurroundingsKeepShared(s.sh, e);
    forall id | id in s.hs ensures LocalOk(Apply(s.sh, e), s.hs[id]) {
      SurroundingsLeaveOk(s.sh, e, s.hs[id]);
    }
  }

  lemma StepKeepsInv(s: State, a: Label, s': State)
    requires Inv(s) && DisciplinedStep(s, a, s')
    ensures Inv(s')
  {
    match a
    case Spawn(_, _) =>
    case Act(id, c) => ActKeepsInv(s, id, c);
    case Surroundings(e) => SurroundingsKeepInv(s, e);
  }

  lemma InitialInv(s: State)
    requires Initial(s)
    ensures Inv(s)
  {
  }

  lemma {:induction false} RunKeepsInv(run: seq<State>, labels: seq<Label>, k: nat)
    requires IsDisciplinedRun(run, labels) && k < |run|
    ensures Inv(run[k])
  {
    if k == 0 {
      InitialInv(run[0]);
    } else {
      RunKeepsInv(run, labels, k - 1);
      StepKeepsInv(run[k - 1], labels[k - 1], run[k]);
    }
  }

  /**
   Start mutual exclusion. In every disciplined run: at most one start is past its pre-write check, its row is
   unfinished and no batch is active; and no start command was ever accepted, no batch activated and none held,
   while a batch was active.
   */
  lemma StartsExcludeEachOther(run: seq<State>, labels: seq<Label>, k: nat)
    requires IsDisciplinedRun(run, labels) && k < |run|
    ensures forall id, other :: id in run[k].hs && other in run[k].hs && id != other ==>
              !(run[k].hs[id].HStart? && run[k].hs[other].HStart?
                && InRegion(run[k].hs[id].start) && InRegion(run[k].hs[other].start))
    ensures forall id :: id in run[k].hs && run[k].hs[id].HStart? && InRegion(run[k].hs[id].start) ==>
              run[k].sh.rt.active.None? && run[k].hs[id].start.row in Unfinished(run[k].sh.rows)
    ensures forall i :: 0 <= i < |run[k].sh.log| ==> EntryOk(run[k].sh.log[i])
  {
    RunKeepsInv(run, labels, k);
    forall id, other | id in run[k].hs && other in run[k].hs && id != other
      ensures !(run[k].hs[id].HStart? && run[k].hs[other].HStart?
                && InRegion(run[k].hs[id].start) && InRegion(run[k].hs[other].start))
    {
      assert PairOk(run[k].hs[id], run[k].hs[other]);
    }
  }
}
