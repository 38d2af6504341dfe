/**
 Stop and finish closure, over every run: what must have happened before a stop or finish handler clears the
 active batch, that a finish time is stamped at most once, and that a failure-free retry closes the batch.
 */
module Closure {
  import opened Common
  import opened Batches
  import opened Shared
  import opened Handlers
  import opened Runs
  import LatchWindows

  // ---------- what the log must show ----------

  predicate Happened(log: seq<Event>, from: nat, to: nat, e: Event)
    requires to <= |log|
  {
    exists j :: from <= j < to && log[j] == e
  }

  /** The batch became active, by its start's commit or by a failed rollback that held it. */
  predicate BecameActive(log: seq<Event>, from: nat, to: nat, batch: int)
    requires to <= |log|
  {
    exists j :: from <= j < to && (log[j].Activated? || log[j].HeldActive?) && log[j].batch == batch
  }

  /**
   What lies between the reading of the attempt that released the batch and the release: the stop audit row, always;
   a stop command the device accepted, or, for a release without one, the activation the attempt had not seen.
   */
  predicate ReleaseOk(log: seq<Event>, i: nat)
    requires i < |log| && log[i].Released?
  {
    && Happened(log, log[i].since, i, StopAudited(log[i].batch))
    && (log[i].stopped ==> Happened(log, log[i].since, i, StopWritten))
    && (!log[i].stopped ==> BecameActive(log, log[i].since, i, log[i].batch))
  }

  predicate SharedOk(sh: Shared) {
    && (forall id :: id in sh.rows ==> id < sh.nextId)
    && (sh.rt.active.Some? ==> sh.rt.active.value < sh.nextId)
    && (forall i :: 0 <= i < |sh.log| && sh.log[i].Released? ==>
          ReleaseOk(sh.log, i) && sh.log[i].batch < sh.nextId && Closed(sh.rows, sh.log[i].batch))
  }

  // ---------- what a closer relies on ----------

  predicate StopOk(sh: Shared, l: Stop) {
    && (l.pc != PRead && !l.pc.PDone? ==> l.batch < sh.nextId && l.since <= |sh.log|)
    && (StopWrote(l.pc) ==> Happened(sh.log, l.since, |sh.log|, StopWritten))
    && (StopWrote(l.pc) || l.pc == PWrite ==>
          && (l.seen.None? ==> l.batch !in sh.rows)
          && (l.seen.Some? && l.seen.value.finishedAt.Some? ==> Closed(sh.rows, l.batch)))
    && (l.pc == PReload || l.pc == PAudit || l.pc == PRelease ==> Closed(sh.rows, l.batch))
    && (l.pc == PMissingAudit ==> l.seen.None?)
    && (l.pc == PRelease ==> Happened(sh.log, l.since, |sh.log|, StopAudited(l.batch)))
  }

  predicate StopWrote(pc: StopPc) {
    match pc
    case PSettle | PFinish | PReload | PAudit | PMissingAudit | PTailLatch | PRelease => true
    case _ => false
  }

  predicate FinishOk(sh: Shared, l: Finish) {
    && (l.pc != FRead && !l.pc.FDone? ==> l.since <= |sh.log|)
    && (l.WasActive() && l.pc != FRead && !l.pc.FDone? ==> l.batch < sh.nextId)
    && (FinishLooked(l.pc) ==> l.batch < sh.nextId)
    && (l.WasActive() && FinishWrote(l.pc) ==> Happened(sh.log, l.since, |sh.log|, StopWritten))
    && (l.pc == FMissingWrite || l.pc == FMissingSettle || l.pc == FMissingAudit ==>
          l.WasActive() && l.batch !in sh.rows)
    && (l.pc == FAudit || l.pc == FRelease ==> Closed(sh.rows, l.batch))
    && (l.pc == FRelease ==> Happened(sh.log, l.since, |sh.log|, StopAudited(l.batch)))
    && (!l.WasActive() && l.pc != FRead && !l.pc.FDone? ==> IdleSince(sh, l.since, l.batch))
  }

  /** The batch is not active, or became so since. */
  predicate IdleSince(sh: Shared, since: nat, batch: int) {
    sh.rt.active != Some(batch) || BecameActive(sh.log, since, |sh.log|, batch)
  }

  predicate FinishLooked(pc: FinishPc) {
    match pc
    case FRead | FLookup | FDone(_) => false
    case _ => true
  }

  predicate FinishWrote(pc: FinishPc) {
    match pc
    case FSettle | FClose | FReload | FAudit | FMissingSettle | FMissingAudit | FTailLatch | FRelease => true
    case _ => false
  }

  predicate LocalOk(sh: Shared, h: Handler) {
    match h
    case HStop(l) => StopOk(sh, l)
    case HFinish(l) => FinishOk(sh, l)
    case HStart(l) => Owns(l) ==> l.row < sh.nextId
    case _ => true
  }

  predicate Inv(s: State) {
    SharedOk(s.sh) && forall id :: id in s.hs ==> LocalOk(s.sh, s.hs[id])
  }

  // ---------- stability ----------

  lemma HappenedStays(log: seq<Event>, log': seq<Event>, from: nat, to: nat, e: Event)
    requires to <= |log| <= |log'| && log'[..|log|] == log && Happened(log, from, to, e)
    ensures Happened(log', from, to, e) && Happened(log', from, |log'|, e)
  {
    var j :| from <= j < to && log[j] == e;
    assert log'[j] == log'[..|log|][j];
  }

  lemma BecameActiveStays(log: seq<Event>, log': seq<Event>, from: nat, to: nat, to': nat, batch: int)
    requires to <= |log| <= |log'| && to <= to' <= |log'| && log'[..|log|] == log && BecameActive(log, from, to, batch)
    ensures BecameActive(log', from, to', batch)
  {
    var j :| from <= j < to && (log[j].Activated? || log[j].HeldActive?) && log[j].batch == batch;
    assert log'[j] == log'[..|log|][j];
  }

  /** Only an activation or a hold makes a batch active, and it is logged. */
  lemma ActivationIsLogged(sh: Shared, e: Effect, since: nat, batch: int)
    requires since <= |sh.log| && Apply(sh, e).rt.active == Some(batch) && sh.rt.active != Some(batch)
    ensures BecameActive(Apply(sh, e).log, since, |Apply(sh, e).log|, batch)
  {
    var log' := Apply(sh, e).log;
    assert e.Activate? || e.Hold?;
    var last := log'[|log'| - 1];
    assert (last.Activated? || last.HeldActive?) && last.batch == batch;
  }

  lemma IdleSinceStays(sh: Shared, e: Effect, since: nat, batch: int)
    requires since <= |sh.log| && IdleSince(sh, since, batch)
    ensures IdleSince(Apply(sh, e), since, batch)
  {
    LatchWindows.ApplyExtendsLog(sh, e);
    var log' := Apply(sh, e).log;
    if BecameActive(sh.log, since, |sh.log|, batch) {
      BecameActiveStays(sh.log, log', since, |sh.log|, |log'|, batch);
    } else if Apply(sh, e).rt.active == Some(batch) {
      ActivationIsLogged(sh, e, since, batch);
    }
  }

  /** Closed rows stay closed and missing rows stay missing: ids are never reused. */
  lemma ClosedStays(sh: Shared, e: Effect, id: int)
    requires id < sh.nextId
    ensures Closed(sh.rows, id) ==> Closed(Apply(sh, e).rows, id)
    ensures id !in sh.rows ==> id !in Apply(sh, e).rows
    ensures sh.nextId <= Apply(sh, e).nextId
  {
  }

  lemma StopStays(sh: Shared, e: Effect, l: Stop)
    requires StopOk(sh, l)
    ensures StopOk(Apply(sh, e), l)
  {
    LatchWindows.ApplyExtendsLog(sh, e);
    var log' := Apply(sh, e).log;
    if l.pc != PRead && !l.pc.PDone? { ClosedStays(sh, e, l.batch); }
    if StopWrote(l.pc) { HappenedStays(sh.log, log', l.since, |sh.log|, StopWritten); }
    if l.pc == PRelease { HappenedStays(sh.log, log', l.since, |sh.log|, StopAudited(l.batch)); }
  }

  lemma FinishStays(sh: Shared, e: Effect, l: Finish)
    requires FinishOk(sh, l)
    ensures FinishOk(Apply(sh, e), l)
  {
    LatchWindows.ApplyExtendsLog(sh, e);
    var log' := Apply(sh, e).log;
    if FinishLooked(l.pc) { ClosedStays(sh, e, l.batch); }
    if l.WasActive() && FinishWrote(l.pc) { HappenedStays(sh.log, log', l.since, |sh.log|, StopWritten); }
    if l.pc == FRelease { HappenedStays(sh.log, log', l.since, |sh.log|, StopAudited(l.batch)); }
    if !l.WasActive() && l.pc != FRead && !l.pc.FDone? { IdleSinceStays(sh, e, l.since, l.batch); }
  }

  lemma LocalStays(sh: Shared, e: Effect, h: Handler)
    requires LocalOk(sh, h)
    ensures LocalOk(Apply(sh, e), h)
  {
    match h
    case HStop(l) => StopStays(sh, e, l);
    case HFinish(l) => FinishStays(sh, e, l);
    case HStart(l) => ClosedStays(sh, e, sh.nextId - 1);
    case _ =>
  }

  // ---------- shared state ----------

  /** What a release needs from the handler that does it. */
  predicate ReleaseReady(sh: Shared, e: Effect) {
    e.Release? ==>
      && e.batch < sh.nextId && Closed(sh.rows, e.batch) && e.since <= |sh.log|
      && Happened(sh.log, e.since, |sh.log|, StopAudited(e.batch))
      && (e.settle.Some? ==> Happened(sh.log, e.since, |sh.log|, StopWritten))
      && (e.settle.None? ==> IdleSince(sh, e.since, e.batch))
  }

  predicate ActivatesKnown(sh: Shared, e: Effect) {
    (e.Activate? || e.Hold?) ==> e.batch < sh.nextId
  }

  lemma OldEntriesStay(sh: Shared, e: Effect, i: nat)
    requires SharedOk(sh) && i < |sh.log| && Apply(sh, e).log[i].Released?
    ensures ReleaseOk(Apply(sh, e).log, i) && Apply(sh, e).log[i].batch < Apply(sh, e).nextId
    ensures Closed(Apply(sh, e).rows, Apply(sh, e).log[i].batch)
  {
    LatchWindows.ApplyExtendsLog(sh, e);
    var log' := Apply(sh, e).log;
    assert log'[i] == log'[..|sh.log|][i] == sh.log[i];
    ClosedStays(sh, e, sh.log[i].batch);
    HappenedStays(sh.log, log', sh.log[i].since, i, StopAudited(sh.log[i].batch));
    if sh.log[i].stopped {
      HappenedStays(sh.log, log', sh.log[i].since, i, StopWritten);
    } else {
      BecameActiveStays(sh.log, log', sh.log[i].since, i, i, sh.log[i].batch);
    }
  }

  /** The only new release entry is the last one, and it is backed by the handler. */
  lemma NewEntriesOk(sh: Shared, e: Effect, i: nat)
    requires SharedOk(sh) && ReleaseReady(sh, e) && |sh.log| <= i < |Apply(sh, e).log| && Apply(sh, e).log[i].Released?
    ensures ReleaseOk(Apply(sh, e).log, i) && Apply(sh, e).log[i].batch < Apply(sh, e).nextId
    ensures Closed(Apply(sh, e).rows, Apply(sh, e).log[i].batch)
  {
    LatchWindows.ApplyExtendsLog(sh, e);
    var log' := Apply(sh, e).log;
    assert e.Release?;
    HappenedUpTo(sh.log, log', e.since, i, StopAudited(e.batch));
    if log'[i].stopped {
      HappenedUpTo(sh.log, log', e.since, i, StopWritten);
    } else {
      BecameActiveStays(sh.log, log', e.since, |sh.log|, i, e.batch);
    }
  }

  lemma HappenedUpTo(log: seq<Event>, log': seq<Event>, from: nat, to: nat, e: Event)
    requires |log| <= to <= |log'| && log'[..|log|] == log && Happened(log, from, |log|, e)
    ensures Happened(log', from, to, e)
  {
    var j :| from <= j < |log| && log[j] == e;
    assert log'[j] == log'[..|log|][j];
  }

  lemma EffectKeepsShared(sh: Shared, e: Effect)
    requires SharedOk(sh) && ReleaseReady(sh, e) && ActivatesKnown(sh, e)
    ensures SharedOk(Apply(sh, e))
  {
    var sh' := Apply(sh, e);
    forall i | 0 <= i < |sh'.log| && sh'.log[i].Released?
      ensures ReleaseOk(sh'.log, i) && sh'.log[i].batch < sh'.nextId && Closed(sh'.rows, sh'.log[i].batch)
    {
      if i < |sh.log| { OldEntriesStay(sh, e, i); } else { NewEntriesOk(sh, e, i); }
    }
  }

  // ---------- the acting handler ----------

  lemma HandlerIsReady(sh: Shared, lim: Limits, h: Handler, c: Choice)
    requires LocalOk(sh, h)
    ensures ReleaseReady(sh, HandlerStep(sh, lim, h, c).0) && ActivatesKnown(sh, HandlerStep(sh, lim, h, c).0)
  {
    match h
    case HStart(l) => StartIsReady(sh, l, c);
    case HStop(l) => StopIsReady(sh, l, c);
    case HFinish(l) => FinishIsReady(sh, l, c);
    case HWriter(_) | HAuto(_) | HReset(_) =>
  }

  lemma StopIsReady(sh: Shared, l: Stop, c: Choice)
    requires StopOk(sh, l)
    ensures ReleaseReady(sh, StopStep(sh, l, c).0) && ActivatesKnown(sh, StopStep(sh, l, c).0)
  {
  }

  lemma FinishIsReady(sh: Shared, l: Finish, c: Choice)
    requires FinishOk(sh, l)
    ensures ReleaseReady(sh, FinishStep(sh, l, c).0) && ActivatesKnown(sh, FinishStep(sh, l, c).0)
  {
  }

  lemma StartIsReady(sh: Shared, l: Start, c: Choice)
    requires LocalOk(sh, HStart(l))
    ensures !StartStep(sh, l, c).0.Release? && ActivatesKnown(sh, StartStep(sh, l, c).0)
  {
  }

  lemma StopActs(sh: Shared, l: Stop, c: Choice)
    requires SharedOk(sh) && StopOk(sh, l)
    ensures StopOk(Apply(sh, StopStep(sh, l, c).0), StopStep(sh, l, c).1)
  {
    var (e, l') := StopStep(sh, l, c);
    StopStays(sh, e, l);
    var log' := Apply(sh, e).log;
    if l.pc == PWrite && c.ok { assert log'[|sh.log|] == StopWritten; }
    if (l.pc == PAudit || l.pc == PMissingAudit) && c.ok { assert log'[|sh.log|] == StopAudited(l.batch); }
  }

  lemma FinishReadsAndLooks(sh: Shared, l: Finish, c: Choice)
    requires SharedOk(sh) && FinishOk(sh, l) && (l.pc == FRead || l.pc == FLookup)
    ensures FinishOk(Apply(sh, FinishStep(sh, l, c).0), FinishStep(sh, l, c).1)
  {
  }

  lemma FinishWorks(sh: Shared, l: Finish, c: Choice)
    requires FinishOk(sh, l) && FinishLooked(l.pc)
    ensures FinishOk(Apply(sh, FinishStep(sh, l, c).0), FinishStep(sh, l, c).1)
  {
    var (e, l') := FinishStep(sh, l, c);
    FinishStays(sh, e, l);
    var log' := Apply(sh, e).log;
    if (l.pc == FWrite || l.pc == FMissingWrite) && c.ok { assert log'[|sh.log|] == StopWritten; }
    if (l.pc == FAudit || l.pc == FMissingAudit) && c.ok { assert log'[|sh.log|] == StopAudited(l.batch); }
  }

  /** A start keeps its row, or has just inserted it. */
  lemma StartKeepsRow(sh: Shared, l: Start, c: Choice)
    ensures
      var (e, l') := StartStep(sh, l, c);
      Owns(l') ==> (Owns(l) && l'.row == l.row) || (e.InsertRow? && l'.row == sh.nextId)
  {
    match l.pc
    case SPreRead | SPreQuery | SEnter | SEnterQuery =>
    case SInsert =>
    case SPreCheck | SWrite | SWriteLatch | SFailAudit | SFailFinish =>
    case SAudit | SMarkApplied | SCommitQuery | SCommit =>
    case SRollStop | SRollStopLatch | SRollHold | SRollClear | SRollFinish | STailLatch =>
    case SDone(_) =>
  }

  lemma NextIdGrows(sh: Shared, e: Effect)
    ensures Apply(sh, e).nextId == if e.InsertRow? then sh.nextId + 1 else sh.nextId
  {
  }

  lemma StartActs(sh: Shared, l: Start, c: Choice)
    requires LocalOk(sh, HStart(l))
    ensures LocalOk(Apply(sh, StartStep(sh, l, c).0), HStart(StartStep(sh, l, c).1))
  {
    StartKeepsRow(sh, l, c);
    NextIdGrows(sh, StartStep(sh, l, c).0);
  }

  lemma HandlerActs(sh: Shared, lim: Limits, h: Handler, c: Choice)
    requires SharedOk(sh) && LocalOk(sh, h)
    ensures LocalOk(Apply(sh, HandlerStep(sh, lim, h, c).0), HandlerStep(sh, lim, h, c).1)
  {
    match h
    case HStop(l) => StopActs(sh, l, c);
    case HFinish(l) =>
      if FinishLooked(l.pc) { FinishWorks(sh, l, c); } else if !l.pc.FDone? { FinishReadsAndLooks(sh, l, c); }
    case HStart(l) => StartActs(sh, l, c);
    case _ =>
  }

  // ---------- runs ----------

  lemma StepKeepsInv(s: State, a: Label, s': State)
    requires Inv(s) && StepOf(s, a, s')
    ensures Inv(s')
  {
    var e := EffectOf(s, a);
    if a.Act? {
      HandlerIsReady(s.sh, s.lim, s.hs[a.id], a.choice);
      HandlerActs(s.sh, s.lim, s.hs[a.id], a.choice);
    }
    EffectKeepsShared(s.sh, e);
    forall id | id in Next(s, a).hs ensures LocalOk(Next(s, a).sh, Next(s, a).hs[id]) {
      if id in s.hs && !(a.Act? && a.id == id) { LocalStays(s.sh, e, s.hs[id]); }
    }
  }

  lemma InitialInv(s: State)
    requires Initial(s)
    ensures Inv(s)
  {
  }

  lemma {:induction false} RunKeepsInv(run: seq<State>, labels: seq<Label>, k: nat)
    requires IsRun(run, labels) && k < |run|
    ensures Inv(run[k])
  {
    if k == 0 {
      InitialInv(run[0]);
    } else {
      RunKeepsInv(run, labels, k - 1);
      StepKeepsInv(run[k - 1], labels[k - 1], run[k]);
    }
  }

  /**
   In every run, for every batch a stop or finish handler ever released: the stop audit row was written within that
   attempt; the device accepted stop targets within it, or the batch became active only after the attempt had read
   the runtime; and the batch is finished or missing from then on.
   */
  lemma ReleasesAreBacked(run: seq<State>, labels: seq<Label>, k: nat)
    requires IsRun(run, labels) && k < |run|
    ensures forall i :: 0 <= i < |run[k].sh.log| && run[k].sh.log[i].Released? ==>
              ReleaseOk(run[k].sh.log, i) && Closed(run[k].sh.rows, run[k].sh.log[i].batch)
  {
    RunKeepsInv(run, labels, k);
  }

  // ---------- which releases come with a stop ----------

  /** The release an effect logs: of the batch that was active. */
  predicate LogsRelease(sh: Shared, e: Effect) { e.Release? && sh.rt.active == Some(e.batch) }

  /** Release entries are written by nothing else. */
  lemma ReleaseEntriesComeFromReleases(sh: Shared, e: Effect, i: nat)
    requires |sh.log| <= i < |Apply(sh, e).log| && Apply(sh, e).log[i].Released?
    ensures LogsRelease(sh, e) && Apply(sh, e).log[i] == Released(e.batch, e.since, e.settle.Some?)
  {
  }

  /** In every state, only a stop or finish attempt at its last section releases a batch. */
  lemma OnlyAttemptsRelease(s: State, a: Label, i: nat)
    requires Enabled(s, a) && |s.sh.log| <= i < |Next(s, a).sh.log| && Next(s, a).sh.log[i].Released?
    ensures a.Act? && ((s.hs[a.id].HStop? && s.hs[a.id].stop.pc == PRelease)
                       || (s.hs[a.id].HFinish? && s.hs[a.id].finish.pc == FRelease))
  {
    ReleaseEntriesComeFromReleases(s.sh, EffectOf(s, a), i);
  }

  /** Every release logged from this position on is this one. */
  predicate ReleasesOnly(log: seq<Event>, from: nat, e: Event) {
    forall i :: from <= i < |log| && log[i].Released? ==> log[i] == e
  }

  /** What an attempt on a batch remembers of the state in which it read the runtime. */
  predicate ReadOk(h: Handler, batch: int, active: Option<int>, since: nat) {
    match h
    case HStop(l) => l.pc != PRead && (!l.pc.PDone? ==> l.batch == batch && active == Some(batch) && l.since == since)
    case HFinish(l) =>
      && l.pc != FRead && l.batch == batch && l.seenActive == active && l.since == since
      && (l.pc == FWrite || l.pc == FMissingWrite ==> active == Some(batch))
    case _ => false
  }

  predicate AttemptReads(h: Handler, batch: int) {
    match h
    case HStop(l) => l.pc == PRead
    case HFinish(l) => l.pc == FRead && l.batch == batch
    case _ => false
  }

  lemma ReadingIsKept(sh: Shared, lim: Limits, h: Handler, c: Choice, batch: int)
    requires AttemptReads(h, batch) && (h.HStop? ==> sh.rt.active == Some(batch))
    ensures ReadOk(HandlerStep(sh, lim, h, c).1, batch, sh.rt.active, |sh.log|)
  {
  }

  /** An attempt keeps its reading; it releases only that batch, with a stop exactly if it read it as active. */
  lemma AttemptFollowsReading(
      sh: Shared, lim: Limits, h: Handler, c: Choice, batch: int, active: Option<int>, since: nat)
    requires ReadOk(h, batch, active, since)
    ensures
      var (e, h') := HandlerStep(sh, lim, h, c);
      && ReadOk(h', batch, active, since)
      && (e.Release? ==> e.batch == batch && e.since == since && (e.settle.Some? <==> active == Some(batch)))
      && (active != Some(batch) ==> !e.WriteStop?)
  {
  }

  lemma AttemptReleasesOnly(
      sh: Shared, lim: Limits, h: Handler, c: Choice, batch: int, active: Option<int>, since: nat)
    requires ReadOk(h, batch, active, since)
    ensures
      var log' := Apply(sh, HandlerStep(sh, lim, h, c).0).log;
      ReleasesOnly(log', |sh.log|, Released(batch, since, active == Some(batch)))
  {
    var e := HandlerStep(sh, lim, h, c).0;
    var log' := Apply(sh, e).log;
    AttemptFollowsReading(sh, lim, h, c, batch, active, since);
    forall i | |sh.log| <= i < |log'| && log'[i].Released?
      ensures log'[i] == Released(batch, since, active == Some(batch))
    {
      ReleaseEntriesComeFromReleases(sh, e, i);
    }
  }

  predicate AttemptOn(s: State, id: nat, batch: int, active: Option<int>, since: nat) {
    id in s.hs && ReadOk(s.hs[id], batch, active, since)
  }

  lemma StepKeepsAttempt(s: State, a: Label, s': State, id: nat, batch: int, active: Option<int>, since: nat)
    requires StepOf(s, a, s') && AttemptOn(s, id, batch, active, since)
    ensures AttemptOn(s', id, batch, active, since)
  {
    if a.Act? && a.id == id { AttemptFollowsReading(s.sh, s.lim, s.hs[id], a.choice, batch, active, since); }
  }

  lemma {:induction false} AttemptStays(
      run: seq<State>, labels: seq<Label>, k: nat, m: nat, id: nat, batch: int, active: Option<int>, since: nat)
    requires IsRun(run, labels) && k <= m < |run| && AttemptOn(run[k], id, batch, active, since)
    ensures AttemptOn(run[m], id, batch, active, since)
    decreases m
  {
    if k < m {
      AttemptStays(run, labels, k, m - 1, id, batch, active, since);
      StepKeepsAttempt(run[m - 1], labels[m - 1], run[m], id, batch, active, since);
    }
  }

  lemma AttemptBegins(s: State, id: nat, c: Choice, batch: int)
    requires id in s.hs && AttemptReads(s.hs[id], batch) && (s.hs[id].HStop? ==> s.sh.rt.active == Some(batch))
    ensures AttemptOn(Next(s, Act(id, c)), id, batch, s.sh.rt.active, |s.sh.log|)
  {
    ReadingIsKept(s.sh, s.lim, s.hs[id], c, batch);
  }

  /**
   The exact condition. In every run, take a stop attempt, or a finish attempt on a batch, that read the runtime in
   step k and takes a step m later: if that step releases a batch, it is this batch, and the log says it was stopped
   if and only if the batch was active when the attempt read the runtime. An attempt that did not read its batch as
   active never sends a stop command.
   */
  lemma ReleaseIsStoppedIffReadActive(run: seq<State>, labels: seq<Label>, k: nat, m: nat, id: nat, batch: int)
    requires IsRun(run, labels) && k < m < |labels|
    requires labels[k].Act? && labels[k].id == id && labels[m].Act? && labels[m].id == id
    requires id in run[k].hs && AttemptReads(run[k].hs[id], batch)
    requires run[k].hs[id].HStop? ==> run[k].sh.rt.active == Some(batch)
    ensures run[k].sh.rt.active != Some(batch) ==> !EffectAt(run[m], labels[m]).WriteStop?
    ensures ReleasesOnly(run[m + 1].sh.log, |run[m].sh.log|,
                         Released(batch, |run[k].sh.log|, run[k].sh.rt.active == Some(batch)))
  {
    var active, since := run[k].sh.rt.active, |run[k].sh.log|;
    assert StepOf(run[k], labels[k], run[k + 1]) && StepOf(run[m], labels[m], run[m + 1]);
    AttemptBegins(run[k], id, labels[k].choice, batch);
    assert AttemptOn(run[k + 1], id, batch, active, since);
    AttemptStays(run, labels, k + 1, m, id, batch, active, since);
    AttemptFollowsReading(run[m].sh, run[m].lim, run[m].hs[id], labels[m].choice, batch, active, since);
    assert run[m + 1].sh == Apply(run[m].sh, EffectOf(run[m], labels[m]));
    AttemptReleasesOnly(run[m].sh, run[m].lim, run[m].hs[id], labels[m].choice, batch, active, since);
  }

  /** The row, if it is still in the table, is exactly the finished row r. */
  predicate Stamped(sh: Shared, id: int, r: Row) {
    id < sh.nextId && r.finishedAt.Some? && (id in sh.rows ==> sh.rows[id] == r)
  }

  predicate StampedIn(s: State, id: int, r: Row) { Stamped(s.sh, id, r) }

  lemma StampedStays(sh: Shared, e: Effect, id: int, r: Row)
    requires Stamped(sh, id, r)
    ensures Stamped(Apply(sh, e), id, r)
  {
    ClosedStays(sh, e, id);
  }

  lemma StepKeepsStamp(s: State, a: Label, s': State, id: int, r: Row)
    requires StepOf(s, a, s') && StampedIn(s, id, r)
    ensures StampedIn(s', id, r)
  {
    StampedStays(s.sh, EffectOf(s, a), id, r);
  }

  lemma {:induction false} StampedThroughout(run: seq<State>, labels: seq<Label>, k: nat, m: nat, id: int, r: Row)
    requires IsRun(run, labels) && k <= m < |run| && StampedIn(run[k], id, r)
    ensures StampedIn(run[m], id, r)
    decreases m
  {
    if k < m {
      StampedThroughout(run, labels, k, m - 1, id, r);
      StepKeepsStamp(run[m - 1], labels[m - 1], run[m], id, r);
    }
  }

  /** In every run a finish time is stamped at most once. */
  lemma FinishTimeIsStampedOnce(run: seq<State>, labels: seq<Label>, k: nat, m: nat, id: int)
    requires IsRun(run, labels) && k <= m < |run|
    requires id in run[k].sh.rows && run[k].sh.rows[id].finishedAt.Some? && id in run[m].sh.rows
    ensures run[m].sh.rows[id] == run[k].sh.rows[id]
  {
    RunKeepsInv(run, labels, k);
    StampedThroughout(run, labels, k, m, id, run[k].sh.rows[id]);
  }

  // ---------- a failure-free retry ----------

  function StopRank(pc: StopPc): nat {
    match pc
    case PRead => 9 case PLookup => 8 case PWrite => 7 case PSettle => 6 case PFinish => 5 case PReload => 4
    case PAudit => 3 case PMissingAudit => 3 case PRelease => 2 case PWriteLatch => 1 case PTailLatch => 1
    case PDone(_) => 0
  }

  /** A stop attempt running alone, every call with the same outcome, until it returns. */
  function StopToEnd(sh: Shared, l: Stop, c: Choice): (Shared, Stop)
    decreases StopRank(l.pc)
  {
    if l.pc.PDone? then (sh, l) else
      var (e, l') := StopStep(sh, l, c);
      StopToEnd(Apply(sh, e), l', c)
  }

  /** Where a failure-free stop attempt can be. */
  predicate StopOnTrack(sh: Shared, l: Stop) {
    match l.pc
    case PRead => sh.rt.active.Some?
    case PLookup => sh.rt.active == Some(l.batch)
    case PWrite | PSettle => sh.rt.active == Some(l.batch) && l.seen == Lookup(sh.rows, l.batch)
    case PFinish => sh.rt.active == Some(l.batch) && l.batch in sh.rows
    case PReload | PAudit => sh.rt.active == Some(l.batch) && l.batch in sh.rows && Closed(sh.rows, l.batch)
    case PMissingAudit | PRelease => sh.rt.active == Some(l.batch) && Closed(sh.rows, l.batch)
    case _ => false
  }

  lemma {:induction false} OnTrackStopCloses(sh: Shared, l: Stop, c: Choice)
    requires c.ok && StopOnTrack(sh, l)
    ensures
      var (sh', l') := StopToEnd(sh, l, c);
      && l'.pc == PDone(true) && sh'.rt.active.None? && !sh'.rt.auto && sh'.rt.targets == sh.stopTargets
      && (l.pc != PRead ==> l'.batch == l.batch) && (l.pc == PRead ==> sh.rt.active == Some(l'.batch))
      && Closed(sh'.rows, l'.batch)
    decreases StopRank(l.pc)
  {
    var (e, l') := StopStep(sh, l, c);
    if l.pc != PRelease { OnTrackStopCloses(Apply(sh, e), l', c); }
  }

  /**
   From any state with an active batch, however earlier attempts failed (row unfinished, finished or missing, any
   latches set), one stop attempt without failures and without interference closes exactly that batch.
   */
  lemma FailureFreeStopCloses(sh: Shared, c: Choice)
    requires c.ok && sh.rt.active.Some?
    ensures
      var (sh', l') := StopToEnd(sh, NewStop(), c);
      && l'.pc == PDone(true) && l'.batch == sh.rt.active.value
      && sh'.rt.active.None? && !sh'.rt.auto && sh'.rt.targets == sh.stopTargets && Closed(sh'.rows, l'.batch)
  {
    OnTrackStopCloses(sh, NewStop(), c);
  }

  function FinishRank(pc: FinishPc): nat {
    match pc
    case FRead => 9 case FLookup => 8 case FWrite => 7 case FMissingWrite => 7
    case FSettle => 6 case FMissingSettle => 6
    case FClose => 5 case FReload => 4 case FAudit => 3 case FMissingAudit => 3 case FRelease => 2
    case FWriteLatch => 1 case FTailLatch => 1 case FDone(_) => 0
  }

  function FinishToEnd(sh: Shared, l: Finish, c: Choice): (Shared, Finish)
    decreases FinishRank(l.pc)
  {
    if l.pc.FDone? then (sh, l) else
      var (e, l') := FinishStep(sh, l, c);
      FinishToEnd(Apply(sh, e), l', c)
  }

  predicate FinishOnTrack(sh: Shared, l: Finish) {
    && sh.rt.active == Some(l.batch)
    && (l.pc != FRead ==> l.WasActive())
    && match l.pc
       case FRead | FLookup => true
       case FWrite | FSettle => l.batch in sh.rows && l.seen == Some(sh.rows[l.batch])
       case FClose => l.batch in sh.rows
       case FReload | FAudit => l.batch in sh.rows && Closed(sh.rows, l.batch)
       case FMissingWrite | FMissingSettle | FMissingAudit | FRelease => Closed(sh.rows, l.batch)
       case _ => false
  }

  lemma {:induction false} OnTrackFinishCloses(sh: Shared, l: Finish, c: Choice)
    requires c.ok && FinishOnTrack(sh, l)
    ensures
      var (sh', l') := FinishToEnd(sh, l, c);
      && l'.pc == FDone(true) && sh'.rt == sh.rt.(active := None, auto := false, targets := sh.stopTargets)
      && Closed(sh'.rows, l.batch) && Unfinished(sh'.rows) == Unfinished(sh.rows) - {l.batch}
    decreases FinishRank(l.pc)
  {
    var (e, l') := FinishStep(sh, l, c);
    if l.pc != FRelease { OnTrackFinishCloses(Apply(sh, e), l', c); }
  }

  /** The same for a finish attempt on the active batch. */
  lemma FailureFreeFinishCloses(sh: Shared, batch: int, c: Choice)
    requires c.ok && sh.rt.active == Some(batch)
    ensures
      var (sh', l') := FinishToEnd(sh, NewFinish(batch), c);
      && l'.pc == FDone(true) && sh'.rt == sh.rt.(active := None, auto := false, targets := sh.stopTargets)
      && Closed(sh'.rows, batch) && Unfinished(sh'.rows) == Unfinished(sh.rows) - {batch}
  {
    OnTrackFinishCloses(sh, NewFinish(batch), c);
  }

  predicate IdleFinishOnTrack(sh: Shared, l: Finish) {
    && sh.rt.active.None? && l.batch in sh.rows
    && (l.pc != FRead ==> l.seenActive.None?)
    && match l.pc
       case FRead | FLookup => sh.rows[l.batch].finishedAt.None?
       case FSettle => l.seen == Some(sh.rows[l.batch]) && sh.rows[l.batch].finishedAt.None?
       case FClose => true
       case FReload | FAudit | FRelease => Closed(sh.rows, l.batch)
       case _ => false
  }

  /** A failure-free finish of an unfinished row while no batch is active closes that row and nothing else. */
  lemma {:induction false} OnTrackIdleFinishCloses(sh: Shared, l: Finish, c: Choice)
    requires c.ok && IdleFinishOnTrack(sh, l)
    ensures
      var (sh', l') := FinishToEnd(sh, l, c);
      && l'.pc == FDone(true) && sh'.rt == sh.rt.(auto := false)
      && Unfinished(sh'.rows) == Unfinished(sh.rows) - {l.batch}
    decreases FinishRank(l.pc)
  {
    var (e, l') := FinishStep(sh, l, c);
    if l.pc != FRelease { OnTrackIdleFinishCloses(Apply(sh, e), l', c); }
  }
}
