/**
 Requests that meet their conditions and are not interfered with succeed: a target write, an auto switch and an
 emergency reset running alone, every call succeeding, from any state in which their interlocks are clear.
 */
module Undisturbed {
  import opened Control
  import opened Runtime
  import opened Batches
  import opened Shared
  import opened Handlers
  import opened Guards
  import opened TargetFields

  // ---------- target writes ----------

  function WriterRank(pc: WriterPc): nat {
    match pc
    case WRead => 6 case WEnter => 5 case WEnterQuery => 4 case WAudit => 3 case WCommitQuery => 2 case WCommit => 1
    case WDone(_) => 0
  }

  /** A target write running alone, every call with the same outcome, until it returns. */
  function WriterToEnd(sh: Shared, lim: Limits, l: Writer, c: Choice): (Shared, Writer)
    decreases WriterRank(l.pc)
  {
    if l.pc.WDone? then (sh, l) else
      var (e, l') := WriterStep(sh, lim, l, c);
      WriterToEnd(Apply(sh, e), lim, l', c)
  }

  /** The request has the shape of its kind, is within bounds and outside the zones. */
  predicate Admissible(lim: Limits, l: Writer, t: Targets) {
    && Shaped(l.kind, l.patch) && WithinBounds(lim, l.kind, WantedSet(l.patch, t))
    && ZonesAvoided(lim, TestedSet(l.kind, WantedSet(l.patch, t)))
  }

  /** Where an undisturbed write can be. */
  predicate WriterOnTrack(sh: Shared, lim: Limits, l: Writer) {
    && AllClear(sh.rt) && Accounted(sh, sh.rt.active)
    && (l.pc == WRead ==> Admissible(lim, l, sh.rt.targets))
    && (l.pc != WRead ==> l.current == sh.rt.targets && l.next == RoundAll(WantedSet(l.patch, sh.rt.targets)))
    && (l.pc != WRead && l.pc != WEnter ==>
          SameGenerations(l.snap.ack, sh.rt) && l.snap.active == sh.rt.active && l.snap.since == |sh.log|)
    && (l.pc == WCommit ==> l.list == ReadUnfinished(sh))
    && !l.pc.WDone?
  }

  lemma WriterStepStaysOnTrack(sh: Shared, lim: Limits, l: Writer, c: Choice)
    requires c.ok && c.healthy && WriterOnTrack(sh, lim, l) && l.pc != WCommit
    ensures
      var (e, l') := WriterStep(sh, lim, l, c);
      && WriterOnTrack(Apply(sh, e), lim, l') && l'.patch == l.patch
      && Apply(sh, e) == sh.(rt := if l.pc == WEnter then sh.rt.(auto := false) else sh.rt)
  {
    match l.pc
    case WRead => ReadSectionIsExact(sh, lim, l, c);
    case WEnter => WriteEntryIsExact(sh, lim, l, c);
    case WEnterQuery => WriteEntryQueryIsExact(sh, lim, l, c);
    case WAudit =>
    case WCommitQuery =>
  }

  lemma WriterCommits(sh: Shared, lim: Limits, l: Writer, c: Choice)
    requires c.ok && c.healthy && WriterOnTrack(sh, lim, l) && l.pc == WCommit
    ensures
      var (e, l') := WriterStep(sh, lim, l, c);
      && l'.pc == WDone(true) && Apply(sh, e).rt == sh.rt.(targets := RoundAll(WantedSet(l.patch, sh.rt.targets)))
      && Apply(sh, e).log == sh.log + [TargetsCommitted(l.patch, |sh.log|)] && Apply(sh, e).rows == sh.rows
  {
    TargetCommitIsExact(sh, lim, l, c);
    ReadIsExact(sh, sh.rt.active);
  }

  lemma {:induction false} OnTrackWriteCommits(sh: Shared, lim: Limits, l: Writer, c: Choice)
    requires c.ok && c.healthy && WriterOnTrack(sh, lim, l)
    ensures
      var (sh', l') := WriterToEnd(sh, lim, l, c);
      && l'.pc == WDone(true) && sh'.rows == sh.rows
      && sh'.rt.targets == RoundAll(WantedSet(l.patch, sh.rt.targets))
      && sh'.rt.(auto := false, targets := sh.rt.targets) == sh.rt.(auto := false)
      && sh'.log == sh.log + [TargetsCommitted(l.patch, |sh.log|)]
    decreases WriterRank(l.pc)
  {
    if l.pc == WCommit {
      WriterCommits(sh, lim, l, c);
    } else {
      var (e, l') := WriterStep(sh, lim, l, c);
      WriterStepStaysOnTrack(sh, lim, l, c);
      OnTrackWriteCommits(Apply(sh, e), lim, l', c);
    }
  }

  /**
   An admissible target write of any kind, while no latch is set and the runtime accounts for the unfinished rows,
   succeeds if nothing fails or interferes, and changes nothing but auto and the targets it asks for.
   */
  lemma UndisturbedWriteCommits(sh: Shared, lim: Limits, kind: WriterKind, patch: Patch, c: Choice)
    requires c.ok && c.healthy && AllClear(sh.rt) && Accounted(sh, sh.rt.active)
    requires Admissible(lim, NewWriter(kind, patch), sh.rt.targets)
    ensures
      var (sh', l') := WriterToEnd(sh, lim, NewWriter(kind, patch), c);
      && l'.pc == WDone(true) && sh'.rows == sh.rows && sh'.rt.targets == RoundAll(WantedSet(patch, sh.rt.targets))
      && sh'.rt.(auto := false, targets := sh.rt.targets) == sh.rt.(auto := false)
  {
    OnTrackWriteCommits(sh, lim, NewWriter(kind, patch), c);
  }

  // ---------- auto ----------

  function AutoRank(pc: AutoPc): nat {
    match pc
    case AEnter => 4 case AEnterQuery => 3 case AAudit => 2 case AFinal => 1 case ADone(_) => 0
  }

  function AutoToEnd(sh: Shared, l: Auto, c: Choice): (Shared, Auto)
    decreases AutoRank(l.pc)
  {
    if l.pc.ADone? then (sh, l) else
      var (e, l') := AutoStep(sh, l, c);
      AutoToEnd(Apply(sh, e), l', c)
  }

  predicate AutoOnTrack(sh: Shared, l: Auto) {
    && !l.pc.ADone? && (!l.enable ==> l.pc == AEnter || l.pc == AAudit)
    && (l.enable ==> AllClear(sh.rt) && Accounted(sh, sh.rt.active))
    && (l.pc != AEnter ==> !sh.rt.auto)
    && (l.pc != AEnter && l.enable ==>
          l.snap.clear && l.snap.active == sh.rt.active && SameGenerations(l.snap.ack, sh.rt))
  }

  lemma {:induction false} OnTrackAutoSwitches(sh: Shared, l: Auto, c: Choice)
    requires c.ok && (l.enable ==> c.healthy) && AutoOnTrack(sh, l)
    ensures
      var (sh', l') := AutoToEnd(sh, l, c);
      l'.pc == ADone(true) && sh'.rt == sh.rt.(auto := l.enable) && sh'.rows == sh.rows
    decreases AutoRank(l.pc)
  {
    var (e, l') := AutoStep(sh, l, c);
    if l.pc == AFinal {
      AutoEnableIsExact(sh, l, c);
    } else {
      if l.pc != AAudit { AutoEntryIsExact(sh, l, c); }
      if !l'.pc.ADone? { OnTrackAutoSwitches(Apply(sh, e), l', c); }
    }
  }

  /**
   Switching auto off succeeds if nothing fails or interferes, and switching it on if in addition no latch is set, the
   field is healthy and the runtime accounts for the unfinished rows.
   */
  lemma UndisturbedAutoSwitches(sh: Shared, enable: bool, c: Choice)
    requires c.ok && (enable ==> c.healthy && AllClear(sh.rt) && Accounted(sh, sh.rt.active))
    ensures
      var (sh', l') := AutoToEnd(sh, NewAuto(enable), c);
      l'.pc == ADone(true) && sh'.rt == sh.rt.(auto := enable) && sh'.rows == sh.rows
  {
    OnTrackAutoSwitches(sh, NewAuto(enable), c);
  }

  // ---------- the emergency reset ----------

  function ResetRank(pc: ResetPc): nat {
    match pc
    case REnter => 4 case REnterQuery => 3 case RAudit => 2 case RFinal => 1 case RDone(_) => 0
  }

  function EmergencyResetToEnd(sh: Shared, l: Reset, c: Choice): (Shared, Reset)
    decreases ResetRank(l.pc)
  {
    if l.pc.RDone? then (sh, l) else
      var (e, l') := EmergencyResetStep(sh, l, c);
      EmergencyResetToEnd(Apply(sh, e), l', c)
  }

  predicate EmergencyResetOnTrack(sh: Shared, l: Reset) {
    && sh.rt.emergencyStop && sh.rt.active.None? && Unfinished(sh.rows) == {} && !l.pc.RDone?
    && (l.pc != REnter ==> l.seenActive.None? && l.ackGen == sh.rt.emergencyGen && !sh.rt.auto)
  }

  lemma {:induction false} OnTrackEmergencyResetClears(sh: Shared, l: Reset, c: Choice)
    requires c.ok && c.healthy && EmergencyResetOnTrack(sh, l)
    ensures
      var (sh', l') := EmergencyResetToEnd(sh, l, c);
      l'.pc == RDone(true) && sh'.rt == sh.rt.(emergencyStop := false, auto := false) && sh'.rows == sh.rows
    decreases ResetRank(l.pc)
  {
    var (e, l') := EmergencyResetStep(sh, l, c);
    if l.pc != RAudit { EmergencyResetIsExact(sh, l, c); }
    if l.pc != RFinal { OnTrackEmergencyResetClears(Apply(sh, e), l', c); }
  }

  /** An emergency reset on an idle, healthy installation clears exactly that latch if nothing fails or interferes. */
  lemma UndisturbedEmergencyResetClears(sh: Shared, c: Choice)
    requires c.ok && c.healthy && sh.rt.emergencyStop && sh.rt.active.None? && Unfinished(sh.rows) == {}
    ensures
      var (sh', l') := EmergencyResetToEnd(sh, NewReset(EmergencyStop), c);
      l'.pc == RDone(true) && sh'.rt == sh.rt.(emergencyStop := false, auto := false) && sh'.rows == sh.rows
  {
    OnTrackEmergencyResetClears(sh, NewReset(EmergencyStop), c);
  }
}
