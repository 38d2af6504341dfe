/**
 The hash-chained audit log of db.rs: the append, the bounded-window verifier, the full verifier, and what the
 chain proves about a stored log. SHA-256 over the serialised payload is a parameter `hash` of everything here.
 */
module AuditChain {
  import opened Common

  /** The fields of a control event that enter the hash; `actor` and `role` do not. */
  datatype Fields = Fields(batchId: Option<int>, eventType: string, temperature: Option<real>, stirrer: Option<real>,
                           shake: Option<real>, reason: string, createdAt: string)

  datatype ControlEvent = ControlEvent(id: int, fields: Fields, actor: string, role: string,
                                       previousHash: Option<Digest>, eventHash: Option<Digest>)

  /** A stored hash: a text, or, for an ideal hash without collisions, the hashed payload itself. */
  datatype Digest = Hex(text: string) | Ideal(previous: Option<Digest>, fields: Fields)

  /** `control_event_hash` */
  type Hash = (Option<Digest>, Fields) -> Digest

  ghost predicate Injective(hash: Hash) {
    forall p, f, p', f' :: hash(p, f) == hash(p', f') ==> p == p' && f == f'
  }

  lemma InjectiveHashExists()
    ensures exists hash: Hash :: Injective(hash)
  {
    var ideal: Hash := (p, f) => Ideal(p, f);
    assert Injective(ideal);
  }

  /** `AuditChainStatus` */
  datatype Status = Status(
    totalHashedEvents: nat, checkedEvents: nat, chainedEvents: nat, brokenEvents: nat,
    windowValid: bool, valid: bool, lastEventHash: Option<Digest>,
    checkedFrom: Option<int>, checkedTo: Option<int>, limit: nat, truncated: bool)

  // ---------- the stored rows ----------

  /** SELECT ... WHERE event_hash IS NOT NULL ORDER BY id ASC */
  function Hashed(events: seq<ControlEvent>): (r: seq<ControlEvent>)
    ensures forall i :: 0 <= i < |r| ==> r[i].eventHash.Some?
  {
    if events == [] then [] else
      var last := events[|events| - 1];
      Hashed(events[..|events| - 1]) + if last.eventHash.Some? then [last] else []
  }

  function LastHash(events: seq<ControlEvent>): Option<Digest> {
    if events == [] then None else events[|events| - 1].eventHash
  }

  predicate InRange(x: Option<real>, min: real, max: real) {
    x.Some? ==> min <= x.value <= max
  }

  /** `validate_control_event_targets` */
  predicate Insertable(f: Fields) {
    InRange(f.temperature, 0.0, 500.0) && InRange(f.stirrer, 0.0, 2000.0) && InRange(f.shake, 0.0, 60.0)
  }

  function Append(hash: Hash, events: seq<ControlEvent>, id: int, f: Fields, actor: string, role: string)
    : seq<ControlEvent>
  {
    var previous := LastHash(Hashed(events));
    events + [ControlEvent(id, f, actor, role, previous, Some(hash(previous, f)))]
  }

  // ---------- verdicts ----------

  predicate BrokenAfter(hash: Hash, previous: Option<Digest>, e: ControlEvent) {
    e.previousHash != previous || e.eventHash != Some(hash(previous, e.fields))
  }

  /** Whether event i of a chain that starts after `start` is broken: judged against its stored predecessor. */
  predicate Broken(hash: Hash, start: Option<Digest>, events: seq<ControlEvent>, i: nat)
    requires i < |events|
  {
    BrokenAfter(hash, if i == 0 then start else events[i - 1].eventHash, events[i])
  }

  function BrokenCount(hash: Hash, start: Option<Digest>, events: seq<ControlEvent>, n: nat): nat
    requires n <= |events|
  {
    if n == 0 then 0 else
      BrokenCount(hash, start, events, n - 1) + if Broken(hash, start, events, n - 1) then 1 else 0
  }

  lemma {:induction false} CountIsZeroIffNoneBroken(
      hash: Hash, start: Option<Digest>, events: seq<ControlEvent>, n: nat)
    requires n <= |events|
    ensures BrokenCount(hash, start, events, n) <= n
    ensures BrokenCount(hash, start, events, n) == 0 <==> forall i :: 0 <= i < n ==> !Broken(hash, start, events, i)
  {
    if n > 0 { CountIsZeroIffNoneBroken(hash, start, events, n - 1); }
  }

  /** Where the windowed verifier starts: it trusts the first row's own predecessor when rows were cut off. */
  function WindowStart(window: seq<ControlEvent>, truncated: bool): Option<Digest> {
    if truncated && window != [] then window[0].previousHash else None
  }

  /** The report on a chain that starts after `start`. */
  function Report(
      hash: Hash, start: Option<Digest>, events: seq<ControlEvent>, total: nat, limit: nat, truncated: bool): Status
  {
    var broken := BrokenCount(hash, start, events, |events|);
    Status(total, |events|, if broken <= |events| then |events| - broken else 0, broken,
           broken == 0, broken == 0 && !truncated, LastHash(events),
           if events == [] then None else Some(events[0].id),
           if events == [] then None else Some(events[|events| - 1].id), limit, truncated)
  }

  function Window(hashed: seq<ControlEvent>, limit: nat): seq<ControlEvent> {
    if |hashed| <= limit then hashed else hashed[|hashed| - limit..]
  }

  function WindowReport(hash: Hash, hashed: seq<ControlEvent>, limit: nat): Status {
    var truncated := |hashed| > limit;
    Report(hash, WindowStart(Window(hashed, limit), truncated), Window(hashed, limit), |hashed|, limit, truncated)
  }

  function FullReport(hash: Hash, hashed: seq<ControlEvent>): Status {
    Report(hash, None, hashed, |hashed|, |hashed|, false)
  }

  // ---------- the table and its operations ----------

  class AuditLog {
    var events: seq<ControlEvent>

    constructor ()
      ensures events == []
    {
      events := [];
    }

    /** insert_control_event: refused targets leave the log alone. */
    method Insert(hash: Hash, id: int, f: Fields, actor: string, role: string) returns (ok: bool)
      modifies this
      ensures ok == Insertable(f)
      ensures events == if ok then Append(hash, old(events), id, f, actor, role) else old(events)
      ensures ok ==>
                var e := events[|events| - 1];
                e.id == id && e.fields == f && e.actor == actor && e.role == role && e.eventHash.Some?
    {
      var previous := LastHash(Hashed(events));
      if !Insertable(f) { return false; }
      events := events + [ControlEvent(id, f, actor, role, previous, Some(hash(previous, f)))];
      return true;
    }

    /** audit_chain_status: the newest `limit` hashed rows, oldest first. */
    method Verify(hash: Hash, limit: nat) returns (r: Status)
      ensures r == WindowReport(hash, Hashed(events), limit)
      ensures IsWindowReport(hash, Hashed(events), limit, r)
    {
      var hashed := Hashed(events);
      r := StatusFromEvents(hash, Window(hashed, limit), |hashed|, limit, |hashed| > limit);
      WindowReportIsExact(hash, hashed, limit);
    }

    /** full_audit_chain_status_for_diagnostics */
    method VerifyAll(hash: Hash) returns (r: Status)
      ensures r == FullReport(hash, Hashed(events))
      ensures IsWindowReport(hash, Hashed(events), |Hashed(events)|, r)
    {
      WindowReportIsExact(hash, Hashed(events), |Hashed(events)|);
      var rows := Hashed(events);
      var checked, broken := 0, 0;
      var previous: Option<Digest> := None;
      var lastHash: Option<Digest> := None;
      var from: Option<int> := None;
      var to: Option<int> := None;
      while checked < |rows|
        invariant checked <= |rows|
        invariant broken == BrokenCount(hash, None, rows, checked)
        invariant previous == lastHash == LastHash(rows[..checked])
        invariant from == if checked == 0 then None else Some(rows[0].id)
        invariant to == if checked == 0 then None else Some(rows[checked - 1].id)
      {
        var e := rows[checked];
        if from.None? { from := Some(e.id); }
        to := Some(e.id);
        checked := checked + 1;
        var expected := hash(previous, e.fields);
        if e.previousHash != previous || e.eventHash != Some(expected) { broken := broken + 1; }
        previous := e.eventHash;
        lastHash := e.eventHash;
      }
      assert rows[..checked] == rows;
      r := Status(checked, checked, if broken <= checked then checked - broken else 0, broken,
                  broken == 0, broken == 0, lastHash, from, to, checked, false);
    }
  }

  /** audit_chain_status_from_events */
  method StatusFromEvents(hash: Hash, events: seq<ControlEvent>, total: nat, limit: nat, truncated: bool)
    returns (r: Status)
    ensures r == Report(hash, WindowStart(events, truncated), events, total, limit, truncated)
  {
    var checked, broken := 0, 0;
    var previous: Option<Digest> := None;
    var lastHash: Option<Digest> := None;
    var from: Option<int> := None;
    var to: Option<int> := None;
    while checked < |events|
      invariant checked <= |events|
      invariant broken == BrokenCount(hash, WindowStart(events, truncated), events, checked)
      invariant lastHash == LastHash(events[..checked])
      invariant previous == if checked == 0 then None else lastHash
      invariant from == if checked == 0 then None else Some(events[0].id)
      invariant to == if checked == 0 then None else Some(events[checked - 1].id)
    {
      var e := events[checked];
      if from.None? { from := Some(e.id); }
      to := Some(e.id);
      if checked == 0 && truncated { previous := e.previousHash; }
      checked := checked + 1;
      var expected := hash(previous, e.fields);
      if e.previousHash != previous || e.eventHash != Some(expected) { broken := broken + 1; }
      previous := e.eventHash;
      lastHash := e.eventHash;
    }
    assert events[..checked] == events;
    r := Status(total, checked, if broken <= checked then checked - broken else 0, broken,
                broken == 0, broken == 0 && !truncated, lastHash, from, to, limit, truncated);
  }

  // ---------- what the reports say, over the positions of the stored rows ----------

  /** The hash stored with the row is that of its fields and its own stored predecessor. */
  predicate OwnHashFits(hash: Hash, e: ControlEvent) { e.eventHash == Some(hash(e.previousHash, e.fields)) }

  /** How the bounded verifier must judge the row at position i of all hashed rows, of which it reads the last n. */
  predicate RowFails(hash: Hash, hashed: seq<ControlEvent>, n: nat, i: nat)
    requires n <= |hashed| && i < |hashed|
  {
    if i == |hashed| - n && n < |hashed| then !OwnHashFits(hash, hashed[i])
    else
      || hashed[i].previousHash != (if i == 0 then None else hashed[i - 1].eventHash)
      || !OwnHashFits(hash, hashed[i])
  }

  /** The failing rows of the last n, up to a position. */
  function FailingRows(hash: Hash, hashed: seq<ControlEvent>, n: nat, to: nat): set<nat>
    requires n <= |hashed| && to <= |hashed|
  {
    Holds((i: nat) => i < |hashed| && RowFails(hash, hashed, n, i), |hashed| - n, to)
  }

  /** The report on the newest rows within the limit, said over all the hashed rows. */
  predicate IsWindowReport(hash: Hash, hashed: seq<ControlEvent>, limit: nat, r: Status) {
    var n := if |hashed| <= limit then |hashed| else limit;
    && r.totalHashedEvents == |hashed| && r.checkedEvents == n && r.limit == limit
    && (r.truncated <==> |hashed| > limit)
    && r.brokenEvents == |FailingRows(hash, hashed, n, |hashed|)|
    && r.chainedEvents == n - r.brokenEvents
    && (r.windowValid <==> forall i :: |hashed| - n <= i < |hashed| ==> !RowFails(hash, hashed, n, i))
    && (r.valid <==> r.windowValid && |hashed| <= limit)
    && r.lastEventHash == (if n == 0 then None else hashed[|hashed| - 1].eventHash)
    && r.checkedFrom == (if n == 0 then None else Some(hashed[|hashed| - n].id))
    && r.checkedTo == (if n == 0 then None else Some(hashed[|hashed| - 1].id))
  }

  /** A row of the window fails exactly if it is broken in the window's chain. */
  lemma WindowRowFails(hash: Hash, hashed: seq<ControlEvent>, limit: nat, j: nat)
    requires j < |Window(hashed, limit)|
    ensures
      var w := Window(hashed, limit);
      Broken(hash, WindowStart(w, |hashed| > limit), w, j) <==> RowFails(hash, hashed, |w|, |hashed| - |w| + j)
  {
  }

  /** The positions of a range at which a test holds. */
  function Holds(test: nat -> bool, from: nat, to: nat): set<nat> { set i: nat | from <= i < to && test(i) }

  lemma HoldsGrows(test: nat -> bool, from: nat, to: nat)
    requires from <= to
    ensures |Holds(test, from, to + 1)| == |Holds(test, from, to)| + if test(to) then 1 else 0
  {
    var before, after := Holds(test, from, to), Holds(test, from, to + 1);
    assert after == if test(to) then before + {to} else before;
  }

  /** Taking one more row adds it to the failing ones exactly if it fails. */
  lemma FailingRowsGrow(hash: Hash, hashed: seq<ControlEvent>, n: nat, to: nat)
    requires n <= |hashed| && |hashed| - n <= to < |hashed|
    ensures |FailingRows(hash, hashed, n, to + 1)|
         == |FailingRows(hash, hashed, n, to)| + if RowFails(hash, hashed, n, to) then 1 else 0
  {
    HoldsGrows((i: nat) => i < |hashed| && RowFails(hash, hashed, n, i), |hashed| - n, to);
  }

  lemma {:induction false} WindowCount(hash: Hash, hashed: seq<ControlEvent>, limit: nat, m: nat)
    requires m <= |Window(hashed, limit)|
    ensures
      var w := Window(hashed, limit);
      BrokenCount(hash, WindowStart(w, |hashed| > limit), w, m)
        == |FailingRows(hash, hashed, |w|, |hashed| - |w| + m)|
  {
    var w := Window(hashed, limit);
    if m == 0 {
      assert FailingRows(hash, hashed, |w|, |hashed| - |w|) == {};
    } else {
      WindowCount(hash, hashed, limit, m - 1);
      WindowRowFails(hash, hashed, limit, m - 1);
      FailingRowsGrow(hash, hashed, |w|, |hashed| - |w| + m - 1);
    }
  }

  lemma WindowReportIsExact(hash: Hash, hashed: seq<ControlEvent>, limit: nat)
    ensures IsWindowReport(hash, hashed, limit, WindowReport(hash, hashed, limit))
  {
    var w := Window(hashed, limit);
    var start, first := WindowStart(w, |hashed| > limit), |hashed| - |w|;
    WindowCount(hash, hashed, limit, |w|);
    CountIsZeroIffNoneBroken(hash, start, w, |w|);
    forall i | first <= i < |hashed|
      ensures RowFails(hash, hashed, |w|, i) <==> Broken(hash, start, w, i - first)
    {
      WindowRowFails(hash, hashed, limit, i - first);
    }
  }

  // ---------- appends verify ----------

  datatype Request = Request(id: int, fields: Fields, actor: string, role: string)

  /** The table after a sequence of accepted and refused inserts. */
  function Build(hash: Hash, requests: seq<Request>): seq<ControlEvent> {
    if requests == [] then [] else
      var before := Build(hash, requests[..|requests| - 1]);
      var r := requests[|requests| - 1];
      if Insertable(r.fields) then Append(hash, before, r.id, r.fields, r.actor, r.role) else before
  }

  /** An append extends the hashed rows by one unbroken row and changes no other verdict. */
  lemma AppendKeepsVerdicts(hash: Hash, events: seq<ControlEvent>, id: int, f: Fields, actor: string, role: string)
    ensures
      var hashed := Hashed(events);
      var hashed' := Hashed(Append(hash, events, id, f, actor, role));
      && |hashed'| == |hashed| + 1
      && (forall i :: 0 <= i < |hashed| ==>
            hashed'[i] == hashed[i] && Broken(hash, None, hashed', i) == Broken(hash, None, hashed, i))
      && !Broken(hash, None, hashed', |hashed|)
  {
    var events' := Append(hash, events, id, f, actor, role);
    assert events'[..|events|] == events;
    assert Hashed(events') == Hashed(events) + [events'[|events|]];
  }

  lemma {:induction false} BuiltLogIsUnbroken(hash: Hash, requests: seq<Request>)
    ensures forall i :: 0 <= i < |Hashed(Build(hash, requests))| ==>
              !Broken(hash, None, Hashed(Build(hash, requests)), i)
  {
    if requests != [] {
      var n := |requests| - 1;
      BuiltLogIsUnbroken(hash, requests[..n]);
      var r := requests[n];
      AppendKeepsVerdicts(hash, Build(hash, requests[..n]), r.id, r.fields, r.actor, r.role);
    }
  }

  /** Every stored event of a built log has its target values within the accepted ranges. */
  lemma {:induction false} BuiltLogIsInRange(hash: Hash, requests: seq<Request>, i: nat)
    requires i < |Build(hash, requests)|
    ensures
      var f := Build(hash, requests)[i].fields;
      && (f.temperature.Some? ==> 0.0 <= f.temperature.value <= 500.0)
      && (f.stirrer.Some? ==> 0.0 <= f.stirrer.value <= 2000.0)
      && (f.shake.Some? ==> 0.0 <= f.shake.value <= 60.0)
  {
    var n := |requests| - 1;
    var before := Build(hash, requests[..n]);
    if i < |before| { BuiltLogIsInRange(hash, requests[..n], i); }
  }

  /** An insert is refused exactly if a target value is out of its range. */
  lemma InsertRefusesOutOfRange(f: Fields)
    ensures !Insertable(f) <==>
            || (f.temperature.Some? && !(0.0 <= f.temperature.value <= 500.0))
            || (f.stirrer.Some? && !(0.0 <= f.stirrer.value <= 2000.0))
            || (f.shake.Some? && !(0.0 <= f.shake.value <= 60.0))
  {
  }

  /** Every log built by inserts from an empty table verifies with no broken event, by either verifier. */
  lemma BuiltLogVerifies(hash: Hash, requests: seq<Request>, limit: nat)
    ensures FullReport(hash, Hashed(Build(hash, requests))).brokenEvents == 0
    ensures FullReport(hash, Hashed(Build(hash, requests))).valid
    ensures WindowReport(hash, Hashed(Build(hash, requests)), limit).brokenEvents == 0
  {
    var hashed := Hashed(Build(hash, requests));
    BuiltLogIsUnbroken(hash, requests);
    CountIsZeroIffNoneBroken(hash, None, hashed, |hashed|);
    WindowRefinesFull(hash, hashed, limit);
  }

  // ---------- tamper evidence ----------

  /** Two stored events with different hashed payloads and the same hash. */
  predicate Collide(hash: Hash, x: ControlEvent, y: ControlEvent) {
    && (x.previousHash != y.previousHash || x.fields != y.fields)
    && hash(x.previousHash, x.fields) == hash(y.previousHash, y.fields)
  }

  predicate CollisionFree(hash: Hash, a: seq<ControlEvent>, b: seq<ControlEvent>) {
    forall i, j :: 0 <= i < |a| && 0 <= j < |b| ==> !Collide(hash, a[i], b[j])
  }

  predicate Unbroken(hash: Hash, events: seq<ControlEvent>) {
    forall i :: 0 <= i < |events| ==> !Broken(hash, None, events, i)
  }

  /** The same length, and the same hashed fields and hashes in every event. */
  predicate Agree(a: seq<ControlEvent>, b: seq<ControlEvent>) {
    && |a| == |b|
    && forall i :: 0 <= i < |a| ==>
         a[i].fields == b[i].fields && a[i].previousHash == b[i].previousHash && a[i].eventHash == b[i].eventHash
  }

  /** An unbroken log stays unbroken without its last event, whose predecessor is then the last hash. */
  lemma WithoutLast(hash: Hash, events: seq<ControlEvent>)
    requires Unbroken(hash, events) && events != []
    ensures
      var n := |events| - 1;
      && Unbroken(hash, events[..n]) && events[n].previousHash == LastHash(events[..n])
      && events[n].eventHash == Some(hash(events[n].previousHash, events[n].fields))
  {
    var n := |events| - 1;
    assert !Broken(hash, None, events, n);
    forall i | 0 <= i < n ensures !Broken(hash, None, events[..n], i) { assert !Broken(hash, None, events, i); }
  }

  lemma UnbrokenEndsInHash(hash: Hash, events: seq<ControlEvent>)
    requires Unbroken(hash, events)
    ensures LastHash(events).None? <==> events == []
  {
    if events != [] { WithoutLast(hash, events); }
  }

  /**
   For every hash: two complete logs that both verify and end in the same hash have the same length and agree on every
   hashed field of every event, unless some event of the one collides with some event of the other.
   */
  lemma {:induction false} SameLastHashSameLog(hash: Hash, a: seq<ControlEvent>, b: seq<ControlEvent>)
    requires Unbroken(hash, a) && Unbroken(hash, b) && LastHash(a) == LastHash(b) && CollisionFree(hash, a, b)
    ensures Agree(a, b)
    decreases |a|
  {
    UnbrokenEndsInHash(hash, a);
    UnbrokenEndsInHash(hash, b);
    if a != [] {
      var n, m := |a| - 1, |b| - 1;
      WithoutLast(hash, a);
      WithoutLast(hash, b);
      assert !Collide(hash, a[n], b[m]);
      assert CollisionFree(hash, a[..n], b[..m]);
      SameLastHashSameLog(hash, a[..n], b[..m]);
      assert forall i :: 0 <= i < n ==> a[i] == a[..n][i] && b[i] == b[..m][i];
    }
  }

  /** The same about the reports: two valid full reports with the same last hash come from equal hashed fields. */
  lemma ValidReportsWithSameLastHashAgree(hash: Hash, a: seq<ControlEvent>, b: seq<ControlEvent>)
    requires FullReport(hash, Hashed(a)).valid && FullReport(hash, Hashed(b)).valid
    requires FullReport(hash, Hashed(a)).lastEventHash == FullReport(hash, Hashed(b)).lastEventHash
    requires CollisionFree(hash, Hashed(a), Hashed(b))
    ensures Agree(Hashed(a), Hashed(b))
  {
    CountIsZeroIffNoneBroken(hash, None, Hashed(a), |Hashed(a)|);
    CountIsZeroIffNoneBroken(hash, None, Hashed(b), |Hashed(b)|);
    SameLastHashSameLog(hash, Hashed(a), Hashed(b));
  }

  /** Under an injective hash no two logs collide, so equal last hashes always mean equal logs. */
  lemma InjectiveHashShowsTampering(hash: Hash, a: seq<ControlEvent>, b: seq<ControlEvent>)
    requires Injective(hash)
    requires FullReport(hash, Hashed(a)).valid && FullReport(hash, Hashed(b)).valid
    requires FullReport(hash, Hashed(a)).lastEventHash == FullReport(hash, Hashed(b)).lastEventHash
    ensures Agree(Hashed(a), Hashed(b))
  {
    ValidReportsWithSameLastHashAgree(hash, a, b);
  }

  /** The user columns are outside the hash: rewriting them in any event changes no report. */
  lemma {:induction false} UserColumnsAreUnprotected(
      hash: Hash, start: Option<Digest>, events: seq<ControlEvent>, k: nat, actor: string, role: string, n: nat)
    requires k < |events| && n <= |events|
    ensures BrokenCount(hash, start, events[k := events[k].(actor := actor, role := role)], n)
         == BrokenCount(hash, start, events, n)
  {
    if n > 0 { UserColumnsAreUnprotected(hash, start, events, k, actor, role, n - 1); }
  }

  // ---------- the window refines the full verification ----------

  /**
   For any stored rows, tampered or not: on every window event after the first the two verifiers give the same verdict,
   and the first is broken in the window only if it is broken in full.
   */
  lemma WindowVerdictsAgree(hash: Hash, hashed: seq<ControlEvent>, limit: nat, j: nat)
    requires j < |Window(hashed, limit)|
    ensures
      var w := Window(hashed, limit);
      var start := WindowStart(w, |hashed| > limit);
      var i := |hashed| - |w| + j;
      && (j > 0 ==> (Broken(hash, start, w, j) <==> Broken(hash, None, hashed, i)))
      && (Broken(hash, start, w, j) ==> Broken(hash, None, hashed, i))
  {
  }

  lemma {:induction false} SuffixCountsLess(hash: Hash, hashed: seq<ControlEvent>, limit: nat, n: nat)
    requires n <= |Window(hashed, limit)|
    ensures
      var w := Window(hashed, limit);
      BrokenCount(hash, WindowStart(w, |hashed| > limit), w, n) <= BrokenCount(hash, None, hashed, |hashed| - |w| + n)
  {
    if n > 0 {
      SuffixCountsLess(hash, hashed, limit, n - 1);
      WindowVerdictsAgree(hash, hashed, limit, n - 1);
    }
  }

  /**
   The windowed broken count never exceeds the full one, and when every hashed row fits the limit the two reports agree
   on every field but the limit itself.
   */
  lemma WindowRefinesFull(hash: Hash, hashed: seq<ControlEvent>, limit: nat)
    ensures WindowReport(hash, hashed, limit).brokenEvents <= FullReport(hash, hashed).brokenEvents
    ensures |hashed| <= limit ==> WindowReport(hash, hashed, limit) == FullReport(hash, hashed).(limit := limit)
    ensures WindowReport(hash, hashed, limit).valid ==> FullReport(hash, hashed).valid
  {
    SuffixCountsLess(hash, hashed, limit, |Window(hashed, limit)|);
  }
}
