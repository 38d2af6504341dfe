/**
 `execute_integration_task` (api_integrations.rs) as a program over the task table, any number of requests interleaved,
 any call failing: a task is executed at most once as long as create-to-claim sections of one key do not overlap.
 */
module TaskRuns {
  import opened Common
  import opened TaskTable

  datatype Outcome = Replayed(task: Task) | Conflicted | Finished(task: Task) | Errored

  datatype Pc = TCreate | TClaim | TExecute | TRecord(success: bool) | TDone(outcome: Outcome)

  datatype Request = Request(
    source: string, externalId: Option<string>, action: string, payload: string, pc: Pc, id: nat)

  /**
   Whether the call succeeded, whether a failed one took effect all the same, whether the action succeeded, and what a
   failed action is recorded as.
   */
  datatype Choice = Choice(ok: bool, applied: bool, success: bool, serverError: bool, response: string)

  datatype State = State(ts: Table, rs: map<nat, Request>, executions: seq<nat>)

  /** `ensure_integration_task_payload_matches` */
  predicate PayloadMatches(t: Task, r: Request) {
    t.action == r.action && t.request == r.payload
  }

  /** One atomic section: the new table, the new request, and whether the action ran. */
  function Step(ts: Table, r: Request, c: Choice): (Table, Request, bool) {
    match r.pc
    case TCreate =>
      var ts' := Created(ts, r.source, r.externalId, r.action, r.payload);
      if !c.ok then Failure(ts, ts', r, c) else
        var id := CreatedAt(ts, r.source, r.externalId);
        var t := ts'[id];
        var next := if !PayloadMatches(t, r) then TDone(Conflicted)
                    else if t.status != Received then TDone(Replayed(t)) else TClaim;
        (ts', r.(id := id, pc := next), false)
    case TClaim =>
      var ts' := Claimed(ts, r.id);
      if !c.ok || r.id >= |ts| then Failure(ts, ts', r, c) else
        var t := ts'[r.id];
        (ts', r.(pc := if t.status != Executing then TDone(Replayed(t)) else TExecute), false)
    case TExecute =>
      (ts, r.(pc := TRecord(c.success)), true)
    case TRecord(success) =>
      var status := if success then Executed else if c.serverError then Failed else Rejected;
      var ts' := Completed(ts, r.id, status, c.response);
      if !c.ok || r.id >= |ts| then Failure(ts, ts', r, c) else
        (ts', r.(pc := TDone(if success then Finished(ts'[r.id]) else Errored)), false)
    case TDone(_) => (ts, r, false)
  }

  /** A call that reports failure: its table change may or may not have happened. */
  function Failure(ts: Table, ts': Table, r: Request, c: Choice): (Table, Request, bool) {
    (if c.applied then ts' else ts, r.(pc := TDone(Errored)), false)
  }

  datatype Label = Spawn(rid: nat, request: Request) | Act(rid: nat, choice: Choice)

  predicate Enabled(s: State, a: Label) {
    match a
    case Spawn(rid, request) => rid !in s.rs && request.pc == TCreate
    case Act(rid, _) => rid in s.rs
  }

  function Next(s: State, a: Label): State
    requires Enabled(s, a)
  {
    match a
    case Spawn(rid, request) => s.(rs := s.rs[rid := request])
    case Act(rid, c) =>
      var (ts', r', ran) := Step(s.ts, s.rs[rid], c);
      State(ts', s.rs[rid := r'], if ran then s.executions + [r'.id] else s.executions)
  }

  predicate SameKey(a: Request, b: Request) {
    a.externalId.Some? && a.source == b.source && a.externalId == b.externalId
  }

  /** A request is created only while no other request with its key is between creation and claim. */
  predicate NoOverlap(s: State, a: Label)
    requires Enabled(s, a)
  {
    a.Act? && s.rs[a.rid].pc == TCreate ==>
      forall other :: other in s.rs && other != a.rid && s.rs[other].pc == TClaim ==> !SameKey(s.rs[a.rid], s.rs[other])
  }

  predicate IsRun(run: seq<State>, labels: seq<Label>) {
    && |run| == |labels| + 1
    && run[0].rs == map[] && run[0].executions == []
    && forall i :: 0 <= i < |labels| ==> Enabled(run[i], labels[i]) && run[i + 1] == Next(run[i], labels[i])
  }

  predicate IsOrderlyRun(run: seq<State>, labels: seq<Label>) {
    IsRun(run, labels) && forall i :: 0 <= i < |labels| ==> NoOverlap(run[i], labels[i])
  }

  // ---------- what every orderly run keeps ----------

  predicate Holding(r: Request) { r.pc == TClaim || r.pc == TExecute || r.pc.TRecord? }

  /** The row is the one its key leads to. */
  predicate IsReachedByKey(ts: Table, id: nat) {
    id < |ts| && (ts[id].externalId.Some? ==> Lookup(ts, ts[id].source, ts[id].externalId.value) == Some(id))
  }

  predicate RequestOk(s: State, r: Request) {
    Holding(r) ==>
      && IsReachedByKey(s.ts, r.id)
      && s.ts[r.id].source == r.source && s.ts[r.id].externalId == r.externalId
      && (r.pc == TClaim ==> s.ts[r.id].status == Received)
      && (r.pc == TExecute || r.pc.TRecord? ==> s.ts[r.id].status == Executing)
      && (r.pc == TExecute ==> r.id !in s.executions)
  }

  predicate PairOk(a: Request, b: Request) {
    Holding(a) && Holding(b) ==> a.id != b.id
  }

  /** Executed rows are distinct, are past `received`, and are the ones their keys lead to. */
  predicate LogOk(s: State) {
    && (forall i, j :: 0 <= i < j < |s.executions| ==> s.executions[i] != s.executions[j])
    && (forall i :: 0 <= i < |s.executions| ==>
          IsReachedByKey(s.ts, s.executions[i]) && s.ts[s.executions[i]].status != Received)
  }

  predicate Inv(s: State) {
    && LogOk(s)
    && (forall rid :: rid in s.rs ==> RequestOk(s, s.rs[rid]))
    && (forall rid, other :: rid in s.rs && other in s.rs && rid != other ==> PairOk(s.rs[rid], s.rs[other]))
  }

  // ---------- table changes ----------

  /** Rows keep their keys, and a row past `received` never returns to it. */
  predicate Evolves(ts: Table, ts': Table) {
    && |ts| <= |ts'|
    && forall i :: 0 <= i < |ts| ==>
         && ts'[i].source == ts[i].source && ts'[i].externalId == ts[i].externalId
         && (ts[i].status != Received ==> ts'[i].status != Received)
  }

  lemma ReachedStays(ts: Table, ts': Table, id: nat)
    requires Evolves(ts, ts') && IsReachedByKey(ts, id)
    ensures IsReachedByKey(ts', id)
  {
    if ts[id].externalId.Some? {
      var source, ext := ts[id].source, ts[id].externalId.value;
      var found := Lookup(ts', source, ext);
      assert HasKey(ts'[id], source, ext);
      assert forall i :: 0 <= i < id ==> HasKey(ts'[i], source, ext) == HasKey(ts[i], source, ext);
    }
  }

  lemma StepEvolves(ts: Table, r: Request, c: Choice)
    ensures Evolves(ts, Step(ts, r, c).0)
  {
  }

  /** A step changes at most the row its request holds, and appends at most one row. */
  lemma StepTouchesOneRow(ts: Table, r: Request, c: Choice, i: nat)
    requires i < |ts| && (Holding(r) ==> i != r.id)
    ensures Step(ts, r, c).0[i] == ts[i]
  {
  }

  /** A request that starts holding a row found it in `received`, under its own key, as the row its key leads to. */
  lemma CreateFinds(ts: Table, r: Request, c: Choice)
    requires r.pc == TCreate && Step(ts, r, c).1.pc == TClaim
    ensures
      var (ts', r', _) := Step(ts, r, c);
      && IsReachedByKey(ts', r'.id) && ts'[r'.id].status == Received
      && ts'[r'.id].source == r'.source && ts'[r'.id].externalId == r'.externalId
      && r'.source == r.source && r'.externalId == r.externalId
      && (r'.id < |ts| ==> r.externalId.Some? && ts'[r'.id] == ts[r'.id])
  {
    var (ts', r', _) := Step(ts, r, c);
    if r'.id == |ts| && r.externalId.Some? {
      assert HasKey(ts'[r'.id], r.source, r.externalId.value);
      assert forall i :: 0 <= i < |ts| ==> ts'[i] == ts[i];
    }
  }

  // ---------- one step ----------

  lemma OtherStaysOk(s: State, rid: nat, c: Choice, other: nat)
    requires Inv(s) && rid in s.rs && other in s.rs && rid != other
    ensures RequestOk(Next(s, Act(rid, c)), s.rs[other])
  {
    var r, m := s.rs[rid], s.rs[other];
    assert PairOk(r, m) && RequestOk(s, m) && RequestOk(s, r);
    StepEvolves(s.ts, r, c);
    if Holding(m) {
      ReachedStays(s.ts, Step(s.ts, r, c).0, m.id);
      StepTouchesOneRow(s.ts, r, c, m.id);
    }
  }

  lemma SelfStaysOk(s: State, rid: nat, c: Choice)
    requires Inv(s) && rid in s.rs
    ensures RequestOk(Next(s, Act(rid, c)), Next(s, Act(rid, c)).rs[rid])
  {
    var r := s.rs[rid];
    assert RequestOk(s, r);
    StepEvolves(s.ts, r, c);
    if Holding(r) {
      ReachedStays(s.ts, Step(s.ts, r, c).0, r.id);
    } else if r.pc == TCreate && Step(s.ts, r, c).1.pc == TClaim {
      CreateFinds(s.ts, r, c);
    }
  }

  lemma LogStaysOk(s: State, rid: nat, c: Choice)
    requires Inv(s) && rid in s.rs
    ensures LogOk(Next(s, Act(rid, c)))
  {
    var r, s' := s.rs[rid], Next(s, Act(rid, c));
    assert RequestOk(s, r);
    StepEvolves(s.ts, r, c);
    forall i | 0 <= i < |s.executions|
      ensures IsReachedByKey(s'.ts, s.executions[i]) && s'.ts[s.executions[i]].status != Received
    {
      ReachedStays(s.ts, s'.ts, s.executions[i]);
    }
  }

  lemma PairStaysOk(s: State, rid: nat, c: Choice, other: nat)
    requires Inv(s) && rid in s.rs && other in s.rs && rid != other && NoOverlap(s, Act(rid, c))
    ensures PairOk(Next(s, Act(rid, c)).rs[rid], s.rs[other]) && PairOk(s.rs[other], Next(s, Act(rid, c)).rs[rid])
  {
    var r, m := s.rs[rid], s.rs[other];
    var r' := Step(s.ts, r, c).1;
    assert PairOk(r, m) && RequestOk(s, m);
    if r.pc == TCreate && r'.pc == TClaim && Holding(m) {
      CreateFinds(s.ts, r, c);
      assert m.pc == TClaim ==> !SameKey(r, m);
    }
  }

  lemma StepKeepsInv(s: State, a: Label)
    requires Inv(s) && Enabled(s, a) && NoOverlap(s, a)
    ensures Inv(Next(s, a))
  {
    if a.Act? {
      var s' := Next(s, a);
      LogStaysOk(s, a.rid, a.choice);
      SelfStaysOk(s, a.rid, a.choice);
      forall other | other in s.rs && other != a.rid
        ensures RequestOk(s', s'.rs[other]) && PairOk(s'.rs[a.rid], s'.rs[other]) && PairOk(s'.rs[other], s'.rs[a.rid])
      {
        OtherStaysOk(s, a.rid, a.choice, other);
        PairStaysOk(s, a.rid, a.choice, other);
      }
    }
  }

  lemma {:induction false} RunKeepsInv(run: seq<State>, labels: seq<Label>, k: nat)
    requires IsOrderlyRun(run, labels) && k < |run|
    ensures Inv(run[k])
  {
    if k > 0 {
      var before, a := run[k - 1], labels[k - 1];
      assert run[k] == Next(before, a);
      RunKeepsInv(run, labels, k - 1);
      StepKeepsInv(before, a);
    }
  }

  // ---------- theorems ----------

  /**
   In every run whose create-to-claim sections of one key do not overlap, no row is executed twice, and no two executed
   rows carry the same (source, external id).
   */
  lemma TasksRunAtMostOnce(run: seq<State>, labels: seq<Label>, k: nat, i: nat, j: nat)
    requires IsOrderlyRun(run, labels) && k < |run| && i < j < |run[k].executions|
    ensures
      var s := run[k];
      var a, b := s.executions[i], s.executions[j];
      && a != b && a < |s.ts| && b < |s.ts|
      && !(s.ts[a].externalId.Some? && s.ts[a].source == s.ts[b].source && s.ts[a].externalId == s.ts[b].externalId)
  {
    RunKeepsInv(run, labels, k);
    var s := run[k];
    assert IsReachedByKey(s.ts, s.executions[i]) && IsReachedByKey(s.ts, s.executions[j]);
  }

  /**
   A request whose external id is already stored: with the same payload it returns the stored record, whatever its
   status past `received`, and with another payload it conflicts; either way the table and the device are left alone.
   */
  lemma ReplayOrConflictChangesNothing(ts: Table, r: Request, c: Choice)
    requires r.pc == TCreate && c.ok && r.externalId.Some? && Lookup(ts, r.source, r.externalId.value).Some?
    ensures
      var id := Lookup(ts, r.source, r.externalId.value).value;
      var (ts', r', ran) := Step(ts, r, c);
      && ts' == ts && !ran && r'.id == id
      && (!PayloadMatches(ts[id], r) ==> r'.pc == TDone(Conflicted))
      && (PayloadMatches(ts[id], r) && ts[id].status != Received ==> r'.pc == TDone(Replayed(ts[id])))
      && (PayloadMatches(ts[id], r) && ts[id].status == Received ==> r'.pc == TClaim)
  {
  }

  /** A stored key with another action, or with another payload, is a conflict, whatever the status of the row. */
  lemma DifferentRequestConflicts(ts: Table, r: Request, c: Choice)
    requires r.pc == TCreate && c.ok && r.externalId.Some? && Lookup(ts, r.source, r.externalId.value).Some?
    ensures
      var t := ts[Lookup(ts, r.source, r.externalId.value).value];
      Step(ts, r, c).1.pc == TDone(Conflicted) <==> t.action != r.action || t.request != r.payload
  {
  }

  /** A claim leads to the execution of a row that is received or already executing; any other is returned as it is. */
  lemma ClaimIsExact(ts: Table, r: Request, c: Choice)
    requires r.pc == TClaim && c.ok && r.id < |ts|
    ensures
      var (ts', r', ran) := Step(ts, r, c);
      && !ran && |ts'| == |ts| && (forall i :: 0 <= i < |ts| && i != r.id ==> ts'[i] == ts[i])
      && (ts[r.id].status == Received || ts[r.id].status == Executing ==>
            r'.pc == TExecute && ts'[r.id].status == Executing)
      && (ts[r.id].status != Received ==> ts'[r.id] == ts[r.id])
      && (ts[r.id].status != Received && ts[r.id].status != Executing ==> r'.pc == TDone(Replayed(ts[r.id])))
  {
  }

  /** A finished action is stored, and nothing else of the row or of other rows changes. */
  lemma OutcomeIsStored(ts: Table, r: Request, c: Choice)
    requires r.pc.TRecord? && c.ok && r.id < |ts|
    ensures
      var (ts', r', ran) := Step(ts, r, c);
      && !ran && |ts'| == |ts| && (forall i :: 0 <= i < |ts| && i != r.id ==> ts'[i] == ts[i])
      && ts'[r.id].source == ts[r.id].source && ts'[r.id].externalId == ts[r.id].externalId
      && ts'[r.id].action == ts[r.id].action && ts'[r.id].request == ts[r.id].request
      && ts'[r.id].response == c.response
      && (r.pc.success ==> ts'[r.id].status == Executed && r'.pc == TDone(Finished(ts'[r.id])))
      && (!r.pc.success && c.serverError ==> ts'[r.id].status == Failed && r'.pc == TDone(Errored))
      && (!r.pc.success && !c.serverError ==> ts'[r.id].status == Rejected && r'.pc == TDone(Errored))
  {
  }

  /** What is stored is decided by how the action ended, not by how storing it went. */
  lemma ActionDecidesStatus(ts: Table, r: Request, ended: Choice, stored: Choice)
    requires r.pc == TExecute && stored.ok && r.id < |ts|
    ensures
      var (ts1, r1, ran1) := Step(ts, r, ended);
      var (ts2, r2, ran2) := Step(ts1, r1, stored);
      && ran1 && !ran2 && ts1 == ts && (ts2[r.id].status == Executed <==> ended.success)
      && (r2.pc == TDone(Errored) <==> !ended.success)
  {
  }

  function RaceRequest(pc: Pc): Request { Request("ainas", Some("x"), "start", "{}", pc, 0) }

  function RaceState(k: nat): State {
    var t := Task("ainas", Some("x"), "start", "{}", Received, "null");
    var ts: Table := if k < 3 then [] else if k < 5 then [t] else [t.(status := Executing, response := "executing")];
    var pc0 := if k < 3 then TCreate else if k < 5 then TClaim else if k < 7 then TExecute else TRecord(true);
    var pc1 := if k < 4 then TCreate else if k < 6 then TClaim else if k < 8 then TExecute else TRecord(true);
    var rs := if k == 0 then map[] else if k == 1 then map[0 := RaceRequest(pc0)]
              else map[0 := RaceRequest(pc0), 1 := RaceRequest(pc1)];
    State(ts, rs, if k < 7 then [] else if k < 8 then [0] else [0, 0])
  }

  function RaceLabel(k: nat): Label {
    if k < 2 then Spawn(k, RaceRequest(TCreate)) else Act(k % 2, Choice(true, true, true, false, ""))
  }

  lemma RaceStep(k: nat)
    requires k < 8
    ensures Enabled(RaceState(k), RaceLabel(k)) && Next(RaceState(k), RaceLabel(k)) == RaceState(k + 1)
  {
    var ts := RaceState(k).ts;
    var found := Lookup(ts, "ainas", "x");
    assert ts != [] ==> HasKey(ts[0], "ainas", "x");
    assert found == if ts == [] then None else Some(0);
    assert Next(RaceState(k), RaceLabel(k)).rs == RaceState(k + 1).rs;
  }

  /** Overlapping requests with one key can both execute: the second claim gets the executing row back as its own. */
  lemma OverlappingClaimsExecuteTwice()
    ensures exists run: seq<State>, labels: seq<Label> :: IsRun(run, labels) && run[|run| - 1].executions == [0, 0]
  {
    var run, labels := seq(9, k requires k >= 0 => RaceState(k)), seq(8, k requires k >= 0 => RaceLabel(k));
    forall i | 0 <= i < |labels| ensures Enabled(run[i], labels[i]) && run[i + 1] == Next(run[i], labels[i]) {
      RaceStep(i);
    }
    assert IsRun(run, labels) && run[|run| - 1].executions == [0, 0];
  }
}
