/**
 The `integration_tasks` table of db.rs: idempotent creation, claiming and completion of a task, and the in-place
 repair of legacy duplicates that runs before the unique index is built. Rows are kept in id order; the id of a row
 is its position.
 */
module TaskTable {
  import opened Common

  datatype TaskStatus = Received | Executing | Executed | Rejected | Failed

  datatype Task = Task(source: string, externalId: Option<string>, action: string, request: string,
                       status: TaskStatus, response: string)

  type Table = seq<Task>

  predicate HasKey(t: Task, source: string, externalId: string) {
    t.source == source && t.externalId == Some(externalId)
  }

  /** SELECT ... WHERE source = ? AND external_task_id = ? ORDER BY id ASC LIMIT 1 */
  function Lookup(ts: Table, source: string, externalId: string): (r: Option<nat>)
    ensures r.Some? ==> r.value < |ts| && HasKey(ts[r.value], source, externalId)
                        && forall i :: 0 <= i < r.value ==> !HasKey(ts[i], source, externalId)
    ensures r.None? ==> forall i :: 0 <= i < |ts| ==> !HasKey(ts[i], source, externalId)
  {
    LookupFrom(ts, source, externalId, 0)
  }

  function LookupFrom(ts: Table, source: string, externalId: string, n: nat): (r: Option<nat>)
    requires n <= |ts|
    ensures r.Some? ==> n <= r.value < |ts| && HasKey(ts[r.value], source, externalId)
                        && forall i :: n <= i < r.value ==> !HasKey(ts[i], source, externalId)
    ensures r.None? ==> forall i :: n <= i < |ts| ==> !HasKey(ts[i], source, externalId)
    decreases |ts| - n
  {
    if n == |ts| then None
    else if HasKey(ts[n], source, externalId) then Some(n)
    else LookupFrom(ts, source, externalId, n + 1)
  }

  /** The row a creation request ends up with: the one already stored under its external id, or a new one. */
  function CreatedAt(ts: Table, source: string, externalId: Option<string>): nat {
    if externalId.Some? && Lookup(ts, source, externalId.value).Some?
    then Lookup(ts, source, externalId.value).value
    else |ts|
  }

  function Created(ts: Table, source: string, externalId: Option<string>, action: string, request: string): Table {
    if CreatedAt(ts, source, externalId) < |ts| then ts
    else ts + [Task(source, externalId, action, request, Received, "null")]
  }

  /** UPDATE ... SET status = 'executing' WHERE id = ? AND status = 'received' */
  function Claimed(ts: Table, id: nat): Table {
    if id < |ts| && ts[id].status == Received
    then ts[id := ts[id].(status := Executing, response := "executing")]
    else ts
  }

  function Completed(ts: Table, id: nat, status: TaskStatus, response: string): Table {
    if id < |ts| then ts[id := ts[id].(status := status, response := response)] else ts
  }

  /** Statuses covered by the unique index on (source, external_task_id). */
  predicate IsActive(s: TaskStatus) { s == Received || s == Executing || s == Executed }

  class IntegrationTasks {
    var tasks: Table

    constructor (initial: Table)
      ensures tasks == initial
    {
      tasks := initial;
    }

    /** create_integration_task */
    method Create(source: string, externalId: Option<string>, action: string, request: string) returns (id: nat)
      modifies this
      ensures id == CreatedAt(old(tasks), source, externalId)
      ensures tasks == Created(old(tasks), source, externalId, action, request)
      ensures id < |tasks| && tasks[id].source == source && tasks[id].externalId == externalId
      ensures tasks != old(tasks) ==>
                id == |old(tasks)| && tasks[id].status == Received
                && tasks[id].action == action && tasks[id].request == request
    {
      if externalId.Some? {
        var found := Lookup(tasks, source, externalId.value);
        if found.Some? { return found.value; }
      }
      id := |tasks|;
      tasks := tasks + [Task(source, externalId, action, request, Received, "null")];
    }

    /** mark_integration_task_executing: an already executing row is returned like a fresh claim. */
    method MarkExecuting(id: nat) returns (r: Option<Task>)
      modifies this
      ensures tasks == Claimed(old(tasks), id)
      ensures r == if id < |tasks| then Some(tasks[id]) else None
    {
      if id >= |tasks| { return None; }
      var existing := tasks[id];
      if existing.status != Received { return Some(existing); }
      tasks := tasks[id := existing.(status := Executing, response := "executing")];
      return Some(tasks[id]);
    }

    /** update_integration_task */
    method Update(id: nat, status: TaskStatus, response: string) returns (r: Option<Task>)
      modifies this
      ensures tasks == Completed(old(tasks), id, status, response)
      ensures r == if id < |tasks| then Some(tasks[id]) else None
    {
      if id >= |tasks| { return None; }
      tasks := tasks[id := tasks[id].(status := status, response := response)];
      return Some(tasks[id]);
    }
  }

  // ---------- duplicate repair ----------

  predicate SameActiveKey(a: Task, b: Task) {
    a.source == b.source && a.externalId == b.externalId && IsActive(b.status)
  }

  /** An active row with an external id for which an older active row has the same key. */
  predicate IsDuplicate(ts: Table, i: nat)
    requires i < |ts|
  {
    && ts[i].externalId.Some? && IsActive(ts[i].status)
    && exists j :: 0 <= j < i && SameActiveKey(ts[i], ts[j])
  }

  function Cleared(t: Task): Task { t.(externalId := None) }

  /** The statement read as one simultaneous update. */
  function Repaired(ts: Table): (r: Table)
    ensures |r| == |ts|
    ensures forall i :: 0 <= i < |ts| ==> r[i] == if IsDuplicate(ts, i) then Cleared(ts[i]) else ts[i]
  {
    seq(|ts|, i requires 0 <= i < |ts| => if IsDuplicate(ts, i) then Cleared(ts[i]) else ts[i])
  }

  /** SELECT COUNT(*) with the repair's condition counts these rows. */
  function Duplicates(ts: Table): set<nat> {
    set i | 0 <= i < |ts| && IsDuplicate(ts, i)
  }

  /** The table when exactly the rows of `visited` have been processed. */
  predicate PartlyRepaired(ts: Table, cur: Table, visited: set<nat>) {
    && |cur| == |ts|
    && forall i :: 0 <= i < |ts| ==> cur[i] == if i in visited && IsDuplicate(ts, i) then Cleared(ts[i]) else ts[i]
  }

  /** The oldest active row of a key is never a duplicate, so it is never cleared. */
  lemma {:induction false} CanonicalRow(ts: Table, i: nat) returns (j: nat)
    requires i < |ts| && ts[i].externalId.Some? && IsActive(ts[i].status)
    ensures j <= i && SameActiveKey(ts[i], ts[j]) && !IsDuplicate(ts, j)
    ensures IsDuplicate(ts, i) ==> j < i
  {
    if IsDuplicate(ts, i) {
      var k :| 0 <= k < i && SameActiveKey(ts[i], ts[k]);
      j := CanonicalRow(ts, k);
    } else {
      j := i;
    }
  }

  /** Evaluated on a partly repaired table, the condition gives the answer it had on the original one. */
  lemma ConditionIsStable(ts: Table, cur: Table, visited: set<nat>, i: nat)
    requires PartlyRepaired(ts, cur, visited) && i < |ts| && i !in visited
    ensures IsDuplicate(cur, i) <==> IsDuplicate(ts, i)
  {
    if IsDuplicate(ts, i) {
      var j := CanonicalRow(ts, i);
      assert SameActiveKey(cur[i], cur[j]);
    }
    if IsDuplicate(cur, i) {
      var j :| 0 <= j < i && SameActiveKey(cur[i], cur[j]);
      assert SameActiveKey(ts[i], ts[j]);
    }
  }

  predicate Visits(order: seq<nat>, i: nat) {
    exists k :: 0 <= k < |order| && order[k] == i
  }

  /** Each row is visited exactly once. */
  predicate IsVisitOrder(order: seq<nat>, n: nat) {
    && (forall k :: 0 <= k < |order| ==> order[k] < n)
    && (forall j, k :: 0 <= j < k < |order| ==> order[j] != order[k])
    && (forall i :: 0 <= i < n ==> Visits(order, i))
  }

  /** Processing one more row, judged against the table as it is by then. */
  lemma VisitKeepsPartlyRepaired(ts: Table, cur: Table, visited: set<nat>, i: nat)
    requires PartlyRepaired(ts, cur, visited) && i < |ts| && i !in visited
    ensures IsDuplicate(cur, i) <==> i in Duplicates(ts)
    ensures PartlyRepaired(ts, if IsDuplicate(cur, i) then cur[i := Cleared(cur[i])] else cur, visited + {i})
  {
    ConditionIsStable(ts, cur, visited, i);
  }

  /** The changed rows so far are the duplicates among the visited ones. */
  predicate Progress(ts: Table, cur: Table, visited: set<nat>, changed: set<nat>) {
    && PartlyRepaired(ts, cur, visited)
    && changed <= visited
    && forall i :: i in visited ==> (i in changed <==> i in Duplicates(ts))
  }

  lemma AllVisited(ts: Table, cur: Table, visited: set<nat>, changed: set<nat>)
    requires Progress(ts, cur, visited, changed) && forall i :: 0 <= i < |ts| ==> i in visited
    ensures cur == Repaired(ts) && changed == Duplicates(ts)
  {
  }

  /** One row of the UPDATE. */
  method VisitRow(a: array<Task>, i: nat, ghost ts: Table, ghost visited: set<nat>, ghost changed: set<nat>)
    returns (ch: bool, ghost visited': set<nat>, ghost changed': set<nat>)
    requires i < a.Length && Progress(ts, a[..], visited, changed) && i !in visited
    modifies a
    ensures visited' == visited + {i} && Progress(ts, a[..], visited', changed')
    ensures |changed'| == |changed| + if ch then 1 else 0
  {
    ghost var cur := a[..];
    VisitKeepsPartlyRepaired(ts, cur, visited, i);
    ch := IsDuplicate(a[..], i);
    visited' := visited + {i};
    changed' := changed;
    if ch {
      a[i] := Cleared(a[i]);
      changed' := changed + {i};
      assert a[..] == cur[i := Cleared(cur[i])];
    }
  }

  /**
   The repair UPDATE, run in place, row by row, in any visiting order, each row judged against the table as it is by
   then: the result is the simultaneous repair, and the number of rows changed is the count taken beforehand.
   */
  method RepairInPlace(a: array<Task>, order: seq<nat>) returns (repaired: nat)
    requires IsVisitOrder(order, a.Length)
    modifies a
    ensures a[..] == Repaired(old(a[..]))
    ensures repaired == |Duplicates(old(a[..]))|
  {
    ghost var ts := a[..];
    ghost var visited: set<nat> := {};
    ghost var changed: set<nat> := {};
    repaired := 0;
    var k := 0;
    while k < |order|
      invariant 0 <= k <= |order|
      invariant forall j :: 0 <= j < k ==> order[j] in visited
      invariant forall j :: k <= j < |order| ==> order[j] !in visited
      invariant Progress(ts, a[..], visited, changed)
      invariant repaired == |changed|
    {
      var ch: bool;
      ch, visited, changed := VisitRow(a, order[k], ts, visited, changed);
      if ch { repaired := repaired + 1; }
      k := k + 1;
    }
    forall i | 0 <= i < |ts| ensures i in visited {
      assert Visits(order, i);
    }
    AllVisited(ts, a[..], visited, changed);
  }

  // ---------- what the repair keeps ----------

  /** The statuses a repaired or repairing row has: received, executing or executed. */
  predicate CountsAsActive(t: Task) { t.status == Received || t.status == Executing || t.status == Executed }

  /** A row is changed exactly if it has an external id, counts as active, and an older such row has the same key. */
  lemma ChangedIsExact(ts: Table, i: nat)
    requires i < |ts|
    ensures Repaired(ts)[i] != ts[i] <==>
            && ts[i].externalId.Some? && CountsAsActive(ts[i])
            && exists j :: 0 <= j < i && ts[j].source == ts[i].source && ts[j].externalId == ts[i].externalId
                           && CountsAsActive(ts[j])
  {
    if IsDuplicate(ts, i) {
      var j :| 0 <= j < i && SameActiveKey(ts[i], ts[j]);
      assert CountsAsActive(ts[j]);
    }
    if j :| && 0 <= j < i && ts[j].source == ts[i].source && ts[j].externalId == ts[i].externalId
            && CountsAsActive(ts[j])
    {
      assert SameActiveKey(ts[i], ts[j]);
    }
  }

  /** After the repair at most one active row is left per key. */
  lemma RepairLeavesUniqueKeys(ts: Table, i: nat, j: nat)
    requires i < |ts| && j < |ts| && i != j
    ensures
      var r := Repaired(ts);
      !(r[i].externalId.Some? && CountsAsActive(r[i]) && CountsAsActive(r[j])
        && r[i].source == r[j].source && r[i].externalId == r[j].externalId)
  {
    var r := Repaired(ts);
    assert SameActiveKey(ts[i], ts[j]) && IsActive(ts[i].status) && ts[i].externalId.Some? ==>
        SameActiveKey(ts[j], ts[i]) && if j < i then IsDuplicate(ts, i) else IsDuplicate(ts, j);
  }

  lemma FirstOfKeyIsNoDuplicate(ts: Table, source: string, externalId: string, i: nat)
    requires i < |ts| && HasKey(ts[i], source, externalId)
    requires forall j :: 0 <= j < i ==> !HasKey(ts[j], source, externalId)
    ensures !IsDuplicate(ts, i)
  {
  }

  /** Lookup by external id returns the same row, with the same contents, before and after the repair. */
  lemma RepairKeepsLookup(ts: Table, source: string, externalId: string)
    ensures Lookup(Repaired(ts), source, externalId) == Lookup(ts, source, externalId)
    ensures Lookup(ts, source, externalId).Some? ==>
              Repaired(ts)[Lookup(ts, source, externalId).value] == ts[Lookup(ts, source, externalId).value]
  {
    var found, after := Lookup(ts, source, externalId), Lookup(Repaired(ts), source, externalId);
    if found.Some? {
      var i := found.value;
      FirstOfKeyIsNoDuplicate(ts, source, externalId, i);
      assert HasKey(Repaired(ts)[i], source, externalId);
    }
  }

  /** The rows the repair changes are exactly the counted ones, so the migration never rolls back; no row is dropped. */
  lemma RepairChangesExactlyTheCount(ts: Table)
    ensures |Repaired(ts)| == |ts|
    ensures (set i | 0 <= i < |ts| && Repaired(ts)[i] != ts[i]) == Duplicates(ts)
    ensures forall i :: 0 <= i < |ts| ==> Repaired(ts)[i] == ts[i].(externalId := Repaired(ts)[i].externalId)
  {
  }

  /** A second repair finds nothing to do. */
  lemma RepairIsIdempotent(ts: Table)
    ensures Repaired(Repaired(ts)) == Repaired(ts)
  {
    var r := Repaired(ts);
    forall i, j | 0 <= j < i < |ts|
      ensures !(r[i].externalId.Some? && IsActive(r[i].status) && SameActiveKey(r[i], r[j]))
    {
      RepairLeavesUniqueKeys(ts, i, j);
    }
  }
}
