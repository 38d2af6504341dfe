/**
 The `batches` table, the newest-first bounded read of its unfinished rows, and
 the recovery verdict computed from that read.
 */
module Batches {
  import opened Common

  /** A batch row: only the column the lifecycle protocol depends on. */
  datatype Row = Row(finishedAt: Option<nat>)

  type Table = map<int, Row>

  /** The row limit every handler passes to `unfinished_batches_sqlx`. */
  const READ_LIMIT: nat := 100

  function Unfinished(rows: Table): set<int> {
    set id | id in rows && rows[id].finishedAt.None?
  }

  /** A row that no longer blocks production: finished, or not in the table. */
  predicate Closed(rows: Table, id: int) {
    id in rows ==> rows[id].finishedAt.Some?
  }

  /** UPDATE batches SET finished_at = now WHERE id = ? AND finished_at IS NULL */
  function FinishRow(rows: Table, id: int, now: nat): Table {
    if id in rows && rows[id].finishedAt.None? then rows[id := Row(Some(now))] else rows
  }

  lemma FinishRowClosesOne(rows: Table, id: int, now: nat)
    ensures Unfinished(FinishRow(rows, id, now)) == Unfinished(rows) - {id}
    ensures FinishRow(rows, id, now).Keys == rows.Keys
    ensures forall k :: k in rows && rows[k].finishedAt.Some? ==> FinishRow(rows, id, now)[k] == rows[k]
  {
  }

  ghost predicate IsNewest(ids: set<int>, m: int) {
    m in ids && forall k :: k in ids ==> k <= m
  }

  lemma {:induction false} NewestExists(ids: set<int>)
    requires ids != {}
    ensures exists m :: IsNewest(ids, m)
  {
    HasMember(ids);
    var x :| x in ids;
    if ids == {x} {
      assert IsNewest(ids, x);
    } else {
      NewestExists(ids - {x});
      var m :| IsNewest(ids - {x}, m);
      assert ids == (ids - {x}) + {x};
      assert IsNewest(ids, if m < x then x else m);
    }
  }

  function NewestId(ids: set<int>): (m: int)
    requires ids != {}
    ensures IsNewest(ids, m)
  {
    NewestExists(ids);
    var m :| m in ids && forall k :: k in ids ==> k <= m;
    m
  }

  predicate Descending(s: seq<int>) { forall i, j :: 0 <= i < j < |s| ==> s[j] < s[i] }

  lemma PrependNewest(m: int, rest: seq<int>)
    requires Descending(rest) && forall k :: k in rest ==> k < m
    ensures Descending([m] + rest)
    ensures forall k :: k in [m] + rest <==> k == m || k in rest
  {
    assert forall j :: 0 <= j < |rest| ==> rest[j] in rest;
  }

  /** SELECT id ... WHERE finished_at IS NULL ORDER BY id DESC LIMIT limit */
  function NewestFirst(ids: set<int>, limit: nat): seq<int>
    decreases limit
  {
    if ids == {} || limit == 0 then [] else
      var m := NewestId(ids);
      [m] + NewestFirst(ids - {m}, limit - 1)
  }

  /** The query returns distinct ids of the set, newest first, as many as fit, and all of them when they fit. */
  lemma {:induction false} NewestFirstIsExact(ids: set<int>, limit: nat)
    ensures
      var r := NewestFirst(ids, limit);
      && |r| == (if |ids| < limit then |ids| else limit)
      && Descending(r)
      && (forall k :: k in r ==> k in ids)
      && (|ids| <= limit ==> forall k :: k in ids ==> k in r)
    decreases limit
  {
    if ids != {} && limit > 0 {
      var m := NewestId(ids);
      var rest := NewestFirst(ids - {m}, limit - 1);
      assert |ids - {m}| == |ids| - 1;
      NewestFirstIsExact(ids - {m}, limit - 1);
      PrependNewest(m, rest);
      assert NewestFirst(ids, limit) == [m] + rest;
    }
  }

  /** `UnfinishedBatchStatus`, as computed by `unfinished_batch_status_from_batches`. */
  datatype Status = Status(unfinished: seq<int>, unexpected: seq<int>, activeMissing: bool) {
    predicate IsConsistent() { unexpected == [] && !activeMissing }

    predicate RecoveryRequired() { !IsConsistent() }
  }

  function Unexpected(list: seq<int>, active: Option<int>): seq<int> {
    if list == [] then []
    else (if active == Some(list[0]) then [] else [list[0]]) + Unexpected(list[1..], active)
  }

  lemma {:induction false} UnexpectedIsExact(list: seq<int>, active: Option<int>)
    ensures Unexpected(list, active) == [] <==> forall k :: k in list ==> active == Some(k)
  {
    if list != [] {
      UnexpectedIsExact(list[1..], active);
      assert forall k :: k in list <==> k == list[0] || k in list[1..];
    }
  }

  function StatusOf(list: seq<int>, active: Option<int>): Status {
    Status(list, Unexpected(list, active), active.Some? && active.value !in list)
  }

  /** The ids a runtime with this `active_batch_id` accounts for. */
  function Expected(active: Option<int>): set<int> {
    if active.Some? then {active.value} else {}
  }

  /**
   The verdict read through a bounded window is the verdict on the whole table,
   for every window of at least two rows: recovery is required exactly when the
   set of unfinished rows is not the set the runtime accounts for.
   */
  lemma VerdictIsExact(ids: set<int>, active: Option<int>, limit: nat)
    requires limit >= 2
    ensures StatusOf(NewestFirst(ids, limit), active).RecoveryRequired() <==> ids != Expected(active)
  {
    var list := NewestFirst(ids, limit);
    NewestFirstIsExact(ids, limit);
    UnexpectedIsExact(list, active);
    if |ids| > limit {
      assert list[0] != list[1];
      assert list[0] in list && list[1] in list;
    } else {
      if StatusOf(list, active).IsConsistent() {
        forall k ensures k in ids <==> k in Expected(active) {}
      }
    }
  }

  /** A window of a single row can hide a second unfinished row. */
  lemma OneRowWindowHidesRecovery()
    ensures !StatusOf(NewestFirst({1, 2}, 1), Some(2)).RecoveryRequired()
    ensures StatusOf(NewestFirst({1, 2}, 2), Some(2)).RecoveryRequired()
  {
    assert IsNewest({1, 2}, NewestId({1, 2}));
    assert NewestId({1, 2}) == 2;
    assert NewestFirst({1, 2}, 1) == [2] + NewestFirst({1, 2} - {2}, 0);
    UnexpectedIsExact([2], Some(2));
    VerdictIsExact({1, 2}, Some(2), 2);
    assert 1 in {1, 2};
  }

  /** `ensure_no_unclosed_db_batch_except`, given the rows read and the runtime snapshot. */
  predicate NoUnclosedExcept(list: seq<int>, active: Option<int>, allowed: Option<int>) {
    var expectedActive := if allowed.Some? && active.None? then allowed else active;
    && !StatusOf(list, expectedActive).RecoveryRequired()
    && forall k :: k in list ==> active == Some(k) || allowed == Some(k)
  }

  /** The pre-start check passes exactly when the only unfinished row is the expected one. */
  lemma NoUnclosedIsExact(ids: set<int>, active: Option<int>, allowed: Option<int>)
    ensures NoUnclosedExcept(NewestFirst(ids, READ_LIMIT), active, allowed)
            <==> ids == Expected(if allowed.Some? && active.None? then allowed else active)
  {
    var expected := if allowed.Some? && active.None? then allowed else active;
    NewestFirstIsExact(ids, READ_LIMIT);
    VerdictIsExact(ids, expected, READ_LIMIT);
  }
}
