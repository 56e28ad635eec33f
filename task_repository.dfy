/**
 * `TaskRepository` (app/repository/task_repository.py) over an in-memory collection of task
 * documents in insertion order. `update_one` and `find_one` act on the first document with the
 * given `task_id`; `delete_many` and the status aggregation act on all of them.
 *
 * Times are whole seconds; the current time is a parameter.
 */
module TaskStore {
  import opened Wrappers
  import opened Tender
  import opened Api

  type StoreId = string

  /**
   * A task document: its `task_id`, the stored status string (absent in a document created
   * without one), the caller's other fields, and the fields the repository writes.
   */
  datatype TaskDoc = TaskDoc(
    taskId: string,
    status: Option<string>,
    fields: Doc,
    createdAt: Option<int>,
    updatedAt: Option<int>,
    startedAt: Option<int>,
    completedAt: Option<int>,
    error: Option<string>,
    result: Option<Doc>,
    processingTime: Option<int>)

  datatype StoredTask = StoredTask(id: StoreId, doc: TaskDoc)

  function Ids(records: seq<StoredTask>): set<StoreId> {
    set k | 0 <= k < |records| :: records[k].id
  }

  predicate DistinctIds(records: seq<StoredTask>) {
    forall i, j | 0 <= i < j < |records| :: records[i].id != records[j].id
  }

  /** The position of the first document with `task_id` equal to `taskId`. */
  function FirstTask(records: seq<StoredTask>, taskId: string): (r: Option<nat>)
    ensures r.Some? ==> r.value < |records| && records[r.value].doc.taskId == taskId
    ensures r.Some? ==> forall k | 0 <= k < r.value :: records[k].doc.taskId != taskId
    ensures r.None? ==> forall k | 0 <= k < |records| :: records[k].doc.taskId != taskId
  {
    if records == [] then None
    else if records[0].doc.taskId == taskId then Some(0)
    else match FirstTask(records[1..], taskId)
      case Some(k) => Some(k + 1)
      case None => None
  }

  /** `update_one({"task_id": taskId}, {"$set": ...})`: `change` applied to the first match only. */
  function UpdateFirst(records: seq<StoredTask>, taskId: string, change: TaskDoc -> TaskDoc): seq<StoredTask> {
    match FirstTask(records, taskId)
    case Some(i) => records[i := StoredTask(records[i].id, change(records[i].doc))]
    case None => records
  }

  /** An update by task id changes the first document with that id and no other. */
  lemma UpdateFirstTouchesOne(records: seq<StoredTask>, taskId: string, change: TaskDoc -> TaskDoc)
    ensures var after := UpdateFirst(records, taskId, change);
      && |after| == |records|
      && (forall k | 0 <= k < |records| :: after[k].id == records[k].id)
      && (forall k | 0 <= k < |records| && Some(k) != FirstTask(records, taskId) :: after[k] == records[k])
      && (FirstTask(records, taskId).Some? ==>
        var i := FirstTask(records, taskId).value; after[i].doc == change(records[i].doc))
  {
  }

  /** The fields `update_task_status` sets. */
  function StatusUpdate(d: TaskDoc, status: TaskStatus, error: Option<string>, now: int): TaskDoc {
    d.(
      status := Some(StatusValue(status)),
      updatedAt := Some(now),
      error := if error.Some? && error.value != [] then error else d.error,
      startedAt := if status == Processing then Some(now) else d.startedAt,
      completedAt := if Terminal(status) then Some(now) else d.completedAt)
  }

  /**
   * `update_task_status` stamps `started_at` only when processing starts and `completed_at` only
   * when the task finishes, writes the error only when a non-empty one is given, and leaves the
   * result alone.
   */
  lemma StatusUpdateStamps(d: TaskDoc, status: TaskStatus, error: Option<string>, now: int)
    ensures var e := StatusUpdate(d, status, error, now);
      && e.taskId == d.taskId && e.fields == d.fields && e.result == d.result && e.createdAt == d.createdAt
      && e.status == Some(StatusValue(status)) && e.updatedAt == Some(now)
      && (status == Processing ==> e.startedAt == Some(now))
      && (status != Processing ==> e.startedAt == d.startedAt)
      && (Terminal(status) ==> e.completedAt == Some(now))
      && (!Terminal(status) ==> e.completedAt == d.completedAt)
      && (e.error != d.error ==> error.Some? && error.value != [] && e.error == error)
  {
  }

  /** The fields `complete_task` sets. */
  function Completion(d: TaskDoc, result: Doc, processingTime: int, now: int): TaskDoc {
    d.(status := Some(StatusValue(Completed)), result := Some(result), completedAt := Some(now),
      updatedAt := Some(now), processingTime := Some(processingTime))
  }

  /** The fields `fail_task` sets; the result is not among them. */
  function Failing(d: TaskDoc, error: string, processingTime: int, now: int): TaskDoc {
    d.(status := Some(StatusValue(Failed)), error := Some(error), completedAt := Some(now),
      updatedAt := Some(now), processingTime := Some(processingTime))
  }

  /** A failed task keeps whatever result it had; a completed one keeps whatever error it had. */
  lemma FinishingKeepsTheOtherOutcome(d: TaskDoc, result: Doc, error: string, processingTime: int, now: int)
    ensures Failing(d, error, processingTime, now).result == d.result
    ensures Completion(d, result, processingTime, now).error == d.error
    ensures Completion(d, result, processingTime, now).status != Failing(d, error, processingTime, now).status
  {
    StatusValueInjective(Completed, Failed);
  }

  /** Whether `find_active_tasks` selects a document: status "pending" or "processing". */
  predicate IsActive(d: TaskDoc) {
    d.status == Some(StatusValue(Pending)) || d.status == Some(StatusValue(Processing))
  }

  /** The active documents, in collection order. */
  function Active(records: seq<StoredTask>): (r: seq<TaskDoc>)
    ensures |r| <= |records|
    ensures forall k | 0 <= k < |r| :: IsActive(r[k])
    decreases |records|
  {
    if records == [] then []
    else
      var last := records[|records| - 1].doc;
      Active(records[..|records| - 1]) + (if IsActive(last) then [last] else [])
  }

  /** A document is listed as active exactly when it is stored and active. */
  lemma {:induction false} ActiveMembers(records: seq<StoredTask>, d: TaskDoc)
    ensures d in Active(records) <==> IsActive(d) && exists k | 0 <= k < |records| :: records[k].doc == d
    decreases |records|
  {
    if records != [] {
      var front := records[..|records| - 1];
      ActiveMembers(front, d);
      if exists k | 0 <= k < |records| :: records[k].doc == d {
        var k :| 0 <= k < |records| && records[k].doc == d;
        if k < |front| {
          assert front[k].doc == d;
        }
      }
      if exists k | 0 <= k < |front| :: front[k].doc == d {
        var k :| 0 <= k < |front| && front[k].doc == d;
        assert records[k].doc == d;
      }
    }
  }

  /** The cutoff `now - timedelta(hours=hours)`. */
  function Cutoff(hours: int, now: int): int {
    now - hours * 3600
  }

  /** Whether `delete_old_tasks` removes a document: finished, with `completed_at` before the cutoff. */
  predicate IsOld(d: TaskDoc, cutoff: int) {
    && (d.status == Some(StatusValue(Completed)) || d.status == Some(StatusValue(Failed)))
    && d.completedAt.Some? && d.completedAt.value < cutoff
  }

  /** The documents `delete_old_tasks` keeps, in collection order. */
  function Retained(records: seq<StoredTask>, cutoff: int): (r: seq<StoredTask>)
    ensures |r| <= |records|
    ensures forall k | 0 <= k < |r| :: !IsOld(r[k].doc, cutoff)
    decreases |records|
  {
    if records == [] then []
    else
      var last := records[|records| - 1];
      Retained(records[..|records| - 1], cutoff) + (if IsOld(last.doc, cutoff) then [] else [last])
  }

  /** A stored document survives exactly when it is not old; unfinished and recent ones survive. */
  lemma {:induction false} RetainedMembers(records: seq<StoredTask>, cutoff: int, t: StoredTask)
    ensures t in Retained(records, cutoff) <==> t in records && !IsOld(t.doc, cutoff)
    decreases |records|
  {
    if records != [] {
      var front := records[..|records| - 1];
      RetainedMembers(front, cutoff, t);
      assert records == front + [records[|records| - 1]];
    }
  }

  /** A document that is not finished, or finished at or after the cutoff, is never removed. */
  lemma UnfinishedNotOld(d: TaskDoc, cutoff: int)
    requires IsActive(d) || (d.completedAt.Some? && d.completedAt.value >= cutoff)
    ensures !IsOld(d, cutoff)
  {
    StatusValueInjective(Pending, Completed);
    StatusValueInjective(Pending, Failed);
    StatusValueInjective(Processing, Completed);
    StatusValueInjective(Processing, Failed);
  }

  /** The per-status document counts (`get_task_stats`), a missing status counted under `None`. */
  function Tally(records: seq<StoredTask>): map<Option<string>, nat>
    decreases |records|
  {
    if records == [] then map[]
    else
      var m := Tally(records[..|records| - 1]);
      var s := records[|records| - 1].doc.status;
      m[s := if s in m then m[s] + 1 else 1]
  }

  /** The number of documents with status `s`. */
  function CountStatus(records: seq<StoredTask>, s: Option<string>): (n: nat)
    ensures n <= |records|
    decreases |records|
  {
    if records == [] then 0
    else CountStatus(records[..|records| - 1], s) + (if records[|records| - 1].doc.status == s then 1 else 0)
  }

  /** Each status that occurs has its own count, and no other status appears. */
  lemma {:induction false} TallyCounts(records: seq<StoredTask>, s: Option<string>)
    ensures s in Tally(records) <==> CountStatus(records, s) > 0
    ensures s in Tally(records) ==> Tally(records)[s] == CountStatus(records, s)
    decreases |records|
  {
    if records != [] {
      TallyCounts(records[..|records| - 1], s);
    }
  }

  /** The sum of the values of a map. */
  ghost function Total(m: map<Option<string>, nat>): nat
    decreases |m.Keys|
  {
    if m == map[] then 0
    else
      var k :| k in m;
      m[k] + Total(m - {k})
  }

  /** The sum does not depend on which key is taken first. */
  lemma {:induction false} TotalRemove(m: map<Option<string>, nat>, k: Option<string>)
    requires k in m
    ensures Total(m) == m[k] + Total(m - {k})
    decreases |m.Keys|
  {
    var j :| j in m && Total(m) == m[j] + Total(m - {j});
    if j != k {
      assert |(m - {j}).Keys| < |m.Keys| by {
        assert (m - {j}).Keys == m.Keys - {j};
      }
      assert |(m - {k}).Keys| < |m.Keys| by {
        assert (m - {k}).Keys == m.Keys - {k};
      }
      TotalRemove(m - {j}, k);
      TotalRemove(m - {k}, j);
      assert m - {j} - {k} == m - {k} - {j};
    }
  }

  /** The counts add up to the number of documents in the collection. */
  lemma {:induction false} TallyTotal(records: seq<StoredTask>)
    ensures Total(Tally(records)) == |records|
    decreases |records|
  {
    if records != [] {
      var front := records[..|records| - 1];
      var m := Tally(front);
      var s := records[|records| - 1].doc.status;
      var m' := Tally(records);
      TallyTotal(front);
      TotalRemove(m', s);
      assert m' - {s} == m - {s};
      if s in m {
        TotalRemove(m, s);
      } else {
        assert m - {s} == m;
      }
    }
  }

  /** The task store. */
  class TaskRepository {
    var records: seq<StoredTask>

    predicate Valid()
      reads this
    {
      DistinctIds(records)
    }

    constructor()
      ensures Valid() && records == []
    {
      records := [];
    }

    /** `create_task`: stamp both times and insert under `freshId`, the id the database assigns. */
    method CreateTask(data: TaskDoc, now: int, freshId: StoreId) returns (id: StoreId)
      requires Valid() && freshId !in Ids(records)
      modifies this
      ensures Valid()
      ensures id == freshId
      ensures records == old(records) + [StoredTask(freshId, data.(createdAt := Some(now), updatedAt := Some(now)))]
    {
      records := records + [StoredTask(freshId, data.(createdAt := Some(now), updatedAt := Some(now)))];
      id := freshId;
      assert forall k | 0 <= k < |old(records)| :: old(records)[k].id in Ids(old(records));
    }

    /** `update_task_status`. */
    method UpdateTaskStatus(taskId: string, status: TaskStatus, error: Option<string>, now: int)
      requires Valid()
      modifies this
      ensures Valid()
      ensures records == UpdateFirst(old(records), taskId, d => StatusUpdate(d, status, error, now))
    {
      UpdateFirstTouchesOne(records, taskId, d => StatusUpdate(d, status, error, now));
      var i := FirstTask(records, taskId);
      if i.Some? {
        var k := i.value;
        records := records[k := StoredTask(records[k].id, StatusUpdate(records[k].doc, status, error, now))];
      }
    }

    /** `complete_task`. */
    method CompleteTask(taskId: string, result: Doc, processingTime: int, now: int)
      requires Valid()
      modifies this
      ensures Valid()
      ensures records == UpdateFirst(old(records), taskId, d => Completion(d, result, processingTime, now))
    {
      UpdateFirstTouchesOne(records, taskId, d => Completion(d, result, processingTime, now));
      var i := FirstTask(records, taskId);
      if i.Some? {
        var k := i.value;
        records := records[k := StoredTask(records[k].id, Completion(records[k].doc, result, processingTime, now))];
      }
    }

    /** `fail_task`. */
    method FailTask(taskId: string, error: string, processingTime: int, now: int)
      requires Valid()
      modifies this
      ensures Valid()
      ensures records == UpdateFirst(old(records), taskId, d => Failing(d, error, processingTime, now))
    {
      UpdateFirstTouchesOne(records, taskId, d => Failing(d, error, processingTime, now));
      var i := FirstTask(records, taskId);
      if i.Some? {
        var k := i.value;
        records := records[k := StoredTask(records[k].id, Failing(records[k].doc, error, processingTime, now))];
      }
    }

    /** `find_by_task_id`: the first document with that task id. */
    function FindByTaskId(taskId: string): (r: Option<TaskDoc>)
      reads this
      ensures r.Some? <==> exists k | 0 <= k < |records| :: records[k].doc.taskId == taskId
      ensures r.Some? ==> r.value.taskId == taskId
    {
      match FirstTask(records, taskId)
      case Some(i) => Some(records[i].doc)
      case None => None
    }

    /** `find_active_tasks`: the pending and processing documents, in collection order. */
    method FindActiveTasks() returns (results: seq<TaskDoc>)
      ensures results == Active(records)
    {
      results := [];
      for k := 0 to |records|
        invariant results == Active(records[..k])
      {
        assert records[..k + 1][..k] == records[..k];
        var document := records[k].doc;
        if IsActive(document) {
          results := results + [document];
        }
      }
      assert records[..|records|] == records;
    }

    /** `delete_old_tasks`: remove the finished documents older than the cutoff; return how many. */
    method DeleteOldTasks(hours: int, now: int) returns (deleted: nat)
      requires Valid()
      modifies this
      ensures Valid()
      ensures records == Retained(old(records), Cutoff(hours, now))
      ensures deleted == |old(records)| - |records|
    {
      var cutoff := Cutoff(hours, now);
      var kept: seq<StoredTask> := [];
      for k := 0 to |records|
        invariant kept == Retained(records[..k], cutoff)
      {
        assert records[..k + 1][..k] == records[..k];
        if !IsOld(records[k].doc, cutoff) {
          kept := kept + [records[k]];
        }
      }
      assert records[..|records|] == records;
      RetainedDistinct(records, cutoff);
      deleted := |records| - |kept|;
      records := kept;
    }

    /** `get_task_stats`: the number of documents per status. */
    method GetTaskStats() returns (stats: map<Option<string>, nat>)
      ensures stats == Tally(records)
    {
      stats := map[];
      for k := 0 to |records|
        invariant stats == Tally(records[..k])
      {
        assert records[..k + 1][..k] == records[..k];
        var s := records[k].doc.status;
        stats := stats[s := if s in stats then stats[s] + 1 else 1];
      }
      assert records[..|records|] == records;
    }
  }

  /** Deleting documents keeps the remaining store ids distinct. */
  lemma RetainedDistinct(records: seq<StoredTask>, cutoff: int)
    requires DistinctIds(records)
    ensures DistinctIds(Retained(records, cutoff))
  {
    var r := Retained(records, cutoff);
    forall i, j | 0 <= i < j < |r| ensures r[i].id != r[j].id {
      RetainedOrder(records, cutoff, i, j);
    }
  }

  /** Two kept documents come from two positions, in the same order. */
  lemma {:induction false} RetainedOrder(records: seq<StoredTask>, cutoff: int, i: nat, j: nat)
    requires i < j < |Retained(records, cutoff)|
    ensures exists a, b | 0 <= a < b < |records| ::
      Retained(records, cutoff)[i] == records[a] && Retained(records, cutoff)[j] == records[b]
    decreases |records|
  {
    var front := records[..|records| - 1];
    var rf := Retained(front, cutoff);
    if j < |rf| {
      RetainedOrder(front, cutoff, i, j);
      var a, b :| 0 <= a < b < |front| && rf[i] == front[a] && rf[j] == front[b];
      assert records[a] == front[a] && records[b] == front[b];
    } else {
      RetainedMembers(front, cutoff, rf[i]);
      var a :| 0 <= a < |front| && front[a] == rf[i];
      assert records[a] == front[a];
      assert Retained(records, cutoff)[j] == records[|records| - 1];
    }
  }
}
