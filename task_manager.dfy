/**
 * `TaskManager` (app/services/task_manager.py): the in-memory table of parsing tasks and their
 * life cycle. A task is created pending; its run marks it processing, then completed with a
 * summary of the parsed tender or failed with the error message. Finished tasks can be read back
 * and are evicted once old enough; the delete endpoint (app/api/v1/endpoints/parser.py) removes a
 * task on request.
 *
 * The lock only serialises access to the table, so every critical section is one atomic step
 * here. A run is three such steps: the processing mark, then (after the parse and the save, during
 * which other operations may run) the completion or the failure record. Times are whole seconds,
 * the current time is a parameter, and a task id is a parameter that must be fresh (the source
 * draws a random UUID).
 */
module TaskManagement {
  import opened Wrappers
  import opened Tender
  import opened Api
  import Repository

  /** The `result` a completed task carries. */
  datatype TaskSummary = TaskSummary(
    tenderId: string,
    tenderNumber: string,
    itemsCount: nat,
    documentsCount: nat,
    data: Doc)

  /** One entry of the task table. */
  datatype Task = Task(
    url: string,
    status: TaskStatus,
    createdAt: int,
    updatedAt: int,
    metadata: Option<Doc>,
    result: Option<TaskSummary>,
    error: Option<string>,
    completedAt: Option<int>,
    processingTime: Option<int>)

  /** The message of the `TypeError` that `len(None)` raises. */
  const NoneLengthMessage: string := "object of type 'NoneType' has no len()"

  /** A fresh task: pending, with no result, error or completion time. */
  function NewTask(url: string, metadata: Option<Doc>, now: int): Task {
    Task(url, Pending, now, now, metadata, None, None, None, None)
  }

  /** `_update_task_status` on a present task: the status and the update time. */
  function WithStatus(t: Task, status: TaskStatus, now: int): Task {
    t.(status := status, updatedAt := now)
  }

  /** The success update of a run that started at `start`. */
  function Finished(t: Task, summary: TaskSummary, start: int, now: int): Task {
    t.(status := Completed, result := Some(summary), completedAt := Some(now), updatedAt := now,
      processingTime := Some(now - start))
  }

  /** The failure update of a run that started at `start`; the result is left as it is. */
  function FailedWith(t: Task, message: string, start: int, now: int): Task {
    t.(status := Failed, error := Some(message), completedAt := Some(now), updatedAt := now,
      processingTime := Some(now - start))
  }

  /**
   * What a run produces from the parse outcome and the id the tender was saved under: the summary,
   * or the message of the exception raised (by the parse, or by `len` on absent items).
   */
  function RunOutcome(parsed: Result<TenderData, string>, tenderId: string): (r: Result<TaskSummary, string>)
    ensures r.Success? <==> parsed.Success? && parsed.value.items.Some?
    ensures r.Success? ==>
      && r.value.tenderId == tenderId
      && r.value.tenderNumber == parsed.value.tenderNumber
      && r.value.itemsCount == |parsed.value.items.value|
      && r.value.documentsCount == |parsed.value.attachments|
      && r.value.data == ModelDump(parsed.value)
    ensures parsed.Failure? ==> r == Failure(parsed.error)
  {
    match parsed
    case Failure(message) => Failure(message)
    case Success(d) =>
      match d.items
      case None => Failure(NoneLengthMessage)
      case Some(items) =>
        Success(TaskSummary(tenderId, d.tenderNumber, |items|, |d.attachments|, ModelDump(d)))
  }

  /** The record a run writes when it ends at `now`: the summary, or the error message. */
  function Finalized(t: Task, outcome: Result<TaskSummary, string>, start: int, now: int): Task {
    match outcome
    case Success(summary) => Finished(t, summary, start, now)
    case Failure(message) => FailedWith(t, message, start, now)
  }

  /** The task after its whole run: processing from `start`, then finished at `now`. */
  function Processed(t: Task, outcome: Result<TaskSummary, string>, start: int, now: int): Task {
    Finalized(WithStatus(t, Processing, start), outcome, start, now)
  }

  /** The table after the run's processing mark; for an absent id the update does nothing. */
  function Marked(tasks: map<string, Task>, id: string, start: int): map<string, Task> {
    if id in tasks then tasks[id := WithStatus(tasks[id], Processing, start)] else tasks
  }

  /**
   * The table after the run's final update. For an id no longer present the update raises
   * `KeyError` (in the body and again in the handler), so nothing is recorded.
   */
  function Recorded(tasks: map<string, Task>, id: string, outcome: Result<TaskSummary, string>,
                    start: int, now: int): map<string, Task>
  {
    if id in tasks then tasks[id := Finalized(tasks[id], outcome, start, now)] else tasks
  }

  /**
   * What every table entry satisfies: an unfinished task has no result, completion time or
   * processing time; a finished one has a completion time; a completed one has a result.
   */
  predicate TaskInvariant(t: Task) {
    && (!Terminal(t.status) ==> t.result.None? && t.completedAt.None? && t.processingTime.None?)
    && (Terminal(t.status) ==> t.completedAt.Some? && t.processingTime.Some?)
    && (t.status == Completed ==> t.result.Some?)
  }

  predicate WellFormed(tasks: map<string, Task>) {
    forall id | id in tasks :: TaskInvariant(tasks[id])
  }

  /** Writing a task twice leaves the second write; a well-formed task keeps the map well-formed. */
  lemma ReplaceTwice(tasks: map<string, Task>, id: string, first: Task, second: Task)
    requires WellFormed(tasks) && TaskInvariant(second)
    ensures tasks[id := first][id := second] == tasks[id := second]
    ensures WellFormed(tasks[id := second])
  {
  }

  /** A new task is pending and satisfies the invariant. */
  lemma NewTaskInvariant(url: string, metadata: Option<Doc>, now: int)
    ensures TaskInvariant(NewTask(url, metadata, now))
    ensures NewTask(url, metadata, now).status == Pending
  {
  }

  /**
   * A run moves a pending task forward only: to completed exactly when there is a summary (which
   * it stores), otherwise to failed with the error message and the result untouched; either way
   * it is finished at `now` and still satisfies the invariant.
   */
  lemma ProcessedMovesForward(t: Task, outcome: Result<TaskSummary, string>, start: int, now: int)
    requires t.status == Pending && TaskInvariant(t)
    ensures var p := Processed(t, outcome, start, now);
      && TaskInvariant(p)
      && Terminal(p.status)
      && (p.status == Completed <==> outcome.Success?)
      && (outcome.Success? ==> p.result == Some(outcome.value))
      && (outcome.Failure? ==> p.error == Some(outcome.error) && p.result == t.result)
      && p.completedAt == Some(now) && p.updatedAt == now && p.processingTime == Some(now - start)
      && p.url == t.url && p.createdAt == t.createdAt && p.metadata == t.metadata
  {
  }

  /**
   * The processing mark: a pending task now shows processing and still has no result or
   * completion time; no other entry changes.
   */
  lemma MarkShowsProcessing(tasks: map<string, Task>, id: string, start: int)
    requires WellFormed(tasks) && id in tasks && tasks[id].status == Pending
    ensures var m := Marked(tasks, id, start);
      && WellFormed(m) && m.Keys == tasks.Keys
      && m[id].status == Processing && m[id].updatedAt == start
      && m[id].result.None? && m[id].completedAt.None? && m[id].processingTime.None?
      && (forall other | other in tasks && other != id :: m[other] == tasks[other])
  {
  }

  /**
   * The final record, whatever state the task was in: finished at `now`, completed exactly when
   * there is a summary (which it stores), failed with the message otherwise, and well-formed.
   */
  lemma FinalizedIsTerminal(t: Task, outcome: Result<TaskSummary, string>, start: int, now: int)
    ensures var f := Finalized(t, outcome, start, now);
      && TaskInvariant(f)
      && Terminal(f.status)
      && (f.status == Completed <==> outcome.Success?)
      && (outcome.Success? ==> f.result == Some(outcome.value) && f.error == t.error)
      && (outcome.Failure? ==> f.error == Some(outcome.error) && f.result == t.result)
      && f.completedAt == Some(now) && f.updatedAt == now && f.processingTime == Some(now - start)
      && f.url == t.url && f.createdAt == t.createdAt && f.metadata == t.metadata
  {
  }

  /** With nothing between its steps, the mark and the final update make up the whole run. */
  lemma RunRecordsProcessed(tasks: map<string, Task>, id: string, outcome: Result<TaskSummary, string>,
                            start: int, now: int)
    requires id in tasks
    ensures Recorded(Marked(tasks, id, start), id, outcome, start, now)
      == tasks[id := Processed(tasks[id], outcome, start, now)]
  {
  }

  /**
   * A task deleted between the processing mark and the final update leaves no record at all:
   * the table is the one before the run, without the task.
   */
  lemma DeletedMidRunLeavesNoRecord(tasks: map<string, Task>, id: string,
                                    outcome: Result<TaskSummary, string>, start: int, now: int)
    ensures var after := Recorded(Marked(tasks, id, start) - {id}, id, outcome, start, now);
      id !in after && after == tasks - {id}
  {
  }

  /** Whether `cleanup_old_tasks` evicts a task: completed more than `hours` hours before `now`. */
  predicate Expired(t: Task, hours: int, now: int) {
    t.completedAt.Some? && now - t.completedAt.value > hours * 3600
  }

  /** The table after `cleanup_old_tasks`. */
  function Cleaned(tasks: map<string, Task>, hours: int, now: int): map<string, Task> {
    map id | id in tasks && !Expired(tasks[id], hours, now) :: tasks[id]
  }

  /**
   * Exactly the expired tasks go; every other task stays as it was, in particular every pending
   * or processing one.
   */
  lemma CleanedKeepsUnexpired(tasks: map<string, Task>, hours: int, now: int, id: string)
    requires WellFormed(tasks)
    ensures id in Cleaned(tasks, hours, now) <==> id in tasks && !Expired(tasks[id], hours, now)
    ensures id in Cleaned(tasks, hours, now) ==> Cleaned(tasks, hours, now)[id] == tasks[id]
    ensures id in tasks && !Terminal(tasks[id].status) ==> id in Cleaned(tasks, hours, now)
    ensures WellFormed(Cleaned(tasks, hours, now))
  {
  }

  /** The in-memory task table. */
  class TaskManager {
    var tasks: map<string, Task>

    predicate Valid()
      reads this
    {
      WellFormed(tasks)
    }

    constructor()
      ensures Valid() && tasks == map[]
    {
      tasks := map[];
    }

    /** `create_task`: one new pending entry under the fresh `taskId`; the run is a separate step. */
    method CreateTask(url: string, metadata: Option<Doc>, taskId: string, now: int) returns (id: string)
      requires taskId !in tasks
      modifies this
      ensures id == taskId
      ensures tasks == old(tasks)[taskId := NewTask(url, metadata, now)]
      ensures old(Valid()) ==> Valid()
    {
      NewTaskInvariant(url, metadata, now);
      tasks := tasks[taskId := NewTask(url, metadata, now)];
      id := taskId;
    }

    /** `_update_task_status`: set the status and update time of a present task; else nothing. */
    method UpdateTaskStatus(taskId: string, status: TaskStatus, now: int)
      modifies this
      ensures taskId in old(tasks) ==> tasks == old(tasks)[taskId := WithStatus(old(tasks)[taskId], status, now)]
      ensures taskId !in old(tasks) ==> tasks == old(tasks)
    {
      if taskId in tasks {
        tasks := tasks[taskId := WithStatus(tasks[taskId], status, now)];
      }
    }

    /**
     * The first step of `_process_task`: the processing mark at `start`. It returns whether the run
     * goes on. For a task no longer present, the lookup that follows the mark raises, and so does
     * the handler's update, so the run ends with nothing recorded and nothing saved.
     */
    method StartProcessing(taskId: string, start: int) returns (running: bool)
      modifies this
      ensures running <==> taskId in old(tasks)
      ensures tasks == Marked(old(tasks), taskId, start)
      ensures old(Valid()) && (taskId in old(tasks) ==> old(tasks)[taskId].status == Pending) ==> Valid()
    {
      UpdateTaskStatus(taskId, Processing, start);
      running := taskId in tasks;
    }

    /** The exception handler's update: the task, if still present, fails with `message` at `now`. */
    method FailRun(taskId: string, message: string, start: int, now: int)
      modifies this
      ensures tasks == Recorded(old(tasks), taskId, Failure(message), start, now)
      ensures old(Valid()) ==> Valid()
    {
      if taskId in tasks {
        FinalizedIsTerminal(tasks[taskId], Failure(message), start, now);
        tasks := tasks[taskId := FailedWith(tasks[taskId], message, start, now)];
      }
    }

    /**
     * The rest of a run after the mark, with the parse outcome given. The parsed tender is saved in
     * `store` (under `freshStoreId` if it is new) whether or not the task is still present. Then
     * the summary is recorded; an exception on the way (the parse's, or `len` on absent items)
     * goes to `FailRun`.
     */
    method CompleteRun(taskId: string, parsed: Result<TenderData, string>, store: Repository.TenderRepository,
                       freshStoreId: string, start: int, now: int)
      requires store.Valid() && freshStoreId !in Repository.Ids(store.records)
      modifies this, store
      ensures store.Valid()
      ensures parsed.Failure? ==>
        && store.records == old(store.records)
        && tasks == Recorded(old(tasks), taskId, Failure(parsed.error), start, now)
      ensures parsed.Success? ==>
        var (records, tenderId) := Repository.Upsert(old(store.records), ModelDump(parsed.value), freshStoreId);
        && tenderId.Some?
        && store.records == records
        && tasks == Recorded(old(tasks), taskId, RunOutcome(parsed, tenderId.value), start, now)
      ensures old(Valid()) ==> Valid()
    {
      match parsed {
        case Failure(message) =>
          FailRun(taskId, message, start, now);
        case Success(tender) =>
          ModelDumpKey(tender);
          var tenderId := store.Save(ModelDump(tender), freshStoreId);
          match RunOutcome(parsed, tenderId.value) {
            case Failure(message) =>
              FailRun(taskId, message, start, now);
            case Success(summary) =>
              if taskId in tasks {
                FinalizedIsTerminal(tasks[taskId], Success(summary), start, now);
                tasks := tasks[taskId := Finished(tasks[taskId], summary, start, now)];
              }
          }
      }
    }

    /**
     * A whole run of `_process_task` with no other operation between its steps: the mark, then
     * `CompleteRun`. A task that is absent at the start stays absent and nothing is saved.
     */
    method ProcessTask(taskId: string, parsed: Result<TenderData, string>, store: Repository.TenderRepository,
                       freshStoreId: string, start: int, now: int)
      requires Valid() && store.Valid() && freshStoreId !in Repository.Ids(store.records)
      requires taskId in tasks ==> tasks[taskId].status == Pending
      modifies this, store
      ensures Valid() && store.Valid()
      ensures taskId !in old(tasks) ==> tasks == old(tasks) && store.records == old(store.records)
      ensures taskId in old(tasks) && parsed.Failure? ==>
        && tasks == old(tasks)[taskId := Processed(old(tasks)[taskId], Failure(parsed.error), start, now)]
        && store.records == old(store.records)
      ensures taskId in old(tasks) && parsed.Success? ==>
        var (records, tenderId) := Repository.Upsert(old(store.records), ModelDump(parsed.value), freshStoreId);
        && tenderId.Some?
        && store.records == records
        && tasks == old(tasks)[taskId := Processed(old(tasks)[taskId], RunOutcome(parsed, tenderId.value), start, now)]
    {
      ghost var initial := tasks;
      var running := StartProcessing(taskId, start);
      if running {
        ghost var before := store.records;
        CompleteRun(taskId, parsed, store, freshStoreId, start, now);
        if parsed.Failure? {
          RunRecordsProcessed(initial, taskId, Failure(parsed.error), start, now);
        } else {
          var (_, tenderId) := Repository.Upsert(before, ModelDump(parsed.value), freshStoreId);
          RunRecordsProcessed(initial, taskId, RunOutcome(parsed, tenderId.value), start, now);
        }
      }
    }

    /** `get_task_status`: the status view, `None` for an unknown id. */
    function GetTaskStatus(taskId: string): (r: Option<TaskResponse>)
      reads this
      ensures r.None? <==> taskId !in tasks
      ensures r.Some? ==>
        var t := tasks[taskId];
        && r.value.taskId == taskId && r.value.status == t.status && r.value.url == t.url
        && r.value.createdAt == t.createdAt && r.value.updatedAt == t.updatedAt && r.value.error == t.error
        && (r.value.resultAvailable <==> t.status == Completed)
    {
      if taskId !in tasks then None
      else
        var t := tasks[taskId];
        Some(TaskResponse(taskId, t.status, t.createdAt, t.updatedAt, t.url, t.error, t.status == Completed))
    }

    /**
     * `get_task_result`: for an unfinished task only the basic fields; for a finished one also the
     * completion and processing times, and the parsed data when it completed.
     */
    function GetTaskResult(taskId: string): (r: Option<TaskResult>)
      reads this
      ensures r.None? <==> taskId !in tasks
      ensures r.Some? && !Terminal(r.value.status) ==>
        r.value.data.None? && r.value.completedAt.None? && r.value.processingTime.None?
      ensures r.Some? && r.value.data.Some? ==> r.value.status == Completed
      ensures r.Some? ==>
        var t := tasks[taskId];
        && r.value.taskId == taskId && r.value.status == t.status
        && r.value.createdAt == t.createdAt && r.value.error == t.error
        && (Terminal(t.status) ==> r.value.completedAt == t.completedAt && r.value.processingTime == t.processingTime)
        && (t.status == Completed && t.result.Some? ==> r.value.data == Some(t.result.value.data))
    {
      if taskId !in tasks then None
      else
        var t := tasks[taskId];
        if !Terminal(t.status) then
          Some(TaskResult(taskId, t.status, None, t.error, t.createdAt, None, None))
        else
          var data := if t.status == Completed && t.result.Some? then Some(t.result.value.data) else None;
          Some(TaskResult(taskId, t.status, data, t.error, t.createdAt, t.completedAt, t.processingTime))
    }

    /** `cleanup_old_tasks`: collect the expired ids, then remove them. */
    method CleanupOldTasks(hours: int, now: int)
      modifies this
      ensures tasks == Cleaned(old(tasks), hours, now)
      ensures old(Valid()) ==> Valid()
    {
      var tasksToRemove: set<string> := {};
      var remaining := tasks.Keys;
      while remaining != {}
        invariant remaining <= tasks.Keys
        invariant forall id | id in tasksToRemove :: id in tasks && Expired(tasks[id], hours, now)
        invariant forall id | id in tasks && id !in remaining && Expired(tasks[id], hours, now) :: id in tasksToRemove
        invariant tasksToRemove !! remaining
        decreases |remaining|
      {
        var id :| id in remaining;
        if Expired(tasks[id], hours, now) {
          tasksToRemove := tasksToRemove + {id};
        }
        remaining := remaining - {id};
      }
      tasks := tasks - tasksToRemove;
    }

    /** The delete endpoint: remove a present task and report it; `false` stands for the 404. */
    method DeleteTask(taskId: string) returns (deleted: bool)
      modifies this
      ensures deleted <==> taskId in old(tasks)
      ensures tasks == old(tasks) - {taskId}
      ensures old(Valid()) ==> Valid()
    {
      if taskId in tasks {
        tasks := tasks - {taskId};
        deleted := true;
      } else {
        deleted := false;
      }
    }
  }
}
