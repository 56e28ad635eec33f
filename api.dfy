/**
 * The task schema of app/schemas/api.py: the four task states, their stored string values, and
 * the two views of a task that the API returns.
 */
module Api {
  import opened Wrappers
  import opened Tender

  datatype TaskStatus = Pending | Processing | Completed | Failed

  /** The string a status is stored as (`TaskStatus.value`). */
  function StatusValue(s: TaskStatus): (v: string)
    ensures v != []
  {
    match s
    case Pending => "pending"
    case Processing => "processing"
    case Completed => "completed"
    case Failed => "failed"
  }

  /** The stored strings tell the states apart. */
  lemma StatusValueInjective(s: TaskStatus, t: TaskStatus)
    ensures StatusValue(s) == StatusValue(t) <==> s == t
  {
    if s != t {
      assert StatusValue(s)[0] != StatusValue(t)[0] || StatusValue(s)[1] != StatusValue(t)[1];
    }
  }

  /** A finished task: completed or failed. */
  predicate Terminal(s: TaskStatus) {
    s == Completed || s == Failed
  }

  /** `TaskResponse`: the status view of a task. */
  datatype TaskResponse = TaskResponse(
    taskId: string,
    status: TaskStatus,
    createdAt: int,
    updatedAt: int,
    url: string,
    error: Option<string>,
    resultAvailable: bool)

  /** `TaskResult`: the result view of a task. */
  datatype TaskResult = TaskResult(
    taskId: string,
    status: TaskStatus,
    data: Option<Doc>,
    error: Option<string>,
    createdAt: int,
    completedAt: Option<int>,
    processingTime: Option<int>)
}
