/**
 * The task record shared by the week-1 and week-2 todo services: an integer
 * id that is never reassigned, a title, a description and one of three statuses.
 */
module TaskTypes {
  import opened Wrappers

  /** `"open" | "in progress" | "done"`. */
  datatype TaskStatus = Open | InProgress | Done

  datatype Task = Task(id: int, title: string, description: string, status: TaskStatus)

  /** The string literal a status is written as on the wire. */
  function StatusName(st: TaskStatus): string
  {
    match st
    case Open => "open"
    case InProgress => "in progress"
    case Done => "done"
  }

  /**
   * Reads one of the three status literals exactly: no trimming, no case folding.
   */
  function ParseStatus(s: string): (r: Option<TaskStatus>)
    ensures r.Some? ==> StatusName(r.value) == s
    ensures r.None? ==> forall st :: StatusName(st) != s
  {
    if s == "open" then Some(Open)
    else if s == "in progress" then Some(InProgress)
    else if s == "done" then Some(Done)
    else None
  }

  /** Writing a status and reading it back gives the same status. */
  lemma StatusRoundTrip(st: TaskStatus)
    ensures ParseStatus(StatusName(st)) == Some(st)
  {
  }
}
