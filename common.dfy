/**
 * Shared vocabulary of the task manager: the optional-value wrapper, the
 * closed set of task statuses with their wire names, and the personal task
 * record the frontend receives (task-manager-frontend/src/types.ts).
 */
module Common {

  datatype Option<T> = None | Some(value: T)

  /** The five statuses, in the order every board lists its columns. */
  datatype Status = Incomplete | InProgress | Complete | Overdue | OnHold

  const Statuses: seq<Status> := [Incomplete, InProgress, Complete, Overdue, OnHold]

  /** The string a status travels as, in JSON bodies, SQL rows and drop-target ids. */
  function StatusName(s: Status): string
  {
    match s
    case Incomplete => "incomplete"
    case InProgress => "in_progress"
    case Complete => "complete"
    case Overdue => "overdue"
    case OnHold => "on_hold"
  }

  /**
   * `statuses.includes(x)` followed by the cast `x as Task['status']`: the
   * status whose name is exactly `name`, if any.
   */
  function ParseStatus(name: string): (r: Option<Status>)
    ensures r.Some? ==> StatusName(r.value) == name
  {
    if name == "incomplete" then Some(Incomplete)
    else if name == "in_progress" then Some(InProgress)
    else if name == "complete" then Some(Complete)
    else if name == "overdue" then Some(Overdue)
    else if name == "on_hold" then Some(OnHold)
    else None
  }

  /** Every status is recognised under its own name, and the list of statuses has all five. */
  lemma ParseStatusName(s: Status)
    ensures ParseStatus(StatusName(s)) == Some(s)
    ensures s in Statuses
  {
  }

  /** A string is accepted as a status exactly when it is the name of one of the five. */
  lemma ParseStatusIff(name: string)
    ensures ParseStatus(name).Some? <==> exists s :: s in Statuses && StatusName(s) == name
  {
    if ParseStatus(name).Some? {
      ParseStatusName(ParseStatus(name).value);
    }
  }

  /** The personal task as the frontend holds it (types.ts); `id` is the table's surrogate key. */
  datatype Task = Task(
    id: int,
    taskName: string,
    status: Status,
    dueDate: Option<string>,
    description: Option<string>)

  /**
   * An activity-log entry as the team board emits it and the activity feed
   * renders it; the timestamp is not modelled.
   */
  datatype Activity = Activity(actorEmail: string, action: string, target: string, destination: Option<string>)

  /** `if (!token) return`: a token read from local storage must be present and non-empty. */
  predicate HasToken(token: Option<string>)
  {
    token.Some? && token.value != ""
  }

  /** The header value `Bearer ${token}`; a missing token is interpolated as "null". */
  function BearerHeader(token: Option<string>): string
  {
    "Bearer " + (if token.Some? then token.value else "null")
  }
}
