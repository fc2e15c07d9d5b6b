/**
 * The team board, task-manager-frontend/src/components/TeamTaskBoard.tsx:
 * the team task record, the per-status grouping, the admin-only drop
 * handler with the activity it emits, and the assignee checkbox rules.
 */
module TeamTaskBoard {
  import opened Common
  import opened Seqs
  import opened Strings
  import TaskBoard

  /** One assignee of a team task, with that person's own completion flag. */
  datatype Assignee = Assignee(email: string, name: string, completed: bool)

  datatype TeamTask = TeamTask(
    id: int,
    taskName: string,
    status: Status,
    dueDate: Option<string>,
    description: Option<string>,
    assignedBy: string,
    assignedTo: seq<Assignee>,
    teamId: int)

  function HasStatus(s: Status): TeamTask -> bool
  {
    (t: TeamTask) => t.status == s
  }

  function NamedTask(name: string): TeamTask -> bool
  {
    (t: TeamTask) => t.taskName == name
  }

  // ------------------------------------------------------------ groupedTasks

  /**
   * `statuses.reduce((acc, status) => { acc[status] = tasks.filter(...); return acc }, {})`:
   * one bucket per status, holding that status's tasks in list order.
   */
  method GroupedTasks(tasks: seq<TeamTask>) returns (groups: map<Status, seq<TeamTask>>)
    ensures forall s: Status :: s in groups
    ensures forall s :: s in groups ==> groups[s] == Filter(tasks, HasStatus(s))
  {
    groups := map[];
    for i := 0 to |Statuses|
      invariant forall s :: s in groups <==> s in Statuses[..i]
      invariant forall s :: s in groups ==> groups[s] == Filter(tasks, HasStatus(s))
    {
      groups := groups[Statuses[i] := Filter(tasks, HasStatus(Statuses[i]))];
    }
    assert Statuses[..|Statuses|] == Statuses;
    forall s: Status ensures s in groups {
      ParseStatusName(s);
    }
  }

  /**
   * The buckets partition the list: every task sits in the bucket of its own
   * status and in no other, and the five bucket sizes add up to the number
   * of tasks.
   */
  lemma {:induction false} BucketsPartition(tasks: seq<TeamTask>)
    ensures forall t, s :: t in Filter(tasks, HasStatus(s)) <==> t in tasks && t.status == s
    ensures |Filter(tasks, HasStatus(Incomplete))| + |Filter(tasks, HasStatus(InProgress))|
          + |Filter(tasks, HasStatus(Complete))| + |Filter(tasks, HasStatus(Overdue))|
          + |Filter(tasks, HasStatus(OnHold))| == |tasks|
    decreases |tasks|
  {
    forall t, s ensures t in Filter(tasks, HasStatus(s)) <==> t in tasks && t.status == s {
      FilterMembership(tasks, HasStatus(s), t);
    }
    if tasks != [] {
      BucketsPartition(tasks[1..]);
    }
  }

  // ------------------------------------------------------------ onDragEnd

  /** What an admin's drop does: the page's status change, and the activity broadcast. */
  datatype DropEffect = DropEffect(taskName: string, status: Status, activity: Activity)

  /**
   * The `onDragEnd` guard chain: only an admin, only with both ends, only
   * onto one of the five status columns. There is no same-id check and no
   * refusal of 'overdue'.
   */
  function TeamDrop(isAdmin: bool, userEmail: string, active: Option<string>, over: Option<string>)
    : (r: Option<DropEffect>)
    ensures r.Some? <==> isAdmin && active.Some? && over.Some? && ParseStatus(over.value).Some?
    ensures r.Some? ==> && r.value.taskName == active.value
                        && StatusName(r.value.status) == over.value
                        && r.value.activity == Activity(userEmail, "updated_task_status", active.value, over)
  {
    if !isAdmin then None
    else if active.None? || over.None? then None
    else match ParseStatus(over.value)
      case None => None
      case Some(s) => Some(DropEffect(active.value, s, Activity(userEmail, "updated_task_status", active.value, over)))
  }

  /**
   * Unlike the personal board, dropping a card on a column whose id equals
   * the card's own id goes through for an admin, for every status column
   * ('overdue' included), where the personal board ignores it; and nothing
   * at all goes through for anyone else.
   */
  lemma TeamDropDiffersFromBoard(userEmail: string, active: Option<string>, over: Option<string>, s: Status)
    ensures TeamDrop(false, userEmail, active, over).None?
    ensures TeamDrop(true, userEmail, Some(StatusName(s)), Some(StatusName(s)))
         == Some(DropEffect(StatusName(s), s, Activity(userEmail, "updated_task_status", StatusName(s), Some(StatusName(s)))))
    ensures TaskBoard.BoardDrop(Some(StatusName(s)), Some(StatusName(s))).None?
  {
    ParseStatusName(s);
  }

  // ------------------------------------------------------------ assignee rows

  /** `assignee.email.toLowerCase() !== userEmail.toLowerCase()`. */
  predicate IsDisabled(assigneeEmail: string, userEmail: string)
  {
    ToLower(assigneeEmail) != ToLower(userEmail)
  }

  lemma {:induction false} ToLowerIdempotent(s: string)
    ensures ToLower(ToLower(s)) == ToLower(s)
  {
    forall i | 0 <= i < |s| ensures ToLower(ToLower(s))[i] == ToLower(s)[i] {
      assert LowerChar(LowerChar(s[i])) == LowerChar(s[i]);
    }
  }

  /**
   * Your own row is enabled, and the comparison ignores ASCII case on both
   * sides: lower-casing either email never changes which rows are enabled.
   */
  lemma OwnRowEnabled(assigneeEmail: string, userEmail: string)
    ensures assigneeEmail == userEmail ==> !IsDisabled(assigneeEmail, userEmail)
    ensures IsDisabled(ToLower(assigneeEmail), userEmail) == IsDisabled(assigneeEmail, userEmail)
    ensures IsDisabled(assigneeEmail, ToLower(userEmail)) == IsDisabled(assigneeEmail, userEmail)
  {
    ToLowerIdempotent(assigneeEmail);
    ToLowerIdempotent(userEmail);
  }

  /** The arguments of `onToggleComplete` when a row's checkbox changes. */
  datatype Toggle = Toggle(taskId: int, teamId: int, email: string, completed: bool)

  /** The checkbox asks for the opposite of the assignee's current flag, for that assignee of that task. */
  function ToggleFor(task: TeamTask, a: Assignee): (r: Toggle)
    ensures r.completed != a.completed
    ensures r.taskId == task.id && r.teamId == task.teamId && r.email == a.email
  {
    Toggle(task.id, task.teamId, a.email, !a.completed)
  }

  /** The row's caption: "You" for the user's own email compared exactly, otherwise the name. */
  function AssigneeLabel(a: Assignee, userEmail: string): (r: string)
    ensures a.email == userEmail ==> r == "You"
    ensures a.email != userEmail ==> r == a.name
  {
    if a.email == userEmail then "You" else a.name
  }

  /**
   * The caption and the checkbox disagree on case: a row whose email
   * differs from the user's only in case is enabled but shows the
   * assignee's name rather than "You".
   */
  lemma EnabledButNotYou(a: Assignee, userEmail: string)
    requires a.email != userEmail && ToLower(a.email) == ToLower(userEmail)
    ensures !IsDisabled(a.email, userEmail)
    ensures AssigneeLabel(a, userEmail) == a.name
  {
  }

  /** Such rows exist: "Ann@x" for the user "ann@x". */
  lemma EnabledButNotYouExample()
    ensures var a := Assignee("Ann@x", "Ann", false);
            a.email != "ann@x" && ToLower(a.email) == ToLower("ann@x")
  {
    var lower := ToLower("Ann@x");
    assert lower[0] == 'a';
    assert lower == "ann@x";
    assert ToLower("ann@x") == "ann@x";
  }

  // ------------------------------------------------------------ board state

  class TeamBoardState {
    var activeTask: Option<TeamTask>

    constructor ()
      ensures activeTask == None
    {
      activeTask := None;
    }

    /** `setActiveTask(found || null)`: the first task with the dragged name, or none at all. */
    method DragStart(tasks: seq<TeamTask>, draggedId: string)
      modifies this
      ensures activeTask == Find(tasks, NamedTask(draggedId))
      ensures activeTask.Some? ==> activeTask.value in tasks && activeTask.value.taskName == draggedId
      ensures activeTask.None? <==> forall i :: 0 <= i < |tasks| ==> tasks[i].taskName != draggedId
    {
      activeTask := Find(tasks, NamedTask(draggedId));
    }

    /** `onDragEnd`: clears the overlay first, then runs the guard chain. */
    method DragEnd(isAdmin: bool, userEmail: string, active: Option<string>, over: Option<string>)
      returns (effect: Option<DropEffect>)
      modifies this
      ensures activeTask == None
      ensures effect == TeamDrop(isAdmin, userEmail, active, over)
    {
      activeTask := None;
      if !isAdmin {
        return None;
      }
      if active.None? || over.None? {
        return None;
      }
      var status := ParseStatus(over.value);
      if status.None? {
        return None;
      }
      effect := Some(DropEffect(active.value, status.value,
                                Activity(userEmail, "updated_task_status", active.value, over)));
    }
  }
}
