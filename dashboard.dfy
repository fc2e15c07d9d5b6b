/**
 * The personal dashboard page, task-manager-frontend/src/pages/Dashboard.tsx:
 * the add-task validation, the status-change handler that refuses
 * 'overdue', the page's own drag handlers with their optimistic status
 * patch, and the delete confirmation. Requests are returned instead of
 * fetched; the follow-up re-fetches and toast timers are not modelled.
 */
module Dashboard {
  import opened Common
  import opened Seqs
  import opened Strings
  import TaskBoard

  /** The requests the page sends to the personal task routes. */
  datatype Request =
    | CreateTask(authorization: string, taskName: string, dueDate: string, description: string, teamId: Option<int>)
    | UpdateStatus(authorization: string, taskName: string, status: Status)
    | DeleteTask(authorization: string, taskName: string)

  // ------------------------------------------------------------ handleAddTask

  datatype AddOutcome = NotSignedIn | MissingFields | DueInPast | Submit(request: Request)

  /**
   * `handleAddTask`'s guards in order: no token; a name or due date that is
   * blank after `trim()` (alert); a due date below today as strings (alert);
   * otherwise the POST, with the name as typed and `team_id` only in team mode.
   */
  function AddTaskCheck(token: Option<string>, name: string, dueDate: string, description: string,
                        today: string, teamMode: bool, selectedTeamId: Option<int>): AddOutcome
  {
    if !HasToken(token) then NotSignedIn
    else if Trim(name) == "" || Trim(dueDate) == "" then MissingFields
    else if LexLess(dueDate, today) then DueInPast
    else Submit(CreateTask(BearerHeader(token), name, dueDate, description,
                           if teamMode then selectedTeamId else None))
  }

  /**
   * A request is sent exactly when there is a token, neither field is
   * whitespace only and the due date is not below today; a due date equal
   * to today passes, and the name goes out untrimmed.
   */
  lemma AddTaskSendsIff(token: Option<string>, name: string, dueDate: string, description: string,
                        today: string, teamMode: bool, selectedTeamId: Option<int>)
    ensures var r := AddTaskCheck(token, name, dueDate, description, today, teamMode, selectedTeamId);
      && (r.Submit? <==> HasToken(token) && !AllWhitespace(name) && !AllWhitespace(dueDate)
                         && !LexLess(dueDate, today))
      && (r.Submit? ==> r.request.taskName == name && r.request.dueDate == dueDate)
      && (HasToken(token) && !AllWhitespace(name) && dueDate == today && !AllWhitespace(today) ==> r.Submit?)
  {
    TrimEmptyIff(name);
    TrimEmptyIff(dueDate);
    LexLessIrreflexive(today);
  }

  // ------------------------------------------------------------ handleDragEnd

  datatype DropOutcome = Ignored | RejectedOverdue | Move(taskName: string, status: Status)

  /**
   * The page's `handleDragEnd` guards: both ends present with different ids,
   * a target that is a status, and that status not 'overdue'.
   */
  function PageDrop(active: Option<string>, over: Option<string>): (r: DropOutcome)
    ensures r.Move? ==> r.status != Overdue && active == Some(r.taskName) && over == Some(StatusName(r.status))
    ensures r.Move? || r.RejectedOverdue? <==> active.Some? && over.Some? && active != over
                                                && ParseStatus(over.value).Some?
    ensures r.RejectedOverdue? <==> active.Some? && active != over && over == Some("overdue")
  {
    if active.None? || over.None? || active == over then Ignored
    else
      match ParseStatus(over.value)
      case None => Ignored
      case Some(Overdue) => RejectedOverdue
      case Some(s) => Move(active.value, s)
  }

  /** The optimistic patch `prev.map(task => task.task_name === taskId ? {...task, status} : task)`. */
  function SetStatusByName(tasks: seq<Task>, name: string, s: Status): (r: seq<Task>)
    ensures |r| == |tasks|
    decreases |tasks|
  {
    if tasks == [] then []
    else [if tasks[0].taskName == name then tasks[0].(status := s) else tasks[0]]
         + SetStatusByName(tasks[1..], name, s)
  }

  lemma {:induction false} SetStatusByNameAt(tasks: seq<Task>, name: string, s: Status, i: nat)
    requires i < |tasks|
    ensures SetStatusByName(tasks, name, s)[i]
         == if tasks[i].taskName == name then tasks[i].(status := s) else tasks[i]
    decreases |tasks|
  {
    if i > 0 { SetStatusByNameAt(tasks[1..], name, s, i - 1); }
  }

  /**
   * The patch moves every task with the dragged name to the new status,
   * touches no other task and no other field, and applying it twice is
   * applying it once.
   */
  lemma SetStatusByNameSpec(tasks: seq<Task>, name: string, s: Status)
    ensures forall i :: 0 <= i < |tasks| ==>
              var t := SetStatusByName(tasks, name, s)[i];
              && t.id == tasks[i].id && t.taskName == tasks[i].taskName
              && t.dueDate == tasks[i].dueDate && t.description == tasks[i].description
              && t.status == (if tasks[i].taskName == name then s else tasks[i].status)
    ensures SetStatusByName(SetStatusByName(tasks, name, s), name, s) == SetStatusByName(tasks, name, s)
  {
    var once := SetStatusByName(tasks, name, s);
    forall i | 0 <= i < |tasks|
      ensures once[i] == (if tasks[i].taskName == name then tasks[i].(status := s) else tasks[i])
      ensures SetStatusByName(once, name, s)[i] == once[i]
    {
      SetStatusByNameAt(tasks, name, s, i);
      SetStatusByNameAt(once, name, s, i);
    }
  }

  // ------------------------------------------------------------ page state

  class DashboardState {
    var tasks: seq<Task>
    var activeTask: Option<Task>
    var taskToDelete: Option<string>
    var newTask: string
    var newTaskDueDate: string
    var newTaskDesc: string
    var showModal: bool
    var showToast: bool
    var errorToast: bool
    var lastMovedStatus: Option<Status>
    var teamMode: bool
    var selectedTeamId: Option<int>

    constructor ()
      ensures tasks == [] && activeTask == None && taskToDelete == None
      ensures newTask == "" && newTaskDueDate == "" && newTaskDesc == ""
      ensures !showModal && !showToast && !errorToast && lastMovedStatus == None
      ensures !teamMode && selectedTeamId == None
    {
      tasks, activeTask, taskToDelete := [], None, None;
      newTask, newTaskDueDate, newTaskDesc := "", "", "";
      showModal, showToast, errorToast, lastMovedStatus := false, false, false, None;
      teamMode, selectedTeamId := false, None;
    }

    /** `handleAddTask`: on success the form is cleared and the modal closed; otherwise nothing changes. */
    method AddTask(token: Option<string>, today: string) returns (outcome: AddOutcome)
      modifies this
      ensures outcome == AddTaskCheck(token, old(newTask), old(newTaskDueDate), old(newTaskDesc), today,
                                      old(teamMode), old(selectedTeamId))
      ensures outcome.Submit? ==> newTask == "" && newTaskDueDate == "" && newTaskDesc == "" && !showModal
      ensures !outcome.Submit? ==> newTask == old(newTask) && newTaskDueDate == old(newTaskDueDate)
                                   && newTaskDesc == old(newTaskDesc) && showModal == old(showModal)
      ensures tasks == old(tasks) && activeTask == old(activeTask) && taskToDelete == old(taskToDelete)
      ensures showToast == old(showToast) && errorToast == old(errorToast)
      ensures lastMovedStatus == old(lastMovedStatus) && teamMode == old(teamMode)
      ensures selectedTeamId == old(selectedTeamId)
    {
      if !HasToken(token) {
        return NotSignedIn;
      }
      if Trim(newTask) == "" || Trim(newTaskDueDate) == "" {
        return MissingFields;
      }
      if LexLess(newTaskDueDate, today) {
        return DueInPast;
      }
      outcome := Submit(CreateTask(BearerHeader(token), newTask, newTaskDueDate, newTaskDesc,
                                   if teamMode then selectedTeamId else None));
      newTask, newTaskDueDate, newTaskDesc := "", "", "";
      showModal := false;
    }

    /**
     * `handleStatusChange`, the board's `onStatusChange`: without a token
     * nothing; 'overdue' only raises the error toast; any other status is
     * sent and announced in the success toast.
     */
    method StatusChange(token: Option<string>, taskName: string, newStatus: Status)
      returns (request: Option<Request>)
      modifies this
      ensures !HasToken(token) ==> request == None && errorToast == old(errorToast) && showToast == old(showToast)
                                   && lastMovedStatus == old(lastMovedStatus)
      ensures HasToken(token) && newStatus == Overdue ==>
                request == None && errorToast && showToast == old(showToast)
                && lastMovedStatus == old(lastMovedStatus)
      ensures HasToken(token) && newStatus != Overdue ==>
                request == Some(UpdateStatus(BearerHeader(token), taskName, newStatus))
                && showToast && lastMovedStatus == Some(newStatus) && errorToast == old(errorToast)
      ensures tasks == old(tasks) && activeTask == old(activeTask) && taskToDelete == old(taskToDelete)
      ensures newTask == old(newTask) && newTaskDueDate == old(newTaskDueDate) && newTaskDesc == old(newTaskDesc)
      ensures showModal == old(showModal) && teamMode == old(teamMode) && selectedTeamId == old(selectedTeamId)
    {
      if !HasToken(token) {
        return None;
      }
      if newStatus == Overdue {
        errorToast := true;
        return None;
      }
      request := Some(UpdateStatus(BearerHeader(token), taskName, newStatus));
      lastMovedStatus := Some(newStatus);
      showToast := true;
    }

    /** The page's `handleDragStart`: the first task with the dragged name; no match keeps the old one. */
    method DragStart(draggedId: string)
      modifies this`activeTask
      ensures activeTask == if Find(tasks, TaskBoard.NamedTask(draggedId)).Some?
                            then Find(tasks, TaskBoard.NamedTask(draggedId)) else old(activeTask)
    {
      var found := Find(tasks, TaskBoard.NamedTask(draggedId));
      if found.Some? {
        activeTask := found;
      }
    }

    /**
     * The page's `handleDragEnd`: clears the overlay; rejects 'overdue' with
     * the error toast; for a real move sends the update (it does not look
     * for a token first) and patches the local list without waiting for the
     * answer.
     */
    method DragEnd(token: Option<string>, active: Option<string>, over: Option<string>)
      returns (request: Option<Request>)
      modifies this
      ensures activeTask == None
      ensures match PageDrop(active, over)
              case Ignored =>
                request == None && tasks == old(tasks) && errorToast == old(errorToast)
                && showToast == old(showToast) && lastMovedStatus == old(lastMovedStatus)
              case RejectedOverdue =>
                request == None && tasks == old(tasks) && errorToast
                && showToast == old(showToast) && lastMovedStatus == old(lastMovedStatus)
              case Move(name, s) =>
                && request == Some(UpdateStatus(BearerHeader(token), name, s))
                && tasks == SetStatusByName(old(tasks), name, s)
                && lastMovedStatus == Some(s) && showToast && errorToast == old(errorToast)
      ensures taskToDelete == old(taskToDelete) && newTask == old(newTask)
      ensures newTaskDueDate == old(newTaskDueDate) && newTaskDesc == old(newTaskDesc)
      ensures showModal == old(showModal) && teamMode == old(teamMode) && selectedTeamId == old(selectedTeamId)
    {
      activeTask := None;
      var drop := PageDrop(active, over);
      match drop
      case Ignored =>
        request := None;
      case RejectedOverdue =>
        errorToast := true;
        request := None;
      case Move(name, s) =>
        request := Some(UpdateStatus(BearerHeader(token), name, s));
        tasks := SetStatusByName(tasks, name, s);
        lastMovedStatus := Some(s);
        showToast := true;
    }

    /** The board's `onDeleteTask`: remember which task the confirmation is for. */
    method AskDelete(taskName: string)
      modifies this`taskToDelete
      ensures taskToDelete == Some(taskName)
    {
      taskToDelete := Some(taskName);
    }

    /** `confirmDeleteTask`: nothing without a (non-empty) pending name or a token; else send and clear. */
    method ConfirmDelete(token: Option<string>) returns (request: Option<Request>)
      modifies this`taskToDelete
      ensures old(taskToDelete).None? || old(taskToDelete) == Some("") || !HasToken(token) ==>
                request == None && taskToDelete == old(taskToDelete)
      ensures old(taskToDelete).Some? && old(taskToDelete) != Some("") && HasToken(token) ==>
                request == Some(DeleteTask(BearerHeader(token), old(taskToDelete).value)) && taskToDelete == None
    {
      if taskToDelete.None? || taskToDelete == Some("") {
        return None;
      }
      if !HasToken(token) {
        return None;
      }
      request := Some(DeleteTask(BearerHeader(token), taskToDelete.value));
      taskToDelete := None;
    }
  }

  /**
   * The wiring of the page: the board's drop handler calls the page's
   * `handleStatusChange`. A drop on the overdue column therefore sends
   * nothing and raises the error toast, although the board forwards it.
   */
  method DropOnBoard(board: TaskBoard.TaskBoardState, page: DashboardState, token: Option<string>,
                     active: Option<string>, over: Option<string>) returns (request: Option<Request>)
    modifies board, page
    ensures board.activeTask == None
    ensures TaskBoard.BoardDrop(active, over).None? ==> request == None && page.tasks == old(page.tasks)
    ensures over == Some("overdue") ==> request == None
    ensures over == Some("overdue") && active.Some? && active != over && HasToken(token) ==> page.errorToast
    ensures request.Some? ==> request.value.UpdateStatus? && request.value.status != Overdue
    ensures page.tasks == old(page.tasks)
  {
    var call := board.DragEnd(active, over);
    request := None;
    if call.Some? {
      request := page.StatusChange(token, call.value.0, call.value.1);
    }
  }
}
