/**
 * The team page, task-manager-frontend/src/pages/TeamDashboard.tsx: the
 * per-assignee `completed` patch shared by the HTTP answer and the socket
 * broadcast, the status-change guard, the member reformatting and the
 * admin test. Requests are returned instead of fetched.
 */
module TeamDashboard {
  import opened Common
  import opened TeamTaskBoard

  /** The requests the page sends to the team routes (the team id in the path is not modelled). */
  datatype TeamRequest =
    | AssigneeStatus(authorization: string, teamId: int, taskId: int, assigneeEmail: string, completed: bool)
    | UpdateTeamStatus(authorization: string, taskName: string, status: Status)

  // ------------------------------------------------------------ assignee patch

  /** `task.assigned_to.map(a => a.email === assigneeEmail ? { ...a, completed } : a)`. */
  function PatchAssignees(assignees: seq<Assignee>, email: string, completed: bool): (r: seq<Assignee>)
    ensures |r| == |assignees|
    decreases |assignees|
  {
    if assignees == [] then []
    else [if assignees[0].email == email then assignees[0].(completed := completed) else assignees[0]]
         + PatchAssignees(assignees[1..], email, completed)
  }

  lemma {:induction false} PatchAssigneesAt(assignees: seq<Assignee>, email: string, completed: bool, j: nat)
    requires j < |assignees|
    ensures PatchAssignees(assignees, email, completed)[j]
         == if assignees[j].email == email then assignees[j].(completed := completed) else assignees[j]
    decreases |assignees|
  {
    if j > 0 { PatchAssigneesAt(assignees[1..], email, completed, j - 1); }
  }

  /** `prevTasks.map(task => task.id === taskId ? { ...task, assigned_to: ... } : task)`. */
  function PatchAssignee(tasks: seq<TeamTask>, taskId: int, email: string, completed: bool): (r: seq<TeamTask>)
    ensures |r| == |tasks|
    decreases |tasks|
  {
    if tasks == [] then []
    else [if tasks[0].id == taskId
          then tasks[0].(assignedTo := PatchAssignees(tasks[0].assignedTo, email, completed))
          else tasks[0]]
         + PatchAssignee(tasks[1..], taskId, email, completed)
  }

  lemma {:induction false} PatchAssigneeAt(tasks: seq<TeamTask>, taskId: int, email: string, completed: bool, i: nat)
    requires i < |tasks|
    ensures PatchAssignee(tasks, taskId, email, completed)[i]
         == if tasks[i].id == taskId
            then tasks[i].(assignedTo := PatchAssignees(tasks[i].assignedTo, email, completed))
            else tasks[i]
    decreases |tasks|
  {
    if i > 0 { PatchAssigneeAt(tasks[1..], taskId, email, completed, i - 1); }
  }

  /**
   * The patch changes only the `completed` flag, only of assignees with the
   * given email, only inside tasks with the given id: every list keeps its
   * length and every other field keeps its value.
   */
  lemma PatchAssigneeSpec(tasks: seq<TeamTask>, taskId: int, email: string, completed: bool)
    ensures var r := PatchAssignee(tasks, taskId, email, completed);
      && |r| == |tasks|
      && (forall i :: 0 <= i < |tasks| ==>
            && r[i].(assignedTo := tasks[i].assignedTo) == tasks[i]
            && |r[i].assignedTo| == |tasks[i].assignedTo|
            && (forall j :: 0 <= j < |tasks[i].assignedTo| ==>
                  var a := tasks[i].assignedTo[j];
                  r[i].assignedTo[j] == if tasks[i].id == taskId && a.email == email
                                        then a.(completed := completed) else a))
  {
    var r := PatchAssignee(tasks, taskId, email, completed);
    forall i | 0 <= i < |tasks|
      ensures r[i].(assignedTo := tasks[i].assignedTo) == tasks[i]
      ensures |r[i].assignedTo| == |tasks[i].assignedTo|
      ensures forall j :: 0 <= j < |tasks[i].assignedTo| ==>
                var a := tasks[i].assignedTo[j];
                r[i].assignedTo[j] == if tasks[i].id == taskId && a.email == email
                                      then a.(completed := completed) else a
    {
      PatchAssigneeAt(tasks, taskId, email, completed, i);
      forall j | 0 <= j < |tasks[i].assignedTo|
        ensures var a := tasks[i].assignedTo[j];
                r[i].assignedTo[j] == if tasks[i].id == taskId && a.email == email
                                      then a.(completed := completed) else a
      {
        PatchAssigneesAt(tasks[i].assignedTo, email, completed, j);
      }
    }
  }

  /**
   * Patching twice for the same assignee leaves the second value: in
   * particular the same patch twice is the patch once, so the broadcast
   * that follows a local patch changes nothing.
   */
  lemma {:induction false} PatchAssigneeLastWins(tasks: seq<TeamTask>, taskId: int, email: string, c1: bool, c2: bool)
    ensures PatchAssignee(PatchAssignee(tasks, taskId, email, c1), taskId, email, c2)
         == PatchAssignee(tasks, taskId, email, c2)
    decreases |tasks|
  {
    if tasks != [] {
      PatchAssigneeLastWins(tasks[1..], taskId, email, c1, c2);
      if tasks[0].id == taskId {
        PatchAssigneesLastWins(tasks[0].assignedTo, email, c1, c2);
      }
    }
  }

  lemma {:induction false} PatchAssigneesLastWins(assignees: seq<Assignee>, email: string, c1: bool, c2: bool)
    ensures PatchAssignees(PatchAssignees(assignees, email, c1), email, c2) == PatchAssignees(assignees, email, c2)
    decreases |assignees|
  {
    if assignees != [] {
      PatchAssigneesLastWins(assignees[1..], email, c1, c2);
    }
  }

  /** The checkbox's toggle, patched in, flips that assignee's flag wherever the email occurs in that task. */
  lemma ToggleFlipsFlag(tasks: seq<TeamTask>, i: nat, j: nat)
    requires i < |tasks| && j < |tasks[i].assignedTo|
    ensures var t := ToggleFor(tasks[i], tasks[i].assignedTo[j]);
            var patched := PatchAssignee(tasks, t.taskId, t.email, t.completed)[i].assignedTo;
            j < |patched| && patched[j].completed == !tasks[i].assignedTo[j].completed
  {
    var t := ToggleFor(tasks[i], tasks[i].assignedTo[j]);
    PatchAssigneeAt(tasks, t.taskId, t.email, t.completed, i);
    PatchAssigneesAt(tasks[i].assignedTo, t.email, t.completed, j);
  }

  // ------------------------------------------------------------ members, role

  /** A member row as `/members` returns it; only its `name` field is read. */
  datatype RawMember = RawMember(name: string)

  datatype Member = Member(email: string, name: string)

  /** `data.members.map(m => ({ email: m.name, name: m.name }))`. */
  function FormatMembers(raw: seq<RawMember>): (r: seq<Member>)
    ensures |r| == |raw|
    ensures forall i :: 0 <= i < |raw| ==> r[i].email == raw[i].name && r[i].name == raw[i].name
  {
    seq(|raw|, i requires 0 <= i < |raw| => Member(raw[i].name, raw[i].name))
  }

  /** Formatting loses nothing: the original rows are recovered from the emails. */
  lemma FormatMembersInvertible(raw: seq<RawMember>)
    ensures seq(|raw|, i requires 0 <= i < |raw| => RawMember(FormatMembers(raw)[i].email)) == raw
  {
  }

  datatype TeamInfo = TeamInfo(name: string, role: string, createdAt: string)

  /** `teamInfo?.role === 'admin'`: false while the team has not loaded. */
  predicate IsAdmin(info: Option<TeamInfo>)
  {
    info.Some? && info.value.role == "admin"
  }

  /** Before the team loads, and for any role other than exactly 'admin', the board ignores every drop. */
  lemma NonAdminBoardInert(info: Option<TeamInfo>, userEmail: string, active: Option<string>, over: Option<string>)
    ensures info.None? || info.value.role != "admin" ==> TeamDrop(IsAdmin(info), userEmail, active, over).None?
    ensures TeamDrop(IsAdmin(info), userEmail, active, over).Some? ==> info == Some(TeamInfo(info.value.name, "admin", info.value.createdAt))
  {
  }

  // ------------------------------------------------------------ status change

  /** `handleStatusChange`: nothing without a token, and 'overdue' is refused (with an alert). */
  function StatusChangeRequest(token: Option<string>, taskName: string, status: Status): (r: Option<TeamRequest>)
    ensures r.Some? <==> HasToken(token) && status != Overdue
    ensures r.Some? ==> r.value == UpdateTeamStatus(BearerHeader(token), taskName, status)
  {
    if !HasToken(token) then None
    else if status == Overdue then None
    else Some(UpdateTeamStatus(BearerHeader(token), taskName, status))
  }

  /**
   * An admin's drop on the overdue column sends no update, yet the board
   * has already broadcast the 'updated_task_status' activity for it.
   */
  lemma OverdueDropLoggedNotSent(token: Option<string>, userEmail: string, name: string)
    ensures var e := TeamDrop(true, userEmail, Some(name), Some("overdue"));
            && e.Some? && e.value.activity.destination == Some("overdue")
            && StatusChangeRequest(token, e.value.taskName, e.value.status).None?
  {
  }

  // ------------------------------------------------------------ page state

  class TeamDashboardState {
    var teamTasks: seq<TeamTask>
    var teamInfo: Option<TeamInfo>
    var teamMembers: seq<Member>

    constructor ()
      ensures teamTasks == [] && teamInfo == None && teamMembers == []
    {
      teamTasks, teamInfo, teamMembers := [], None, [];
    }

    /**
     * `handleToggleAssigneeComplete`: without a token nothing is sent;
     * otherwise the request goes out and the local list is patched only
     * when the answer is ok (`responseOk` stands for `res.ok`).
     */
    method ToggleAssigneeComplete(token: Option<string>, taskId: int, teamId: int, assigneeEmail: string,
                                  completed: bool, responseOk: bool) returns (request: Option<TeamRequest>)
      modifies this
      ensures !HasToken(token) ==> request == None && teamTasks == old(teamTasks)
      ensures HasToken(token) ==>
                request == Some(AssigneeStatus(BearerHeader(token), teamId, taskId, assigneeEmail, completed))
      ensures teamTasks == if HasToken(token) && responseOk
                           then PatchAssignee(old(teamTasks), taskId, assigneeEmail, completed)
                           else old(teamTasks)
      ensures teamInfo == old(teamInfo) && teamMembers == old(teamMembers)
    {
      if !HasToken(token) {
        return None;
      }
      request := Some(AssigneeStatus(BearerHeader(token), teamId, taskId, assigneeEmail, completed));
      if responseOk {
        teamTasks := PatchAssignee(teamTasks, taskId, assigneeEmail, completed);
      }
    }

    /** The `assignee_status_updated` socket handler: the same patch, unconditionally. */
    method AssigneeStatusUpdated(taskId: int, assigneeEmail: string, completed: bool)
      modifies this
      ensures teamTasks == PatchAssignee(old(teamTasks), taskId, assigneeEmail, completed)
      ensures teamInfo == old(teamInfo) && teamMembers == old(teamMembers)
    {
      teamTasks := PatchAssignee(teamTasks, taskId, assigneeEmail, completed);
    }

    /** `fetchTeamMembers` after the answer arrives. */
    method LoadMembers(raw: seq<RawMember>)
      modifies this
      ensures teamMembers == FormatMembers(raw)
      ensures teamTasks == old(teamTasks) && teamInfo == old(teamInfo)
    {
      teamMembers := FormatMembers(raw);
    }
  }

  /**
   * The user's own toggle, answered ok, followed by the server's broadcast of
   * the same change, leaves the list as the local patch alone left it.
   */
  method ToggleThenBroadcast(page: TeamDashboardState, token: Option<string>, taskId: int, teamId: int,
                             assigneeEmail: string, completed: bool)
    modifies page
    requires HasToken(token)
    ensures page.teamTasks == PatchAssignee(old(page.teamTasks), taskId, assigneeEmail, completed)
  {
    var _ := page.ToggleAssigneeComplete(token, taskId, teamId, assigneeEmail, completed, true);
    page.AssigneeStatusUpdated(taskId, assigneeEmail, completed);
    PatchAssigneeLastWins(old(page.teamTasks), taskId, assigneeEmail, completed, completed);
  }
}
