/**
 * The side panel of the personal dashboard,
 * task-manager-frontend/src/components/TodayPanel.tsx: the tasks due today
 * and the empty-state message. "Today" (a Toronto-time `YYYY-MM-DD`) is a
 * parameter.
 */
module TodayPanel {
  import opened Common
  import opened Seqs

  /** `task => task.due_date === today`: a task with no due date never matches a date string. */
  function DueOn(today: string): Task -> bool
  {
    (t: Task) => t.dueDate == Some(today)
  }

  /** `tasks.filter(task => task.due_date === today)`. */
  function TodayTasks(tasks: seq<Task>, today: string): seq<Task>
  {
    Filter(tasks, DueOn(today))
  }

  /**
   * The panel lists exactly the tasks due today, in board order, as a
   * subsequence of the board; a task without a due date is never listed.
   */
  lemma TodayTasksSpec(tasks: seq<Task>, today: string)
    ensures forall t :: t in TodayTasks(tasks, today) <==> t in tasks && t.dueDate == Some(today)
    ensures IsSubsequence(TodayTasks(tasks, today), tasks)
    ensures forall t: Task :: t.dueDate.None? ==> t !in TodayTasks(tasks, today)
    ensures |TodayTasks(tasks, today)| == Count(tasks, DueOn(today))
  {
    forall t ensures t in TodayTasks(tasks, today) <==> t in tasks && t.dueDate == Some(today) {
      FilterMembership(tasks, DueOn(today), t);
    }
    FilterIsSubsequence(tasks, DueOn(today));
    FilterLength(tasks, DueOn(today));
  }

  /** What the panel shows: the empty-state line, or the names of today's tasks. */
  datatype View = NoTasksDueToday | TaskNames(names: seq<string>)

  function Render(tasks: seq<Task>, today: string): (r: View)
    ensures r.NoTasksDueToday? <==> TodayTasks(tasks, today) == []
    ensures r.TaskNames? ==> |r.names| == |TodayTasks(tasks, today)|
    ensures r.TaskNames? ==> forall i :: 0 <= i < |r.names| ==> r.names[i] == TodayTasks(tasks, today)[i].taskName
  {
    var due := TodayTasks(tasks, today);
    if |due| == 0 then NoTasksDueToday
    else TaskNames(seq(|due|, i requires 0 <= i < |due| => due[i].taskName))
  }

  /** The empty-state line is shown exactly when no task on the board is due today. */
  lemma EmptyStateIff(tasks: seq<Task>, today: string)
    ensures Render(tasks, today) == NoTasksDueToday
        <==> forall i :: 0 <= i < |tasks| ==> tasks[i].dueDate != Some(today)
  {
    var due := TodayTasks(tasks, today);
    if due != [] {
      FilterMembership(tasks, DueOn(today), due[0]);
    }
    forall i | 0 <= i < |tasks| && tasks[i].dueDate == Some(today) ensures due != [] {
      FilterMembership(tasks, DueOn(today), tasks[i]);
    }
  }
}
