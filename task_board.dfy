/**
 * The personal board of task-manager-frontend/src/components/TaskBoard.tsx:
 * the drop guard that decides whether `onStatusChange` is called, the five
 * columns (a status filter followed by a due-date sort), the card overlay
 * chosen on drag start, and the single open card menu.
 */
module TaskBoard {
  import opened Common
  import opened Seqs
  import opened Strings

  // ------------------------------------------------------------ drag and drop

  /**
   * `handleDragEnd`: nothing without both ends or when they have the same
   * id; nothing for a target that is not a status; otherwise the call
   * `onStatusChange(active.id, status)` — 'overdue' included.
   */
  function BoardDrop(active: Option<string>, over: Option<string>): (r: Option<(string, Status)>)
    ensures r.Some? <==> active.Some? && over.Some? && active != over && ParseStatus(over.value).Some?
    ensures r.Some? ==> r.value.0 == active.value && StatusName(r.value.1) == over.value
  {
    if active.None? || over.None? || active == over then None
    else
      match ParseStatus(over.value)
      case None => None
      case Some(s) => Some((active.value, s))
  }

  /** The board forwards a drop on the overdue column; rejecting it is the page's job. */
  lemma BoardForwardsOverdue(name: string)
    requires name != "overdue"
    ensures BoardDrop(Some(name), Some("overdue")) == Some((name, Overdue))
  {
  }

  /** `task => task.task_name === draggedId`. */
  function NamedTask(name: string): Task -> bool
  {
    (t: Task) => t.taskName == name
  }

  // ------------------------------------------------------------ columns

  function HasStatus(s: Status): Task -> bool
  {
    (t: Task) => t.status == s
  }

  /** `(a.due_date || '')`: the sort key, with a missing or empty due date as "". */
  function DueKey(t: Task): string
  {
    if t.dueDate.Some? then t.dueDate.value else ""
  }

  /** Ascending by `localeCompare` on the keys, read here as plain lexicographic order. */
  predicate SortedByDue(ts: seq<Task>)
  {
    forall i, j :: 0 <= i < j < |ts| ==> LexLessEq(DueKey(ts[i]), DueKey(ts[j]))
  }

  /** A task no later than the head of a sorted column can go in front of it. */
  lemma SortedCons(x: Task, sorted: seq<Task>)
    requires SortedByDue(sorted)
    requires sorted == [] || LexLessEq(DueKey(x), DueKey(sorted[0]))
    ensures SortedByDue([x] + sorted)
  {
    var r := [x] + sorted;
    forall i, j | 0 <= i < j < |r| ensures LexLessEq(DueKey(r[i]), DueKey(r[j])) {
      if i == 0 && j > 1 {
        LexLessEqTransitive(DueKey(x), DueKey(sorted[0]), DueKey(sorted[j - 1]));
      }
    }
  }

  /** Dropping the head of a sorted column leaves it sorted. */
  lemma SortedTail(sorted: seq<Task>)
    requires SortedByDue(sorted) && sorted != []
    ensures SortedByDue(sorted[1..])
  {
    var t := sorted[1..];
    forall i, j | 0 <= i < j < |t| ensures LexLessEq(DueKey(t[i]), DueKey(t[j])) {
      assert t[i] == sorted[i + 1] && t[j] == sorted[j + 1];
    }
  }

  /** When `x` sorts after the head, the head stays in front of the tail with `x` inserted. */
  lemma InsertBehindHead(x: Task, sorted: seq<Task>, rest: seq<Task>)
    requires SortedByDue(sorted) && sorted != []
    requires !LexLessEq(DueKey(x), DueKey(sorted[0]))
    requires SortedByDue(rest) && |rest| == |sorted|
    requires rest[0] == x || (|sorted| > 1 && rest[0] == sorted[1])
    requires multiset(rest) == multiset(sorted[1..]) + multiset{x}
    ensures SortedByDue([sorted[0]] + rest)
    ensures multiset([sorted[0]] + rest) == multiset(sorted) + multiset{x}
  {
    LexLessEqTotal(DueKey(x), DueKey(sorted[0]));
    SortedCons(sorted[0], rest);
    assert sorted == [sorted[0]] + sorted[1..];
  }

  /** Insert before the first task whose key is not below `x`'s: `x` goes ahead of its ties. */
  function InsertByDue(x: Task, sorted: seq<Task>): (r: seq<Task>)
    requires SortedByDue(sorted)
    ensures |r| == |sorted| + 1
    ensures r[0] == if sorted == [] || LexLessEq(DueKey(x), DueKey(sorted[0])) then x else sorted[0]
    ensures SortedByDue(r)
    ensures multiset(r) == multiset(sorted) + multiset{x}
    decreases |sorted|
  {
    if sorted == [] || LexLessEq(DueKey(x), DueKey(sorted[0])) then
      SortedCons(x, sorted);
      [x] + sorted
    else
      SortedTail(sorted);
      var rest := InsertByDue(x, sorted[1..]);
      InsertBehindHead(x, sorted, rest);
      [sorted[0]] + rest
  }

  /** `.sort(...)` on a fresh array: a stable sort by due date. */
  function SortByDue(ts: seq<Task>): (r: seq<Task>)
    ensures SortedByDue(r)
    ensures multiset(r) == multiset(ts)
    decreases |ts|
  {
    if ts == [] then []
    else
      assert ts == [ts[0]] + ts[1..];
      InsertByDue(ts[0], SortByDue(ts[1..]))
  }

  /** Column `s`: `tasks.filter(task => task.status === s).sort(...)`. */
  function Column(tasks: seq<Task>, s: Status): seq<Task>
  {
    SortByDue(Filter(tasks, HasStatus(s)))
  }

  /**
   * A column holds exactly the tasks of its status, each as often as in the
   * input, sorted ascending by due date (no due date sorts first).
   */
  lemma ColumnContents(tasks: seq<Task>, s: Status, t: Task)
    ensures multiset(Column(tasks, s))[t] == if t.status == s then multiset(tasks)[t] else 0
    ensures SortedByDue(Column(tasks, s))
    ensures t in Column(tasks, s) <==> t in tasks && t.status == s
  {
    FilterMultiset(tasks, HasStatus(s), t);
    assert t in Column(tasks, s) <==> t in multiset(Column(tasks, s));
  }

  /** A task without a due date sorts no later than any other task. */
  lemma UndatedSortsFirst(t: Task, u: Task)
    requires t.dueDate.None?
    ensures LexLessEq(DueKey(t), DueKey(u))
  {
  }

  /** `task => (task.due_date || '') === key`: the tasks tied on one sort key. */
  function KeyIs(key: string): Task -> bool
  {
    (t: Task) => DueKey(t) == key
  }

  lemma {:induction false} InsertByDueStable(x: Task, sorted: seq<Task>, key: string)
    requires SortedByDue(sorted)
    ensures Filter(InsertByDue(x, sorted), KeyIs(key))
         == (if DueKey(x) == key then [x] else []) + Filter(sorted, KeyIs(key))
    decreases |sorted|
  {
    if sorted == [] || LexLessEq(DueKey(x), DueKey(sorted[0])) {
      FilterCons(x, sorted, KeyIs(key));
    } else {
      var rest := InsertByDue(x, sorted[1..]);
      var head := if DueKey(sorted[0]) == key then [sorted[0]] else [];
      var mine := if DueKey(x) == key then [x] else [];
      if DueKey(x) == key {
        // `x` went behind the head, so the head's key is strictly below `x`'s.
        LexLessIrreflexive(key);
      }
      calc {
        Filter(InsertByDue(x, sorted), KeyIs(key));
        Filter([sorted[0]] + rest, KeyIs(key));
        { FilterCons(sorted[0], rest, KeyIs(key)); }
        head + Filter(rest, KeyIs(key));
        { InsertByDueStable(x, sorted[1..], key); }
        head + (mine + Filter(sorted[1..], KeyIs(key)));
        { assert head == [] || mine == []; }
        mine + (head + Filter(sorted[1..], KeyIs(key)));
        { FilterCons(sorted[0], sorted[1..], KeyIs(key)); }
        mine + Filter([sorted[0]] + sorted[1..], KeyIs(key));
        { assert [sorted[0]] + sorted[1..] == sorted; }
        mine + Filter(sorted, KeyIs(key));
      }
    }
  }

  /**
   * The sort is stable: among tasks with the same due date the column keeps
   * the input's order (JavaScript's `Array.prototype.sort` is stable).
   */
  lemma {:induction false} SortByDueStable(ts: seq<Task>, key: string)
    ensures Filter(SortByDue(ts), KeyIs(key)) == Filter(ts, KeyIs(key))
    decreases |ts|
  {
    if ts != [] {
      SortByDueStable(ts[1..], key);
      InsertByDueStable(ts[0], SortByDue(ts[1..]), key);
    }
  }

  // ------------------------------------------------------------ the menu

  /** The card menu after clicking card `id`'s button: `setMenuOpenId(showMenu ? null : id)`. */
  function MenuAfterClick(open: Option<string>, id: string): (r: Option<string>)
    ensures r == Some(id) <==> open != Some(id)
    ensures r.Some? ==> r == Some(id)
  {
    if open == Some(id) then None else Some(id)
  }

  /** Two clicks on the same card restore the menu that was open before, if it was that card's or none. */
  lemma MenuClickTwice(open: Option<string>, id: string)
    requires open == None || open == Some(id)
    ensures MenuAfterClick(MenuAfterClick(open, id), id) == open
  {
  }

  // ------------------------------------------------------------ component state

  /** The board's own state: the overlay card and the one open menu, shared by all columns. */
  class TaskBoardState {
    var activeTask: Option<Task>
    var menuOpenId: Option<string>

    constructor ()
      ensures activeTask == None && menuOpenId == None
    {
      activeTask := None;
      menuOpenId := None;
    }

    /** `showMenu` of card `id`: at most one card, the one named by `menuOpenId`, shows it. */
    function ShowsMenu(id: string): bool
      reads this
    {
      menuOpenId == Some(id)
    }

    /** `handleDragStart`: the first task with the dragged name; no match keeps the old one. */
    method DragStart(tasks: seq<Task>, draggedId: string)
      modifies this
      ensures activeTask == if Find(tasks, NamedTask(draggedId)).Some?
                            then Find(tasks, NamedTask(draggedId)) else old(activeTask)
      ensures menuOpenId == old(menuOpenId)
    {
      var found := Find(tasks, NamedTask(draggedId));
      if found.Some? {
        activeTask := found;
      }
    }

    /** `handleDragEnd`: clears the overlay and returns the `onStatusChange` call, if any. */
    method DragEnd(active: Option<string>, over: Option<string>) returns (call: Option<(string, Status)>)
      modifies this
      ensures activeTask == None && menuOpenId == old(menuOpenId)
      ensures call == BoardDrop(active, over)
    {
      activeTask := None;
      call := BoardDrop(active, over);
    }

    /** The menu button of card `id`. */
    method ClickMenu(id: string)
      modifies this
      ensures menuOpenId == MenuAfterClick(old(menuOpenId), id)
      ensures ShowsMenu(id) <==> !old(ShowsMenu(id))
      ensures forall other :: other != id ==> !ShowsMenu(other)
      ensures activeTask == old(activeTask)
    {
      menuOpenId := if menuOpenId == Some(id) then None else Some(id);
    }
  }
}
