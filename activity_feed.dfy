/**
 * The team activity log, task-manager-frontend/src/components/TeamActivityFeed.tsx:
 * the sentence each log entry is shown as.
 */
module ActivityFeed {
  import opened Common
  import opened Strings
  import TeamTaskBoard

  /** `entry.actor_email === userEmail ? 'You' : entry.actor_email`. */
  function ActorLabel(entry: Activity, userEmail: string): (r: string)
    ensures entry.actorEmail == userEmail ==> r == "You"
    ensures entry.actorEmail != userEmail ==> r == entry.actorEmail
  {
    if entry.actorEmail == userEmail then "You" else entry.actorEmail
  }

  /**
   * `entry.destination?.replace('_', ' ')` inside a template: the first
   * underscore becomes a space, and a missing destination is shown as
   * "undefined".
   */
  function DestinationText(destination: Option<string>): (r: string)
    ensures destination.None? ==> r == "undefined"
    ensures destination.Some? ==> |r| == |destination.value|
  {
    match destination
    case None => "undefined"
    case Some(d) => ReplaceFirst(d, '_', ' ')
  }

  /** `renderMessage`: the `switch` on the action. */
  function RenderMessage(entry: Activity, userEmail: string): (r: string)
    ensures ActorLabel(entry, userEmail) <= r
    ensures |r| > 0 && r[|r| - 1] == '\''
  {
    var actor := ActorLabel(entry, userEmail);
    if entry.action == "edited_task" then
      actor + " edited task '" + entry.target + "'"
    else if entry.action == "deleted_task" then
      actor + " deleted task '" + entry.target + "'"
    else if entry.action == "updated_task" || entry.action == "updated_task_status" then
      actor + " updated status for '" + entry.target + "' to '" + DestinationText(entry.destination) + "'"
    else
      actor + " performed '" + entry.action + "' on '" + entry.target + "'"
  }

  /**
   * The sentence for every entry, case by case: the edit and delete
   * sentences, the one update sentence shared by both update actions, and
   * the generic sentence for any other action.
   */
  lemma RenderMessageCases(entry: Activity, userEmail: string)
    ensures entry.action == "edited_task" ==>
      RenderMessage(entry, userEmail) == ActorLabel(entry, userEmail) + " edited task '" + entry.target + "'"
    ensures entry.action == "deleted_task" ==>
      RenderMessage(entry, userEmail) == ActorLabel(entry, userEmail) + " deleted task '" + entry.target + "'"
    ensures entry.action == "updated_task" || entry.action == "updated_task_status" ==>
      RenderMessage(entry, userEmail)
        == ActorLabel(entry, userEmail) + " updated status for '" + entry.target + "' to '"
           + DestinationText(entry.destination) + "'"
    ensures entry.action !in ["edited_task", "deleted_task", "updated_task", "updated_task_status"] ==>
      RenderMessage(entry, userEmail)
        == ActorLabel(entry, userEmail) + " performed '" + entry.action + "' on '" + entry.target + "'"
  {
    if entry.action == "updated_task" || entry.action == "updated_task_status" {
      assert entry.action[0] != "edited_task"[0] && entry.action[0] != "deleted_task"[0];
    }
  }

  /** The two update actions read the same. */
  lemma UpdateActionsAgree(entry: Activity, userEmail: string)
    ensures RenderMessage(entry.(action := "updated_task"), userEmail)
         == RenderMessage(entry.(action := "updated_task_status"), userEmail)
  {
    assert "updated_task"[0] != "edited_task"[0] && "updated_task"[0] != "deleted_task"[0];
    assert "updated_task_status"[0] != "edited_task"[0] && "updated_task_status"[0] != "deleted_task"[0];
  }

  /** 'created_task' is none of the three cases and gets the generic sentence. */
  lemma CreatedIsGeneric(entry: Activity, userEmail: string)
    requires entry.action == "created_task"
    ensures RenderMessage(entry, userEmail)
         == ActorLabel(entry, userEmail) + " performed 'created_task' on '" + entry.target + "'"
  {
    assert "created_task"[0] != "edited_task"[0] && "created_task"[0] != "deleted_task"[0];
    assert "created_task"[0] != "updated_task"[0] && "created_task"[0] != "updated_task_status"[0];
  }

  /** Replacing the first underscore of `a_b`, where `a` has none, gives `a b`. */
  lemma {:induction false} ReplaceAfterPrefix(a: string, b: string)
    requires '_' !in a
    ensures ReplaceFirst(a + "_" + b, '_', ' ') == a + " " + b
    decreases |a|
  {
    if a == [] {
      assert a + "_" + b == "_" + b;
      assert a + " " + b == " " + b;
    } else {
      ReplaceAfterPrefix(a[1..], b);
      assert (a + "_" + b)[1..] == a[1..] + "_" + b;
      assert a + " " + b == [a[0]] + (a[1..] + " " + b);
    }
  }

  /** A string with no underscore is shown as it is. */
  lemma {:induction false} ReplaceNone(s: string)
    requires '_' !in s
    ensures ReplaceFirst(s, '_', ' ') == s
    decreases |s|
  {
    if s != [] {
      ReplaceNone(s[1..]);
      assert s == [s[0]] + s[1..];
    }
  }

  lemma InProgressShown()
    ensures DestinationText(Some("in_progress")) == "in progress"
  {
    assert "in" + "_" + "progress" == "in_progress";
    ReplaceAfterPrefix("in", "progress");
    assert "in" + " " + "progress" == "in progress";
  }

  lemma OnHoldShown()
    ensures DestinationText(Some("on_hold")) == "on hold"
  {
    assert "on" + "_" + "hold" == "on_hold";
    ReplaceAfterPrefix("on", "hold");
    assert "on" + " " + "hold" == "on hold";
  }

  /** Every status name is shown with its one underscore as a space, and with no underscore left. */
  lemma StatusDestinationShown(s: Status)
    ensures s == InProgress ==> DestinationText(Some(StatusName(s))) == "in progress"
    ensures s == OnHold ==> DestinationText(Some(StatusName(s))) == "on hold"
    ensures s != InProgress && s != OnHold ==> DestinationText(Some(StatusName(s))) == StatusName(s)
    ensures '_' !in DestinationText(Some(StatusName(s)))
  {
    match s
    case InProgress => InProgressShown();
    case OnHold => OnHoldShown();
    case _ => ReplaceNone(StatusName(s));
  }

  /** Only the first underscore is replaced: a second one is shown as it is. */
  lemma OnlyFirstUnderscore(a: string, b: string, c: string)
    requires '_' !in a
    ensures DestinationText(Some(a + "_" + b + "_" + c)) == a + " " + b + "_" + c
  {
    ReplaceAfterPrefix(a, b + "_" + c);
    assert a + "_" + b + "_" + c == a + "_" + (b + "_" + c);
    assert a + " " + (b + "_" + c) == a + " " + b + "_" + c;
  }

  /**
   * The activity a team-board drop broadcasts reads, for another viewer,
   * "<email> updated status for '<task>' to '<status shown>'".
   */
  lemma BoardDropRendered(userEmail: string, viewer: string, task: string, over: string)
    requires viewer != userEmail
    requires TeamTaskBoard.TeamDrop(true, userEmail, Some(task), Some(over)).Some?
    ensures RenderMessage(TeamTaskBoard.TeamDrop(true, userEmail, Some(task), Some(over)).value.activity, viewer)
         == userEmail + " updated status for '" + task + "' to '" + ReplaceFirst(over, '_', ' ') + "'"
  {
  }
}
