/**
 * The add-team-task dialog, task-manager-frontend/src/components/TeamTaskModal.tsx:
 * the assignee multi-select, the initial field values and the submitted body.
 */
module TeamTaskModal {
  import opened Common
  import opened Seqs
  import opened TeamTaskBoard

  /** `e => e !== email`. */
  function Other(email: string): string -> bool
  {
    (e: string) => e != email
  }

  /** `prev.includes(email) ? prev.filter(e => e !== email) : [...prev, email]`. */
  function ToggleAssignee(prev: seq<string>, email: string): (r: seq<string>)
    ensures email in r <==> email !in prev
  {
    if email in prev then Filter(prev, Other(email)) else prev + [email]
  }

  predicate NoDuplicates(s: seq<string>)
  {
    forall i, j :: 0 <= i < j < |s| ==> s[i] != s[j]
  }

  /**
   * A selected email is taken out (every copy of it), an unselected one is
   * appended at the end, and no other email changes membership.
   */
  lemma ToggleAssigneeSpec(prev: seq<string>, email: string)
    ensures email in prev ==> ToggleAssignee(prev, email) == Filter(prev, Other(email))
    ensures email !in prev ==> ToggleAssignee(prev, email) == prev + [email]
    ensures forall x :: x != email ==> (x in ToggleAssignee(prev, email) <==> x in prev)
  {
    forall x | x != email ensures x in ToggleAssignee(prev, email) <==> x in prev {
      FilterMembership(prev, Other(email), x);
    }
  }

  lemma {:induction false} FilterNoDuplicates(s: seq<string>, p: string -> bool)
    requires NoDuplicates(s)
    ensures NoDuplicates(Filter(s, p))
    decreases |s|
  {
    if s != [] {
      assert NoDuplicates(s[1..]) by {
        forall i, j | 0 <= i < j < |s[1..]| ensures s[1..][i] != s[1..][j] {
          assert s[1..][i] == s[i + 1] && s[1..][j] == s[j + 1];
        }
      }
      FilterNoDuplicates(s[1..], p);
      assert s[0] !in s[1..] by {
        forall k | 0 <= k < |s[1..]| ensures s[1..][k] != s[0] {
          assert s[1..][k] == s[k + 1];
        }
      }
    }
  }

  /** The selection never gains a duplicate. */
  lemma ToggleKeepsNoDuplicates(prev: seq<string>, email: string)
    requires NoDuplicates(prev)
    ensures NoDuplicates(ToggleAssignee(prev, email))
  {
    if email in prev {
      FilterNoDuplicates(prev, Other(email));
    }
  }

  /** Ticking an unselected member and then unticking it restores the exact list. */
  lemma ToggleTwiceRestores(prev: seq<string>, email: string)
    requires email !in prev
    ensures ToggleAssignee(ToggleAssignee(prev, email), email) == prev
  {
    FilterAppend(prev, [email], Other(email));
    FilterAll(prev, Other(email));
  }

  // ------------------------------------------------------------ fields

  datatype Fields = Fields(taskName: string, description: string, dueDate: string)

  /** `initialTask?.x || ''` for the name, the description and the due date. */
  function InitialFields(initialTask: Option<TeamTask>): (r: Fields)
    ensures initialTask.None? ==> r == Fields("", "", "")
    ensures initialTask.Some? ==> r.taskName == initialTask.value.taskName
    ensures initialTask.Some? && initialTask.value.description.Some? ==> r.description == initialTask.value.description.value
    ensures initialTask.Some? && initialTask.value.dueDate.Some? ==> r.dueDate == initialTask.value.dueDate.value
    ensures initialTask.Some? && initialTask.value.description.None? ==> r.description == ""
    ensures initialTask.Some? && initialTask.value.dueDate.None? ==> r.dueDate == ""
  {
    match initialTask
    case None => Fields("", "", "")
    case Some(t) =>
      Fields(if t.taskName != "" then t.taskName else "",
             match t.description { case Some(d) => (if d != "" then d else "") case None => "" },
             match t.dueDate { case Some(d) => (if d != "" then d else "") case None => "" })
  }

  datatype Payload = Payload(taskName: string, description: string, dueDate: string, teamId: int,
                             assignedTo: seq<string>)

  /** The POST body; `selectedAssignees.length > 0 ? selectedAssignees : []` is always the selection. */
  function SubmitPayload(fields: Fields, teamId: int, selected: seq<string>): (r: Payload)
    ensures r.assignedTo == selected
    ensures r.taskName == fields.taskName && r.description == fields.description && r.dueDate == fields.dueDate
    ensures r.teamId == teamId
  {
    Payload(fields.taskName, fields.description, fields.dueDate, teamId,
            if |selected| > 0 then selected else [])
  }
}
