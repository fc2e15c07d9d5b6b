# SimpleTaskManager core in Dafny

This project models the core of SimpleTaskManager in Dafny and proves properties of the model. SimpleTaskManager is a personal and team task manager with an Express/Postgres backend and a React frontend. The model has two parts.

**The personal task store.** These are the five `/api/tasks*` handlers of `task-manager-backend/index.js`, acting on the table `taskstatusdb` (module `TaskStore`).
- The table is a sequence of rows. Each handler is first written as a pure function from the old table to a reply and a new table. A class `TaskStatusDb` then runs the same guard chains step by step, and its methods are proved equal to those functions.
- Every handler takes the bearer token with `split(' ')[1]`, which is modelled exactly. The signature check `jwt.verify` is a parameter: a function from a token to the email it carries, if any.
- `ORDER BY date_created DESC` is stated as a relation: the caller's rows, each as often as stored, newest first. It is not a single function, because rows created at the same instant may come back in any order.

**The client board logic** of `task-manager-frontend/src`, with one module per component:
- `Dashboard`: adding a task, changing status, the page's drag handlers and delete confirmation;
- `TaskBoard`: columns, per-column sorting, drag and the card menu;
- `TeamTaskBoard`: status buckets, the admin-only drop, and the assignee checkboxes;
- `TeamDashboard`: the assignee `completed` patch, members, the admin test and the status guard;
- `TeamCalendar`: the month grid, day keys, tasks grouped by day, and month navigation;
- `TeamTaskModal`: the assignee selection, the initial fields and the submitted payload;
- `ActivityFeed`: the activity sentences;
- `TeamChat`: the history shift, live messages, the send guard, day separators and "You";
- `TodayPanel`: the tasks due today and the empty state.

Component state that the handlers update is a class whose methods state the whole new state.

Three modules are shared:
- `Common`: the five statuses, the task record of `types.ts`, and the activity record;
- `Seqs`: `filter`, `find` and `findIndex`, with their laws;
- `Strings`: the JavaScript string operations the code uses, written out. These are `split`, `trim`, `toLowerCase`, `replace` with a string pattern, `<` on strings, `toString` and `padStart(2, '0')`.

Fetches and socket emits are not performed. A handler returns the request or event it would send as a value, and answers such as `res.ok` come in as parameters.

## Model

| member | source | states |
|---|---|---|
| Common.ParseStatus | task-manager-frontend/src/types.ts:4 | a string is taken as a status only when it is exactly that status's wire name |
| Common.ParseStatusName | task-manager-frontend/src/types.ts:4 | each of the five statuses is recognised under its own name and is in the column list |
| Common.ParseStatusIff | task-manager-backend/index.js:103-105 | a value passes `allowedStatuses.includes` exactly when it is the name of one of the five statuses |
| Seqs.Find | task-manager-frontend/src/components/TaskBoard.tsx:22 | `find` yields nothing exactly when no element matches, and otherwise the element at the first matching position |
| Seqs.FindIndex | task-manager-frontend/src/components/TaskBoard.tsx:22 | the first matching position: every earlier element fails the test, and -1 exactly when none matches |
| Strings.JoinSplit | task-manager-backend/index.js:46 | `split(' ')` loses nothing: joining the segments with the separator restores the header |
| Strings.SplitJoin | task-manager-backend/index.js:46 | splitting a join of separator-free segments gives back exactly those segments |
| Strings.TrimEmptyIff | task-manager-frontend/src/pages/Dashboard.tsx:120 | `trim()` yields "" exactly when every character is ECMAScript whitespace |
| Strings.ReplaceFirstSpec | task-manager-frontend/src/components/TeamActivityFeed.tsx:70 | `replace('_', ' ')` changes only the first underscore; later ones and every other character stay |
| Strings.LexLessTrichotomy | task-manager-frontend/src/pages/Dashboard.tsx:125 | any two strings are comparable under `<`: one is below the other, or they are equal |
| Strings.LexLessTransitive | task-manager-frontend/src/pages/Dashboard.tsx:125 | string `<` is transitive |
| Strings.LexLessEqTotal | task-manager-frontend/src/components/TaskBoard.tsx:108 | the sort's comparison orders any two due dates one way or the other |
| Strings.ParseNatToString | task-manager-frontend/src/components/TeamCalendarView.tsx:64 | reading `n.toString()` back as a decimal gives n |
| Strings.TwoDigits | task-manager-frontend/src/components/TeamCalendarView.tsx:65-66 | `toString().padStart(2, '0')` of a number below 100 is two digits that read back as the number |
| TaskStore.BearerToken | task-manager-backend/index.js:45-48 | a token taken from the header is never empty and never contains a space |
| TaskStore.BearerTokenOfHeader | task-manager-backend/index.js:45-46 | a header `<scheme> <token>` yields exactly that token |
| TaskStore.BearerTokenNoSpace | task-manager-backend/index.js:46-48 | a header with no space (a bare token) has no second segment, so the handler answers 401 |
| TaskStore.BearerTokenDoubleSpace | task-manager-backend/index.js:46-48 | two spaces after the scheme leave an empty second segment, so the handler answers 401 |
| TaskStore.OrNull | task-manager-backend/index.js:61 | `x \|\| null` is null exactly for a missing or empty string and keeps every other value |
| TaskStore.CreateOutcome | task-manager-backend/index.js:44-69 | 401 with no change without a usable token or with a bad one; 400 with no change for a missing, empty or non-string title; otherwise 201 and exactly one appended row (caller's email, 'incomplete', the given due date, description or null), so the caller owns one row more |
| TaskStore.CreateAcceptsBlankTitle | task-manager-backend/index.js:54-56 | a title of spaces only is accepted, because the handler does not trim |
| TaskStore.CreateIgnoresTeamId | task-manager-backend/index.js:52 | the request's `team_id` has no effect on the reply or the table |
| TaskStore.InsertNewest | task-manager-backend/index.js:80 | inserting a row into a newest-first list keeps it newest first and adds exactly that row |
| TaskStore.SortNewestFirst | task-manager-backend/index.js:80 | the listing order is newest first and a permutation of its input |
| TaskStore.ListingMembership | task-manager-backend/index.js:79-84 | a row is listed exactly when it is stored and belongs to the caller |
| TaskStore.SetStatusWhereAt | task-manager-backend/index.js:109-112 | the update gives each matching row the new status and leaves every other row as it was |
| TaskStore.SetStatusWhereSpec | task-manager-backend/index.js:109-112 | the same, stated for all rows at once; when no row matches, the table is unchanged |
| TaskStore.SetStatusWhereIdempotent | task-manager-backend/index.js:109-112 | running the same status update twice gives the same table as running it once |
| TaskStore.UpdateOutcome | task-manager-backend/index.js:91-120 | a status outside the five names gives 400 with no change; any of the five gives 200 and sets the status of exactly the caller's rows with that name, keeping every other row and field; it is 200 even when no row matched |
| TaskStore.UpdateAcceptsOverdue | task-manager-backend/index.js:103-107 | the server accepts 'overdue' like any other status |
| TaskStore.DeleteOutcome | task-manager-backend/index.js:122-145 | 200; a row survives exactly when it is stored and is not one of the caller's rows with that name; the survivors keep their order, and the table shrinks by the number of matching rows |
| TaskStore.EditWhereAt | task-manager-backend/index.js:159-162 | each matching row gets the new name and due date; every other row is unchanged |
| TaskStore.EditOutcome | task-manager-backend/index.js:147-169 | 200; the caller's rows with the original name are renamed and get the due date, or null when it is empty; no row's status, description, owner or creation time changes, and the sent description is ignored |
| TaskStore.NoTokenChangesNothing | task-manager-backend/index.js:45-48 | without a usable token, all five routes answer 401 'No token' and the four that write leave the table unchanged |
| TaskStore.TaskStatusDb.PostTasks | task-manager-backend/index.js:44-69 | the route's guard chain, run step by step, gives the reply and table that `HandleCreate` specifies |
| TaskStore.TaskStatusDb.GetTasks | task-manager-backend/index.js:71-89 | 401 'No token' or 'Invalid token'; otherwise the listing is a permitted answer of the SELECT: the caller's rows, newest first |
| TaskStore.TaskStatusDb.PutUpdate | task-manager-backend/index.js:91-120 | the step-by-step guard chain equals `HandleUpdate`, so a bad token gives 400 'Error updating task' |
| TaskStore.TaskStatusDb.PostDelete | task-manager-backend/index.js:122-145 | the step-by-step guard chain equals `HandleDelete` |
| TaskStore.TaskStatusDb.PutEdit | task-manager-backend/index.js:147-169 | the step-by-step guard chain equals `HandleEdit` |
| TaskBoard.BoardDrop | task-manager-frontend/src/components/TaskBoard.tsx:26-34 | `onStatusChange` is called exactly when both ends are present, their ids differ and the target is a status name; it receives the dragged id and that status |
| TaskBoard.BoardForwardsOverdue | task-manager-frontend/src/components/TaskBoard.tsx:31-33 | the board itself forwards a drop on 'overdue' |
| TaskBoard.InsertByDue | task-manager-frontend/src/components/TaskBoard.tsx:108 | inserting by due date keeps a column sorted and adds exactly one task |
| TaskBoard.SortByDue | task-manager-frontend/src/components/TaskBoard.tsx:108 | a column's order is ascending by due date, with a missing date as "", and is a permutation of its tasks |
| TaskBoard.ColumnContents | task-manager-frontend/src/components/TaskBoard.tsx:44-48 | a column holds each task with its status as often as the board does, no other task, and is sorted by due date |
| TaskBoard.UndatedSortsFirst | task-manager-frontend/src/components/TaskBoard.tsx:108 | a task without a due date sorts no later than any other |
| TaskBoard.InsertByDueStable | task-manager-frontend/src/components/TaskBoard.tsx:108 | inserting keeps the order of tasks that share a due date |
| TaskBoard.SortByDueStable | task-manager-frontend/src/components/TaskBoard.tsx:107-108 | the sort is stable: tasks with equal due dates keep their board order |
| TaskBoard.MenuAfterClick | task-manager-frontend/src/components/TaskBoard.tsx:186 | after a click the card's menu is open exactly when it was closed before; any open menu is this card's |
| TaskBoard.MenuClickTwice | task-manager-frontend/src/components/TaskBoard.tsx:186 | when no menu or this card's own menu was open, clicking its button twice restores that state; with another card's menu open, two clicks leave every menu closed, so the state is not restored |
| TaskBoard.TaskBoardState.DragStart | task-manager-frontend/src/components/TaskBoard.tsx:20-24 | the active task becomes the first task with the dragged name; with no match it keeps its old value |
| TaskBoard.TaskBoardState.DragEnd | task-manager-frontend/src/components/TaskBoard.tsx:26-34 | clears the active task, and the call made is `BoardDrop`'s |
| TaskBoard.TaskBoardState.ClickMenu | task-manager-frontend/src/components/TaskBoard.tsx:156-186 | this card's menu toggles and every other card's menu is closed: at most one menu is open |
| Dashboard.AddTaskSendsIff | task-manager-frontend/src/pages/Dashboard.tsx:112-142 | a request is sent exactly when there is a token, neither name nor due date is whitespace only, and the due date is not below today; a due date equal to today is allowed, and the name is sent untrimmed |
| Dashboard.PageDrop | task-manager-frontend/src/pages/Dashboard.tsx:280-289 | a move happens only with both ends present, different ids and a status target that is not 'overdue'; 'overdue' is rejected exactly when it is the target |
| Dashboard.SetStatusByNameAt | task-manager-frontend/src/pages/Dashboard.tsx:302-306 | the local patch sets the status of each task with the dragged name and leaves every other task as it was |
| Dashboard.SetStatusByNameSpec | task-manager-frontend/src/pages/Dashboard.tsx:302-306 | the patch changes only the status, only of tasks with that name, keeps the length, and applying it twice is applying it once |
| Dashboard.DashboardState.AddTask | task-manager-frontend/src/pages/Dashboard.tsx:112-152 | the outcome is `AddTaskCheck`'s; on submit the form is cleared and the modal closed, otherwise nothing changes |
| Dashboard.DashboardState.StatusChange | task-manager-frontend/src/pages/Dashboard.tsx:179-202 | without a token nothing happens; 'overdue' sends nothing and only raises the error toast; any other status is sent and shown in the success toast |
| Dashboard.DashboardState.DragStart | task-manager-frontend/src/pages/Dashboard.tsx:271-275 | the active task becomes the first task with the dragged name; with no match it keeps its old value |
| Dashboard.DashboardState.DragEnd | task-manager-frontend/src/pages/Dashboard.tsx:277-317 | clears the active task; an ignored drop changes nothing; 'overdue' sends nothing and raises the error toast; a move sends the update and applies the local patch |
| Dashboard.DashboardState.AskDelete | task-manager-frontend/src/pages/Dashboard.tsx:481 | the confirmation remembers the task name |
| Dashboard.DashboardState.ConfirmDelete | task-manager-frontend/src/pages/Dashboard.tsx:243-262 | nothing is sent without a non-empty pending name and a token; otherwise the delete is sent and the pending name cleared |
| Dashboard.DropOnBoard | task-manager-frontend/src/pages/Dashboard.tsx:179-186 | through the board's handler, a drop on 'overdue' sends nothing, and any request sent is a status update other than 'overdue' |
| TeamTaskBoard.GroupedTasks | task-manager-frontend/src/components/TeamTaskBoard.tsx:63-66 | every status gets a bucket, and bucket s is exactly the tasks with status s, in list order |
| TeamTaskBoard.BucketsPartition | task-manager-frontend/src/components/TeamTaskBoard.tsx:63-66 | each task is in the bucket of its own status and in no other, and the five bucket sizes add up to the number of tasks |
| TeamTaskBoard.TeamDrop | task-manager-frontend/src/components/TeamTaskBoard.tsx:77-93 | an effect happens exactly for an admin, with both ends present and a status target; it carries the dragged id, that status and the 'updated_task_status' activity |
| TeamTaskBoard.TeamDropDiffersFromBoard | task-manager-frontend/src/components/TeamTaskBoard.tsx:79-85 | a non-admin's drop does nothing; for every status, an admin's drop of a card whose id equals that column's id goes through, where the personal board ignores it |
| TeamTaskBoard.OwnRowEnabled | task-manager-frontend/src/components/TeamTaskBoard.tsx:236 | your own row is enabled, and lower-casing either email never changes which rows are enabled |
| TeamTaskBoard.ToggleFor | task-manager-frontend/src/components/TeamTaskBoard.tsx:243-245 | the checkbox asks for the opposite of the current flag, for that assignee of that task and team |
| TeamTaskBoard.AssigneeLabel | task-manager-frontend/src/components/TeamTaskBoard.tsx:247 | "You" for an exactly equal email, otherwise the assignee's name |
| TeamTaskBoard.EnabledButNotYou | task-manager-frontend/src/components/TeamTaskBoard.tsx:236-247 | for every assignee and user whose emails differ but agree after lower-casing, the row is enabled yet captioned with the assignee's name, not "You" |
| TeamTaskBoard.EnabledButNotYouExample | task-manager-frontend/src/components/TeamTaskBoard.tsx:236-247 | such rows exist: "Ann@x" for the user "ann@x" |
| TeamTaskBoard.TeamBoardState.DragStart | task-manager-frontend/src/components/TeamTaskBoard.tsx:72-76 | the active task is the first name match, or none when nothing matches |
| TeamTaskBoard.TeamBoardState.DragEnd | task-manager-frontend/src/components/TeamTaskBoard.tsx:77-93 | clears the active task, and the guard chain yields `TeamDrop`'s effect |
| TeamDashboard.PatchAssigneesAt | task-manager-frontend/src/pages/TeamDashboard.tsx:143-145 | only assignees with the given email get the new flag |
| TeamDashboard.PatchAssigneeAt | task-manager-frontend/src/pages/TeamDashboard.tsx:138-149 | only tasks with the given id have their assignees patched |
| TeamDashboard.PatchAssigneeSpec | task-manager-frontend/src/pages/TeamDashboard.tsx:138-149 | the patch changes only `completed`, only of matching assignees in matching tasks; the task list and every `assigned_to` keep their lengths and all other fields |
| TeamDashboard.PatchAssigneeLastWins | task-manager-frontend/src/pages/TeamDashboard.tsx:222-234 | two patches of the same assignee leave the second value, so the broadcast after a local patch changes nothing |
| TeamDashboard.PatchAssigneesLastWins | task-manager-frontend/src/pages/TeamDashboard.tsx:143-145 | the same, for one task's assignee list |
| TeamDashboard.ToggleFlipsFlag | task-manager-frontend/src/pages/TeamDashboard.tsx:138-149 | a checkbox toggle, once patched in, flips that assignee's flag |
| TeamDashboard.FormatMembers | task-manager-frontend/src/pages/TeamDashboard.tsx:177-182 | member formatting keeps the length, and both email and name come from `m.name` |
| TeamDashboard.FormatMembersInvertible | task-manager-frontend/src/pages/TeamDashboard.tsx:177-182 | the original members are recovered from the formatted emails |
| TeamDashboard.NonAdminBoardInert | task-manager-frontend/src/pages/TeamDashboard.tsx:38 | before the team loads, and for any role other than 'admin', the board ignores every drop; an effect implies the role is exactly 'admin' |
| TeamDashboard.StatusChangeRequest | task-manager-frontend/src/pages/TeamDashboard.tsx:185-205 | a request is sent exactly when there is a token and the status is not 'overdue' |
| TeamDashboard.OverdueDropLoggedNotSent | task-manager-frontend/src/pages/TeamDashboard.tsx:190-193 | an admin's drop on 'overdue' sends no update, yet the board has already broadcast the activity |
| TeamDashboard.TeamDashboardState.ToggleAssigneeComplete | task-manager-frontend/src/pages/TeamDashboard.tsx:110-156 | without a token nothing is sent; otherwise the request is sent, and the list is patched only when the answer is ok |
| TeamDashboard.TeamDashboardState.AssigneeStatusUpdated | task-manager-frontend/src/pages/TeamDashboard.tsx:222-234 | the socket handler applies the same patch |
| TeamDashboard.TeamDashboardState.LoadMembers | task-manager-frontend/src/pages/TeamDashboard.tsx:169-183 | the member list becomes the formatted answer |
| TeamDashboard.ToggleThenBroadcast | task-manager-frontend/src/pages/TeamDashboard.tsx:136-149 | a successful local toggle followed by the server's broadcast of it leaves the list patched once |
| TeamCalendar.DaysInMonth | task-manager-frontend/src/components/TeamCalendarView.tsx:48 | the month length lies between 28 and 31, and is 29 exactly for February of a leap year |
| TeamCalendar.YearLength | task-manager-frontend/src/components/TeamCalendarView.tsx:48 | the twelve month lengths add up to 366 in a leap year and 365 otherwise |
| TeamCalendar.DaysArray | task-manager-frontend/src/components/TeamCalendarView.tsx:51 | the grid has `firstDayOfMonth + daysInMonth` cells |
| TeamCalendar.DaysArraySpec | task-manager-frontend/src/components/TeamCalendarView.tsx:51-53 | the first `firstDayOfMonth` cells are blank; cell i holds day i - first + 1; the days increase and are exactly 1 to daysInMonth |
| TeamCalendar.FormatDateKeyFields | task-manager-frontend/src/components/TeamCalendarView.tsx:63-68 | the key is `Y-MM-DD`: the year's digits, the 1-based month and the day, each as two digits that read back as those numbers |
| TeamCalendar.FormatDateKeyInjective | task-manager-frontend/src/components/TeamCalendarView.tsx:63-68 | different days never share a key |
| TeamCalendar.BuildTaskMap | task-manager-frontend/src/components/TeamCalendarView.tsx:55-61 | a day has a bucket exactly when some dated task falls on it, and the bucket is those tasks in list order |
| TeamCalendar.TaskMapPlacesOnce | task-manager-frontend/src/components/TeamCalendarView.tsx:57-60 | a dated task is in the bucket of its own day and no other; an undated task is in none |
| TeamCalendar.SetMonth | task-manager-frontend/src/components/TeamCalendarView.tsx:72 | `setMonth` as written gives a valid date: in the target month with the same day when that day exists there; otherwise in the month after, on day `d.day - DaysInMonth(target)`, which is smaller than `d.day` |
| TeamCalendar.SetMonthSkipsFebruary | task-manager-frontend/src/components/TeamCalendarView.tsx:70-73 | on 31 January 2025, "Next" lands on 3 March, two months on |
| TeamCalendar.ShiftMonth | task-manager-frontend/src/components/TeamCalendarView.tsx:70-75 | the intended move lands exactly `offset` months away, on a valid day, keeping the day when that month has it |
| TeamCalendar.SetMonthAgreesWhenDayFits | task-manager-frontend/src/components/TeamCalendarView.tsx:72 | the written and intended moves agree exactly when the day exists in the target month |
| TeamCalendar.ShiftMonthBack | task-manager-frontend/src/components/TeamCalendarView.tsx:80-87 | "Next" then "Prev" returns to the same month, and to the same date when the day fits |
| TeamCalendar.CalendarState.Grid | task-manager-frontend/src/components/TeamCalendarView.tsx:48-53 | the grid of the month on show has one cell per leading blank and per day |
| TeamCalendar.CalendarState.ChangeMonth | task-manager-frontend/src/components/TeamCalendarView.tsx:70-75 | moves `offset` months and always clears the selected date |
| TeamCalendar.CalendarState.SelectDay | task-manager-frontend/src/components/TeamCalendarView.tsx:100-106 | selecting a cell stores that cell's key |
| TeamCalendar.CalendarState.Close | task-manager-frontend/src/components/TeamCalendarView.tsx:142 | Close clears the selected date |
| TeamTaskModal.ToggleAssignee | task-manager-frontend/src/components/TeamTaskModal.tsx:19-23 | after the toggle the email is selected exactly when it was not before |
| TeamTaskModal.ToggleAssigneeSpec | task-manager-frontend/src/components/TeamTaskModal.tsx:21 | a selected email is filtered out, an unselected one is appended at the end, and no other email changes membership |
| TeamTaskModal.FilterNoDuplicates | task-manager-frontend/src/components/TeamTaskModal.tsx:21 | filtering a duplicate-free selection keeps it duplicate-free |
| TeamTaskModal.ToggleKeepsNoDuplicates | task-manager-frontend/src/components/TeamTaskModal.tsx:19-23 | toggling never introduces a duplicate |
| TeamTaskModal.ToggleTwiceRestores | task-manager-frontend/src/components/TeamTaskModal.tsx:19-23 | ticking an unselected member and then unticking it restores the exact list |
| TeamTaskModal.InitialFields | task-manager-frontend/src/components/TeamTaskModal.tsx:14-16 | the fields come from the initial task, or are '' when it or the field is absent |
| TeamTaskModal.SubmitPayload | task-manager-frontend/src/components/TeamTaskModal.tsx:33-40 | the sent `assigned_to` always equals the selection, the empty list included; the other fields are as entered |
| ActivityFeed.ActorLabel | task-manager-frontend/src/components/TeamActivityFeed.tsx:62 | "You" exactly when the actor's email equals the user's, otherwise the email |
| ActivityFeed.DestinationText | task-manager-frontend/src/components/TeamActivityFeed.tsx:70 | a missing destination is shown as "undefined"; a present one keeps its length |
| ActivityFeed.RenderMessage | task-manager-frontend/src/components/TeamActivityFeed.tsx:61-73 | every sentence starts with the actor label and ends with a quote |
| ActivityFeed.RenderMessageCases | task-manager-frontend/src/components/TeamActivityFeed.tsx:61-73 | for every entry: 'edited_task' gives "<actor> edited task '<target>'", 'deleted_task' gives "<actor> deleted task '<target>'", both update actions give "<actor> updated status for '<target>' to '<destination shown>'", and any other action gives "<actor> performed '<action>' on '<target>'" |
| ActivityFeed.UpdateActionsAgree | task-manager-frontend/src/components/TeamActivityFeed.tsx:68-70 | 'updated_task' and 'updated_task_status' render identically |
| ActivityFeed.CreatedIsGeneric | task-manager-frontend/src/components/TeamActivityFeed.tsx:71-72 | 'created_task' gets the generic "performed" sentence |
| ActivityFeed.ReplaceAfterPrefix | task-manager-frontend/src/components/TeamActivityFeed.tsx:70 | in `a_b`, where `a` has no underscore, that underscore becomes a space |
| ActivityFeed.ReplaceNone | task-manager-frontend/src/components/TeamActivityFeed.tsx:70 | a destination with no underscore is shown as it is |
| ActivityFeed.StatusDestinationShown | task-manager-frontend/src/components/TeamActivityFeed.tsx:70 | status names are shown as "in progress" and "on hold", or unchanged, with no underscore left |
| ActivityFeed.OnlyFirstUnderscore | task-manager-frontend/src/components/TeamActivityFeed.tsx:70 | only the first underscore is replaced; a second one stays |
| ActivityFeed.BoardDropRendered | task-manager-frontend/src/components/TeamActivityFeed.tsx:68-70 | the activity a team-board drop broadcasts reads "<email> updated status for '<task>' to '<status shown>'" |
| TeamChat.AdjustHistory | task-manager-frontend/src/components/TeamChatBox.tsx:44-48 | history messages are moved exactly 14,400,000 ms earlier and flagged as history |
| TeamChat.AdjustHistoryInvertible | task-manager-frontend/src/components/TeamChatBox.tsx:44-48 | the shift keeps the sender and text, and adding the 4 hours back restores each message |
| TeamChat.SenderLabel | task-manager-frontend/src/components/TeamChatBox.tsx:101 | "You" exactly when the sender's email equals the user's, otherwise the email |
| TeamChat.SeparatorFlags | task-manager-frontend/src/components/TeamChatBox.tsx:77-90 | one flag per message, set exactly when its label differs from the previous one ("" before the first) |
| TeamChat.SeparatorRuns | task-manager-frontend/src/components/TeamChatBox.tsx:82-90 | with non-empty labels the first message has a separator, and a run from one day shows exactly one |
| TeamChat.ChatBoxState.LoadHistory | task-manager-frontend/src/components/TeamChatBox.tsx:44-49 | the loaded, shifted history replaces the list |
| TeamChat.ChatBoxState.ReceiveMessage | task-manager-frontend/src/components/TeamChatBox.tsx:57-59 | a new message is appended at the end and earlier messages stay unchanged |
| TeamChat.ChatBoxState.SetInput | task-manager-frontend/src/components/TeamChatBox.tsx:115 | typing replaces the input |
| TeamChat.ChatBoxState.Send | task-manager-frontend/src/components/TeamChatBox.tsx:66-75 | nothing is sent exactly when the input is whitespace only, and the input then stays; otherwise the untrimmed text is sent once and the input cleared |
| TodayPanel.TodayTasksSpec | task-manager-frontend/src/components/TodayPanel.tsx:14-16 | a task is listed exactly when it is due today; the list is in board order and a subsequence of the board; tasks without a due date are never listed |
| TodayPanel.Render | task-manager-frontend/src/components/TodayPanel.tsx:23-37 | the empty state is shown exactly when no task is due today; otherwise the list shows the name of each task due today, in order |
| TodayPanel.EmptyStateIff | task-manager-frontend/src/components/TodayPanel.tsx:23-24 | "No tasks due today" is shown exactly when no task on the board is due today |

## Left out

- Google OAuth and token signing (`task-manager-backend/auth/google.js`) are not modelled, nor is the cryptography of `jwt.verify` and `jwtDecode`. Verification is the parameter `verify`, and the team page's user email is not modelled.
- The Postgres pool, Express, CORS and cookie middleware are not modelled; the table is held in memory. Database errors and their 401/400 answers are not modelled, nor is Postgres's coercion of non-string `due_date`, `description` or `task_name` values.
- TaskStore.EditOutcome: a missing `new_name` (SQL NULL) is not modelled; the new name is always a string.
- TaskStore.TaskStatusDb.GetTasks: the contract permits any newest-first order of the caller's rows, because SQL leaves ties unordered; the body returns one such order.
- The other backend routes, the overdue sweep and the statistics are not modelled. These are team, assignee-status, chat, activity and user-stats. `index.js` lines 44-169 hold only the personal routes, which is what is modelled.
- `fetch`, `localStorage`, socket subscriptions and emits, follow-up re-fetches, and `setTimeout` toast timers are not modelled. Requests and events are returned as values; answers such as `res.ok` are parameters. `useChat.ts` is not part of this model.
- Clock, locale and time zones are parameters:
  - `today` (`toLocaleDateString('en-CA', Toronto)`);
  - the weekday of the 1st (`getDay`);
  - the day a due date falls on (`toISOString().split('T')[0]`);
  - chat day labels (`getDateLabel`).
- `formatTimestamp` and `toLocaleTimeString` are not modelled.
- TeamCalendar.BuildTaskMap: the day of a due date is the parameter `dayKey`, a total function. An unparsable due date, for which `new Date(..).toISOString()` throws and the calendar fails to render, is not modelled.
- TeamChat.AdjustHistory: a time is an integer count of milliseconds. The ISO string round trip and invalid dates are not modelled.
- Strings.ToLower: only ASCII letters are folded. JavaScript's full Unicode case mapping is not modelled.
- Strings.LexLess: characters are compared as Dafny characters, not UTF-16 code units. `localeCompare` in the column sort is treated as this plain order, which matches it on ISO date strings.
- TeamCalendar.FormatDateKeyFields: the field lemma is stated for years from 0 on and days below 100. `${y}` of a negative year adds a '-' of its own. Years 0 to 99, which `new Date(y, ...)` maps to 1900+y, are not modelled.
- TeamCalendar.CalendarState.ChangeMonth: this uses the corrected month arithmetic `ShiftMonth`; the source's `setMonth` overflow is modelled by `SetMonth` (see Findings).
- TeamTaskBoard.TeamDrop: the activity's `timestamp` is not modelled.
- `Dashboard.tsx` defines `handleDragStart` and `handleDragEnd` but never passes them to a drag context; the board's own handlers are used. They are modelled as written.
- Dashboard.DashboardState.DragEnd: the 300 ms delayed re-fetch and the toast reset are not modelled.
- History loading racing live messages is not modelled. A `new_message` that arrives before the history answer is overwritten by `LoadHistory`.
- The edit handlers and the team delete handler of the two pages are not modelled, because they only forward form fields.
- The presentational components, rendering, dnd-kit sensors and collision detection, and CSS are not modelled.

## Findings

| source | as written | input that shows it | evidently intended | confidence | as-written member | corrected member |
|---|---|---|---|---|---|---|
| task-manager-frontend/src/components/TeamCalendarView.tsx:70-73 | `changeMonth` calls `setMonth(getMonth() + offset)` on the current date. This keeps the day of the month, so a day the target month lacks rolls into the month after. | Current date 31 January 2025, then "Next ›". The result is 3 March 2025: the calendar shows March and February is skipped. | "Next"/"Prev" move exactly one month, whatever the day | not executed | TeamCalendar.SetMonthSkipsFebruary | TeamCalendar.ShiftMonth |
