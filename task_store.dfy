/**
 * The personal-task HTTP handlers of task-manager-backend/index.js
 * (`POST /api/tasks`, `GET /api/tasks`, `PUT /api/tasks/update`,
 * `POST /api/tasks/delete`, `PUT /api/tasks/edit`) over the one table
 * `taskstatusdb`, held here as a sequence of rows.
 *
 * Each handler first takes the bearer token from the Authorization header
 * with `split(' ')[1]`, then asks `jwt.verify` for the caller; signature
 * checking is an oracle `verify` from token to the email claim it carries.
 * `NOW()` is the parameter `now`.
 */
module TaskStore {
  import opened Common
  import opened Seqs
  import opened Strings

  /** One row of `taskstatusdb`. */
  datatype Row = Row(
    email: string,
    taskName: string,
    status: Status,
    dueDate: Option<string>,
    description: Option<string>,
    dateCreated: int)

  /** A field of a JSON request body: missing or null, a string, or any other JSON value. */
  datatype JsonValue = Missing | Str(s: string) | NonString

  /** What a handler answers: a status code with a message, or the `{ tasks }` listing (200). */
  datatype Reply = Message(code: nat, message: string) | TaskList(tasks: seq<Row>)

  // ------------------------------------------------------------ authentication

  /** `authHeader?.split(' ')[1]`, treating the falsy empty string like a missing token. */
  function BearerToken(authorization: Option<string>): (r: Option<string>)
    ensures r.Some? ==> r.value != "" && ' ' !in r.value
  {
    if authorization.None? then None
    else
      var parts := Split(authorization.value, ' ');
      if |parts| < 2 || parts[1] == "" then None else Some(parts[1])
  }

  /** A well-formed header `<scheme> <token>` yields exactly the token. */
  lemma BearerTokenOfHeader(scheme: string, token: string)
    requires ' ' !in scheme && ' ' !in token && token != ""
    ensures BearerToken(Some(scheme + " " + token)) == Some(token)
  {
    var segs := [scheme, token];
    assert Join(segs, ' ') == scheme + " " + token;
    SplitJoin(segs, ' ');
  }

  /** A header without a space (a bare token, or the scheme alone) has no second segment. */
  lemma BearerTokenNoSpace(header: string)
    requires ' ' !in header
    ensures BearerToken(Some(header)) == None
  {
    SplitJoin([header], ' ');
  }

  /** Two spaces after the scheme leave an empty second segment, which is rejected. */
  lemma BearerTokenDoubleSpace(scheme: string, rest: string)
    requires ' ' !in scheme
    ensures BearerToken(Some(scheme + "  " + rest)) == None
  {
    var tail := "  " + rest;
    assert scheme + "  " + rest == scheme + tail;
    SplitPrefix(scheme, tail, ' ');
    assert tail[1..] == " " + rest;
    assert (" " + rest)[1..] == rest;
    assert Split(tail, ' ') == [[]] + Split(" " + rest, ' ');
    assert Split(" " + rest, ' ') == [[]] + Split(rest, ' ');
  }

  datatype Auth = NoToken | BadToken | Caller(email: string)

  /** The token step followed by `jwt.verify`. */
  function Authenticate(authorization: Option<string>, verify: string -> Option<string>): Auth
  {
    match BearerToken(authorization)
    case None => NoToken
    case Some(token) =>
      match verify(token)
      case None => BadToken
      case Some(email) => Caller(email)
  }

  // ------------------------------------------------------------ row predicates

  /** `WHERE email = $1`. */
  function OwnedBy(email: string): Row -> bool
  {
    (r: Row) => r.email == email
  }

  /**
   * `WHERE email = $e AND task_name = $n`; a missing name is SQL NULL, which
   * equals nothing.
   */
  function Matches(email: string, name: Option<string>): Row -> bool
  {
    (r: Row) => r.email == email && name == Some(r.taskName)
  }

  /** `x || null` for an optional string: the empty string is falsy. */
  function OrNull(v: Option<string>): (r: Option<string>)
    ensures r == None <==> v == None || v == Some("")
    ensures r.Some? ==> r == v
  {
    if v == Some("") then None else v
  }

  // ------------------------------------------------------------ POST /api/tasks

  datatype CreateBody = CreateBody(
    taskName: JsonValue,
    dueDate: Option<string>,
    description: Option<string>,
    teamId: Option<int>)

  /** `!task_name || typeof task_name !== 'string'` rejects; this is its negation. */
  predicate ValidTitle(v: JsonValue)
  {
    v.Str? && v.s != ""
  }

  /** The inserted row: caller's email, status 'incomplete', `description || null`, `NOW()`. */
  function NewRow(email: string, name: string, body: CreateBody, now: int): Row
  {
    Row(email, name, Incomplete, body.dueDate, OrNull(body.description), now)
  }

  function HandleCreate(rows: seq<Row>, authorization: Option<string>, verify: string -> Option<string>,
                        body: CreateBody, now: int): (Reply, seq<Row>)
  {
    match Authenticate(authorization, verify)
    case NoToken => (Message(401, "No token"), rows)
    case BadToken => (Message(401, "Invalid token"), rows)
    case Caller(email) =>
      if !ValidTitle(body.taskName) then (Message(400, "Invalid task title"), rows)
      else (Message(201, "Task created"), rows + [NewRow(email, body.taskName.s, body, now)])
  }

  /**
   * Create: 401 and no change without a usable token; 400 and no change for
   * a missing, empty or non-string title (whitespace-only titles pass);
   * otherwise 201 and exactly one new row at the end, owned by the caller,
   * with status 'incomplete'; the caller then owns one row more.
   */
  lemma CreateOutcome(rows: seq<Row>, authorization: Option<string>, verify: string -> Option<string>,
                      body: CreateBody, now: int)
    ensures var (reply, after) := HandleCreate(rows, authorization, verify, body, now);
      match Authenticate(authorization, verify)
      case NoToken => reply == Message(401, "No token") && after == rows
      case BadToken => reply == Message(401, "Invalid token") && after == rows
      case Caller(email) =>
        if body.taskName.Str? && body.taskName.s != "" then
          && reply == Message(201, "Task created")
          && |after| == |rows| + 1
          && after[..|rows|] == rows
          && after[|rows|] == Row(email, body.taskName.s, Incomplete, body.dueDate, OrNull(body.description), now)
          && Count(after, OwnedBy(email)) == Count(rows, OwnedBy(email)) + 1
        else
          reply == Message(400, "Invalid task title") && after == rows
  {
    match Authenticate(authorization, verify)
    case NoToken =>
    case BadToken =>
    case Caller(email) =>
      if ValidTitle(body.taskName) {
        var row := NewRow(email, body.taskName.s, body, now);
        FilterAppend(rows, [row], OwnedBy(email));
        FilterLength(rows + [row], OwnedBy(email));
        FilterLength(rows, OwnedBy(email));
        assert (rows + [row])[..|rows|] == rows;
      }
  }

  /** A title made only of spaces is accepted: the handler does not trim. */
  lemma CreateAcceptsBlankTitle(rows: seq<Row>, authorization: Option<string>, email: string,
                                verify: string -> Option<string>, body: CreateBody, now: int)
    requires Authenticate(authorization, verify) == Caller(email)
    requires body.taskName == Str("   ")
    ensures HandleCreate(rows, authorization, verify, body, now).0 == Message(201, "Task created")
  {
  }

  /** The request's `team_id` plays no part: the same body with any other team id does the same. */
  lemma CreateIgnoresTeamId(rows: seq<Row>, authorization: Option<string>, verify: string -> Option<string>,
                            body: CreateBody, teamId: Option<int>, now: int)
    ensures HandleCreate(rows, authorization, verify, body.(teamId := teamId), now)
         == HandleCreate(rows, authorization, verify, body, now)
  {
  }

  // ------------------------------------------------------------ GET /api/tasks

  /** `ORDER BY date_created DESC`. */
  predicate NewestFirst(rs: seq<Row>)
  {
    forall i, j :: 0 <= i < j < |rs| ==> rs[i].dateCreated >= rs[j].dateCreated
  }

  /**
   * What the SELECT may return for `email`: the caller's rows, each as often
   * as stored, newest first. Rows created at the same instant may come in
   * any order, so this is a relation, not a function.
   */
  predicate IsListing(rows: seq<Row>, email: string, out: seq<Row>)
  {
    multiset(out) == multiset(Filter(rows, OwnedBy(email))) && NewestFirst(out)
  }

  function InsertNewest(x: Row, sorted: seq<Row>): (r: seq<Row>)
    requires NewestFirst(sorted)
    ensures |r| == |sorted| + 1
    ensures r[0] == if sorted == [] || x.dateCreated >= sorted[0].dateCreated then x else sorted[0]
    ensures NewestFirst(r)
    ensures multiset(r) == multiset(sorted) + multiset{x}
    decreases |sorted|
  {
    if sorted == [] || x.dateCreated >= sorted[0].dateCreated then [x] + sorted
    else
      var rest := InsertNewest(x, sorted[1..]);
      assert sorted == [sorted[0]] + sorted[1..];
      assert rest[0].dateCreated <= sorted[0].dateCreated;
      var r := [sorted[0]] + rest;
      assert forall j :: 0 < j < |r| ==> r[j] == rest[j - 1];
      r
  }

  /** One order the database may produce: an insertion sort, newest first. */
  function SortNewestFirst(rs: seq<Row>): (r: seq<Row>)
    ensures NewestFirst(r)
    ensures multiset(r) == multiset(rs)
    decreases |rs|
  {
    if rs == [] then []
    else
      assert rs == [rs[0]] + rs[1..];
      InsertNewest(rs[0], SortNewestFirst(rs[1..]))
  }

  function HandleList(rows: seq<Row>, authorization: Option<string>, verify: string -> Option<string>): Reply
  {
    match Authenticate(authorization, verify)
    case NoToken => Message(401, "No token")
    case BadToken => Message(401, "Invalid token")
    case Caller(email) => TaskList(SortNewestFirst(Filter(rows, OwnedBy(email))))
  }

  /** The listing holds exactly the caller's rows: a row is listed iff it is stored and the caller owns it. */
  lemma ListingMembership(rows: seq<Row>, email: string, out: seq<Row>, r: Row)
    requires IsListing(rows, email, out)
    ensures r in out <==> r in rows && r.email == email
  {
    FilterMembership(rows, OwnedBy(email), r);
    assert r in out <==> r in multiset(out);
    assert r in Filter(rows, OwnedBy(email)) <==> r in multiset(Filter(rows, OwnedBy(email)));
  }

  // ------------------------------------------------------------ PUT /api/tasks/update

  datatype UpdateBody = UpdateBody(taskName: Option<string>, status: JsonValue)

  /** `allowedStatuses.includes(status)`: the five names, 'overdue' among them. */
  function AllowedStatus(v: JsonValue): Option<Status>
  {
    if v.Str? then ParseStatus(v.s) else None
  }

  /** `UPDATE taskstatusdb SET status = $1 WHERE email = $2 AND task_name = $3`. */
  function SetStatusWhere(rows: seq<Row>, email: string, name: Option<string>, s: Status): (r: seq<Row>)
    ensures |r| == |rows|
    decreases |rows|
  {
    if rows == [] then []
    else
      var head := if Matches(email, name)(rows[0]) then rows[0].(status := s) else rows[0];
      [head] + SetStatusWhere(rows[1..], email, name, s)
  }

  /** Every matching row gets the new status; every other row, and every other field, stays. */
  lemma {:induction false} SetStatusWhereAt(rows: seq<Row>, email: string, name: Option<string>, s: Status, i: nat)
    requires i < |rows|
    ensures SetStatusWhere(rows, email, name, s)[i]
         == if Matches(email, name)(rows[i]) then rows[i].(status := s) else rows[i]
    decreases |rows|
  {
    if i > 0 { SetStatusWhereAt(rows[1..], email, name, s, i - 1); }
  }

  /** The update described row by row, and the case where no row matches. */
  lemma SetStatusWhereSpec(rows: seq<Row>, email: string, name: Option<string>, s: Status)
    ensures forall i :: 0 <= i < |rows| ==>
              SetStatusWhere(rows, email, name, s)[i]
              == if rows[i].email == email && name == Some(rows[i].taskName) then rows[i].(status := s) else rows[i]
    ensures Count(rows, Matches(email, name)) == 0 ==> SetStatusWhere(rows, email, name, s) == rows
  {
    forall i | 0 <= i < |rows| {
      SetStatusWhereAt(rows, email, name, s, i);
    }
    if Count(rows, Matches(email, name)) == 0 {
      FilterLength(rows, Matches(email, name));
      forall i | 0 <= i < |rows| ensures !Matches(email, name)(rows[i]) {
        FilterMembership(rows, Matches(email, name), rows[i]);
      }
    }
  }

  /** Running the same status update twice leaves the table as once. */
  lemma SetStatusWhereIdempotent(rows: seq<Row>, email: string, name: Option<string>, s: Status)
    ensures SetStatusWhere(SetStatusWhere(rows, email, name, s), email, name, s)
         == SetStatusWhere(rows, email, name, s)
  {
    var once := SetStatusWhere(rows, email, name, s);
    forall i | 0 <= i < |rows|
      ensures SetStatusWhere(once, email, name, s)[i] == once[i]
    {
      SetStatusWhereAt(rows, email, name, s, i);
      SetStatusWhereAt(once, email, name, s, i);
    }
  }

  function HandleUpdate(rows: seq<Row>, authorization: Option<string>, verify: string -> Option<string>,
                        body: UpdateBody): (Reply, seq<Row>)
  {
    match Authenticate(authorization, verify)
    case NoToken => (Message(401, "No token"), rows)
    case BadToken => (Message(400, "Error updating task"), rows)
    case Caller(email) =>
      match AllowedStatus(body.status)
      case None => (Message(400, "Invalid status"), rows)
      case Some(s) => (Message(200, "Status updated"), SetStatusWhere(rows, email, body.taskName, s))
  }

  /**
   * Update: a value outside the five names is 400 with nothing changed; any
   * of the five, 'overdue' included, is 200, sets the status of exactly the
   * caller's rows with that name and keeps the rest, and is 200 even when
   * nothing matched.
   */
  lemma UpdateOutcome(rows: seq<Row>, authorization: Option<string>, verify: string -> Option<string>,
                      body: UpdateBody, email: string)
    requires Authenticate(authorization, verify) == Caller(email)
    ensures var (reply, after) := HandleUpdate(rows, authorization, verify, body);
      if body.status.Str? && ParseStatus(body.status.s).Some? then
        var s := ParseStatus(body.status.s).value;
        && reply == Message(200, "Status updated")
        && |after| == |rows|
        && (forall i :: 0 <= i < |rows| ==>
              after[i] == if rows[i].email == email && body.taskName == Some(rows[i].taskName)
                          then rows[i].(status := s) else rows[i])
        && (Count(rows, Matches(email, body.taskName)) == 0 ==> after == rows)
      else
        reply == Message(400, "Invalid status") && after == rows
  {
    if body.status.Str? && ParseStatus(body.status.s).Some? {
      SetStatusWhereSpec(rows, email, body.taskName, ParseStatus(body.status.s).value);
    }
  }

  /** The server itself accepts 'overdue': only the clients refuse to send it. */
  lemma UpdateAcceptsOverdue(rows: seq<Row>, authorization: Option<string>, verify: string -> Option<string>,
                             name: Option<string>, email: string)
    requires Authenticate(authorization, verify) == Caller(email)
    ensures HandleUpdate(rows, authorization, verify, UpdateBody(name, Str("overdue")))
         == (Message(200, "Status updated"), SetStatusWhere(rows, email, name, Overdue))
  {
  }

  // ------------------------------------------------------------ POST /api/tasks/delete

  /** `DELETE FROM taskstatusdb WHERE email = $1 AND task_name = $2`. */
  function DeleteWhere(rows: seq<Row>, email: string, name: Option<string>): seq<Row>
  {
    Filter(rows, Not(Matches(email, name)))
  }

  function HandleDelete(rows: seq<Row>, authorization: Option<string>, verify: string -> Option<string>,
                        name: Option<string>): (Reply, seq<Row>)
  {
    match Authenticate(authorization, verify)
    case NoToken => (Message(401, "No token"), rows)
    case BadToken => (Message(400, "Error deleting task"), rows)
    case Caller(email) => (Message(200, "Task deleted"), DeleteWhere(rows, email, name))
  }

  /**
   * Delete: a row survives iff it was stored and is not one of the caller's
   * rows with that name; survivors keep their order, and the table shrinks
   * by the number of matching rows.
   */
  lemma DeleteOutcome(rows: seq<Row>, authorization: Option<string>, verify: string -> Option<string>,
                      name: Option<string>, email: string, r: Row)
    requires Authenticate(authorization, verify) == Caller(email)
    ensures var (reply, after) := HandleDelete(rows, authorization, verify, name);
      && reply == Message(200, "Task deleted")
      && (r in after <==> r in rows && !(r.email == email && name == Some(r.taskName)))
      && IsSubsequence(after, rows)
      && |after| == |rows| - Count(rows, Matches(email, name))
  {
    FilterMembership(rows, Not(Matches(email, name)), r);
    FilterIsSubsequence(rows, Not(Matches(email, name)));
    FilterLength(rows, Not(Matches(email, name)));
    CountComplement(rows, Matches(email, name));
  }

  // ------------------------------------------------------------ PUT /api/tasks/edit

  datatype EditBody = EditBody(originalName: Option<string>, newName: string, dueDate: Option<string>,
                               description: Option<string>)

  /** `UPDATE taskstatusdb SET task_name = $1, due_date = $2 WHERE email = $3 AND task_name = $4`. */
  function EditWhere(rows: seq<Row>, email: string, name: Option<string>, newName: string,
                     dueDate: Option<string>): (r: seq<Row>)
    ensures |r| == |rows|
    decreases |rows|
  {
    if rows == [] then []
    else
      var head := if Matches(email, name)(rows[0]) then rows[0].(taskName := newName, dueDate := dueDate)
                  else rows[0];
      [head] + EditWhere(rows[1..], email, name, newName, dueDate)
  }

  lemma {:induction false} EditWhereAt(rows: seq<Row>, email: string, name: Option<string>, newName: string,
                                       dueDate: Option<string>, i: nat)
    requires i < |rows|
    ensures EditWhere(rows, email, name, newName, dueDate)[i]
         == if Matches(email, name)(rows[i]) then rows[i].(taskName := newName, dueDate := dueDate) else rows[i]
    decreases |rows|
  {
    if i > 0 { EditWhereAt(rows[1..], email, name, newName, dueDate, i - 1); }
  }

  function HandleEdit(rows: seq<Row>, authorization: Option<string>, verify: string -> Option<string>,
                      body: EditBody): (Reply, seq<Row>)
  {
    match Authenticate(authorization, verify)
    case NoToken => (Message(401, "No token"), rows)
    case BadToken => (Message(400, "Error editing task"), rows)
    case Caller(email) =>
      (Message(200, "Task updated"), EditWhere(rows, email, body.originalName, body.newName, OrNull(body.dueDate)))
  }

  /**
   * Edit: the caller's rows with the original name are renamed and get the
   * new due date, null when the supplied one is falsy; the submitted
   * description is ignored, and no row's status, description, owner or
   * creation time changes.
   */
  lemma EditOutcome(rows: seq<Row>, authorization: Option<string>, verify: string -> Option<string>,
                    body: EditBody, email: string)
    requires Authenticate(authorization, verify) == Caller(email)
    ensures var (reply, after) := HandleEdit(rows, authorization, verify, body);
      && reply == Message(200, "Task updated")
      && |after| == |rows|
      && (forall i :: 0 <= i < |rows| ==>
            && after[i].status == rows[i].status
            && after[i].description == rows[i].description
            && after[i].email == rows[i].email
            && after[i].dateCreated == rows[i].dateCreated
            && if rows[i].email == email && body.originalName == Some(rows[i].taskName)
               then after[i].taskName == body.newName
                    && after[i].dueDate == (if body.dueDate == Some("") then None else body.dueDate)
               else after[i] == rows[i])
  {
    forall i | 0 <= i < |rows| {
      EditWhereAt(rows, email, body.originalName, body.newName, OrNull(body.dueDate), i);
    }
  }

  /** Without a usable token every mutating handler answers 401 and leaves the table alone. */
  lemma NoTokenChangesNothing(rows: seq<Row>, authorization: Option<string>, verify: string -> Option<string>,
                              create: CreateBody, update: UpdateBody, name: Option<string>, edit: EditBody, now: int)
    requires BearerToken(authorization).None?
    ensures HandleCreate(rows, authorization, verify, create, now) == (Message(401, "No token"), rows)
    ensures HandleUpdate(rows, authorization, verify, update) == (Message(401, "No token"), rows)
    ensures HandleDelete(rows, authorization, verify, name) == (Message(401, "No token"), rows)
    ensures HandleEdit(rows, authorization, verify, edit) == (Message(401, "No token"), rows)
    ensures HandleList(rows, authorization, verify) == Message(401, "No token")
  {
  }

  // ------------------------------------------------------------ the table

  /** `taskstatusdb`, with one method per route; each runs the route's guard chain in order. */
  class TaskStatusDb {
    var rows: seq<Row>

    constructor ()
      ensures rows == []
    {
      rows := [];
    }

    method PostTasks(authorization: Option<string>, verify: string -> Option<string>, body: CreateBody, now: int)
      returns (reply: Reply)
      modifies this
      ensures (reply, rows) == HandleCreate(old(rows), authorization, verify, body, now)
    {
      var token := BearerToken(authorization);
      if token.None? {
        return Message(401, "No token");
      }
      var user := verify(token.value);
      if user.None? {
        return Message(401, "Invalid token");
      }
      if !body.taskName.Str? || body.taskName.s == "" {
        return Message(400, "Invalid task title");
      }
      rows := rows + [NewRow(user.value, body.taskName.s, body, now)];
      reply := Message(201, "Task created");
    }

    /** The caller's rows, newest first; the table is only read. */
    method GetTasks(authorization: Option<string>, verify: string -> Option<string>) returns (reply: Reply)
      ensures match Authenticate(authorization, verify)
              case NoToken => reply == Message(401, "No token")
              case BadToken => reply == Message(401, "Invalid token")
              case Caller(email) => reply.TaskList? && IsListing(rows, email, reply.tasks)
    {
      var token := BearerToken(authorization);
      if token.None? {
        return Message(401, "No token");
      }
      var user := verify(token.value);
      if user.None? {
        return Message(401, "Invalid token");
      }
      reply := TaskList(SortNewestFirst(Filter(rows, OwnedBy(user.value))));
    }

    method PutUpdate(authorization: Option<string>, verify: string -> Option<string>, body: UpdateBody)
      returns (reply: Reply)
      modifies this
      ensures (reply, rows) == HandleUpdate(old(rows), authorization, verify, body)
    {
      var token := BearerToken(authorization);
      if token.None? {
        return Message(401, "No token");
      }
      var user := verify(token.value);
      if user.None? {
        return Message(400, "Error updating task");
      }
      var status := AllowedStatus(body.status);
      if status.None? {
        return Message(400, "Invalid status");
      }
      rows := SetStatusWhere(rows, user.value, body.taskName, status.value);
      reply := Message(200, "Status updated");
    }

    method PostDelete(authorization: Option<string>, verify: string -> Option<string>, name: Option<string>)
      returns (reply: Reply)
      modifies this
      ensures (reply, rows) == HandleDelete(old(rows), authorization, verify, name)
    {
      var token := BearerToken(authorization);
      if token.None? {
        return Message(401, "No token");
      }
      var user := verify(token.value);
      if user.None? {
        return Message(400, "Error deleting task");
      }
      rows := DeleteWhere(rows, user.value, name);
      reply := Message(200, "Task deleted");
    }

    method PutEdit(authorization: Option<string>, verify: string -> Option<string>, body: EditBody)
      returns (reply: Reply)
      modifies this
      ensures (reply, rows) == HandleEdit(old(rows), authorization, verify, body)
    {
      var token := BearerToken(authorization);
      if token.None? {
        return Message(401, "No token");
      }
      var user := verify(token.value);
      if user.None? {
        return Message(400, "Error editing task");
      }
      rows := EditWhere(rows, user.value, body.originalName, body.newName, OrNull(body.dueDate));
      reply := Message(200, "Task updated");
    }
  }
}
