/**
 * The four tables of the application (users, tasks, worklogs, sessions) as
 * immutable records, the column defaults, the uniqueness constraints each
 * table keeps, and the allocation of integer primary keys.
 */
module Models {
  import opened Wrappers

  /** A calendar date as its proleptic Gregorian ordinal: day 1 is Monday 0001-01-01. */
  type Day = int

  datatype Status = Todo | InProgress | Done

  datatype User = User(id: int, name: string, role: string, login: string,
                       passwordHash: string, isActive: bool)

  datatype Task = Task(id: int, parentId: Option<int>, title: string, assigneeId: Option<int>,
                       startDate: Day, endDate: Day, plannedHours: real, priority: int,
                       status: Status, currentProgress: int)

  datatype Worklog = Worklog(id: int, date: Day, userId: int, taskId: int, hours: real,
                             comment: string, progress: int, isDone: bool)

  datatype Session = Session(id: int, token: string, userId: int)

  // Column defaults

  const DefaultPlannedHours: real := 0.0
  const DefaultPriority: int := 3

  /** A user row whose `is_active` column is left at its default. */
  function NewUser(id: int, name: string, role: string, login: string, hash: string): User
  {
    User(id, name, role, login, hash, true)
  }

  /** A task row whose optional columns are left at their defaults. */
  function NewTask(id: int, title: string, assignee: Option<int>, start: Day, end: Day): Task
  {
    Task(id, None, title, assignee, start, end, DefaultPlannedHours, DefaultPriority, Todo, 0)
  }

  /** A worklog row whose optional columns are left at their defaults. */
  function NewWorklog(id: int, date: Day, userId: int, taskId: int): Worklog
  {
    Worklog(id, date, userId, taskId, 0.0, "", 0, false)
  }

  /** The worklog fields that hold progress stay within [0, 100]. */
  predicate ProgressInRange(p: int) { 0 <= p <= 100 }

  /**
   * Rows created with the column defaults: a new user is active; a new task
   * has no parent, no planned hours, priority 3, status `todo` and progress 0;
   * a new worklog has no hours, an empty comment, progress 0 and is not done.
   * Each keeps the given values of the columns it was created with, and the
   * defaults satisfy the row invariants of their tables.
   */
  lemma DefaultsWellFormed(id: int, name: string, role: string, login: string, hash: string,
                           title: string, assignee: Option<int>, start: Day, end: Day,
                           userId: int, taskId: int)
    ensures var u := NewUser(id, name, role, login, hash);
      u.isActive && u.id == id && u.name == name && u.role == role && u.login == login &&
      u.passwordHash == hash
    ensures var t := NewTask(id, title, assignee, start, end);
      && t.parentId == None && t.plannedHours == 0.0 && t.priority == 3
      && t.status == Todo && t.currentProgress == 0 && ProgressInRange(t.currentProgress)
      && t.id == id && t.title == title && t.assigneeId == assignee
      && t.startDate == start && t.endDate == end
    ensures var w := NewWorklog(id, start, userId, taskId);
      && w.hours == 0.0 && w.comment == "" && w.progress == 0 && !w.isDone
      && ProgressInRange(w.progress)
      && w.id == id && w.date == start && w.userId == userId && w.taskId == taskId
  {
  }

  // Keys and uniqueness constraints

  function UserId(u: User): int { u.id }
  function UserLogin(u: User): string { u.login }
  function TaskId(t: Task): int { t.id }
  function WorklogId(w: Worklog): int { w.id }
  function SessionId(s: Session): int { s.id }
  function SessionToken(s: Session): string { s.token }

  /** The natural key of the worklog table: one row per user, task and date. */
  function WorklogKey(w: Worklog): (int, int, Day) { (w.userId, w.taskId, w.date) }

  /** The index of the first row satisfying `p`, as a query's `.first()` returns it. */
  function FindFirst<T>(rows: seq<T>, p: T -> bool): (r: Option<nat>)
    ensures r.Some? ==> r.value < |rows| && p(rows[r.value])
    ensures r.Some? ==> forall k :: 0 <= k < r.value ==> !p(rows[k])
    ensures r.None? <==> forall k :: 0 <= k < |rows| ==> !p(rows[k])
  {
    if rows == [] then None
    else if p(rows[0]) then Some(0)
    else match FindFirst(rows[1..], p)
      case None => None
      case Some(i) => Some(i + 1)
  }

  /** No two rows of the table share a value of `key`. */
  predicate DistinctBy<T, K(==)>(rows: seq<T>, key: T -> K)
  {
    forall i, j :: 0 <= i < j < |rows| ==> key(rows[i]) != key(rows[j])
  }

  /** Putting a row whose key is new in front keeps the keys distinct. */
  lemma PrependKeepsDistinct<T, K>(x: T, rows: seq<T>, key: T -> K)
    requires DistinctBy(rows, key)
    requires forall j :: 0 <= j < |rows| ==> key(x) != key(rows[j])
    ensures DistinctBy([x] + rows, key)
  {
    var r := [x] + rows;
    forall i, j | 0 <= i < j < |r| ensures key(r[i]) != key(r[j]) {
      assert r[j] == rows[j - 1];
      if i > 0 { assert r[i] == rows[i - 1]; }
    }
  }

  /** Appending a row whose key is new keeps the keys distinct. */
  lemma AppendKeepsDistinct<T, K>(rows: seq<T>, x: T, key: T -> K)
    requires DistinctBy(rows, key)
    requires forall i :: 0 <= i < |rows| ==> key(rows[i]) != key(x)
    ensures DistinctBy(rows + [x], key)
  {
    var r := rows + [x];
    forall i, j | 0 <= i < j < |r| ensures key(r[i]) != key(r[j]) {
      if j == |rows| {
        assert r[i] == rows[i];
      } else {
        assert r[i] == rows[i] && r[j] == rows[j];
      }
    }
  }

  /** Under distinct keys, two rows with the same key are the same row. */
  lemma DistinctKeyIndex<T, K>(rows: seq<T>, key: T -> K, i: nat, j: nat)
    requires DistinctBy(rows, key) && i < |rows| && j < |rows|
    requires key(rows[i]) == key(rows[j])
    ensures i == j
  {
  }

  /** Replacing a row by one with the same key keeps the keys distinct. */
  lemma ReplaceKeepsDistinct<T, K>(rows: seq<T>, k: nat, x: T, key: T -> K)
    requires DistinctBy(rows, key) && k < |rows| && key(x) == key(rows[k])
    ensures DistinctBy(rows[k := x], key)
  {
    var r := rows[k := x];
    forall i, j | 0 <= i < j < |r| ensures key(r[i]) != key(r[j]) {
      assert key(r[i]) == key(rows[i]) && key(r[j]) == key(rows[j]);
    }
  }

  /** The largest id in a non-empty table. */
  function MaxId<T>(rows: seq<T>, id: T -> int): (m: int)
    requires |rows| > 0
    ensures forall i :: 0 <= i < |rows| ==> id(rows[i]) <= m
    ensures exists i :: 0 <= i < |rows| && id(rows[i]) == m
    decreases |rows|
  {
    var last := id(rows[|rows| - 1]);
    if |rows| == 1 then last
    else
      var m' := MaxId(rows[..|rows| - 1], id);
      assert forall i :: 0 <= i < |rows| - 1 ==> rows[..|rows| - 1][i] == rows[i];
      if m' < last then last else m'
  }

  /**
   * The primary key the model assumes the database gives the next inserted
   * row: one more than the largest id in the table, or 1 when it is empty.
   */
  function NextId<T>(rows: seq<T>, id: T -> int): (r: int)
    ensures forall i :: 0 <= i < |rows| ==> id(rows[i]) < r
    ensures rows == [] ==> r == 1
    ensures rows != [] ==> exists i :: 0 <= i < |rows| && id(rows[i]) == r - 1
  {
    if rows == [] then 1 else MaxId(rows, id) + 1
  }

  // Table invariants

  /** models.py: ids are primary keys and `login` is declared unique. */
  predicate UsersOk(users: seq<User>)
  {
    DistinctBy(users, UserId) && DistinctBy(users, UserLogin)
  }

  predicate TasksOk(tasks: seq<Task>)
  {
    DistinctBy(tasks, TaskId) &&
    forall i :: 0 <= i < |tasks| ==> ProgressInRange(tasks[i].currentProgress)
  }

  /** The key (user, task, date) is kept unique by the day-log upsert, not by the schema. */
  predicate WorklogsOk(logs: seq<Worklog>)
  {
    DistinctBy(logs, WorklogId) && DistinctBy(logs, WorklogKey) &&
    forall i :: 0 <= i < |logs| ==> ProgressInRange(logs[i].progress)
  }

  /** models.py: ids are primary keys and `session_token` is declared unique. */
  predicate SessionsOk(sessions: seq<Session>)
  {
    DistinctBy(sessions, SessionId) && DistinctBy(sessions, SessionToken)
  }
}
