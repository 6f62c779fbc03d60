/**
 * The request handlers of the web application over an in-memory store whose
 * four tables are sequences of rows. Login and logout do not authenticate the
 * caller, the index page resolves the session without a role gate, and every
 * other handler resolves the session and applies the role gate before it
 * reads or rewrites the tables.
 */
module Handlers {
  import opened Wrappers
  import opened Models
  import opened Text
  import opened Services
  import opened Deps
  import opened Logging

  /** The roles a user may be created with. */
  const Roles: set<string> := {"admin", "employee", "viewer"}

  datatype Location = LoginPage | Root | AdminPage | WeekPage | DayPage | DayOn(day: Day)

  /** What a handler answers: a 303 redirect, the login form again with 401, or an error status. */
  datatype Response = Redirect(to: Location) | LoginFailed | Error(failure: Failure)

  /** The load table of the week page: hours per user id and per day. */
  datatype WeekPageData = WeekPageData(weekStart: Day, days: seq<Day>, users: seq<User>,
                                       load: map<int, map<Day, real>>)

  /** The daily report: each listed user's worklogs of the day, each with its task if any. */
  datatype DailyReport = DailyReport(date: Day, users: seq<User>,
                                     logsByUser: map<int, seq<(Worklog, Option<Task>)>>)

  // Queries over the tables

  /** The first active user whose login is `login`. */
  function FindActiveLogin(users: seq<User>, login: string): Option<nat>
  {
    FindFirst(users, (u: User) => u.login == login && u.isActive)
  }

  /** The first user whose id is `id`. */
  function FindUser(users: seq<User>, id: int): Option<nat>
  {
    FindFirst(users, (u: User) => u.id == id)
  }

  /** Some user row has login `login`. */
  predicate LoginTaken(users: seq<User>, login: string)
  {
    exists k :: 0 <= k < |users| && users[k].login == login
  }

  /** The first task with id `taskId` whose assignee is `userId`. */
  function OwnedTask(tasks: seq<Task>, taskId: int, userId: int): Option<nat>
  {
    FindFirst(tasks, (t: Task) => t.id == taskId && t.assigneeId == Some(userId))
  }

  /** `{t.id: t for t in tasks}.get(id)`: the last task with that id wins, as in a dict built in order. */
  function TaskById(tasks: seq<Task>, id: int): (r: Option<Task>)
    ensures r.Some? ==> r.value in tasks && r.value.id == id
    ensures r.None? <==> forall k :: 0 <= k < |tasks| ==> tasks[k].id != id
    ensures r.Some? ==>
      exists k :: 0 <= k < |tasks| && tasks[k] == r.value && LastWithId(tasks, id, k)
    decreases |tasks|
  {
    if tasks == [] then None
    else if tasks[|tasks| - 1].id == id then
      assert LastWithId(tasks, id, |tasks| - 1);
      Some(tasks[|tasks| - 1])
    else
      var prefix := tasks[..|tasks| - 1];
      assert forall k :: 0 <= k < |prefix| ==> prefix[k] == tasks[k];
      var r := TaskById(prefix, id);
      if r.Some? then
        var k :| 0 <= k < |prefix| && prefix[k] == r.value && LastWithId(prefix, id, k);
        assert LastWithId(tasks, id, k);
        r
      else r
  }

  /** No task after position `k` has id `id`. */
  predicate LastWithId(tasks: seq<Task>, id: int, k: int)
  {
    forall j :: 0 <= j < |tasks| && k < j ==> tasks[j].id != id
  }

  /** The sessions left after deleting every row with token `t`, in their order. */
  function WithoutToken(sessions: seq<Session>, t: string): (r: seq<Session>)
    ensures forall s :: s in r <==> s in sessions && s.token != t
  {
    if sessions == [] then []
    else (if sessions[0].token == t then [] else [sessions[0]]) + WithoutToken(sessions[1..], t)
  }

  /** Deleting rows keeps any key of the remaining rows distinct. */
  lemma {:induction false} WithoutTokenKeepsDistinct<K>(sessions: seq<Session>, t: string, key: Session -> K)
    requires DistinctBy(sessions, key)
    ensures DistinctBy(WithoutToken(sessions, t), key)
  {
    if sessions != [] {
      var tail := sessions[1..];
      WithoutTokenKeepsDistinct(tail, t, key);
      var rest := WithoutToken(tail, t);
      if sessions[0].token != t {
        forall j | 0 <= j < |rest| ensures key(sessions[0]) != key(rest[j]) {
          assert rest[j] in tail;
          var k :| 0 <= k < |tail| && tail[k] == rest[j];
          assert sessions[k + 1] == rest[j];
        }
        PrependKeepsDistinct(sessions[0], rest, key);
      }
    }
  }

  /** Logging out a token that has no session row changes nothing. */
  lemma {:induction false} LogoutUnknownTokenNoOp(sessions: seq<Session>, t: string)
    requires forall k :: 0 <= k < |sessions| ==> sessions[k].token != t
    ensures WithoutToken(sessions, t) == sessions
  {
    if sessions != [] {
      LogoutUnknownTokenNoOp(sessions[1..], t);
      assert [sessions[0]] + sessions[1..] == sessions;
    }
  }

  /** After logout the token no longer authenticates anybody. */
  lemma LoggedOutTokenRejected(sessions: seq<Session>, users: seq<User>, t: string)
    ensures CurrentUser(Some(t), WithoutToken(sessions, t), users).Err?
  {
    var r := WithoutToken(sessions, t);
    forall k | 0 <= k < |r| ensures r[k].token != t {
      assert r[k] in r;
    }
  }

  /**
   * The session a successful login inserts authenticates the user who logged
   * in, as long as ids are unique and the token is new and non-empty.
   */
  lemma NewSessionResolves(sessions: seq<Session>, users: seq<User>, k: nat, t: string)
    requires UsersOk(users) && k < |users| && users[k].isActive
    requires t != "" && forall i :: 0 <= i < |sessions| ==> sessions[i].token != t
    ensures CurrentUser(Some(t), sessions + [Session(NextId(sessions, SessionId), t, users[k].id)], users)
      == Ok(users[k])
  {
    var ss := sessions + [Session(NextId(sessions, SessionId), t, users[k].id)];
    var i := FindSession(ss, t);
    assert ss[|sessions|].token == t;
    assert i == Some(|sessions|);
    var j := FindActiveUser(users, users[k].id);
    DistinctKeyIndex(users, UserId, j.value, k);
  }

  /**
   * Toggling an active user off revokes their live sessions: every token of
   * theirs stops authenticating on the next request.
   */
  lemma ToggleOffRevokesSessions(users: seq<User>, k: nat, sessions: seq<Session>, t: string)
    requires UsersOk(users) && SessionsOk(sessions) && k < |users| && users[k].isActive
    requires exists i :: 0 <= i < |sessions| && sessions[i].token == t && sessions[i].userId == users[k].id
    ensures CurrentUser(Some(t), sessions, users[k := users[k].(isActive := !users[k].isActive)]).Err?
  {
    var us := users[k := users[k].(isActive := !users[k].isActive)];
    forall j | 0 <= j < |us| && us[j].id == users[k].id ensures !us[j].isActive {
      DistinctKeyIndex(users, UserId, j, k);
    }
    InactiveUserRejected(t, sessions, us, users[k].id);
  }

  /**
   * Adding a user whose login is not taken, under an id above every
   * existing one, keeps ids and logins pairwise distinct.
   */
  lemma NewUserKeepsUsersOk(users: seq<User>, u: User)
    requires UsersOk(users) && !LoginTaken(users, u.login)
    requires forall i :: 0 <= i < |users| ==> users[i].id < u.id
    ensures UsersOk(users + [u])
  {
    AppendKeepsDistinct(users, u, UserId);
    AppendKeepsDistinct(users, u, UserLogin);
  }

  /** Rewriting a task's progress and status to values in range keeps the task table's invariants. */
  lemma ReplaceKeepsTasksOk(tasks: seq<Task>, j: nat, t: Task)
    requires TasksOk(tasks) && j < |tasks| && t.id == tasks[j].id && ProgressInRange(t.currentProgress)
    ensures TasksOk(tasks[j := t])
  {
    ReplaceKeepsDistinct(tasks, j, t, TaskId);
  }

  /** Users the week page and the daily report list: active admins and employees. */
  predicate IsStaff(u: User)
  {
    (u.role == "admin" || u.role == "employee") && u.isActive
  }

  /** The staff users in table order. */
  function StaffUsers(users: seq<User>): (r: seq<User>)
    ensures forall u :: u in r <==> u in users && IsStaff(u)
  {
    if users == [] then []
    else (if IsStaff(users[0]) then [users[0]] else []) + StaffUsers(users[1..])
  }

  /** Each staff user is listed as often as the table holds it, and no one else is listed. */
  lemma {:induction false} StaffUsersCount(users: seq<User>, u: User)
    ensures multiset(StaffUsers(users))[u] == if IsStaff(u) then multiset(users)[u] else 0
  {
    if users != [] {
      StaffUsersCount(users[1..], u);
      assert users == [users[0]] + users[1..];
    }
  }

  /** Listing the staff of two tables put together lists each table's staff in turn. */
  lemma {:induction false} StaffUsersConcat(a: seq<User>, b: seq<User>)
    ensures StaffUsers(a + b) == StaffUsers(a) + StaffUsers(b)
  {
    if a != [] {
      var head := if IsStaff(a[0]) then [a[0]] else [];
      calc {
        StaffUsers(a + b);
      == { assert (a + b)[0] == a[0] && (a + b)[1..] == a[1..] + b; }
        head + StaffUsers(a[1..] + b);
      == { StaffUsersConcat(a[1..], b); }
        head + (StaffUsers(a[1..]) + StaffUsers(b));
      }
    } else {
      assert a + b == b;
    }
  }

  function IdSet(users: seq<User>): set<int>
  {
    set u | u in users :: u.id
  }

  /** The worklogs dated `d`, in table order. */
  function OnDate(logs: seq<Worklog>, d: Day): (r: seq<Worklog>)
    ensures forall w :: w in r <==> w in logs && w.date == d
  {
    if logs == [] then []
    else (if logs[0].date == d then [logs[0]] else []) + OnDate(logs[1..], d)
  }

  /** Each worklog of the day is selected as often as the table holds it, and no other is. */
  lemma {:induction false} OnDateCount(logs: seq<Worklog>, d: Day, w: Worklog)
    ensures multiset(OnDate(logs, d))[w] == if w.date == d then multiset(logs)[w] else 0
  {
    if logs != [] {
      OnDateCount(logs[1..], d, w);
      assert logs == [logs[0]] + logs[1..];
    }
  }

  /** Selecting the day's worklogs of two tables put together selects each table's in turn. */
  lemma {:induction false} OnDateConcat(a: seq<Worklog>, b: seq<Worklog>, d: Day)
    ensures OnDate(a + b, d) == OnDate(a, d) + OnDate(b, d)
  {
    if a != [] {
      var head := if a[0].date == d then [a[0]] else [];
      calc {
        OnDate(a + b, d);
      == { assert (a + b)[0] == a[0] && (a + b)[1..] == a[1..] + b; }
        head + OnDate(a[1..] + b, d);
      == { OnDateConcat(a[1..], b, d); }
        head + (OnDate(a[1..], d) + OnDate(b, d));
      }
    } else {
      assert a + b == b;
    }
  }

  /** The report rows of user `uid`: each of their worklogs in order, with its task. */
  function ReportRows(logs: seq<Worklog>, uid: int, tasks: seq<Task>): seq<(Worklog, Option<Task>)>
    decreases |logs|
  {
    if logs == [] then []
    else
      var w := logs[|logs| - 1];
      ReportRows(logs[..|logs| - 1], uid, tasks) +
        (if w.userId == uid then [(w, TaskById(tasks, w.taskId))] else [])
  }

  /** A report row is exactly a worklog of the user paired with the task its task id names. */
  lemma {:induction false} ReportRowsExact(logs: seq<Worklog>, uid: int, tasks: seq<Task>,
                                           p: (Worklog, Option<Task>))
    ensures p in ReportRows(logs, uid, tasks) <==>
      p.0 in logs && p.0.userId == uid && p.1 == TaskById(tasks, p.0.taskId)
    ensures multiset(ReportRows(logs, uid, tasks))[p] ==
      if p.0.userId == uid && p.1 == TaskById(tasks, p.0.taskId) then multiset(logs)[p.0] else 0
    decreases |logs|
  {
    if logs != [] {
      var prefix := logs[..|logs| - 1];
      ReportRowsExact(prefix, uid, tasks, p);
      assert logs == prefix + [logs[|logs| - 1]];
    }
  }

  /** The report rows of two tables put together are those of each table in turn. */
  lemma {:induction false} ReportRowsConcat(a: seq<Worklog>, b: seq<Worklog>, uid: int, tasks: seq<Task>)
    ensures ReportRows(a + b, uid, tasks) == ReportRows(a, uid, tasks) + ReportRows(b, uid, tasks)
    decreases |b|
  {
    if b != [] {
      var prefix := b[..|b| - 1];
      var w := b[|b| - 1];
      var tail := if w.userId == uid then [(w, TaskById(tasks, w.taskId))] else [];
      calc {
        ReportRows(a + b, uid, tasks);
      == { assert (a + b)[..|a + b| - 1] == a + prefix && (a + b)[|a + b| - 1] == w; }
        ReportRows(a + prefix, uid, tasks) + tail;
      == { ReportRowsConcat(a, prefix, uid, tasks); }
        ReportRows(a, uid, tasks) + ReportRows(prefix, uid, tasks) + tail;
      }
    } else {
      assert a + b == a;
    }
  }

  /** The inner loop of the load table: the hours of user `uid` written into each day's entry. */
  method FillDayRow(uid: int, days: seq<Day>, logs: seq<Worklog>, row0: map<Day, real>)
    returns (row: map<Day, real>)
    requires forall day :: day in days ==> day in row0
    ensures row.Keys == row0.Keys
    ensures forall day :: day in days ==> row[day] == ActualHoursForUserDay(logs, uid, day)
  {
    row := row0;
    var j := 0;
    while j < |days|
      invariant 0 <= j <= |days|
      invariant row.Keys == row0.Keys
      invariant forall jj :: 0 <= jj < j ==> days[jj] in row && row[days[jj]] == ActualHoursForUserDay(logs, uid, days[jj])
    {
      row := row[days[j] := ActualHoursForUserDay(logs, uid, days[j])];
      j := j + 1;
    }
  }

  /** Entry `id` of the load table holds the hours of user `id` on every one of `days`. */
  ghost predicate RowFilled(load: map<int, map<Day, real>>, id: int, days: seq<Day>, logs: seq<Worklog>)
  {
    id in load && forall day :: day in days ==> day in load[id] && load[id][day] == ActualHoursForUserDay(logs, id, day)
  }

  /** Writing the filled row of user `staff[i]` keeps the rows of the users before it filled. */
  lemma LoadStep(load: map<int, map<Day, real>>, row: map<Day, real>, staff: seq<User>, i: nat,
                 days: seq<Day>, daySet: set<Day>, logs: seq<Worklog>)
    requires i < |staff| && staff[i].id in load
    requires forall id :: id in load ==> load[id].Keys == daySet
    requires forall k :: 0 <= k < i ==> RowFilled(load, staff[k].id, days, logs)
    requires row.Keys == daySet
    requires forall day :: day in days ==> day in row && row[day] == ActualHoursForUserDay(logs, staff[i].id, day)
    ensures var load' := load[staff[i].id := row];
      && (forall id :: id in load' ==> load'[id].Keys == daySet)
      && (forall k :: 0 <= k <= i ==> RowFilled(load', staff[k].id, days, logs))
  {
    var load' := load[staff[i].id := row];
    forall k | 0 <= k <= i ensures RowFilled(load', staff[k].id, days, logs) {
      if staff[k].id != staff[i].id {
        assert RowFilled(load, staff[k].id, days, logs);
      }
    }
  }

  /**
   * The load loop of `week_view`: a table with an entry per user, each with
   * an entry per day, filled with the hours the user logged on that day.
   */
  method BuildLoad(staff: seq<User>, days: seq<Day>, logs: seq<Worklog>)
    returns (load: map<int, map<Day, real>>)
    ensures load.Keys == IdSet(staff)
    ensures forall u :: u in staff ==> load[u.id].Keys == set day | day in days
    ensures forall u, day :: u in staff && day in days ==>
      load[u.id][day] == ActualHoursForUserDay(logs, u.id, day)
  {
    var daySet := set day | day in days;
    var zero: map<Day, real> := map day | day in days :: 0.0;
    load := map u | u in staff :: u.id := zero;
    assert load.Keys == IdSet(staff);
    ghost var ids := load.Keys;
    var i := 0;
    while i < |staff|
      invariant 0 <= i <= |staff|
      invariant load.Keys == ids
      invariant forall id :: id in load ==> load[id].Keys == daySet
      invariant forall k :: 0 <= k < i ==> RowFilled(load, staff[k].id, days, logs)
    {
      var uid := staff[i].id;
      var row := FillDayRow(uid, days, logs, load[uid]);
      LoadStep(load, row, staff, i, days, daySet, logs);
      load := load[uid := row];
      i := i + 1;
    }
    forall u, day | u in staff && day in days
      ensures load[u.id][day] == ActualHoursForUserDay(logs, u.id, day)
    {
      var k :| 0 <= k < |staff| && staff[k] == u;
      assert RowFilled(load, staff[k].id, days, logs);
    }
  }

  /**
   * The grouping loop of `report_daily`: an entry per user, and each
   * worklog, in order, appended with its task to the entry of its user when
   * there is one.
   */
  method GroupByUser(staff: seq<User>, logs: seq<Worklog>, tasks: seq<Task>)
    returns (byUser: map<int, seq<(Worklog, Option<Task>)>>)
    ensures byUser.Keys == IdSet(staff)
    ensures forall u :: u in staff ==> byUser[u.id] == ReportRows(logs, u.id, tasks)
  {
    byUser := map u | u in staff :: u.id := [];
    var k := 0;
    while k < |logs|
      invariant 0 <= k <= |logs|
      invariant byUser.Keys == IdSet(staff)
      invariant forall u :: u in staff ==> byUser[u.id] == ReportRows(logs[..k], u.id, tasks)
    {
      var wl := logs[k];
      assert logs[..k + 1][..k] == logs[..k];
      if wl.userId in byUser {
        byUser := byUser[wl.userId := byUser[wl.userId] + [(wl, TaskById(tasks, wl.taskId))]];
      }
      k := k + 1;
    }
    assert logs[..|logs|] == logs;
  }

  /**
   * The state of the application: the four tables, with the constraints of
   * the schema and the invariants the handlers keep.
   */
  class Store {
    var users: seq<User>
    var tasks: seq<Task>
    var worklogs: seq<Worklog>
    var sessions: seq<Session>

    ghost predicate Valid()
      reads this
    {
      && UsersOk(users)
      && (forall i :: 0 <= i < |users| ==> users[i].role in Roles)
      && TasksOk(tasks)
      && WorklogsOk(worklogs)
      && SessionsOk(sessions)
    }

    constructor ()
      ensures Valid()
      ensures users == [] && tasks == [] && worklogs == [] && sessions == []
    {
      users, tasks, worklogs, sessions := [], [], [], [];
    }

    /**
     * `login_post`: an active user with the stripped login whose password
     * `verify` accepts gets a new session row for `freshToken`. A token that
     * is already in use violates the unique constraint and fails with 500.
     */
    method LoginPost(login: string, password: string, verify: (string, string) -> bool,
                     freshToken: string) returns (r: Response)
      requires Valid()
      modifies this
      ensures Valid()
      ensures users == old(users) && tasks == old(tasks) && worklogs == old(worklogs)
      ensures match FindActiveLogin(users, Strip(login))
        case None => r == LoginFailed && sessions == old(sessions)
        case Some(k) =>
          if !verify(password, users[k].passwordHash) then
            r == LoginFailed && sessions == old(sessions)
          else if exists i :: 0 <= i < |old(sessions)| && old(sessions)[i].token == freshToken then
            r == Error(Failure(500, "Internal Server Error")) && sessions == old(sessions)
          else
            r == Redirect(Root) &&
            sessions == old(sessions) + [Session(NextId(old(sessions), SessionId), freshToken, users[k].id)]
    {
      var found := FindActiveLogin(users, Strip(login));
      if found.None? || !verify(password, users[found.value].passwordHash) {
        return LoginFailed;
      }
      if exists i :: 0 <= i < |sessions| && sessions[i].token == freshToken {
        return Error(Failure(500, "Internal Server Error"));
      }
      var s := Session(NextId(sessions, SessionId), freshToken, users[found.value].id);
      AppendKeepsDistinct(sessions, s, SessionId);
      AppendKeepsDistinct(sessions, s, SessionToken);
      sessions := sessions + [s];
      r := Redirect(Root);
    }

    /**
     * `index`: an unauthenticated caller goes to the login page; otherwise
     * admins go to the admin page, viewers to the week page and every other
     * role to the day page.
     */
    method Index(token: Option<string>) returns (r: Response)
      ensures var cu := CurrentUser(token, sessions, users);
        && (r == Redirect(LoginPage) <==> cu.Err?)
        && (r == Redirect(AdminPage) <==> cu.Ok? && cu.value.role == "admin")
        && (r == Redirect(WeekPage) <==> cu.Ok? && cu.value.role == "viewer")
        && (r == Redirect(DayPage) <==> cu.Ok? && cu.value.role != "admin" && cu.value.role != "viewer")
    {
      var cu := CurrentUser(token, sessions, users);
      if cu.Err? {
        return Redirect(LoginPage);
      }
      if cu.value.role == "admin" {
        return Redirect(AdminPage);
      }
      if cu.value.role == "viewer" {
        return Redirect(WeekPage);
      }
      r := Redirect(DayPage);
    }

    /** `logout`: deletes every session row carrying the cookie's token, if there is a token. */
    method Logout(token: Option<string>) returns (r: Response)
      requires Valid()
      modifies this
      ensures Valid()
      ensures r == Redirect(LoginPage)
      ensures users == old(users) && tasks == old(tasks) && worklogs == old(worklogs)
      ensures if token.Some? && token.value != "" then sessions == WithoutToken(old(sessions), token.value)
              else sessions == old(sessions)
    {
      if token.Some? && token.value != "" {
        WithoutTokenKeepsDistinct(sessions, token.value, SessionId);
        WithoutTokenKeepsDistinct(sessions, token.value, SessionToken);
        sessions := WithoutToken(sessions, token.value);
      }
      r := Redirect(LoginPage);
    }

    /**
     * `admin_create_user`: the role is stripped and lower-cased and must be
     * one of the three roles; name and login are stripped; none of name,
     * login and password may be empty; the login must be new. The new user
     * is active. `digest` is the password hash the credential store produced.
     */
    method AdminCreateUser(token: Option<string>, name: string, login: string, password: string,
                           role: string, digest: string) returns (r: Response)
      requires Valid()
      modifies this
      ensures Valid()
      ensures tasks == old(tasks) && worklogs == old(worklogs) && sessions == old(sessions)
      ensures
        var auth := Authorize(token, old(sessions), old(users), {"admin"});
        var rl := Lower(Strip(role));
        var n := Strip(name);
        var l := Strip(login);
        if auth.Err? then r == Error(auth.error) && users == old(users)
        else if rl !in Roles then r == Error(Failure(400, "Bad role")) && users == old(users)
        else if n == "" || l == "" || password == "" then
          r == Error(Failure(400, "Empty fields")) && users == old(users)
        else if LoginTaken(old(users), l) then
          r == Error(Failure(400, "Login already exists")) && users == old(users)
        else
          r == Redirect(AdminPage) &&
          users == old(users) + [NewUser(NextId(old(users), UserId), n, rl, l, digest)] &&
          users[|users| - 1].isActive
    {
      var auth := Authorize(token, sessions, users, {"admin"});
      if auth.Err? {
        return Error(auth.error);
      }
      var rl := Lower(Strip(role));
      if rl !in Roles {
        return Error(Failure(400, "Bad role"));
      }
      var n := Strip(name);
      var l := Strip(login);
      if n == "" || l == "" || password == "" {
        return Error(Failure(400, "Empty fields"));
      }
      if LoginTaken(users, l) {
        return Error(Failure(400, "Login already exists"));
      }
      var u := NewUser(NextId(users, UserId), n, rl, l, digest);
      NewUserKeepsUsersOk(users, u);
      users := users + [u];
      r := Redirect(AdminPage);
    }

    /**
     * `admin_toggle_active`: an unknown id fails with 404 and the caller's
     * own id with 400; otherwise the target's active flag is flipped.
     */
    method AdminToggleActive(token: Option<string>, userId: int) returns (r: Response)
      requires Valid()
      modifies this
      ensures Valid()
      ensures tasks == old(tasks) && worklogs == old(worklogs) && sessions == old(sessions)
      ensures
        var auth := Authorize(token, old(sessions), old(users), {"admin"});
        if auth.Err? then r == Error(auth.error) && users == old(users)
        else match FindUser(old(users), userId)
          case None => r == Error(Failure(404, "Not Found")) && users == old(users)
          case Some(k) =>
            if userId == auth.value.id then
              r == Error(Failure(400, "Cannot deactivate yourself")) && users == old(users)
            else
              r == Redirect(AdminPage) &&
              users == old(users)[k := old(users)[k].(isActive := !old(users)[k].isActive)]
    {
      var auth := Authorize(token, sessions, users, {"admin"});
      if auth.Err? {
        return Error(auth.error);
      }
      var found := FindUser(users, userId);
      if found.None? {
        return Error(Failure(404, "Not Found"));
      }
      var k := found.value;
      if users[k].id == auth.value.id {
        return Error(Failure(400, "Cannot deactivate yourself"));
      }
      var u := users[k].(isActive := !users[k].isActive);
      ReplaceKeepsDistinct(users, k, u, UserId);
      ReplaceKeepsDistinct(users, k, u, UserLogin);
      users := users[k := u];
      r := Redirect(AdminPage);
    }

    /**
     * `admin_create_task`: appends a task with the stripped title, status
     * `todo` and progress 0. The assignee is not checked against the users.
     */
    method AdminCreateTask(token: Option<string>, title: string, assignee: Option<int>,
                           start: Day, end: Day, plannedHours: real, priority: int)
      returns (r: Response)
      requires Valid()
      modifies this
      ensures Valid()
      ensures users == old(users) && worklogs == old(worklogs) && sessions == old(sessions)
      ensures
        var auth := Authorize(token, old(sessions), old(users), {"admin"});
        if auth.Err? then r == Error(auth.error) && tasks == old(tasks)
        else
          r == Redirect(AdminPage) &&
          tasks == old(tasks) + [NewTask(NextId(old(tasks), TaskId), Strip(title), assignee, start, end)
                                   .(plannedHours := plannedHours, priority := priority)]
    {
      var auth := Authorize(token, sessions, users, {"admin"});
      if auth.Err? {
        return Error(auth.error);
      }
      var t := Task(NextId(tasks, TaskId), None, Strip(title), assignee, start, end,
                    plannedHours, priority, Todo, 0);
      AppendKeepsDistinct(tasks, t, TaskId);
      tasks := tasks + [t];
      r := Redirect(AdminPage);
    }

    /**
     * `day_log`: records the outcome of a day's work on a task. An empty
     * submission is discarded before ownership is checked; a task that is not
     * the caller's fails with 404; otherwise the worklog of (caller, task,
     * date) is upserted and the task's progress and status are rewritten.
     * A done flag is set by any submitted value of the `is_done` field.
     */
    method DayLog(token: Option<string>, date: Day, taskId: int, hours: real, comment: string,
                  progress: int, isDone: Option<string>) returns (r: Response)
      requires Valid()
      modifies this
      ensures Valid()
      ensures users == old(users) && sessions == old(sessions)
      ensures
        var auth := Authorize(token, old(sessions), old(users), {"admin", "employee"});
        var done := isDone.Some?;
        var fp := FinalProgress(progress, done);
        var c := Strip(comment);
        if auth.Err? then
          r == Error(auth.error) && worklogs == old(worklogs) && tasks == old(tasks)
        else if IsEmptySubmission(hours, c, fp, done) then
          r == Redirect(DayOn(date)) && worklogs == old(worklogs) && tasks == old(tasks)
        else match OwnedTask(old(tasks), taskId, auth.value.id)
          case None =>
            r == Error(Failure(404, "Task not found or not assigned to you")) &&
            worklogs == old(worklogs) && tasks == old(tasks)
          case Some(j) =>
            r == Redirect(DayOn(date)) &&
            worklogs == Upsert(old(worklogs), Worklog(NextId(old(worklogs), WorklogId), date,
                                                      auth.value.id, taskId, hours, c, fp, done)) &&
            tasks == old(tasks)[j := old(tasks)[j].(currentProgress := fp, status := StatusAfter(fp, done))]
    {
      var auth := Authorize(token, sessions, users, {"admin", "employee"});
      if auth.Err? {
        return Error(auth.error);
      }
      var user := auth.value;
      var done := isDone.Some?;
      var fp := FinalProgress(progress, done);
      var c := Strip(comment);
      if IsEmptySubmission(hours, c, fp, done) {
        return Redirect(DayOn(date));
      }
      var owned := OwnedTask(tasks, taskId, user.id);
      if owned.None? {
        return Error(Failure(404, "Task not found or not assigned to you"));
      }
      var j := owned.value;

      var e := Worklog(NextId(worklogs, WorklogId), date, user.id, taskId, hours, c, fp, done);
      UpsertKeepsWorklogsOk(worklogs, e);
      worklogs := Upsert(worklogs, e);

      var t := tasks[j].(currentProgress := fp, status := StatusAfter(fp, done));
      ReplaceKeepsTasksOk(tasks, j, t);
      tasks := tasks[j := t];
      r := Redirect(DayOn(date));
    }

    /**
     * `week_view`: the week of the given date (today when none is given),
     * its seven days, and for every active admin and employee the hours they
     * logged on each of those days.
     */
    method WeekView(token: Option<string>, d: Option<Day>, today: Day)
      returns (r: Result<WeekPageData, Failure>)
      ensures var auth := Authorize(token, sessions, users, {"admin", "employee", "viewer"});
        (r.Err? <==> auth.Err?) && (r.Err? ==> r.error == auth.error)
      ensures r.Ok? ==>
        var p := r.value;
        && p.weekStart == WeekStart(if d.Some? then d.value else today)
        && p.days == DateRange(p.weekStart, 7)
        && p.users == StaffUsers(users)
        && p.load.Keys == IdSet(p.users)
        && (forall u :: u in p.users ==> p.load[u.id].Keys == set day | day in p.days)
        && (forall u, day :: u in p.users && day in p.days ==>
              p.load[u.id][day] == ActualHoursForUserDay(worklogs, u.id, day))
    {
      var auth := Authorize(token, sessions, users, {"admin", "employee", "viewer"});
      if auth.Err? {
        return Err(auth.error);
      }
      var theDate := if d.Some? then d.value else today;
      var ws := WeekStart(theDate);
      var days := DateRange(ws, 7);
      var staff := StaffUsers(users);
      var load := BuildLoad(staff, days, worklogs);
      r := Ok(WeekPageData(ws, days, staff, load));
    }

    /**
     * `report_daily`: for every active admin and employee, the worklogs of
     * the day that are theirs, in table order, each with the task it names.
     */
    method ReportDaily(token: Option<string>, d: Day) returns (r: Result<DailyReport, Failure>)
      ensures var auth := Authorize(token, sessions, users, {"admin", "viewer"});
        (r.Err? <==> auth.Err?) && (r.Err? ==> r.error == auth.error)
      ensures r.Ok? ==>
        var rep := r.value;
        && rep.date == d
        && rep.users == StaffUsers(users)
        && rep.logsByUser.Keys == IdSet(rep.users)
        && forall u :: u in rep.users ==> rep.logsByUser[u.id] == ReportRows(OnDate(worklogs, d), u.id, tasks)
    {
      var auth := Authorize(token, sessions, users, {"admin", "viewer"});
      if auth.Err? {
        return Err(auth.error);
      }
      var staff := StaffUsers(users);
      var byUser := GroupByUser(staff, OnDate(worklogs, d), tasks);
      r := Ok(DailyReport(d, staff, byUser));
    }
  }

  /**
   * A daily report row of a user is exactly one of that user's worklogs of
   * that day, paired with the task it names.
   */
  lemma DailyReportRowsExact(worklogs: seq<Worklog>, d: Day, uid: int, tasks: seq<Task>,
                             p: (Worklog, Option<Task>))
    ensures p in ReportRows(OnDate(worklogs, d), uid, tasks) <==>
      p.0 in worklogs && p.0.date == d && p.0.userId == uid && p.1 == TaskById(tasks, p.0.taskId)
    ensures multiset(ReportRows(OnDate(worklogs, d), uid, tasks))[p] ==
      if p.0.date == d && p.0.userId == uid && p.1 == TaskById(tasks, p.0.taskId)
      then multiset(worklogs)[p.0] else 0
  {
    ReportRowsExact(OnDate(worklogs, d), uid, tasks, p);
    OnDateCount(worklogs, d, p.0);
  }
}
