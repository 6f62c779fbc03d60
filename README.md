# Team planner: a Dafny model of its decision and table-update logic

The team planner is a small role-gated work-tracking web application. Administrators create users and tasks. Employees log their daily hours and progress against the tasks assigned to them. Viewers read weekly and daily reports. The application keeps four tables: users, tasks, worklogs and sessions.

This project models the parts of the application that decide something or rewrite a table:

- the records and the constraints of the four tables (`models.dfy`, module `Models`);
- the string normalisation of form fields (`text.dfy`, module `Text`);
- the week arithmetic and the hour sums of the service layer (`services.dfy`, module `Services`);
- session resolution and the role gate (`deps.dfy`, module `Deps`);
- the day-log decisions and the worklog upsert (`logging.dfy`, module `Logging`);
- the request handlers, as methods of a `Store` class whose fields are the four tables (`handlers.dfy`, module `Handlers`).

`Wrappers` holds `Option`, `Result` and `Outcome`.

Conventions of the model:

- A date is its proleptic Gregorian ordinal, as `date.toordinal()` gives it. Day 1 is Monday 0001-01-01, so `Weekday(d) == (d + 6) % 7`.
- Hours are `real`.
- A table is a sequence of rows. A query's `.first()` is the first matching row in table order.
- A new primary key is one more than the largest id, or 1 in an empty table. The database engine is not part of the model, so this allocation rule is an assumption of the model.
- Roles are strings, as in the source. A task status is the datatype `Status`, because the source only ever writes the three constants.
- `LoginPost` and `Logout` do not authenticate the caller. `Index` resolves the cookie token (`Deps.CurrentUser`) but applies no role gate. Every other handler first resolves the token and applies the role gate (`Deps.Authorize`).
- A state-changing handler answers with a `Response`: a redirect, the login form again (401), or an error status with its detail message. The two report pages return their data or the failure of the gate.
- Password verification is a function parameter of `LoginPost`. The password digest and the new session token are method parameters.
- The worklog key (user, task, date) is kept unique by the upsert in `day_log`, not by the schema. `Store.Valid()` carries it as an invariant, with unique ids, unique logins, unique session tokens, known roles, and progress in [0, 100] for tasks and worklogs. Every state-changing handler preserves `Valid()`.

Two behaviours of the code are worth knowing. Hours are not validated: a submission with negative hours and a non-empty comment is stored as it is. A submission that is entirely empty is discarded before the ownership check, so an empty submission against someone else's task redirects instead of failing with 404.

## Model

| member | source | states |
|---|---|---|
| `Models.DefaultsWellFormed` | app/models.py:15-40 | A new user is active. A new task has no parent, planned hours 0, priority 3, status `todo` and progress 0. A new worklog has 0 hours, an empty comment, progress 0 and is not done. Each keeps the values it was created with. |
| `Models.NewUser` | app/models.py:15 | A user row created with `is_active` at its default. `Models.DefaultsWellFormed` states that it is active and keeps the given fields. |
| `Models.NewTask` | app/models.py:26-29 | A task row created with its column defaults. `Models.DefaultsWellFormed` states each default. |
| `Models.NewWorklog` | app/models.py:37-40 | A worklog row created with its column defaults. `Models.DefaultsWellFormed` states each default. |
| `Models.FindFirst` | app/deps.py:13-17 | A query's `.first()`: it returns a row satisfying the filter, and no earlier row satisfies it. It returns none exactly when no row satisfies the filter. |
| `Models.NextId` | app/models.py:7 | The new primary key is above every existing id. It is exactly one more than the largest id, or 1 for an empty table. |
| `Text.Strip` | app/main.py:126-127 | `str.strip()`: the result is a slice of the input that neither starts nor ends with whitespace, and everything cut off is whitespace. |
| `Text.StripEmptyIff` | app/main.py:130-131 | A field strips to the empty string exactly when it is all whitespace. |
| `Text.StripIdempotent` | app/main.py:126-127 | Stripping a stripped string changes nothing. |
| `Text.Lower` | app/main.py:122 | The length is kept and no upper-case ASCII letter remains. Each upper-case letter becomes its lower-case letter, and every other character is unchanged. |
| `Services.Weekday` | app/services.py:16 | Python's `weekday()` on an ordinal lies in 0..6. |
| `Services.WeekStart` | app/services.py:14-16 | `week_start(d)` is a Monday (weekday 0), and `week_start(d) <= d < week_start(d) + 7`. |
| `Services.WeekStartUnique` | app/services.py:14-16 | Any Monday `m` with `m <= d < m + 7` is `week_start(d)`, so the week start is the unique Monday on or before `d` within six days. |
| `Services.WeekStartIdempotent` | app/services.py:14-16 | `week_start(week_start(d)) == week_start(d)`. |
| `Services.WeekStartRepresentable` | app/services.py:14-16 | The week start of a representable date (ordinal >= 1) is representable, so the subtraction cannot leave Python's date range. |
| `Services.DateRange` | app/services.py:18-20 | `daterange(d0, n)` has `n` elements (none when `n <= 0`), and its i-th element is `d0 + i`. |
| `Services.SumHours` | app/services.py:22-31 | `COALESCE(SUM(hours), 0.0)` over the selected worklogs. The `Services.SumHours…` lemmas below state its properties: 0.0 with no selected row, additivity, independence of row order, and the effect of removing or replacing a row. |
| `Services.SumHoursNoneSelected` | app/services.py:22-31 | With no matching worklog, the SUM with COALESCE is 0.0. |
| `Services.SumHoursConcat` | app/services.py:22-31 | The sum over two tables put together is the sum of the two sums. |
| `Services.SumHoursRemove` | app/services.py:22-31 | Removing one row takes exactly its contribution off the sum. |
| `Services.SumHoursPermutation` | app/services.py:22-31 | The sum does not depend on the order of the rows. |
| `Services.SumHoursReplace` | app/services.py:22-31 | Replacing one row swaps its contribution for the new row's. |
| `Services.ActualHoursForTask` | app/services.py:22-24 | The hours logged against a task, and 0.0 when no worklog names the task. |
| `Services.ActualHoursForUserDay` | app/services.py:26-31 | The hours a user logged on a day, and 0.0 when there is no worklog for both. |
| `Services.UserDayIgnoresOthers` | app/services.py:26-31 | A worklog of another user or another date, inserted anywhere in the table, leaves the user's daily hours unchanged. |
| `Services.TaskIgnoresOthers` | app/services.py:22-24 | A worklog of another task leaves the task's hours unchanged. |
| `Deps.FindSession` | app/deps.py:13 | The first session row carrying the token, or none when no row carries it, by the contract of `Models.FindFirst`. |
| `Deps.FindActiveUser` | app/deps.py:17 | The first active user with the id, or none when no row is both, by the contract of `Models.FindFirst`. |
| `Deps.CurrentUser` | app/deps.py:8-21 | Every failure is 401. A missing or empty token fails. On success the token is present, the user is active and in the table, and a session row carries the token for that user's id. |
| `Deps.CurrentUserSucceedsIff` | app/deps.py:8-21 | With unique tokens, resolution succeeds exactly when the token is non-empty and its session names an active user. |
| `Deps.InactiveUserRejected` | app/deps.py:17-19 | If no active row has the user's id, none of that user's tokens resolves. |
| `Deps.RequireRole` | app/deps.py:23-25 | Fails with 403 exactly when the role is not among the allowed roles. |
| `Deps.RequireRoleMonotone` | app/deps.py:24 | A user who passes for a set of roles passes for every superset. |
| `Deps.Authorize` | app/deps.py:8-25 | Admits the caller exactly when the token resolves to a user whose role is allowed, and then returns that user: active, in the table, with an allowed role. Every failure is 401 or 403. A 401 happens exactly when resolution fails. A 403 happens exactly when resolution succeeds and the role is not allowed. |
| `Deps.AuthorizeMonotone` | app/deps.py:23-25 | Widening the allowed roles admits the same user with the same result. |
| `Logging.ClampProgress` | app/main.py:272-277 | The result lies in [0, 100]. It equals the input when that is in range, 0 below the range and 100 above it. |
| `Logging.FinalProgress` | app/main.py:279-280 | The stored progress lies in [0, 100]. It is 100 when done and the clamped input otherwise. |
| `Logging.StatusFromSubmission` | app/main.py:319-320 | The status is `done` exactly when the done flag is set. It is `in_progress` exactly when the flag is unset and the submitted progress is positive. It is `todo` otherwise, and then the progress is 0. |
| `Logging.EmptySubmissionIff` | app/main.py:282-287 | A submission is discarded exactly when hours <= 0, the comment is all whitespace, progress <= 0 and the done flag is unset. |
| `Logging.StatusAfter` | app/main.py:320 | The task status written from the submission. `Logging.StatusFromSubmission` states when each of the three statuses is chosen. |
| `Logging.IsEmptySubmission` | app/main.py:286 | The discard condition over the normalised inputs. `Logging.EmptySubmissionIff` states it over the raw inputs. |
| `Logging.FindWorklog` | app/main.py:295-299 | The first worklog with the key (user, task, date), or none when no row has that key, by the contract of `Models.FindFirst`. |
| `Logging.Upsert` | app/main.py:294-316 | The worklog table after the upsert. `Logging.UpsertOneRowPerKey`, `Logging.UpsertOtherRows`, `Logging.UpsertKeepsWorklogsOk`, `Logging.UpsertUserDayHours` and `Logging.UpsertTaskHours` state what it does to the table and to the sums. |
| `Logging.UpsertOneRowPerKey` | app/main.py:294-316 | If at most one worklog per key exists before, that still holds after. A row with the submitted key exists and carries the new hours, comment, progress and done flag. |
| `Logging.UpsertOtherRows` | app/main.py:301-316 | Rows of every other key keep their position and contents. The row updated in place keeps its id and key. At most one row is added, and that row is the new worklog. |
| `Logging.UpsertKeepsIds` | app/main.py:307-316 | A new worklog with an unused id keeps the worklog ids distinct. |
| `Logging.UpsertKeepsProgress` | app/main.py:304-313 | If the new progress is in range, every stored progress stays in [0, 100]. |
| `Logging.UpsertKeepsWorklogsOk` | app/main.py:294-316 | The upsert keeps all the worklog-table invariants: distinct ids, one row per key, progress in range. |
| `Logging.UpsertUserDayHours` | app/main.py:301-316 | The daily hours of the submitting user on that date change by the new hours minus the hours the row held before. Every other user-day is unchanged. |
| `Logging.UpsertTaskHours` | app/main.py:301-316 | The hours of the task change by the new hours minus the hours the row held before. Every other task is unchanged. |
| `Handlers.FindActiveLogin` | app/main.py:33 | The first active user with the login, or none when there is none, by the contract of `Models.FindFirst`. |
| `Handlers.FindUser` | app/main.py:161 | The first user with the id, or none when there is none, by the contract of `Models.FindFirst`. |
| `Handlers.LoginTaken` | app/main.py:134-137 | The login-exists query: some user row has the login. Once the earlier checks pass, `Handlers.Store.AdminCreateUser` answers 400 "Login already exists" exactly when it holds. |
| `Handlers.OwnedTask` | app/main.py:290 | The first task with the id whose assignee is the caller, or none when there is none, by the contract of `Models.FindFirst`. |
| `Handlers.TaskById` | app/main.py:373 | `task_map.get(id)` returns a task of the table with that id, the last one in table order, as a dict built in order keeps it. It returns none exactly when no task has the id. |
| `Handlers.WithoutToken` | app/main.py:83 | After the delete, a session row remains exactly when it was there before and carries another token. |
| `Handlers.WithoutTokenKeepsDistinct` | app/main.py:83 | Deleting session rows keeps ids and tokens distinct. |
| `Handlers.LogoutUnknownTokenNoOp` | app/main.py:81-84 | Logging out a token that has no session row changes nothing. |
| `Handlers.LoggedOutTokenRejected` | app/main.py:81-84 | After logout, the token no longer resolves to a user. |
| `Handlers.NewSessionResolves` | app/main.py:41-44 | The session a successful login inserts resolves to the user who logged in. |
| `Handlers.ToggleOffRevokesSessions` | app/main.py:169 | Deactivating an active user makes every live token of theirs fail resolution. |
| `Handlers.NewUserKeepsUsersOk` | app/main.py:134-147 | Adding a user whose login is not taken, under a new id, keeps ids and logins pairwise distinct. |
| `Handlers.ReplaceKeepsTasksOk` | app/main.py:319-320 | Rewriting a task's progress and status to an in-range progress keeps the task-table invariants. |
| `Handlers.IsStaff` | app/main.py:368-371 | The filter `role in ("admin", "employee") and is_active`. `Handlers.StaffUsers` and `Handlers.StaffUsersCount` state the list it selects. |
| `Handlers.StaffUsers` | app/main.py:339 | The listed users are exactly the active admins and employees. |
| `Handlers.StaffUsersCount` | app/main.py:368-371 | Each active admin or employee is listed as many times as the table holds them, and no other user is listed. |
| `Handlers.StaffUsersConcat` | app/main.py:368-371 | The staff of two tables put together are the staff of the first followed by those of the second, so the list keeps table order. |
| `Handlers.OnDate` | app/main.py:375-377 | The selected worklogs are exactly those dated on the day. |
| `Handlers.OnDateCount` | app/main.py:375-377 | Each worklog of the day is selected as many times as the table holds it, and no other worklog is selected. |
| `Handlers.OnDateConcat` | app/main.py:375-377 | The selection over two tables put together is the selection over the first followed by that over the second, so it keeps table order. |
| `Handlers.ReportRows` | app/main.py:379-382 | One user's rows of the report. `Handlers.ReportRowsExact` states which pairs they are and how often each appears, and `Handlers.ReportRowsConcat` states that they keep table order. |
| `Handlers.ReportRowsExact` | app/main.py:379-382 | A report row of a user is exactly one of their worklogs, paired with the task its task id names. Each such pair appears as many times as the table holds the worklog, which is once for a worklog the table holds once. |
| `Handlers.ReportRowsConcat` | app/main.py:379-382 | The report rows of two tables put together are the rows of the first followed by those of the second, so the rows keep table order. |
| `Handlers.DailyReportRowsExact` | app/main.py:375-382 | A daily-report row of a user is exactly one of their worklogs of that day, paired with its task. Each such pair appears as many times as the table holds the worklog. |
| `Handlers.FillDayRow` | app/main.py:343-344 | The user's entry for each day holds their hours on that day. No key is added or removed. |
| `Handlers.LoadStep` | app/main.py:342-344 | Writing one user's filled row keeps the rows of the users already filled. Every row keeps the same days. |
| `Handlers.BuildLoad` | app/main.py:340-344 | The load table has an entry per listed user. Each entry has an entry per day of the week, holding `actual_hours_for_user_day` for that user and day. |
| `Handlers.GroupByUser` | app/main.py:379-382 | The grouping has an entry per listed user, holding that user's worklogs in order, each with its task. |
| `Handlers.Store.Valid` | app/models.py:7-46 | The table invariants every state-changing handler keeps: distinct ids in every table, unique logins and session tokens, known roles, one worklog per (user, task, date), and progress in [0, 100] for tasks and worklogs. |
| `Handlers.Store.LoginPost` | app/main.py:26-53 | An unknown or inactive login, or a rejected password, re-renders the login form and changes nothing. A token already in use fails with 500 and changes nothing. Otherwise exactly one session row is added for the user and the response redirects to `/`. |
| `Handlers.Store.Index` | app/main.py:55-75 | An unauthenticated caller goes to `/login`. Otherwise admins go to `/admin`, viewers to `/week` and every other role to `/day`. Each case holds exactly under its condition. |
| `Handlers.Store.Logout` | app/main.py:79-88 | With a token, every session row carrying it is deleted. Without one, the sessions are unchanged. The response redirects to `/login`, and the invariants are kept. |
| `Handlers.Store.AdminCreateUser` | app/main.py:110-149 | Fails with 400 for a role outside the three roles (after strip and lower), for an empty name, login or password, and for a taken login, leaving users unchanged. Otherwise it appends exactly one active user and keeps logins unique. |
| `Handlers.Store.AdminToggleActive` | app/main.py:152-171 | Fails with 404 for an unknown id and with 400 for the caller's own id, leaving users unchanged. Otherwise it negates the target's active flag, and every other user is unchanged. |
| `Handlers.Store.AdminCreateTask` | app/main.py:174-206 | Appends one task with a fresh id, the stripped title, and the given assignee, dates, planned hours and priority. The task has status `todo` and progress 0, which are the column defaults. |
| `Handlers.Store.DayLog` | app/main.py:256-323 | An empty submission changes nothing, even for a task that is not the caller's. A task not assigned to the caller fails with 404 and changes nothing. Otherwise the worklog table becomes the upsert of the submitted outcome, and only the owned task's progress and status are rewritten. All invariants are kept. |
| `Handlers.Store.WeekView` | app/main.py:327-357 | Fails exactly when authorization fails. Otherwise it returns the week start of the date (today when none is given), its seven days, the active admins and employees, and their hours per day. |
| `Handlers.Store.ReportDaily` | app/main.py:361-391 | Fails exactly when authorization fails. Otherwise each active admin or employee gets the day's worklogs that are theirs, each with its task. |

## Left out

- Password hashing and verification (bcrypt) are outside the model. `LoginPost` takes `verify` as a parameter, and `AdminCreateUser` takes the digest as a parameter.
- Session-token generation is random, so the new token is a parameter of `LoginPost`.
- HTTP routing, form parsing, cookies (`HttpOnly`, `SameSite`, deleting the cookie), Jinja2 templates and static files are not modelled. A response is a `Response` value.
- The read-only pages `login_get`, `admin_view` and `day_view` are not part of this model. Neither are `week_view`'s task list and user map, which only feed the template.
- ISO date parsing (`date.fromisoformat`) and `int(assignee_id)` are not modelled: dates arrive as ordinals and the assignee as an optional integer. Their `ValueError`s are not modelled either.
- Python's date range (ordinals 1 to 3652059) is not enforced. `DateRange` does not model the `OverflowError` near `date.max`.
- The `except` branch around `int(progress)` is not modelled: the form layer has already parsed `progress` as an integer, so that branch cannot be reached.
- Floating-point behaviour of `hours` and `planned_hours` (rounding, NaN, infinities) is not modelled: they are `real`.
- `Text.Lower`: folds only ASCII letters, because full Unicode case mapping is not modelled. The verdict of the role check is the same, because no other character lower-cases to a letter of `admin`, `employee` or `viewer`.
- `ORDER BY` clauses are not modelled: the report lists users and worklogs in table order, not by name and creation time. `created_at` timestamps are not modelled.
- Transactions, rollback and the race between concurrent upserts are not modelled: each handler runs to completion on its own.
- Foreign keys are not checked: the model assumes a database that does not enforce them, and no handler relies on them. `parent_id` is carried but never set by a handler.
- `gen_token` and `auth_by_token` in app/services.py, and create_admin.py, are not part of this model.
