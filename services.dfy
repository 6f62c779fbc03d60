/**
 * Week arithmetic and the two hour aggregations of the application's service
 * layer. Dates are ordinals (see Models.Day); a worklog table is a sequence
 * whose order carries no meaning, as in SQL.
 */
module Services {
  import opened Models

  /** Python's `date.weekday()` on an ordinal: Monday is 0, Sunday is 6. */
  function Weekday(d: Day): (w: int)
    ensures 0 <= w < 7
  {
    (d + 6) % 7
  }

  /** The Monday on or before `d`. */
  function WeekStart(d: Day): (r: Day)
    ensures Weekday(r) == 0
    ensures r <= d < r + 7
  {
    var w := Weekday(d);
    assert d + 6 == 7 * ((d + 6) / 7) + w;
    assert d - w + 6 == 7 * ((d + 6) / 7);
    d - w
  }

  /** Any Monday within the six days before `d` is `WeekStart(d)`: the week start is unique. */
  lemma {:induction false} WeekStartUnique(d: Day, m: Day)
    requires Weekday(m) == 0 && m <= d < m + 7
    ensures m == WeekStart(d)
  {
    var s := WeekStart(d);
    assert m + 6 == 7 * ((m + 6) / 7);
    assert s + 6 == 7 * ((s + 6) / 7);
    var q := (m + 6) / 7 - (s + 6) / 7;
    assert m - s == 7 * q;
    assert -7 < m - s < 7;
  }

  /** Taking the week start of a week start changes nothing. */
  lemma WeekStartIdempotent(d: Day)
    ensures WeekStart(WeekStart(d)) == WeekStart(d)
  {
    WeekStartUnique(WeekStart(d), WeekStart(d));
  }

  /**
   * The earliest date Python represents (ordinal 1) is a Monday, so the week
   * start of a representable date is representable.
   */
  lemma WeekStartRepresentable(d: Day)
    requires d >= 1
    ensures WeekStart(d) >= 1
  {
  }

  /** `daterange(d0, days)`: the `days` consecutive dates from `d0` (none when `days <= 0`). */
  function DateRange(d0: Day, days: int): (r: seq<Day>)
    ensures |r| == if days > 0 then days else 0
    ensures forall i :: 0 <= i < |r| ==> r[i] == d0 + i
    decreases days
  {
    if days <= 0 then [] else [d0] + DateRange(d0 + 1, days - 1)
  }

  /** Which worklogs a SUM query adds up. */
  datatype LogFilter = ForTask(taskId: int) | ForUserDay(userId: int, day: Day)

  predicate Selects(f: LogFilter, w: Worklog)
  {
    match f
    case ForTask(t) => w.taskId == t
    case ForUserDay(u, d) => w.userId == u && w.date == d
  }

  /** What one worklog adds to the sum: its hours when selected, else nothing. */
  function Contribution(f: LogFilter, w: Worklog): real
  {
    if Selects(f, w) then w.hours else 0.0
  }

  /** `COALESCE(SUM(hours), 0.0)` over the worklogs `f` selects. */
  function SumHours(logs: seq<Worklog>, f: LogFilter): real
    decreases |logs|
  {
    if logs == [] then 0.0
    else SumHours(logs[..|logs| - 1], f) + Contribution(f, logs[|logs| - 1])
  }

  /** With no selected worklog the sum is the default 0.0. */
  lemma {:induction false} SumHoursNoneSelected(logs: seq<Worklog>, f: LogFilter)
    ensures (forall i :: 0 <= i < |logs| ==> !Selects(f, logs[i])) ==> SumHours(logs, f) == 0.0
    decreases |logs|
  {
    if logs != [] {
      var prefix := logs[..|logs| - 1];
      assert forall i :: 0 <= i < |prefix| ==> prefix[i] == logs[i];
      SumHoursNoneSelected(prefix, f);
    }
  }

  /** The sum over two tables put together is the sum of their sums. */
  lemma {:induction false} SumHoursConcat(a: seq<Worklog>, b: seq<Worklog>, f: LogFilter)
    ensures SumHours(a + b, f) == SumHours(a, f) + SumHours(b, f)
    decreases |b|
  {
    if b == [] {
      assert a + b == a;
    } else {
      var b' := b[..|b| - 1];
      assert (a + b)[..|a + b| - 1] == a + b';
      SumHoursConcat(a, b', f);
    }
  }

  /** Removing the row at `k` takes exactly its contribution off the sum. */
  lemma SumHoursRemove(logs: seq<Worklog>, k: nat, f: LogFilter)
    requires k < |logs|
    ensures SumHours(logs, f) == SumHours(logs[..k] + logs[k + 1..], f) + Contribution(f, logs[k])
  {
    assert logs == logs[..k] + [logs[k]] + logs[k + 1..];
    SumHoursConcat(logs[..k] + [logs[k]], logs[k + 1..], f);
    SumHoursConcat(logs[..k], [logs[k]], f);
    SumHoursConcat(logs[..k], logs[k + 1..], f);
    assert SumHours([logs[k]], f) == Contribution(f, logs[k]) by {
      assert [logs[k]][..0] == [];
    }
  }

  /** The sum does not depend on the order of the rows: SQL tables are unordered. */
  lemma {:induction false} SumHoursPermutation(a: seq<Worklog>, b: seq<Worklog>, f: LogFilter)
    requires multiset(a) == multiset(b)
    ensures SumHours(a, f) == SumHours(b, f)
    decreases |a|
  {
    if a != [] {
      var x := a[|a| - 1];
      var a' := a[..|a| - 1];
      assert a == a' + [x];
      assert x in multiset(b);
      var k :| 0 <= k < |b| && b[k] == x;
      var b' := b[..k] + b[k + 1..];
      assert b == b[..k] + [x] + b[k + 1..];
      assert multiset(b) == multiset(b[..k]) + multiset{x} + multiset(b[k + 1..]);
      assert multiset(b') == multiset(b[..k]) + multiset(b[k + 1..]);
      assert multiset(a) == multiset(a') + multiset{x};
      assert multiset(a') == multiset(a) - multiset{x};
      assert multiset(b') == multiset(b) - multiset{x};
      SumHoursPermutation(a', b', f);
      SumHoursRemove(b, k, f);
    } else {
      assert |b| == |multiset(b)| == 0;
    }
  }

  /** Replacing row `k` swaps its contribution for that of the new row. */
  lemma SumHoursReplace(logs: seq<Worklog>, k: nat, w: Worklog, f: LogFilter)
    requires k < |logs|
    ensures SumHours(logs[k := w], f)
      == SumHours(logs, f) - Contribution(f, logs[k]) + Contribution(f, w)
  {
    var r := logs[k := w];
    SumHoursRemove(logs, k, f);
    SumHoursRemove(r, k, f);
    assert r[..k] == logs[..k] && r[k + 1..] == logs[k + 1..];
  }

  /** `actual_hours_for_task`: the hours logged against task `t`, 0.0 when there are none. */
  function ActualHoursForTask(logs: seq<Worklog>, t: int): (h: real)
    ensures (forall i :: 0 <= i < |logs| ==> logs[i].taskId != t) ==> h == 0.0
  {
    SumHoursNoneSelected(logs, ForTask(t));
    SumHours(logs, ForTask(t))
  }

  /** `actual_hours_for_user_day`: the hours user `u` logged on day `d`, 0.0 when there are none. */
  function ActualHoursForUserDay(logs: seq<Worklog>, u: int, d: Day): (h: real)
    ensures (forall i :: 0 <= i < |logs| ==> logs[i].userId != u || logs[i].date != d) ==> h == 0.0
  {
    SumHoursNoneSelected(logs, ForUserDay(u, d));
    SumHours(logs, ForUserDay(u, d))
  }

  /**
   * A worklog of another user or another day, inserted anywhere in the table,
   * leaves the hours of user `u` on day `d` as they were.
   */
  lemma UserDayIgnoresOthers(a: seq<Worklog>, w: Worklog, b: seq<Worklog>, u: int, d: Day)
    requires w.userId != u || w.date != d
    ensures ActualHoursForUserDay(a + [w] + b, u, d) == ActualHoursForUserDay(a + b, u, d)
  {
    var f := ForUserDay(u, d);
    SumHoursConcat(a + [w], b, f);
    SumHoursConcat(a, b, f);
    assert (a + [w])[..|a|] == a;
  }

  /** Likewise a worklog for another task leaves the hours of task `t` as they were. */
  lemma TaskIgnoresOthers(a: seq<Worklog>, w: Worklog, b: seq<Worklog>, t: int)
    requires w.taskId != t
    ensures ActualHoursForTask(a + [w] + b, t) == ActualHoursForTask(a + b, t)
  {
    var f := ForTask(t);
    SumHoursConcat(a + [w], b, f);
    SumHoursConcat(a, b, f);
    assert (a + [w])[..|a|] == a;
  }
}
