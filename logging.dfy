/**
 * The decisions of the day-log handler that do not touch the store: the
 * progress clamp, the status a task moves to, the empty-submission rule, and
 * the upsert of the worklog table on its key (user, task, date).
 */
module Logging {
  import opened Wrappers
  import opened Models
  import opened Text
  import opened Services

  /** `max(0, min(100, p))`. */
  function ClampProgress(p: int): (r: int)
    ensures ProgressInRange(r)
    ensures ProgressInRange(p) ==> r == p
    ensures p < 0 ==> r == 0
    ensures p > 100 ==> r == 100
  {
    if p < 0 then 0 else if p > 100 then 100 else p
  }

  /** The progress that is stored: 100 when the task is marked done, else the clamped input. */
  function FinalProgress(progress: int, done: bool): (r: int)
    ensures ProgressInRange(r)
    ensures done ==> r == 100
    ensures !done ==> r == ClampProgress(progress)
  {
    if done then 100 else ClampProgress(progress)
  }

  /** The status a task takes from a logged outcome. */
  function StatusAfter(finalProgress: int, done: bool): Status
  {
    if done then Done else if finalProgress > 0 then InProgress else Todo
  }

  /**
   * In terms of the submitted values: the task is done exactly when the done
   * flag is set, in progress when it is not and the submitted progress is
   * positive, and to do otherwise; the stored progress is 100 when done.
   */
  lemma StatusFromSubmission(progress: int, done: bool)
    ensures var fp := FinalProgress(progress, done);
      var s := StatusAfter(fp, done);
      && (s == Done <==> done)
      && (s == InProgress <==> !done && progress > 0)
      && (s == Todo <==> !done && progress <= 0)
      && (s == Done ==> fp == 100)
      && (s == Todo ==> fp == 0)
  {
  }

  /** Every field of the form is empty: no hours, no comment, no progress, not done. */
  predicate IsEmptySubmission(hours: real, comment: string, finalProgress: int, done: bool)
  {
    hours <= 0.0 && comment == "" && finalProgress == 0 && !done
  }

  /**
   * A submission is discarded exactly when its hours are not positive, its
   * comment is all whitespace, its progress is not positive and it is not
   * marked done.
   */
  lemma EmptySubmissionIff(hours: real, comment: string, progress: int, done: bool)
    ensures IsEmptySubmission(hours, Strip(comment), FinalProgress(progress, done), done)
      <==> hours <= 0.0 && AllSpace(comment) && progress <= 0 && !done
  {
    StripEmptyIff(comment);
  }

  /** The first worklog row with the given key. */
  function FindWorklog(logs: seq<Worklog>, key: (int, int, Day)): Option<nat>
  {
    FindFirst(logs, (w: Worklog) => WorklogKey(w) == key)
  }

  /** `w` carries the hours, comment, progress and done flag of `e`. */
  predicate Carries(w: Worklog, e: Worklog)
  {
    w.hours == e.hours && w.comment == e.comment && w.progress == e.progress && w.isDone == e.isDone
  }

  /**
   * The upsert of `day_log`: the row with the key of `e` gets the outcome of
   * `e` written over it; when there is none, `e` is appended.
   */
  function Upsert(logs: seq<Worklog>, e: Worklog): seq<Worklog>
  {
    match FindWorklog(logs, WorklogKey(e))
    case Some(i) =>
      logs[i := logs[i].(hours := e.hours, comment := e.comment, progress := e.progress, isDone := e.isDone)]
    case None => logs + [e]
  }

  /** The hours the row with the key of `e` held before the upsert, 0.0 when there was none. */
  function PreviousHours(logs: seq<Worklog>, e: Worklog): real
  {
    match FindWorklog(logs, WorklogKey(e))
    case Some(i) => logs[i].hours
    case None => 0.0
  }

  /**
   * If at most one row per key exists before, that still holds after, and
   * the row for the key of `e` exists and carries the new outcome.
   */
  lemma UpsertOneRowPerKey(logs: seq<Worklog>, e: Worklog)
    requires DistinctBy(logs, WorklogKey)
    ensures var r := Upsert(logs, e);
      && DistinctBy(r, WorklogKey)
      && exists i :: 0 <= i < |r| && WorklogKey(r[i]) == WorklogKey(e) && Carries(r[i], e)
  {
    var r := Upsert(logs, e);
    match FindWorklog(logs, WorklogKey(e))
    case Some(i) =>
      ReplaceKeepsDistinct(logs, i, r[i], WorklogKey);
      assert WorklogKey(r[i]) == WorklogKey(e) && Carries(r[i], e);
    case None =>
      AppendKeepsDistinct(logs, e, WorklogKey);
      assert WorklogKey(r[|logs|]) == WorklogKey(e) && Carries(r[|logs|], e);
  }

  /**
   * Rows of any other key keep their place and their contents, the row
   * updated in place keeps its id, and a row added is `e` itself.
   */
  lemma UpsertOtherRows(logs: seq<Worklog>, e: Worklog)
    ensures var r := Upsert(logs, e);
      && |logs| <= |r| <= |logs| + 1
      && (forall i :: 0 <= i < |logs| && WorklogKey(logs[i]) != WorklogKey(e) ==> r[i] == logs[i])
      && (forall i :: 0 <= i < |logs| ==> r[i].id == logs[i].id && WorklogKey(r[i]) == WorklogKey(logs[i]))
      && (forall i :: |logs| <= i < |r| ==> r[i] == e)
  {
  }

  /** A new row's id that no row has keeps the ids distinct. */
  lemma UpsertKeepsIds(logs: seq<Worklog>, e: Worklog)
    requires DistinctBy(logs, WorklogId)
    requires forall i :: 0 <= i < |logs| ==> logs[i].id != e.id
    ensures DistinctBy(Upsert(logs, e), WorklogId)
  {
    match FindWorklog(logs, WorklogKey(e))
    case Some(i) =>
      ReplaceKeepsDistinct(logs, i, Upsert(logs, e)[i], WorklogId);
    case None =>
      AppendKeepsDistinct(logs, e, WorklogId);
  }

  /** Rows whose progress is in range stay in range when the new progress is. */
  lemma UpsertKeepsProgress(logs: seq<Worklog>, e: Worklog)
    requires forall i :: 0 <= i < |logs| ==> ProgressInRange(logs[i].progress)
    requires ProgressInRange(e.progress)
    ensures var r := Upsert(logs, e);
      forall i :: 0 <= i < |r| ==> ProgressInRange(r[i].progress)
  {
  }

  /** The upsert keeps all three invariants of the worklog table. */
  lemma UpsertKeepsWorklogsOk(logs: seq<Worklog>, e: Worklog)
    requires WorklogsOk(logs)
    requires forall i :: 0 <= i < |logs| ==> logs[i].id != e.id
    requires ProgressInRange(e.progress)
    ensures WorklogsOk(Upsert(logs, e))
  {
    UpsertOneRowPerKey(logs, e);
    UpsertKeepsIds(logs, e);
    UpsertKeepsProgress(logs, e);
  }

  /**
   * The daily hours of the user and day of `e` move from the old row's hours
   * to the new hours; the daily hours of every other user or day are unchanged.
   */
  lemma UpsertUserDayHours(logs: seq<Worklog>, e: Worklog, u: int, d: Day)
    ensures ActualHoursForUserDay(Upsert(logs, e), u, d)
      == ActualHoursForUserDay(logs, u, d) +
         (if u == e.userId && d == e.date then e.hours - PreviousHours(logs, e) else 0.0)
  {
    var f := ForUserDay(u, d);
    match FindWorklog(logs, WorklogKey(e))
    case Some(i) =>
      SumHoursReplace(logs, i, Upsert(logs, e)[i], f);
    case None =>
      assert (logs + [e])[..|logs|] == logs;
  }

  /** Likewise the hours of the task of `e` move by the difference; other tasks are unchanged. */
  lemma UpsertTaskHours(logs: seq<Worklog>, e: Worklog, t: int)
    ensures ActualHoursForTask(Upsert(logs, e), t)
      == ActualHoursForTask(logs, t) + (if t == e.taskId then e.hours - PreviousHours(logs, e) else 0.0)
  {
    var f := ForTask(t);
    match FindWorklog(logs, WorklogKey(e))
    case Some(i) =>
      SumHoursReplace(logs, i, Upsert(logs, e)[i], f);
    case None =>
      assert (logs + [e])[..|logs|] == logs;
  }
}
