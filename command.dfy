/**
 * The `enrollments:dropout` console command: `handle` derives the cutoff and wraps the
 * run in a transaction it always rolls back; `dropOutEnrollmentsBefore` pages through
 * the eligible enrollments, drops out the rows of students without pending work and
 * logs one activity per dropped row.
 *
 * Data-access failures are modelled by `failing`: the one query (if any) the database
 * rejects. The first time the run issues that query it throws.
 */
module DropOutEnrollments {
  import opened Tables
  import opened Exclusion
  import opened Chunking

  /** The queries of one run; a page-level query names its page, counted from 0. */
  datatype Query =
    | CutoffQuery
    | CountQuery
    | PageQuery(page: nat)
    | ExamQuery(page: nat)
    | SubmissionQuery(page: nat)
    | UpdateQuery(page: nat)
    | InsertQuery(page: nat)

  datatype Error = QueryFailed(query: Query)

  datatype Result<T> = Ok(value: T) | Err(error: Error)

  /** The integers the command prints: eligible, excluded from dropout, dropped out. */
  datatype Summary = Summary(eligible: nat, droppedOut: nat, excludedFromDropout: int)

  /** The rows a whole run drops out, page after page. */
  function RunDropoutsOf(keys: seq<Row>, exams: seq<Exam>, subs: seq<Submission>): seq<Row> {
    RunDropouts(ChunksFrom(keys, 0, BatchSize), exams, subs)
  }

  /** The cutoff `handle` passes on: the latest enrollment's deadline, else the current time. */
  function CutoffOrNow(t: seq<Enrollment>, now: int): (r: int)
    requires IdsIncreasing(t)
    ensures |t| == 0 ==> r == now
    ensures |t| > 0 ==> Cutoff(t) == Some(r)
  {
    match Cutoff(t)
    case Some(c) => c
    case None => now
  }

  /** Whether one chunk's callback issues `q`, given the rows it drops out. */
  predicate ChunkIssues(q: Query, page: nat, dropouts: seq<Row>) {
    q == ExamQuery(page) || q == SubmissionQuery(page) ||
    (dropouts != [] && (q == UpdateQuery(page) || q == InsertQuery(page)))
  }

  /** Whether a fault-free `dropOutEnrollmentsBefore` over the eligible `keys` issues `q`. */
  predicate Issues(q: Query, keys: seq<Row>, exams: seq<Exam>, subs: seq<Submission>) {
    match q
    case CutoffQuery => false
    case CountQuery => true
    case PageQuery(p) => Offset(p) <= |keys|
    case _ =>
      Offset(q.page) < |keys| &&
      ChunkIssues(q, q.page, ChunkDropouts(Page(keys, Offset(q.page), BatchSize), exams, subs))
  }

  predicate FailsIn(failing: Option<Query>, keys: seq<Row>, exams: seq<Exam>, subs: seq<Submission>) {
    failing.Some? && Issues(failing.value, keys, exams, subs)
  }

  /**
   * The callback for one chunk. On success the chunk's dropout rows have status DROPOUT and
   * one activity each, and the returned count is their number; with no dropout rows nothing
   * is written. A failed update writes nothing; a failed insert leaves the update in place.
   */
  method ProcessChunk(db: Database, chunk: seq<Row>, page: nat, now: int, failing: Option<Query>)
    returns (r: Result<nat>)
    requires db.Valid() && RowIdsIncreasing(chunk)
    modifies db
    ensures db.Valid()
    ensures db.exams == old(db.exams) && db.submissions == old(db.submissions)
    ensures var d := ChunkDropouts(chunk, old(db.exams), old(db.submissions));
      && (r.Err? <==> failing.Some? && ChunkIssues(failing.value, page, d))
      && (r.Err? ==>
            (r.error == QueryFailed(failing.value) && db.activities == old(db.activities) &&
             if failing.value == InsertQuery(page) then
               db.enrollments == SetDropout(old(db.enrollments), Ids(d), now)
             else
               db.enrollments == old(db.enrollments)))
      && (r.Ok? ==>
            (r.value == |d| &&
             db.enrollments == SetDropout(old(db.enrollments), Ids(d), now) &&
             db.activities == old(db.activities) + ActivitiesOf(d, now)))
  {
    var studentIds := StudentIds(chunk);
    var courseIds := CourseIds(chunk);
    var studentMap := StudentMap(chunk);
    if failing == Some(ExamQuery(page)) {
      return Err(QueryFailed(ExamQuery(page)));
    }
    var withExams := ExamStudents(db.exams, studentIds, courseIds);
    if failing == Some(SubmissionQuery(page)) {
      return Err(QueryFailed(SubmissionQuery(page)));
    }
    var withSubmissions := SubmissionStudents(db.submissions, studentIds, courseIds);
    var toExclude := withExams + withSubmissions;
    var dropouts := KeepNotExcluded(chunk, toExclude);
    KeepNotExcludedWithin(chunk, toExclude);
    if |dropouts| == 0 {
      SetDropoutNone(db.enrollments, now);
      return Ok(0);
    }
    r := SaveDropouts(db, chunk, dropouts, studentMap, page, now, failing);
  }

  /**
   * The writes of the callback for a non-empty list of dropout rows: the bulk update, the
   * `foreach` building one log entry per id, and the bulk insert of those entries.
   */
  method SaveDropouts(
    db: Database, chunk: seq<Row>, dropouts: seq<Row>, studentMap: map<int, int>,
    page: nat, now: int, failing: Option<Query>)
    returns (r: Result<nat>)
    requires db.Valid() && RowIdsIncreasing(chunk)
    requires forall x :: x in dropouts ==> x in chunk
    requires studentMap == StudentMap(chunk)
    modifies db
    ensures db.Valid()
    ensures db.exams == old(db.exams) && db.submissions == old(db.submissions)
    ensures r.Err? <==> failing == Some(UpdateQuery(page)) || failing == Some(InsertQuery(page))
    ensures r.Err? ==> r.error == QueryFailed(failing.value) && db.activities == old(db.activities)
    ensures failing == Some(UpdateQuery(page)) ==> db.enrollments == old(db.enrollments)
    ensures failing == Some(InsertQuery(page)) ==>
      db.enrollments == SetDropout(old(db.enrollments), Ids(dropouts), now)
    ensures r.Ok? ==>
      (r.value == |dropouts| &&
       db.enrollments == SetDropout(old(db.enrollments), Ids(dropouts), now) &&
       db.activities == old(db.activities) + ActivitiesOf(dropouts, now))
  {
    var dropoutIds := Ids(dropouts);
    if failing == Some(UpdateQuery(page)) {
      return Err(QueryFailed(UpdateQuery(page)));
    }
    db.UpdateDropout(dropoutIds, now);
    forall i | 0 <= i < |dropoutIds| ensures dropoutIds[i] in studentMap {
      IdAt(dropouts, i);
      assert dropouts[i] in chunk;
    }
    var logs := BuildActivityLogs(dropoutIds, studentMap, now);
    if failing == Some(InsertQuery(page)) {
      return Err(QueryFailed(InsertQuery(page)));
    }
    LogsOfDropouts(chunk, dropouts, logs, now);
    db.InsertActivities(logs);
    r := Ok(|dropoutIds|);
  }

  /**
   * `dropOutEnrollmentsBefore($deadline)`. On success every eligible row the run drops out
   * has status DROPOUT, one activity each is appended in id order, and the summary counts
   * them. On failure the error names the rejected query. Either way only eligible rows
   * change, only in status and updated_at, and the activity log only grows.
   */
  method DropOutEnrollmentsBefore(db: Database, cutoff: int, now: int, failing: Option<Query>)
    returns (r: Result<Summary>)
    requires db.Valid()
    modifies db
    ensures db.Valid()
    ensures db.exams == old(db.exams) && db.submissions == old(db.submissions)
    ensures OnlyDropouts(old(db.enrollments), db.enrollments, cutoff, now)
    ensures |old(db.activities)| <= |db.activities|
    ensures db.activities[..|old(db.activities)|] == old(db.activities)
    ensures var keys := EligibleRows(old(db.enrollments), cutoff);
      var dropped := RunDropoutsOf(keys, old(db.exams), old(db.submissions));
      && (r.Err? <==> FailsIn(failing, keys, old(db.exams), old(db.submissions)))
      && (r.Err? ==> r.error == QueryFailed(failing.value))
      && (r.Ok? ==>
            (r.value == Summary(|keys|, |dropped|, |keys| - |dropped|) &&
             db.enrollments == SetDropout(old(db.enrollments), Ids(dropped), now) &&
             db.activities == old(db.activities) + ActivitiesOf(dropped, now)))
    ensures r.Ok? ==>
      r.value.eligible == r.value.droppedOut + r.value.excludedFromDropout &&
      r.value.excludedFromDropout >= 0 &&
      |db.activities| == |old(db.activities)| + r.value.droppedOut
  {
    ghost var keys := EligibleRows(db.enrollments, cutoff);
    ghost var all := RunDropoutsOf(keys, db.exams, db.submissions);
    RunDropoutsOfWithin(keys, db.exams, db.submissions);
    if failing == Some(CountQuery) {
      return Err(QueryFailed(CountQuery));
    }
    var total := |EligibleRows(db.enrollments, cutoff)|;
    var res := RunChunks(db, cutoff, now, failing);
    if res.Err? {
      return Err(res.error);
    }
    DropoutOfEligibleOnly(old(db.enrollments), all, cutoff, now);
    assert db.activities[..|old(db.activities)|] == old(db.activities);
    r := Ok(Summary(total, res.value, total - res.value));
  }

  /**
   * `chunk($batchSize, $callback)`: pages of the eligible rows, re-read from the current
   * table, go to the callback until one comes back short or empty. On success the result
   * counts the rows dropped out, which are `all`.
   */
  method RunChunks(db: Database, cutoff: int, now: int, failing: Option<Query>)
    returns (r: Result<nat>)
    requires db.Valid()
    requires failing != Some(CountQuery)
    modifies db
    ensures db.Valid()
    ensures db.exams == old(db.exams) && db.submissions == old(db.submissions)
    ensures var keys := EligibleRows(old(db.enrollments), cutoff);
      var all := RunDropoutsOf(keys, old(db.exams), old(db.submissions));
      && (r.Err? <==> FailsIn(failing, keys, old(db.exams), old(db.submissions)))
      && (r.Err? ==>
            (r.error == QueryFailed(failing.value) &&
             OnlyDropouts(old(db.enrollments), db.enrollments, cutoff, now) &&
             |old(db.activities)| <= |db.activities| && db.activities[..|old(db.activities)|] == old(db.activities)))
      && (r.Ok? ==>
            (r.value == |all| &&
             db.enrollments == SetDropout(old(db.enrollments), Ids(all), now) &&
             db.activities == old(db.activities) + ActivitiesOf(all, now)))
  {
    ghost var e0, a0, exams, subs := db.enrollments, db.activities, db.exams, db.submissions;
    ghost var keys := EligibleRows(e0, cutoff);
    ghost var all := RunDropoutsOf(keys, exams, subs);
    RunDropoutsOfWithin(keys, exams, subs);
    var droppedOut := 0;
    var page: nat := 0;
    var more := true;
    ghost var done: seq<Row> := [];
    SetDropoutNone(db.enrollments, now);
    assert keys[0..] == keys;
    while more
      invariant db.Valid()
      invariant db.exams == exams && db.submissions == subs
      invariant db.enrollments == SetDropout(e0, Ids(done), now)
      invariant db.activities == a0 + ActivitiesOf(done, now)
      invariant droppedOut == |done|
      invariant forall x :: x in done ==> x in keys
      invariant more ==> Offset(page) <= |keys|
      invariant !more ==> |keys| <= Offset(page)
      invariant done + RunDropouts(ChunksFrom(keys, Offset(page), BatchSize), exams, subs) == all
      invariant NotFailedBefore(failing, page, more, keys, exams, subs)
      decreases more, |keys| - Offset(page)
    {
      var res, size;
      ghost var d;
      res, size, d := NextChunk(db, cutoff, now, failing, page, e0, a0, keys, done);
      if res.Err? {
        return Err(res.error);
      }
      PageStep(keys, all, failing, page, done, d, size, exams, subs);
      if size == 0 {
        more := false;
      } else {
        assert |done + d| == droppedOut + res.value;
        droppedOut := droppedOut + res.value;
        done := done + d;
        more := size == BatchSize;
        page := page + 1;
      }
    }
    NotFailedAtEnd(failing, page, keys, exams, subs);
    RunEnd(keys, Offset(page), done, all, exams, subs);
    r := Ok(droppedOut);
  }

  /**
   * One round of `chunk()`: read the page at `page` from the current table and, when it is
   * not empty, run the callback on it. `e0` and `a0` are the tables before the run and
   * `done` the rows dropped out on earlier pages; `d` is what this page drops out.
   */
  method NextChunk(
    db: Database, cutoff: int, now: int, failing: Option<Query>, page: nat,
    ghost e0: seq<Enrollment>, ghost a0: seq<Activity>, ghost keys: seq<Row>, ghost done: seq<Row>)
    returns (r: Result<nat>, size: nat, ghost d: seq<Row>)
    requires db.Valid() && IdsIncreasing(e0)
    requires keys == EligibleRows(e0, cutoff)
    requires db.enrollments == SetDropout(e0, Ids(done), now)
    requires db.activities == a0 + ActivitiesOf(done, now)
    requires forall x :: x in done ==> x in keys
    requires Offset(page) <= |keys|
    modifies db
    ensures db.Valid()
    ensures db.exams == old(db.exams) && db.submissions == old(db.submissions)
    ensures r.Ok? ==> size == |Page(keys, Offset(page), BatchSize)|
    ensures r.Ok? ==>
      d == if size == 0 then [] else ChunkDropouts(Page(keys, Offset(page), BatchSize), db.exams, db.submissions)
    ensures r.Err? ==>
      (failing.Some? && r.error == QueryFailed(failing.value) && Issues(failing.value, keys, db.exams, db.submissions) &&
       OnlyDropouts(e0, db.enrollments, cutoff, now) &&
       |a0| <= |db.activities| && db.activities[..|a0|] == a0)
    ensures r.Ok? ==>
      (failing != Some(PageQuery(page)) &&
       (size > 0 ==> !(failing.Some? && ChunkIssues(failing.value, page, d))) &&
       r.value == |d| &&
       db.enrollments == SetDropout(e0, Ids(done + d), now) &&
       db.activities == a0 + ActivitiesOf(done + d, now) &&
       forall x :: x in done + d ==> x in keys)
  {
    if failing == Some(PageQuery(page)) {
      DropoutOfEligibleOnly(e0, done, cutoff, now);
      assert db.activities[..|a0|] == a0;
      return Err(QueryFailed(PageQuery(page))), 0, [];
    }
    EligibleOfSameKeys(e0, db.enrollments, cutoff);
    var chunk := Page(EligibleRows(db.enrollments, cutoff), Offset(page), BatchSize);
    size := |chunk|;
    if size == 0 {
      d := [];
      assert done + d == done;
      return Ok(0), size, d;
    }
    assert RowIdsIncreasing(chunk);
    d := ChunkDropouts(chunk, db.exams, db.submissions);
    ChunkDropoutsWithin(chunk, db.exams, db.submissions);
    PageRows(keys, Offset(page), BatchSize);
    ghost var e1 := db.enrollments;
    r := ProcessChunk(db, chunk, page, now, failing);
    IdsAppend(done, d);
    SetDropoutTwice(e0, Ids(done), Ids(d), now);
    if r.Err? {
      ChunkFailureIssued(failing.value, page, keys, db.exams, db.submissions);
      DropoutOfEligibleOnly(e0, done, cutoff, now);
      DropoutOfEligibleOnly(e0, done + d, cutoff, now);
      assert db.activities[..|a0|] == a0;
      return;
    }
    ActivitiesStep(a0, done, d, now);
  }

  /** No query the run has issued so far is the failing one. */
  ghost predicate NotFailedBefore(
    failing: Option<Query>, page: nat, more: bool, keys: seq<Row>, exams: seq<Exam>, subs: seq<Submission>)
  {
    failing.Some? ==>
      failing.value != CountQuery &&
      (!failing.value.CutoffQuery? && !failing.value.CountQuery? && failing.value.page < page ==>
         !Issues(failing.value, keys, exams, subs)) &&
      (!more && |keys| == Offset(page) ==> failing.value != PageQuery(page))
  }

  lemma PageRows(keys: seq<Row>, offset: nat, size: nat)
    ensures forall x :: x in Page(keys, offset, size) ==> x in keys
  {
    forall x | x in Page(keys, offset, size) ensures x in keys {
      var i :| 0 <= i < |Page(keys, offset, size)| && Page(keys, offset, size)[i] == x;
      assert keys[offset + i] == x;
    }
  }

  lemma ActivitiesStep(a0: seq<Activity>, done: seq<Row>, d: seq<Row>, now: int)
    ensures a0 + ActivitiesOf(done, now) + ActivitiesOf(d, now) == a0 + ActivitiesOf(done + d, now)
  {
    ActivitiesOfAppend(done, d, now);
  }

  /**
   * The bookkeeping of one round of `chunk()` once the callback has succeeded: an empty page
   * ends the loop, a full one moves on to the next page, a short one moves on and ends it.
   */
  lemma PageStep(
    keys: seq<Row>, all: seq<Row>, failing: Option<Query>, page: nat, done: seq<Row>, d: seq<Row>, size: nat,
    exams: seq<Exam>, subs: seq<Submission>)
    requires Offset(page) <= |keys|
    requires done + RunDropouts(ChunksFrom(keys, Offset(page), BatchSize), exams, subs) == all
    requires NotFailedBefore(failing, page, true, keys, exams, subs)
    requires size == |Page(keys, Offset(page), BatchSize)|
    requires d == if size == 0 then [] else ChunkDropouts(Page(keys, Offset(page), BatchSize), exams, subs)
    requires failing != Some(PageQuery(page))
    requires size > 0 ==> !(failing.Some? && ChunkIssues(failing.value, page, d))
    ensures size == 0 ==>
      done + d == done && |keys| <= Offset(page) && NotFailedBefore(failing, page, false, keys, exams, subs)
    ensures size > 0 ==>
      Offset(page) < |keys| &&
      done + d + RunDropouts(ChunksFrom(keys, Offset(page + 1), BatchSize), exams, subs) == all &&
      (size == BatchSize ==> Offset(page + 1) <= |keys|) &&
      (size != BatchSize ==> |keys| <= Offset(page + 1)) &&
      NotFailedBefore(failing, page + 1, size == BatchSize, keys, exams, subs)
  {
    if size == 0 {
      assert done + d == done;
    } else {
      RunStep(keys, page, done, all, exams, subs);
      NotFailedStep(failing, page, keys, exams, subs);
    }
  }

  /** Handing the page at `page` to the callback leaves the pages after it to go. */
  lemma RunStep(keys: seq<Row>, page: nat, done: seq<Row>, all: seq<Row>, exams: seq<Exam>, subs: seq<Submission>)
    requires Offset(page) < |keys|
    requires done + RunDropouts(ChunksFrom(keys, Offset(page), BatchSize), exams, subs) == all
    ensures Offset(page + 1) == Offset(page) + BatchSize
    ensures done + ChunkDropouts(Page(keys, Offset(page), BatchSize), exams, subs) +
      RunDropouts(ChunksFrom(keys, Offset(page + 1), BatchSize), exams, subs) == all
  {
    var offset := Offset(page);
    assert Offset(page + 1) == offset + BatchSize;
    RunDropoutsCons(Page(keys, offset, BatchSize), ChunksFrom(keys, offset + BatchSize, BatchSize), exams, subs);
  }

  lemma RunEnd(keys: seq<Row>, offset: nat, done: seq<Row>, all: seq<Row>, exams: seq<Exam>, subs: seq<Submission>)
    requires |keys| <= offset
    requires done + RunDropouts(ChunksFrom(keys, offset, BatchSize), exams, subs) == all
    ensures done == all
  {
    assert done + [] == done;
  }

  lemma ChunkFailureIssued(q: Query, page: nat, keys: seq<Row>, exams: seq<Exam>, subs: seq<Submission>)
    requires Offset(page) < |keys|
    requires ChunkIssues(q, page, ChunkDropouts(Page(keys, Offset(page), BatchSize), exams, subs))
    ensures Issues(q, keys, exams, subs)
  {
  }

  lemma NotFailedStep(failing: Option<Query>, page: nat, keys: seq<Row>, exams: seq<Exam>, subs: seq<Submission>)
    requires Offset(page) < |keys|
    requires NotFailedBefore(failing, page, true, keys, exams, subs)
    requires failing != Some(PageQuery(page))
    requires !(failing.Some? &&
               ChunkIssues(failing.value, page, ChunkDropouts(Page(keys, Offset(page), BatchSize), exams, subs)))
    ensures NotFailedBefore(failing, page + 1, true, keys, exams, subs)
    ensures |keys| < Offset(page + 1) ==> NotFailedBefore(failing, page + 1, false, keys, exams, subs)
  {
    if failing.Some? && !failing.value.CutoffQuery? && !failing.value.CountQuery? && failing.value.page == page {
      assert !Issues(failing.value, keys, exams, subs);
    }
  }

  lemma NotFailedAtEnd(failing: Option<Query>, page: nat, keys: seq<Row>, exams: seq<Exam>, subs: seq<Submission>)
    requires |keys| <= Offset(page)
    requires NotFailedBefore(failing, page, false, keys, exams, subs)
    ensures !FailsIn(failing, keys, exams, subs)
  {
  }

  /**
   * `handle()`: the run inside a transaction that is rolled back after success and after
   * a failure alike, so the store ends as it began; a failure is passed on unchanged.
   */
  method Handle(db: Database, now: int, failing: Option<Query>) returns (r: Result<Summary>)
    requires db.Valid()
    modifies db
    ensures db.Valid()
    ensures db.enrollments == old(db.enrollments) && db.exams == old(db.exams)
    ensures db.submissions == old(db.submissions) && db.activities == old(db.activities)
    ensures var keys := EligibleRows(old(db.enrollments), CutoffOrNow(old(db.enrollments), now));
      var dropped := RunDropoutsOf(keys, old(db.exams), old(db.submissions));
      && (r.Err? <==> failing == Some(CutoffQuery) || FailsIn(failing, keys, old(db.exams), old(db.submissions)))
      && (r.Err? ==> r.error == QueryFailed(failing.value))
      && (r.Ok? ==> r.value == Summary(|keys|, |dropped|, |keys| - |dropped|))
  {
    var snapshot := db.BeginTransaction();
    if failing == Some(CutoffQuery) {
      db.RollBack(snapshot);
      return Err(QueryFailed(CutoffQuery));
    }
    var cutoff := CutoffOrNow(db.enrollments, now);
    r := DropOutEnrollmentsBefore(db, cutoff, now, failing);
    db.RollBack(snapshot);
  }

  /** The rows a run drops out are eligible rows, in ascending id order, at most all of them. */
  lemma RunDropoutsOfWithin(keys: seq<Row>, exams: seq<Exam>, subs: seq<Submission>)
    ensures |RunDropoutsOf(keys, exams, subs)| <= |keys|
    ensures forall x :: x in RunDropoutsOf(keys, exams, subs) ==> x in keys
    ensures RowIdsIncreasing(keys) ==> RowIdsIncreasing(RunDropoutsOf(keys, exams, subs))
  {
    ChunksPartition(keys, 0, BatchSize);
    RunDropoutsWithin(ChunksFrom(keys, 0, BatchSize), exams, subs);
    assert keys[0..] == keys;
  }

  /**
   * A second run finds the same cutoff and the same eligible rows, because the first run's
   * update keeps ids and deadlines; DROPOUT rows are not skipped. So it drops out the same
   * rows again, and each of them then has two activities.
   */
  lemma RerunDropsAgain(t: seq<Enrollment>, cutoff: int, exams: seq<Exam>, subs: seq<Submission>, now: int, later: int, id: int)
    requires IdsIncreasing(t)
    ensures var keys := EligibleRows(t, cutoff);
      var dropped := RunDropoutsOf(keys, exams, subs);
      var t2 := SetDropout(t, Ids(dropped), now);
      && IdsIncreasing(t2) && Cutoff(t2) == Cutoff(t)
      && EligibleRows(t2, cutoff) == keys
      && RunDropoutsOf(EligibleRows(t2, cutoff), exams, subs) == dropped
      && (id in Ids(dropped) ==> CountFor(ActivitiesOf(dropped, now) + ActivitiesOf(dropped, later), id) == 2)
  {
    var keys := EligibleRows(t, cutoff);
    var dropped := RunDropoutsOf(keys, exams, subs);
    var t2 := SetDropout(t, Ids(dropped), now);
    CutoffOfSameKeys(t, t2);
    EligibleOfSameKeys(t, t2, cutoff);
    RunDropoutsOfWithin(keys, exams, subs);
    ExactlyOneActivity(dropped, now, id);
    ExactlyOneActivity(dropped, later, id);
    CountForAppend(ActivitiesOf(dropped, now), ActivitiesOf(dropped, later), id);
  }

  /**
   * One enrollment past the cutoff and no pending work: it is dropped out and gets one
   * activity for its student.
   */
  lemma SingleDropoutExample(now: int)
    ensures var t := [Enrollment(1, 10, 5, "ACTIVE", 1, 0)];
      var dropped := RunDropoutsOf(EligibleRows(t, 10), [], []);
      && dropped == [Row(1, 10, 5)]
      && SetDropout(t, Ids(dropped), now) == [Enrollment(1, 10, 5, DROPOUT, 1, now)]
      && ActivitiesOf(dropped, now) == [Activity(1, 10, COURSE_DROPOUT, now, now)]
  {
    var t := [Enrollment(1, 10, 5, "ACTIVE", 1, 0)];
    assert t[..0] == [];
    assert EligibleRows(t, 10) == [Row(1, 10, 5)];
    NothingPendingDropsAll([Row(1, 10, 5)], 0, BatchSize);
    assert [Row(1, 10, 5)][0..] == [Row(1, 10, 5)];
    assert Ids([Row(1, 10, 5)]) == [1];
  }

  /** The same enrollment with an exam in progress in its course: nothing changes, one row is excluded. */
  lemma PendingExamExample(now: int)
    ensures var t := [Enrollment(1, 10, 5, "ACTIVE", 1, 0)];
      var keys := EligibleRows(t, 10);
      var dropped := RunDropoutsOf(keys, [Exam(10, 5, IN_PROGRESS)], []);
      && dropped == []
      && SetDropout(t, Ids(dropped), now) == t
      && ActivitiesOf(dropped, now) == []
      && |keys| - |dropped| == 1
  {
    var t := [Enrollment(1, 10, 5, "ACTIVE", 1, 0)];
    var row := Row(1, 10, 5);
    var exams := [Exam(10, 5, IN_PROGRESS)];
    assert t[..0] == [];
    assert EligibleRows(t, 10) == [row];
    assert Page([row], 0, BatchSize) == [row];
    assert ChunksFrom([row], 0, BatchSize) == [[row]];
    assert ChunkDropouts([row], exams, []) == [] by {
      ChunkDropoutsIff([row], exams, [], row);
      assert BlockedInChunk(10, [row], exams, []) by {
        assert exams[0] in exams && row in [row];
      }
      KeepNotExcludedWithin([row], StudentsToExclude(StudentIds([row]), CourseIds([row]), exams, []));
    }
    assert RunDropouts([[row]], exams, []) == [] + RunDropouts([], exams, []);
    SetDropoutNone(t, now);
  }
}
