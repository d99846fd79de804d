/**
 * The four tables the dropout command touches, as in-memory sequences, and the two
 * bulk queries it issues against them: the eligibility select and the status update.
 * Timestamps are plain integers.
 */
module Tables {

  const DROPOUT: string := "DROPOUT"
  const IN_PROGRESS: string := "IN_PROGRESS"
  const WAITING_REVIEW: string := "WAITING_REVIEW"
  const COURSE_DROPOUT: string := "COURSE_DROPOUT"

  datatype Option<T> = None | Some(value: T)

  datatype Enrollment = Enrollment(
    id: int, studentId: int, courseId: int, status: string, deadlineAt: int, updatedAt: int)

  datatype Exam = Exam(studentId: int, courseId: int, status: string)

  datatype Submission = Submission(studentId: int, courseId: int, status: string)

  datatype Activity = Activity(
    resourceId: int, userId: int, description: string, createdAt: int, updatedAt: int)

  /** The columns (id, student_id, course_id) the eligibility query selects. */
  datatype Row = Row(id: int, studentId: int, courseId: int)

  function Select(e: Enrollment): Row {
    Row(e.id, e.studentId, e.courseId)
  }

  /** Primary-key order: the table is held sorted by strictly ascending id. */
  ghost predicate IdsIncreasing(t: seq<Enrollment>) {
    forall i, j :: 0 <= i < j < |t| ==> t[i].id < t[j].id
  }

  ghost predicate RowIdsIncreasing(rs: seq<Row>) {
    forall i, j :: 0 <= i < j < |rs| ==> rs[i].id < rs[j].id
  }

  /** `pluck('id')` */
  function Ids(rs: seq<Row>): (r: seq<int>)
    ensures |r| == |rs|
    ensures forall x :: x in rs ==> x.id in r
    decreases |rs|
  {
    if |rs| == 0 then [] else Ids(rs[..|rs| - 1]) + [rs[|rs| - 1].id]
  }

  lemma {:induction false} IdsSound(rs: seq<Row>, id: int)
    requires id in Ids(rs)
    ensures exists x :: x in rs && x.id == id
    decreases |rs|
  {
    if id != rs[|rs| - 1].id {
      IdsSound(rs[..|rs| - 1], id);
      var x :| x in rs[..|rs| - 1] && x.id == id;
      assert x in rs;
    }
  }

  lemma {:induction false} IdsAppend(a: seq<Row>, b: seq<Row>)
    ensures Ids(a + b) == Ids(a) + Ids(b)
    decreases |b|
  {
    if |b| == 0 {
      assert a + b == a;
    } else {
      assert (a + b)[..|a + b| - 1] == a + b[..|b| - 1];
      IdsAppend(a, b[..|b| - 1]);
    }
  }

  /** Two versions of the table that agree on every column but status and updated_at. */
  ghost predicate SameKeys(a: seq<Enrollment>, b: seq<Enrollment>) {
    |a| == |b| &&
    forall i :: 0 <= i < |a| ==> Select(a[i]) == Select(b[i]) && a[i].deadlineAt == b[i].deadlineAt
  }

  /**
   * `latest('id')->value('deadline_at')`: the deadline of the enrollment with the
   * highest id, or nothing when the table is empty.
   */
  function Cutoff(t: seq<Enrollment>): (r: Option<int>)
    requires IdsIncreasing(t)
    ensures r.None? <==> |t| == 0
    ensures r.Some? ==>
      exists i :: 0 <= i < |t| && t[i].deadlineAt == r.value &&
        forall j :: 0 <= j < |t| && j != i ==> t[j].id < t[i].id
  {
    if |t| == 0 then None else Some(t[|t| - 1].deadlineAt)
  }

  lemma CutoffOfSameKeys(a: seq<Enrollment>, b: seq<Enrollment>)
    requires IdsIncreasing(a) && SameKeys(a, b)
    ensures IdsIncreasing(b)
    ensures Cutoff(a) == Cutoff(b)
  {
  }

  /**
   * `where('deadline_at', '<=', cutoff)` with the columns of `Row`, in id order. The
   * enrollment's status plays no part.
   */
  function EligibleRows(t: seq<Enrollment>, cutoff: int): (r: seq<Row>)
    ensures |r| <= |t|
    ensures IdsIncreasing(t) ==> RowIdsIncreasing(r)
    decreases |t|, 0
  {
    if |t| == 0 then []
    else
      var last := t[|t| - 1];
      var pre := EligibleRows(t[..|t| - 1], cutoff);
      assert IdsIncreasing(t) ==> forall x :: x in pre ==> x.id < last.id by {
        if IdsIncreasing(t) {
          forall x | x in pre ensures x.id < last.id {
            EligibleSound(t[..|t| - 1], cutoff, x);
            var i :| 0 <= i < |t| - 1 && t[..|t| - 1][i].deadlineAt <= cutoff && Select(t[..|t| - 1][i]) == x;
            assert t[i].id < last.id;
          }
        }
      }
      pre + (if last.deadlineAt <= cutoff then [Select(last)] else [])
  }

  /** Every selected row is a row of the table whose deadline is at or before the cutoff. */
  lemma {:induction false} EligibleSound(t: seq<Enrollment>, cutoff: int, x: Row)
    requires x in EligibleRows(t, cutoff)
    ensures exists i :: 0 <= i < |t| && t[i].deadlineAt <= cutoff && Select(t[i]) == x
    decreases |t|, 1
  {
    var last := t[|t| - 1];
    if x in EligibleRows(t[..|t| - 1], cutoff) {
      EligibleSound(t[..|t| - 1], cutoff, x);
      var i :| 0 <= i < |t| - 1 && t[..|t| - 1][i].deadlineAt <= cutoff && Select(t[..|t| - 1][i]) == x;
      assert t[i] == t[..|t| - 1][i];
    } else {
      assert last.deadlineAt <= cutoff && Select(last) == x;
    }
  }

  /** Every row whose deadline is at or before the cutoff is selected, whatever its status. */
  lemma {:induction false} EligibleComplete(t: seq<Enrollment>, cutoff: int, i: int)
    requires 0 <= i < |t| && t[i].deadlineAt <= cutoff
    ensures Select(t[i]) in EligibleRows(t, cutoff)
    decreases |t|
  {
    if i < |t| - 1 {
      EligibleComplete(t[..|t| - 1], cutoff, i);
    }
  }

  /** The eligibility query gives the same rows on every table with the same keys and deadlines. */
  lemma {:induction false} EligibleOfSameKeys(a: seq<Enrollment>, b: seq<Enrollment>, cutoff: int)
    requires SameKeys(a, b)
    ensures EligibleRows(a, cutoff) == EligibleRows(b, cutoff)
    decreases |a|
  {
    if |a| > 0 {
      EligibleOfSameKeys(a[..|a| - 1], b[..|b| - 1], cutoff);
    }
  }

  /** `whereIn('id', ids)->update(['status' => 'DROPOUT', 'updated_at' => now])` */
  function SetDropout(t: seq<Enrollment>, ids: seq<int>, now: int): (r: seq<Enrollment>)
    ensures SameKeys(t, r)
    ensures forall i :: 0 <= i < |t| && t[i].id in ids ==>
      r[i].status == DROPOUT && r[i].updatedAt == now
    ensures forall i :: 0 <= i < |t| && t[i].id !in ids ==> r[i] == t[i]
  {
    seq(|t|, i requires 0 <= i < |t| =>
      if t[i].id in ids then t[i].(status := DROPOUT, updatedAt := now) else t[i])
  }

  lemma SetDropoutNone(t: seq<Enrollment>, now: int)
    ensures SetDropout(t, [], now) == t
  {
  }

  /** Two bulk updates with the same timestamp are one update over both id lists. */
  lemma SetDropoutTwice(t: seq<Enrollment>, a: seq<int>, b: seq<int>, now: int)
    ensures SetDropout(SetDropout(t, a, now), b, now) == SetDropout(t, a + b, now)
  {
    var l, r := SetDropout(SetDropout(t, a, now), b, now), SetDropout(t, a + b, now);
    forall i | 0 <= i < |t| ensures l[i] == r[i] {
      var m := SetDropout(t, a, now);
      assert m[i].id == t[i].id;
      assert t[i].id in a + b <==> t[i].id in a || t[i].id in b;
    }
  }

  /**
   * What a dropout run may do to the table: a row either keeps every column, or it
   * was eligible and now has status DROPOUT and updated_at `now`, all else unchanged.
   */
  ghost predicate OnlyDropouts(before: seq<Enrollment>, after: seq<Enrollment>, cutoff: int, now: int) {
    |before| == |after| &&
    forall i :: 0 <= i < |before| ==>
      after[i] == before[i] ||
      (before[i].deadlineAt <= cutoff && after[i] == before[i].(status := DROPOUT, updatedAt := now))
  }

  /** Updating rows taken from the eligibility query touches eligible rows only. */
  lemma DropoutOfEligibleOnly(t: seq<Enrollment>, d: seq<Row>, cutoff: int, now: int)
    requires IdsIncreasing(t)
    requires forall x :: x in d ==> x in EligibleRows(t, cutoff)
    ensures OnlyDropouts(t, SetDropout(t, Ids(d), now), cutoff, now)
  {
    var r := SetDropout(t, Ids(d), now);
    forall i | 0 <= i < |t| && t[i].id in Ids(d)
      ensures t[i].deadlineAt <= cutoff && r[i] == t[i].(status := DROPOUT, updatedAt := now)
    {
      IdsSound(d, t[i].id);
      var x :| x in d && x.id == t[i].id;
      EligibleSound(t, cutoff, x);
      var j :| 0 <= j < |t| && t[j].deadlineAt <= cutoff && Select(t[j]) == x;
      assert t[j].id == t[i].id;
      assert i == j;
    }
  }

  /** The whole store, as a transaction snapshot sees it. */
  datatype Snapshot = Snapshot(
    enrollments: seq<Enrollment>, exams: seq<Exam>,
    submissions: seq<Submission>, activities: seq<Activity>)

  /** The database the command runs against. */
  class Database {
    var enrollments: seq<Enrollment>
    var exams: seq<Exam>
    var submissions: seq<Submission>
    var activities: seq<Activity>

    ghost predicate Valid()
      reads this
    {
      IdsIncreasing(enrollments)
    }

    /** `DB::beginTransaction()`: remembers the state a rollback returns to. */
    method BeginTransaction() returns (s: Snapshot)
      ensures s == Snapshot(enrollments, exams, submissions, activities)
    {
      s := Snapshot(enrollments, exams, submissions, activities);
    }

    /** `DB::rollBack()`: discards every write since the snapshot was taken. */
    method RollBack(s: Snapshot)
      requires IdsIncreasing(s.enrollments)
      modifies this
      ensures Valid()
      ensures enrollments == s.enrollments && exams == s.exams
      ensures submissions == s.submissions && activities == s.activities
    {
      enrollments, exams, submissions, activities := s.enrollments, s.exams, s.submissions, s.activities;
    }

    /** The bulk update of one chunk's dropout ids. */
    method UpdateDropout(ids: seq<int>, now: int)
      requires Valid()
      modifies this
      ensures Valid()
      ensures enrollments == SetDropout(old(enrollments), ids, now)
      ensures exams == old(exams) && submissions == old(submissions) && activities == old(activities)
    {
      enrollments := SetDropout(enrollments, ids, now);
    }

    /** `Activity::insert(logs)`: appends the rows of one bulk insert. */
    method InsertActivities(logs: seq<Activity>)
      requires Valid()
      modifies this
      ensures Valid()
      ensures activities == old(activities) + logs
      ensures enrollments == old(enrollments) && exams == old(exams) && submissions == old(submissions)
    {
      activities := activities + logs;
    }
  }
}
