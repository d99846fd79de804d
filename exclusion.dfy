/**
 * What the command computes for one chunk of eligible rows: the students to exclude,
 * the rows to drop out, the id-to-student map and the activity log entries.
 */
module Exclusion {
  import opened Tables

  /** `pluck('student_id')` */
  function StudentIds(chunk: seq<Row>): (r: seq<int>)
    ensures forall x :: x in chunk ==> x.studentId in r
    decreases |chunk|
  {
    if |chunk| == 0 then [] else StudentIds(chunk[..|chunk| - 1]) + [chunk[|chunk| - 1].studentId]
  }

  lemma {:induction false} StudentIdsSound(chunk: seq<Row>, s: int)
    requires s in StudentIds(chunk)
    ensures exists x :: x in chunk && x.studentId == s
    decreases |chunk|
  {
    if s != chunk[|chunk| - 1].studentId {
      StudentIdsSound(chunk[..|chunk| - 1], s);
      var x :| x in chunk[..|chunk| - 1] && x.studentId == s;
      assert x in chunk;
    }
  }

  /** `pluck('course_id')` */
  function CourseIds(chunk: seq<Row>): (r: seq<int>)
    ensures forall x :: x in chunk ==> x.courseId in r
    decreases |chunk|
  {
    if |chunk| == 0 then [] else CourseIds(chunk[..|chunk| - 1]) + [chunk[|chunk| - 1].courseId]
  }

  lemma {:induction false} CourseIdsSound(chunk: seq<Row>, c: int)
    requires c in CourseIds(chunk)
    ensures exists x :: x in chunk && x.courseId == c
    decreases |chunk|
  {
    if c != chunk[|chunk| - 1].courseId {
      CourseIdsSound(chunk[..|chunk| - 1], c);
      var x :| x in chunk[..|chunk| - 1] && x.courseId == c;
      assert x in chunk;
    }
  }

  /** The filter of the exam query: each column checked against its own list. */
  predicate ExamMatches(e: Exam, studentIds: seq<int>, courseIds: seq<int>) {
    e.courseId in courseIds && e.studentId in studentIds && e.status == IN_PROGRESS
  }

  predicate SubmissionMatches(s: Submission, studentIds: seq<int>, courseIds: seq<int>) {
    s.courseId in courseIds && s.studentId in studentIds && s.status == WAITING_REVIEW
  }

  /** The exam query, plucking `student_id`, in table order. */
  function ExamStudents(exams: seq<Exam>, studentIds: seq<int>, courseIds: seq<int>): (r: seq<int>)
    ensures |r| <= |exams|
    decreases |exams|
  {
    if |exams| == 0 then []
    else
      var e := exams[|exams| - 1];
      ExamStudents(exams[..|exams| - 1], studentIds, courseIds) +
        (if ExamMatches(e, studentIds, courseIds) then [e.studentId] else [])
  }

  /** A student is in the exam query's result iff one of the matching exams is theirs. */
  lemma {:induction false} ExamStudentsIff(exams: seq<Exam>, studentIds: seq<int>, courseIds: seq<int>, s: int)
    ensures s in ExamStudents(exams, studentIds, courseIds) <==>
      exists e :: e in exams && e.studentId == s && ExamMatches(e, studentIds, courseIds)
    decreases |exams|
  {
    if |exams| > 0 {
      var pre, e := exams[..|exams| - 1], exams[|exams| - 1];
      ExamStudentsIff(pre, studentIds, courseIds, s);
      assert exams == pre + [e];
    }
  }

  /** The submission query, plucking `student_id`, in table order. */
  function SubmissionStudents(subs: seq<Submission>, studentIds: seq<int>, courseIds: seq<int>): (r: seq<int>)
    ensures |r| <= |subs|
    decreases |subs|
  {
    if |subs| == 0 then []
    else
      var x := subs[|subs| - 1];
      SubmissionStudents(subs[..|subs| - 1], studentIds, courseIds) +
        (if SubmissionMatches(x, studentIds, courseIds) then [x.studentId] else [])
  }

  /** A student is in the submission query's result iff one of the matching submissions is theirs. */
  lemma {:induction false} SubmissionStudentsIff(subs: seq<Submission>, studentIds: seq<int>, courseIds: seq<int>, s: int)
    ensures s in SubmissionStudents(subs, studentIds, courseIds) <==>
      exists x :: x in subs && x.studentId == s && SubmissionMatches(x, studentIds, courseIds)
    decreases |subs|
  {
    if |subs| > 0 {
      var pre, x := subs[..|subs| - 1], subs[|subs| - 1];
      SubmissionStudentsIff(pre, studentIds, courseIds, s);
      assert subs == pre + [x];
    }
  }

  /** `array_merge` of the two query results. */
  function StudentsToExclude(
    studentIds: seq<int>, courseIds: seq<int>, exams: seq<Exam>, subs: seq<Submission>): (r: seq<int>)
    ensures forall s :: s in r <==>
      s in ExamStudents(exams, studentIds, courseIds) || s in SubmissionStudents(subs, studentIds, courseIds)
    ensures |r| <= |exams| + |subs|
  {
    ExamStudents(exams, studentIds, courseIds) + SubmissionStudents(subs, studentIds, courseIds)
  }

  /** `whereNotIn('student_id', exclude)` on the chunk, keeping its order. */
  function KeepNotExcluded(chunk: seq<Row>, exclude: seq<int>): (r: seq<Row>)
    ensures |r| <= |chunk|
    decreases |chunk|
  {
    if |chunk| == 0 then []
    else
      var last := chunk[|chunk| - 1];
      KeepNotExcluded(chunk[..|chunk| - 1], exclude) + (if last.studentId !in exclude then [last] else [])
  }

  /** A row is kept iff it is a row of the chunk whose student is not excluded. */
  lemma {:induction false} KeepNotExcludedIff(chunk: seq<Row>, exclude: seq<int>, x: Row)
    ensures x in KeepNotExcluded(chunk, exclude) <==> x in chunk && x.studentId !in exclude
    decreases |chunk|
  {
    if |chunk| > 0 {
      var pre, last := chunk[..|chunk| - 1], chunk[|chunk| - 1];
      KeepNotExcludedIff(pre, exclude, x);
      assert chunk == pre + [last];
    }
  }

  /** The kept rows are rows of the chunk, and they keep the chunk's ascending id order. */
  lemma {:induction false} KeepNotExcludedWithin(chunk: seq<Row>, exclude: seq<int>)
    ensures forall x :: x in KeepNotExcluded(chunk, exclude) ==> x in chunk
    ensures RowIdsIncreasing(chunk) ==> RowIdsIncreasing(KeepNotExcluded(chunk, exclude))
    decreases |chunk|
  {
    if |chunk| > 0 {
      var pre, last := chunk[..|chunk| - 1], chunk[|chunk| - 1];
      KeepNotExcludedWithin(pre, exclude);
      var p, r := KeepNotExcluded(pre, exclude), KeepNotExcluded(chunk, exclude);
      assert chunk == pre + [last];
      forall x | x in r ensures x in chunk {
        if x in p {
          assert x in pre;
        }
      }
      if RowIdsIncreasing(chunk) {
        assert RowIdsIncreasing(pre);
        forall i, j | 0 <= i < j < |r| ensures r[i].id < r[j].id {
          if j >= |p| {
            assert r[i] in pre;
            var k :| 0 <= k < |pre| && pre[k] == r[i];
            assert chunk[k] == r[i] && r[j] == chunk[|chunk| - 1];
          }
        }
      }
    }
  }

  /** The rows of one chunk that the command drops out. */
  function ChunkDropouts(chunk: seq<Row>, exams: seq<Exam>, subs: seq<Submission>): seq<Row> {
    KeepNotExcluded(chunk, StudentsToExclude(StudentIds(chunk), CourseIds(chunk), exams, subs))
  }

  lemma ChunkDropoutsWithin(chunk: seq<Row>, exams: seq<Exam>, subs: seq<Submission>)
    ensures |ChunkDropouts(chunk, exams, subs)| <= |chunk|
    ensures forall x :: x in ChunkDropouts(chunk, exams, subs) ==> x in chunk
    ensures RowIdsIncreasing(chunk) ==> RowIdsIncreasing(ChunkDropouts(chunk, exams, subs))
  {
    KeepNotExcludedWithin(chunk, StudentsToExclude(StudentIds(chunk), CourseIds(chunk), exams, subs));
  }

  lemma {:induction false} KeepAllWithoutExclusions(chunk: seq<Row>)
    ensures KeepNotExcluded(chunk, []) == chunk
    decreases |chunk|
  {
    if |chunk| > 0 {
      KeepAllWithoutExclusions(chunk[..|chunk| - 1]);
      assert chunk == chunk[..|chunk| - 1] + [chunk[|chunk| - 1]];
    }
  }

  /** With no exams and no submissions at all, the callback drops out its whole chunk. */
  lemma NothingPendingKeepsChunk(chunk: seq<Row>)
    ensures ChunkDropouts(chunk, [], []) == chunk
  {
    assert StudentsToExclude(StudentIds(chunk), CourseIds(chunk), [], []) == [];
    KeepAllWithoutExclusions(chunk);
  }

  /**
   * The reference reading of the exclusion rule: a student is blocked in a chunk when
   * they have an in-progress exam, or a submission waiting for review, in a course that
   * some row of the chunk (theirs or another student's) is enrolled in.
   */
  ghost predicate BlockedInChunk(s: int, chunk: seq<Row>, exams: seq<Exam>, subs: seq<Submission>) {
    (exists e, k :: e in exams && k in chunk &&
       e.studentId == s && e.courseId == k.courseId && e.status == IN_PROGRESS) ||
    (exists x, k :: x in subs && k in chunk &&
       x.studentId == s && x.courseId == k.courseId && x.status == WAITING_REVIEW)
  }

  /** A row of the chunk is dropped out exactly when its student is not blocked in the chunk. */
  lemma ChunkDropoutsIff(chunk: seq<Row>, exams: seq<Exam>, subs: seq<Submission>, x: Row)
    ensures x in ChunkDropouts(chunk, exams, subs) <==>
      x in chunk && !BlockedInChunk(x.studentId, chunk, exams, subs)
  {
    var sIds, cIds := StudentIds(chunk), CourseIds(chunk);
    var ex := StudentsToExclude(sIds, cIds, exams, subs);
    KeepNotExcludedIff(chunk, ex, x);
    ExamStudentsIff(exams, sIds, cIds, x.studentId);
    SubmissionStudentsIff(subs, sIds, cIds, x.studentId);
    if x in chunk {
      assert x.studentId in sIds;
      if x.studentId in ExamStudents(exams, sIds, cIds) {
        var e :| e in exams && e.studentId == x.studentId && ExamMatches(e, sIds, cIds);
        CourseIdsSound(chunk, e.courseId);
        var k :| k in chunk && k.courseId == e.courseId;
        assert BlockedInChunk(x.studentId, chunk, exams, subs);
      }
      if x.studentId in SubmissionStudents(subs, sIds, cIds) {
        var y :| y in subs && y.studentId == x.studentId && SubmissionMatches(y, sIds, cIds);
        CourseIdsSound(chunk, y.courseId);
        var k :| k in chunk && k.courseId == y.courseId;
        assert BlockedInChunk(x.studentId, chunk, exams, subs);
      }
      if BlockedInChunk(x.studentId, chunk, exams, subs) {
        if e, k :| e in exams && k in chunk && e.studentId == x.studentId &&
                   e.courseId == k.courseId && e.status == IN_PROGRESS {
          assert ExamMatches(e, sIds, cIds);
          assert x.studentId in ExamStudents(exams, sIds, cIds);
        } else {
          var y, k :| y in subs && k in chunk && y.studentId == x.studentId &&
                      y.courseId == k.courseId && y.status == WAITING_REVIEW;
          assert SubmissionMatches(y, sIds, cIds);
          assert x.studentId in SubmissionStudents(subs, sIds, cIds);
        }
        assert x.studentId in ex;
      }
    }
  }

  /**
   * The chunk-wide course list makes the rule stricter than matching (student, course)
   * pairs: whoever has work pending in the very course of one of their rows is excluded,
   * and with them every other row of theirs in the chunk.
   */
  lemma PairBlockedIsExcluded(chunk: seq<Row>, exams: seq<Exam>, subs: seq<Submission>, x: Row, y: Row)
    requires x in chunk && y in chunk && x.studentId == y.studentId
    requires (exists e :: e in exams && e.studentId == x.studentId && e.courseId == x.courseId &&
                e.status == IN_PROGRESS) ||
             (exists s :: s in subs && s.studentId == x.studentId && s.courseId == x.courseId &&
                s.status == WAITING_REVIEW)
    ensures y !in ChunkDropouts(chunk, exams, subs)
  {
    ChunkDropoutsIff(chunk, exams, subs, y);
  }

  /**
   * Student 20 is enrolled only in course 2 and has an exam in progress in course 1. With a
   * row of student 10 in course 1 in the same chunk, student 20's course-2 row is excluded;
   * in a chunk of its own it is dropped out.
   */
  lemma CrossProductExample()
    ensures var exams := [Exam(20, 1, IN_PROGRESS)];
      ChunkDropouts([Row(1, 10, 1), Row(2, 20, 2)], exams, []) == [Row(1, 10, 1)] &&
      ChunkDropouts([Row(2, 20, 2)], exams, []) == [Row(2, 20, 2)]
  {
    var exams := [Exam(20, 1, IN_PROGRESS)];
    var both := [Row(1, 10, 1), Row(2, 20, 2)];
    assert StudentIds(both) == [10, 20];
    assert CourseIds(both) == [1, 2];
    assert ExamMatches(exams[0], [10, 20], [1, 2]);
    assert exams[..0] == [];
    assert ExamStudents(exams, [10, 20], [1, 2]) == [20];
    assert StudentsToExclude([10, 20], [1, 2], exams, []) == [20];
    assert StudentIds([Row(2, 20, 2)]) == [20];
    assert CourseIds([Row(2, 20, 2)]) == [2];
    assert !ExamMatches(exams[0], [20], [2]);
    assert ExamStudents(exams, [20], [2]) == [];
    assert StudentsToExclude([20], [2], exams, []) == [];
  }

  /** `pluck('student_id', 'id')`: a later row with the same id would overwrite an earlier one. */
  function StudentMap(chunk: seq<Row>): (m: map<int, int>)
    ensures forall x :: x in chunk ==> x.id in m
    ensures RowIdsIncreasing(chunk) ==> forall x :: x in chunk ==> m[x.id] == x.studentId
    decreases |chunk|
  {
    if |chunk| == 0 then map[]
    else
      var last := chunk[|chunk| - 1];
      var pre := StudentMap(chunk[..|chunk| - 1]);
      assert RowIdsIncreasing(chunk) ==> forall x :: x in chunk ==> x == last || (x in chunk[..|chunk| - 1] && x.id != last.id) by {
        if RowIdsIncreasing(chunk) {
          forall x | x in chunk ensures x == last || (x in chunk[..|chunk| - 1] && x.id != last.id) {
            var i :| 0 <= i < |chunk| && chunk[i] == x;
            if i < |chunk| - 1 {
              assert chunk[..|chunk| - 1][i] == x;
            }
          }
        }
      }
      pre[last.id := last.studentId]
  }

  /** The activity log entry for one dropped-out row. */
  function ActivityFor(x: Row, now: int): Activity {
    Activity(x.id, x.studentId, COURSE_DROPOUT, now, now)
  }

  function ActivitiesOf(rows: seq<Row>, now: int): (r: seq<Activity>)
    ensures |r| == |rows|
    ensures forall i :: 0 <= i < |rows| ==> r[i] == ActivityFor(rows[i], now)
  {
    seq(|rows|, i requires 0 <= i < |rows| => ActivityFor(rows[i], now))
  }

  lemma ActivitiesOfAppend(a: seq<Row>, b: seq<Row>, now: int)
    ensures ActivitiesOf(a + b, now) == ActivitiesOf(a, now) + ActivitiesOf(b, now)
  {
  }

  /**
   * The `foreach` over the dropout ids: one entry per id, in the same order, whose user is
   * the student the map gives for that id.
   */
  method BuildActivityLogs(dropoutIds: seq<int>, studentMap: map<int, int>, now: int)
    returns (logs: seq<Activity>)
    requires forall i :: 0 <= i < |dropoutIds| ==> dropoutIds[i] in studentMap
    ensures |logs| == |dropoutIds|
    ensures forall i :: 0 <= i < |logs| ==>
      logs[i].resourceId == dropoutIds[i] && logs[i].userId == studentMap[dropoutIds[i]] &&
      logs[i].description == COURSE_DROPOUT && logs[i].createdAt == now && logs[i].updatedAt == now
  {
    logs := [];
    for k := 0 to |dropoutIds|
      invariant |logs| == k
      invariant forall i :: 0 <= i < k ==>
        logs[i] == Activity(dropoutIds[i], studentMap[dropoutIds[i]], COURSE_DROPOUT, now, now)
    {
      var id := dropoutIds[k];
      logs := logs + [Activity(id, studentMap[id], COURSE_DROPOUT, now, now)];
    }
  }

  /** The entries the loop builds from a chunk's map are the activities of its dropped rows. */
  lemma LogsOfDropouts(chunk: seq<Row>, d: seq<Row>, logs: seq<Activity>, now: int)
    requires RowIdsIncreasing(chunk)
    requires forall x :: x in d ==> x in chunk
    requires |logs| == |d|
    requires forall i :: 0 <= i < |d| ==>
      Ids(d)[i] in StudentMap(chunk) && logs[i] == Activity(Ids(d)[i], StudentMap(chunk)[Ids(d)[i]], COURSE_DROPOUT, now, now)
    ensures logs == ActivitiesOf(d, now)
  {
    forall i | 0 <= i < |d| ensures logs[i] == ActivityFor(d[i], now) {
      IdAt(d, i);
      assert d[i] in chunk;
    }
  }

  lemma {:induction false} IdAt(rs: seq<Row>, i: int)
    requires 0 <= i < |rs|
    ensures Ids(rs)[i] == rs[i].id
    decreases |rs|
  {
    if i < |rs| - 1 {
      IdAt(rs[..|rs| - 1], i);
    }
  }

  /** How many entries of the log name `id` as their resource. */
  function CountFor(acts: seq<Activity>, id: int): (n: nat)
    ensures n <= |acts|
    ensures n > 0 <==> exists a :: a in acts && a.resourceId == id
    decreases |acts|
  {
    if |acts| == 0 then 0
    else CountFor(acts[..|acts| - 1], id) + (if acts[|acts| - 1].resourceId == id then 1 else 0)
  }

  lemma {:induction false} CountForAppend(a: seq<Activity>, b: seq<Activity>, id: int)
    ensures CountFor(a + b, id) == CountFor(a, id) + CountFor(b, id)
    decreases |b|
  {
    if |b| == 0 {
      assert a + b == a;
    } else {
      assert (a + b)[..|a + b| - 1] == a + b[..|b| - 1];
      CountForAppend(a, b[..|b| - 1], id);
    }
  }

  /** Rows with distinct ids give exactly one activity per dropped id and none for other ids. */
  lemma {:induction false} ExactlyOneActivity(rows: seq<Row>, now: int, id: int)
    requires RowIdsIncreasing(rows)
    ensures CountFor(ActivitiesOf(rows, now), id) == if id in Ids(rows) then 1 else 0
    decreases |rows|
  {
    if |rows| > 0 {
      var pre := rows[..|rows| - 1];
      var last := rows[|rows| - 1];
      assert ActivitiesOf(rows, now)[..|rows| - 1] == ActivitiesOf(pre, now);
      ExactlyOneActivity(pre, now, id);
      assert Ids(rows) == Ids(pre) + [last.id];
      if id == last.id {
        forall j | 0 <= j < |pre| ensures Ids(pre)[j] < last.id {
          IdAt(pre, j);
          assert pre[j] == rows[j];
        }
        assert id !in Ids(pre);
      }
    }
  }
}
