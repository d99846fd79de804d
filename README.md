# Enrollment dropout command, modelled in Dafny

This project models the `enrollments:dropout` console command of a Laravel application
(`app/Console/Commands/DropOutEnrollments.php`). Here is what the command does:

- `handle` opens a transaction and takes a cutoff: the `deadline_at` of the enrollment with the highest id.
- It then calls `dropOutEnrollmentsBefore`, which reads every enrollment whose deadline is at or before the cutoff, whatever its status.
- The rows are read in id order, in chunks of 5000.
- In each chunk, a student is excluded when they have an `IN_PROGRESS` exam or a `WAITING_REVIEW` submission. The student must be one of the chunk's students, and the course one of the chunk's courses.
- The chunk's other rows get status `DROPOUT` and `updated_at = now`.
- One `COURSE_DROPOUT` activity is inserted per dropped row.
- A counter adds up the dropped rows.
- The transaction is rolled back on success and on failure alike. A failure is re-raised.

The model has four modules:

- `Tables` (`tables.dfy`) holds:
  - the entities, as datatypes;
  - the enrollment table as a sequence sorted by id (primary-key order);
  - the eligibility query (`EligibleRows`);
  - the bulk update (`SetDropout`);
  - the cutoff (`Cutoff`);
  - a `Database` class whose fields are the four tables. Its methods are the transaction snapshot, the rollback, the update and the insert.
- `Exclusion` (`exclusion.dfy`) is the pure per-chunk computation. It covers the plucked student and course lists, the exam and submission queries, the merge, the `whereNotIn` filter and the id-to-student map. It also holds the `foreach` that builds the activity entries, as a method with a loop.
- `Chunking` (`chunking.dfy`) models Laravel's `chunk()`. Pages are taken by offset and limit over the eligible rows, until a page comes back short or empty. It proves that the pages partition the rows.
- `DropOutEnrollments` (`command.dfy`) holds:
  - the chunk callback (`ProcessChunk`, `SaveDropouts`);
  - the chunk loop with its by-reference counter (`RunChunks`, one round of which is `NextChunk`);
  - `DropOutEnrollmentsBefore`;
  - `Handle`.

How the model treats a few things:

- **Re-read pages.** Every page is re-read from the current table, as Laravel's offset pagination does. The loop invariant and `Tables.EligibleOfSameKeys` show that the update keeps ids and deadlines, so every page sees the same eligible rows. Each eligible row is therefore handed to the callback exactly once.
- **Failures.** A data-access failure is modelled by a parameter `failing: Option<Query>`, which names the one query the database rejects. The contracts say exactly when a run fails: the run issues that query. They also say what a failed run may have written before it stopped.
- **Timestamps.** Timestamps are integers. The current time `now` is a parameter.

Facts about the code that the contracts make explicit:

- **Exclusion is a cross product.** Exams and submissions are filtered by the chunk's student list and its course list independently (lines 84-101), not by (student, course) pairs. So a student is excluded from the whole chunk when they have pending work in any course that any row of the chunk is enrolled in. `Exclusion.PairBlockedIsExcluded` and `Exclusion.CrossProductExample` make this explicit. The example also shows that the outcome depends on which rows share a chunk.
- **Status is never filtered.** The eligibility select (line 74) looks only at `deadline_at`, so rows that are already DROPOUT are eligible again. If the first run's writes were kept, a second run over that table would find the same cutoff and rows, re-drop the same rows and log a second activity for each (`DropOutEnrollments.RerunDropsAgain`).
- **The offset pages are stable.** The update never changes `deadline_at` or any key, so re-reading the eligible rows for each page gives the same rows. Offset paging then neither skips nor repeats a row, and it goes on until a page comes back short.
- **Nothing is committed.** `handle` rolls back after success as well as after a failure (lines 53 and 55), so the store ends as it began, whatever the run did (`DropOutEnrollments.Handle`). In particular, two runs in a row leave the store unchanged.

The excluded count printed at line 132 is `total - dropped`. In PHP 8, `-` binds tighter than `.`, and the constructor's promoted `readonly` property needs PHP 8.1.

## Model

| member | source | states |
|---|---|---|
| Tables.Cutoff | app/Console/Commands/DropOutEnrollments.php:44 | there is no cutoff iff the table is empty; otherwise it is the deadline of the row whose id is larger than every other row's |
| Tables.Ids | app/Console/Commands/DropOutEnrollments.php:106 | `pluck('id')` keeps one id per row, and every row's id is among them |
| Tables.IdsSound | app/Console/Commands/DropOutEnrollments.php:106 | every plucked id is the id of some row |
| Tables.IdsAppend | app/Console/Commands/DropOutEnrollments.php:106 | plucking the ids of two row lists one after the other gives the ids of the joined list |
| Tables.EligibleRows | app/Console/Commands/DropOutEnrollments.php:74 | the eligibility select yields at most the table's rows, in ascending id order when the table is in id order |
| Tables.EligibleSound | app/Console/Commands/DropOutEnrollments.php:74 | every selected row comes from a table row whose deadline is at or before the cutoff |
| Tables.EligibleComplete | app/Console/Commands/DropOutEnrollments.php:74 | every table row whose deadline is at or before the cutoff is selected, whatever its status |
| Tables.EligibleOfSameKeys | app/Console/Commands/DropOutEnrollments.php:74-83 | two tables that differ only in status and updated_at give the same eligible rows, so re-reading a page after an update sees the same rows |
| Tables.SetDropout | app/Console/Commands/DropOutEnrollments.php:110-113 | the bulk update keeps ids, students, courses and deadlines; listed rows get DROPOUT and `now`; all other rows are unchanged |
| Tables.SetDropoutNone | app/Console/Commands/DropOutEnrollments.php:108-113 | an update with no ids changes nothing |
| Tables.SetDropoutTwice | app/Console/Commands/DropOutEnrollments.php:110-113 | two chunks' updates with the same timestamp equal one update over both id lists |
| Tables.DropoutOfEligibleOnly | app/Console/Commands/DropOutEnrollments.php:74-113 | updating ids taken from the eligibility query changes only rows with deadline at or before the cutoff, and only their status and updated_at |
| Tables.Database.BeginTransaction | app/Console/Commands/DropOutEnrollments.php:42 | the snapshot holds exactly the four tables as they are |
| Tables.Database.RollBack | app/Console/Commands/DropOutEnrollments.php:53-55 | after a rollback all four tables equal the snapshot, and the id order of the restored enrollments is kept |
| Tables.Database.UpdateDropout | app/Console/Commands/DropOutEnrollments.php:110-113 | the enrollment table becomes its `SetDropout`, id order is kept, and the other tables are unchanged |
| Tables.Database.InsertActivities | app/Console/Commands/DropOutEnrollments.php:127 | the activity table grows by exactly the inserted entries, at its end, id order of enrollments is kept, and nothing else changes |
| Exclusion.StudentIds | app/Console/Commands/DropOutEnrollments.php:84 | every row's student is in the plucked student list |
| Exclusion.StudentIdsSound | app/Console/Commands/DropOutEnrollments.php:84 | every plucked student is the student of some row |
| Exclusion.CourseIds | app/Console/Commands/DropOutEnrollments.php:85 | every row's course is in the plucked course list |
| Exclusion.CourseIdsSound | app/Console/Commands/DropOutEnrollments.php:85 | every plucked course is the course of some row |
| Exclusion.ExamStudents | app/Console/Commands/DropOutEnrollments.php:90-94 | the exam query yields at most one student per exam; which students it yields is stated by `Exclusion.ExamStudentsIff` |
| Exclusion.ExamStudentsIff | app/Console/Commands/DropOutEnrollments.php:90-94 | a student is in the exam query's result iff some exam of theirs is IN_PROGRESS with its student on the student list and its course on the course list |
| Exclusion.SubmissionStudents | app/Console/Commands/DropOutEnrollments.php:97-101 | the submission query yields at most one student per submission; which students it yields is stated by `Exclusion.SubmissionStudentsIff` |
| Exclusion.SubmissionStudentsIff | app/Console/Commands/DropOutEnrollments.php:97-101 | a student is in the submission query's result iff some submission of theirs is WAITING_REVIEW with its student and course on the two lists |
| Exclusion.StudentsToExclude | app/Console/Commands/DropOutEnrollments.php:103 | `array_merge` of the two results: a student is to be excluded iff the exam query or the submission query yields them |
| Exclusion.KeepNotExcluded | app/Console/Commands/DropOutEnrollments.php:106 | `whereNotIn` keeps at most the chunk's rows; which rows it keeps is stated by `Exclusion.KeepNotExcludedIff`, their order by `Exclusion.KeepNotExcludedWithin` |
| Exclusion.KeepNotExcludedIff | app/Console/Commands/DropOutEnrollments.php:106 | a row survives `whereNotIn` iff it is a chunk row whose student is not excluded |
| Exclusion.KeepNotExcludedWithin | app/Console/Commands/DropOutEnrollments.php:106 | the surviving rows are chunk rows and keep the chunk's ascending id order |
| Exclusion.ChunkDropouts | app/Console/Commands/DropOutEnrollments.php:84-106 | the rows one chunk drops out; characterized by `Exclusion.ChunkDropoutsIff` against the independent rule `BlockedInChunk`, and bounded by `Exclusion.ChunkDropoutsWithin` |
| Exclusion.ChunkDropoutsWithin | app/Console/Commands/DropOutEnrollments.php:84-106 | a chunk's dropout rows are at most its rows, are rows of it, and are in id order |
| Exclusion.ChunkDropoutsIff | app/Console/Commands/DropOutEnrollments.php:84-106 | a row is dropped out iff it is in the chunk and its student has no IN_PROGRESS exam and no WAITING_REVIEW submission in any course of the chunk |
| Exclusion.KeepAllWithoutExclusions | app/Console/Commands/DropOutEnrollments.php:106 | with nobody excluded, the filter keeps the whole chunk |
| Exclusion.NothingPendingKeepsChunk | app/Console/Commands/DropOutEnrollments.php:90-106 | with no exams and no submissions, the whole chunk is dropped out |
| Exclusion.PairBlockedIsExcluded | app/Console/Commands/DropOutEnrollments.php:84-106 | a student with pending work in the course of one of their rows loses every one of their rows in that chunk, not only that row |
| Exclusion.CrossProductExample | app/Console/Commands/DropOutEnrollments.php:84-106 | pending work in another student's course excludes a row that is dropped out when it is in a chunk of its own |
| Exclusion.StudentMap | app/Console/Commands/DropOutEnrollments.php:87 | every row's id is a key of the map and, in an id-ordered chunk, maps to that row's student |
| Exclusion.ActivityFor | app/Console/Commands/DropOutEnrollments.php:118-124 | the entry for one dropped row: resource the row's id, user its student, COURSE_DROPOUT, created and updated at `now`; `Exclusion.LogsOfDropouts` shows it is what the `foreach` builds |
| Exclusion.ActivitiesOf | app/Console/Commands/DropOutEnrollments.php:116-125 | one entry per row, in row order; `Exclusion.ExactlyOneActivity` shows each dropped id then has exactly one activity |
| Exclusion.ActivitiesOfAppend | app/Console/Commands/DropOutEnrollments.php:116-127 | the activities of two row lists joined are the two lists' activities joined |
| Exclusion.BuildActivityLogs | app/Console/Commands/DropOutEnrollments.php:116-125 | one entry per dropout id, in order, with that id as resource, the mapped student as user, COURSE_DROPOUT and `now` |
| Exclusion.LogsOfDropouts | app/Console/Commands/DropOutEnrollments.php:87-125 | the entries built from the chunk's map are exactly the activities of the dropped rows, each row's user being its student as read before the update |
| Exclusion.IdAt | app/Console/Commands/DropOutEnrollments.php:106 | the i-th plucked id is the id of the i-th row |
| Exclusion.CountFor | app/Console/Commands/DropOutEnrollments.php:127 | the number of entries naming an id is at most the log's length, and positive iff some entry names it |
| Exclusion.CountForAppend | app/Console/Commands/DropOutEnrollments.php:127 | counting over two logs joined adds the two counts |
| Exclusion.ExactlyOneActivity | app/Console/Commands/DropOutEnrollments.php:116-127 | for id-ordered dropout rows, each dropped id has exactly one activity and any other id has none |
| Chunking.Page | app/Console/Commands/DropOutEnrollments.php:83 | a page holds the rows from its offset on, no more than the batch size of them, and none past the end |
| Chunking.ChunksFrom | app/Console/Commands/DropOutEnrollments.php:83 | the pages `chunk()` hands to the callback; `Chunking.ChunksPartition` shows they partition the rows in order, `Chunking.ChunkSizes` that each holds 1 to 5000 rows |
| Chunking.ChunksPartition | app/Console/Commands/DropOutEnrollments.php:83 | the pages read one after another are exactly the rows from the start offset on, in order |
| Chunking.ChunkSizes | app/Console/Commands/DropOutEnrollments.php:71-83 | every page the callback receives holds between one and the batch size of rows |
| Chunking.FiveRowsInPagesOfTwo | app/Console/Commands/DropOutEnrollments.php:83 | five rows in batches of two give pages of two, two and one rows and, with nothing pending, all five are dropped |
| Chunking.RunDropouts | app/Console/Commands/DropOutEnrollments.php:83-106 | the rows dropped out page after page; characterized by `Chunking.RunDropoutsIff` and bounded by `Chunking.RunDropoutsWithin` |
| Chunking.RunDropoutsCons | app/Console/Commands/DropOutEnrollments.php:83-106 | the dropouts of a first page and the rest are the first page's dropouts followed by the rest's |
| Chunking.NothingPendingFlattens | app/Console/Commands/DropOutEnrollments.php:83-106 | with no exams and no submissions, the run drops out every row of every page |
| Chunking.NothingPendingDropsAll | app/Console/Commands/DropOutEnrollments.php:83-106 | with no exams and no submissions, the run drops out exactly the eligible rows from the offset on, in order |
| Chunking.RunDropoutsWithin | app/Console/Commands/DropOutEnrollments.php:83-106 | the rows dropped across pages are rows of the pages, no more of them than the pages hold, and id-ordered when the pages are |
| Chunking.RunDropoutsIff | app/Console/Commands/DropOutEnrollments.php:83-106 | a row is dropped out iff some page holds it and its student is not blocked in that page |
| DropOutEnrollments.RunDropoutsOf | app/Console/Commands/DropOutEnrollments.php:83-128 | the rows a whole run drops out, over the 5000-row pages of the eligible rows; bounded by `DropOutEnrollments.RunDropoutsOfWithin` and equal to what `DropOutEnrollments.RunChunks` counts |
| DropOutEnrollments.CutoffOrNow | app/Console/Commands/DropOutEnrollments.php:44 | the cutoff `handle` passes on: on an empty table the current time (what `Carbon::parse(null)` gives), otherwise the value of `Tables.Cutoff`, the latest enrollment's deadline |
| DropOutEnrollments.ChunkIssues | app/Console/Commands/DropOutEnrollments.php:90-127 | a chunk's callback always issues its exam and submission queries, and its update and insert only when it has dropout rows; `DropOutEnrollments.ProcessChunk` fails exactly on these |
| DropOutEnrollments.Issues | app/Console/Commands/DropOutEnrollments.php:74-129 | the queries a fault-free run issues: the count, the read of every page whose offset is at most the number of eligible rows, and the callback queries of every non-empty page; `DropOutEnrollments.DropOutEnrollmentsBefore` fails exactly on these |
| DropOutEnrollments.ProcessChunk | app/Console/Commands/DropOutEnrollments.php:83-129 | the callback fails iff it issues the failing query; a failed exam, submission or update query writes nothing and a failed insert leaves only the update; on success it drops out exactly the chunk's dropout rows, appends one activity each and returns their number; with no dropout rows nothing is written; exams and submissions never change |
| DropOutEnrollments.SaveDropouts | app/Console/Commands/DropOutEnrollments.php:108-128 | fails iff the update or the insert query is the failing one; a failed update writes nothing, a failed insert leaves the update applied and no activity; on success the dropout rows are DROPOUT, one activity each is appended and their number returned |
| DropOutEnrollments.DropOutEnrollmentsBefore | app/Console/Commands/DropOutEnrollments.php:68-134 | fails iff one of its queries is the failing one; on success eligible = dropped + excluded with excluded at least 0, the eligible rows decided by the chunk rule are DROPOUT, one activity each is appended in id order, and their number is the counter; always only eligible rows change, only in status and updated_at, exams and submissions are untouched and the activity log only grows |
| DropOutEnrollments.RunChunks | app/Console/Commands/DropOutEnrollments.php:83-129 | the chunk loop's counter ends equal to the number of rows dropped across all pages, which are exactly the run's dropout rows, with their activities appended |
| DropOutEnrollments.NextChunk | app/Console/Commands/DropOutEnrollments.php:83-129 | one round re-reads the page from the current table, gets the same rows as from the table before the run, and on success adds that page's dropout rows to those done |
| DropOutEnrollments.PageStep | app/Console/Commands/DropOutEnrollments.php:83 | an empty page ends the loop; a full page moves on to the next offset with the loop still running; a short page is the last |
| DropOutEnrollments.Handle | app/Console/Commands/DropOutEnrollments.php:39-58 | the store ends exactly as it began on success and on failure; the result fails iff the cutoff query or a query of the run fails, passing that error on; on success it reports the run's summary for the latest enrollment's deadline |
| DropOutEnrollments.RunDropoutsOfWithin | app/Console/Commands/DropOutEnrollments.php:76-132 | the dropped-out count is at most the eligible count, so the excluded count is non-negative, and the dropped rows are eligible rows in id order |
| DropOutEnrollments.RerunDropsAgain | app/Console/Commands/DropOutEnrollments.php:74-113 | if the first run's writes were kept, a second run over the updated table sees the same cutoff and eligible rows, drops out the same rows again, and leaves two activities for each of them (`Handle` itself rolls both runs back) |
| DropOutEnrollments.SingleDropoutExample | app/Console/Commands/DropOutEnrollments.php:68-129 | one past-deadline enrollment with no pending work becomes DROPOUT with one COURSE_DROPOUT activity for its student |
| DropOutEnrollments.PendingExamExample | app/Console/Commands/DropOutEnrollments.php:68-132 | the same enrollment with an in-progress exam in its course is left unchanged, no activity is logged, and one row is counted as excluded |

## Left out

- The stopwatch and the `info` console output (lines 46-51, 77 and 132-133) are instrumentation and I/O. Only the three integers printed are kept, as `Summary`.
- Eloquent and query-builder mechanics are framework code, so their SQL is not modelled. Each query is modelled by its effect on the in-memory tables.
- `DB::beginTransaction` and `DB::rollBack` are modelled as a snapshot of the four tables and its restoration. Isolation, nesting and the connection are framework concerns.
- Carbon parsing of the deadline is library code. Timestamps are integers. On an empty table the cutoff is `now`, the value `Carbon::parse(null)` gives. The eligible set is then empty either way.
- Nullable `deadline_at` values and SQL's handling of NULL in comparisons are not modelled. Every deadline is an integer.
- The update and each log entry call `now()` separately. The model uses one `now` for the whole run.
- The auto-increment ids and any other columns of the activity rows are not modelled, and the enrollments table has no columns beyond those the command reads or writes.
- The command signature, description and constructor wiring (lines 21-34) are framework plumbing.
- Concurrent writers and database-side failures other than a rejected query are not modelled. A failure is the single query named by `failing`.
- Which exception class is thrown, and its message, is not modelled. The error only names the failing query.
- Status values are compared exactly, as strings (`IN_PROGRESS`, `WAITING_REVIEW`). A case-insensitive column collation in the database is not modelled.
