# School records tracker — a Dafny model of its request logic

The tracker is a REST API over three tables: students, attendance entries and
performance scores. All of its behaviour outside the framework sits in
`tracker/views.py`, and this project models that file:

- the permission policy `IsTeacherOrReadOnly`. Read methods (GET, HEAD,
  OPTIONS) need an authenticated user. Every other method needs an
  authenticated staff user (a teacher).
- the attendance summary action. It counts all rows and the rows whose
  status is `present`, `absent` or `late`, and gives each count as a
  percentage of the total. All percentages are 0 on an empty table.
- the performance summary action. It gives the mean score over all rows (0
  when there are none), the row count, and a map from each distinct subject to
  the mean score of that subject's rows.
- the two `perform_create` overrides. They store a new attendance or
  performance row with `recorded_by` set to the requesting user, whatever the
  client sent.

The database becomes a value. A table is a `seq` of immutable records, and each
ORM query (`count()`, `filter(status=…)`, `Avg('score')`,
`values_list(…).distinct()`) is a pure function over that sequence.
Percentages and averages are exact `real`s.

Files:

- `records.dfy`: the entities (`User`, `Student`, `AttendanceRecord`, `PerformanceRecord`).
- `permissions.dfy`: the policy, plus a reference reading of it as capability tiers.
- `attendance.dfy`: status counts, percentages and the attendance summary.
- `performance.dfy`: sums, means, distinct subjects, per-subject rows and the performance summary.
- `attribution.dfy`: attribution on create, creation gated by the policy, and how a created row shows up in the next summary.
- `realarith.dfy`: three small ordered-field facts. `CancelPositive` is shared, `QuotientBetween` serves the mean proofs and `SharesOfTotal` the percentage proofs.

Attendance status is free text in the source, and nothing restricts it to the
three reported values. The model keeps it free text. As a result, the three
counts add up to the total only when every row carries a known status, and
`Attendance.CountsBoundedByTotal` proves exactly that equivalence.

## Model

| member | source | states |
|---|---|---|
| `Permissions.HasPermission` | tracker/views.py:13-18 | A granted request always comes from an authenticated user. For GET/HEAD/OPTIONS it is granted exactly when the user is authenticated, whatever the staff flag. For any other method it is granted exactly when the user is authenticated and is staff. |
| `Permissions.TierOf` | tracker/views.py:15-18 | A user is in the anonymous tier exactly when unauthenticated, and in the teacher tier exactly when authenticated and staff. |
| `Permissions.RequiredTier` | tracker/views.py:15-18 | No method can be used by the anonymous tier. |
| `Permissions.PolicyIsTierComparison` | tracker/views.py:13-18 | The policy grants a request exactly when the caller's tier (anonymous < read-only < teacher) reaches the tier the method needs: read-only for safe methods, teacher for all others. |
| `Permissions.AnonymousAlwaysDenied` | tracker/views.py:13-18 | An unauthenticated caller is refused for every method, including the read-only summaries. |
| `Permissions.StaffIsMonotone` | tracker/views.py:16-18 | Turning on `is_staff` never removes a permission. |
| `Permissions.WritesImplyReads` | tracker/views.py:15-18 | A user allowed a write method is also allowed every safe method. |
| `Permissions.TruthTable` | tracker/views.py:15-18 | The decision for GET, HEAD, OPTIONS, POST, PUT, PATCH and DELETE: the first three follow authentication alone, the last four need authentication and staff. |
| `Attendance.CountStatus` | tracker/views.py:43-45 | The count of rows with a given status is at most the row count. It is 0 exactly when no row has that status, and it equals the row count exactly when every row has it. |
| `Attendance.CountIsMultiplicity` | tracker/views.py:43-45 | The filtered count equals the number of times the status occurs in the table's status column (its multiset multiplicity). |
| `Attendance.CountStatusAppend` | tracker/views.py:43-45 | Appending a row raises the count of that row's status by one and leaves the count of every other status unchanged. |
| `Attendance.CountsBoundedByTotal` | tracker/views.py:42-45 | present + absent + late is at most the total. It equals the total exactly when every row's status is one of the three. |
| `Attendance.Percent` | tracker/views.py:47-52 | On an empty table the percentage is 0. Otherwise the percentage times the total equals the count times 100. The percentage is never negative, and a count no larger than the total gives at most 100. |
| `Attendance.PercentsAdd` | tracker/views.py:47-52 | Three counts that sum to at most the total have percentages that sum to at most 100. They sum to exactly 100 when the counts sum to a non-zero total. |
| `Attendance.FromCounts` | tracker/views.py:47-61 | The response built from the counts carries them unchanged. All percentages are 0 when the total is 0. Otherwise each percentage is its count's share of 100. No percentage is negative, and one whose count is at most the total is at most 100. Counts that together fit within the total give percentages summing to at most 100, or exactly 100 when they cover a non-zero total. The counts are not required to fit. |
| `Attendance.Summarize` | tracker/views.py:39-62 | `total_records` is the row count. Each status count is that status's multiplicity in the table, and the three counts sum to at most the total. An empty table gives all zeros. Each percentage is `count/total*100` and lies in [0, 100], and the three percentages sum to at most 100. |
| `Attendance.PercentsCoverKnownStatuses` | tracker/views.py:42-52 | When the table is non-empty and every status is present/absent/late, the counts sum to the total and the percentages sum to exactly 100. |
| `Performance.MinScore` | tracker/views.py:78 | The lowest score bounds every score from below and is the score of some row. |
| `Performance.MaxScore` | tracker/views.py:78 | The highest score bounds every score from above and is the score of some row. |
| `Performance.SumBetweenBounds` | tracker/views.py:78 | If every score lies in [lo, hi], then the sum lies in [n·lo, n·hi]. |
| `Performance.Mean` | tracker/views.py:78 | The average of an empty table is 0, where the database gives null and the action reports 0. The mean multiplied by the row count gives the total of the scores. |
| `Performance.AverageIsUnique` | tracker/views.py:78 | For a non-empty table, any value that multiplied by the row count gives the total of the scores is the mean. |
| `Performance.QuotientWithinBounds` | tracker/views.py:78 | The quotient of the sum by the count stays inside any bounds that all scores respect. |
| `Performance.MeanBetweenMinAndMax` | tracker/views.py:78 | The mean of a non-empty table lies between its lowest and highest score. |
| `Performance.Subjects` | tracker/views.py:82 | A subject is among the distinct subjects exactly when some row has it. |
| `Performance.SubjectsAppend` | tracker/views.py:82 | Adding a row adds its subject to the distinct subjects and nothing else, so a new subject appears at once. |
| `Performance.WithSubject` | tracker/views.py:83 | The rows filtered by a subject all carry that subject and are no more than the table. The filter is non-empty exactly when the subject occurs in the table. |
| `Performance.WithSubjectIsFilter` | tracker/views.py:83 | The filter keeps each row of the subject exactly as many times as the table holds it, and no row of another subject. |
| `Performance.Breakdown` | tracker/views.py:81-86 | The keys are exactly the distinct subjects in the table. Each value is the mean of that subject's filtered rows, and multiplied by the number of those rows it gives their score total. |
| `Performance.SubjectMeanBounded` | tracker/views.py:82-86 | Each subject in the breakdown has at least one row, and its mean lies between that subject's lowest and highest score. |
| `Performance.Summarize` | tracker/views.py:75-92 | An empty table gives average 0, count 0 and an empty breakdown. `total_records` is the row count. The overall average is the mean of all rows: multiplied by the row count it gives the score total, and it lies between the minimum and maximum score. The breakdown is keyed by exactly the distinct subjects. Each value is that subject's mean, and multiplied by that subject's row count it gives that subject's score total. |
| `Performance.ExampleGrouping` | tracker/views.py:81-85 | Rows (Math, 80), (Math, 90), (Science, 70) have the subjects {Math, Science}. Filtering gives the two Math rows and the one Science row. |
| `Performance.ExampleMeans` | tracker/views.py:78-85 | Those rows have means 80 overall, 85 for the Math rows and 70 for the Science row. |
| `Performance.ExampleBreakdown` | tracker/views.py:81-86 | Those rows have the breakdown {Math: 85, Science: 70}. |
| `Performance.WorkedExample` | tracker/views.py:75-92 | Those rows have the summary overall_average 80, total_records 3, subject_breakdown {Math: 85, Science: 70}. |
| `Attribution.AttributeAttendance` | tracker/views.py:36-37 | The stored attendance row has `recorded_by` equal to the caller. Its student, date and status are the submitted ones. |
| `Attribution.AttributePerformance` | tracker/views.py:72-73 | The stored performance row has `recorded_by` equal to the caller. Its student, subject, score and date are the submitted ones. |
| `Attribution.AttendanceIgnoresSubmittedRecorder` | tracker/views.py:36-37 | Two attendance submissions that differ only in `recorded_by` are stored identically. |
| `Attribution.PerformanceIgnoresSubmittedRecorder` | tracker/views.py:72-73 | Two performance submissions that differ only in `recorded_by` are stored identically. |
| `Attribution.AttributionKeepsCorrectRecorder` | tracker/views.py:36-37 | A submission is stored unchanged exactly when it already names the caller. |
| `Attribution.CreateAttendance` | tracker/views.py:36-37 | A create succeeds exactly for authenticated staff callers. On success the table grows by one row, the old rows are untouched, and the new row is the submission attributed to the caller. |
| `Attribution.CreatePerformance` | tracker/views.py:72-73 | A create succeeds exactly for authenticated staff callers. On success the table grows by one row, the old rows are untouched, and the new row is the submission attributed to the caller. |
| `Attribution.CreatedAttendanceIsCounted` | tracker/views.py:42-45 | After a successful create, the next attendance summary has one more record and one more in the count of the new row's status (if known). Every other count is unchanged. |
| `Attribution.CreatedSubjectIsReported` | tracker/views.py:81-90 | After a successful create, the next performance summary's subjects are the old ones plus the new row's subject, and its record count is one higher. |

## Left out

- Rounding: `round(…, 2)` on the percentages and averages, and floating-point division in general. All figures are exact reals before rounding.
- Concurrency: each summary issues several separate queries. The model computes every figure from one snapshot of the table, so a write landing between the queries is not modelled.
- Framework behaviour we cannot see: the ORM and SQL, the search and ordering filter backends, the serializers and their field validation, and the generic list/retrieve/update/delete of the model viewsets. Student rows are only stored, since no logic of the tracker reads them.
- Score type: the performance score is modelled as a real, because `tracker/models.py` is not part of this model. A null score, which would make the per-subject `if subject_avg else 0` branch matter for a non-empty subject, is not modelled. For a non-null average the branch gives the same value as the exact mean, 0 included.
- String comparison: the status filter, the subject filter and `distinct()` compare text exactly, as under a binary (case-sensitive) collation. A database whose collation folds case or accents would merge values the model keeps apart.
- `values_list('subject', flat=True).distinct()` is taken to yield each subject once. Iteration order does not matter because the result is a map.
- The routing in `tracker/urls.py`, its commented-out alternative, and the misplaced `home` method: these are framework wiring and template rendering.
- HTTP response construction, status codes, authentication mechanics and the admin site. The policy sees a user only as its two flags.
- Which HTTP methods the summary actions accept: this is routing. The policy's view of a GET is covered by `Permissions.TruthTable`.
