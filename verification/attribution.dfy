/**
  Record creation for the attendance and performance resources: the stored
  row's `recordedBy` is always the requesting user, whatever the client sent,
  and creation is a write, so only staff get that far.
 */
module Attribution {
  import opened Records
  import opened Permissions
  import Attendance
  import Performance

  /** The attendance row stored for a submitted one, attributed to `caller`. */
  function AttributeAttendance(submitted: AttendanceRecord, caller: User): (r: AttendanceRecord)
    ensures r.recordedBy == caller
    ensures r.student == submitted.student
    ensures r.date == submitted.date
    ensures r.status == submitted.status
  {
    submitted.(recordedBy := caller)
  }

  /** The performance row stored for a submitted one, attributed to `caller`. */
  function AttributePerformance(submitted: PerformanceRecord, caller: User): (r: PerformanceRecord)
    ensures r.recordedBy == caller
    ensures r.student == submitted.student
    ensures r.subject == submitted.subject
    ensures r.score == submitted.score
    ensures r.dateRecorded == submitted.dateRecorded
  {
    submitted.(recordedBy := caller)
  }

  /** Two submissions that agree on every field but `recordedBy` are stored alike. */
  lemma AttendanceIgnoresSubmittedRecorder(a: AttendanceRecord, b: AttendanceRecord, caller: User)
    requires a.student == b.student && a.date == b.date && a.status == b.status
    ensures AttributeAttendance(a, caller) == AttributeAttendance(b, caller)
  {
  }

  /** Two submissions that agree on every field but `recordedBy` are stored alike. */
  lemma PerformanceIgnoresSubmittedRecorder(a: PerformanceRecord, b: PerformanceRecord, caller: User)
    requires a.student == b.student && a.subject == b.subject
    requires a.score == b.score && a.dateRecorded == b.dateRecorded
    ensures AttributePerformance(a, caller) == AttributePerformance(b, caller)
  {
  }

  /** A submission already naming the caller is stored unchanged. */
  lemma AttributionKeepsCorrectRecorder(a: AttendanceRecord, p: PerformanceRecord, caller: User)
    ensures AttributeAttendance(a, caller) == a <==> a.recordedBy == caller
    ensures AttributePerformance(p, caller) == p <==> p.recordedBy == caller
  {
  }

  /** The outcome of a create request against a table. */
  datatype Outcome<T> = Created(table: seq<T>) | Denied

  /** POST to the attendance collection: the policy decides, then the attributed row is appended. */
  function CreateAttendance(table: seq<AttendanceRecord>, submitted: AttendanceRecord, caller: User)
    : (r: Outcome<AttendanceRecord>)
    ensures r.Created? <==> caller.isAuthenticated && caller.isStaff
    ensures r.Created? ==>
              && |r.table| == |table| + 1
              && r.table[..|table|] == table
              && r.table[|table|].recordedBy == caller
              && r.table[|table|] == AttributeAttendance(submitted, caller)
  {
    if HasPermission("POST", caller) then Created(table + [AttributeAttendance(submitted, caller)])
    else Denied
  }

  /** POST to the performance collection: the policy decides, then the attributed row is appended. */
  function CreatePerformance(table: seq<PerformanceRecord>, submitted: PerformanceRecord, caller: User)
    : (r: Outcome<PerformanceRecord>)
    ensures r.Created? <==> caller.isAuthenticated && caller.isStaff
    ensures r.Created? ==>
              && |r.table| == |table| + 1
              && r.table[..|table|] == table
              && r.table[|table|].recordedBy == caller
              && r.table[|table|] == AttributePerformance(submitted, caller)
  {
    if HasPermission("POST", caller) then Created(table + [AttributePerformance(submitted, caller)])
    else Denied
  }

  /**
    A created attendance row is reflected in the next summary: one more record,
    and one more in the count of its status when that status is a known one.
   */
  lemma CreatedAttendanceIsCounted(table: seq<AttendanceRecord>, submitted: AttendanceRecord, caller: User)
    requires CreateAttendance(table, submitted, caller).Created?
    ensures var before := Attendance.Summarize(table);
            var after := Attendance.Summarize(CreateAttendance(table, submitted, caller).table);
            && after.totalRecords == before.totalRecords + 1
            && after.presentCount == before.presentCount + (if submitted.status == Attendance.Present then 1 else 0)
            && after.absentCount == before.absentCount + (if submitted.status == Attendance.Absent then 1 else 0)
            && after.lateCount == before.lateCount + (if submitted.status == Attendance.Late then 1 else 0)
  {
    var row := AttributeAttendance(submitted, caller);
    Attendance.CountStatusAppend(table, row, Attendance.Present);
    Attendance.CountStatusAppend(table, row, Attendance.Absent);
    Attendance.CountStatusAppend(table, row, Attendance.Late);
  }

  /**
    A created performance row's subject appears in the next summary's
    breakdown, even when no earlier row had that subject; the subjects already
    reported stay reported.
   */
  lemma CreatedSubjectIsReported(table: seq<PerformanceRecord>, submitted: PerformanceRecord, caller: User)
    requires CreatePerformance(table, submitted, caller).Created?
    ensures var before := Performance.Summarize(table);
            var after := Performance.Summarize(CreatePerformance(table, submitted, caller).table);
            && after.subjectBreakdown.Keys == before.subjectBreakdown.Keys + {submitted.subject}
            && after.totalRecords == before.totalRecords + 1
  {
    Performance.SubjectsAppend(table, AttributePerformance(submitted, caller));
  }
}
