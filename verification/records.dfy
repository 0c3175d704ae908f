/**
  The persisted entities of the school records tracker, as immutable values.

  The relational store is replaced by plain sequences of records: a table is a
  `seq` of rows and a query is a function over it. Foreign keys to a student are
  the student's id; the recording user is the user value itself, as the web
  framework stores the requesting user object on the row.
 */
module Records {

  /** A calendar date; only stored and copied, never computed with. */
  datatype Date = Date(year: int, month: nat, day: nat)

  /** The framework's account, reduced to what the permission policy reads. */
  datatype User = User(id: nat, isAuthenticated: bool, isStaff: bool)

  /** A student; admission numbers are meant to be unique, which nothing enforces. */
  datatype Student = Student(
    id: nat,
    name: string,
    className: string,
    admissionNumber: string,
    enrollmentDate: Date)

  /** One attendance entry. The status is free text: no closed set is enforced. */
  datatype AttendanceRecord = AttendanceRecord(
    student: nat,
    date: Date,
    status: string,
    recordedBy: User)

  /** One score a student obtained in a subject (free-text label). */
  datatype PerformanceRecord = PerformanceRecord(
    student: nat,
    subject: string,
    score: real,
    dateRecorded: Date,
    recordedBy: User)
}
