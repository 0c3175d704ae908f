/**
  The attendance summary action: a global aggregate over the whole attendance
  table, counting the three expected statuses and expressing each as a
  percentage of all records.
 */
module Attendance {
  import opened Records
  import RealArith

  const Present: string := "present"
  const Absent: string := "absent"
  const Late: string := "late"

  /** The statuses the summary reports on; the table may hold others. */
  predicate IsKnownStatus(status: string)
  {
    status == Present || status == Absent || status == Late
  }

  /** The status column of the table, row by row. */
  function Statuses(table: seq<AttendanceRecord>): (col: seq<string>)
    ensures |col| == |table|
    ensures forall i :: 0 <= i < |table| ==> col[i] == table[i].status
  {
    seq(|table|, i requires 0 <= i < |table| => table[i].status)
  }

  /** The number of rows whose status equals `status` (a filtered count). */
  function CountStatus(table: seq<AttendanceRecord>, status: string): (n: nat)
    ensures n <= |table|
    ensures n == 0 <==> forall i :: 0 <= i < |table| ==> table[i].status != status
    ensures n == |table| <==> forall i :: 0 <= i < |table| ==> table[i].status == status
  {
    if |table| == 0 then 0
    else (if table[0].status == status then 1 else 0) + CountStatus(table[1..], status)
  }

  /** The count agrees with the multiplicity of `status` in the status column. */
  lemma {:induction false} CountIsMultiplicity(table: seq<AttendanceRecord>, status: string)
    ensures CountStatus(table, status) == multiset(Statuses(table))[status]
  {
    if |table| > 0 {
      assert Statuses(table) == [table[0].status] + Statuses(table[1..]);
      CountIsMultiplicity(table[1..], status);
    }
  }

  /** Appending a row raises exactly the count of that row's status, by one. */
  lemma {:induction false} CountStatusAppend(table: seq<AttendanceRecord>, row: AttendanceRecord, status: string)
    ensures CountStatus(table + [row], status)
            == CountStatus(table, status) + (if row.status == status then 1 else 0)
  {
    if |table| > 0 {
      assert (table + [row])[1..] == table[1..] + [row];
      CountStatusAppend(table[1..], row, status);
    }
  }

  /**
    The three counts never exceed the total together, and they add up to it
    exactly when every row carries one of the three known statuses.
   */
  lemma {:induction false} CountsBoundedByTotal(table: seq<AttendanceRecord>)
    ensures CountStatus(table, Present) + CountStatus(table, Absent) + CountStatus(table, Late)
            <= |table|
    ensures CountStatus(table, Present) + CountStatus(table, Absent) + CountStatus(table, Late)
            == |table|
            <==> forall i :: 0 <= i < |table| ==> IsKnownStatus(table[i].status)
  {
    if |table| > 0 {
      CountsBoundedByTotal(table[1..]);
      var tail := table[1..];
      assert forall i :: 0 <= i < |tail| ==> tail[i] == table[i + 1];
    }
  }

  /** `count` as a percentage of `total`, or 0 for an empty table. */
  function Percent(count: nat, total: nat): (p: real)
    ensures total == 0 ==> p == 0.0
    ensures total > 0 ==> p * (total as real) == (count as real) * 100.0
    ensures 0.0 <= p
    ensures count <= total ==> p <= 100.0
  {
    if total > 0 then (count as real / total as real) * 100.0 else 0.0
  }

  /** Percentages of a shared total add up like their counts do. */
  lemma PercentsAdd(a: nat, b: nat, c: nat, total: nat)
    requires a + b + c <= total
    ensures Percent(a, total) + Percent(b, total) + Percent(c, total) <= 100.0
    ensures total > 0 && a + b + c == total ==>
              Percent(a, total) + Percent(b, total) + Percent(c, total) == 100.0
  {
    if total > 0 {
      RealArith.SharesOfTotal(Percent(a, total), Percent(b, total), Percent(c, total),
                              a as real, b as real, c as real, total as real);
    }
  }

  /** The response of the summary action, before rounding. */
  datatype Summary = Summary(
    totalRecords: nat,
    presentCount: nat,
    absentCount: nat,
    lateCount: nat,
    presentPercent: real,
    absentPercent: real,
    latePercent: real)

  /**
    The summary built from the four counts: each percentage is its count's
    share of the total, and all are 0 when the total is 0. The counts come from
    separate queries, so they are not assumed to fit within the total; the
    range facts hold whenever they do.
   */
  function FromCounts(total: nat, present: nat, absent: nat, late: nat): (r: Summary)
    ensures r.totalRecords == total && r.presentCount == present
    ensures r.absentCount == absent && r.lateCount == late
    ensures total == 0 ==> r.presentPercent == r.absentPercent == r.latePercent == 0.0
    ensures total > 0 ==> r.presentPercent * (total as real) == (present as real) * 100.0
    ensures total > 0 ==> r.absentPercent * (total as real) == (absent as real) * 100.0
    ensures total > 0 ==> r.latePercent * (total as real) == (late as real) * 100.0
    ensures 0.0 <= r.presentPercent && (present <= total ==> r.presentPercent <= 100.0)
    ensures 0.0 <= r.absentPercent && (absent <= total ==> r.absentPercent <= 100.0)
    ensures 0.0 <= r.latePercent && (late <= total ==> r.latePercent <= 100.0)
    ensures present + absent + late <= total ==>
              r.presentPercent + r.absentPercent + r.latePercent <= 100.0
    ensures total > 0 && present + absent + late == total ==>
              r.presentPercent + r.absentPercent + r.latePercent == 100.0
  {
    assert present + absent + late <= total ==>
             Percent(present, total) + Percent(absent, total) + Percent(late, total) <= 100.0
             && (total > 0 && present + absent + late == total ==>
                   Percent(present, total) + Percent(absent, total) + Percent(late, total) == 100.0)
    by {
      if present + absent + late <= total {
        PercentsAdd(present, absent, late, total);
      }
    }
    Summary(total, present, absent, late,
            Percent(present, total), Percent(absent, total), Percent(late, total))
  }

  /**
    The attendance summary over the whole table: the row count, how many rows
    carry each known status, and the percentages `FromCounts` derives.
   */
  function Summarize(table: seq<AttendanceRecord>): (r: Summary)
    ensures r.totalRecords == |table|
    ensures r.presentCount == multiset(Statuses(table))[Present]
    ensures r.absentCount == multiset(Statuses(table))[Absent]
    ensures r.lateCount == multiset(Statuses(table))[Late]
    ensures r.presentCount + r.absentCount + r.lateCount <= r.totalRecords
    ensures |table| == 0 ==> r == Summary(0, 0, 0, 0, 0.0, 0.0, 0.0)
    ensures r == FromCounts(r.totalRecords, r.presentCount, r.absentCount, r.lateCount)
  {
    CountIsMultiplicity(table, Present);
    CountIsMultiplicity(table, Absent);
    CountIsMultiplicity(table, Late);
    CountsBoundedByTotal(table);
    FromCounts(|table|, CountStatus(table, Present), CountStatus(table, Absent),
               CountStatus(table, Late))
  }

  /** When every row has a known status and the table is not empty, the
      three percentages account for all records. */
  lemma PercentsCoverKnownStatuses(table: seq<AttendanceRecord>)
    requires |table| > 0
    requires forall i :: 0 <= i < |table| ==> IsKnownStatus(table[i].status)
    ensures var r := Summarize(table);
            r.presentCount + r.absentCount + r.lateCount == r.totalRecords
            && r.presentPercent + r.absentPercent + r.latePercent == 100.0
  {
    CountsBoundedByTotal(table);
  }
}
