/**
  The performance summary action: the mean score over the whole performance
  table, the number of rows, and for every subject that occurs in the table the
  mean score of that subject's rows.
 */
module Performance {
  import opened Records
  import RealArith

  /** The sum of all scores in the table. */
  function SumScores(table: seq<PerformanceRecord>): real
  {
    if |table| == 0 then 0.0 else table[0].score + SumScores(table[1..])
  }

  /** The lowest score of a non-empty table. */
  function MinScore(table: seq<PerformanceRecord>): (m: real)
    requires |table| > 0
    ensures forall i :: 0 <= i < |table| ==> m <= table[i].score
    ensures exists i :: 0 <= i < |table| && table[i].score == m
  {
    if |table| == 1 then table[0].score
    else
      var rest := MinScore(table[1..]);
      assert forall i :: 1 <= i < |table| ==> table[i] == table[1..][i - 1];
      if table[0].score <= rest then table[0].score else rest
  }

  /** The highest score of a non-empty table. */
  function MaxScore(table: seq<PerformanceRecord>): (m: real)
    requires |table| > 0
    ensures forall i :: 0 <= i < |table| ==> table[i].score <= m
    ensures exists i :: 0 <= i < |table| && table[i].score == m
  {
    if |table| == 1 then table[0].score
    else
      var rest := MaxScore(table[1..]);
      assert forall i :: 1 <= i < |table| ==> table[i] == table[1..][i - 1];
      if rest <= table[0].score then table[0].score else rest
  }

  /** Scores confined to [lo, hi] give a sum confined to [n * lo, n * hi]. */
  lemma {:induction false} SumBetweenBounds(table: seq<PerformanceRecord>, lo: real, hi: real)
    requires forall i :: 0 <= i < |table| ==> lo <= table[i].score <= hi
    ensures (|table| as real) * lo <= SumScores(table) <= (|table| as real) * hi
  {
    if |table| > 0 {
      var tail := table[1..];
      assert forall i :: 0 <= i < |tail| ==> tail[i] == table[i + 1];
      SumBetweenBounds(tail, lo, hi);
      var n := |tail| as real;
      assert SumScores(table) == table[0].score + SumScores(tail);
      assert (|table| as real) * lo == n * lo + lo;
      assert (|table| as real) * hi == n * hi + hi;
    }
  }

  /**
    `x` is an average of the rows: scaled by the row count it gives their total
    score. Every `x` qualifies for no rows; for one row or more only the mean does.
   */
  predicate AveragesTo(x: real, rows: seq<PerformanceRecord>)
  {
    x * (|rows| as real) == SumScores(rows)
  }

  /**
    The mean score, defined as 0 for an empty table (where the database
    average is null and the action reports 0).
   */
  function Mean(table: seq<PerformanceRecord>): (m: real)
    ensures |table| == 0 ==> m == 0.0
    ensures AveragesTo(m, table)
  {
    if |table| == 0 then 0.0 else SumScores(table) / (|table| as real)
  }

  /** A non-empty table has exactly one average, its mean. */
  lemma AverageIsUnique(x: real, table: seq<PerformanceRecord>)
    requires |table| > 0 && AveragesTo(x, table)
    ensures x == Mean(table)
  {
    var n := |table| as real;
    assert x * n == Mean(table) * n;
    RealArith.CancelPositive(x, Mean(table), n);
    RealArith.CancelPositive(Mean(table), x, n);
  }

  /** The quotient the mean is computed as lies within any bounds of the scores. */
  lemma QuotientWithinBounds(table: seq<PerformanceRecord>, lo: real, hi: real)
    requires |table| > 0
    requires forall i :: 0 <= i < |table| ==> lo <= table[i].score <= hi
    ensures lo <= SumScores(table) / (|table| as real) <= hi
  {
    SumBetweenBounds(table, lo, hi);
    RealArith.QuotientBetween(SumScores(table), |table| as real, lo, hi);
  }

  /** The mean of a non-empty table lies between its lowest and highest score. */
  lemma MeanBetweenMinAndMax(table: seq<PerformanceRecord>)
    requires |table| > 0
    ensures MinScore(table) <= Mean(table) <= MaxScore(table)
  {
    QuotientWithinBounds(table, MinScore(table), MaxScore(table));
  }

  /** The distinct subjects of the table. */
  function Subjects(table: seq<PerformanceRecord>): (s: set<string>)
    ensures forall x :: x in s <==> exists i :: 0 <= i < |table| && table[i].subject == x
  {
    if |table| == 0 then {}
    else
      var rest := Subjects(table[1..]);
      assert forall i :: 1 <= i < |table| ==> table[i] == table[1..][i - 1];
      {table[0].subject} + rest
  }

  /** Appending a row adds its subject to the distinct subjects and nothing else. */
  lemma SubjectsAppend(table: seq<PerformanceRecord>, row: PerformanceRecord)
    ensures Subjects(table + [row]) == Subjects(table) + {row.subject}
  {
    var grown := table + [row];
    assert grown[|table|] == row;
    assert forall i :: 0 <= i < |table| ==> grown[i] == table[i];
  }

  /** The rows whose subject is `subject`, in table order. */
  function WithSubject(table: seq<PerformanceRecord>, subject: string): (rows: seq<PerformanceRecord>)
    ensures |rows| <= |table|
    ensures forall i :: 0 <= i < |rows| ==> rows[i].subject == subject
    ensures |rows| > 0 <==> subject in Subjects(table)
  {
    if |table| == 0 then []
    else
      var rest := WithSubject(table[1..], subject);
      if table[0].subject == subject then [table[0]] + rest else rest
  }

  /**
    The filter keeps every row of the subject as often as the table holds it
    and drops every other row.
   */
  lemma {:induction false} WithSubjectIsFilter(table: seq<PerformanceRecord>, subject: string, row: PerformanceRecord)
    ensures multiset(WithSubject(table, subject))[row]
            == if row.subject == subject then multiset(table)[row] else 0
  {
    if |table| > 0 {
      assert table == [table[0]] + table[1..];
      WithSubjectIsFilter(table[1..], subject, row);
    }
  }

  /** Every subject of the table mapped to the mean score of its rows. */
  function Breakdown(table: seq<PerformanceRecord>): (b: map<string, real>)
    ensures b.Keys == Subjects(table)
    ensures forall s :: s in b ==> b[s] == Mean(WithSubject(table, s))
    ensures forall s :: s in b ==> AveragesTo(b[s], WithSubject(table, s))
  {
    map s | s in Subjects(table) :: Mean(WithSubject(table, s))
  }

  /** The response of the summary action, before rounding. */
  datatype Summary = Summary(
    overallAverage: real,
    totalRecords: nat,
    subjectBreakdown: map<string, real>)

  /**
    The performance summary over the whole table: the mean of all scores, the
    row count, and the per-subject means keyed by exactly the subjects present.
   */
  function Summarize(table: seq<PerformanceRecord>): (r: Summary)
    ensures |table| == 0 ==> r == Summary(0.0, 0, map[])
    ensures r.totalRecords == |table|
    ensures r.overallAverage == Mean(table)
    ensures AveragesTo(r.overallAverage, table)
    ensures |table| > 0 ==> MinScore(table) <= r.overallAverage <= MaxScore(table)
    ensures r.subjectBreakdown.Keys == Subjects(table)
    ensures forall s :: s in r.subjectBreakdown ==>
              r.subjectBreakdown[s] == Mean(WithSubject(table, s))
    ensures forall s :: s in r.subjectBreakdown ==>
              AveragesTo(r.subjectBreakdown[s], WithSubject(table, s))
  {
    assert |table| > 0 ==> MinScore(table) <= Mean(table) <= MaxScore(table) by {
      if |table| > 0 {
        MeanBetweenMinAndMax(table);
      }
    }
    Summary(Mean(table), |table|, Breakdown(table))
  }

  /**
    A subject present in the table has at least one row, and the mean of its
    rows lies between the lowest and highest score recorded in that subject.
   */
  lemma SubjectMeanBounded(table: seq<PerformanceRecord>, subject: string)
    requires subject in Subjects(table)
    ensures var rows := WithSubject(table, subject);
            |rows| > 0 && MinScore(rows) <= Mean(rows) <= MaxScore(rows)
  {
    MeanBetweenMinAndMax(WithSubject(table, subject));
  }

  /** A small sample table: two Math scores (80, 90) and one Science score (70). */
  predicate IsExample(m1: PerformanceRecord, m2: PerformanceRecord, s1: PerformanceRecord)
  {
    && m1.subject == "Math" && m1.score == 80.0
    && m2.subject == "Math" && m2.score == 90.0
    && s1.subject == "Science" && s1.score == 70.0
  }

  /** How the sample rows group by subject. */
  lemma ExampleGrouping(m1: PerformanceRecord, m2: PerformanceRecord, s1: PerformanceRecord)
    requires IsExample(m1, m2, s1)
    ensures Subjects([m1, m2, s1]) == {"Math", "Science"}
    ensures WithSubject([m1, m2, s1], "Math") == [m1, m2]
    ensures WithSubject([m1, m2, s1], "Science") == [s1]
  {
    assert [m1, m2, s1][1..] == [m2, s1] && [m2, s1][1..] == [s1] && [s1][1..] == [];
    assert Subjects([s1]) == {"Science"};
    assert Subjects([m2, s1]) == {"Math", "Science"};
    assert WithSubject([s1], "Math") == [];
    assert WithSubject([m2, s1], "Math") == [m2];
    assert WithSubject([s1], "Science") == [s1];
    assert WithSubject([m2, s1], "Science") == [s1];
  }

  /** The means the sample rows give, overall and per subject. */
  lemma ExampleMeans(m1: PerformanceRecord, m2: PerformanceRecord, s1: PerformanceRecord)
    requires IsExample(m1, m2, s1)
    ensures Mean([m1, m2, s1]) == 80.0
    ensures Mean([m1, m2]) == 85.0
    ensures Mean([s1]) == 70.0
  {
    assert [m1, m2, s1][1..] == [m2, s1] && [m2, s1][1..] == [s1] && [s1][1..] == [];
    assert [m1, m2][1..] == [m2] && [m2][1..] == [];
    assert SumScores([s1]) == 70.0;
    assert SumScores([m2, s1]) == 160.0;
    assert SumScores([m2]) == 90.0;
  }

  /** The per-subject means of the sample rows. */
  lemma ExampleBreakdown(m1: PerformanceRecord, m2: PerformanceRecord, s1: PerformanceRecord)
    requires IsExample(m1, m2, s1)
    ensures Breakdown([m1, m2, s1]) == map["Math" := 85.0, "Science" := 70.0]
  {
    ExampleGrouping(m1, m2, s1);
    ExampleMeans(m1, m2, s1);
    var b := Breakdown([m1, m2, s1]);
    assert b["Math"] == 85.0 && b["Science"] == 70.0;
  }

  /** The summary of the sample rows: overall mean 80 over three rows, Math 85, Science 70. */
  lemma WorkedExample(m1: PerformanceRecord, m2: PerformanceRecord, s1: PerformanceRecord)
    requires IsExample(m1, m2, s1)
    ensures Summarize([m1, m2, s1]) == Summary(80.0, 3, map["Math" := 85.0, "Science" := 70.0])
  {
    ExampleMeans(m1, m2, s1);
    ExampleBreakdown(m1, m2, s1);
  }
}
