/** The analytics service of `src/integrations/bigquery/studentAnalytics.ts`, built on
    the table engine: the five history tables, the per-student history queries and
    the feature aggregation used by the risk model. */
module StudentAnalytics {
  import opened Common
  import opened MockBigQuery

  const DatasetId := "student_analytics"

  const AttendanceTable := "attendance_history"
  const MarksTable := "marks_history"
  const WellbeingTable := "wellbeing_history"
  const InterventionsTable := "interventions"
  const RiskPredictionsTable := "risk_predictions"

  const AttendanceSchema := [Column("student_id", "STRING"), Column("date", "DATE"),
                             Column("status", "STRING"), Column("subject", "STRING")]
  const MarksSchema := [Column("student_id", "STRING"), Column("subject", "STRING"),
                        Column("score", "FLOAT"), Column("max_score", "FLOAT"),
                        Column("exam_type", "STRING"), Column("date", "DATE")]
  const WellbeingSchema := [Column("student_id", "STRING"), Column("date", "DATE"),
                            Column("mood_score", "INTEGER"), Column("stress_level", "INTEGER"),
                            Column("sleep_hours", "FLOAT"), Column("notes", "STRING")]
  const InterventionsSchema := [Column("student_id", "STRING"), Column("mentor_id", "STRING"),
                                Column("date", "DATE"), Column("type", "STRING"),
                                Column("notes", "STRING"), Column("outcome", "STRING")]
  const RiskPredictionsSchema := [Column("student_id", "STRING"), Column("prediction_date", "TIMESTAMP"),
                                  Column("risk_level", "STRING"), Column("confidence", "FLOAT"),
                                  Column("factors", "STRING"), Column("model_version", "STRING")]

  /** The five tables of the service and the schema each is created with. */
  predicate Initialized(store: Store)
  {
    && HasTable(store, DatasetId, AttendanceTable) && store[DatasetId][AttendanceTable] == Table([], AttendanceSchema)
    && HasTable(store, DatasetId, MarksTable) && store[DatasetId][MarksTable] == Table([], MarksSchema)
    && HasTable(store, DatasetId, WellbeingTable) && store[DatasetId][WellbeingTable] == Table([], WellbeingSchema)
    && HasTable(store, DatasetId, InterventionsTable) && store[DatasetId][InterventionsTable] == Table([], InterventionsSchema)
    && HasTable(store, DatasetId, RiskPredictionsTable) && store[DatasetId][RiskPredictionsTable] == Table([], RiskPredictionsSchema)
  }

  /** `initializeStudentAnalytics`: creates the dataset if needed and (re)creates the
      five tables empty; other datasets and other tables of the dataset are kept. */
  function InitializeStudentAnalytics(store: Store): (r: Store)
    ensures Initialized(r)
    ensures forall d :: d in store && d != DatasetId ==> d in r && r[d] == store[d]
    ensures forall d :: d in r ==> d in store || d == DatasetId
  {
    var s0 := CreateDataset(store, DatasetId);
    var s1 := CreateTable(s0, DatasetId, AttendanceTable, AttendanceSchema);
    var s2 := CreateTable(s1, DatasetId, MarksTable, MarksSchema);
    assert s2[DatasetId][AttendanceTable] == Table([], AttendanceSchema);
    var s3 := CreateTable(s2, DatasetId, WellbeingTable, WellbeingSchema);
    assert s3[DatasetId][AttendanceTable] == Table([], AttendanceSchema);
    assert s3[DatasetId][MarksTable] == Table([], MarksSchema);
    var s4 := CreateTable(s3, DatasetId, InterventionsTable, InterventionsSchema);
    assert s4[DatasetId][AttendanceTable] == Table([], AttendanceSchema);
    assert s4[DatasetId][MarksTable] == Table([], MarksSchema);
    assert s4[DatasetId][WellbeingTable] == Table([], WellbeingSchema);
    CreateTable(s4, DatasetId, RiskPredictionsTable, RiskPredictionsSchema)
  }

  /** Re-initialising discards every previously inserted history row. */
  lemma ReinitialiseDiscardsRows(store: Store, t: string, q: Query)
    requires t in {AttendanceTable, MarksTable, WellbeingTable, InterventionsTable, RiskPredictionsTable}
    ensures QueryTable(InitializeStudentAnalytics(store), DatasetId, t, q) == Success([])
  {
  }

  /** Initialising twice is the same as initialising once. */
  lemma InitializeIdempotent(store: Store)
    ensures InitializeStudentAnalytics(InitializeStudentAnalytics(store)) == InitializeStudentAnalytics(store)
  {
    var a := InitializeStudentAnalytics(store);
    assert CreateDataset(a, DatasetId) == a;
    CreateTableNoop(a, DatasetId, AttendanceTable, AttendanceSchema);
    CreateTableNoop(a, DatasetId, MarksTable, MarksSchema);
    CreateTableNoop(a, DatasetId, WellbeingTable, WellbeingSchema);
    CreateTableNoop(a, DatasetId, InterventionsTable, InterventionsSchema);
    CreateTableNoop(a, DatasetId, RiskPredictionsTable, RiskPredictionsSchema);
  }

  /** Every insert wrapper is `insertRows` on one of the service's tables; after
      initialisation each of them succeeds and counts the rows. */
  lemma InsertAfterInitialize(store: Store, t: string, rows: seq<Row>, clock: nat -> string)
    requires t in {AttendanceTable, MarksTable, WellbeingTable, InterventionsTable, RiskPredictionsTable}
    ensures var r := InsertRows(InitializeStudentAnalytics(store), DatasetId, t, rows, clock);
            r.Success? && r.value.1 == |rows|
  {
  }

  // ---------------------------------------------------------------------------
  // Histories
  // ---------------------------------------------------------------------------

  /** The query of the `get*History` getters: this student's rows, newest first by the
      given date field, at most `limit` of them when a limit is given. */
  function HistoryQuery(studentId: string, dateField: string, limit: Option<int>): Query
  {
    Query(Some(Where("student_id", Eq, Str(studentId))), Some(OrderBy(dateField, Desc)), limit)
  }

  /** `getAttendanceHistory`, `getMarksHistory`, `getWellbeingHistory` (date field
      "date") and `getRiskPredictionHistory` (date field "prediction_date"): all of the
      student's rows without a limit, else the newest min(limit, rows) of them. */
  function GetHistory(store: Store, t: string, studentId: string, dateField: string, limit: Option<int>): (r: Result<seq<Row>>)
    ensures r.Failure? <==> !HasTable(store, DatasetId, t)
    ensures r.Success? ==> forall x :: x in r.value ==> "student_id" in x && x["student_id"] == Str(studentId)
    ensures r.Success? ==> multiset(r.value) <= multiset(store[DatasetId][t].rows)
    ensures r.Success? ==>
              var n := |Filter(store[DatasetId][t].rows, Matching(StudentWhere(studentId)))|;
              (limit.None? || limit.value == 0 ==>
                 multiset(r.value) == multiset(Filter(store[DatasetId][t].rows, Matching(StudentWhere(studentId)))))
              && |r.value| == Kept(n, limit)
    ensures r.Success? ==> r.value == RunQuery(store[DatasetId][t].rows, HistoryQuery(studentId, dateField, limit))
  {
    var q := HistoryQuery(studentId, dateField, limit);
    QueryTable(store, DatasetId, t, q)
  }

  /** A limit at least the number of the student's rows cuts nothing: the history holds
      every one of them. */
  lemma HistoryWithinLimitIsComplete(store: Store, t: string, studentId: string, dateField: string, limit: int)
    requires HasTable(store, DatasetId, t)
    requires limit >= |Filter(store[DatasetId][t].rows, Matching(StudentWhere(studentId)))|
    ensures multiset(GetHistory(store, t, studentId, dateField, Some(limit)).value)
            == multiset(Filter(store[DatasetId][t].rows, Matching(StudentWhere(studentId))))
  {
    var rows := store[DatasetId][t].rows;
    var q := HistoryQuery(studentId, dateField, Some(limit));
    var h := RunQuery(rows, q);
    var sorted := SortRows(ApplyWhere(rows, q.where), q.orderBy.value);
    if limit > 0 {
      assert h <= sorted && |h| == |sorted|;
      assert h == sorted;
    }
  }

  /** Every row holds the field as a string. */
  ghost predicate StringColumn(rows: seq<Row>, field: string)
  {
    forall i :: 0 <= i < |rows| ==> field in rows[i] && rows[i][field].Str?
  }

  /** When every row holds its date as a string, a history lists the newest date
      first: no row's date sorts before a later row's date. */
  lemma HistoryNewestFirst(store: Store, t: string, studentId: string, dateField: string, limit: Option<int>)
    requires HasTable(store, DatasetId, t)
    requires StringColumn(store[DatasetId][t].rows, dateField)
    ensures var h := GetHistory(store, t, studentId, dateField, limit).value;
            StringColumn(h, dateField)
            && forall i, j :: 0 <= i < j < |h| ==> !StrLess(h[i][dateField].s, h[j][dateField].s)
  {
    var rows := store[DatasetId][t].rows;
    var h := GetHistory(store, t, studentId, dateField, limit).value;
    assert h == RunQuery(rows, HistoryQuery(studentId, dateField, limit));
    RunQueryNewestFirst(rows, HistoryQuery(studentId, dateField, limit), dateField);
  }

  lemma RunQueryNewestFirst(rows: seq<Row>, q: Query, field: string)
    requires q.orderBy == Some(OrderBy(field, Desc))
    requires StringColumn(rows, field)
    ensures var h := RunQuery(rows, q);
            StringColumn(h, field)
            && forall i, j :: 0 <= i < j < |h| ==> !StrLess(h[i][field].s, h[j][field].s)
  {
    assert UniformColumn(rows, field, StrKind);
    OrderedQuerySorted(rows, q, StrKind);
    var h := RunQuery(rows, q);
    SubMultisetKeepsStrings(h, rows, field);
    DescendingStrings(h, field);
  }

  lemma SubMultisetKeepsStrings(h: seq<Row>, rows: seq<Row>, field: string)
    requires multiset(h) <= multiset(rows) && StringColumn(rows, field)
    ensures StringColumn(h, field)
  {
    forall i | 0 <= i < |h| ensures field in h[i] && h[i][field].Str? {
      assert h[i] in multiset(rows) by {
        assert h[i] in multiset(h);
      }
      var m :| 0 <= m < |rows| && rows[m] == h[i];
    }
  }

  /** Read back on a column of strings, the descending comparator order says no
      earlier string is smaller than a later one. */
  lemma DescendingStrings(h: seq<Row>, field: string)
    requires StringColumn(h, field) && SortedBy(h, OrderBy(field, Desc))
    ensures forall i, j :: 0 <= i < j < |h| ==> !StrLess(h[i][field].s, h[j][field].s)
  {
    forall i, j | 0 <= i < j < |h|
      ensures !StrLess(h[i][field].s, h[j][field].s)
    {
      var a := Lookup(h[i], field);
      var b := Lookup(h[j], field);
      assert a == Some(h[i][field]) && b == Some(h[j][field]);
      assert Compare(Desc, a, b) <= 0;
      if a == b {
        StrLessIrreflexive(h[i][field].s);
      } else {
        assert !JsLess(a, b);
      }
    }
  }

  // ---------------------------------------------------------------------------
  // Features
  // ---------------------------------------------------------------------------

  /** A field read as a number in JavaScript arithmetic: None stands for a result that
      is not a finite number (a missing field or a string). */
  function Numeric(v: Option<Value>): Option<real>
  {
    match v
    case None => None
    case Some(Null) => Some(0.0)
    case Some(Bool(b)) => Some(if b then 1.0 else 0.0)
    case Some(Num(n)) => Some(n)
    case Some(Str(_)) => None
  }

  /** A mark as a percentage of its maximum; a zero maximum gives no finite number. */
  function MarkRatio(row: Row): (r: Option<real>)
    ensures r.Some? <==> Numeric(Lookup(row, "score")).Some? && Numeric(Lookup(row, "max_score")).Some?
                         && Numeric(Lookup(row, "max_score")).value != 0.0
    ensures r.Some? ==> r.value * Numeric(Lookup(row, "max_score")).value == Numeric(Lookup(row, "score")).value * 100.0
  {
    match (Numeric(Lookup(row, "score")), Numeric(Lookup(row, "max_score")))
    case (Some(s), Some(m)) => if m == 0.0 then None else Some(s / m * 100.0)
    case _ => None
  }

  /** The `reduce` sum, where one non-finite term makes the sum non-finite. */
  function SumOpt(vals: seq<Option<real>>): Option<real>
  {
    if |vals| == 0 then Some(0.0)
    else match (vals[0], SumOpt(vals[1..]))
         case (Some(a), Some(b)) => Some(a + b)
         case _ => None
  }

  function Finite(vals: seq<Option<real>>): bool
  {
    forall i :: 0 <= i < |vals| ==> vals[i].Some?
  }

  function Values(vals: seq<Option<real>>): (r: seq<real>)
    requires Finite(vals)
    ensures |r| == |vals| && forall i :: 0 <= i < |vals| ==> r[i] == vals[i].value
  {
    seq(|vals|, i requires 0 <= i < |vals| => vals[i].value)
  }

  lemma {:induction false} SumOptFinite(vals: seq<Option<real>>)
    ensures SumOpt(vals).Some? <==> Finite(vals)
    ensures Finite(vals) ==> SumOpt(vals) == Some(Sum(Values(vals)))
  {
    if |vals| > 0 {
      SumOptFinite(vals[1..]);
      if Finite(vals) {
        assert Values(vals)[1..] == Values(vals[1..]);
      }
      if !Finite(vals) && vals[0].Some? {
        assert !Finite(vals[1..]) by {
          var i :| 0 <= i < |vals| && vals[i].None?;
          assert vals[1..][i - 1] == vals[i];
        }
      }
    }
  }

  /** The average of the values, 0 when there are none. */
  function Mean(vals: seq<Option<real>>): (m: Option<real>)
    ensures |vals| == 0 ==> m == Some(0.0)
    ensures |vals| > 0 ==> (m.Some? <==> Finite(vals))
    ensures |vals| > 0 && Finite(vals) ==> m == Some(Sum(Values(vals)) / (|vals| as real))
  {
    SumOptFinite(vals);
    if |vals| == 0 then Some(0.0)
    else match SumOpt(vals)
         case Some(s) => Some(s / (|vals| as real))
         case None => None
  }

  /** A mean of values in [lo, hi] lies in [lo, hi]. */
  lemma MeanBounds(vals: seq<Option<real>>, lo: real, hi: real)
    requires |vals| > 0 && lo <= hi
    requires forall i :: 0 <= i < |vals| ==> vals[i].Some? && lo <= vals[i].value <= hi
    ensures Mean(vals).Some? && lo <= Mean(vals).value <= hi
  {
    var v := Values(vals);
    SumBounds(v, lo, hi);
    DivideBounds(Sum(v), |v| as real, lo, hi);
  }

  function FieldValues(rows: seq<Row>, field: string): (r: seq<Option<real>>)
    ensures |r| == |rows| && forall i :: 0 <= i < |rows| ==> r[i] == Numeric(Lookup(rows[i], field))
  {
    seq(|rows|, i requires 0 <= i < |rows| => Numeric(Lookup(rows[i], field)))
  }

  function MarkRatios(rows: seq<Row>): (r: seq<Option<real>>)
    ensures |r| == |rows| && forall i :: 0 <= i < |rows| ==> r[i] == MarkRatio(rows[i])
  {
    seq(|rows|, i requires 0 <= i < |rows| => MarkRatio(rows[i]))
  }

  predicate IsPresent(row: Row)
  {
    Lookup(row, "status") == Some(Str("present"))
  }

  /** The share of present rows as a percentage, 0 without rows; 'late' and
      'absent' rows count as not present. */
  function AttendanceRate(rows: seq<Row>): (a: real)
    ensures |rows| == 0 ==> a == 0.0
    ensures 0.0 <= a <= 100.0
    ensures |rows| > 0 ==> a == (Count(rows, IsPresent) as real) / (|rows| as real) * 100.0
  {
    if |rows| == 0 then 0.0
    else
      var p := Count(rows, IsPresent) as real;
      var n := |rows| as real;
      RateBounds(p, n);
      p / n * 100.0
  }

  /** A share of a positive whole, as a percentage, lies in [0, 100]. */
  lemma RateBounds(p: real, n: real)
    requires n > 0.0 && 0.0 <= p <= n
    ensures 0.0 <= p / n * 100.0 <= 100.0
  {
    DivideBounds(p, n, 0.0, 1.0);
  }

  lemma RateIsHundred(p: real, n: real)
    requires n > 0.0 && 0.0 <= p <= n
    ensures p / n * 100.0 == 100.0 <==> p == n
  {
    assert p / n * n == p;
  }

  /** Full attendance is exactly 100%, and a single non-present row lowers it. */
  lemma AttendanceRateFull(rows: seq<Row>)
    requires |rows| > 0
    ensures AttendanceRate(rows) == 100.0 <==> forall i :: 0 <= i < |rows| ==> IsPresent(rows[i])
  {
    var c := Count(rows, IsPresent);
    if forall i :: 0 <= i < |rows| ==> IsPresent(rows[i]) {
      FilterKeepsAll(rows, IsPresent);
      assert c == |rows|;
    } else {
      var k :| 0 <= k < |rows| && !IsPresent(rows[k]);
      CountBelowLength(rows, IsPresent, k);
      assert c < |rows|;
    }
    RateIsHundred(c as real, |rows| as real);
  }

  datatype Features = Features(
    avgAttendance: real,
    avgMarks: Option<real>,
    avgMood: Option<real>,
    avgStress: Option<real>,
    avgSleep: Option<real>,
    interventionCount: nat)

  /** The aggregation of `calculateStudentFeatures` over the four query results. */
  function Aggregate(attendance: seq<Row>, marks: seq<Row>, wellbeing: seq<Row>, interventions: seq<Row>): (f: Features)
    ensures f.interventionCount == |interventions|
    ensures 0.0 <= f.avgAttendance <= 100.0
    ensures |attendance| > 0 ==> f.avgAttendance == (Count(attendance, IsPresent) as real) / (|attendance| as real) * 100.0
    ensures |marks| == 0 ==> f.avgMarks == Some(0.0)
    ensures |marks| > 0 ==> (f.avgMarks.Some? <==> forall i :: 0 <= i < |marks| ==> MarkRatio(marks[i]).Some?)
    ensures |wellbeing| == 0 ==> f.avgMood == f.avgStress == f.avgSleep == Some(0.0)
    ensures |wellbeing| > 0 ==>
              (f.avgMood.Some? <==> forall i :: 0 <= i < |wellbeing| ==> Numeric(Lookup(wellbeing[i], "mood_score")).Some?)
  {
    Features(
      AttendanceRate(attendance),
      Mean(MarkRatios(marks)),
      Mean(FieldValues(wellbeing, "mood_score")),
      Mean(FieldValues(wellbeing, "stress_level")),
      Mean(FieldValues(wellbeing, "sleep_hours")),
      |interventions|)
  }

  /** The `where` of every per-student query. */
  function StudentWhere(studentId: string): Where
  {
    Where("student_id", Eq, Str(studentId))
  }

  /** The student's rows of one table, as the unordered, unlimited query returns them. */
  function StudentRows(store: Store, t: string, studentId: string): (r: Result<seq<Row>>)
    ensures r.Failure? <==> !HasTable(store, DatasetId, t)
    ensures r.Success? ==> r.value == Filter(store[DatasetId][t].rows, Matching(StudentWhere(studentId)))
  {
    QueryTable(store, DatasetId, t, Query(Some(StudentWhere(studentId)), None, None))
  }

  /** `calculateStudentFeatures`: fails when any of the four tables is missing, with the
      first failing table's message; otherwise aggregates the student's rows. */
  function CalculateStudentFeatures(store: Store, studentId: string): (r: Result<Features>)
    ensures r.Failure? <==> !(HasTable(store, DatasetId, AttendanceTable) && HasTable(store, DatasetId, MarksTable)
                              && HasTable(store, DatasetId, WellbeingTable) && HasTable(store, DatasetId, InterventionsTable))
    ensures r.Success? ==>
              r.value.interventionCount == |Filter(store[DatasetId][InterventionsTable].rows, Matching(StudentWhere(studentId)))|
    ensures r.Success? ==> 0.0 <= r.value.avgAttendance <= 100.0
  {
    var a := StudentRows(store, AttendanceTable, studentId);
    var m := StudentRows(store, MarksTable, studentId);
    var w := StudentRows(store, WellbeingTable, studentId);
    var i := StudentRows(store, InterventionsTable, studentId);
    if a.Failure? then Failure(a.message)
    else if m.Failure? then Failure(m.message)
    else if w.Failure? then Failure(w.message)
    else if i.Failure? then Failure(i.message)
    else Success(Aggregate(a.value, m.value, w.value, i.value))
  }

  /** Each feature is computed from this student's rows alone: the attendance rate of
      the attendance rows, the mean mark percentage, and the means of the three
      well-being fields. */
  lemma FeaturesAreMeans(store: Store, studentId: string)
    requires HasTable(store, DatasetId, AttendanceTable) && HasTable(store, DatasetId, MarksTable)
    requires HasTable(store, DatasetId, WellbeingTable) && HasTable(store, DatasetId, InterventionsTable)
    ensures var f := CalculateStudentFeatures(store, studentId).value;
            var w := Filter(store[DatasetId][WellbeingTable].rows, Matching(StudentWhere(studentId)));
            f.avgAttendance == AttendanceRate(Filter(store[DatasetId][AttendanceTable].rows, Matching(StudentWhere(studentId))))
            && f.avgMarks == Mean(MarkRatios(Filter(store[DatasetId][MarksTable].rows, Matching(StudentWhere(studentId)))))
            && f.avgMood == Mean(FieldValues(w, "mood_score"))
            && f.avgStress == Mean(FieldValues(w, "stress_level"))
            && f.avgSleep == Mean(FieldValues(w, "sleep_hours"))
  {
  }

  /** A student with no rows anywhere has every feature 0. */
  lemma NoRowsGiveZeroFeatures(store: Store, studentId: string)
    ensures CalculateStudentFeatures(InitializeStudentAnalytics(store), studentId)
            == Success(Features(0.0, Some(0.0), Some(0.0), Some(0.0), Some(0.0), 0))
  {
  }

  /** Mood scores recorded on the 1-5 scale average to a value on that scale. */
  lemma MoodAverageOnScale(wellbeing: seq<Row>)
    requires |wellbeing| > 0
    requires forall i :: 0 <= i < |wellbeing| ==>
               "mood_score" in wellbeing[i] && wellbeing[i]["mood_score"].Num?
               && 1.0 <= wellbeing[i]["mood_score"].n <= 5.0
    ensures var m := Mean(FieldValues(wellbeing, "mood_score")); m.Some? && 1.0 <= m.value <= 5.0
  {
    MeanBounds(FieldValues(wellbeing, "mood_score"), 1.0, 5.0);
  }
}
