/** The student record store of `src/lib/store.ts`: the composite risk level, the
    risk message, the date-keyed well-being check-in upsert and the assignment toggle
    with its clamped weekly-goal counter. Persistence is left out: every operation
    takes the stored data as a value and returns the data it would save. */
module StudentStore {
  import opened Common

  datatype AttendanceRecord = AttendanceRecord(date: string, percentage: real)
  datatype MarksRecord = MarksRecord(date: string, average: real)
  datatype WellBeingRecord = WellBeingRecord(date: string, mood: int, stress: int, sleep: int, motivation: int)

  /** A submitted check-in: a well-being record without its date. */
  datatype CheckIn = CheckIn(mood: int, stress: int, sleep: int, motivation: int)

  datatype Assignment = Assignment(id: string, title: string, subject: string, dueDate: string, completed: bool)
  datatype Goals = Goals(weeklyTarget: int, completed: int)

  /** The stored aggregate, without the profile (which no modelled operation reads). */
  datatype StudentData = StudentData(
    attendance: seq<AttendanceRecord>,
    marks: seq<MarksRecord>,
    wellBeing: seq<WellBeingRecord>,
    assignments: seq<Assignment>,
    goals: Goals)

  // ---------------------------------------------------------------------------
  // Risk level
  // ---------------------------------------------------------------------------

  /** Latest attendance percentage; a missing record reads as 0. */
  function LatestAttendance(d: StudentData): real
  {
    if |d.attendance| == 0 then 0.0 else d.attendance[|d.attendance| - 1].percentage
  }

  /** Latest marks average; a missing record reads as 0. */
  function LatestMarks(d: StudentData): real
  {
    if |d.marks| == 0 then 0.0 else d.marks[|d.marks| - 1].average
  }

  function AttendancePoints(a: real): nat
  {
    if a < 65.0 then 3 else if a < 75.0 then 2 else if a < 85.0 then 1 else 0
  }

  function MarksPoints(m: real): nat
  {
    if m < 50.0 then 3 else if m < 60.0 then 2 else if m < 70.0 then 1 else 0
  }

  /** Points for one well-being record: the mean of mood, sleep and motivation, and
      the stress level, each on its own ladder. */
  function WellBeingPoints(w: WellBeingRecord): nat
  {
    var avg := (w.mood + w.sleep + w.motivation) as real / 3.0;
    (if avg < 2.0 then 2 else if avg < 3.0 then 1 else 0)
    + (if w.stress > 4 then 2 else if w.stress > 3 then 1 else 0)
  }

  /** Points from the latest well-being record, none when there is no record. */
  function LatestWellBeingPoints(d: StudentData): nat
  {
    if |d.wellBeing| == 0 then 0 else WellBeingPoints(d.wellBeing[|d.wellBeing| - 1])
  }

  function RiskScore(d: StudentData): nat
  {
    AttendancePoints(LatestAttendance(d)) + MarksPoints(LatestMarks(d)) + LatestWellBeingPoints(d)
  }

  /** `calculateRiskLevel`: the weighted score bucketed at 5 and 3. */
  function CalculateRiskLevel(d: StudentData): (l: RiskLevel)
    ensures l == High <==> RiskScore(d) >= 5
    ensures l == Medium <==> 3 <= RiskScore(d) < 5
    ensures l == Low <==> RiskScore(d) < 3
  {
    var score := RiskScore(d);
    if score >= 5 then High else if score >= 3 then Medium else Low
  }

  /** With no attendance and no marks history both latest values read as 0, so the
      two academic ladders alone give 6 points: the student is always high risk. */
  lemma EmptyHistoriesAreHighRisk(d: StudentData)
    requires |d.attendance| == 0 && |d.marks| == 0
    ensures CalculateRiskLevel(d) == High
  {
  }

  /** The well-being part of the score is zero without a record and at most 4. */
  lemma WellBeingContributionBounded(d: StudentData)
    ensures RiskScore(d) - AttendancePoints(LatestAttendance(d)) - MarksPoints(LatestMarks(d)) <= 4
    ensures |d.wellBeing| == 0 ==>
      RiskScore(d) == AttendancePoints(LatestAttendance(d)) + MarksPoints(LatestMarks(d))
  {
  }

  /** The data with the percentage of its latest attendance record replaced. */
  function WithLatestAttendance(d: StudentData, p: real): (r: StudentData)
    requires |d.attendance| > 0
    ensures LatestAttendance(r) == p
    ensures r.marks == d.marks && r.wellBeing == d.wellBeing
  {
    var k := |d.attendance| - 1;
    d.(attendance := d.attendance[k := d.attendance[k].(percentage := p)])
  }

  /** The data with the average of its latest marks record replaced. */
  function WithLatestMarks(d: StudentData, m: real): (r: StudentData)
    requires |d.marks| > 0
    ensures LatestMarks(r) == m
    ensures r.attendance == d.attendance && r.wellBeing == d.wellBeing
  {
    var k := |d.marks| - 1;
    d.(marks := d.marks[k := d.marks[k].(average := m)])
  }

  /** Lowering the latest attendance never lowers the risk level. */
  lemma LowerAttendanceNeverLowersRisk(d: StudentData, p: real)
    requires |d.attendance| > 0 && p <= LatestAttendance(d)
    ensures Severity(CalculateRiskLevel(WithLatestAttendance(d, p))) >= Severity(CalculateRiskLevel(d))
  {
    assert AttendancePoints(p) >= AttendancePoints(LatestAttendance(d));
  }

  /** Lowering the latest marks average never lowers the risk level. */
  lemma LowerMarksNeverLowersRisk(d: StudentData, m: real)
    requires |d.marks| > 0 && m <= LatestMarks(d)
    ensures Severity(CalculateRiskLevel(WithLatestMarks(d, m))) >= Severity(CalculateRiskLevel(d))
  {
    assert MarksPoints(m) >= MarksPoints(LatestMarks(d));
  }

  /** The worked examples: attendance 60 with marks 45 scores 6 (high); attendance 90,
      marks 80 and a calm, rested record scores 0 (low); attendance 60 alone with good
      marks and no well-being record scores 3 (medium). */
  lemma RiskLevelExamples(d: StudentData)
    ensures var e := d.(attendance := [AttendanceRecord("d", 60.0)], marks := [MarksRecord("d", 45.0)]);
      CalculateRiskLevel(e) == High
    ensures var e := d.(attendance := [AttendanceRecord("d", 90.0)], marks := [MarksRecord("d", 80.0)],
                        wellBeing := [WellBeingRecord("d", 5, 1, 5, 5)]);
      CalculateRiskLevel(e) == Low
    ensures var e := d.(attendance := [AttendanceRecord("d", 60.0)], marks := [MarksRecord("d", 90.0)], wellBeing := []);
      CalculateRiskLevel(e) == Medium
  {
  }

  // ---------------------------------------------------------------------------
  // Risk message
  // ---------------------------------------------------------------------------

  // The literals end in an emoji whose UTF-8 bytes the source file stores decoded as
  // Windows-1252 characters; the escapes reproduce those characters.
  const LowMessage: string :=
    "Great progress! Keep up the excellent work and maintain your momentum! \U{F0}\U{178}\U{152}\U{178}"
  const MediumAttendanceMessage: string :=
    "Medium risk: Attendance slightly low in some subjects. You've got this! \U{F0}\U{178}\U{2019}\U{AA}"
  const MediumGeneralMessage: string :=
    "Medium risk: Some areas need attention. Small steps lead to big improvements! \U{F0}\U{178}\U{201C}\U{2C6}"
  const HighMessage: string :=
    "We're here to help! Let's work together to get back on track. Reach out to your mentor. \U{F0}\U{178}\U{2019}\U{2122}"

  /** `getRiskMessage`: fixed texts for low and high; for medium, the attendance text
      when the latest attendance is below 80 and the general text otherwise. */
  function GetRiskMessage(level: RiskLevel, d: StudentData): (msg: string)
    ensures level == Low ==> msg == LowMessage
    ensures level == High ==> msg == HighMessage
    ensures level == Medium ==>
      (msg == MediumAttendanceMessage <==> LatestAttendance(d) < 80.0)
    ensures level == Medium ==>
      (msg == MediumGeneralMessage <==> LatestAttendance(d) >= 80.0)
  {
    match level
    case Low => LowMessage
    case Medium => if LatestAttendance(d) < 80.0 then MediumAttendanceMessage else MediumGeneralMessage
    case High => HighMessage
  }

  /** Reads the risk level back from a message. */
  function MessageLevel(msg: string): Option<RiskLevel>
  {
    if msg == LowMessage then Some(Low)
    else if msg == MediumAttendanceMessage || msg == MediumGeneralMessage then Some(Medium)
    else if msg == HighMessage then Some(High)
    else None
  }

  /** The four messages are distinct, so a message always tells which level produced it. */
  lemma RiskMessageIdentifiesLevel(level: RiskLevel, d: StudentData)
    ensures MessageLevel(GetRiskMessage(level, d)) == Some(level)
  {
    assert LowMessage != MediumAttendanceMessage && LowMessage != MediumGeneralMessage;
    assert HighMessage != MediumAttendanceMessage && HighMessage != MediumGeneralMessage;
    assert HighMessage != LowMessage;
  }

  // ---------------------------------------------------------------------------
  // Well-being check-in: upsert keyed by date
  // ---------------------------------------------------------------------------

  /** The records dated `date`. */
  function DatedOn(date: string): WellBeingRecord -> bool
  {
    (w: WellBeingRecord) => w.date == date
  }

  function Dated(c: CheckIn, date: string): WellBeingRecord
  {
    WellBeingRecord(date, c.mood, c.stress, c.sleep, c.motivation)
  }

  /** `addWellBeingRecord`, with today's date passed in: the first record dated today
      is replaced in place, otherwise the record is appended. */
  function AddWellBeingRecord(d: StudentData, today: string, c: CheckIn): (r: StudentData)
    ensures r.attendance == d.attendance && r.marks == d.marks
    ensures r.assignments == d.assignments && r.goals == d.goals
    ensures (exists i :: 0 <= i < |d.wellBeing| && d.wellBeing[i].date == today) ==>
      && |r.wellBeing| == |d.wellBeing|
      && (exists k :: 0 <= k < |d.wellBeing| && d.wellBeing[k].date == today
                      && (forall i :: 0 <= i < k ==> d.wellBeing[i].date != today)
                      && r.wellBeing[k] == Dated(c, today)
                      && forall i :: 0 <= i < |d.wellBeing| && i != k ==> r.wellBeing[i] == d.wellBeing[i])
    ensures (forall i :: 0 <= i < |d.wellBeing| ==> d.wellBeing[i].date != today) ==>
      r.wellBeing == d.wellBeing + [Dated(c, today)]
  {
    match FindIndex(d.wellBeing, DatedOn(today))
    case Some(k) => d.(wellBeing := d.wellBeing[k := Dated(c, today)])
    case None => d.(wellBeing := d.wellBeing + [Dated(c, today)])
  }

  /** When the first record dated today sits at `k`, the check-in replaces exactly
      that one. */
  lemma AddWellBeingAt(d: StudentData, today: string, c: CheckIn, k: nat)
    requires FindIndex(d.wellBeing, DatedOn(today)) == Some(k)
    ensures AddWellBeingRecord(d, today, c) == d.(wellBeing := d.wellBeing[k := Dated(c, today)])
  {
  }

  /** At most one well-being record per date. */
  ghost predicate UniqueDates(s: seq<WellBeingRecord>)
  {
    forall i, j :: 0 <= i < j < |s| ==> s[i].date != s[j].date
  }

  /** The upsert keeps dates unique, and afterwards exactly one record carries
      today's date: the submitted one. */
  lemma UpsertKeepsDatesUnique(d: StudentData, today: string, c: CheckIn)
    requires UniqueDates(d.wellBeing)
    ensures var w := AddWellBeingRecord(d, today, c).wellBeing;
      && UniqueDates(w)
      && exists k :: 0 <= k < |w| && w[k] == Dated(c, today)
                     && forall i :: 0 <= i < |w| && i != k ==> w[i].date != today
  {
    var w := AddWellBeingRecord(d, today, c).wellBeing;
    match FindIndex(d.wellBeing, DatedOn(today))
    case Some(k) =>
      assert w == d.wellBeing[k := Dated(c, today)];
      assert forall i :: 0 <= i < |w| && i != k ==> w[i].date != today;
    case None =>
      assert w[|w| - 1] == Dated(c, today);
  }

  /** Checking in twice on the same day leaves the history as long as after the first
      check-in, holding the second submission where the first one was. */
  lemma {:induction false} CheckInTwiceSameDay(d: StudentData, today: string, c1: CheckIn, c2: CheckIn)
    ensures var once := AddWellBeingRecord(d, today, c1);
            var twice := AddWellBeingRecord(once, today, c2);
      && |twice.wellBeing| == |once.wellBeing|
      && twice == AddWellBeingRecord(d, today, c2)
  {
    var once := AddWellBeingRecord(d, today, c1);
    match FindIndex(d.wellBeing, DatedOn(today))
    case Some(k) =>
      AddWellBeingAt(d, today, c1, k);
      AddWellBeingAt(d, today, c2, k);
      FindIndexAfterUpdate(d.wellBeing, DatedOn(today), k, Dated(c1, today));
      AddWellBeingAt(once, today, c2, k);
      assert d.wellBeing[k := Dated(c1, today)][k := Dated(c2, today)] == d.wellBeing[k := Dated(c2, today)];
    case None =>
      assert once.wellBeing == d.wellBeing + [Dated(c1, today)];
      assert forall i :: 0 <= i < |d.wellBeing| ==> once.wellBeing[i].date != today;
      assert once.wellBeing[|d.wellBeing|].date == today;
      assert FindIndex(once.wellBeing, DatedOn(today)) == Some(|d.wellBeing|);
      assert (d.wellBeing + [Dated(c1, today)])[|d.wellBeing| := Dated(c2, today)]
          == d.wellBeing + [Dated(c2, today)];
  }

  // ---------------------------------------------------------------------------
  // Assignment toggle with the clamped weekly-goal counter
  // ---------------------------------------------------------------------------

  /** The assignments with id `id`. */
  function WithId(id: string): Assignment -> bool
  {
    (a: Assignment) => a.id == id
  }

  function Min(a: int, b: int): int { if a <= b then a else b }
  function Max(a: int, b: int): int { if a >= b then a else b }

  /** `toggleAssignment`: flips the first assignment with the id and moves the goal
      counter up (capped at the weekly target) or down (floored at zero). */
  function ToggleAssignment(d: StudentData, id: string): (r: StudentData)
    ensures r.attendance == d.attendance && r.marks == d.marks && r.wellBeing == d.wellBeing
    ensures |r.assignments| == |d.assignments|
    ensures r.goals.weeklyTarget == d.goals.weeklyTarget
    ensures (forall i :: 0 <= i < |d.assignments| ==> d.assignments[i].id != id) ==> r == d
    ensures forall k :: 0 <= k < |d.assignments| && d.assignments[k].id == id
                        && (forall i :: 0 <= i < k ==> d.assignments[i].id != id) ==>
      && r.assignments[k] == d.assignments[k].(completed := !d.assignments[k].completed)
      && (forall i :: 0 <= i < |d.assignments| && i != k ==> r.assignments[i] == d.assignments[i])
      && (!d.assignments[k].completed ==>
            r.goals.completed == Min(d.goals.completed + 1, d.goals.weeklyTarget))
      && (d.assignments[k].completed ==>
            r.goals.completed == Max(d.goals.completed - 1, 0))
  {
    match FindIndex(d.assignments, WithId(id))
    case None => d
    case Some(k) =>
      var a := Flip(d.assignments[k]);
      var g := if a.completed then Min(d.goals.completed + 1, d.goals.weeklyTarget)
               else Max(d.goals.completed - 1, 0);
      d.(assignments := d.assignments[k := a], goals := d.goals.(completed := g))
  }

  /** The assignment with its completion flipped. */
  function Flip(a: Assignment): Assignment
  {
    a.(completed := !a.completed)
  }

  /** When the first assignment with the id sits at `k`, the toggle flips exactly
      that one. */
  lemma ToggleAt(d: StudentData, id: string, k: nat)
    requires FindIndex(d.assignments, WithId(id)) == Some(k)
    ensures ToggleAssignment(d, id)
         == d.(assignments := d.assignments[k := Flip(d.assignments[k])],
               goals := d.goals.(completed := if d.assignments[k].completed then Max(d.goals.completed - 1, 0)
                                              else Min(d.goals.completed + 1, d.goals.weeklyTarget)))
  {
  }

  /** The goal counter stays within `[0, weeklyTarget]` once it is there. */
  lemma ToggleKeepsGoalInRange(d: StudentData, id: string)
    requires 0 <= d.goals.completed <= d.goals.weeklyTarget
    ensures var r := ToggleAssignment(d, id);
      0 <= r.goals.completed <= r.goals.weeklyTarget
  {
  }

  /** Toggling the same id twice restores every assignment. */
  lemma ToggleTwiceRestoresAssignments(d: StudentData, id: string)
    ensures ToggleAssignment(ToggleAssignment(d, id), id).assignments == d.assignments
  {
    var once := ToggleAssignment(d, id);
    match FindIndex(d.assignments, WithId(id))
    case None =>
    case Some(k) =>
      var a := d.assignments[k];
      ToggleAt(d, id, k);
      FindIndexAfterUpdate(d.assignments, WithId(id), k, Flip(a));
      ToggleAt(once, id, k);
      assert once.assignments[k := Flip(Flip(a))] == d.assignments;
  }

  /** Toggling the same id twice restores the whole record when neither toggle hits a
      clamp: the first assignment with the id was completed and the counter was above
      zero, or it was open and the counter was below the target. */
  lemma ToggleTwiceRestores(d: StudentData, id: string, k: nat)
    requires k < |d.assignments| && d.assignments[k].id == id
    requires forall i :: 0 <= i < k ==> d.assignments[i].id != id
    requires if d.assignments[k].completed then 0 < d.goals.completed <= d.goals.weeklyTarget
             else 0 <= d.goals.completed < d.goals.weeklyTarget
    ensures ToggleAssignment(ToggleAssignment(d, id), id) == d
  {
    var a := d.assignments[k];
    FindIndexFinds(d.assignments, WithId(id), k);
    ToggleAt(d, id, k);
    var once := ToggleAssignment(d, id);
    FindIndexAfterUpdate(d.assignments, WithId(id), k, Flip(a));
    ToggleAt(once, id, k);
    assert once.assignments[k := Flip(Flip(a))] == d.assignments;
  }
}
