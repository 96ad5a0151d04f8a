/** The academic-records (ERP) client of `src/integrations/erp/client.ts`: parsing of
    "obtained/total" CIE marks into a rounded percentage, the ERP risk level, and the
    pure filters applied to the fetched student list. The HTTP fetch is an oracle. */
module ErpClient {
  import opened Common

  datatype Status = Regular | LowAttendance | Detained

  datatype ErpStudent = ErpStudent(
    id: string,
    rollNo: string,
    name: string,
    branch: string,
    attendance: real,
    cieMarks: string,
    status: Status)

  /** The JavaScript numbers this module produces: an integer value or NaN. */
  datatype Num = Value(v: int) | NaN

  /** `fetchFromERP`: a failed request is reported as an empty list. */
  function FetchStudents(reply: Reply<seq<ErpStudent>>): (r: seq<ErpStudent>)
    ensures reply.Err? ==> r == []
    ensures reply.Ok? ==> r == reply.value
  {
    match reply
    case Ok(v) => v
    case Err(_) => []
  }

  // ---------------------------------------------------------------------------
  // Splitting on '/' and `Number`
  // ---------------------------------------------------------------------------

  /** Splitting on a one-character separator, keeping empty fields. */
  function Split(s: string, c: char): (parts: seq<string>)
    ensures |parts| >= 1
    ensures forall i :: 0 <= i < |parts| ==> c !in parts[i]
    decreases |s|
  {
    match IndexOf(s, c)
    case None => [s]
    case Some(k) => [s[..k]] + Split(s[k + 1..], c)
  }

  /** The pieces joined with the separator between them (`join`). */
  function Join(parts: seq<string>, c: char): string
    requires |parts| >= 1
  {
    if |parts| == 1 then parts[0] else parts[0] + [c] + Join(parts[1..], c)
  }

  /** Splitting loses nothing: joining the pieces with the separator gives back the text. */
  lemma {:induction false} SplitJoin(s: string, c: char)
    ensures Join(Split(s, c), c) == s
    decreases |s|
  {
    match IndexOf(s, c)
    case None =>
    case Some(k) =>
      SplitJoin(s[k + 1..], c);
      assert Split(s, c)[1..] == Split(s[k + 1..], c);
      assert s == s[..k] + [c] + s[k + 1..];
  }

  /** A text without the separator followed by the separator and a rest splits into
      that text and the pieces of the rest. */
  lemma SplitPrefix(a: string, b: string, c: char)
    requires c !in a
    ensures Split(a + [c] + b, c) == [a] + Split(b, c)
  {
    var s := a + [c] + b;
    assert s[|a|] == c;
    assert forall i :: 0 <= i < |a| ==> s[i] == a[i];
    assert IndexOf(s, c) == Some(|a|) by {
      assert s[..|a|] == a;
    }
    assert s[..|a|] == a;
    assert s[|a| + 1..] == b;
  }

  /** The numeric reading of a piece, for the pieces this model reads: a digit
      string (the empty string reads as 0) is its value, anything else, or a missing
      piece, is NaN. */
  function NumberOf(piece: Option<string>): Num
  {
    match piece
    case Some(p) => if AllDigits(p) then Value(DecimalValue(p)) else NaN
    case None => NaN
  }

  /** Half-up rounding of 100·o/t (`Math.round`), on exact arithmetic.
      The first postcondition is `r - 1/2 <= 100·o/t < r + 1/2` multiplied by `2·t`. */
  function RoundPercent(o: nat, t: nat): (r: int)
    requires t > 0
    ensures 2 * t * r - t <= 200 * o < 2 * t * r + t
    ensures o <= t ==> 0 <= r <= 100
  {
    var q := (200 * o + t) / (2 * t);
    RoundPercentBounds(o, t, q);
    q
  }

  lemma RoundPercentBounds(o: nat, t: nat, q: int)
    requires t > 0 && q == (200 * o + t) / (2 * t)
    ensures 2 * t * q - t <= 200 * o < 2 * t * q + t
    ensures o <= t ==> 0 <= q <= 100
  {
    var n := 200 * o + t;
    assert 2 * t * q <= n < 2 * t * q + 2 * t;
    if o <= t {
      assert 2 * t * q <= 201 * t;
    }
  }

  /** `parseCIEMarks`: split on '/', read both numbers, return 0 for a zero total and
      the rounded percentage otherwise; NaN on either side propagates. */
  function ParseCIEMarks(cie: string): (r: Num)
    ensures var parts := Split(cie, '/');
      |parts| >= 2 && AllDigits(parts[1]) && DecimalValue(parts[1]) == 0 ==> r == Value(0)
  {
    var parts := Split(cie, '/');
    var obtained := NumberOf(Some(parts[0]));
    var total := NumberOf(if |parts| >= 2 then Some(parts[1]) else None);
    if total == Value(0) then Value(0)
    else match (obtained, total)
         case (Value(o), Value(t)) => Value(RoundPercent(o, t))
         case _ => NaN
  }

  /** Marks written as numerals `o/t` with `t > 0` parse to `o·100/t` rounded half
      up, which lies in [0, 100] whenever `o <= t`; a zero total parses to 0. */
  lemma ParseCIEMarksOfNumerals(o: nat, t: nat)
    ensures t > 0 ==> ParseCIEMarks(NatToDecimal(o) + "/" + NatToDecimal(t)) == Value(RoundPercent(o, t))
    ensures t == 0 ==> ParseCIEMarks(NatToDecimal(o) + "/" + NatToDecimal(t)) == Value(0)
    ensures 0 <= o <= t && t > 0 ==>
      var r := ParseCIEMarks(NatToDecimal(o) + "/" + NatToDecimal(t)); 0 <= r.v <= 100
  {
    var a := NatToDecimal(o);
    var b := NatToDecimal(t);
    assert '/' !in a;
    assert '/' !in b;
    SplitPrefix(a, b, '/');
    assert a + "/" + b == a + ['/'] + b;
    DecimalRoundTrip(o);
    DecimalRoundTrip(t);
  }

  /** "18/20" is 90%. */
  lemma ParseCIEMarksExample()
    ensures ParseCIEMarks("18/20") == Value(90)
  {
    ParseCIEMarksOfNumerals(18, 20);
    NumeralsOfExample();
    RoundPercentExample();
  }

  lemma NumeralsOfExample()
    ensures NatToDecimal(18) + "/" + NatToDecimal(20) == "18/20"
  {
    assert NatToDecimal(18) == NatToDecimal(1) + [DigitChar(8)];
    assert NatToDecimal(20) == NatToDecimal(2) + [DigitChar(0)];
  }

  lemma RoundPercentExample()
    ensures RoundPercent(18, 20) == 90
  {
    var r := RoundPercent(18, 20);
    assert 40 * r - 20 <= 3600 < 40 * r + 20;
  }

  // ---------------------------------------------------------------------------
  // ERP risk level
  // ---------------------------------------------------------------------------

  /** Whether the marks percentage is below `k`; never for NaN. */
  predicate Below(n: Num, k: int)
  {
    n.Value? && n.v < k
  }

  /** The ERP risk decision from its three inputs. */
  function ErpRisk(status: Status, attendance: real, marks: Num): (l: RiskLevel)
    ensures status == Detained || attendance < 65.0 || Below(marks, 50) ==> l == High
    ensures status == LowAttendance ==> l != Low
    ensures status == Regular && attendance >= 75.0 && marks.Value? && marks.v >= 60 ==> l == Low
    ensures l == Low <==> status == Regular && attendance >= 75.0 && !Below(marks, 60)
  {
    if status.Detained? || attendance < 65.0 || Below(marks, 50) then High
    else if status.LowAttendance? || attendance < 75.0 || Below(marks, 60) then Medium
    else Low
  }

  /** `calculateERPRiskLevel`: the decision on the student's status, attendance and
      parsed CIE marks. */
  function CalculateErpRiskLevel(s: ErpStudent): (l: RiskLevel)
    ensures l == High <==> s.status == Detained || s.attendance < 65.0 || Below(ParseCIEMarks(s.cieMarks), 50)
    ensures l == Low <==> s.status == Regular && s.attendance >= 75.0 && !Below(ParseCIEMarks(s.cieMarks), 60)
  {
    ErpRisk(s.status, s.attendance, ParseCIEMarks(s.cieMarks))
  }

  /** A regular student with full attendance whose marks are written `o/t` is ranked by
      the rounded percentage: below 50% is high risk, from 60% on it is low. */
  lemma ErpRiskOfNumerals(s: ErpStudent, o: nat, t: nat)
    requires t > 0 && s.cieMarks == NatToDecimal(o) + "/" + NatToDecimal(t)
    requires s.status == Regular && s.attendance >= 75.0
    ensures RoundPercent(o, t) < 50 ==> CalculateErpRiskLevel(s) == High
    ensures RoundPercent(o, t) >= 60 ==> CalculateErpRiskLevel(s) == Low
    ensures 50 <= RoundPercent(o, t) < 60 ==> CalculateErpRiskLevel(s) == Medium
  {
    ParseCIEMarksOfNumerals(o, t);
  }

  /** More attendance never raises the ERP risk level. */
  lemma ErpRiskAntitoneInAttendance(status: Status, a1: real, a2: real, marks: Num)
    requires a1 <= a2
    ensures Severity(ErpRisk(status, a2, marks)) <= Severity(ErpRisk(status, a1, marks))
  {
  }

  /** Higher marks never raise the ERP risk level. */
  lemma ErpRiskAntitoneInMarks(status: Status, attendance: real, m1: int, m2: int)
    requires m1 <= m2
    ensures Severity(ErpRisk(status, attendance, Value(m2))) <= Severity(ErpRisk(status, attendance, Value(m1)))
  {
  }

  /** Unreadable marks never raise the risk: a NaN percentage fails every comparison,
      so it ranks like a perfect score. */
  lemma UnreadableMarksCountAsFine(status: Status, attendance: real)
    ensures ErpRisk(status, attendance, NaN) == ErpRisk(status, attendance, Value(100))
  {
  }

  // ---------------------------------------------------------------------------
  // Student list filters
  // ---------------------------------------------------------------------------

  /** `findStudentByRollNo` over the fetched list: the first student whose roll number
      equals the given one, or nothing. */
  function FindStudentByRollNo(students: seq<ErpStudent>, rollNo: string): (r: Option<ErpStudent>)
    ensures r.None? <==> forall i :: 0 <= i < |students| ==> students[i].rollNo != rollNo
    ensures r.Some? ==> exists k :: 0 <= k < |students| && students[k] == r.value
                          && r.value.rollNo == rollNo
                          && forall i :: 0 <= i < k ==> students[i].rollNo != rollNo
  {
    if |students| == 0 then None
    else if students[0].rollNo == rollNo then Some(students[0])
    else
      var r := FindStudentByRollNo(students[1..], rollNo);
      if r.Some? then
        assert exists k :: 0 <= k < |students| && students[k] == r.value
                        && forall i :: 0 <= i < k ==> students[i].rollNo != rollNo by {
          var k :| 0 <= k < |students| - 1 && students[1..][k] == r.value
                   && forall i :: 0 <= i < k ==> students[1..][i].rollNo != rollNo;
          assert students[k + 1] == r.value;
          assert forall i :: 0 <= i < k + 1 ==> students[i].rollNo != rollNo by {
            forall i | 0 <= i < k + 1 ensures students[i].rollNo != rollNo {
              if i > 0 { assert students[i] == students[1..][i - 1]; }
            }
          }
        }
        r
      else r
  }

  predicate IsAtRisk(s: ErpStudent)
  {
    s.status != Regular
  }

  /** `getAtRiskStudents`: exactly the students whose status is not Regular, in order. */
  function GetAtRiskStudents(students: seq<ErpStudent>): (r: seq<ErpStudent>)
    ensures forall s :: s in r <==> s in students && s.status != Regular
  {
    Filter(students, IsAtRisk)
  }

  /** The at-risk list of a concatenation is the concatenation of the at-risk lists,
      so the filter keeps the students in their original order. */
  lemma AtRiskKeepsOrder(a: seq<ErpStudent>, b: seq<ErpStudent>)
    ensures GetAtRiskStudents(a + b) == GetAtRiskStudents(a) + GetAtRiskStudents(b)
  {
    FilterConcat(a, b, IsAtRisk);
  }

  /** `getStudentsByBranch`: the students of one branch, in order. */
  function GetStudentsByBranch(students: seq<ErpStudent>, branch: string): (r: seq<ErpStudent>)
    ensures forall s :: s in r <==> s in students && s.branch == branch
  {
    Filter(students, (s: ErpStudent) => s.branch == branch)
  }
}
