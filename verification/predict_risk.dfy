/** The rule-based fallback of the `predict-risk` edge function
    (`supabase/functions/predict-risk/index.ts`) and the extraction of a JSON object
    from the language model's reply. The model call itself, the HTTP status mapping and
    `JSON.parse` are outside the model; the parser is a parameter. */
module PredictRisk {
  import opened Common

  /** One entry of `studentData.subjects`. */
  datatype SubjectInput = SubjectInput(name: string, attendance: real, marks: real, pendingAssignments: int)

  /** The fields of `studentData` the fallback reads; each may be missing. */
  datatype StudentSummary = StudentSummary(
    overallAttendance: Option<real>,
    averageMarks: Option<real>,
    totalPendingAssignments: Option<int>,
    subjects: Option<seq<SubjectInput>>)

  datatype SubjectRisk = SubjectRisk(subject: string, risk: RiskLevel, reason: string)

  datatype Assessment = Assessment(
    riskLevel: RiskLevel,
    explanation: string,
    recommendations: seq<string>,
    subjectRisks: seq<SubjectRisk>)

  const HighExplanation := "Critical attention needed - multiple academic indicators are concerning."
  const MediumExplanation := "Some areas need attention to prevent falling behind."
  const LowExplanation := "Student is performing well academically."

  const AttendHigh := "Improve attendance immediately - attend all classes this week"
  const MarksHigh := "Schedule extra tutoring sessions for weak subjects"
  const PendingHigh := "Create a priority list and complete assignments one by one"
  const AttendMedium := "Aim to attend 2-3 more classes this month"
  const MarksMedium := "Review study methods and seek help in challenging subjects"
  const PendingMedium := "Set deadlines to complete pending assignments this week"
  const KeepUp := "Keep up the good work!"
  const HelpPeers := "Consider helping peers who may need support"

  const LowAttendanceReason := "Low attendance"
  const LowMarksReason := "Low marks"
  const GoodReason := "Good performance"

  /** The falsy default for a number: a missing value or 0 gives the default. */
  function OrDefault(x: Option<real>, d: real): (r: real)
    ensures x.Some? && x.value != 0.0 ==> r == x.value
    ensures x.None? || x.value == 0.0 ==> r == d
  {
    if x.None? || x.value == 0.0 then d else x.value
  }

  function IntOrDefault(x: Option<int>, d: int): (r: int)
    ensures x.Some? && x.value != 0 ==> r == x.value
    ensures x.None? || x.value == 0 ==> r == d
  {
    if x.None? || x.value == 0 then d else x.value
  }

  /** One conditional `push`: the singleton of `x` when `c` holds, else nothing. */
  function When(c: bool, x: string): seq<string>
  {
    if c then [x] else []
  }

  function Indicator(c: bool): nat
  {
    if c then 1 else 0
  }

  /** The level the fallback assigns to (defaulted) attendance, marks and pending count. */
  function FallbackLevel(attendance: real, marks: real, pending: int): (l: RiskLevel)
    ensures l == High <==> attendance < 60.0 || marks < 40.0 || pending > 5
    ensures l == Medium <==> !(attendance < 60.0 || marks < 40.0 || pending > 5)
                             && (attendance < 75.0 || marks < 60.0 || pending > 2)
    ensures l == Low <==> attendance >= 75.0 && marks >= 60.0 && pending <= 2
  {
    if attendance < 60.0 || marks < 40.0 || pending > 5 then High
    else if attendance < 75.0 || marks < 60.0 || pending > 2 then Medium
    else Low
  }

  /** The recommendations of the fallback: one per triggered condition of the branch
      taken, in the order attendance, marks, pending; two fixed ones for a low risk. */
  function FallbackRecommendations(attendance: real, marks: real, pending: int): (recs: seq<string>)
    ensures |recs| >= 1
    ensures FallbackLevel(attendance, marks, pending) == High ==>
      |recs| == Indicator(attendance < 60.0) + Indicator(marks < 40.0) + Indicator(pending > 5)
      && (AttendHigh in recs <==> attendance < 60.0)
      && (MarksHigh in recs <==> marks < 40.0)
      && (PendingHigh in recs <==> pending > 5)
      && (AttendHigh in recs ==> recs[0] == AttendHigh)
      && (PendingHigh in recs ==> recs[|recs| - 1] == PendingHigh)
    ensures FallbackLevel(attendance, marks, pending) == Medium ==>
      |recs| == Indicator(attendance < 75.0) + Indicator(marks < 60.0) + Indicator(pending > 2)
      && (AttendMedium in recs <==> attendance < 75.0)
      && (MarksMedium in recs <==> marks < 60.0)
      && (PendingMedium in recs <==> pending > 2)
      && (AttendMedium in recs ==> recs[0] == AttendMedium)
      && (PendingMedium in recs ==> recs[|recs| - 1] == PendingMedium)
    ensures FallbackLevel(attendance, marks, pending) == Low ==> recs == [KeepUp, HelpPeers]
  {
    if attendance < 60.0 || marks < 40.0 || pending > 5 then
      When(attendance < 60.0, AttendHigh) + When(marks < 40.0, MarksHigh) + When(pending > 5, PendingHigh)
    else if attendance < 75.0 || marks < 60.0 || pending > 2 then
      When(attendance < 75.0, AttendMedium) + When(marks < 60.0, MarksMedium) + When(pending > 2, PendingMedium)
    else
      [KeepUp, HelpPeers]
  }

  /** The per-subject entry: the same attendance and marks thresholds as the overall
      level, without the pending count; the reason names attendance before marks. */
  function SubjectRiskOf(s: SubjectInput): (r: SubjectRisk)
    ensures r.subject == s.name
    ensures r.risk == FallbackLevel(s.attendance, s.marks, 0)
    ensures r.reason == LowAttendanceReason <==> s.attendance < 75.0
    ensures r.reason == LowMarksReason <==> s.attendance >= 75.0 && s.marks < 60.0
    ensures r.reason == GoodReason <==> r.risk == Low
  {
    var risk := if s.attendance < 60.0 || s.marks < 40.0 then High
                else if s.attendance < 75.0 || s.marks < 60.0 then Medium
                else Low;
    var reason := if s.attendance < 75.0 then LowAttendanceReason
                  else if s.marks < 60.0 then LowMarksReason
                  else GoodReason;
    SubjectRisk(s.name, risk, reason)
  }

  /** The per-subject risks, one per subject, in subject order. */
  function MapSubjectRisks(subjects: seq<SubjectInput>): (r: seq<SubjectRisk>)
    ensures |r| == |subjects|
    ensures forall i :: 0 <= i < |subjects| ==> r[i] == SubjectRiskOf(subjects[i])
  {
    if |subjects| == 0 then [] else [SubjectRiskOf(subjects[0])] + MapSubjectRisks(subjects[1..])
  }

  /** `calculateFallbackRisk`: the inputs default by falsiness (attendance 75, marks
      60, pending 0), then the level ladder, its recommendations and the subject list. */
  function CalculateFallbackRisk(d: StudentSummary): (a: Assessment)
    ensures var att := OrDefault(d.overallAttendance, 75.0);
            var marks := OrDefault(d.averageMarks, 60.0);
            var pending := IntOrDefault(d.totalPendingAssignments, 0);
            a.riskLevel == FallbackLevel(att, marks, pending)
            && a.recommendations == FallbackRecommendations(att, marks, pending)
    ensures a.riskLevel == High <==> a.explanation == HighExplanation
    ensures a.riskLevel == Medium <==> a.explanation == MediumExplanation
    ensures a.riskLevel == Low <==> a.explanation == LowExplanation
    ensures d.subjects.None? ==> a.subjectRisks == []
    ensures d.subjects.Some? ==>
              |a.subjectRisks| == |d.subjects.value|
              && forall i :: 0 <= i < |d.subjects.value| ==> a.subjectRisks[i] == SubjectRiskOf(d.subjects.value[i])
  {
    var att := OrDefault(d.overallAttendance, 75.0);
    var marks := OrDefault(d.averageMarks, 60.0);
    var pending := IntOrDefault(d.totalPendingAssignments, 0);
    var level := FallbackLevel(att, marks, pending);
    var explanation := match level
      case High => HighExplanation
      case Medium => MediumExplanation
      case Low => LowExplanation;
    assert HighExplanation != MediumExplanation && HighExplanation != LowExplanation
      && MediumExplanation != LowExplanation;
    var subjects := if d.subjects.Some? then MapSubjectRisks(d.subjects.value) else [];
    Assessment(level, explanation, FallbackRecommendations(att, marks, pending), subjects)
  }

  /** A zero or missing overall attendance is read as 75%, so it is never penalised:
      the assessment equals the one for an explicit 75%. */
  lemma ZeroAttendanceIsNotPenalised(d: StudentSummary)
    requires d.overallAttendance.None? || d.overallAttendance == Some(0.0)
    ensures CalculateFallbackRisk(d) == CalculateFallbackRisk(d.(overallAttendance := Some(75.0)))
  {
  }

  /** The boundary case 75% attendance, 60% marks, 2 pending is a low risk. */
  lemma BoundaryIsLow(subjects: Option<seq<SubjectInput>>)
    ensures CalculateFallbackRisk(StudentSummary(Some(75.0), Some(60.0), Some(2), subjects)).riskLevel == Low
  {
  }

  /** Every assessment carries at least one recommendation. */
  lemma RecommendationsNeverEmpty(d: StudentSummary)
    ensures |CalculateFallbackRisk(d).recommendations| >= 1
  {
  }

  /** The per-subject risk ignores the subject's pending assignments. */
  lemma SubjectRiskIgnoresPending(s: SubjectInput, p: int)
    ensures SubjectRiskOf(s.(pendingAssignments := p)) == SubjectRiskOf(s)
  {
  }

  /** The subject list keeps the input order: the risks of a concatenation are the
      concatenation of the risks. */
  lemma {:induction false} SubjectRisksKeepOrder(a: seq<SubjectInput>, b: seq<SubjectInput>)
    ensures MapSubjectRisks(a + b) == MapSubjectRisks(a) + MapSubjectRisks(b)
  {
    if |a| == 0 {
      assert a + b == b;
    } else {
      assert (a + b)[1..] == a[1..] + b;
      SubjectRisksKeepOrder(a[1..], b);
    }
  }

  // ---------------------------------------------------------------------------
  // Extraction of the JSON object from the model's reply
  // ---------------------------------------------------------------------------

  /** The greedy brace match of the model's reply: the span from the first '{' to
      the last '}' after it, if there is such a '}'. */
  function ExtractJsonSpan(content: string): (r: Option<string>)
    ensures r.Some? <==> exists i, j :: 0 <= i < j < |content| && content[i] == '{' && content[j] == '}'
    ensures r.Some? ==> exists i, j ::
      0 <= i < j < |content| && r.value == content[i..j + 1]
      && content[i] == '{' && '{' !in content[..i]
      && content[j] == '}' && '}' !in content[j + 1..]
  {
    match IndexOf(content, '{')
    case None => None
    case Some(i) =>
      match LastIndexOf(content, '}')
      case None => None
      case Some(j) =>
        if j <= i then
          assert forall a, b :: 0 <= a < b < |content| && content[a] == '{' ==> content[b] != '}' by {
            forall a, b | 0 <= a < b < |content| && content[a] == '{'
              ensures content[b] != '}'
            {
              if b > j { assert content[j + 1..][b - j - 1] == content[b]; }
            }
          }
          None
        else Some(content[i..j + 1])
  }

  /** Where the returned assessment comes from: the model's parsed JSON, or the rules. */
  datatype Outcome<J> = FromModel(json: J) | FromRules(assessment: Assessment)

  /** The inner `try` of the handler: a missing reply text, a reply without a braced
      span, or a span that does not parse all fall back to the rule-based assessment.
      `parse` stands for `JSON.parse` (None when it throws). */
  function ResolveAssessment<J>(content: Option<string>, parse: string -> Option<J>, d: StudentSummary): (o: Outcome<J>)
    ensures o.FromModel? <==>
      content.Some? && ExtractJsonSpan(content.value).Some? && parse(ExtractJsonSpan(content.value).value).Some?
    ensures o.FromModel? ==> o.json == parse(ExtractJsonSpan(content.value).value).value
    ensures o.FromRules? ==> o.assessment == CalculateFallbackRisk(d)
  {
    match content
    case None => FromRules(CalculateFallbackRisk(d))
    case Some(text) =>
      match ExtractJsonSpan(text)
      case None => FromRules(CalculateFallbackRisk(d))
      case Some(span) =>
        match parse(span)
        case Some(j) => FromModel(j)
        case None => FromRules(CalculateFallbackRisk(d))
  }

  /** Text around the object does not matter: a reply that wraps a braced object
      (nested braces included) in prose without braces yields exactly that object's
      text. */
  lemma ExtractIgnoresSurroundingProse(pre: string, body: string, post: string)
    requires '{' !in pre && '}' !in post
    ensures ExtractJsonSpan(pre + "{" + body + "}" + post) == Some("{" + body + "}")
  {
    var c := pre + "{" + body + "}" + post;
    var i := |pre|;
    var j := |pre| + 1 + |body|;
    assert c[..i] == pre;
    assert c[j + 1..] == post;
    assert c[i..j + 1] == "{" + body + "}";
    IndexOfIsFirst(c, '{', i);
    LastIndexOfIsLast(c, '}', j);
  }
}
