/** The mood-versus-academics card of `src/components/MoodAcademicsCorrelation.tsx`:
    the Pearson-style `calculateCorrelation` over the last six records of each history,
    and the rules that turn three correlations into at most three insights.
    `Math.sqrt` is a parameter, assumed positive on positive arguments and 0 at 0. */
module Correlation {
  import opened Common
  import StudentStore

  // ---------------------------------------------------------------------------
  // Sums
  // ---------------------------------------------------------------------------

  function SumSq(s: seq<real>): real
  {
    if |s| == 0 then 0.0 else s[0] * s[0] + SumSq(s[1..])
  }

  /** The sum of the products of corresponding elements, starting from 0. */
  function Dot(a: seq<real>, b: seq<real>): real
    requires |a| == |b|
  {
    if |a| == 0 then 0.0 else a[0] * b[0] + Dot(a[1..], b[1..])
  }

  lemma {:induction false} DotSymmetric(a: seq<real>, b: seq<real>)
    requires |a| == |b|
    ensures Dot(a, b) == Dot(b, a)
  {
    if |a| > 0 {
      DotSymmetric(a[1..], b[1..]);
    }
  }

  lemma SquareNonNegative(x: real)
    ensures x * x >= 0.0
  {
  }

  lemma ScaledNonNegative(n: real, e: real)
    requires n > 0.0 && n * e >= 0.0
    ensures e >= 0.0
  {
  }

  /** The spread of a series is never negative: `n·Σx² >= (Σx)²`. */
  lemma {:induction false} SpreadNonNegative(s: seq<real>)
    ensures (|s| as real) * SumSq(s) >= Sum(s) * Sum(s)
  {
    if |s| > 0 {
      var t := s[1..];
      var x := s[0];
      SpreadNonNegative(t);
      var n := |t| as real;
      var S := Sum(t);
      var Q := SumSq(t);
      var e := Q + n * x * x - 2.0 * S * x;
      if n > 0.0 {
        assert n * e - (S - n * x) * (S - n * x) == n * Q - S * S;
        SquareNonNegative(S - n * x);
        ScaledNonNegative(n, e);
      } else {
        assert S == 0.0 && Q == 0.0;
      }
      assert (n + 1.0) * (x * x + Q) - (x + S) * (x + S) == (n * Q - S * S) + e;
    }
  }

  /** The sum of squares less the squared sum over n: n times the variance of the
      series. */
  function Spread(s: seq<real>): (v: real)
    requires |s| > 0
    ensures v >= 0.0
  {
    var n := |s| as real;
    SpreadNonNegative(s);
    DivideBound(Sum(s) * Sum(s), n, SumSq(s));
    SumSq(s) - Sum(s) * Sum(s) / n
  }

  lemma DivideBound(a: real, n: real, q: real)
    requires n > 0.0 && a <= n * q
    ensures a / n <= q
  {
    assert a / n * n == a;
  }

  /** The two hypotheses the model makes of `Math.sqrt`. */
  ghost predicate SqrtLike(sqrt: real -> real)
  {
    sqrt(0.0) == 0.0 && forall x: real :: x > 0.0 ==> sqrt(x) > 0.0
  }

  /** The sum of products less the product of the sums over n: the numerator of
      the Pearson coefficient. */
  function Numerator(a: seq<real>, b: seq<real>): real
    requires |a| == |b| && |a| > 0
  {
    Dot(a, b) - Sum(a) * Sum(b) / (|a| as real)
  }

  lemma ProductNonNegative(x: real, y: real)
    requires x >= 0.0 && y >= 0.0
    ensures x * y >= 0.0
  {
  }

  /** `calculateCorrelation`: 0 for series of different lengths or fewer than two
      points, 0 when the denominator vanishes, otherwise numerator over denominator,
      which then has the numerator's sign. */
  function Correlate(a: seq<real>, b: seq<real>, sqrt: real -> real): (r: real)
    requires SqrtLike(sqrt)
    ensures |a| != |b| || |a| < 2 ==> r == 0.0
    ensures |a| == |b| && |a| >= 2 && Spread(a) * Spread(b) == 0.0 ==> r == 0.0
    ensures |a| == |b| && |a| >= 2 && Spread(a) * Spread(b) != 0.0 ==>
              (r > 0.0 <==> Numerator(a, b) > 0.0) && (r < 0.0 <==> Numerator(a, b) < 0.0)
  {
    if |a| != |b| || |a| < 2 then 0.0
    else
      var p := Spread(a) * Spread(b);
      ProductNonNegative(Spread(a), Spread(b));
      var den := sqrt(p);
      if den == 0.0 then 0.0
      else
        SignOfQuotient(Numerator(a, b), den);
        Numerator(a, b) / den
  }

  lemma SignOfQuotient(num: real, den: real)
    requires den > 0.0
    ensures num / den > 0.0 <==> num > 0.0
    ensures num / den < 0.0 <==> num < 0.0
  {
    assert num / den * den == num;
  }

  /** The correlation does not depend on the order of its arguments. */
  lemma CorrelateSymmetric(a: seq<real>, b: seq<real>, sqrt: real -> real)
    requires SqrtLike(sqrt)
    ensures Correlate(a, b, sqrt) == Correlate(b, a, sqrt)
  {
    if |a| == |b| && |a| >= 2 {
      DotSymmetric(a, b);
      assert Spread(a) * Spread(b) == Spread(b) * Spread(a);
      assert Sum(a) * Sum(b) == Sum(b) * Sum(a);
    }
  }

  lemma {:induction false} ConstantSums(s: seq<real>, c: real)
    requires forall i :: 0 <= i < |s| ==> s[i] == c
    ensures Sum(s) == (|s| as real) * c
    ensures SumSq(s) == (|s| as real) * c * c
  {
    if |s| > 0 {
      ConstantSums(s[1..], c);
    }
  }

  /** A series without variance (every point equal) correlates with nothing: the
      denominator is 0 and the result is 0. */
  lemma ConstantSeriesHasNoCorrelation(a: seq<real>, b: seq<real>, c: real, sqrt: real -> real)
    requires SqrtLike(sqrt)
    requires |a| == |b| && |a| >= 2
    requires forall i :: 0 <= i < |a| ==> a[i] == c
    ensures Correlate(a, b, sqrt) == 0.0
  {
    ConstantSums(a, c);
    var n := |a| as real;
    assert Sum(a) * Sum(a) / n == n * c * c by {
      assert Sum(a) * Sum(a) == (n * c * c) * n;
    }
    assert Spread(a) == 0.0;
  }

  // ---------------------------------------------------------------------------
  // Inputs and insights
  // ---------------------------------------------------------------------------

  /** Slicing from index -6: the last six elements, or all of them when there are fewer. */
  function LastSix<T>(s: seq<T>): (r: seq<T>)
    ensures |r| == if |s| < 6 then |s| else 6
    ensures forall i :: 0 <= i < |r| ==> r[i] == s[|s| - |r| + i]
  {
    if |s| <= 6 then s else s[|s| - 6..]
  }

  function Moods(w: seq<StudentStore.WellBeingRecord>): (r: seq<real>)
    ensures |r| == |w| && forall i :: 0 <= i < |w| ==> r[i] == w[i].mood as real
  {
    seq(|w|, i requires 0 <= i < |w| => w[i].mood as real)
  }

  /** Stress inverted as `5 - stress`, so that calmer weeks score higher. */
  function InvertedStress(w: seq<StudentStore.WellBeingRecord>): (r: seq<real>)
    ensures |r| == |w| && forall i :: 0 <= i < |w| ==> r[i] == (5 - w[i].stress) as real
  {
    seq(|w|, i requires 0 <= i < |w| => (5 - w[i].stress) as real)
  }

  function Sleeps(w: seq<StudentStore.WellBeingRecord>): (r: seq<real>)
    ensures |r| == |w| && forall i :: 0 <= i < |w| ==> r[i] == w[i].sleep as real
  {
    seq(|w|, i requires 0 <= i < |w| => w[i].sleep as real)
  }

  function Percentages(a: seq<StudentStore.AttendanceRecord>): (r: seq<real>)
    ensures |r| == |a| && forall i :: 0 <= i < |a| ==> r[i] == a[i].percentage
  {
    seq(|a|, i requires 0 <= i < |a| => a[i].percentage)
  }

  function Averages(m: seq<StudentStore.MarksRecord>): (r: seq<real>)
    ensures |r| == |m| && forall i :: 0 <= i < |m| ==> r[i] == m[i].average
  {
    seq(|m|, i requires 0 <= i < |m| => m[i].average)
  }

  /** One insight line of the card. */
  datatype Insight =
    | BetterSleepHigherAttendance
    | SleepAffectsAttendance
    | BetterMoodHigherAttendance
    | LowerStressBetterMarks
    | StressImpactsPerformance
    | KeepTracking

  /** Which metric an insight speaks about, in the order the rules run. */
  function Metric(i: Insight): nat
  {
    match i
    case BetterSleepHigherAttendance => 0
    case SleepAffectsAttendance => 0
    case BetterMoodHigherAttendance => 1
    case LowerStressBetterMarks => 2
    case StressImpactsPerformance => 2
    case KeepTracking => 3
  }

  function Text(i: Insight): string
  {
    match i
    case BetterSleepHigherAttendance => "Weeks with better sleep had higher attendance."
    case SleepAffectsAttendance => "Sleep patterns may be affecting your attendance."
    case BetterMoodHigherAttendance => "Better mood correlates with higher attendance."
    case LowerStressBetterMarks => "Lower stress weeks show better marks."
    case StressImpactsPerformance => "High stress may be impacting your performance."
    case KeepTracking => "Keep tracking to see patterns between mood and academics!"
  }

  predicate Positive(i: Insight)
  {
    !(i.SleepAffectsAttendance? || i.StressImpactsPerformance?)
  }

  /** Whether any rule fires for the three correlations. */
  predicate AnyRuleFires(sleepCorr: real, moodCorr: real, stressCorr: real)
  {
    sleepCorr > 0.3 || sleepCorr < -0.3 || moodCorr > 0.3 || stressCorr > 0.3 || stressCorr < -0.3
  }

  /** The insight rules: sleep (either sign), then mood (positive only), then stress
      (either sign); the default line only when nothing fired. */
  function Insights(sleepCorr: real, moodCorr: real, stressCorr: real): (r: seq<Insight>)
    ensures 1 <= |r| <= 3
    ensures KeepTracking in r <==> !AnyRuleFires(sleepCorr, moodCorr, stressCorr)
    ensures !AnyRuleFires(sleepCorr, moodCorr, stressCorr) ==> r == [KeepTracking]
    ensures BetterSleepHigherAttendance in r <==> sleepCorr > 0.3
    ensures SleepAffectsAttendance in r <==> sleepCorr < -0.3
    ensures BetterMoodHigherAttendance in r <==> moodCorr > 0.3
    ensures LowerStressBetterMarks in r <==> stressCorr > 0.3
    ensures StressImpactsPerformance in r <==> stressCorr < -0.3
  {
    var sleep := if sleepCorr > 0.3 then [BetterSleepHigherAttendance]
                 else if sleepCorr < -0.3 then [SleepAffectsAttendance] else [];
    var mood := if moodCorr > 0.3 then [BetterMoodHigherAttendance] else [];
    var stress := if stressCorr > 0.3 then [LowerStressBetterMarks]
                  else if stressCorr < -0.3 then [StressImpactsPerformance] else [];
    var fired := sleep + mood + stress;
    if |fired| == 0 then [KeepTracking] else fired
  }

  /** The lines come in rule order: sleep, then mood, then stress. */
  lemma InsightsOrdered(sleepCorr: real, moodCorr: real, stressCorr: real)
    ensures var r := Insights(sleepCorr, moodCorr, stressCorr);
            forall i, j :: 0 <= i < j < |r| ==> Metric(r[i]) < Metric(r[j])
  {
  }

  /** A strongly negative mood correlation produces no line about mood. */
  lemma NegativeMoodIsSilent(sleepCorr: real, moodCorr: real, stressCorr: real)
    requires moodCorr < -0.3
    ensures forall i :: 0 <= i < |Insights(sleepCorr, moodCorr, stressCorr)| ==>
              Metric(Insights(sleepCorr, moodCorr, stressCorr)[i]) != 1
  {
  }

  /** The whole card: correlations over the last six records, then the rules. */
  function CardInsights(
    wellBeing: seq<StudentStore.WellBeingRecord>,
    attendance: seq<StudentStore.AttendanceRecord>,
    marks: seq<StudentStore.MarksRecord>,
    sqrt: real -> real): (r: seq<Insight>)
    requires SqrtLike(sqrt)
    ensures 1 <= |r| <= 3
  {
    var w := LastSix(wellBeing);
    var att := Percentages(LastSix(attendance));
    var mk := Averages(LastSix(marks));
    var moodAttendance := Correlate(Moods(w), att, sqrt);
    var sleepAttendance := Correlate(Sleeps(w), att, sqrt);
    var stressMarks := Correlate(InvertedStress(w), mk, sqrt);
    Insights(sleepAttendance, moodAttendance, stressMarks)
  }

  /** With fewer than two check-ins every correlation is 0 and only the default line
      is shown. */
  lemma FewCheckInsGiveDefault(
    wellBeing: seq<StudentStore.WellBeingRecord>,
    attendance: seq<StudentStore.AttendanceRecord>,
    marks: seq<StudentStore.MarksRecord>,
    sqrt: real -> real)
    requires SqrtLike(sqrt)
    requires |wellBeing| < 2
    ensures CardInsights(wellBeing, attendance, marks, sqrt) == [KeepTracking]
  {
  }

  /** Series of different lengths (after taking the last six) never correlate. */
  lemma MismatchedHistoriesGiveDefault(
    wellBeing: seq<StudentStore.WellBeingRecord>,
    attendance: seq<StudentStore.AttendanceRecord>,
    marks: seq<StudentStore.MarksRecord>,
    sqrt: real -> real)
    requires SqrtLike(sqrt)
    requires |LastSix(wellBeing)| != |LastSix(attendance)| && |LastSix(wellBeing)| != |LastSix(marks)|
    ensures CardInsights(wellBeing, attendance, marks, sqrt) == [KeepTracking]
  {
  }
}
