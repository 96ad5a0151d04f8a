/** Tip selection of `src/components/WellBeingTips.tsx`: each check-in answer outside
    its comfortable range contributes one tip, in a fixed order; with no concern the
    encouraging tip is shown; at most three tips are kept. */
module WellBeingTips {
  import StudentStore

  datatype Tip = QuickBreathing | SleepHygiene | Pomodoro | SelfCare | DoingGreat

  function Title(t: Tip): string
  {
    match t
    case QuickBreathing => "Quick Breathing"
    case SleepHygiene => "Sleep Hygiene"
    case Pomodoro => "Pomodoro Technique"
    case SelfCare => "Self-Care Moment"
    case DoingGreat => "You're Doing Great!"
  }

  /** Position of a tip in the order the rules push them. */
  function Order(t: Tip): nat
  {
    match t
    case QuickBreathing => 0
    case SleepHygiene => 1
    case Pomodoro => 2
    case SelfCare => 3
    case DoingGreat => 4
  }

  /** The four concerns, each a strict comparison with 3. */
  predicate HighStress(c: StudentStore.CheckIn) { c.stress > 3 }
  predicate PoorSleep(c: StudentStore.CheckIn) { c.sleep < 3 }
  predicate LowMotivation(c: StudentStore.CheckIn) { c.motivation < 3 }
  predicate LowMood(c: StudentStore.CheckIn) { c.mood < 3 }

  predicate AnyConcern(c: StudentStore.CheckIn)
  {
    HighStress(c) || PoorSleep(c) || LowMotivation(c) || LowMood(c)
  }

  /** The tips pushed before the default and the cut: one per concern, in the order
      stress, sleep, motivation, mood. */
  function ConcernTips(c: StudentStore.CheckIn): (t: seq<Tip>)
    ensures |t| <= 4
    ensures QuickBreathing in t <==> HighStress(c)
    ensures SleepHygiene in t <==> PoorSleep(c)
    ensures Pomodoro in t <==> LowMotivation(c)
    ensures SelfCare in t <==> LowMood(c)
    ensures DoingGreat !in t
    ensures |t| == 0 <==> !AnyConcern(c)
  {
    (if HighStress(c) then [QuickBreathing] else [])
    + (if PoorSleep(c) then [SleepHygiene] else [])
    + (if LowMotivation(c) then [Pomodoro] else [])
    + (if LowMood(c) then [SelfCare] else [])
  }

  /** The concern tips come in the fixed order, the stress tip first. */
  lemma ConcernTipsOrdered(c: StudentStore.CheckIn)
    ensures var t := ConcernTips(c);
            (forall i, j :: 0 <= i < j < |t| ==> Order(t[i]) < Order(t[j]))
            && (HighStress(c) ==> t[0] == QuickBreathing)
  {
  }

  /** All four tips are present exactly when every concern is, and then in order. */
  lemma ConcernTipsAllFour(c: StudentStore.CheckIn)
    ensures var t := ConcernTips(c);
            (|t| == 4 <==> HighStress(c) && PoorSleep(c) && LowMotivation(c) && LowMood(c))
            && (|t| == 4 ==> t == [QuickBreathing, SleepHygiene, Pomodoro, SelfCare])
  {
  }

  /** `getTipsForWellBeing`. */
  function GetTipsForWellBeing(c: StudentStore.CheckIn): (r: seq<Tip>)
    ensures 1 <= |r| <= 3
    ensures forall i, j :: 0 <= i < j < |r| ==> Order(r[i]) < Order(r[j])
    ensures QuickBreathing in r <==> HighStress(c)
    ensures HighStress(c) ==> r[0] == QuickBreathing
    ensures SleepHygiene in r <==> PoorSleep(c)
    ensures Pomodoro in r <==> LowMotivation(c)
    ensures SelfCare in r <==> LowMood(c) && !(HighStress(c) && PoorSleep(c) && LowMotivation(c))
    ensures DoingGreat in r <==> !AnyConcern(c)
    ensures !AnyConcern(c) ==> r == [DoingGreat]
  {
    var tips := ConcernTips(c);
    ConcernTipsOrdered(c);
    ConcernTipsAllFour(c);
    if |tips| == 0 then [DoingGreat]
    else if |tips| <= 3 then tips
    else tips[..3]
  }

  /** The thresholds are strict: a check-in answering 3 everywhere gets only the
      encouraging tip. */
  lemma MiddleAnswersAreFine()
    ensures GetTipsForWellBeing(StudentStore.CheckIn(3, 3, 3, 3)) == [DoingGreat]
  {
  }

  /** When all four concerns are present, the self-care tip is the one cut off. */
  lemma AllConcernsDropSelfCare(c: StudentStore.CheckIn)
    requires HighStress(c) && PoorSleep(c) && LowMotivation(c) && LowMood(c)
    ensures GetTipsForWellBeing(c) == [QuickBreathing, SleepHygiene, Pomodoro]
  {
  }
}
