/** The study timer of `src/components/FocusMode.tsx` as a state machine. Each user
    action or interval firing is one event; after every event the component's effect
    runs, which completes a running session whose time is up. Completing a session
    records it (the call to `addFocusSession`, whose behaviour is not part of this
    model, is kept as a log entry). */
module FocusMode {
  import opened Common

  /** The offered session lengths, in minutes. */
  const Durations: seq<nat> := [25, 40, 60]

  datatype Session = Session(subject: string, minutes: nat)

  datatype Timer = Timer(
    subject: string,
    duration: nat,
    active: bool,
    paused: bool,
    timeLeft: int,
    completed: bool,
    sessions: seq<Session>)

  datatype Event = Start | PauseResume | Reset | Tick | ChooseDuration(minutes: nat) | ChooseSubject(code: string)

  /** The three views: choosing a session, the running timer, the completion screen. */
  predicate Idle(t: Timer) { !t.active && !t.completed }
  predicate Running(t: Timer) { t.active && !t.completed }

  /** The state every reachable timer satisfies between events. */
  ghost predicate Valid(t: Timer)
  {
    t.duration in Durations
    && 0 <= t.timeLeft <= t.duration * 60
    && !(t.active && t.completed)
    && (t.active ==> t.timeLeft > 0)
    && (Idle(t) ==> t.timeLeft == t.duration * 60 && !t.paused)
  }

  /** The first render: the first subject's code (or ""), 25 minutes, 1500 seconds. */
  function Initial(codes: seq<string>): (t: Timer)
    ensures Valid(t) && Idle(t)
    ensures t.duration == 25 && t.timeLeft == 1500 && !t.paused && t.sessions == []
    ensures t.subject == (if |codes| > 0 then codes[0] else "")
  {
    Timer(if |codes| > 0 then codes[0] else "", 25, false, false, 25 * 60, false, [])
  }

  /** `handleComplete`. */
  function Complete(t: Timer): Timer
  {
    t.(active := false, completed := true, sessions := t.sessions + [Session(t.subject, t.duration)])
  }

  /** The effect after a render: an active timer at zero completes, paused or not. */
  function Settle(t: Timer): Timer
  {
    if t.active && t.timeLeft == 0 then Complete(t) else t
  }

  /** The state change of one event, before the effect. An event whose control is not
      on screen changes nothing. */
  function Apply(t: Timer, e: Event): Timer
  {
    match e
    case Start => if Idle(t) then t.(timeLeft := t.duration * 60, active := true, paused := false, completed := false) else t
    case PauseResume => if Running(t) then t.(paused := !t.paused) else t
    case Reset => if !Idle(t) then t.(active := false, paused := false, timeLeft := t.duration * 60, completed := false) else t
    case Tick => if t.active && !t.paused && t.timeLeft > 0 then t.(timeLeft := t.timeLeft - 1) else t
    case ChooseDuration(m) => if Idle(t) && m in Durations then t.(duration := m, timeLeft := m * 60) else t
    case ChooseSubject(c) => if Idle(t) then t.(subject := c) else t
  }

  /** One event followed by the effect. Valid states stay valid, at most one session
      is recorded, and one is recorded exactly when a running timer completes. */
  function Step(t: Timer, e: Event): (r: Timer)
    requires Valid(t)
    ensures Valid(r)
    ensures r.sessions == t.sessions || r.sessions == t.sessions + [Session(t.subject, t.duration)]
    ensures r.sessions != t.sessions <==> t.active && !r.active && r.completed
    ensures r.sessions != t.sessions <==> e == Tick && t.active && !t.paused && t.timeLeft == 1
  {
    Settle(Apply(t, e))
  }

  /** Starting from the chooser fills the timer with the chosen duration. */
  lemma StartFillsTimer(t: Timer)
    requires Valid(t) && Idle(t)
    ensures var r := Step(t, Start);
            r.active && !r.paused && !r.completed && r.timeLeft == t.duration * 60
            && r.duration == t.duration && r.sessions == t.sessions
  {
  }

  /** A tick of a running, unpaused timer takes one second off; it never goes below 0. */
  lemma TickCountsDown(t: Timer)
    requires Valid(t) && t.active && !t.paused && t.timeLeft > 1
    ensures Step(t, Tick) == t.(timeLeft := t.timeLeft - 1)
  {
  }

  /** A paused timer ignores ticks. */
  lemma PausedTimerHolds(t: Timer)
    requires Valid(t) && t.paused
    ensures Step(t, Tick) == t
  {
  }

  /** Pause/resume changes only the paused flag, and doing it twice changes nothing. */
  lemma PauseResumeToggles(t: Timer)
    requires Valid(t) && Running(t)
    ensures Step(t, PauseResume) == t.(paused := !t.paused)
    ensures Step(Step(t, PauseResume), PauseResume) == t
  {
  }

  /** Reset from the running or completed view returns to the chooser with a full
      timer and keeps the recorded sessions. */
  lemma ResetRestores(t: Timer)
    requires Valid(t) && !Idle(t)
    ensures var r := Step(t, Reset);
            Idle(r) && !r.paused && r.timeLeft == t.duration * 60 && r.sessions == t.sessions
            && r.duration == t.duration && r.subject == t.subject
  {
  }

  /** Choosing an offered duration in the chooser sets both the duration and the time
      left; in the running or completed view the choice is not on screen. */
  lemma ChooseDurationSetsTime(t: Timer, m: nat)
    requires Valid(t)
    ensures Idle(t) && m in Durations ==> Step(t, ChooseDuration(m)) == t.(duration := m, timeLeft := m * 60)
    ensures !Idle(t) ==> Step(t, ChooseDuration(m)) == t
  {
  }

  /** The state after `n` ticks. */
  function Ticks(t: Timer, n: nat): (r: Timer)
    requires Valid(t)
    ensures Valid(r)
    decreases n
  {
    if n == 0 then t else Ticks(Step(t, Tick), n - 1)
  }

  /** An unpaused running session completes after exactly `timeLeft` ticks and is
      recorded once, under the subject and duration it was started with. */
  lemma {:induction false} RunToCompletion(t: Timer)
    requires Valid(t) && t.active && !t.paused
    ensures var r := Ticks(t, t.timeLeft);
            r.completed && !r.active && r.sessions == t.sessions + [Session(t.subject, t.duration)]
    decreases t.timeLeft
  {
    if t.timeLeft > 1 {
      TickCountsDown(t);
      RunToCompletion(Step(t, Tick));
    }
  }

  /** A full session: start from the chooser, then `duration`·60 ticks. */
  lemma StartedSessionIsRecorded(t: Timer)
    requires Valid(t) && Idle(t)
    ensures var r := Ticks(Step(t, Start), t.duration * 60);
            r.completed && r.sessions == t.sessions + [Session(t.subject, t.duration)]
  {
    StartFillsTimer(t);
    RunToCompletion(Step(t, Start));
  }

  /** `progress`: the elapsed share of the session as a percentage, 0 when the timer
      is not active. */
  function Progress(t: Timer): (p: real)
    requires Valid(t)
    ensures 0.0 <= p <= 100.0
    ensures !t.active ==> p == 0.0
    ensures t.active && t.timeLeft == t.duration * 60 ==> p == 0.0
  {
    if !t.active then 0.0
    else
      var total := (t.duration * 60) as real;
      var elapsed := total - t.timeLeft as real;
      DivideBounds(elapsed, total, 0.0, 1.0);
      elapsed / total * 100.0
  }

  /** Every tick of a running session raises the progress. */
  lemma TickAdvancesProgress(t: Timer)
    requires Valid(t) && t.active && !t.paused && t.timeLeft > 1
    ensures Progress(Step(t, Tick)) > Progress(t)
  {
    var total := (t.duration * 60) as real;
    var a := total - t.timeLeft as real;
    var b := a + 1.0;
    TickCountsDown(t);
    assert b / total > a / total by {
      assert b / total - a / total == 1.0 / total;
    }
  }

  // ---------------------------------------------------------------------------
  // formatTime
  // ---------------------------------------------------------------------------

  /** A numeral padded on the left with '0' to two characters (`padStart`). */
  function Pad2(s: string): (r: string)
    requires 1 <= |s| && AllDigits(s)
    ensures AllDigits(r) && |r| == if |s| >= 2 then |s| else 2
    ensures DecimalValue(r) == DecimalValue(s)
  {
    if |s| >= 2 then s else (LeadingZero(s); "0" + s)
  }

  /** `formatTime`: the zero-padded minutes and seconds, separated by a colon. */
  function FormatTime(seconds: nat): (r: string)
    ensures |r| >= 5 && r[|r| - 3] == ':'
    ensures AllDigits(r[..|r| - 3]) && AllDigits(r[|r| - 2..])
  {
    Pad2(NatToDecimal(seconds / 60)) + ":" + Pad2(NatToDecimal(seconds % 60))
  }

  /** The text reads back as the time: the digits before the colon are the minutes, the
      two after are the seconds below 60. */
  lemma FormatTimeReadsBack(seconds: nat)
    ensures var r := FormatTime(seconds);
            DecimalValue(r[|r| - 2..]) < 60
            && DecimalValue(r[..|r| - 3]) * 60 + DecimalValue(r[|r| - 2..]) == seconds
  {
    var m := Pad2(NatToDecimal(seconds / 60));
    var s := Pad2(NatToDecimal(seconds % 60));
    DecimalRoundTrip(seconds / 60);
    DecimalRoundTrip(seconds % 60);
    var r := FormatTime(seconds);
    assert r == m + ":" + s;
    assert r[..|r| - 3] == m;
    assert r[|r| - 2..] == s;
  }

  /** Under 100 minutes the text is exactly "mm:ss". */
  lemma FormatTimeWidth(seconds: nat)
    requires seconds < 6000
    ensures |FormatTime(seconds)| == 5
  {
  }

  lemma NumeralOf25()
    ensures NatToDecimal(25) == "25"
  {
    assert NatToDecimal(25) == NatToDecimal(2) + [DigitChar(5)];
  }

  lemma PaddedZero()
    ensures Pad2(NatToDecimal(0)) == "00"
  {
    assert NatToDecimal(0) == "0";
  }

  /** The initial display of a 25-minute session. */
  lemma FormatTimeExample()
    ensures FormatTime(1500) == "25:00"
  {
    NumeralOf25();
    PaddedZero();
    assert 1500 / 60 == 25 && 1500 % 60 == 0;
    assert Pad2("25") == "25";
    assert FormatTime(1500) == "25" + ":" + "00";
  }
}
