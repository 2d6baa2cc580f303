/**
 Properties of the timer over several steps: the guards on start and pause,
 the reset, the countdown of one interval second by second, the alternation
 of focus sessions and breaks, and the behaviour of the mode buttons and the
 settings inputs.
 */
module Cycles {
  import opened Pomodoro

  /** Starting twice schedules one callback, as starting once does. */
  lemma StartIdempotent(s: State)
    ensures Start(Start(s)) == Start(s)
    ensures Start(s).intervals <= s.intervals + 1
  {
  }

  lemma PauseIdempotent(s: State)
    ensures Pause(Pause(s)) == Pause(s)
    ensures Pause(s).intervals <= s.intervals
  {
  }

  /** On a valid stopped timer, pausing undoes starting exactly, the live
      callback included; on a running one, starting undoes pausing. */
  lemma StartPauseInverse(s: State)
    requires Valid(s)
    ensures !s.timer.isRunning ==> Pause(Start(s)) == s && Start(s).intervals == 1
    ensures s.timer.isRunning ==> Start(Pause(s)) == s && Pause(s).intervals == 0
  {
  }

  lemma ResetIdempotent(s: State)
    ensures Reset(Reset(s)) == Reset(s)
  {
  }

  /** Reset on a valid state leaves it stopped with no live callback and the
      whole interval ahead. */
  lemma ResetValid(s: State)
    requires Valid(s)
    ensures Valid(Reset(s)) && Reset(s).intervals == 0
    ensures Reset(s).timer.timeLeft == s.timer.totalTime
  {
  }

  lemma UpdateSettingsIdempotent(s: State)
    ensures UpdateSettings(UpdateSettings(s)) == UpdateSettings(s)
  {
  }

  /** `n` runs of the interval callback, nominally `n` seconds. */
  function Elapse(s: State, n: nat): State
    decreases n
  {
    if n == 0 then s else Step(Elapse(s, n - 1), SecondElapsed)
  }

  /** A stopped timer does not move, however much time passes. */
  lemma {:induction false} StoppedTimerStays(s: State, n: nat)
    requires Valid(s) && !s.timer.isRunning
    ensures Elapse(s, n) == s
    decreases n
  {
    if n > 0 {
      StoppedTimerStays(s, n - 1);
    }
  }

  /** While fewer seconds have passed than remained, the timer is still
      running and has lost exactly one second per second; nothing else has
      changed. */
  lemma {:induction false} ElapseCountsDown(s: State, n: nat)
    requires Valid(s) && s.timer.isRunning && n < s.timer.timeLeft
    ensures Elapse(s, n) == s.(timer := s.timer.(timeLeft := s.timer.timeLeft - n))
    decreases n
  {
    if n > 0 {
      ElapseCountsDown(s, n - 1);
    }
  }

  /** The second that brings the remaining time to zero completes the
      interval; it is the only completion on the way. */
  lemma ElapseCompletes(s: State)
    requires Valid(s) && s.timer.isRunning
    ensures Elapse(s, s.timer.timeLeft) == Complete(s.(timer := s.timer.(timeLeft := 0)))
    ensures forall n: nat :: n < s.timer.timeLeft ==> Elapse(s, n).timer.isRunning
  {
    ElapseLastSecond(s);
    forall n: nat | n < s.timer.timeLeft
      ensures Elapse(s, n).timer.isRunning
    {
      ElapseCountsDown(s, n);
    }
  }

  /** The last second of a running interval completes it. */
  lemma ElapseLastSecond(s: State)
    requires Valid(s) && s.timer.isRunning
    ensures Elapse(s, s.timer.timeLeft) == Complete(s.(timer := s.timer.(timeLeft := 0)))
  {
    var n: nat := s.timer.timeLeft - 1;
    ElapseCountsDown(s, n);
    ElapseOneMore(s, n);
    LastSecondTicks(s, Elapse(s, n));
  }

  /** One more second runs one more step. */
  lemma ElapseOneMore(s: State, n: nat)
    ensures Elapse(s, n + 1) == Step(Elapse(s, n), SecondElapsed)
  {
  }

  /** With one second left and a live callback, the next second completes
      the interval. */
  lemma LastSecondTicks(s: State, last: State)
    requires s.intervals > 0
    requires last == s.(timer := s.timer.(timeLeft := 1))
    ensures Step(last, SecondElapsed) == Complete(s.(timer := s.timer.(timeLeft := 0)))
  {
    SecondTicks(last);
    assert last.(timer := last.timer.(timeLeft := 0)) == s.(timer := s.timer.(timeLeft := 0));
  }

  /** With a live callback, one run of the interval callback is one `Tick`. */
  lemma SecondTicks(s: State)
    requires s.intervals > 0
    ensures Step(s, SecondElapsed) == Tick(s)
  {
  }

  /** Reset then start: the interval completes after exactly as many
      seconds as the interval's total time. */
  lemma FreshIntervalCompletes(s: State)
    requires Valid(s)
    ensures var started := Start(Reset(s));
      && Elapse(started, s.timer.totalTime) ==
           Complete(started.(timer := started.timer.(timeLeft := 0)))
      && forall n: nat :: n < s.timer.totalTime ==> Elapse(started, n).timer.isRunning
  {
    ResetValid(s);
    ElapseCompletes(Start(Reset(s)));
  }

  /** `k` completions in a row; `RunOutsAreCompletions` shows these are the
      states the page reaches by starting each interval and waiting it out. */
  function Completions(s: State, k: nat): State
    decreases k
  {
    if k == 0 then s else Completions(Complete(s), k - 1)
  }

  /** Focus sessions and breaks alternate, every second completion counts a
      session, and the break after a focus session is long exactly when the
      session count is then a multiple of four. */
  lemma {:induction false} CompletionsAlternate(s: State, k: nat)
    ensures var r := Completions(s, k);
      if s.timer.mode == Focus then
        && r.timer.sessionCount == s.timer.sessionCount + (k + 1) / 2
        && (r.timer.mode == Focus <==> k % 2 == 0)
        && (k % 2 == 1 ==> (r.timer.mode == LongBreak <==> r.timer.sessionCount % 4 == 0))
      else
        && r.timer.sessionCount == s.timer.sessionCount + k / 2
        && (r.timer.mode == Focus <==> k % 2 == 1)
        && (k % 2 == 0 && k > 0 ==> (r.timer.mode == LongBreak <==> r.timer.sessionCount % 4 == 0))
    decreases k
  {
    if k > 0 {
      CompletionsAlternate(Complete(s), k - 1);
    }
  }

  /** From a focus session whose count is a multiple of four, the break after
      the `j`-th following focus session (counting from 0) is long exactly
      when `j` is 3, 7, 11, ...: three short breaks, then one long one. */
  lemma LongBreakEveryFourth(s: State, j: nat)
    requires s.timer.mode == Focus && s.timer.sessionCount % 4 == 0
    ensures Completions(s, 2 * j + 1).timer.mode == LongBreak <==> j % 4 == 3
    ensures Completions(s, 2 * j + 1).timer.mode == ShortBreak <==> j % 4 != 3
    ensures Completions(s, 2 * j + 1).timer.sessionCount == s.timer.sessionCount + j + 1
  {
    var k := 2 * j + 1;
    CompletionsAlternate(s, k);
    OddCount(j);
    FourthAfter(s.timer.sessionCount, j);
  }

  /** `2j + 1` completions from focus are odd and hold `j + 1` focus sessions. */
  lemma OddCount(j: nat)
    ensures (2 * j + 1) % 2 == 1 && (2 * j + 1 + 1) / 2 == j + 1
  {
  }

  /** From a multiple of four, `j + 1` more sessions reach the next multiple
      exactly when `j` is 3 modulo 4. */
  lemma FourthAfter(count: nat, j: nat)
    requires count % 4 == 0
    ensures (count + j + 1) % 4 == 0 <==> j % 4 == 3
  {
    assert (count + j + 1) % 4 == (j + 1) % 4;
  }

  /** Starting a valid stopped timer and waiting out its remaining time is
      exactly one completion. */
  lemma RunOutIsComplete(s: State)
    requires Valid(s) && !s.timer.isRunning
    ensures Elapse(Start(s), s.timer.timeLeft) == Complete(s)
  {
    StartPauseInverse(s);
    ElapseCompletes(Start(s));
  }

  /** `k` intervals, each started and waited out. */
  function RunOuts(s: State, k: nat): State
    decreases k
  {
    if k == 0 then s
    else
      var wait := if s.timer.timeLeft > 0 then s.timer.timeLeft else 0;
      RunOuts(Elapse(Step(s, StartClicked), wait), k - 1)
  }

  /** On the page, starting and waiting out `k` intervals from a valid stopped
      state gives the same states as `k` completions, and stays valid. */
  lemma {:induction false} RunOutsAreCompletions(s: State, k: nat)
    requires Valid(s) && !s.timer.isRunning
    ensures RunOuts(s, k) == Completions(s, k)
    ensures Valid(RunOuts(s, k)) && !RunOuts(s, k).timer.isRunning
    decreases k
  {
    if k > 0 {
      RunOutIsComplete(s);
      CompleteValid(s);
      RunOutsAreCompletions(Complete(s), k - 1);
    }
  }

  /** The every-fourth rule on the page: from a valid stopped focus interval
      whose count is a multiple of four, starting and waiting out intervals
      gives three short breaks and then one long break, over and over. */
  lemma LongBreakEveryFourthOnPage(s: State, j: nat)
    requires Valid(s) && !s.timer.isRunning
    requires s.timer.mode == Focus && s.timer.sessionCount % 4 == 0
    ensures RunOuts(s, 2 * j + 1).timer.mode == LongBreak <==> j % 4 == 3
    ensures RunOuts(s, 2 * j + 1).timer.sessionCount == s.timer.sessionCount + j + 1
  {
    RunOutsAreCompletions(s, 2 * j + 1);
    LongBreakEveryFourth(s, j);
  }

  /** With the default minutes, starting the fresh timer and letting 1500
      seconds pass ends the first focus session: one session, a stopped
      five-minute short break. */
  lemma DefaultFirstSession()
    ensures var r := Elapse(Step(Init(DefaultMinutes, DefaultMinutes), StartClicked), 1500);
      && r.timer.sessionCount == 1
      && r.timer.mode == ShortBreak
      && r.timer.totalTime == r.timer.timeLeft == 300
      && !r.timer.isRunning && r.intervals == 0
  {
    var s0 := Init(DefaultMinutes, DefaultMinutes);
    InitValid(DefaultMinutes, DefaultMinutes);
    assert Step(s0, StartClicked) == Start(s0);
    RunOutIsComplete(s0);
    FirstFocusCompletes(s0);
  }

  /** Completing the first focus session with default inputs counts it and
      enters a stopped five-minute short break. */
  lemma FirstFocusCompletes(s: State)
    requires s.timer.mode == Focus && s.timer.sessionCount == 0
    requires s.inputs == DefaultMinutes
    ensures var r := Complete(s);
      && r.timer.sessionCount == 1 && r.timer.mode == ShortBreak
      && r.timer.totalTime == r.timer.timeLeft == 300
      && !r.timer.isRunning && r.intervals == Pause(s).intervals
  {
  }

  /** Clicking the long-break button while a focus interval runs switches to
      a full long break and keeps counting down. */
  lemma ManualSwitchWhileRunning(s: State)
    requires Valid(s) && s.timer.isRunning && s.timer.mode == Focus
    requires s.buttons == DefaultMinutes
    ensures var r := Step(s, ModeClicked(LongBreak));
      && r.timer.mode == LongBreak
      && r.timer.totalTime == r.timer.timeLeft == 900
      && r.timer.isRunning && r.intervals == 1
      && Step(r, SecondElapsed).timer.timeLeft == 899
  {
  }

  /** With the default button minutes each button selects its own mode. */
  lemma DefaultButtonsSelectTheirMode(s: State, button: Mode)
    requires s.buttons == DefaultMinutes
    ensures SwitchMode(s, button).timer.mode == button
  {
  }

  /** Once the focus input is set to 30 and copied onto the buttons, the
      focus button starts a thirty-minute interval in long-break mode, whose
      completion counts no session. */
  lemma EditedFocusButtonIsLongBreak(inputs: Minutes, buttons: Minutes)
    requires inputs.Positive() && buttons.Positive()
    ensures var s := Run(Init(inputs, buttons), [InputEdited(Focus, 30), InputChanged, ModeClicked(Focus)]);
      && s.timer.mode == LongBreak
      && s.timer.totalTime == 1800
      && Complete(s).timer.sessionCount == 0
  {
  }

  /** Changing the focus minutes while stopped copies them onto the focus
      button but leaves the remaining time of the current focus interval
      alone, because reset refills from the stored total. */
  lemma IdleSettingsKeepDuration(inputs: Minutes, buttons: Minutes)
    requires inputs.Positive() && buttons.Positive()
    ensures var s := Run(Init(inputs, buttons), [InputEdited(Focus, 50), InputChanged]);
      && s.buttons.focus == 50
      && s.timer.timeLeft == s.timer.totalTime == 1500
      && !s.timer.isRunning
  {
    var s0 := Init(inputs, buttons);
    var s1 := Step(s0, InputEdited(Focus, 50));
    var s2 := Step(s1, InputChanged);
    assert Run(s0, [InputEdited(Focus, 50), InputChanged]) == Run(s1, [InputChanged]);
    assert Run(s1, [InputChanged]) == Run(s2, []);
  }

  /** A settings change takes effect at the next automatic switch: the
      completion reads the inputs, not the buttons or the old total. */
  lemma SettingsApplyAtNextSwitch(s: State, m: Mode, v: int)
    ensures var r := Complete(Step(s, InputEdited(m, v)));
      r.timer.mode == m ==> r.timer.totalTime == 60 * v
  {
  }
}
