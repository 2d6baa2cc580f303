/**
 The countdown and mode state machine of the Pomodoro timer.

 The timer object keeps the remaining and total seconds of the current
 interval, whether it is counting down, how many focus sessions have been
 completed, and the current mode. Around it sit two groups of three minute
 values that the page owns: the settings inputs (read when the timer switches
 mode on its own) and the `data-time` values of the three mode buttons (read
 when a button is clicked). The browser's interval timer is represented by
 `intervals`, the number of live `setInterval` callbacks, and each elapsed
 second is an explicit event.
 */
module Pomodoro {

  /** The values of `currentMode`: 'focus', 'short-break', 'long-break'. */
  datatype Mode = Focus | ShortBreak | LongBreak

  /** One whole-minute value per mode. It describes both the settings inputs
      and the mode buttons, which sit on the page in the order focus, short
      break, long break. */
  datatype Minutes = Minutes(focus: int, shortBreak: int, longBreak: int) {

    function For(m: Mode): int {
      match m
      case Focus => focus
      case ShortBreak => shortBreak
      case LongBreak => longBreak
    }

    /** The same values with the one for `m` replaced by `v`. */
    function With(m: Mode, v: int): (r: Minutes)
      ensures r.For(m) == v
      ensures forall n :: n != m ==> r.For(n) == For(n)
    {
      match m
      case Focus => this.(focus := v)
      case ShortBreak => this.(shortBreak := v)
      case LongBreak => this.(longBreak := v)
    }

    predicate Positive() {
      0 < focus && 0 < shortBreak && 0 < longBreak
    }
  }

  /** The default minutes of the page: 25, 5 and 15. */
  const DefaultMinutes := Minutes(25, 5, 15)

  /** The timer's own fields; times are whole seconds. */
  datatype Timer = Timer(
    timeLeft: int,
    totalTime: int,
    isRunning: bool,
    sessionCount: nat,
    mode: Mode)

  /** The timer, the number of live interval callbacks, the settings inputs
      and the mode buttons' minutes. */
  datatype State = State(timer: Timer, intervals: nat, inputs: Minutes, buttons: Minutes)

  /** The constructor: 25 minutes of focus, stopped, no sessions yet. The
      inputs and buttons are whatever the page holds when it loads. */
  function Init(inputs: Minutes, buttons: Minutes): (s: State)
    ensures s.timer.timeLeft == s.timer.totalTime == 25 * 60
    ensures !s.timer.isRunning && s.intervals == 0
    ensures s.timer.sessionCount == 0 && s.timer.mode == Focus
    ensures s.inputs == inputs && s.buttons == buttons
  {
    State(Timer(25 * 60, 25 * 60, false, 0, Focus), 0, inputs, buttons)
  }

  /** What `clearInterval` does to the number of live callbacks: removes the
      one stored handle, if any is live. */
  function Cleared(n: nat): (r: nat)
    ensures r <= n
    ensures r == 0 <==> n <= 1
    ensures n > 0 ==> r + 1 == n
  {
    if n == 0 then 0 else n - 1
  }

  /** `start`: only when stopped, set the running flag and schedule one
      interval callback. */
  function Start(s: State): (r: State)
    ensures r.timer.isRunning
    ensures s.timer.isRunning ==> r == s
    ensures !s.timer.isRunning ==> r.intervals == s.intervals + 1
    ensures r.timer.(isRunning := s.timer.isRunning) == s.timer
    ensures r.inputs == s.inputs && r.buttons == s.buttons
  {
    if s.timer.isRunning then s
    else s.(timer := s.timer.(isRunning := true), intervals := s.intervals + 1)
  }

  /** `pause`: only when running, clear the flag and the stored interval. */
  function Pause(s: State): (r: State)
    ensures !r.timer.isRunning
    ensures !s.timer.isRunning ==> r == s
    ensures s.timer.isRunning ==> r.intervals == Cleared(s.intervals)
    ensures r.timer.(isRunning := s.timer.isRunning) == s.timer
    ensures r.inputs == s.inputs && r.buttons == s.buttons
  {
    if !s.timer.isRunning then s
    else s.(timer := s.timer.(isRunning := false), intervals := Cleared(s.intervals))
  }

  /** `reset`: pause, then refill the remaining time from the stored total.
      The settings inputs are not consulted. */
  function Reset(s: State): (r: State)
    ensures !r.timer.isRunning
    ensures r.timer.timeLeft == r.timer.totalTime == s.timer.totalTime
    ensures r.timer.mode == s.timer.mode && r.timer.sessionCount == s.timer.sessionCount
    ensures r.intervals == Pause(s).intervals
    ensures r.inputs == s.inputs && r.buttons == s.buttons
  {
    var p := Pause(s);
    p.(timer := p.timer.(timeLeft := p.timer.totalTime))
  }

  /** `switchToMode`: the automatic switch. The new interval lasts as many
      minutes as the settings input for `m` holds; the running flag, the
      interval callbacks and the session count stay as they are. */
  function SwitchToMode(s: State, m: Mode): (r: State)
    ensures r.timer.mode == m
    ensures r.timer.totalTime == 60 * s.inputs.For(m) && r.timer.timeLeft == r.timer.totalTime
    ensures r.timer.isRunning == s.timer.isRunning && r.timer.sessionCount == s.timer.sessionCount
    ensures r.intervals == s.intervals && r.inputs == s.inputs && r.buttons == s.buttons
  {
    var minutes := s.inputs.For(m);
    s.(timer := s.timer.(mode := m, totalTime := minutes * 60, timeLeft := minutes * 60))
  }

  /** `complete`: pause, count a finished focus session, and move on: after
      every fourth focus session to a long break, after any other focus
      session to a short break, after a break back to focus. */
  function Complete(s: State): (r: State)
    ensures !r.timer.isRunning
    ensures r.intervals == Pause(s).intervals
    ensures s.timer.mode == Focus ==>
      && r.timer.sessionCount == s.timer.sessionCount + 1
      && (r.timer.mode == LongBreak <==> r.timer.sessionCount % 4 == 0)
      && (r.timer.mode == ShortBreak <==> r.timer.sessionCount % 4 != 0)
    ensures s.timer.mode != Focus ==>
      r.timer.sessionCount == s.timer.sessionCount && r.timer.mode == Focus
    ensures r.timer.totalTime == 60 * s.inputs.For(r.timer.mode)
    ensures r.timer.timeLeft == r.timer.totalTime
    ensures r.inputs == s.inputs && r.buttons == s.buttons
  {
    var p := Pause(s);
    if p.timer.mode == Focus then
      var counted := p.(timer := p.timer.(sessionCount := p.timer.sessionCount + 1));
      if counted.timer.sessionCount % 4 == 0 then SwitchToMode(counted, LongBreak)
      else SwitchToMode(counted, ShortBreak)
    else
      SwitchToMode(p, Focus)
  }

  /** The body of the interval callback: take one second off, and complete
      the interval once the remaining time is zero or less. The callback does
      not look at the running flag itself. */
  function Tick(s: State): (r: State)
    ensures s.timer.timeLeft > 1 ==>
      r == s.(timer := s.timer.(timeLeft := s.timer.timeLeft - 1))
    ensures s.timer.timeLeft <= 1 ==>
      r == Complete(s.(timer := s.timer.(timeLeft := s.timer.timeLeft - 1)))
  {
    var d := s.(timer := s.timer.(timeLeft := s.timer.timeLeft - 1));
    if d.timer.timeLeft <= 0 then Complete(d) else d
  }

  /** The mode a clicked button's minutes stand for: only the literal values
      25 and 5 are recognised, anything else is taken as a long break. */
  function ModeOfMinutes(minutes: int): (m: Mode)
    ensures m == Focus <==> minutes == 25
    ensures m == ShortBreak <==> minutes == 5
    ensures m == LongBreak <==> minutes != 25 && minutes != 5
  {
    if minutes == 25 then Focus else if minutes == 5 then ShortBreak else LongBreak
  }

  /** `switchMode`: a click on the mode button in position `button`. The new
      interval lasts as long as that button's minutes; the mode is decided by
      those minutes, not by which button it was. A running countdown keeps
      running. */
  function SwitchMode(s: State, button: Mode): (r: State)
    ensures r.timer.totalTime == 60 * s.buttons.For(button)
    ensures r.timer.timeLeft == r.timer.totalTime
    ensures r.timer.mode == Focus <==> s.buttons.For(button) == 25
    ensures r.timer.mode == ShortBreak <==> s.buttons.For(button) == 5
    ensures r.timer.isRunning == s.timer.isRunning && r.timer.sessionCount == s.timer.sessionCount
    ensures r.intervals == s.intervals && r.inputs == s.inputs && r.buttons == s.buttons
  {
    var minutes := s.buttons.For(button);
    s.(timer := s.timer.(
         totalTime := minutes * 60,
         timeLeft := minutes * 60,
         mode := ModeOfMinutes(minutes)))
  }

  /** `updateSettings`: copy the inputs onto the buttons and, when stopped,
      reset. */
  function UpdateSettings(s: State): (r: State)
    ensures r.buttons == s.inputs && r.inputs == s.inputs
    ensures s.timer.isRunning ==> r.timer == s.timer && r.intervals == s.intervals
    ensures !s.timer.isRunning ==> r == Reset(s).(buttons := s.inputs)
  {
    var copied := s.(buttons := s.inputs);
    if !copied.timer.isRunning then Reset(copied) else copied
  }

  /** Everything that can happen to the timer: the three control buttons, a
      click on a mode button, a new value typed into a settings input, that
      input's `change` event, and one run of the interval callback (nominally
      every 1000 ms). */
  datatype Event =
    | StartClicked
    | PauseClicked
    | ResetClicked
    | ModeClicked(button: Mode)
    | InputEdited(field: Mode, minutes: int)
    | InputChanged
    | SecondElapsed

  /** One event. A second runs the interval callback when one is live; the
      model runs it at most once per second. Only a start schedules a
      callback or sets the timer running, only a second that completes a
      focus interval counts a session, and the inputs and buttons change
      only through their own events. */
  function Step(s: State, e: Event): (r: State)
    ensures e == SecondElapsed && s.intervals == 0 ==> r == s
    ensures r.intervals > s.intervals ==> e == StartClicked
    ensures r.timer.isRunning && !s.timer.isRunning ==> e == StartClicked
    ensures r.timer.sessionCount != s.timer.sessionCount ==>
      e == SecondElapsed && s.intervals > 0 && s.timer.mode == Focus
      && r.timer.sessionCount == s.timer.sessionCount + 1
    ensures r.inputs != s.inputs ==> e.InputEdited?
    ensures r.buttons != s.buttons ==> e == InputChanged && r.buttons == s.inputs
  {
    match e
    case StartClicked => Start(s)
    case PauseClicked => Pause(s)
    case ResetClicked => Reset(s)
    case ModeClicked(b) => SwitchMode(s, b)
    case InputEdited(f, v) => s.(inputs := s.inputs.With(f, v))
    case InputChanged => UpdateSettings(s)
    case SecondElapsed => if s.intervals > 0 then Tick(s) else s
  }

  function Run(s: State, es: seq<Event>): State
    decreases |es|
  {
    if es == [] then s else Run(Step(s, es[0]), es[1..])
  }

  /** Edited inputs are assumed to hold positive minutes; the script does not
      check them. */
  predicate WellFormed(e: Event) {
    e.InputEdited? ==> e.minutes > 0
  }

  /** The states the page can reach: positive minutes everywhere, a remaining
      time within the current interval, and exactly one live interval
      callback while running and none otherwise. */
  predicate Valid(s: State) {
    && s.inputs.Positive()
    && s.buttons.Positive()
    && 0 < s.timer.timeLeft <= s.timer.totalTime
    && s.timer.totalTime % 60 == 0
    && s.intervals == (if s.timer.isRunning then 1 else 0)
  }

  lemma InitValid(inputs: Minutes, buttons: Minutes)
    requires inputs.Positive() && buttons.Positive()
    ensures Valid(Init(inputs, buttons))
  {
  }

  /** A completion of a valid state (with its remaining time already at or
      below zero) lands in a valid state with no live callback. */
  lemma CompleteValid(s: State)
    requires s.inputs.Positive() && s.buttons.Positive()
    requires s.intervals == (if s.timer.isRunning then 1 else 0)
    ensures Valid(Complete(s)) && Complete(s).intervals == 0
  {
  }

  /** Every event keeps the page in a valid state. */
  lemma StepValid(s: State, e: Event)
    requires Valid(s) && WellFormed(e)
    ensures Valid(Step(s, e))
  {
    match e
    case SecondElapsed =>
      if s.intervals > 0 && s.timer.timeLeft <= 1 {
        CompleteValid(s.(timer := s.timer.(timeLeft := s.timer.timeLeft - 1)));
      }
    case _ =>
  }

  lemma {:induction false} RunValid(s: State, es: seq<Event>)
    requires Valid(s)
    requires forall i :: 0 <= i < |es| ==> WellFormed(es[i])
    ensures Valid(Run(s, es))
    decreases |es|
  {
    if es != [] {
      StepValid(s, es[0]);
      RunValid(Step(s, es[0]), es[1..]);
    }
  }
}
