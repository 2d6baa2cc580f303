# Pomodoro timer: a Dafny model of the countdown and mode state machine

The Pomodoro timer is a browser page that alternates focus intervals with
short and long breaks. Its `PomodoroTimer` class keeps five fields: the
remaining and total seconds of the current interval (`timeLeft`, `totalTime`),
whether it is counting down (`isRunning`), the number of completed focus
sessions (`sessionCount`), and the current mode (`focus`, `short-break` or
`long-break`). Two groups of three minute values on the page feed it: the
settings inputs and the `data-time` values of the three mode buttons.

This project models that state machine as immutable records and one pure
function per command:

- `clock.dfy` (module `Clock`): the `mm:ss` text of the display. It covers
  floor division, JavaScript's truncating `%`, decimal `toString` and
  `padStart`. A reader `ParseClock` turns the text back into seconds, and
  a round-trip lemma connects the two.
- `pomodoro.dfy` (module `Pomodoro`): the state (`Timer` plus the number of
  live interval callbacks, the inputs and the buttons) and the commands
  `Start`, `Pause`, `Reset`, `Tick` (the body of the interval callback),
  `Complete`, `SwitchToMode` (automatic switch), `SwitchMode` (mode button
  click) and `UpdateSettings`. It also defines the events of the page, `Step`
  and `Run` over event sequences, and the invariant `Valid` that every event
  preserves.
- `cycles.dfy` (module `Cycles`): properties over several steps. These cover
  the start/pause guards, reset idempotence and the second-by-second countdown
  to completion. They also cover the focus/break alternation with its
  every-fourth-session long break, the mode-button quirk and the
  settings-change behaviour.

The browser interval timer is represented by `intervals`, the number of live
`setInterval` callbacks. `start` adds one, `pause` clears the stored one, and
one run of the interval callback (nominally every 1000 ms) is the explicit
event `SecondElapsed`. The invariant `Valid` shows that there is exactly one live callback while
running and none otherwise.

These behaviours of the code are modelled as written:

- `reset` refills the remaining time from the stored `totalTime` and never
  reads the settings inputs. So changing a setting while stopped copies it
  onto the mode buttons but leaves the current interval's length alone
  (`Cycles.IdleSettingsKeepDuration`). New settings take effect at the next
  automatic switch (`Cycles.SettingsApplyAtNextSwitch`) or the next button
  click.
- A mode button click decides the mode from the literal minutes 25 and 5,
  not from which button was clicked (`Cycles.EditedFocusButtonIsLongBreak`).
- The interval callback completes when the remaining time is zero or below
  (`<= 0`), not only when it equals zero. A manual mode switch does not
  pause a running countdown.

## Model

| member | source | states |
|---|---|---|
| `Clock.NatToString` | script.js:179 | The decimal text of a minute or second count is at least one digit long and all digits. It is one character exactly when the number is below 10, at most two below 100, and starts with '0' only for 0. |
| `Clock.IntToString` | script.js:179 | A non-negative number's text is all digits; a negative number's text starts with '-' and is at least two characters long. |
| `Clock.IntToStringReadsBack` | script.js:179 | `toString` stands for the number: a non-negative number's text reads back as that number, and the text after a negative number's '-' reads back as its magnitude. |
| `Clock.PadStart` | script.js:179 | `padStart` makes the text as long as the width or its own length, whichever is larger, and never truncates. The original text is the suffix and every added character is the fill. |
| `Clock.MinutesPart` | script.js:175 | `Math.floor(t / 60)` is, for every `t`, the largest `m` with `m * 60 <= t`, and it is non-negative exactly when `t` is. |
| `Clock.SecondsPart` | script.js:176 | `t % 60` is in `[0, 60)` for `t >= 0`, and minutes times 60 plus seconds gives back `t`. For negative `t` it is in `(-60, 0]`, and `t` minus it is always a multiple of 60. |
| `Clock.TimeText` | script.js:174-179 | The display text of a non-negative time has the colon third from the end and at least five characters. It is exactly five characters iff the time is below 100 minutes. |
| `Clock.Pad2` | script.js:179 | A count as the display writes it is at least two characters, and a single-digit count gets a leading '0'. |
| `Clock.Pad2Length` | script.js:179 | Padding a non-negative count to two characters gives exactly two characters iff it is below 100; at 100 or above the unpadded text is kept whole. |
| `Clock.Pad2ReadsBack` | script.js:179 | A padded non-negative count reads back as the same number: the added zeros change nothing. |
| `Clock.PaddedClockReadsBack` | script.js:174-179 | Padded minutes `m >= 0` and padded seconds below 60 around a colon read back as `m * 60 + sec` seconds. |
| `Clock.TimeTextRoundTrip` | script.js:174-179 | Reading the display text of any `t >= 0` as minutes and seconds gives back `t`: the split into minutes and seconds loses nothing. |
| `Pomodoro.Init` | script.js:2-8 | The constructor starts stopped in focus mode with 25 minutes (1500 s) remaining of 1500, no sessions and no interval; the page's inputs and button minutes are taken as given. |
| `Pomodoro.InitValid` | script.js:2-8 | The initial state satisfies the invariant when the page's minute values are positive. |
| `Pomodoro.Cleared` | script.js:69 | `clearInterval` of the stored handle removes exactly one live callback when there is one and never adds any; none is left iff at most one was live. |
| `Pomodoro.Start` | script.js:47-62 | `start` leaves the timer running. When it was already running nothing changes. Otherwise only the running flag flips in the timer, one more interval callback is live, and the settings are untouched. |
| `Pomodoro.Pause` | script.js:64-71 | `pause` leaves the timer stopped. When it was already stopped nothing changes. Otherwise only the running flag flips in the timer, the stored callback is cleared, and the settings are untouched. |
| `Pomodoro.Reset` | script.js:73-77 | After `reset` the timer is stopped with the remaining time equal to the unchanged total. Mode, session count and settings are unchanged. |
| `Pomodoro.SwitchToMode` | script.js:126-160 | The automatic switch enters mode `m` with a full interval of 60 times the settings input for `m`. It keeps the running flag, the callbacks, the session count and the settings. |
| `Pomodoro.Complete` | script.js:79-98 | A completion always stops the timer. After focus the count rises by exactly one, and the next mode is a long break iff the new count is a multiple of 4, else a short break. After a break the count is unchanged and the next mode is focus. The new interval is full and its length comes from the settings input for the new mode. |
| `Pomodoro.CompleteValid` | script.js:79-98 | Completion from a state with positive settings and a consistent callback count yields a valid state with no live callback. |
| `Pomodoro.Tick` | script.js:53-59 | One callback run removes exactly one second while more than one second remains and changes nothing else. Otherwise it completes the interval with the decremented time. |
| `Pomodoro.ModeOfMinutes` | script.js:114-121 | A clicked button's minutes give focus iff 25, short break iff 5, and long break for every other value. |
| `Pomodoro.SwitchMode` | script.js:100-124 | A mode button click starts a full interval of 60 times that button's minutes. The mode is focus iff those minutes are 25 and short break iff they are 5. The running flag, callbacks, session count and settings are kept. |
| `Pomodoro.UpdateSettings` | script.js:162-172 | The settings change copies the three inputs onto the three buttons. While running the timer is otherwise untouched; while stopped the result is a `reset` with the old total. |
| `Pomodoro.Step` | script.js:31-59 | A second with no live callback changes nothing. Only a start click adds a callback or sets a stopped timer running. Only a second that completes a focus interval changes the session count, and by one. The inputs change only by an edit, and the buttons only by the change event, which copies the inputs onto them. |
| `Pomodoro.StepValid` | script.js:31-172 | Every event of the page keeps the invariant when edited inputs are positive. The invariant is: positive minutes, `0 < timeLeft <= totalTime`, a whole number of minutes in `totalTime`, and one live interval callback exactly while running. |
| `Pomodoro.RunValid` | script.js:31-45 | The invariant holds after any sequence of well-formed events. |
| `Cycles.StartIdempotent` | script.js:47-62 | Starting twice is starting once, and a start schedules at most one new callback. |
| `Cycles.PauseIdempotent` | script.js:64-71 | Pausing twice is pausing once, and a pause never adds a callback. |
| `Cycles.StartPauseInverse` | script.js:47-71 | On a valid state, pause exactly undoes start when stopped, and start exactly undoes pause when running. The callback count is included. |
| `Cycles.ResetIdempotent` | script.js:73-77 | Resetting twice is resetting once. |
| `Cycles.ResetValid` | script.js:73-77 | Reset keeps the invariant and leaves no live callback and the whole stored interval ahead. |
| `Cycles.UpdateSettingsIdempotent` | script.js:162-172 | Applying the settings twice is applying them once. |
| `Cycles.StoppedTimerStays` | script.js:53-71 | A valid stopped timer does not change however many seconds pass. |
| `Cycles.ElapseCountsDown` | script.js:53-59 | A running timer loses exactly `n` seconds over `n` seconds, while fewer seconds pass than remained, and nothing else changes. |
| `Cycles.ElapseCompletes` | script.js:53-59 | A running timer completes at exactly the second its remaining time reaches zero, and keeps running before that. |
| `Cycles.FreshIntervalCompletes` | script.js:47-77 | After reset and start, the interval completes after exactly `totalTime` seconds and not earlier. |
| `Cycles.CompletionsAlternate` | script.js:79-98 | Over `k` completions, focus and breaks alternate and the count rises by one per completed focus. Each break after a focus is long iff the count is then a multiple of 4. |
| `Cycles.LongBreakEveryFourth` | script.js:84-93 | From focus with a count that is a multiple of 4, the break after the `j`-th following focus session is long iff `j mod 4 == 3` and short otherwise. |
| `Cycles.RunOutIsComplete` | script.js:47-98 | Starting a valid stopped timer and letting its remaining seconds pass is exactly one `complete`. |
| `Cycles.RunOutsAreCompletions` | script.js:47-98 | Starting and waiting out `k` intervals one after another from a valid stopped state gives the same state as `k` completions, and it is valid and stopped. |
| `Cycles.LongBreakEveryFourthOnPage` | script.js:47-98 | From a valid stopped focus interval whose count is a multiple of 4, starting and waiting out intervals gives a long break after the `j`-th following focus session iff `j mod 4 == 3`, with the count `j + 1` higher. |
| `Cycles.DefaultFirstSession` | script.js:47-98 | With default minutes, start followed by 1500 seconds completes the first session: count 1, a stopped 300 s short break and no callback. |
| `Cycles.ManualSwitchWhileRunning` | script.js:100-124 | Clicking the 15-minute button during a running focus interval gives a full 900 s long break. The timer keeps running, and the next second takes it to 899. |
| `Cycles.DefaultButtonsSelectTheirMode` | script.js:114-121 | With the default button minutes 25/5/15, each button selects its own mode. |
| `Cycles.EditedFocusButtonIsLongBreak` | script.js:100-172 | Suppose the focus input is set to 30 and copied to the buttons. The focus button then starts a 30-minute interval in long-break mode, and its completion counts no session. |
| `Cycles.IdleSettingsKeepDuration` | script.js:162-172 | Setting focus to 50 minutes while stopped updates the focus button. The current focus interval stays at 1500 s. |
| `Cycles.SettingsApplyAtNextSwitch` | script.js:126-148 | An edited input sets the length of the interval that the next completion switches into. |

## Left out

- DOM lookup and event binding (script.js:15-45) are left out as presentation. The bound handlers appear as the `Event` cases. Also left out: button enabling, CSS class toggling on mode buttons, and the label text.
- `playNotification` (script.js:186-204) is Web Audio with floating-point timing.
- Pomodoro.Complete: assumes `playNotification` and `showCompletionMessage` (script.js:81-82) return normally. In the script either can throw, for instance when the page has no Web Audio (script.js:188) or the browser refuses `new Notification` (script.js:219). Then `complete` stops after its `pause`, leaving the timer stopped at 0 s or below, with no session counted and the mode unchanged. Until a reset, a settings change while stopped or a mode click refills the time, each later start ticks below zero and throws again. After a refill, the interval runs down to zero and throws there. The model does not cover that path.
- `showCompletionMessage` (script.js:206-230): browser notifications, the permission promise and the `setTimeout` flash are asynchronous and foreign.
- `setInterval`/`clearInterval` scheduling is abstracted. The model keeps the number of live callbacks and fires the callback at most once per `SecondElapsed`. States with two live callbacks are unreachable (`Pomodoro.StepValid`), so their per-second behaviour is not modelled. Wall-clock time is not modelled either: each `start` schedules a fresh interval (script.js:53-60), so the part of a second before a pause is lost, and browsers may run the callback less often in background tabs.
- The progress-bar percentage (script.js:182-183) is floating-point division.
- The settings modal wiring (script.js:234-262) is pure UI.
- `parseInt` of the inputs and of `data-time` (NaN, non-numeric text) is left out, and minutes are integers. Edited inputs are assumed positive (`Pomodoro.WellFormed`); the script does not check them. With 0 minutes the script would set a 0 s interval, and its first callback would take the time to -1 and show "-1:-1". The invariant and the lemmas that rely on it do not cover that case.
- Clock.IntToString: its contract states only the shape of the text. What the text stands for is stated by `Clock.IntToStringReadsBack`, kept apart so that proofs using the display text stay small.
- JavaScript numbers are doubles. The model uses unbounded integers, which agree for every time below 2^53 seconds.
- index.html is not part of this model. The page's initial input and button minutes are parameters of `Pomodoro.Init`, with 25/5/15 as `Pomodoro.DefaultMinutes`.
- `Clock.TimeText` also computes the text for negative times, but its properties are stated for `timeLeft >= 0`. Negative times are unreachable under the invariant.
