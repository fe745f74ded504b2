# HIIT interval timer: a Dafny model

The app is a single screen for high-intensity interval training. Four sliders set the
length of a work phase (10–60 s), the length of a rest phase (5–60 s), the number of
rounds per circuit (1–10) and the number of circuits (1–5). A play/pause button and a
stop/reset button drive a countdown that ticks once per second. Each round is one work
phase followed by one rest phase. After the last round of a circuit the next circuit
starts at round 1. After the last rest of the last circuit the workout is complete. The
timer beeps when the countdown reaches 4, 3, 2 and 1, and again when a phase ends.

This project models that countdown state machine, which lives in `ContentView`
(`hiit/ContentView.swift`). It has three modules:

- `TimerMachine` (`timer_machine.dfy`) holds the settings (`Config`) and the session
  (`Session`) as values. It defines each operation of the screen as a function:
  `Start`, `Pause`, `Reset`, `TimerEnd` and `Tick`. Tick is the body of the repeating
  timer.
- `Hiit` (`content_view.dfy`) holds the class `ContentView`. Its fields are the screen's
  `@State` variables, and its methods assign them in place, following the Swift code
  statement by statement. Each method is proved to have the effect of the matching
  `TimerMachine` function, and to keep the object invariant `Valid()`.
- `TimerProperties` (`timer_properties.dfy`) holds the lemmas about the machine. They
  cover one step at a time (pause/resume, reset, bounds, a decreasing measure) and whole
  runs. The main run result is `RunToCompletion`: with the settings fixed, a session
  with a live timer completes after exactly `Remaining` ticks, and plays exactly
  `RemainingBeeps` beeps on the way. `FreshWorkout` specialises this to a reset followed
  by a start. That workout takes circuits × rounds × (work + rest + 2) ticks, because a
  phase of N seconds takes N + 1 ticks. It plays ten beeps per round.

Two stand-ins replace parts of the Swift code. The scheduled `Timer?` becomes the boolean
`timerActive`. `startTimer` sets it. `pauseTimer`, `resetTimer` and the completion branch
of `handleTimerEnd` clear it. A tick can only happen while it is set. `playBeepSound`
becomes a beep counter, and the tick function reports whether it beeped.

Four behaviours of the code are easy to misread; the model follows the code:

- Completing the workout invalidates the timer but leaves `timerRunning` set. `TimerEnd`
  states this.
- The sliders are disabled only while `timerRunning` is set. The comment on line 97 says
  "running or paused", but a paused session can still be reconfigured. Lowering the
  rounds or circuits while paused can therefore leave `currentRound > rounds` or
  `currentCircuit > circuits`. Because of this, `Inv` does not bound the counters. The
  separate `Bounded` holds under every operation except a settings change
  (`OperationsKeepBounds`, `RoundsLoweredWhilePaused`).
- A phase of N seconds takes N + 1 ticks: N decrements, then one tick at zero that beeps
  and ends the phase. With the launch settings (30/40 s, 3 rounds, 2 circuits) the
  workout takes 432 ticks (`DefaultWorkout`). A fresh workout therefore takes
  circuits × rounds × (work + rest + 2) ticks, not circuits × rounds × (work + rest).
- If the session is paused after the countdown reaches 0 but before the zero tick, a
  restart reloads the same phase at full length (`PauseAtZeroRestartsPhase`). In every
  other case, pause followed by start loses no seconds (`PauseThenStartResumes`).

## Model

| member | source | states |
|---|---|---|
| `TimerMachine.DefaultConfig` | hiit/ContentView.swift:5-8 | The launch settings lie within every slider range and call for 420 seconds of work and rest in all. |
| `TimerMachine.Launch` | hiit/ContentView.swift:9-16 | The launch session satisfies the invariant and is stopped, not complete and without a timer. Its round and circuit are within any in-range settings. |
| `TimerMachine.Start` | hiit/ContentView.swift:101-112 | Does nothing once the workout is complete. Otherwise the session runs with a live timer. Phase, round, circuit and completion are unchanged. A non-zero countdown is kept; an empty one is loaded with the current phase's length. From a valid state with in-range settings, the countdown afterwards is positive and the invariant holds. |
| `TimerMachine.Pause` | hiit/ContentView.swift:142-145 | The session is stopped with no timer, and every other field is unchanged. Keeps the invariant. |
| `TimerMachine.Reset` | hiit/ContentView.swift:147-155 | Whatever the session was, the result is exactly the launch session. |
| `TimerMachine.TimerEnd` | hiit/ContentView.swift:157-176 | `timerRunning` is untouched, also on completion. An incremented round never exceeds `rounds`, and an incremented circuit never exceeds `circuits`. The workout becomes complete exactly when a rest ends with round ≥ rounds and circuit ≥ circuits. Keeps the invariant. |
| `TimerMachine.Tick` | hiit/ContentView.swift:112-124 | Keeps `timerRunning` and the invariant. Afterwards the timer is live exactly when it was live before and the workout is not complete. |
| `TimerProperties.DecrementingTick` | hiit/ContentView.swift:113-119 | A tick on a positive countdown takes off exactly one second and changes nothing else. It beeps exactly when the new countdown is 1 to 4. |
| `TimerProperties.ZeroTick` | hiit/ContentView.swift:120-123 | A tick at zero beeps once and runs the phase transition. |
| `TimerProperties.PauseThenStartResumes` | hiit/ContentView.swift:105-109 | Pause followed by start gives back the running session unchanged when seconds remain. |
| `TimerProperties.PauseAtZeroRestartsPhase` | hiit/ContentView.swift:105-107 | Pause followed by start at countdown 0 reloads the current phase at full length instead of ending it. |
| `TimerProperties.ResetIdempotent` | hiit/ContentView.swift:147-155 | Reset is idempotent, and both results equal the launch session. |
| `TimerProperties.OperationsKeepBounds` | hiit/ContentView.swift:162-170 | Start, pause, reset, phase end and tick keep round ≤ rounds and circuit ≤ circuits. |
| `TimerProperties.RoundsLoweredWhilePaused` | hiit/ContentView.swift:33-36 | A paused session accepts a settings change. Lowering the rounds can push the session past the last round. Once restarted, the end of the rest moves to round 1 of the next circuit. |
| `TimerProperties.TickDecreasesMeasure` | hiit/ContentView.swift:112-124 | Every tick either completes the workout or decreases (circuits − circuit, rounds − round, phase, countdown) lexicographically. |
| `TimerProperties.TimerEndShortensSchedule` | hiit/ContentView.swift:157-176 | Ending a phase costs exactly one unit of the remaining schedule, for any per-phase costs. |
| `TimerProperties.TickShortensSchedule` | hiit/ContentView.swift:112-124 | Each tick of a live timer reduces the remaining tick count by exactly one. It reduces the remaining beep count by exactly the beep it plays. |
| `TimerProperties.Countdown` | hiit/ContentView.swift:113-114 | k ≤ N ticks on a countdown of N lower it by k and change nothing else. |
| `TimerProperties.PhaseEndsAfterOneMoreTick` | hiit/ContentView.swift:113-122 | A phase of N seconds ends (phase transition) on tick N + 1. |
| `TimerProperties.RoundOfWorkAndRest` | hiit/ContentView.swift:157-176 | From the start of a work phase, its end loads the rest time. The end of the rest then loads the work time for the next round, or for round 1 of the next circuit, or completes the workout. |
| `TimerProperties.RunToCompletion` | hiit/ContentView.swift:157-176 | With fixed settings, a live session completes after exactly `Remaining` ticks. The timer is live and the workout incomplete before that. The timer is gone after it. Exactly `RemainingBeeps` beeps are played. |
| `TimerProperties.FreshWorkout` | hiit/ContentView.swift:101-124 | Reset then start completes after exactly circuits × rounds × (work + rest + 2) ticks and not before, with 10 beeps per round. |
| `TimerProperties.DefaultWorkout` | hiit/ContentView.swift:5-8 | With the launch settings the workout completes at tick 432, not before, after 60 beeps. |
| `Hiit.ContentView.constructor` | hiit/ContentView.swift:5-16 | Builds the launch settings and session, with no beep played yet. |
| `Hiit.ContentView.SetWorkTime` | hiit/ContentView.swift:33 | Only while not running and not complete, with a value in 10–60. Changes the work time only. |
| `Hiit.ContentView.SetRestTime` | hiit/ContentView.swift:34 | Only while not running and not complete, with a value in 5–60. Changes the rest time only. |
| `Hiit.ContentView.SetRounds` | hiit/ContentView.swift:35 | Only while not running and not complete, with a value in 1–10. Changes the rounds only. |
| `Hiit.ContentView.SetCircuits` | hiit/ContentView.swift:36 | Only while not running and not complete, with a value in 1–5. Changes the circuits only. |
| `Hiit.ContentView.StartTimer` | hiit/ContentView.swift:101-112 | The new session is `Start` of the old one. Settings and beeps are unchanged, and `Valid` holds. |
| `Hiit.ContentView.Tick` | hiit/ContentView.swift:112-124 | Callable only while a timer is live. The new session is `Tick` of the old one, and one beep is added exactly when `Tick` beeps. |
| `Hiit.ContentView.PauseTimer` | hiit/ContentView.swift:142-145 | The new session is `Pause` of the old one. Settings and beeps are unchanged. |
| `Hiit.ContentView.ResetTimer` | hiit/ContentView.swift:147-155 | The new session is the launch session. Settings and beeps are unchanged. |
| `Hiit.ContentView.HandleTimerEnd` | hiit/ContentView.swift:157-176 | The new session is `TimerEnd` of the old one. Settings and beeps are unchanged, and `Valid` holds. |
| `Hiit.ContentView.PlayBeepSound` | hiit/ContentView.swift:178-190 | Records exactly one beep. |

## Left out

- The SwiftUI layout (`body`, `sliderView`, lines 18–99) is declarative display code. The model keeps only the slider ranges and the conditions under which the sliders can be used. Those are the preconditions of the four setters.
- The conversion from the slider's `Double` to `Int` (line 93) is not modelled. The setters take an integer already in range.
- The buttons are shown only while the workout is not complete (lines 26–78). The methods model the functions themselves, and those can be called in any valid state. As a result, after completion the screen offers no way to reset, but the model's `ResetTimer` can still be called.
- `playBeepSound` (lines 178–190) does its audio work through AVFoundation, and its failure path only logs. Only the fact that it was called is recorded, whether or not a sound would play.
- `Timer.scheduledTimer` and `invalidate` (lines 112, 144, 150, 173) use run-loop scheduling and wall-clock seconds. They are abstracted as the `timerActive` flag. A tick is callable while it is set.
- Hiit.ContentView.StartTimer: a call while a timer is already live would, in the Swift code, replace `timer` without invalidating the first one, leaving two timers firing. The single flag does not capture this. The only caller is the play/pause button (lines 57–62), which starts only when `timerRunning` is false. Since a live timer implies `timerRunning`, that case never arises from the screen.
- `scheduleCountdownBeeps` (lines 128–139) is never called. It relies on `DispatchQueue` delays with floating-point deadlines.
- Swift's 64-bit `Int` overflow is not modelled. Every value is bounded by the slider ranges or by a guarded increment.
