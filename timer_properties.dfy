/** What the interval-timer state machine guarantees over one step and over a whole run:
    pausing and resuming, resetting, counters staying within the settings, and the exact
    number of ticks and beeps until the workout is complete. */
module TimerProperties {
  import opened TimerMachine

  // ---------------------------------------------------------------------------------
  // Single operations
  // ---------------------------------------------------------------------------------

  /** A tick on a positive countdown takes off exactly one second and touches nothing
      else; it beeps exactly when the new countdown is 4, 3, 2 or 1. */
  lemma DecrementingTick(c: Config, s: Session)
    requires s.currentTime > 0
    ensures Tick(c, s).next == s.(currentTime := s.currentTime - 1)
    ensures Tick(c, s).beep <==> 1 <= s.currentTime - 1 <= 4
  {
  }

  /** A tick on a countdown at zero beeps once and ends the phase. */
  lemma ZeroTick(c: Config, s: Session)
    requires Inv(s) && s.currentTime == 0
    ensures Tick(c, s) == Step(TimerEnd(c, s), true)
  {
  }

  /** Pausing and then starting again gives back the running session unchanged, as long
      as some seconds were left on the countdown. */
  lemma PauseThenStartResumes(c: Config, s: Session)
    requires Inv(s) && s.timerActive && s.currentTime > 0
    ensures Start(c, Pause(s)) == s
  {
  }

  /** Pausing on the tick where the countdown has reached zero, before the phase has
      ended, and then starting again does not end the phase: the same phase is loaded
      again with its full length. */
  lemma PauseAtZeroRestartsPhase(c: Config, s: Session)
    requires Inv(s) && s.timerActive && s.currentTime == 0
    ensures Start(c, Pause(s)) == s.(currentTime := PhaseLength(c, s.isWorking))
  {
  }

  /** Resetting twice is resetting once, and both give the launch session. */
  lemma ResetIdempotent(s: Session)
    ensures Reset(Reset(s)) == Reset(s) == Launch()
  {
  }

  /** Every operation but a settings change keeps round and circuit within the settings. */
  lemma OperationsKeepBounds(c: Config, s: Session)
    requires c.rounds >= 1 && Inv(s) && Bounded(c, s)
    ensures Bounded(c, Start(c, s)) && Bounded(c, Pause(s)) && Bounded(c, Reset(s))
    ensures Bounded(c, TimerEnd(c, s)) && Bounded(c, Tick(c, s).next)
  {
  }

  /** A settings change is allowed while paused, and lowering the rounds then leaves the
      session past the last round; once restarted, the rest's end moves on to round 1 of
      the next circuit. */
  lemma RoundsLoweredWhilePaused()
    ensures var running := Session(3, false, 2, 1, true, false, true);
            var paused := Pause(running);
            var lowered := Config(30, 40, 1, 2);
            !paused.timerRunning && !paused.workoutComplete && InSliderRange(lowered) &&
            Bounded(Config(30, 40, 3, 2), running) && !Bounded(lowered, paused) &&
            RunTicks(lowered, Start(lowered, paused), 4) == Session(30, true, 1, 2, true, false, true)
  {
  }

  // ---------------------------------------------------------------------------------
  // Progress: a lexicographic measure
  // ---------------------------------------------------------------------------------

  /** Circuits still to start, rounds still to start, whether a rest is still ahead in
      this round, seconds on the countdown. */
  datatype Measure = Measure(circuitsLeft: int, roundsLeft: int, phase: int, time: int)

  /** The measure of a session under settings `c`. */
  function MeasureOf(c: Config, s: Session): Measure {
    Measure(c.circuits - s.currentCircuit, c.rounds - s.currentRound, if s.isWorking then 1 else 0, s.currentTime)
  }

  /** Strictly smaller, comparing the components left to right. */
  predicate LexLess(a: Measure, b: Measure) {
    a.circuitsLeft < b.circuitsLeft ||
    (a.circuitsLeft == b.circuitsLeft &&
      (a.roundsLeft < b.roundsLeft ||
        (a.roundsLeft == b.roundsLeft &&
          (a.phase < b.phase || (a.phase == b.phase && a.time < b.time)))))
  }

  /** With the settings fixed, every tick either completes the workout or makes the
      measure smaller. */
  lemma TickDecreasesMeasure(c: Config, s: Session)
    requires !s.workoutComplete
    ensures Tick(c, s).next.workoutComplete || LexLess(MeasureOf(c, Tick(c, s).next), MeasureOf(c, s))
  {
  }

  // ---------------------------------------------------------------------------------
  // Progress: the exact schedule
  // ---------------------------------------------------------------------------------

  /** How far `total` is above `current`, or zero. */
  function Gap(total: int, current: int): (g: nat)
    ensures current < total ==> current + g == total
    ensures current >= total ==> g == 0
  {
    if current < total then total - current else 0
  }

  /** What is left of a workout when a work phase costs `work`, a rest phase costs `rest`
      and what is left of the current phase costs `now`: the current phase, the rest of this
      round, the remaining rounds of this circuit and the remaining circuits. Nothing is
      left once the workout is complete. */
  function ToGo(c: Config, s: Session, work: int, rest: int, now: int): int {
    if s.workoutComplete then 0
    else
      now + (if s.isWorking then rest else 0)
      + Gap(c.rounds, s.currentRound) * (work + rest)
      + Gap(c.circuits, s.currentCircuit) * c.rounds * (work + rest)
  }

  /** Beeps still to come in a phase whose countdown shows `t`: one for each of the
      countdown values 4, 3, 2, 1 still to be reached, and one at the end. */
  function PhaseBeeps(t: int): (n: int)
    ensures 1 <= n <= 5
    ensures t >= 5 ==> n == 5
  {
    (if t >= 5 then 4 else if t >= 2 then t - 1 else 0) + 1
  }

  /** Ticks still to come: a phase of N seconds takes N + 1 ticks. */
  function Remaining(c: Config, s: Session): int {
    ToGo(c, s, c.workTime + 1, c.restTime + 1, s.currentTime + 1)
  }

  /** Beeps still to come. */
  function RemainingBeeps(c: Config, s: Session): int {
    ToGo(c, s, PhaseBeeps(c.workTime), PhaseBeeps(c.restTime), PhaseBeeps(s.currentTime))
  }

  /** Ending a phase uses up exactly the one unit its zero tick costs: the next phase,
      starting afresh, has all the rest of the workout in front of it. */
  lemma {:induction false} TimerEndShortensSchedule(c: Config, s: Session, work: int, rest: int)
    requires c.rounds >= 1 && !s.workoutComplete
    ensures var t := TimerEnd(c, s);
            ToGo(c, t, work, rest, if t.isWorking then work else rest) + 1 == ToGo(c, s, work, rest, 1)
  {
    var t := TimerEnd(c, s);
    var p := work + rest;
    var gr, gc := Gap(c.rounds, s.currentRound), Gap(c.circuits, s.currentCircuit);
    var later := gc * c.rounds * p;
    assert ToGo(c, s, work, rest, 1) == 1 + (if s.isWorking then rest else 0) + gr * p + later;
    if s.isWorking {
      assert ToGo(c, t, work, rest, rest) == rest + gr * p + later;
    } else if s.currentRound < c.rounds {
      assert ToGo(c, t, work, rest, work) == work + rest + (gr - 1) * p + later;
      MultiplyPredecessor(gr, p);
    } else if s.currentCircuit < c.circuits {
      assert gr == 0;
      assert ToGo(c, t, work, rest, work) == work + rest + (c.rounds - 1) * p + (gc - 1) * c.rounds * p;
      MultiplyPredecessor(c.rounds, p);
      MultiplyPredecessor(gc, c.rounds * p);
      assert (gc - 1) * c.rounds * p == (gc - 1) * (c.rounds * p);
      assert later == gc * (c.rounds * p);
    } else {
      assert gr == 0 && gc == 0;
    }
  }

  /** One factor fewer is one summand fewer. */
  lemma MultiplyPredecessor(g: int, p: int)
    ensures (g - 1) * p == g * p - p
  {
  }

  /** The schedule beyond the current phase is never negative. */
  lemma {:induction false} ToGoBeyondPhase(c: Config, s: Session, work: int, rest: int, now: int)
    requires c.rounds >= 0 && work >= 0 && rest >= 0 && !s.workoutComplete
    ensures ToGo(c, s, work, rest, now) == now + ToGo(c, s, work, rest, 0)
    ensures ToGo(c, s, work, rest, 0) >= 0
  {
    var p := work + rest;
    var gr, gc := Gap(c.rounds, s.currentRound), Gap(c.circuits, s.currentCircuit);
    assert gr * p >= 0;
    assert gc * c.rounds >= 0;
    assert gc * c.rounds * p >= 0;
  }

  /** With the settings fixed, every tick of a live timer uses up exactly one tick of the
      schedule, and beeps exactly when the beep schedule has one to spend. */
  lemma {:induction false} TickShortensSchedule(c: Config, s: Session)
    requires InSliderRange(c) && Inv(s) && s.timerActive
    ensures Remaining(c, s) >= 1
    ensures Remaining(c, Tick(c, s).next) == Remaining(c, s) - 1
    ensures RemainingBeeps(c, Tick(c, s).next) + (if Tick(c, s).beep then 1 else 0) == RemainingBeeps(c, s)
  {
    var next := Tick(c, s).next;
    var work, rest := c.workTime + 1, c.restTime + 1;
    var beepsWork, beepsRest := PhaseBeeps(c.workTime), PhaseBeeps(c.restTime);
    ToGoBeyondPhase(c, s, work, rest, s.currentTime + 1);
    ToGoBeyondPhase(c, s, beepsWork, beepsRest, PhaseBeeps(s.currentTime));
    if s.currentTime > 0 {
      assert next == s.(currentTime := s.currentTime - 1);
      assert ToGo(c, next, work, rest, 0) == ToGo(c, s, work, rest, 0);
      assert ToGo(c, next, beepsWork, beepsRest, 0) == ToGo(c, s, beepsWork, beepsRest, 0);
      ToGoBeyondPhase(c, next, work, rest, s.currentTime);
      ToGoBeyondPhase(c, next, beepsWork, beepsRest, PhaseBeeps(next.currentTime));
    } else {
      TimerEndShortensSchedule(c, s, work, rest);
      TimerEndShortensSchedule(c, s, beepsWork, beepsRest);
    }
  }

  // ---------------------------------------------------------------------------------
  // Runs of ticks
  // ---------------------------------------------------------------------------------

  /** The session after `n` ticks with the settings fixed. */
  function RunTicks(c: Config, s: Session, n: nat): Session
    decreases n
  {
    if n == 0 then s else RunTicks(c, Tick(c, s).next, n - 1)
  }

  /** The beeps played during those `n` ticks. */
  function BeepsOver(c: Config, s: Session, n: nat): nat
    decreases n
  {
    if n == 0 then 0 else (if Tick(c, s).beep then 1 else 0) + BeepsOver(c, Tick(c, s).next, n - 1)
  }

  /** A countdown showing N seconds reaches 0 after N ticks, in the same phase, round and
      circuit and with nothing else changed. */
  lemma {:induction false} Countdown(c: Config, s: Session, k: nat)
    requires k <= s.currentTime
    ensures RunTicks(c, s, k) == s.(currentTime := s.currentTime - k)
    decreases k
  {
    if k > 0 {
      Countdown(c, s.(currentTime := s.currentTime - 1), k - 1);
    }
  }

  /** A phase of N seconds ends on tick N + 1. */
  lemma PhaseEndsAfterOneMoreTick(c: Config, s: Session)
    requires s.currentTime >= 0
    ensures RunTicks(c, s, s.currentTime + 1) == TimerEnd(c, s.(currentTime := 0))
  {
    Countdown(c, s, s.currentTime);
    assert RunTicks(c, s, s.currentTime + 1) == RunTicks(c, s.(currentTime := 0), 1) by {
      RunSplit(c, s, s.currentTime, 1);
    }
  }

  /** One work phase and one rest phase, from the start of a round: work gives way to rest
      with the rest time loaded; the rest then gives way to the next round's work, or to
      round 1 of the next circuit, with the work time loaded, or the workout is complete. */
  lemma {:induction false} RoundOfWorkAndRest(c: Config, s: Session)
    requires s.isWorking && s.currentTime >= 0 && c.restTime >= 0 && !s.workoutComplete
    ensures RunTicks(c, s, s.currentTime + 1) == s.(isWorking := false, currentTime := c.restTime)
    ensures var end := RunTicks(c, s, s.currentTime + 1 + c.restTime + 1);
            if s.currentRound < c.rounds then
              end == s.(currentRound := s.currentRound + 1, currentTime := c.workTime)
            else if s.currentCircuit < c.circuits then
              end == s.(currentRound := 1, currentCircuit := s.currentCircuit + 1, currentTime := c.workTime)
            else
              end == s.(isWorking := false, currentTime := 0, workoutComplete := true, timerActive := false)
  {
    var mid := s.(isWorking := false, currentTime := c.restTime);
    PhaseEndsAfterOneMoreTick(c, s);
    PhaseEndsAfterOneMoreTick(c, mid);
    RunSplit(c, s, s.currentTime + 1, c.restTime + 1);
  }

  /** Running n + m ticks is running n ticks and then m more. */
  lemma {:induction false} RunSplit(c: Config, s: Session, n: nat, m: nat)
    ensures RunTicks(c, s, n + m) == RunTicks(c, RunTicks(c, s, n), m)
    decreases n
  {
    if n > 0 {
      RunSplit(c, Tick(c, s).next, n - 1, m);
    }
  }

  /** With the settings fixed, a session with a live timer completes after exactly
      `Remaining` ticks: the timer stays live on every tick before, and is gone after;
      and exactly `RemainingBeeps` beeps are played on the way. */
  lemma {:induction false} RunToCompletion(c: Config, s: Session)
    requires InSliderRange(c) && Inv(s) && s.timerActive
    ensures Remaining(c, s) >= 1
    ensures RunTicks(c, s, Remaining(c, s)).workoutComplete
    ensures !RunTicks(c, s, Remaining(c, s)).timerActive
    ensures BeepsOver(c, s, Remaining(c, s)) == RemainingBeeps(c, s)
    ensures forall k :: 0 <= k < Remaining(c, s) ==>
              RunTicks(c, s, k).timerActive && !RunTicks(c, s, k).workoutComplete
    decreases Remaining(c, s)
  {
    TickShortensSchedule(c, s);
    var next := Tick(c, s).next;
    var n := Remaining(c, s);
    if next.workoutComplete {
      assert RunTicks(c, s, 1) == RunTicks(c, next, 0);
      assert BeepsOver(c, next, 0) == 0;
    } else {
      RunToCompletion(c, next);
      assert RunTicks(c, s, n) == RunTicks(c, next, n - 1);
      forall k | 0 <= k < n
        ensures RunTicks(c, s, k).timerActive && !RunTicks(c, s, k).workoutComplete
      {
        if k > 0 {
          assert RunTicks(c, s, k) == RunTicks(c, next, k - 1);
        }
      }
    }
  }

  /** Whatever went before, a reset followed by a start leads to completion after exactly
      circuits × rounds × (work + rest + 2) ticks, never earlier, with ten beeps per round. */
  lemma FreshWorkout(c: Config, s: Session)
    requires InSliderRange(c)
    ensures var started := Start(c, Reset(s));
            var n := c.circuits * c.rounds * (c.workTime + c.restTime + 2);
            started.timerActive &&
            RunTicks(c, started, n).workoutComplete && !RunTicks(c, started, n).timerActive &&
            (forall k :: 0 <= k < n ==>
               RunTicks(c, started, k).timerActive && !RunTicks(c, started, k).workoutComplete) &&
            BeepsOver(c, started, n) == 10 * c.circuits * c.rounds
  {
    var started := Start(c, Reset(s));
    var n := c.circuits * c.rounds * (c.workTime + c.restTime + 2);
    assert started == Session(c.workTime, true, 1, 1, true, false, true);
    assert Remaining(c, started) == n by {
      FreshSchedule(c, started, c.workTime + 1, c.restTime + 1);
      assert (c.workTime + 1) + (c.restTime + 1) == c.workTime + c.restTime + 2;
    }
    assert RemainingBeeps(c, started) == 10 * c.circuits * c.rounds by {
      FreshSchedule(c, started, PhaseBeeps(c.workTime), PhaseBeeps(c.restTime));
      assert PhaseBeeps(c.workTime) + PhaseBeeps(c.restTime) == 10;
    }
    RunToCompletion(c, started);
  }

  /** At the start of round 1 of circuit 1 the whole workout lies ahead. */
  lemma {:induction false} FreshSchedule(c: Config, s: Session, work: int, rest: int)
    requires c.rounds >= 1 && c.circuits >= 1
    requires !s.workoutComplete && s.isWorking && s.currentRound == 1 && s.currentCircuit == 1
    ensures ToGo(c, s, work, rest, work) == c.circuits * c.rounds * (work + rest)
  {
    var p := work + rest;
    assert Gap(c.rounds, 1) * p == c.rounds * p - p;
    assert Gap(c.circuits, 1) * c.rounds * p == (c.circuits - 1) * (c.rounds * p);
    assert (c.circuits - 1) * (c.rounds * p) == c.circuits * (c.rounds * p) - c.rounds * p;
    assert c.circuits * (c.rounds * p) == c.circuits * c.rounds * p;
  }

  /** With the launch settings (30 s work, 40 s rest, 3 rounds, 2 circuits) the workout
      takes 432 ticks and 60 beeps. */
  lemma DefaultWorkout(s: Session)
    ensures var c := DefaultConfig();
            var started := Start(c, Reset(s));
            RunTicks(c, started, 432).workoutComplete &&
            (forall k :: 0 <= k < 432 ==> !RunTicks(c, started, k).workoutComplete) &&
            BeepsOver(c, started, 432) == 60
  {
    var c := DefaultConfig();
    FreshWorkout(c, s);
    assert c.circuits * c.rounds * (c.workTime + c.restTime + 2) == 432;
  }
}
