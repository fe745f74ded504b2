/** The interval-timer state machine of the HIIT screen, written on values.

    `ContentView` (hiit/ContentView.swift) keeps its settings and its session in `@State`
    fields and changes them in place; each function below is one of its operations applied
    to a snapshot of those fields. The class `Hiit.ContentView` runs the same steps in place
    and is proved to agree with these functions. */
module TimerMachine {

  /** The four slider-controlled settings: seconds of work, seconds of rest, rounds per
      circuit and number of circuits. */
  datatype Config = Config(workTime: int, restTime: int, rounds: int, circuits: int)

  /** The ranges of the four sliders; a setting only ever takes a value in its range. */
  predicate InSliderRange(c: Config) {
    10 <= c.workTime <= 60 && 5 <= c.restTime <= 60 && 1 <= c.rounds <= 10 && 1 <= c.circuits <= 5
  }

  /** The settings the screen opens with; they call for 420 seconds of work and rest in all
      (2 circuits of 3 rounds of 30 + 40 seconds). */
  function DefaultConfig(): (c: Config)
    ensures InSliderRange(c)
    ensures c.circuits * c.rounds * (c.workTime + c.restTime) == 420
  {
    Config(30, 40, 3, 2)
  }

  /** The session fields. `timerActive` stands for the optional `timer` field holding a
      repeating one-second timer that has been scheduled and not invalidated since. */
  datatype Session = Session(
    currentTime: int,
    isWorking: bool,
    currentRound: int,
    currentCircuit: int,
    timerRunning: bool,
    workoutComplete: bool,
    timerActive: bool)

  /** What every reachable session satisfies: the countdown is never negative, round and
      circuit numbers start at 1, and a live timer means the session is running and not
      complete. Round and circuit are NOT bounded by the settings here: the settings may be
      lowered while the session is paused (see `Bounded`). */
  predicate Inv(s: Session) {
    s.currentTime >= 0 && s.currentRound >= 1 && s.currentCircuit >= 1 &&
    (s.timerActive ==> s.timerRunning && !s.workoutComplete)
  }

  /** Round and circuit within the configured numbers. */
  predicate Bounded(c: Config, s: Session) {
    s.currentRound <= c.rounds && s.currentCircuit <= c.circuits
  }

  /** The session the screen opens with: work phase, nothing counted down, round 1 of
      circuit 1, stopped, no timer scheduled. */
  function Launch(): (s: Session)
    ensures Inv(s) && !s.timerActive && !s.timerRunning && !s.workoutComplete
    ensures forall c :: InSliderRange(c) ==> Bounded(c, s)
  {
    Session(0, true, 1, 1, false, false, false)
  }

  /** Seconds of the phase `isWorking` selects. */
  function PhaseLength(c: Config, isWorking: bool): int {
    if isWorking then c.workTime else c.restTime
  }

  /** `startTimer`: nothing happens once the workout is complete; otherwise an empty
      countdown is loaded with the current phase's length, and the session runs with a
      timer scheduled. */
  function Start(c: Config, s: Session): (t: Session)
    ensures s.workoutComplete ==> t == s
    ensures !s.workoutComplete ==> t.timerRunning && t.timerActive
    ensures t.isWorking == s.isWorking && t.currentRound == s.currentRound
    ensures t.currentCircuit == s.currentCircuit && t.workoutComplete == s.workoutComplete
    ensures s.currentTime != 0 ==> t.currentTime == s.currentTime
    ensures !s.workoutComplete && s.currentTime == 0 ==> t.currentTime == PhaseLength(c, s.isWorking)
    ensures InSliderRange(c) && Inv(s) ==> Inv(t) && (!s.workoutComplete ==> t.currentTime > 0)
  {
    if s.workoutComplete then s
    else
      var loaded := if s.currentTime == 0 then s.(currentTime := PhaseLength(c, s.isWorking)) else s;
      loaded.(timerRunning := true, timerActive := true)
  }

  /** `pauseTimer`: the session stops and the timer is invalidated; nothing else changes. */
  function Pause(s: Session): (t: Session)
    ensures !t.timerRunning && !t.timerActive
    ensures t.(timerRunning := s.timerRunning, timerActive := s.timerActive) == s
    ensures Inv(s) ==> Inv(t)
  {
    s.(timerRunning := false, timerActive := false)
  }

  /** `resetTimer`: whatever the session was, it is back to the one the screen opens with. */
  function Reset(s: Session): (t: Session)
    ensures t == Launch()
  {
    s.(timerRunning := false, workoutComplete := false, timerActive := false,
       currentTime := 0, currentRound := 1, currentCircuit := 1, isWorking := true)
  }

  /** `handleTimerEnd`, run when a phase has counted down: work is followed by rest; rest
      is followed by the next round's work, or else by the first round of the next circuit,
      or else the workout is complete and the timer invalidated. `timerRunning` is left as
      it was, also on completion. */
  function TimerEnd(c: Config, s: Session): (t: Session)
    ensures t.timerRunning == s.timerRunning
    ensures c.rounds >= 1 && t.currentRound > s.currentRound ==> t.currentRound <= c.rounds
    ensures t.currentCircuit > s.currentCircuit ==> t.currentCircuit <= c.circuits
    ensures t.workoutComplete != s.workoutComplete <==>
              !s.workoutComplete && !s.isWorking && s.currentRound >= c.rounds && s.currentCircuit >= c.circuits
    ensures InSliderRange(c) && Inv(s) ==> Inv(t)
  {
    if s.isWorking then
      s.(isWorking := !s.isWorking, currentTime := c.restTime)
    else if s.currentRound < c.rounds then
      s.(currentRound := s.currentRound + 1, isWorking := !s.isWorking, currentTime := c.workTime)
    else if s.currentCircuit < c.circuits then
      s.(currentCircuit := s.currentCircuit + 1, currentRound := 1, isWorking := true,
         currentTime := c.workTime)
    else
      s.(workoutComplete := true, timerActive := false)
  }

  /** The outcome of one tick: the new session and whether a beep was played. */
  datatype Step = Step(next: Session, beep: bool)

  /** The body of the repeating timer: a running countdown loses one second and beeps when
      it lands on 4, 3, 2 or 1; a countdown at zero beeps and ends the phase. */
  function Tick(c: Config, s: Session): (o: Step)
    ensures o.next.timerRunning == s.timerRunning
    ensures InSliderRange(c) && Inv(s) ==> Inv(o.next)
    ensures Inv(s) ==> (o.next.timerActive <==> s.timerActive && !o.next.workoutComplete)
  {
    if s.currentTime > 0 then
      var t := s.(currentTime := s.currentTime - 1);
      Step(t, t.currentTime in {4, 3, 2, 1})
    else
      Step(TimerEnd(c, s), true)
  }
}
