/** The HIIT screen's state and its operations, updated in place.

    The fields are those of `ContentView` (hiit/ContentView.swift); the audio player and the
    scheduled `Timer` are replaced by a beep counter and a `timerActive` flag. Every method
    is proved to have the effect of the matching function of `TimerMachine`, so the lemmas
    of `TimerProperties` apply to the screen. */
module Hiit {
  import opened TimerMachine

  class ContentView {
    var workTime: int
    var restTime: int
    var rounds: int
    var circuits: int
    var currentTime: int
    var isWorking: bool
    var currentRound: int
    var currentCircuit: int
    var timerRunning: bool
    var workoutComplete: bool
    /** A repeating one-second timer is scheduled and has not been invalidated. */
    var timerActive: bool
    /** How many beeps have been played. */
    var beeps: nat

    function Settings(): Config
      reads this
    {
      Config(workTime, restTime, rounds, circuits)
    }

    function State(): Session
      reads this
    {
      Session(currentTime, isWorking, currentRound, currentCircuit, timerRunning, workoutComplete, timerActive)
    }

    /** Settings within the slider ranges and a session satisfying the state invariant. */
    ghost predicate Valid()
      reads this
    {
      InSliderRange(Settings()) && Inv(State())
    }

    /** The screen as it opens: default settings, launch session, no beep played. */
    constructor ()
      ensures Valid()
      ensures Settings() == DefaultConfig() && State() == Launch() && beeps == 0
    {
      workTime, restTime, rounds, circuits := 30, 40, 3, 2;
      currentTime := 0;
      isWorking := true;
      currentRound, currentCircuit := 1, 1;
      timerRunning, workoutComplete := false, false;
      timerActive := false;
      beeps := 0;
    }

    /** The work-time slider, enabled only while the timer is not running and shown only
        while the workout is not complete. */
    method SetWorkTime(value: int)
      requires Valid() && !timerRunning && !workoutComplete
      requires 10 <= value <= 60
      modifies this`workTime
      ensures Valid() && Settings() == old(Settings()).(workTime := value)
    {
      workTime := value;
    }

    /** The rest-time slider. */
    method SetRestTime(value: int)
      requires Valid() && !timerRunning && !workoutComplete
      requires 5 <= value <= 60
      modifies this`restTime
      ensures Valid() && Settings() == old(Settings()).(restTime := value)
    {
      restTime := value;
    }

    /** The rounds slider. */
    method SetRounds(value: int)
      requires Valid() && !timerRunning && !workoutComplete
      requires 1 <= value <= 10
      modifies this`rounds
      ensures Valid() && Settings() == old(Settings()).(rounds := value)
    {
      rounds := value;
    }

    /** The circuits slider. */
    method SetCircuits(value: int)
      requires Valid() && !timerRunning && !workoutComplete
      requires 1 <= value <= 5
      modifies this`circuits
      ensures Valid() && Settings() == old(Settings()).(circuits := value)
    {
      circuits := value;
    }

    /** `startTimer`. */
    method StartTimer()
      requires Valid()
      modifies this
      ensures Valid() && Settings() == old(Settings()) && beeps == old(beeps)
      ensures State() == Start(old(Settings()), old(State()))
    {
      if workoutComplete {
        return;
      }
      if currentTime == 0 {
        currentTime := if isWorking then workTime else restTime;
      }
      timerRunning := true;
      timerActive := true;
    }

    /** One firing of the repeating timer scheduled by `startTimer`. */
    method Tick()
      requires Valid() && timerActive
      modifies this
      ensures Valid() && Settings() == old(Settings())
      ensures State() == TimerMachine.Tick(old(Settings()), old(State())).next
      ensures beeps == old(beeps) + if TimerMachine.Tick(old(Settings()), old(State())).beep then 1 else 0
    {
      if currentTime > 0 {
        currentTime := currentTime - 1;
        if currentTime in {4, 3, 2, 1} {
          PlayBeepSound();
        }
      } else {
        PlayBeepSound();
        HandleTimerEnd();
      }
    }

    /** `pauseTimer`. */
    method PauseTimer()
      requires Valid()
      modifies this
      ensures Valid() && Settings() == old(Settings()) && beeps == old(beeps)
      ensures State() == Pause(old(State()))
    {
      timerRunning := false;
      timerActive := false;
    }

    /** `resetTimer`. */
    method ResetTimer()
      requires Valid()
      modifies this
      ensures Valid() && Settings() == old(Settings()) && beeps == old(beeps)
      ensures State() == Reset(old(State()))
    {
      timerRunning := false;
      workoutComplete := false;
      timerActive := false;
      currentTime := 0;
      currentRound := 1;
      currentCircuit := 1;
      isWorking := true;
    }

    /** `handleTimerEnd`. */
    method HandleTimerEnd()
      requires Valid()
      modifies this
      ensures Valid() && Settings() == old(Settings()) && beeps == old(beeps)
      ensures State() == TimerEnd(old(Settings()), old(State()))
    {
      if isWorking {
        isWorking := !isWorking;
        currentTime := restTime;
      } else {
        if currentRound < rounds {
          currentRound := currentRound + 1;
          isWorking := !isWorking;
          currentTime := workTime;
        } else if currentCircuit < circuits {
          currentCircuit := currentCircuit + 1;
          currentRound := 1;
          isWorking := true;
          currentTime := workTime;
        } else {
          workoutComplete := true;
          timerActive := false;
        }
      }
    }

    /** `playBeepSound`: only the fact that a beep was played is kept. */
    method PlayBeepSound()
      modifies this`beeps
      ensures beeps == old(beeps) + 1
    {
      beeps := beeps + 1;
    }
  }
}
