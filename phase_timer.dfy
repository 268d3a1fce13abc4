/**
 * The phase-aware countdown hook: a list of phases, each with a duration in
 * seconds, and five state slots that the one-second tick and the four
 * controls update.
 */
module PhaseTimer {
  datatype Phase = Phase(name: string, duration: int)

  class Timer {
    const phases: seq<Phase>
    const initialPhaseIndex: nat
    var time: int
    var isActive: bool
    var currentPhaseIndex: nat
    var phaseElapsedTime: int
    var isPaused: bool

    /**
     * The phase index stays in range, and while time is left in a phase the
     * elapsed and remaining seconds add up to its duration.
     */
    ghost predicate Valid()
      reads this
    {
      initialPhaseIndex < |phases| && currentPhaseIndex < |phases| && phaseElapsedTime >= 0 &&
      (time > 0 ==> phaseElapsedTime + time == phases[currentPhaseIndex].duration)
    }

    /** The hook's initial state: the initial phase, its full duration, idle. */
    constructor(phases: seq<Phase>, initialPhaseIndex: nat)
      requires initialPhaseIndex < |phases|
      ensures Valid()
      ensures this.phases == phases && this.initialPhaseIndex == initialPhaseIndex
      ensures currentPhaseIndex == initialPhaseIndex && time == phases[initialPhaseIndex].duration
      ensures phaseElapsedTime == 0 && !isActive && !isPaused
    {
      this.phases := phases;
      this.initialPhaseIndex := initialPhaseIndex;
      currentPhaseIndex := initialPhaseIndex;
      phaseElapsedTime := 0;
      time := phases[initialPhaseIndex].duration;
      isActive := false;
      isPaused := false;
    }

    /**
     * One interval tick. Only a running, unpaused timer ticks: time left is
     * counted down; at zero the next phase starts with its full duration;
     * after the last phase the timer stops at zero.
     */
    method Tick()
      requires Valid()
      modifies this
      ensures Valid()
      ensures !(old(isActive) && !old(isPaused)) ==>
        time == old(time) && isActive == old(isActive) && currentPhaseIndex == old(currentPhaseIndex) &&
        phaseElapsedTime == old(phaseElapsedTime) && isPaused == old(isPaused)
      ensures old(isActive) && !old(isPaused) && old(time) > 0 ==>
        time == old(time) - 1 && phaseElapsedTime == old(phaseElapsedTime) + 1 &&
        currentPhaseIndex == old(currentPhaseIndex) && isActive && !isPaused
      ensures old(isActive) && !old(isPaused) && old(time) <= 0 && old(currentPhaseIndex) < |phases| - 1 ==>
        currentPhaseIndex == old(currentPhaseIndex) + 1 && time == phases[currentPhaseIndex].duration &&
        phaseElapsedTime == 0 && isActive && !isPaused
      ensures old(isActive) && !old(isPaused) && old(time) <= 0 && old(currentPhaseIndex) == |phases| - 1 ==>
        currentPhaseIndex == old(currentPhaseIndex) && time == 0 &&
        phaseElapsedTime == old(phaseElapsedTime) + 1 && !isActive && !isPaused
    {
      if isActive && !isPaused {
        phaseElapsedTime := phaseElapsedTime + 1;
        if time > 0 {
          time := time - 1;
        } else if currentPhaseIndex < |phases| - 1 {
          currentPhaseIndex := currentPhaseIndex + 1;
          phaseElapsedTime := 0;
          time := phases[currentPhaseIndex].duration;
        } else {
          isActive := false;
          time := 0;
        }
      }
    }

    /** `start`: running and unpaused; the countdown itself is untouched. */
    method Start()
      requires Valid()
      modifies this
      ensures Valid() && isActive && !isPaused
      ensures time == old(time) && currentPhaseIndex == old(currentPhaseIndex) && phaseElapsedTime == old(phaseElapsedTime)
    {
      isActive := true;
      isPaused := false;
    }

    /** `pause`: only the paused flag changes. */
    method Pause()
      requires Valid()
      modifies this
      ensures Valid() && isPaused
      ensures time == old(time) && isActive == old(isActive) && currentPhaseIndex == old(currentPhaseIndex)
      ensures phaseElapsedTime == old(phaseElapsedTime)
    {
      isPaused := true;
    }

    /** `resume`: only the paused flag changes. */
    method Resume()
      requires Valid()
      modifies this
      ensures Valid() && !isPaused
      ensures time == old(time) && isActive == old(isActive) && currentPhaseIndex == old(currentPhaseIndex)
      ensures phaseElapsedTime == old(phaseElapsedTime)
    {
      isPaused := false;
    }

    /** `reset`: back to the initial state of the hook. */
    method Reset()
      requires Valid()
      modifies this
      ensures Valid()
      ensures currentPhaseIndex == initialPhaseIndex && time == phases[initialPhaseIndex].duration
      ensures phaseElapsedTime == 0 && !isActive && !isPaused
    {
      isActive := false;
      isPaused := false;
      currentPhaseIndex := initialPhaseIndex;
      phaseElapsedTime := 0;
      time := phases[initialPhaseIndex].duration;
    }
  }

  /**
   * Two 3-second phases: after start, four ticks take the timer through the
   * first phase into the second with its full duration.
   */
  method ScenarioTwoPhases() returns (t: Timer)
    ensures t.currentPhaseIndex == 1 && t.time == 3 && t.phaseElapsedTime == 0 && t.isActive
  {
    t := new Timer([Phase("Work", 3), Phase("Break", 3)], 0);
    t.Start();
    t.Tick();
    t.Tick();
    t.Tick();
    assert t.time == 0 && t.phaseElapsedTime == 3;
    t.Tick();
  }
}
