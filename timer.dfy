/**
 * The countdown of `Timer.jsx`: `timeLeft` seconds remain, and `isUrgent` flags the last minute.
 * Each interval tick lowers `timeLeft` by one; once it is at or below zero the component calls
 * `onTimeUp` and schedules no further tick.
 */
module Timer {

  /** The default of the `initialTime` prop, in seconds; the quiz page passes the same value. */
  const DefaultInitialTime := 300

  /** A tick that leaves this many seconds or fewer turns the display urgent. */
  const UrgentThreshold := 60

  /** How many ticks the component schedules before reporting time-up, from `t` seconds left. */
  function TicksUntilTimeUp(t: int): nat
  {
    if t <= 0 then 0 else 1 + TicksUntilTimeUp(t - 1)
  }

  /** From a non-negative start the countdown reaches time-up after exactly that many ticks. */
  lemma {:induction false} TicksUntilTimeUpIsStart(t: int)
    ensures TicksUntilTimeUp(t) == if t <= 0 then 0 else t
  {
    if t > 0 {
      TicksUntilTimeUpIsStart(t - 1);
    }
  }

  class Timer {
    const initialTime: int
    var timeLeft: int
    var isUrgent: bool

    /** The component mounts with the full time left and the urgent flag off, whatever the time. */
    constructor (initialTime: int)
      ensures this.initialTime == initialTime && timeLeft == initialTime && !isUrgent
    {
      this.initialTime := initialTime;
      timeLeft := initialTime;
      isUrgent := false;
    }

    /** The effect's guard: at or below zero it calls `onTimeUp` instead of scheduling a tick. */
    predicate IsTimeUp()
      reads this
    {
      timeLeft <= 0
    }

    /** One interval tick; only scheduled while time remains. */
    method Tick()
      requires !IsTimeUp()
      modifies this
      ensures timeLeft == old(timeLeft) - 1 && timeLeft >= 0
      ensures isUrgent <==> timeLeft <= UrgentThreshold
    {
      var newTime := timeLeft - 1;
      isUrgent := newTime <= UrgentThreshold;
      timeLeft := newTime;
    }

    /**
     * Lets the countdown run until the time-up condition holds, and says how many ticks it took:
     * from a non-negative start it stops at exactly zero, never below.
     */
    method RunToTimeUp() returns (ticks: nat)
      modifies this
      ensures IsTimeUp()
      ensures ticks == TicksUntilTimeUp(old(timeLeft))
      ensures old(timeLeft) >= 0 ==> timeLeft == 0
      ensures old(timeLeft) < 0 ==> timeLeft == old(timeLeft) && isUrgent == old(isUrgent)
      ensures ticks > 0 ==> isUrgent
    {
      ticks := 0;
      while !IsTimeUp()
        invariant old(timeLeft) > 0 ==> 0 <= timeLeft <= old(timeLeft)
        invariant old(timeLeft) <= 0 ==> timeLeft == old(timeLeft) && isUrgent == old(isUrgent) && ticks == 0
        invariant ticks + TicksUntilTimeUp(timeLeft) == TicksUntilTimeUp(old(timeLeft))
        invariant ticks > 0 ==> isUrgent == (timeLeft <= UrgentThreshold)
        decreases timeLeft
      {
        Tick();
        ticks := ticks + 1;
      }
    }
  }

  /** The quiz's five-minute countdown reports time-up after exactly 300 ticks. */
  method QuizCountdown() returns (ticks: nat)
    ensures ticks == DefaultInitialTime
  {
    var timer := new Timer(DefaultInitialTime);
    ticks := timer.RunToTimeUp();
    TicksUntilTimeUpIsStart(DefaultInitialTime);
  }
}
