/**
 * The standalone 25-minute countdown display: seconds left, a running flag
 * and the progress percentage, with start, pause and reset buttons, and its
 * `MM:SS` label.
 */
module TimerDisplay {
  import opened Wrappers
  import opened Text

  const SessionSeconds: int := 25 * 60

  /** Percentage of the 25 minutes used up when `time` seconds are left. */
  function Percentage(time: int): real {
    (SessionSeconds - time) as real / SessionSeconds as real * 100.0
  }

  class Display {
    var time: int
    var isActive: bool
    var percentage: real

    /** Seconds stay within the 25 minutes and the percentage follows them. */
    ghost predicate Valid()
      reads this
    {
      0 <= time <= SessionSeconds && percentage == Percentage(time)
    }

    constructor()
      ensures Valid() && time == SessionSeconds && !isActive && percentage == 0.0
    {
      time := SessionSeconds;
      isActive := false;
      percentage := 0.0;
    }

    /** One interval tick: only while running, one second down, never below zero. */
    method Tick()
      requires Valid()
      modifies this
      ensures Valid() && isActive == old(isActive)
      ensures old(isActive) ==> time == (if old(time) > 0 then old(time) - 1 else 0)
      ensures !old(isActive) ==> time == old(time) && percentage == old(percentage)
    {
      if isActive {
        var newTime := if time > 0 then time - 1 else 0;
        percentage := Percentage(newTime);
        time := newTime;
      }
    }

    method HandleStart()
      requires Valid()
      modifies this
      ensures Valid() && isActive && time == old(time) && percentage == old(percentage)
    {
      isActive := true;
    }

    method HandlePause()
      requires Valid()
      modifies this
      ensures Valid() && !isActive && time == old(time) && percentage == old(percentage)
    {
      isActive := false;
    }

    method HandleReset()
      requires Valid()
      modifies this
      ensures Valid() && !isActive && time == SessionSeconds && percentage == 0.0
    {
      isActive := false;
      time := SessionSeconds;
      percentage := 0.0;
    }
  }

  /** The percentage runs from 0 with the full 25 minutes left to 100 at zero, and grows as time runs down. */
  lemma PercentageBounds(time: int, later: int)
    requires 0 <= later <= time <= SessionSeconds
    ensures 0.0 <= Percentage(time) <= Percentage(later) <= 100.0
    ensures Percentage(SessionSeconds) == 0.0 && Percentage(0) == 100.0
  {
  }

  /** `formatTime`: minutes and seconds, each padded to two digits. */
  function FormatClock(seconds: nat): string {
    Pad2(seconds / 60) + ":" + Pad2(seconds % 60)
  }

  /** Reads an `M:S` label back into seconds. */
  function ParseClock(clock: string): Option<int> {
    var parts := Split(clock, ':');
    if |parts| == 2 && AllDigits(parts[0]) && AllDigits(parts[1]) then
      Some(ParseNat(parts[0]) * 60 + ParseNat(parts[1]))
    else None
  }

  lemma DigitsHaveNoColon(s: string)
    requires AllDigits(s)
    ensures ':' !in s
  {
  }

  /**
   * The label reads back as the same number of seconds; its seconds part is
   * always two digits below 60.
   */
  lemma FormatClockRoundTrip(seconds: nat)
    ensures ParseClock(FormatClock(seconds)) == Some(seconds)
    ensures var parts := Split(FormatClock(seconds), ':');
      |parts| == 2 && |parts[1]| == 2 && ParseNat(parts[1]) < 60
  {
    var m := Pad2(seconds / 60);
    var s := Pad2(seconds % 60);
    Pad2Shape(seconds / 60);
    Pad2Shape(seconds % 60);
    DigitsHaveNoColon(m);
    DigitsHaveNoColon(s);
    assert FormatClock(seconds) == m + [':'] + s;
    SplitFirst(m, ':', s);
    SplitNone(s, ':');
  }

  /** The initial 25 minutes show as "25:00". */
  lemma FormatClockFullSession()
    ensures FormatClock(SessionSeconds as nat) == "25:00"
  {
    assert NatToString(25) == "25";
    assert NatToString(0) == "0";
  }
}
