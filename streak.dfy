/**
 * `calculateStreak`: the current streak is recomputed from the completed
 * sessions in the history by walking back day by day from today; the
 * longest streak is raised to it.
 */
module Streak {
  import opened Model

  /** The walk back inspects at most this many days. */
  const StreakWindow: nat := 365

  /** Some completed session of the history started on day `d`. */
  predicate HasCompletedOn(h: seq<Session>, d: int) {
    exists i :: 0 <= i < |h| && h[i].completed && DayOf(h[i].startTime) == d
  }

  /** Number of consecutive days ending at `d` with a completed session, counting at most `fuel`. */
  function RunLength(h: seq<Session>, d: int, fuel: nat): nat
    decreases fuel
  {
    if fuel == 0 || !HasCompletedOn(h, d) then 0 else 1 + RunLength(h, d - 1, fuel - 1)
  }

  /**
   * The streak the walk finds. The walk only starts when today has a
   * completed session, so the streak is 0 whenever today has none.
   */
  function StreakLength(h: seq<Session>, today: int): nat {
    if HasCompletedOn(h, today) then RunLength(h, today, StreakWindow) else 0
  }

  function Max(a: int, b: int): int {
    if a >= b then a else b
  }

  /** The statistics after `calculateStreak` on day `today`. */
  function StreakRecomputed(s: UserStats, today: int): UserStats {
    var h := s.sessionHistory;
    if |h| == 0 then s
    else if !HasCompletedOn(h, today) && !HasCompletedOn(h, today - 1) then s.(currentStreak := 0)
    else
      var c := StreakLength(h, today);
      s.(currentStreak := c, longestStreak := Max(s.longestStreak, c))
  }

  /** `calculateStreak` with its `while` loop over the days. */
  method CalculateStreak(s: UserStats, today: int) returns (r: UserStats)
    ensures r == StreakRecomputed(s, today)
  {
    var h := s.sessionHistory;
    if |h| == 0 {
      return s;
    }
    var hasSessionToday := HasCompletedOn(h, today);
    if !hasSessionToday {
      var hasSessionYesterday := HasCompletedOn(h, today - 1);
      if !hasSessionYesterday {
        return s.(currentStreak := 0);
      }
    }
    var currentStreak: nat := 0;
    var dateToCheck := today;
    var daysChecked: nat := 0;
    var streakActive := hasSessionToday;
    while streakActive && daysChecked < StreakWindow
      invariant daysChecked <= StreakWindow
      invariant dateToCheck == today - daysChecked
      invariant streakActive ==> hasSessionToday && currentStreak == daysChecked
      invariant streakActive ==> StreakLength(h, today) == currentStreak + RunLength(h, dateToCheck, StreakWindow - daysChecked)
      invariant !streakActive ==> currentStreak == StreakLength(h, today)
      decreases StreakWindow - daysChecked, streakActive
    {
      var hasSessionOnDate := HasCompletedOn(h, dateToCheck);
      if hasSessionOnDate {
        currentStreak := currentStreak + 1;
      } else if daysChecked > 0 {
        streakActive := false;
        break;
      }
      dateToCheck := dateToCheck - 1;
      daysChecked := daysChecked + 1;
    }
    r := s.(currentStreak := currentStreak, longestStreak := Max(s.longestStreak, currentStreak));
  }

  // ---- what the streak is

  lemma {:induction false} RunLengthMeaning(h: seq<Session>, d: int, fuel: nat)
    ensures var n := RunLength(h, d, fuel);
      n <= fuel &&
      (forall x :: d - n < x <= d ==> HasCompletedOn(h, x)) &&
      (n < fuel ==> !HasCompletedOn(h, d - n))
    decreases fuel
  {
    if fuel > 0 && HasCompletedOn(h, d) {
      RunLengthMeaning(h, d - 1, fuel - 1);
    }
  }

  /**
   * With a non-empty history, the recomputed current streak is the number of
   * consecutive days ending today that have a completed session, capped at
   * 365: each of those days has one, and (below the cap) the day before them
   * has none. It is 0 exactly when today has no completed session, in
   * particular when only yesterday has one.
   */
  lemma CurrentStreakMeaning(s: UserStats, today: int)
    requires |s.sessionHistory| > 0
    ensures var h := s.sessionHistory;
      var c := StreakRecomputed(s, today).currentStreak;
      c <= StreakWindow &&
      (c == 0 <==> !HasCompletedOn(h, today)) &&
      (forall x :: today - c < x <= today ==> HasCompletedOn(h, x)) &&
      (0 < c < StreakWindow ==> !HasCompletedOn(h, today - c))
  {
    RunLengthMeaning(s.sessionHistory, today, StreakWindow);
  }

  /**
   * The longest streak never decreases and becomes the larger of its old
   * value and the new current streak; with a non-empty history it is at
   * least the current streak afterwards. Nothing but the two streak fields
   * changes.
   */
  lemma LongestStreakMonotone(s: UserStats, today: int)
    ensures var r := StreakRecomputed(s, today);
      r.longestStreak >= s.longestStreak &&
      (|s.sessionHistory| > 0 ==> r.longestStreak == Max(s.longestStreak, r.currentStreak) && r.longestStreak >= r.currentStreak) &&
      r == s.(currentStreak := r.currentStreak, longestStreak := r.longestStreak)
  {
  }

  /** An empty history leaves the statistics untouched, even a stale streak. */
  lemma EmptyHistoryUnchanged(s: UserStats, today: int)
    requires |s.sessionHistory| == 0
    ensures StreakRecomputed(s, today) == s
  {
  }

  /**
   * Three consecutive days with completed sessions, the day before them
   * without: the streak is 3 on the third day; on the next day, with no
   * session yet, the current streak drops to 0 while the longest stays.
   */
  lemma ScenarioThreeDayStreak(s: UserStats, d: int)
    requires HasCompletedOn(s.sessionHistory, d - 2) && HasCompletedOn(s.sessionHistory, d - 1)
    requires HasCompletedOn(s.sessionHistory, d) && !HasCompletedOn(s.sessionHistory, d - 3)
    requires !HasCompletedOn(s.sessionHistory, d + 1)
    ensures var r := StreakRecomputed(s, d);
      r.currentStreak == 3 && r.longestStreak >= 3 &&
      var next := StreakRecomputed(r, d + 1);
      next.currentStreak == 0 && next.longestStreak == r.longestStreak
  {
    var h := s.sessionHistory;
    assert RunLength(h, d - 3, StreakWindow - 3) == 0;
    assert RunLength(h, d - 2, StreakWindow - 2) == 1;
    assert RunLength(h, d - 1, StreakWindow - 1) == 2;
  }
}
