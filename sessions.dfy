/**
 * The session tracker of the data context: at most one current session,
 * started, paused, resumed, completed or cancelled against the user
 * statistics; rehydration of a saved session on load; the remaining time of
 * a session; the developer shortcut that synthesizes completed sessions.
 * "Now" is a parameter of every operation, as is the start of the local week
 * where achievements are evaluated.
 */
module Sessions {
  import opened Wrappers
  import opened Model
  import Text
  import DailyStats
  import Achievements
  import Streak

  /** The two roots: the current session, if any, and the statistics. */
  datatype Engine = Engine(current: Option<Session>, stats: UserStats)

  /**
   * The state on load: the saved statistics or the defaults, and the saved
   * session, unless it ran out unpaused and uncompleted before `now`, in which
   * case it is finalised as completed at its target end time instead.
   */
  function Load(savedStats: Option<UserStats>, savedSession: Option<Session>, now: int): Engine {
    var stats := savedStats.GetOr(DefaultStats);
    match savedSession
    case None => Engine(None, stats)
    case Some(p) =>
      if p.targetEndTime < now && !p.completed && p.pausedAt.None? then
        var done := p.(endTime := Some(p.targetEndTime), completed := true);
        var s1 := stats.(completedSessions := stats.completedSessions + 1,
                         sessionHistory := stats.sessionHistory + [done]);
        Engine(None, s1.(dailyStats := DailyStats.UpdateDailyStats(s1.dailyStats, done)))
      else Engine(Some(p), stats)
  }

  /** The session `startSession(kind, duration)` creates at `now`; its id is `Date.now().toString()`. */
  function NewSession(kind: SessionKind, duration: nat, now: int): Session {
    Session(Text.IntToString(now), kind, now, None, duration, false, now + duration * 1000, None, 0)
  }

  /** `startSession`: a no-op while a session is current. */
  function StartSession(e: Engine, kind: SessionKind, duration: nat, now: int): Engine {
    if e.current.Some? then e
    else Engine(Some(NewSession(kind, duration, now)), e.stats.(totalSessions := e.stats.totalSessions + 1))
  }

  /** `pauseSession`: a no-op without a session or when already paused. */
  function PauseSession(e: Engine, now: int): Engine {
    match e.current
    case None => e
    case Some(c) => if c.pausedAt.Some? then e else e.(current := Some(c.(pausedAt := Some(now))))
  }

  /** `resumeSession`: a no-op unless paused; the pause shifts the target end and adds to the paused total. */
  function ResumeSession(e: Engine, now: int): Engine {
    match e.current
    case None => e
    case Some(c) =>
      match c.pausedAt
      case None => e
      case Some(p) =>
        var pauseDuration := now - p;
        e.(current := Some(c.(pausedAt := None,
                              totalPausedTime := c.totalPausedTime + pauseDuration,
                              targetEndTime := c.targetEndTime + pauseDuration)))
  }

  /** The session as `completeSession` files it: an open pause is folded into the paused total. */
  function Finished(c: Session, now: int): Session {
    var openPause := match c.pausedAt case Some(p) => now - p case None => 0;
    c.(endTime := Some(now), completed := true, totalPausedTime := c.totalPausedTime + openPause)
  }

  /**
   * `completeSession`: append to the history, count it, roll it into its
   * day, evaluate the achievements, clear the current session.
   */
  function CompleteSession(e: Engine, now: int, weekStart: int): Engine {
    match e.current
    case None => e
    case Some(c) =>
      var done := Finished(c, now);
      var s1 := e.stats.(completedSessions := e.stats.completedSessions + 1,
                         sessionHistory := e.stats.sessionHistory + [done]);
      var s2 := s1.(dailyStats := DailyStats.UpdateDailyStats(s1.dailyStats, done));
      Engine(None, Achievements.Checked(s2, now, weekStart))
  }

  /** `cancelSession`: file the session as not completed and clear it. */
  function CancelSession(e: Engine, now: int): Engine {
    match e.current
    case None => e
    case Some(c) =>
      Engine(None, e.stats.(sessionHistory := e.stats.sessionHistory + [c.(endTime := Some(now), completed := false)]))
  }

  /** `resetStats` once confirmed: default statistics with a fresh catalog, no session. */
  function ResetStats(e: Engine): Engine {
    Engine(None, DefaultStats)
  }

  /** The streak recomputation that follows every change of the history. */
  function RecomputeStreak(e: Engine, now: int): Engine {
    e.(stats := Streak.StreakRecomputed(e.stats, DayOf(now)))
  }

  /**
   * `calculateRemainingTime`: whole seconds left, never negative; while
   * paused, measured at the instant of pausing.
   */
  function RemainingTime(session: Option<Session>, now: int): (r: int)
    ensures r >= 0
    ensures session.None? ==> r == 0
  {
    match session
    case None => 0
    case Some(c) =>
      match c.pausedAt
      case Some(p) => if c.targetEndTime - p >= 0 then (c.targetEndTime - p) / 1000 else 0
      case None => if c.targetEndTime - now >= 0 then (c.targetEndTime - now) / 1000 else 0
  }

  // ---- starting, pausing and resuming

  /** Starting while a session is current changes nothing, its id included. */
  lemma StartKeepsExisting(e: Engine, kind: SessionKind, duration: nat, now: int)
    requires e.current.Some?
    ensures StartSession(e, kind, duration, now) == e
  {
  }

  /**
   * Starting without a session creates a running, unpaused, uncompleted
   * session due `duration` seconds from now, with the whole duration
   * remaining, and counts one more started session.
   */
  lemma StartCreates(e: Engine, kind: SessionKind, duration: nat, now: int)
    requires e.current.None?
    ensures var r := StartSession(e, kind, duration, now);
      r.current.Some? &&
      var c := r.current.value;
      c.kind == kind && c.startTime == now && c.duration == duration &&
      c.targetEndTime == now + duration * 1000 && c.pausedAt == None &&
      c.totalPausedTime == 0 && !c.completed && c.endTime == None &&
      RemainingTime(r.current, now) == duration &&
      r.stats == e.stats.(totalSessions := e.stats.totalSessions + 1)
  {
  }

  /** Pausing changes the state exactly when a session runs unpaused. */
  lemma PauseNoop(e: Engine, now: int)
    ensures PauseSession(e, now) == e <==> e.current.None? || e.current.value.pausedAt.Some?
  {
  }

  /** Resuming changes the state exactly when the session is paused. */
  lemma ResumeNoop(e: Engine, now: int)
    ensures ResumeSession(e, now) == e <==> e.current.None? || e.current.value.pausedAt.None?
  {
  }

  /** Pause at each first time and resume at each second time, in order. */
  function PauseResumeCycles(e: Engine, cycles: seq<(int, int)>): Engine
    decreases |cycles|
  {
    if cycles == [] then e
    else PauseResumeCycles(ResumeSession(PauseSession(e, cycles[0].0), cycles[0].1), cycles[1..])
  }

  function TotalPause(cycles: seq<(int, int)>): int {
    if cycles == [] then 0 else (cycles[0].1 - cycles[0].0) + TotalPause(cycles[1..])
  }

  /**
   * After any sequence of pause/resume pairs on a running session, the
   * paused total and the target end have both grown by the sum of the
   * pauses; the session runs again and nothing else changed.
   */
  lemma {:induction false} PauseResumeAccounting(e: Engine, cycles: seq<(int, int)>)
    requires e.current.Some? && e.current.value.pausedAt.None?
    ensures var r := PauseResumeCycles(e, cycles);
      var c := e.current.value;
      r.stats == e.stats &&
      r.current == Some(c.(totalPausedTime := c.totalPausedTime + TotalPause(cycles),
                           targetEndTime := c.targetEndTime + TotalPause(cycles)))
    decreases |cycles|
  {
    if cycles != [] {
      var e1 := ResumeSession(PauseSession(e, cycles[0].0), cycles[0].1);
      PauseResumeAccounting(e1, cycles[1..]);
    }
  }

  // ---- remaining time

  /** While paused the remaining time is frozen at `max(0, (targetEnd - pausedAt) / 1000)`, whatever "now" is. */
  lemma RemainingFrozenWhilePaused(c: Session, now1: int, now2: int)
    requires c.pausedAt.Some?
    ensures RemainingTime(Some(c), now1) == RemainingTime(Some(c), now2)
    ensures RemainingTime(Some(c), now1) == if c.targetEndTime >= c.pausedAt.value then (c.targetEndTime - c.pausedAt.value) / 1000 else 0
  {
  }

  /** A running session's remaining time never grows as time passes. */
  lemma RemainingTimeDecays(c: Session, now1: int, now2: int)
    requires c.pausedAt.None? && now1 <= now2
    ensures RemainingTime(Some(c), now2) <= RemainingTime(Some(c), now1)
  {
  }

  /**
   * A pause loses no work time: right after resuming, the remaining time is
   * what it was at the instant of pausing.
   */
  lemma PausePreservesRemaining(e: Engine, pauseAt: int, resumeAt: int)
    requires e.current.Some? && e.current.value.pausedAt.None?
    ensures var r := ResumeSession(PauseSession(e, pauseAt), resumeAt);
      RemainingTime(r.current, resumeAt) == RemainingTime(e.current, pauseAt)
  {
  }

  // ---- completing and cancelling

  /** Completing or cancelling without a session changes nothing. */
  lemma FinishNoop(e: Engine, now: int, weekStart: int)
    requires e.current.None?
    ensures CompleteSession(e, now, weekStart) == e && CancelSession(e, now) == e
  {
  }

  /**
   * Completing files one completed session whose paused total includes any
   * open pause, counts it, credits its start day, clears the current
   * session and leaves the started-session count alone; the counter
   * invariant survives, and apart from the achievements evaluated at `now`
   * nothing else changes.
   */
  lemma CompleteSpec(e: Engine, now: int, weekStart: int)
    requires e.current.Some?
    ensures var r := CompleteSession(e, now, weekStart);
      var c := e.current.value;
      var done := r.stats.sessionHistory[|r.stats.sessionHistory| - 1];
      r.current.None? &&
      |r.stats.sessionHistory| == |e.stats.sessionHistory| + 1 &&
      r.stats.sessionHistory[..|e.stats.sessionHistory|] == e.stats.sessionHistory &&
      done.completed && done.endTime == Some(now) && done.id == c.id && done.startTime == c.startTime &&
      done.totalPausedTime == c.totalPausedTime + (if c.pausedAt.Some? then now - c.pausedAt.value else 0) &&
      r.stats.completedSessions == e.stats.completedSessions + 1 &&
      r.stats.totalSessions == e.stats.totalSessions &&
      r.stats.dailyStats == DailyStats.UpdateDailyStats(e.stats.dailyStats, done) &&
      r.stats.lastAchievementCheck == Some(now) &&
      r.stats.totalSessions == e.stats.totalSessions &&
      r.stats.currentStreak == e.stats.currentStreak && r.stats.longestStreak == e.stats.longestStreak &&
      r.stats.totalFocusTime == e.stats.totalFocusTime &&
      r.stats == Achievements.Checked(e.stats.(completedSessions := e.stats.completedSessions + 1,
                                               sessionHistory := e.stats.sessionHistory + [done],
                                               dailyStats := DailyStats.UpdateDailyStats(e.stats.dailyStats, done)),
                                      now, weekStart) &&
      (Consistent(e.stats) ==> Consistent(r.stats))
  {
    var c := e.current.value;
    var done := Finished(c, now);
    CompletedCountAppend(e.stats.sessionHistory, done);
    assert (e.stats.sessionHistory + [done])[..|e.stats.sessionHistory|] == e.stats.sessionHistory;
  }

  /**
   * Cancelling files one session marked not completed and clears the current
   * session; every other field of the statistics is untouched and the
   * counter invariant survives.
   */
  lemma CancelSpec(e: Engine, now: int)
    requires e.current.Some?
    ensures var r := CancelSession(e, now);
      var c := e.current.value;
      r.current.None? &&
      r.stats.sessionHistory == e.stats.sessionHistory + [c.(endTime := Some(now), completed := false)] &&
      r.stats.completedSessions == e.stats.completedSessions &&
      r.stats.dailyStats == e.stats.dailyStats &&
      r.stats.achievements == e.stats.achievements &&
      r.stats.totalSessions == e.stats.totalSessions &&
      r.stats.currentStreak == e.stats.currentStreak && r.stats.longestStreak == e.stats.longestStreak &&
      r.stats.totalFocusTime == e.stats.totalFocusTime &&
      r.stats.lastAchievementCheck == e.stats.lastAchievementCheck &&
      r.stats == e.stats.(sessionHistory := e.stats.sessionHistory + [c.(endTime := Some(now), completed := false)]) &&
      (Consistent(e.stats) ==> Consistent(r.stats))
  {
    CompletedCountAppend(e.stats.sessionHistory, e.current.value.(endTime := Some(now), completed := false));
  }

  /** Reset and the operations on the current session keep the counter invariant. */
  lemma OperationsKeepConsistent(e: Engine, kind: SessionKind, duration: nat, now: int)
    requires Consistent(e.stats)
    ensures Consistent(StartSession(e, kind, duration, now).stats)
    ensures Consistent(PauseSession(e, now).stats) && Consistent(ResumeSession(e, now).stats)
    ensures Consistent(RecomputeStreak(e, now).stats)
    ensures Consistent(ResetStats(e).stats)
  {
  }

  // ---- loading

  /**
   * On load, a saved session that ran out unpaused and uncompleted is not
   * restored: it is filed as completed at its target end time, counted and
   * credited to its start day. Any other saved session is restored as it
   * was, and the statistics are the saved ones or the defaults.
   */
  lemma LoadSpec(savedStats: Option<UserStats>, p: Session, now: int)
    ensures var r := Load(savedStats, Some(p), now);
      var stats := savedStats.GetOr(DefaultStats);
      if p.targetEndTime < now && !p.completed && p.pausedAt.None? then
        var done := p.(endTime := Some(p.targetEndTime), completed := true);
        r.current.None? &&
        r.stats.sessionHistory == stats.sessionHistory + [done] &&
        r.stats.completedSessions == stats.completedSessions + 1 &&
        r.stats.dailyStats == DailyStats.UpdateDailyStats(stats.dailyStats, done) &&
        r.stats.achievements == stats.achievements &&
        r.stats.totalSessions == stats.totalSessions &&
        r.stats.currentStreak == stats.currentStreak && r.stats.longestStreak == stats.longestStreak &&
        r.stats.totalFocusTime == stats.totalFocusTime &&
        r.stats.lastAchievementCheck == stats.lastAchievementCheck &&
        r.stats == stats.(completedSessions := stats.completedSessions + 1,
                          sessionHistory := stats.sessionHistory + [done],
                          dailyStats := DailyStats.UpdateDailyStats(stats.dailyStats, done)) &&
        (Consistent(stats) ==> Consistent(r.stats))
      else r == Engine(Some(p), stats)
  {
    var stats := savedStats.GetOr(DefaultStats);
    CompletedCountAppend(stats.sessionHistory, p.(endTime := Some(p.targetEndTime), completed := true));
  }

  /** Nothing saved: no session and the default statistics. */
  lemma LoadFresh(now: int)
    ensures Load(None, None, now) == Engine(None, DefaultStats)
  {
  }

  // ---- the developer shortcut

  const HalfHourMs: int := 30 * 60 * 1000

  /** The `i`-th synthesized session: started `(i + 1)` half hours before now, ended on time. */
  function SimulatedSession(now: int, focusTimePerSession: nat, i: nat): Session {
    var startTime := now - (i + 1) * HalfHourMs;
    var targetEndTime := startTime + focusTimePerSession * 1000;
    Session("test-" + Text.IntToString(now) + "-" + Text.NatToString(i), Pomodoro, startTime,
            Some(targetEndTime), focusTimePerSession, true, targetEndTime, None, 0)
  }

  function SimulatedSessions(now: int, focusTimePerSession: nat, n: nat): (r: seq<Session>)
    ensures |r| == n
  {
    seq(n, i requires 0 <= i < n => SimulatedSession(now, focusTimePerSession, i))
  }

  /** The statistics `fastForwardSessions` hands to the evaluation pass. */
  function FastForwardPrepared(s: UserStats, n: nat, f: nat, now: int): UserStats {
    var today := DayOf(now);
    var s1 := s.(completedSessions := s.completedSessions + n,
                 totalSessions := s.totalSessions + n,
                 totalFocusTime := s.totalFocusTime + n * f,
                 dailyStats := DailyStats.AddToDay(s.dailyStats, DailyStat(today, n, n * f, 0)),
                 sessionHistory := s.sessionHistory + SimulatedSessions(now, f, n));
    if s1.currentStreak == 0 then
      s1.(currentStreak := 1, longestStreak := if s1.longestStreak < 1 then 1 else s1.longestStreak)
    else s1
  }

  function FastForwarded(s: UserStats, n: nat, f: nat, now: int, weekStart: int): UserStats {
    Achievements.Checked(FastForwardPrepared(s, n, f, now), now, weekStart)
  }

  /**
   * The first step of `fastForwardSessions`: find today's entry, creating an
   * empty one at the end when missing, and add the sessions and focus time.
   */
  method CreditToday(ds: seq<DailyStat>, today: int, sessions: nat, focusTime: nat) returns (r: seq<DailyStat>)
    ensures r == DailyStats.AddToDay(ds, DailyStat(today, sessions, focusTime, 0))
  {
    r := ds;
    var index := DailyStats.FirstIndexOn(r, today);
    if index == |r| {
      r := r + [DailyStat(today, 0, 0, 0)];
    }
    var todayStats := r[index];
    todayStats := todayStats.(completedSessions := todayStats.completedSessions + sessions,
                              totalFocusTime := todayStats.totalFocusTime + focusTime);
    r := r[index := todayStats];
    var delta := DailyStat(today, sessions, focusTime, 0);
    DailyStats.AddToDayAtIndex(ds, delta);
    if index == |ds| {
      assert todayStats == delta;
      assert r == ds + [delta];
    } else {
      assert todayStats == DailyStats.Credit(ds[index], delta);
    }
  }

  /**
   * The loop of `fastForwardSessions` that appends one completed session per
   * simulated half hour, the i-th ending (i + 1) half hours before `now`.
   */
  method AppendSimulated(h: seq<Session>, numSessions: nat, focusTimePerSession: nat, now: int)
    returns (history: seq<Session>)
    ensures history == h + SimulatedSessions(now, focusTimePerSession, numSessions)
  {
    history := h;
    for i := 0 to numSessions
      invariant history == h + SimulatedSessions(now, focusTimePerSession, i)
    {
      var startTime := now - (i + 1) * HalfHourMs;
      var targetEndTime := startTime + focusTimePerSession * 1000;
      var sessionId := "test-" + Text.IntToString(now) + "-" + Text.NatToString(i);
      var newSession := Session(sessionId, Pomodoro, startTime, Some(targetEndTime), focusTimePerSession,
                                true, targetEndTime, None, 0);
      assert SimulatedSessions(now, focusTimePerSession, i + 1)
        == SimulatedSessions(now, focusTimePerSession, i) + [newSession];
      history := history + [newSession];
    }
  }

  /**
   * `fastForwardSessions(numSessions, focusTimePerSession)`: credit today's
   * entry (appended unsorted when missing), bump the counters, append the
   * synthesized sessions, start a streak of 1 if there is none, then
   * evaluate the achievements.
   */
  method FastForwardSessions(s: UserStats, numSessions: nat, focusTimePerSession: nat, now: int, weekStart: int)
    returns (r: UserStats)
    ensures r == FastForwarded(s, numSessions, focusTimePerSession, now, weekStart)
  {
    var newStats := s;
    var today := DayOf(now);
    var dailyStats := CreditToday(newStats.dailyStats, today, numSessions, numSessions * focusTimePerSession);
    newStats := newStats.(completedSessions := newStats.completedSessions + numSessions,
                          totalSessions := newStats.totalSessions + numSessions,
                          totalFocusTime := newStats.totalFocusTime + numSessions * focusTimePerSession);

    var history := AppendSimulated(newStats.sessionHistory, numSessions, focusTimePerSession, now);
    newStats := newStats.(dailyStats := dailyStats, sessionHistory := history);

    if newStats.currentStreak == 0 {
      newStats := newStats.(currentStreak := 1);
      if newStats.longestStreak < 1 {
        newStats := newStats.(longestStreak := 1);
      }
    }
    assert newStats == FastForwardPrepared(s, numSessions, focusTimePerSession, now);
    var unlocked;
    r, unlocked := Achievements.CheckAchievements(newStats, now, weekStart);
  }

  lemma {:induction false} SimulatedAllCompleted(now: int, f: nat, n: nat)
    ensures CompletedCount(SimulatedSessions(now, f, n)) == n
  {
    if n > 0 {
      assert SimulatedSessions(now, f, n)[..n - 1] == SimulatedSessions(now, f, n - 1);
      SimulatedAllCompleted(now, f, n - 1);
    }
  }

  lemma {:induction false} CompletedCountConcat(a: seq<Session>, b: seq<Session>)
    ensures CompletedCount(a + b) == CompletedCount(a) + CompletedCount(b)
    decreases |b|
  {
    if b != [] {
      assert (a + b)[..|a + b| - 1] == a + b[..|b| - 1];
      assert (a + b)[|a + b| - 1] == b[|b| - 1];
      CompletedCountConcat(a, b[..|b| - 1]);
    } else {
      assert a + b == a;
    }
  }

  /**
   * `fastForwardSessions` counts `n` more started and completed sessions,
   * appends `n` completed sessions of the given length and keeps the counter
   * invariant.
   */
  lemma FastForwardCounters(s: UserStats, n: nat, f: nat, now: int, weekStart: int)
    ensures var r := FastForwarded(s, n, f, now, weekStart);
      r.completedSessions == s.completedSessions + n &&
      r.totalSessions == s.totalSessions + n &&
      r.totalFocusTime == s.totalFocusTime + n * f &&
      r.sessionHistory == s.sessionHistory + SimulatedSessions(now, f, n) &&
      (forall x :: x in SimulatedSessions(now, f, n) ==> x.completed && x.duration == f) &&
      (Consistent(s) ==> Consistent(r))
  {
    SimulatedAllCompleted(now, f, n);
    CompletedCountConcat(s.sessionHistory, SimulatedSessions(now, f, n));
  }

  /**
   * `fastForwardSessions` credits today's entry with `n` sessions and `n * f`
   * seconds of focus (a new entry when today had none) and leaves every other
   * day alone.
   */
  lemma FastForwardDaily(s: UserStats, n: nat, f: nat, now: int, weekStart: int, d: int)
    ensures var r := FastForwarded(s, n, f, now, weekStart);
      var today := DayOf(now);
      DailyStats.StatOn(r.dailyStats, d) ==
        (if d == today then Some(match DailyStats.StatOn(s.dailyStats, today)
           case Some(e) => e.(completedSessions := e.completedSessions + n, totalFocusTime := e.totalFocusTime + n * f)
           case None => DailyStat(today, n, n * f, 0))
         else DailyStats.StatOn(s.dailyStats, d))
  {
    var delta := DailyStat(DayOf(now), n, n * f, 0);
    DailyStats.AddToDayLookup(s.dailyStats, delta, d);
    assert FastForwarded(s, n, f, now, weekStart).dailyStats == DailyStats.AddToDay(s.dailyStats, delta);
  }

  /** `fastForwardSessions` starts a streak of 1 when there was none and never lowers the longest streak. */
  lemma FastForwardStreak(s: UserStats, n: nat, f: nat, now: int, weekStart: int)
    ensures var r := FastForwarded(s, n, f, now, weekStart);
      r.currentStreak >= 1 && r.longestStreak >= s.longestStreak &&
      (s.currentStreak > 0 ==> r.currentStreak == s.currentStreak && r.longestStreak == s.longestStreak) &&
      (s.currentStreak == 0 ==> r.currentStreak == 1 && r.longestStreak >= 1)
  {
  }

  // ---- end-to-end scenarios

  /**
   * A full 25-minute focus session started and completed on a day without an
   * entry yields one completed session and an entry of 1 session, 1500 s of
   * focus and no pause for that day.
   */
  lemma ScenarioFullSession(e: Engine, t: int, weekStart: int)
    requires e.current.None?
    requires DailyStats.StatOn(e.stats.dailyStats, DayOf(t)).None?
    ensures var r := CompleteSession(StartSession(e, Pomodoro, 1500, t), t + 1500000, weekStart);
      r.current.None? &&
      r.stats.completedSessions == e.stats.completedSessions + 1 &&
      r.stats.totalSessions == e.stats.totalSessions + 1 &&
      DailyStats.StatOn(r.stats.dailyStats, DayOf(t)) == Some(DailyStat(DayOf(t), 1, 1500, 0))
  {
    var e1 := StartSession(e, Pomodoro, 1500, t);
    DailyStats.UpdateDailyStatsLookup(e.stats.dailyStats, Finished(e1.current.value, t + 1500000), DayOf(t));
  }

  /**
   * A 5-second pause ten seconds into a session pushes its target end back by
   * 5000 ms, leaves 1490 s remaining on resuming, and is filed as 5000 ms of
   * paused time, 5 s of it credited to the day.
   */
  lemma ScenarioPausedSession(e: Engine, t: int, weekStart: int)
    requires e.current.None?
    ensures var e1 := StartSession(e, Pomodoro, 1500, t);
      var e2 := ResumeSession(PauseSession(e1, t + 10000), t + 15000);
      var r := CompleteSession(e2, t + 1505000, weekStart);
      var done := r.stats.sessionHistory[|r.stats.sessionHistory| - 1];
      e2.current.Some? && e2.current.value.targetEndTime == t + 1505000 &&
      RemainingTime(e2.current, t + 15000) == 1490 &&
      done.totalPausedTime == 5000 &&
      DailyStats.StatOn(r.stats.dailyStats, DayOf(t)).Some? &&
      DailyStats.StatOn(r.stats.dailyStats, DayOf(t)).value.totalPauseTime ==
        DailyStats.StatOn(e.stats.dailyStats, DayOf(t)).GetOr(DailyStat(DayOf(t), 0, 0, 0)).totalPauseTime + 5
  {
    var e1 := StartSession(e, Pomodoro, 1500, t);
    var e2 := ResumeSession(PauseSession(e1, t + 10000), t + 15000);
    CompleteSpec(e2, t + 1505000, weekStart);
    DailyStats.UpdateDailyStatsLookup(e.stats.dailyStats, Finished(e2.current.value, t + 1505000), DayOf(t));
  }

  /**
   * The tenth completed session unlocks the first tier of an achievement on
   * completed sessions with requirements 10, 20 and 30 and nothing unlocked:
   * that tier is stamped with the completion time, the others stay locked
   * and the current tier becomes 1.
   */
  lemma ScenarioTenthCompletion(e: Engine, now: int, weekStart: int, k: nat)
    requires e.current.Some? && e.stats.completedSessions == 9
    requires k < |e.stats.achievements|
    requires var a := e.stats.achievements[k];
      a.metric == CompletedSessions && a.currentTier == 0 && |a.tiers| == 3 &&
      a.tiers[0].requirement == 10 && a.tiers[1].requirement == 20 && a.tiers[2].requirement == 30 &&
      !a.tiers[0].unlocked && !a.tiers[1].unlocked && !a.tiers[2].unlocked
    ensures var c := CompleteSession(e, now, weekStart).stats.achievements[k];
      c.tiers[0].unlocked && c.tiers[0].unlockedAt == Some(now) && c.tiers[0].progress == 10 &&
      !c.tiers[1].unlocked && !c.tiers[2].unlocked && c.tiers[1].progress == 10 &&
      c.currentTier == 1
  {
    var c := e.current.value;
    var done := Finished(c, now);
    var s1 := e.stats.(completedSessions := e.stats.completedSessions + 1,
                       sessionHistory := e.stats.sessionHistory + [done]);
    var s2 := s1.(dailyStats := DailyStats.UpdateDailyStats(s1.dailyStats, done));
    assert CompleteSession(e, now, weekStart).stats == Achievements.Checked(s2, now, weekStart);
    Achievements.CheckTierRules(s2, now, weekStart, k, 0);
    Achievements.CheckTierRules(s2, now, weekStart, k, 1);
    Achievements.CheckTierRules(s2, now, weekStart, k, 2);
    Achievements.CurrentTierRule(s2, now, weekStart, k);
  }

  /**
   * Cancelling a session midway files it as not completed and leaves the
   * completed count and today's entry as they were.
   */
  lemma ScenarioCancelled(e: Engine, t: int)
    requires e.current.None?
    ensures var r := CancelSession(StartSession(e, Pomodoro, 1500, t), t + 600000);
      var last := r.stats.sessionHistory[|r.stats.sessionHistory| - 1];
      r.current.None? && !last.completed && last.endTime == Some(t + 600000) &&
      r.stats.completedSessions == e.stats.completedSessions &&
      r.stats.totalSessions == e.stats.totalSessions + 1 &&
      DailyStats.StatOn(r.stats.dailyStats, DayOf(t)) == DailyStats.StatOn(e.stats.dailyStats, DayOf(t))
  {
  }
}
