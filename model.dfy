/**
 * The data model of the session and statistics engine: sessions, per-day
 * rollups, the tiered achievement catalog and the user statistics root,
 * with the seeded catalog and the default statistics.
 *
 * Timestamps are integer milliseconds since the epoch. A calendar date is an
 * integer day number: the UTC date of a timestamp `t` is `t / MsPerDay`
 * (floor division), which is what taking the part of `toISOString()` before
 * the `T` selects.
 */
module Model {
  import opened Wrappers

  const MsPerDay: int := 86400000

  /** The UTC calendar day of a timestamp. */
  function DayOf(t: int): (d: int)
    ensures d * MsPerDay <= t < (d + 1) * MsPerDay
  {
    t / MsPerDay
  }

  datatype SessionKind = Pomodoro | ShortBreak | LongBreak | Custom

  /**
   * One timed session. `duration` is in seconds, `totalPausedTime` in
   * milliseconds, every other time a timestamp.
   */
  datatype Session = Session(
    id: string,
    kind: SessionKind,
    startTime: int,
    endTime: Option<int>,
    duration: nat,
    completed: bool,
    targetEndTime: int,
    pausedAt: Option<int>,
    totalPausedTime: int)

  /** One calendar day's rollup; focus and pause times in seconds. */
  datatype DailyStat = DailyStat(
    date: int,
    completedSessions: nat,
    totalFocusTime: nat,
    totalPauseTime: int)

  datatype Tier = Tier(
    level: nat,
    requirement: int,
    reward: string,
    progress: int,
    unlocked: bool,
    unlockedAt: Option<int>)

  datatype Metric = TotalFocusTime | CurrentStreak | CompletedSessions | DailySessions | WeeklySessions

  datatype Achievement = Achievement(
    id: string,
    title: string,
    description: string,
    metric: Metric,
    tiers: seq<Tier>,
    currentTier: nat,
    icon: string)

  datatype UserStats = UserStats(
    totalSessions: nat,
    completedSessions: nat,
    currentStreak: nat,
    longestStreak: nat,
    totalFocusTime: nat,
    dailyStats: seq<DailyStat>,
    sessionHistory: seq<Session>,
    achievements: seq<Achievement>,
    lastAchievementCheck: Option<int>)

  /** A locked tier with no progress, as every tier of the seed starts. */
  function LockedTier(level: nat, requirement: int, reward: string): Tier {
    Tier(level, requirement, reward, 0, false, None)
  }

  /** The seeded catalog: five achievements of three tiers each. */
  const DefaultAchievements: seq<Achievement> := [
    Achievement("focusMaster", "Focus Master", "Accumulate total focus time",
      TotalFocusTime,
      [LockedTier(1, 5 * 60, "Bronze Badge"), LockedTier(2, 15 * 60, "Silver Badge"),
       LockedTier(3, 30 * 60, "Gold Badge")],
      0, "\U{23F1}\U{FE0F}"),
    Achievement("streakChampion", "Streak Champion", "Maintain a daily streak",
      CurrentStreak,
      [LockedTier(1, 3, "Bronze Trophy"), LockedTier(2, 7, "Silver Trophy"),
       LockedTier(3, 14, "Gold Trophy")],
      0, "\U{1F525}"),
    Achievement("consistencyKing", "Consistency King", "Complete multiple sessions",
      CompletedSessions,
      [LockedTier(1, 10, "Daily Tracker"), LockedTier(2, 20, "Weekly Insights"),
       LockedTier(3, 30, "Monthly Report")],
      0, "\U{1F451}"),
    Achievement("dailyDedication", "Daily Dedication", "Complete sessions in a single day",
      DailySessions,
      [LockedTier(1, 3, "Focus Booster"), LockedTier(2, 5, "Productivity Pack"),
       LockedTier(3, 7, "Time Master Badge")],
      0, "\U{1F4C5}"),
    Achievement("weeklyWarrior", "Weekly Warrior", "Complete sessions in a single week",
      WeeklySessions,
      [LockedTier(1, 10, "Weekly Planner"), LockedTier(2, 20, "Efficiency Expert"),
       LockedTier(3, 30, "Productivity Champion")],
      0, "\U{1F5D3}\U{FE0F}")
  ]

  const DefaultStats: UserStats :=
    UserStats(0, 0, 0, 0, 0, [], [], DefaultAchievements, None)

  /** Tier requirements are positive and strictly increasing. */
  predicate TiersAscending(ts: seq<Tier>) {
    (|ts| > 0 ==> ts[0].requirement > 0) &&
    forall i, j :: 0 <= i < j < |ts| ==> ts[i].requirement < ts[j].requirement
  }

  predicate CatalogWellFormed(cat: seq<Achievement>) {
    forall k :: 0 <= k < |cat| ==> TiersAscending(cat[k].tiers)
  }

  predicate IdsDistinct(cat: seq<Achievement>) {
    forall k, l :: 0 <= k < l < |cat| ==> cat[k].id != cat[l].id
  }

  /** Number of sessions in a history that reached natural completion. */
  function CompletedCount(h: seq<Session>): (n: nat)
    ensures n <= |h|
  {
    if h == [] then 0 else CompletedCount(h[..|h| - 1]) + (if h[|h| - 1].completed then 1 else 0)
  }

  /**
   * The statistics invariant: the completed-session counter agrees with the
   * history.
   */
  predicate Consistent(s: UserStats) {
    s.completedSessions == CompletedCount(s.sessionHistory)
  }

  lemma CompletedCountAppend(h: seq<Session>, x: Session)
    ensures CompletedCount(h + [x]) == CompletedCount(h) + (if x.completed then 1 else 0)
  {
    assert (h + [x])[..|h|] == h;
  }

  /** The seed's ids are distinct: already their first letters differ. */
  lemma DefaultCatalogIds()
    ensures |DefaultAchievements| == 5 && IdsDistinct(DefaultAchievements)
  {
    var initials := "fscdw";
    forall k | 0 <= k < 5
      ensures |DefaultAchievements[k].id| > 0 && DefaultAchievements[k].id[0] == initials[k]
    {
    }
  }

  /**
   * Each seeded achievement starts at tier 0 with three locked,
   * progress-free tiers of levels 1 to 3 and ascending requirements.
   */
  lemma DefaultCatalogTiers()
    ensures CatalogWellFormed(DefaultAchievements)
    ensures forall k :: 0 <= k < |DefaultAchievements| ==>
      var a := DefaultAchievements[k];
      |a.tiers| == 3 && a.currentTier == 0 &&
      (forall i :: 0 <= i < 3 ==>
        !a.tiers[i].unlocked && a.tiers[i].unlockedAt == None &&
        a.tiers[i].progress == 0 && a.tiers[i].level == i + 1)
    ensures Consistent(DefaultStats)
  {
  }
}
