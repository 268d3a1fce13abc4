/**
 * The dashboard's progress overview: achievements in progress and upcoming,
 * the overall share of unlocked tiers, and its hours-and-minutes label.
 */
module ProgressOverview {
  import opened Wrappers
  import opened Model
  import opened Text
  import opened Rounding
  import Achievements
  import DailyStats

  predicate HasLockedTier(a: Achievement) {
    exists i :: 0 <= i < |a.tiers| && !a.tiers[i].unlocked
  }

  /** Some tiers unlocked and some still locked. */
  predicate InProgressEntry(a: Achievement) {
    Achievements.HasUnlockedTier(a) && HasLockedTier(a)
  }

  /** The achievements in progress, in catalog order. */
  function InProgress(cat: seq<Achievement>): (r: seq<Achievement>)
    ensures |r| <= |cat|
    ensures forall x :: x in r <==> x in cat && InProgressEntry(x)
  {
    if cat == [] then []
    else (if InProgressEntry(cat[0]) then [cat[0]] else []) + InProgress(cat[1..])
  }

  /**
   * Nothing unlocked yet, but progress on the achievement found under the
   * same id is positive.
   */
  predicate UpcomingEntry(s: UserStats, a: Achievement, now: int, weekStart: int)
    requires CatalogWellFormed(s.achievements)
  {
    !Achievements.HasUnlockedTier(a) && Achievements.GetAchievementProgress(s, a.id, now, weekStart) > 0
  }

  function UpcomingAmong(s: UserStats, cat: seq<Achievement>, now: int, weekStart: int): (r: seq<Achievement>)
    requires CatalogWellFormed(s.achievements)
    ensures |r| <= |cat|
    ensures forall x :: x in r <==> x in cat && UpcomingEntry(s, x, now, weekStart)
  {
    if cat == [] then []
    else
      (if UpcomingEntry(s, cat[0], now, weekStart) then [cat[0]] else []) + UpcomingAmong(s, cat[1..], now, weekStart)
  }

  /** The upcoming achievements of the catalog, in catalog order. */
  function Upcoming(s: UserStats, now: int, weekStart: int): seq<Achievement>
    requires CatalogWellFormed(s.achievements)
  {
    UpcomingAmong(s, s.achievements, now, weekStart)
  }

  /**
   * No achievement is both in progress and upcoming, and every one in
   * progress is among those `getUnlockedAchievements` lists.
   */
  lemma ListsRelated(s: UserStats, now: int, weekStart: int)
    requires CatalogWellFormed(s.achievements)
    ensures forall x :: x in InProgress(s.achievements) ==> x !in Upcoming(s, now, weekStart)
    ensures forall x :: x in InProgress(s.achievements) ==> x in Achievements.GetUnlockedAchievements(s.achievements)
  {
  }

  /** An achievement with tiers is in progress exactly when it is unlocked but not complete. */
  lemma InProgressMeaning(a: Achievement)
    ensures InProgressEntry(a) <==> Achievements.HasUnlockedTier(a) && Achievements.FirstLockedIndex(a.tiers) < |a.tiers|
  {
  }

  /** Number of unlocked tiers in a list of tiers. */
  function UnlockedCount(ts: seq<Tier>): (n: nat)
    ensures n <= |ts|
  {
    if ts == [] then 0 else (if ts[0].unlocked then 1 else 0) + UnlockedCount(ts[1..])
  }

  /** The `reduce` summing `tiers.length`. */
  function TotalTiers(cat: seq<Achievement>): nat {
    if cat == [] then 0 else |cat[0].tiers| + TotalTiers(cat[1..])
  }

  /** The `reduce` summing the unlocked tiers. */
  function UnlockedTiers(cat: seq<Achievement>): nat {
    if cat == [] then 0 else UnlockedCount(cat[0].tiers) + UnlockedTiers(cat[1..])
  }

  predicate AllUnlocked(ts: seq<Tier>) {
    forall i :: 0 <= i < |ts| ==> ts[i].unlocked
  }

  lemma {:induction false} UnlockedCountFull(ts: seq<Tier>)
    ensures UnlockedCount(ts) == |ts| <==> AllUnlocked(ts)
    ensures UnlockedCount(ts) == 0 <==> forall i :: 0 <= i < |ts| ==> !ts[i].unlocked
  {
    if ts != [] {
      UnlockedCountFull(ts[1..]);
      assert forall i :: 1 <= i < |ts| ==> ts[i] == ts[1..][i - 1];
    }
  }

  /**
   * There are never more unlocked tiers than tiers, and as many exactly when
   * every tier of every achievement is unlocked.
   */
  lemma {:induction false} UnlockedTiersBound(cat: seq<Achievement>)
    ensures UnlockedTiers(cat) <= TotalTiers(cat)
    ensures UnlockedTiers(cat) == TotalTiers(cat) <==> forall k :: 0 <= k < |cat| ==> AllUnlocked(cat[k].tiers)
  {
    if cat != [] {
      UnlockedTiersBound(cat[1..]);
      UnlockedCountFull(cat[0].tiers);
      assert forall k :: 1 <= k < |cat| ==> cat[k] == cat[1..][k - 1];
    }
  }

  /** `overallProgress`: the rounded percentage of unlocked tiers, 0 without tiers. */
  function OverallProgress(cat: seq<Achievement>): int {
    var total := TotalTiers(cat);
    if total > 0 then RoundedPercent(UnlockedTiers(cat), total) else 0
  }

  /** The overall progress lies in 0-100, is 0 without tiers and 100 once every tier is unlocked. */
  lemma OverallProgressBounds(cat: seq<Achievement>)
    ensures 0 <= OverallProgress(cat) <= 100
    ensures TotalTiers(cat) == 0 ==> OverallProgress(cat) == 0
    ensures TotalTiers(cat) > 0 && (forall k :: 0 <= k < |cat| ==> AllUnlocked(cat[k].tiers)) ==> OverallProgress(cat) == 100
  {
    UnlockedTiersBound(cat);
    if TotalTiers(cat) > 0 {
      RoundedPercentBounds(UnlockedTiers(cat), TotalTiers(cat));
    }
  }

  /** The seeded catalog: 15 tiers, none unlocked, nothing in progress, overall progress 0. */
  lemma DefaultCatalogOverview()
    ensures TotalTiers(DefaultAchievements) == 15
    ensures UnlockedTiers(DefaultAchievements) == 0
    ensures OverallProgress(DefaultAchievements) == 0
    ensures InProgress(DefaultAchievements) == []
  {
    var cat := DefaultAchievements;
    DefaultCatalogTiers();
    assert cat[1..][1..][1..][1..][1..] == [];
    forall k | 0 <= k < |cat|
      ensures UnlockedCount(cat[k].tiers) == 0 && !InProgressEntry(cat[k])
    {
      UnlockedCountFull(cat[k].tiers);
    }
    RoundedPercentBounds(0, 15);
  }

  /** The `reduce` summing `totalFocusTime` over the daily entries. */
  function TotalFocusTime(ds: seq<DailyStat>): int {
    if ds == [] then 0 else ds[0].totalFocusTime + TotalFocusTime(ds[1..])
  }

  lemma {:induction false} TotalFocusInsert(x: DailyStat, t: seq<DailyStat>)
    ensures TotalFocusTime(DailyStats.InsertNewestFirst(x, t)) == x.totalFocusTime + TotalFocusTime(t)
  {
    if t != [] && t[0].date > x.date {
      TotalFocusInsert(x, t[1..]);
    } else {
      assert ([x] + t)[1..] == t;
    }
  }

  lemma {:induction false} TotalFocusSort(s: seq<DailyStat>)
    ensures TotalFocusTime(DailyStats.SortNewestFirst(s)) == TotalFocusTime(s)
  {
    if s != [] {
      TotalFocusSort(s[1..]);
      TotalFocusInsert(s[0], DailyStats.SortNewestFirst(s[1..]));
    }
  }

  lemma {:induction false} TotalFocusAddToDay(ds: seq<DailyStat>, delta: DailyStat)
    ensures TotalFocusTime(DailyStats.AddToDay(ds, delta)) == TotalFocusTime(ds) + delta.totalFocusTime
  {
    if ds == [] {
      assert [delta][1..] == [];
    } else if ds[0].date == delta.date {
      assert ([DailyStats.Credit(ds[0], delta)] + ds[1..])[1..] == ds[1..];
    } else {
      TotalFocusAddToDay(ds[1..], delta);
      assert ([ds[0]] + DailyStats.AddToDay(ds[1..], delta))[1..] == DailyStats.AddToDay(ds[1..], delta);
    }
  }

  /**
   * Each completed session raises the overview's total focus time by exactly
   * its duration, whichever day it lands on and however the list is re-sorted.
   */
  lemma TotalFocusAfterSession(ds: seq<DailyStat>, s: Session)
    ensures TotalFocusTime(DailyStats.UpdateDailyStats(ds, s)) == TotalFocusTime(ds) + s.duration
  {
    TotalFocusAddToDay(ds, DailyStats.SessionContribution(s));
    TotalFocusSort(DailyStats.AddToDay(ds, DailyStats.SessionContribution(s)));
  }

  /** `formatTime` of the overview: "Hh Mm", or "Mm" under an hour; seconds are dropped. */
  function FormatHoursMinutes(seconds: nat): string {
    var hours := seconds / 3600;
    var minutes := (seconds % 3600) / 60;
    if hours > 0 then NatToString(hours) + "h " + NatToString(minutes) + "m" else NatToString(minutes) + "m"
  }

  lemma HoursMinutesText(h: nat, m: nat)
    ensures NatToString(h) + "h " + NatToString(m) + "m" == NatToString(h) + ['h'] + " " + (NatToString(m) + "m")
    ensures [(h, 'h')] + [(m, 'm')] == [(h, 'h'), (m, 'm')]
    ensures UnitsValue([(h, 'h'), (m, 'm')]) == 3600 * h + 60 * m
    ensures UnitsValue([(m, 'm')]) == 60 * m
  {
    var tm := [(m, 'm')];
    var ts := [(h, 'h'), (m, 'm')];
    assert tm[0].0 == m && tm[0].1 == 'm' && tm[1..] == [];
    assert UnitsValue(tm) == m * UnitSeconds('m') + UnitsValue([]);
    assert ts[0].0 == h && ts[0].1 == 'h' && ts[1..] == tm;
    assert UnitsValue(ts) == h * UnitSeconds('h') + UnitsValue(tm);
  }

  /**
   * The label reads back as hours and minutes (minutes only under an hour),
   * minutes below 60, adding up to the input rounded down to the minute.
   */
  lemma FormatHoursMinutesSpec(seconds: nat)
    ensures var h := seconds / 3600;
      var m := (seconds % 3600) / 60;
      m < 60 &&
      ParseUnits(FormatHoursMinutes(seconds)) == Some(if h > 0 then [(h, 'h'), (m, 'm')] else [(m, 'm')]) &&
      UnitsValue(ParseUnits(FormatHoursMinutes(seconds)).value) == seconds - seconds % 60
  {
    var h := seconds / 3600;
    var m := (seconds % 3600) / 60;
    var r := seconds % 3600;
    assert seconds == 3600 * h + r;
    assert r == 60 * m + r % 60;
    assert seconds == 60 * (60 * h + m) + r % 60;
    assert seconds % 60 == r % 60;
    HoursMinutesText(h, m);
    ParseUnitsLast(m, 'm');
    if h > 0 {
      ParseUnitsCons(h, 'h', NatToString(m) + "m");
    }
  }
}
