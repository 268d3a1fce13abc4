/**
 * The achievement engine: `checkAchievements` evaluates every tier of the
 * catalog against the metric of its achievement and unlocks the tiers that
 * are reached; `getUnlockedAchievements`, `getAchievementProgress` and
 * `getNextAchievement` are queries on the catalog.
 */
module Achievements {
  import opened Wrappers
  import opened Model
  import DailyStats

  /** `dailyStats.reduce((total, day) => total + day.totalFocusTime, 0)` */
  function SumFocus(ds: seq<DailyStat>): nat {
    if ds == [] then 0 else ds[0].totalFocusTime + SumFocus(ds[1..])
  }

  /** Completed sessions of the history that started at or after `from`. */
  function CompletedSince(h: seq<Session>, from: int): nat {
    if h == [] then 0
    else (if h[0].startTime >= from && h[0].completed then 1 else 0) + CompletedSince(h[1..], from)
  }

  /**
   * The value of a metric. `today` is the UTC day number of "now" and
   * `weekStart` the timestamp of the most recent local Sunday at 00:00.
   */
  function MetricValue(s: UserStats, m: Metric, today: int, weekStart: int): nat {
    match m
    case TotalFocusTime => SumFocus(s.dailyStats)
    case CurrentStreak => s.currentStreak
    case CompletedSessions => s.completedSessions
    case DailySessions =>
      (match DailyStats.StatOn(s.dailyStats, today)
       case Some(e) => e.completedSessions
       case None => 0)
    case WeeklySessions => CompletedSince(s.sessionHistory, weekStart)
  }

  /** The metric value an achievement is judged by at time `now`. */
  function ValueFor(s: UserStats, a: Achievement, now: int, weekStart: int): nat {
    MetricValue(s, a.metric, DayOf(now), weekStart)
  }

  function Min(a: int, b: int): int {
    if a <= b then a else b
  }

  function MaxNat(a: nat, b: nat): nat {
    if a >= b then a else b
  }

  /** A tier flips to unlocked: it is locked and the value reaches its requirement. */
  predicate Unlocks(t: Tier, v: int) {
    !t.unlocked && v >= t.requirement
  }

  /** One tier after the evaluation pass. */
  function EvaluateTier(t: Tier, v: int, now: int): Tier {
    var t1 := t.(progress := Min(v, t.requirement));
    if Unlocks(t, v) then t1.(unlocked := true, unlockedAt := Some(now)) else t1
  }

  function EvaluateTiers(ts: seq<Tier>, v: int, now: int): (r: seq<Tier>)
    ensures |r| == |ts|
  {
    seq(|ts|, i requires 0 <= i < |ts| => EvaluateTier(ts[i], v, now))
  }

  /** `currentTier` after the first `n` tiers were evaluated. */
  function RaisedTier(ct: nat, ts: seq<Tier>, v: int, n: nat): nat
    requires n <= |ts|
  {
    if n == 0 then ct
    else
      var c := RaisedTier(ct, ts, v, n - 1);
      if Unlocks(ts[n - 1], v) then MaxNat(c, n) else c
  }

  function EvaluateAchievement(a: Achievement, v: int, now: int): Achievement {
    a.(tiers := EvaluateTiers(a.tiers, v, now),
       currentTier := RaisedTier(a.currentTier, a.tiers, v, |a.tiers|))
  }

  predicate UnlocksAny(a: Achievement, v: int) {
    exists i :: 0 <= i < |a.tiers| && Unlocks(a.tiers[i], v)
  }

  /** The catalog after the evaluation pass. */
  function Evaluated(s: UserStats, now: int, weekStart: int): (r: seq<Achievement>)
    ensures |r| == |s.achievements|
  {
    seq(|s.achievements|, k requires 0 <= k < |s.achievements| =>
      EvaluateAchievement(s.achievements[k], ValueFor(s, s.achievements[k], now, weekStart), now))
  }

  /** The evaluated achievements among the first `n` that had a tier newly unlocked, in catalog order. */
  function NewlyUnlocked(s: UserStats, now: int, weekStart: int, n: nat): seq<Achievement>
    requires n <= |s.achievements|
  {
    if n == 0 then []
    else
      var a := s.achievements[n - 1];
      var v := ValueFor(s, a, now, weekStart);
      NewlyUnlocked(s, now, weekStart, n - 1) + (if UnlocksAny(a, v) then [EvaluateAchievement(a, v, now)] else [])
  }

  /** The statistics after `checkAchievements` at time `now`. */
  function Checked(s: UserStats, now: int, weekStart: int): UserStats {
    s.(achievements := Evaluated(s, now, weekStart), lastAchievementCheck := Some(now))
  }

  /**
   * `checkAchievements`: the loops over achievements and their tiers, which
   * update tier fields and `currentTier` and collect each achievement with a
   * newly unlocked tier once.
   */
  method CheckAchievements(s: UserStats, now: int, weekStart: int) returns (r: UserStats, unlocked: seq<Achievement>)
    ensures r == Checked(s, now, weekStart)
    ensures unlocked == NewlyUnlocked(s, now, weekStart, |s.achievements|)
  {
    var updated := s.achievements;
    unlocked := [];
    for k := 0 to |updated|
      invariant |updated| == |s.achievements|
      invariant forall j :: 0 <= j < k ==> updated[j] == Evaluated(s, now, weekStart)[j]
      invariant forall j :: k <= j < |updated| ==> updated[j] == s.achievements[j]
      invariant unlocked == NewlyUnlocked(s, now, weekStart, k)
    {
      var achievement := updated[k];
      var currentValue := MetricValue(s, achievement.metric, DayOf(now), weekStart);
      var tiers := achievement.tiers;
      var currentTier := achievement.currentTier;
      var included := false;
      for i := 0 to |tiers|
        invariant |tiers| == |achievement.tiers|
        invariant forall j :: 0 <= j < i ==> tiers[j] == EvaluateTier(achievement.tiers[j], currentValue, now)
        invariant forall j :: i <= j < |tiers| ==> tiers[j] == achievement.tiers[j]
        invariant currentTier == RaisedTier(achievement.currentTier, achievement.tiers, currentValue, i)
        invariant included <==> exists j :: 0 <= j < i && Unlocks(achievement.tiers[j], currentValue)
      {
        var tier := tiers[i];
        tier := tier.(progress := Min(currentValue, tier.requirement));
        if !tier.unlocked && currentValue >= tier.requirement {
          tier := tier.(unlocked := true, unlockedAt := Some(now));
          currentTier := MaxNat(currentTier, i + 1);
          included := true;
        }
        tiers := tiers[i := tier];
      }
      assert tiers == EvaluateTiers(achievement.tiers, currentValue, now);
      var evaluated := achievement.(tiers := tiers, currentTier := currentTier);
      updated := updated[k := evaluated];
      if included {
        unlocked := unlocked + [evaluated];
      }
    }
    assert updated == Evaluated(s, now, weekStart);
    r := s.(achievements := updated, lastAchievementCheck := Some(now));
  }

  // ---- properties of the evaluation pass

  /**
   * Every tier's progress becomes its metric value clamped to the
   * requirement; a tier becomes unlocked, stamped `now`, exactly when it was
   * locked and the value reaches the requirement; an unlocked tier stays
   * unlocked with its timestamp; level, requirement and reward never change.
   */
  lemma CheckTierRules(s: UserStats, now: int, weekStart: int, k: nat, i: nat)
    requires k < |s.achievements| && i < |s.achievements[k].tiers|
    ensures var a := s.achievements[k];
      var t := a.tiers[i];
      var v := ValueFor(s, a, now, weekStart);
      var t' := Checked(s, now, weekStart).achievements[k].tiers[i];
      t'.progress == Min(v, t.requirement) &&
      t'.unlocked == (t.unlocked || v >= t.requirement) &&
      (t.unlocked ==> t'.unlockedAt == t.unlockedAt) &&
      (!t.unlocked && v >= t.requirement ==> t'.unlockedAt == Some(now)) &&
      (!t.unlocked && v < t.requirement ==> t'.unlockedAt == t.unlockedAt) &&
      t'.level == t.level && t'.requirement == t.requirement && t'.reward == t.reward
  {
  }

  lemma {:induction false} RaisedTierMeaning(ct: nat, ts: seq<Tier>, v: int, n: nat)
    requires n <= |ts|
    ensures var r := RaisedTier(ct, ts, v, n);
      r >= ct &&
      (forall i :: 0 <= i < n && Unlocks(ts[i], v) ==> r >= i + 1) &&
      (r == ct || exists i :: 0 <= i < n && Unlocks(ts[i], v) && r == i + 1)
  {
    if n > 0 {
      RaisedTierMeaning(ct, ts, v, n - 1);
    }
  }

  /**
   * `currentTier` becomes the larger of its old value and one plus the index
   * of every tier unlocked in the pass: it is at least each, and equals the
   * old value or one of them.
   */
  lemma CurrentTierRule(s: UserStats, now: int, weekStart: int, k: nat)
    requires k < |s.achievements|
    ensures var a := s.achievements[k];
      var v := ValueFor(s, a, now, weekStart);
      var c := Checked(s, now, weekStart).achievements[k].currentTier;
      c >= a.currentTier &&
      (forall i :: 0 <= i < |a.tiers| && Unlocks(a.tiers[i], v) ==> c >= i + 1) &&
      (c == a.currentTier || exists i :: 0 <= i < |a.tiers| && Unlocks(a.tiers[i], v) && c == i + 1)
  {
    var a := s.achievements[k];
    RaisedTierMeaning(a.currentTier, a.tiers, ValueFor(s, a, now, weekStart), |a.tiers|);
  }

  lemma {:induction false} RaisedTierWithoutUnlocks(ct: nat, ts: seq<Tier>, v: int, n: nat)
    requires n <= |ts|
    requires forall i :: 0 <= i < n ==> !Unlocks(ts[i], v)
    ensures RaisedTier(ct, ts, v, n) == ct
  {
    if n > 0 {
      RaisedTierWithoutUnlocks(ct, ts, v, n - 1);
    }
  }

  lemma EvaluateAchievementTwice(a: Achievement, v: int, now1: int, now2: int)
    ensures var b := EvaluateAchievement(a, v, now1);
      !UnlocksAny(b, v) && EvaluateAchievement(b, v, now2) == b
  {
    var b := EvaluateAchievement(a, v, now1);
    RaisedTierWithoutUnlocks(b.currentTier, b.tiers, v, |b.tiers|);
    assert EvaluateTiers(b.tiers, v, now2) == b.tiers;
  }

  /** The metrics only read what the evaluation pass does not write. */
  lemma MetricsUnchangedByCheck(s: UserStats, now: int, weekStart: int, m: Metric, today: int)
    ensures MetricValue(Checked(s, now, weekStart), m, today, weekStart) == MetricValue(s, m, today, weekStart)
  {
  }

  lemma {:induction false} NewlyUnlockedNone(s: UserStats, now: int, weekStart: int, n: nat)
    requires n <= |s.achievements|
    requires forall k :: 0 <= k < n ==> !UnlocksAny(s.achievements[k], ValueFor(s, s.achievements[k], now, weekStart))
    ensures NewlyUnlocked(s, now, weekStart, n) == []
  {
    if n > 0 {
      NewlyUnlockedNone(s, now, weekStart, n - 1);
    }
  }

  /**
   * A second pass with unchanged metrics, later on the same day, unlocks nothing
   * and changes no achievement: no `unlockedAt` moves and nothing is
   * reported again.
   */
  lemma CheckIdempotent(s: UserStats, now1: int, now2: int, weekStart: int)
    requires DayOf(now1) == DayOf(now2)
    ensures var c := Checked(s, now1, weekStart);
      Checked(c, now2, weekStart).achievements == c.achievements &&
      NewlyUnlocked(c, now2, weekStart, |c.achievements|) == []
  {
    var c := Checked(s, now1, weekStart);
    forall k | 0 <= k < |c.achievements|
      ensures Evaluated(c, now2, weekStart)[k] == c.achievements[k]
      ensures !UnlocksAny(c.achievements[k], ValueFor(c, c.achievements[k], now2, weekStart))
    {
      var a := s.achievements[k];
      var v := ValueFor(s, a, now1, weekStart);
      assert ValueFor(c, c.achievements[k], now2, weekStart) == v;
      EvaluateAchievementTwice(a, v, now1, now2);
    }
    NewlyUnlockedNone(c, now2, weekStart, |c.achievements|);
  }

  /**
   * The reported list holds, in catalog order, exactly the evaluated
   * achievements that had a tier newly unlocked; with distinct ids in the
   * catalog, no achievement is reported twice.
   */
  lemma {:induction false} NewlyUnlockedMeaning(s: UserStats, now: int, weekStart: int, n: nat)
    requires n <= |s.achievements|
    ensures var r := NewlyUnlocked(s, now, weekStart, n);
      var e := Evaluated(s, now, weekStart);
      |r| <= n &&
      (forall x :: x in r ==>
         exists k :: 0 <= k < n && x == e[k] &&
                     UnlocksAny(s.achievements[k], ValueFor(s, s.achievements[k], now, weekStart))) &&
      (forall k :: 0 <= k < n && UnlocksAny(s.achievements[k], ValueFor(s, s.achievements[k], now, weekStart)) ==> e[k] in r) &&
      (IdsDistinct(s.achievements) ==> IdsDistinct(r))
  {
    if n > 0 {
      NewlyUnlockedMeaning(s, now, weekStart, n - 1);
      var r0 := NewlyUnlocked(s, now, weekStart, n - 1);
      var r := NewlyUnlocked(s, now, weekStart, n);
      var e := Evaluated(s, now, weekStart);
      if IdsDistinct(s.achievements) {
        forall x | x in r0 ensures x.id != e[n - 1].id {
          var k :| 0 <= k < n - 1 && x == e[k];
          assert s.achievements[k].id != s.achievements[n - 1].id;
        }
        forall p, q | 0 <= p < q < |r| ensures r[p].id != r[q].id {
          if q == |r0| {
            assert r[p] in r0;
          } else {
            assert r[p] == r0[p] && r[q] == r0[q];
          }
        }
      }
    }
  }

  // ---- queries

  predicate HasUnlockedTier(a: Achievement) {
    exists i :: 0 <= i < |a.tiers| && a.tiers[i].unlocked
  }

  /** `getUnlockedAchievements`: the achievements with at least one unlocked tier, in order. */
  function GetUnlockedAchievements(cat: seq<Achievement>): (r: seq<Achievement>)
    ensures |r| <= |cat|
    ensures forall x :: x in r <==> x in cat && HasUnlockedTier(x)
  {
    if cat == [] then []
    else (if HasUnlockedTier(cat[0]) then [cat[0]] else []) + GetUnlockedAchievements(cat[1..])
  }

  /** `achievements.find(a => a.id === id)` */
  function FindAchievement(cat: seq<Achievement>, id: string): (r: Option<Achievement>)
    ensures r.Some? ==> r.value in cat && r.value.id == id
    ensures r.None? ==> forall k :: 0 <= k < |cat| ==> cat[k].id != id
    ensures r.Some? ==> exists i :: 0 <= i < |cat| && cat[i] == r.value && forall j :: 0 <= j < i ==> cat[j].id != id
  {
    if cat == [] then None else if cat[0].id == id then Some(cat[0]) else FindAchievement(cat[1..], id)
  }

  /** Index of the first locked tier, or `|ts|` when every tier is unlocked. */
  function FirstLockedIndex(ts: seq<Tier>): (i: nat)
    ensures i <= |ts|
    ensures i < |ts| ==> !ts[i].unlocked
    ensures forall j :: 0 <= j < i ==> ts[j].unlocked
  {
    if ts == [] then 0 else if !ts[0].unlocked then 0 else 1 + FirstLockedIndex(ts[1..])
  }

  /** `tiers.find(tier => !tier.unlocked)` */
  function FirstLocked(ts: seq<Tier>): Option<Tier> {
    var i := FirstLockedIndex(ts);
    if i < |ts| then Some(ts[i]) else None
  }

  /**
   * `getNextAchievement`: the first locked tier of the achievement with that
   * id; none when the id is unknown or every tier is unlocked.
   */
  function GetNextAchievement(s: UserStats, id: string): (r: Option<Tier>)
    ensures r.None? <==> match FindAchievement(s.achievements, id)
      case None => true
      case Some(a) => forall i :: 0 <= i < |a.tiers| ==> a.tiers[i].unlocked
    ensures r.Some? ==>
      FindAchievement(s.achievements, id).Some? &&
      var a := FindAchievement(s.achievements, id).value;
      var i := FirstLockedIndex(a.tiers);
      i < |a.tiers| && r.value == a.tiers[i] && !a.tiers[i].unlocked &&
      (forall j :: 0 <= j < i ==> a.tiers[j].unlocked)
  {
    match FindAchievement(s.achievements, id)
    case None => None
    case Some(a) => FirstLocked(a.tiers)
  }

  /** `Math.min(Math.floor(part / whole * 100), 100)` for a positive `whole`, on exact rationals. */
  function Share(part: int, whole: int): (r: int)
    requires whole > 0
    ensures r <= 100
    ensures part >= whole ==> r == 100
    ensures 0 <= part < whole ==> 0 <= r < 100
    ensures part < 0 ==> r < 0
  {
    Min((100 * part) / whole, 100)
  }

  /** The `dailyDedication` formula: shares of 0-3, 3-5 and 5-7 sessions. */
  function DedicationProgress(cti: nat, n: nat, v: int): (r: int)
    ensures r <= 100
  {
    if cti >= n then 100
    else if cti == 0 then Share(v, 3)
    else if cti == 1 then Share(v - 3, 2)
    else if cti == 2 then Share(v - 5, 2)
    else 100
  }

  /**
   * The standard formula: below the last tier index, the share of the way
   * from the requirement of tier index `currentTier` (0 at tier 0) to that of
   * tier index `currentTier + 1`; 100 from the last tier index on.
   */
  function StandardProgress(ts: seq<Tier>, cti: nat, v: int): (r: int)
    requires TiersAscending(ts)
    ensures r <= 100
  {
    if cti < |ts| - 1 then
      var base := if cti > 0 then ts[cti].requirement else 0;
      Share(v - base, ts[cti + 1].requirement - base)
    else 100
  }

  /**
   * `getAchievementProgress`: a percentage toward a further tier of the
   * achievement with that id, 0 for an unknown id and 100 for an
   * achievement without tiers. The divisions are those of exact rationals.
   */
  function GetAchievementProgress(s: UserStats, id: string, now: int, weekStart: int): (r: int)
    requires CatalogWellFormed(s.achievements)
    ensures r <= 100
    ensures FindAchievement(s.achievements, id).None? ==> r == 0
  {
    match FindAchievement(s.achievements, id)
    case None => 0
    case Some(a) =>
      if |a.tiers| == 0 then 100
      else
        var v := ValueFor(s, a, now, weekStart);
        if a.id == "dailyDedication" then DedicationProgress(a.currentTier, |a.tiers|, v)
        else
          assert TiersAscending(a.tiers);
          StandardProgress(a.tiers, a.currentTier, v)
  }

  /** Outside `dailyDedication`, an achievement at its last tier index or beyond reports 100. */
  lemma ProgressFullAtLastTier(s: UserStats, id: string, now: int, weekStart: int)
    requires CatalogWellFormed(s.achievements)
    requires id != "dailyDedication"
    requires match FindAchievement(s.achievements, id)
      case None => false
      case Some(a) => a.currentTier >= |a.tiers| - 1
    ensures GetAchievementProgress(s, id, now, weekStart) == 100
  {
  }

  /**
   * The evaluation pass keeps the catalog's shape: ids, metrics, tier counts
   * and requirements, hence a well-formed catalog with distinct ids stays so.
   */
  lemma CheckedKeepsCatalog(s: UserStats, now: int, weekStart: int)
    ensures var c := Checked(s, now, weekStart).achievements;
      |c| == |s.achievements| &&
      (forall k :: 0 <= k < |c| ==>
        c[k].id == s.achievements[k].id && c[k].metric == s.achievements[k].metric &&
        |c[k].tiers| == |s.achievements[k].tiers| &&
        forall i :: 0 <= i < |c[k].tiers| ==> c[k].tiers[i].requirement == s.achievements[k].tiers[i].requirement) &&
      (CatalogWellFormed(s.achievements) ==> CatalogWellFormed(c)) &&
      (IdsDistinct(s.achievements) ==> IdsDistinct(c))
  {
    var c := Checked(s, now, weekStart).achievements;
    if CatalogWellFormed(s.achievements) {
      forall k | 0 <= k < |c| ensures TiersAscending(c[k].tiers) {
        assert TiersAscending(s.achievements[k].tiers);
      }
    }
  }

  /**
   * Right after 300 seconds of focus unlock the first `focusMaster` tier,
   * its progress is negative: the base is the 900-second requirement of the
   * still locked second tier and the target the third tier's 1800.
   */
  lemma ProgressNegativeAfterFirstUnlock(now: int, weekStart: int)
    ensures var s := DefaultStats.(dailyStats := [DailyStat(0, 1, 300, 0)]);
      var c := Checked(s, now, weekStart);
      c.achievements[0].tiers[0].unlocked && c.achievements[0].currentTier == 1 &&
      GetAchievementProgress(c, "focusMaster", now, weekStart) == -67
  {
    var s := DefaultStats.(dailyStats := [DailyStat(0, 1, 300, 0)]);
    DefaultCatalogTiers();
    CheckedKeepsCatalog(s, now, weekStart);
    var c := Checked(s, now, weekStart);
    var a := s.achievements[0];
    assert ValueFor(s, a, now, weekStart) == 300;
    assert a.tiers[0].requirement == 300 && a.tiers[1].requirement == 900 && a.tiers[2].requirement == 1800;
    assert Unlocks(a.tiers[0], 300) && !Unlocks(a.tiers[1], 300) && !Unlocks(a.tiers[2], 300);
    assert RaisedTier(0, a.tiers, 300, 3) == 1;
    assert c.achievements[0] == EvaluateAchievement(a, 300, now);
    assert FindAchievement(c.achievements, "focusMaster") == Some(c.achievements[0]);
    assert ValueFor(c, c.achievements[0], now, weekStart) == 300;
  }
}
