/**
 * The per-day rollup behind `updateDailyStats`: find the entry for a date,
 * add a contribution to it or append a new entry, and re-sort the list
 * newest date first with a stable sort.
 */
module DailyStats {
  import opened Wrappers
  import opened Model

  /** `dailyStats.find(day => day.date === d)`: the first entry for a date. */
  function StatOn(ds: seq<DailyStat>, d: int): (r: Option<DailyStat>)
    ensures r.Some? ==> r.value in ds && r.value.date == d
    ensures r.None? ==> forall k :: 0 <= k < |ds| ==> ds[k].date != d
  {
    if ds == [] then None else if ds[0].date == d then Some(ds[0]) else StatOn(ds[1..], d)
  }

  /**
   * Index of the first entry for a date, or `|ds|` when there is none
   * (`findIndex`); `StatOn` returns the entry at that index.
   */
  function FirstIndexOn(ds: seq<DailyStat>, d: int): (i: nat)
    ensures i <= |ds|
    ensures forall j :: 0 <= j < i ==> ds[j].date != d
    ensures i < |ds| ==> ds[i].date == d && StatOn(ds, d) == Some(ds[i])
    ensures i == |ds| ==> StatOn(ds, d) == None
  {
    if ds == [] then 0 else if ds[0].date == d then 0 else 1 + FirstIndexOn(ds[1..], d)
  }

  /** `find` returns the entry at the lowest index holding that date. */
  lemma StatOnIsFirst(ds: seq<DailyStat>, d: int)
    ensures StatOn(ds, d).Some? ==>
      exists i :: 0 <= i < |ds| && StatOn(ds, d) == Some(ds[i]) && forall j :: 0 <= j < i ==> ds[j].date != d
  {
    var i := FirstIndexOn(ds, d);
    assert i < |ds| ==> StatOn(ds, d) == Some(ds[i]);
  }

  /** Number of entries for a date. */
  function CountOn(ds: seq<DailyStat>, d: int): nat {
    if ds == [] then 0 else (if ds[0].date == d then 1 else 0) + CountOn(ds[1..], d)
  }

  /** No date has two entries. */
  ghost predicate DatesUnique(ds: seq<DailyStat>) {
    forall d :: CountOn(ds, d) <= 1
  }

  /** Sorted newest date first. */
  predicate NewestFirst(ds: seq<DailyStat>) {
    forall i, j :: 0 <= i < j < |ds| ==> ds[i].date >= ds[j].date
  }

  /** `e` with the counters of `delta` added. */
  function Credit(e: DailyStat, delta: DailyStat): DailyStat {
    e.(completedSessions := e.completedSessions + delta.completedSessions,
       totalFocusTime := e.totalFocusTime + delta.totalFocusTime,
       totalPauseTime := e.totalPauseTime + delta.totalPauseTime)
  }

  /** The entry a date gets: the old one credited, or `delta` itself as a new entry. */
  function Credited(prior: Option<DailyStat>, delta: DailyStat): DailyStat {
    match prior
    case Some(e) => Credit(e, delta)
    case None => delta
  }

  /**
   * Credits `delta` to the first entry with its date, or appends `delta`
   * when the date has no entry (the `findIndex` / update / `push` step).
   */
  function AddToDay(ds: seq<DailyStat>, delta: DailyStat): seq<DailyStat> {
    if ds == [] then [delta]
    else if ds[0].date == delta.date then [Credit(ds[0], delta)] + ds[1..]
    else [ds[0]] + AddToDay(ds[1..], delta)
  }

  /** What one completed session adds to the day it started on. */
  function SessionContribution(s: Session): DailyStat {
    DailyStat(DayOf(s.startTime), 1, s.duration, s.totalPausedTime / 1000)
  }

  /**
   * Inserts `x` before the first entry that is not newer than it, so that
   * among entries of one date the earlier ones stay first.
   */
  function InsertNewestFirst(x: DailyStat, t: seq<DailyStat>): seq<DailyStat> {
    if t == [] then [x]
    else if t[0].date <= x.date then [x] + t
    else [t[0]] + InsertNewestFirst(x, t[1..])
  }

  /**
   * `sort((a, b) => b.date - a.date)`: a stable sort, newest date first.
   * A stable sort has exactly one result, so any stable algorithm serves.
   */
  function SortNewestFirst(s: seq<DailyStat>): seq<DailyStat> {
    if s == [] then [] else InsertNewestFirst(s[0], SortNewestFirst(s[1..]))
  }

  /** `updateDailyStats(session)` on the list of daily entries. */
  function UpdateDailyStats(ds: seq<DailyStat>, s: Session): seq<DailyStat> {
    SortNewestFirst(AddToDay(ds, SessionContribution(s)))
  }

  // ---- lookup and counting through the insertion sort

  lemma {:induction false} InsertLookup(x: DailyStat, t: seq<DailyStat>, d: int)
    ensures StatOn(InsertNewestFirst(x, t), d) == if x.date == d then Some(x) else StatOn(t, d)
  {
    if t != [] && t[0].date > x.date {
      assert InsertNewestFirst(x, t)[1..] == InsertNewestFirst(x, t[1..]);
      InsertLookup(x, t[1..], d);
    } else if t != [] {
      assert ([x] + t)[1..] == t;
    }
  }

  /** Sorting keeps the first entry of every date: the sort is stable. */
  lemma {:induction false} SortLookup(s: seq<DailyStat>, d: int)
    ensures StatOn(SortNewestFirst(s), d) == StatOn(s, d)
  {
    if s != [] {
      SortLookup(s[1..], d);
      InsertLookup(s[0], SortNewestFirst(s[1..]), d);
    }
  }

  lemma {:induction false} InsertCount(x: DailyStat, t: seq<DailyStat>, d: int)
    ensures CountOn(InsertNewestFirst(x, t), d) == CountOn(t, d) + (if x.date == d then 1 else 0)
  {
    if t != [] && t[0].date > x.date {
      assert InsertNewestFirst(x, t)[1..] == InsertNewestFirst(x, t[1..]);
      InsertCount(x, t[1..], d);
    } else if t != [] {
      assert ([x] + t)[1..] == t;
    }
  }

  lemma {:induction false} SortCount(s: seq<DailyStat>, d: int)
    ensures CountOn(SortNewestFirst(s), d) == CountOn(s, d)
  {
    if s != [] {
      SortCount(s[1..], d);
      InsertCount(s[0], SortNewestFirst(s[1..]), d);
    }
  }

  lemma {:induction false} InsertElements(x: DailyStat, t: seq<DailyStat>)
    ensures multiset(InsertNewestFirst(x, t)) == multiset(t) + multiset{x}
  {
    if t != [] && t[0].date > x.date {
      InsertElements(x, t[1..]);
      assert t == [t[0]] + t[1..];
    }
  }

  /** The sort is a permutation. */
  lemma {:induction false} SortElements(s: seq<DailyStat>)
    ensures multiset(SortNewestFirst(s)) == multiset(s)
  {
    if s != [] {
      SortElements(s[1..]);
      InsertElements(s[0], SortNewestFirst(s[1..]));
      assert s == [s[0]] + s[1..];
    }
  }

  lemma {:induction false} InsertSorted(x: DailyStat, t: seq<DailyStat>)
    requires NewestFirst(t)
    ensures NewestFirst(InsertNewestFirst(x, t))
  {
    if t != [] && t[0].date > x.date {
      var u := InsertNewestFirst(x, t[1..]);
      InsertSorted(x, t[1..]);
      InsertElements(x, t[1..]);
      var r := [t[0]] + u;
      forall j | 1 <= j < |r| ensures r[0].date >= r[j].date {
        assert r[j] in multiset(u);
        assert r[j] == x || r[j] in multiset(t[1..]);
        if r[j] != x {
          var k :| 0 <= k < |t[1..]| && t[1..][k] == r[j];
          assert t[k + 1] == r[j];
        }
      }
    }
  }

  /** The sort orders the list newest date first. */
  lemma {:induction false} SortSorted(s: seq<DailyStat>)
    ensures NewestFirst(SortNewestFirst(s))
  {
    if s != [] {
      SortSorted(s[1..]);
      InsertSorted(s[0], SortNewestFirst(s[1..]));
    }
  }

  // ---- the add-or-append step

  lemma {:induction false} AddToDayLookup(ds: seq<DailyStat>, delta: DailyStat, d: int)
    ensures StatOn(AddToDay(ds, delta), d) ==
      if d == delta.date then Some(Credited(StatOn(ds, d), delta)) else StatOn(ds, d)
  {
    if ds != [] {
      if ds[0].date == delta.date {
        assert ([Credit(ds[0], delta)] + ds[1..])[1..] == ds[1..];
      } else {
        assert ([ds[0]] + AddToDay(ds[1..], delta))[1..] == AddToDay(ds[1..], delta);
        AddToDayLookup(ds[1..], delta, d);
      }
    }
  }

  lemma {:induction false} AddToDayCount(ds: seq<DailyStat>, delta: DailyStat, d: int)
    ensures CountOn(AddToDay(ds, delta), d) ==
      if d == delta.date && CountOn(ds, d) == 0 then 1 else CountOn(ds, d)
  {
    if ds != [] {
      if ds[0].date == delta.date {
        assert ([Credit(ds[0], delta)] + ds[1..])[1..] == ds[1..];
      } else {
        assert ([ds[0]] + AddToDay(ds[1..], delta))[1..] == AddToDay(ds[1..], delta);
        AddToDayCount(ds[1..], delta, d);
      }
    }
  }

  /** Entries of every other date are neither added nor removed. */
  lemma {:induction false} AddToDayOthers(ds: seq<DailyStat>, delta: DailyStat, e: DailyStat)
    requires e.date != delta.date
    ensures e in AddToDay(ds, delta) <==> e in ds
  {
    if ds != [] {
      assert ds == [ds[0]] + ds[1..];
      if ds[0].date != delta.date {
        AddToDayOthers(ds[1..], delta, e);
      }
    }
  }

  /** The recursive step agrees with the index-based `findIndex` / assignment / `push`. */
  lemma {:induction false} AddToDayAtIndex(ds: seq<DailyStat>, delta: DailyStat)
    ensures AddToDay(ds, delta) ==
      var i := FirstIndexOn(ds, delta.date);
      if i < |ds| then ds[i := Credit(ds[i], delta)] else ds + [delta]
  {
    if ds != [] && ds[0].date != delta.date {
      AddToDayAtIndex(ds[1..], delta);
      assert ds == [ds[0]] + ds[1..];
    }
  }

  /** After `updateDailyStats` the list is sorted newest date first. */
  lemma UpdateDailyStatsSorted(ds: seq<DailyStat>, s: Session)
    ensures NewestFirst(UpdateDailyStats(ds, s))
  {
    SortSorted(AddToDay(ds, SessionContribution(s)));
  }

  /**
   * After `updateDailyStats` the session's day has its old entry plus one
   * session, the session's duration and its whole seconds of pause, or a new
   * entry holding exactly that; every other date keeps its first entry.
   */
  lemma UpdateDailyStatsLookup(ds: seq<DailyStat>, s: Session, d: int)
    ensures var r := UpdateDailyStats(ds, s);
      var day := DayOf(s.startTime);
      var p := s.totalPausedTime / 1000;
      if d == day then
        StatOn(r, d) == Some(match StatOn(ds, d)
          case Some(e) => DailyStat(d, e.completedSessions + 1, e.totalFocusTime + s.duration, e.totalPauseTime + p)
          case None => DailyStat(d, 1, s.duration, p))
      else StatOn(r, d) == StatOn(ds, d)
  {
    var delta := SessionContribution(s);
    SortLookup(AddToDay(ds, delta), d);
    AddToDayLookup(ds, delta, d);
  }

  /** Entries of other dates are neither added nor removed by `updateDailyStats`. */
  lemma UpdateDailyStatsOthers(ds: seq<DailyStat>, s: Session, e: DailyStat)
    requires e.date != DayOf(s.startTime)
    ensures e in UpdateDailyStats(ds, s) <==> e in ds
  {
    var delta := SessionContribution(s);
    var u := AddToDay(ds, delta);
    SortElements(u);
    AddToDayOthers(ds, delta, e);
    assert e in SortNewestFirst(u) <==> e in multiset(SortNewestFirst(u));
    assert e in u <==> e in multiset(u);
  }

  /** `updateDailyStats` keeps dates unique, and the session's day has an entry afterwards. */
  lemma UpdateDailyStatsUnique(ds: seq<DailyStat>, s: Session, d: int)
    ensures var c := CountOn(UpdateDailyStats(ds, s), d);
      if d == DayOf(s.startTime) && CountOn(ds, d) == 0 then c == 1 else c == CountOn(ds, d)
  {
    var delta := SessionContribution(s);
    SortCount(AddToDay(ds, delta), d);
    AddToDayCount(ds, delta, d);
  }

  lemma UpdateDailyStatsKeepsUnique(ds: seq<DailyStat>, s: Session)
    requires DatesUnique(ds)
    ensures DatesUnique(UpdateDailyStats(ds, s))
  {
    forall d ensures CountOn(UpdateDailyStats(ds, s), d) <= 1 {
      UpdateDailyStatsUnique(ds, s, d);
    }
  }
}
