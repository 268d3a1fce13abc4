/**
 * The analytics dashboard: the date range of the selected time window, the
 * table of the ten newest daily entries in that range with their efficiency,
 * the CSV export of the daily entries, and its duration label.
 */
module Analytics {
  import opened Wrappers
  import opened Model
  import opened Text
  import DailyStats
  import Calendar
  import opened Rounding

  datatype TimeRange = Daily | Weekly | Monthly | All

  /** The earliest start time in a non-empty history (`Math.min` over the starts). */
  function EarliestStart(h: seq<Session>): (m: int)
    requires |h| > 0
    ensures forall i :: 0 <= i < |h| ==> m <= h[i].startTime
    ensures exists i :: 0 <= i < |h| && m == h[i].startTime
  {
    if |h| == 1 then h[0].startTime
    else
      var rest := EarliestStart(h[1..]);
      assert forall i :: 1 <= i < |h| ==> h[i] == h[1..][i - 1];
      if h[0].startTime <= rest then h[0].startTime else rest
  }

  /** Days each fixed window reaches back. */
  function WindowDays(range: TimeRange): nat {
    match range
    case Daily => 7
    case Weekly => 30
    case Monthly => 90
    case All => 30
  }

  /**
   * `getDateRange`: the range ends now; it starts 7, 30 or 90 days back, or,
   * for all time, at the earliest session start (30 days back when there is
   * no history).
   */
  function DateRange(range: TimeRange, history: seq<Session>, now: int): (r: (int, int))
    ensures r.1 == now
  {
    if range == All && |history| > 0 then (EarliestStart(history), now)
    else (now - WindowDays(range) * MsPerDay, now)
  }

  /** The start of each window, and for all time the bound it puts under every session. */
  lemma DateRangeStart(range: TimeRange, history: seq<Session>, now: int)
    ensures var (start, end) := DateRange(range, history, now);
      (range == Daily ==> start == now - 7 * MsPerDay) &&
      (range == Weekly ==> start == now - 30 * MsPerDay) &&
      (range == Monthly ==> start == now - 90 * MsPerDay) &&
      (range == All && history == [] ==> start == now - 30 * MsPerDay) &&
      (range == All && history != [] ==>
         (forall i :: 0 <= i < |history| ==> start <= history[i].startTime) &&
         (exists i :: 0 <= i < |history| && start == history[i].startTime)) &&
      (range != All ==> start < end)
  {
  }

  // ---- the table

  /** A daily entry's date, read back as UTC midnight, lies in the range. */
  predicate InRange(e: DailyStat, start: int, end: int) {
    start <= e.date * MsPerDay <= end
  }

  function FilterRange(ds: seq<DailyStat>, start: int, end: int): (r: seq<DailyStat>)
    ensures |r| <= |ds|
    ensures multiset(r) <= multiset(ds)
    ensures forall x :: x in r ==> InRange(x, start, end)
    ensures forall x :: x in ds && InRange(x, start, end) ==> x in r
  {
    if ds == [] then []
    else
      assert ds == [ds[0]] + ds[1..];
      var rest := FilterRange(ds[1..], start, end);
      if InRange(ds[0], start, end) then [ds[0]] + rest else rest
  }

  const TableRows: nat := 10

  /** The rendered rows: in range, newest date first (stably), the first ten. */
  function Table(ds: seq<DailyStat>, start: int, end: int): seq<DailyStat> {
    var sorted := DailyStats.SortNewestFirst(FilterRange(ds, start, end));
    if |sorted| <= TableRows then sorted else sorted[..TableRows]
  }

  lemma SortedLength(s: seq<DailyStat>)
    ensures |DailyStats.SortNewestFirst(s)| == |s|
  {
    DailyStats.SortElements(s);
    assert |multiset(DailyStats.SortNewestFirst(s))| == |multiset(s)|;
  }

  /**
   * The table has at most ten rows, newest first, drawn from the in-range
   * entries; it holds every in-range entry when there are at most ten.
   */
  lemma TableShape(ds: seq<DailyStat>, start: int, end: int)
    ensures var t := Table(ds, start, end);
      var f := FilterRange(ds, start, end);
      |t| == (if |f| <= TableRows then |f| else TableRows) &&
      DailyStats.NewestFirst(t) &&
      multiset(t) <= multiset(f) &&
      (|f| <= TableRows ==> multiset(t) == multiset(f))
  {
    var f := FilterRange(ds, start, end);
    var sorted := DailyStats.SortNewestFirst(f);
    DailyStats.SortElements(f);
    DailyStats.SortSorted(f);
    SortedLength(f);
    var t := Table(ds, start, end);
    assert t == sorted[..|t|];
    assert sorted == t + sorted[|t|..];
    assert multiset(sorted) == multiset(t) + multiset(sorted[|t|..]);
  }

  /** Every row is an entry of the list whose date lies in the range. */
  lemma TableInRange(ds: seq<DailyStat>, start: int, end: int)
    ensures forall x :: x in Table(ds, start, end) ==> x in ds && InRange(x, start, end)
  {
    var f := FilterRange(ds, start, end);
    TableShape(ds, start, end);
    forall x | x in Table(ds, start, end)
      ensures x in ds && InRange(x, start, end)
    {
      assert x in multiset(Table(ds, start, end));
      assert x in multiset(f);
    }
  }

  /** In a list sorted newest first, nothing after position `k` is newer than anything before it. */
  lemma SortedSplitDominates(sorted: seq<DailyStat>, k: nat)
    requires DailyStats.NewestFirst(sorted) && k <= |sorted|
    ensures forall x, y :: x in sorted[..k] && y in sorted[k..] ==> y.date <= x.date
  {
    forall x, y | x in sorted[..k] && y in sorted[k..]
      ensures y.date <= x.date
    {
      var j :| 0 <= j < |sorted[k..]| && sorted[k..][j] == y;
      var i :| 0 <= i < k && sorted[..k][i] == x;
      assert sorted[i] == x && sorted[k + j] == y;
    }
  }

  /** The ten rows are the newest: no in-range entry left out is newer than a row. */
  lemma TableNewest(ds: seq<DailyStat>, start: int, end: int)
    ensures var t := Table(ds, start, end);
      var f := FilterRange(ds, start, end);
      forall x: DailyStat, y: DailyStat :: x in t && y in multiset(f) - multiset(t) ==> y.date <= x.date
  {
    var f := FilterRange(ds, start, end);
    var sorted := DailyStats.SortNewestFirst(f);
    DailyStats.SortElements(f);
    DailyStats.SortSorted(f);
    SortedLength(f);
    var t := Table(ds, start, end);
    var k := |t|;
    TableIsPrefix(sorted, t);
    MultisetSplit(sorted, k);
    SortedSplitDominates(sorted, k);
  }

  lemma TableIsPrefix(sorted: seq<DailyStat>, t: seq<DailyStat>)
    requires t == (if |sorted| <= TableRows then sorted else sorted[..TableRows])
    ensures |t| <= |sorted| && t == sorted[..|t|]
  {
  }

  /** Removing a prefix's elements from a sequence's multiset leaves the suffix's. */
  lemma MultisetSplit(s: seq<DailyStat>, k: nat)
    requires k <= |s|
    ensures multiset(s) - multiset(s[..k]) == multiset(s[k..])
  {
    assert s == s[..k] + s[k..];
  }

  /** The efficiency column: rounded share of focus in focus plus pause, 0 when that sum is not positive. */
  function Efficiency(e: DailyStat): (r: int)
    ensures e.totalFocusTime + e.totalPauseTime <= 0 ==> r == 0
  {
    var totalTime := e.totalFocusTime + e.totalPauseTime;
    if totalTime > 0 then RoundedPercent(e.totalFocusTime, totalTime) else 0
  }

  /** The efficiency is the nearest whole percentage, ties rounded up. */
  lemma EfficiencyNearest(e: DailyStat)
    requires e.totalFocusTime + e.totalPauseTime > 0
    ensures var t := e.totalFocusTime + e.totalPauseTime;
      var r := Efficiency(e);
      -t < 2 * (r * t - 100 * e.totalFocusTime) <= t
  {
    RoundedPercentSplit(e.totalFocusTime, e.totalFocusTime + e.totalPauseTime);
  }

  /** Without negative pause time the efficiency lies in 0-100; no pause at all gives 100. */
  lemma EfficiencyBounds(e: DailyStat)
    requires e.totalPauseTime >= 0
    ensures 0 <= Efficiency(e) <= 100
    ensures e.totalFocusTime > 0 && e.totalPauseTime == 0 ==> Efficiency(e) == 100
  {
    var t := e.totalFocusTime + e.totalPauseTime;
    if t > 0 {
      RoundedPercentBounds(e.totalFocusTime, t);
    }
  }

  // ---- the duration label

  /** `formatTime` of the dashboard: "Hh Mm Ss", "Mm Ss" or "Ss". */
  function FormatDuration(seconds: nat): string {
    var hours := seconds / 3600;
    var minutes := (seconds % 3600) / 60;
    var remainingSeconds := seconds % 60;
    if hours > 0 then NatToString(hours) + "h " + NatToString(minutes) + "m " + NatToString(remainingSeconds) + "s"
    else if minutes > 0 then NatToString(minutes) + "m " + NatToString(remainingSeconds) + "s"
    else NatToString(remainingSeconds) + "s"
  }

  /** Hours, minutes and seconds of the label add up to the input; minutes and seconds stay below 60. */
  lemma DurationParts(seconds: nat)
    ensures var h := seconds / 3600;
      var m := (seconds % 3600) / 60;
      var s := seconds % 60;
      3600 * h + 60 * m + s == seconds && m < 60 && s < 60
  {
    var r := seconds % 3600;
    assert seconds == 3600 * (seconds / 3600) + r;
    assert r == 60 * (r / 60) + r % 60;
    assert seconds == 60 * (60 * (seconds / 3600) + r / 60) + r % 60;
    assert seconds % 60 == r % 60;
  }

  lemma ParseMinutesSeconds(m: nat, s: nat)
    ensures ParseUnits(NatToString(m) + "m " + NatToString(s) + "s") == Some([(m, 'm'), (s, 's')])
  {
    ParseUnitsLast(s, 's');
    ParseUnitsCons(m, 'm', NatToString(s) + "s");
    MinutesSecondsText(m, s);
  }

  lemma MinutesSecondsText(m: nat, s: nat)
    ensures NatToString(m) + "m " + NatToString(s) + "s" == NatToString(m) + ['m'] + " " + (NatToString(s) + "s")
    ensures [(m, 'm')] + [(s, 's')] == [(m, 'm'), (s, 's')]
  {
  }

  lemma ParseHoursMinutesSeconds(h: nat, m: nat, s: nat)
    ensures ParseUnits(NatToString(h) + "h " + NatToString(m) + "m " + NatToString(s) + "s") ==
      Some([(h, 'h'), (m, 'm'), (s, 's')])
  {
    ParseMinutesSeconds(m, s);
    ParseUnitsCons(h, 'h', NatToString(m) + "m " + NatToString(s) + "s");
    HoursText(h, m, s);
  }

  lemma HoursText(h: nat, m: nat, s: nat)
    ensures NatToString(h) + "h " + NatToString(m) + "m " + NatToString(s) + "s"
      == NatToString(h) + ['h'] + " " + (NatToString(m) + "m " + NatToString(s) + "s")
    ensures [(h, 'h')] + [(m, 'm'), (s, 's')] == [(h, 'h'), (m, 'm'), (s, 's')]
  {
  }

  lemma UnitsValueThree(h: nat, m: nat, s: nat)
    ensures UnitsValue([(s, 's')]) == s
    ensures UnitsValue([(m, 'm'), (s, 's')]) == 60 * m + s
    ensures UnitsValue([(h, 'h'), (m, 'm'), (s, 's')]) == 3600 * h + 60 * m + s
  {
    assert [(h, 'h'), (m, 'm'), (s, 's')][1..] == [(m, 'm'), (s, 's')];
    assert [(m, 'm'), (s, 's')][1..] == [(s, 's')];
  }

  /**
   * The label reads back as its units, leading zero units dropped, and they
   * add up to the input.
   */
  lemma FormatDurationSpec(seconds: nat)
    ensures var h := seconds / 3600;
      var m := (seconds % 3600) / 60;
      var s := seconds % 60;
      ParseUnits(FormatDuration(seconds)) ==
        Some(if h > 0 then [(h, 'h'), (m, 'm'), (s, 's')] else if m > 0 then [(m, 'm'), (s, 's')] else [(s, 's')]) &&
      UnitsValue(ParseUnits(FormatDuration(seconds)).value) == seconds
  {
    var h := seconds / 3600;
    var m := (seconds % 3600) / 60;
    var s := seconds % 60;
    DurationParts(seconds);
    UnitsValueThree(h, m, s);
    if h > 0 {
      ParseHoursMinutesSeconds(h, m, s);
    } else if m > 0 {
      ParseMinutesSeconds(m, s);
    } else {
      ParseUnitsLast(s, 's');
    }
  }

  // ---- the CSV export

  /** A CSV field never holds the field or line separator. */
  predicate Plain(s: string) {
    ',' !in s && '\n' !in s
  }

  lemma DigitsPlain(s: string)
    requires AllDigits(s)
    ensures Plain(s)
  {
  }

  lemma IsoDatePlain(days: int)
    ensures Plain(Calendar.IsoDate(days))
  {
    var (y, m, d) := Calendar.CivilFromDays(days);
    Pad2Shape(m);
    Pad2Shape(d);
    DigitsPlain(Pad2(m));
    DigitsPlain(Pad2(d));
    var a := if y < 0 then -y else y;
    PadLeftShape(NatToString(a), 6);
    DigitsPlain(PadLeft(NatToString(a), 6));
    if 0 <= y <= 9999 {
      PadLeftShape(NatToString(y), 4);
      DigitsPlain(PadLeft(NatToString(y), 4));
    }
  }

  lemma IntToStringPlain(i: int)
    ensures Plain(IntToString(i)) && ParseInt(IntToString(i)) == Some(i)
  {
    DigitsPlain(NatToString(if i < 0 then -i else i));
    ParseIntToString(i);
  }

  /** The header line, its four column names joined by commas. */
  const CsvHeader: string :=
    "Date" + "," + "Completed Sessions" + "," + "Total Focus Time (s)" + "," + "Total Pause Time (s)"

  /** One exported line: date, completed sessions, focus seconds, pause seconds. */
  function CsvRow(e: DailyStat): string {
    Calendar.IsoDate(e.date) + "," + NatToString(e.completedSessions) + "," + NatToString(e.totalFocusTime) + "," +
    IntToString(e.totalPauseTime)
  }

  function CsvRows(ds: seq<DailyStat>): (r: seq<string>)
    ensures |r| == |ds|
    ensures forall k :: 0 <= k < |ds| ==> r[k] == CsvRow(ds[k])
  {
    seq(|ds|, k requires 0 <= k < |ds| => CsvRow(ds[k]))
  }

  /** The exported file: the header line, then the entries' lines joined by newlines. */
  function Csv(ds: seq<DailyStat>): string {
    CsvHeader + "\n" + Join(CsvRows(ds), '\n')
  }

  lemma SplitLastTwo(c: string, d: string)
    requires ',' !in c && ',' !in d
    ensures Split(c + [','] + d, ',') == [c, d]
  {
    SplitNone(d, ',');
    SplitFirst(c, ',', d);
  }

  lemma SplitNested(a: string, b: string, c: string, d: string)
    requires ',' !in a && ',' !in b && ',' !in c && ',' !in d
    ensures Split(a + [','] + (b + [','] + (c + [','] + d)), ',') == [a] + ([b] + [c, d])
  {
    SplitLastTwo(c, d);
    SplitFirst(b, ',', c + [','] + d);
    SplitFirst(a, ',', b + [','] + (c + [','] + d));
  }

  lemma FourFields(a: string, b: string, c: string, d: string)
    ensures [a] + ([b] + [c, d]) == [a, b, c, d]
    ensures a + "," + b + "," + c + "," + d == a + [','] + (b + [','] + (c + [','] + d))
  {
  }

  /** Four separator-free fields joined by commas split back into the four. */
  lemma SplitFour(a: string, b: string, c: string, d: string)
    requires Plain(a) && Plain(b) && Plain(c) && Plain(d)
    ensures Split(a + "," + b + "," + c + "," + d, ',') == [a, b, c, d]
    ensures '\n' !in a + "," + b + "," + c + "," + d
  {
    SplitNested(a, b, c, d);
    FourFields(a, b, c, d);
  }

  /** Each line has four fields: the ISO date and the three counters, which read back as the entry's. */
  lemma CsvRowFields(e: DailyStat)
    ensures '\n' !in CsvRow(e)
    ensures var fields := Split(CsvRow(e), ',');
      |fields| == 4 && fields[0] == Calendar.IsoDate(e.date) &&
      AllDigits(fields[1]) && ParseNat(fields[1]) == e.completedSessions &&
      AllDigits(fields[2]) && ParseNat(fields[2]) == e.totalFocusTime &&
      ParseInt(fields[3]) == Some(e.totalPauseTime)
  {
    IsoDatePlain(e.date);
    DigitsPlain(NatToString(e.completedSessions));
    DigitsPlain(NatToString(e.totalFocusTime));
    IntToStringPlain(e.totalPauseTime);
    ParseNatToString(e.completedSessions);
    ParseNatToString(e.totalFocusTime);
    SplitFour(Calendar.IsoDate(e.date), NatToString(e.completedSessions), NatToString(e.totalFocusTime),
              IntToString(e.totalPauseTime));
  }

  lemma RowsPlain(ds: seq<DailyStat>)
    ensures forall k :: 0 <= k < |CsvRows(ds)| ==> '\n' !in CsvRows(ds)[k]
  {
    forall k | 0 <= k < |CsvRows(ds)|
      ensures '\n' !in CsvRows(ds)[k]
    {
      CsvRowFields(ds[k]);
    }
  }

  /** The header names the four columns each line fills. */
  lemma CsvHeaderColumns()
    ensures '\n' !in CsvHeader
    ensures Split(CsvHeader, ',') == ["Date", "Completed Sessions", "Total Focus Time (s)", "Total Pause Time (s)"]
  {
    SplitFour("Date", "Completed Sessions", "Total Focus Time (s)", "Total Pause Time (s)");
  }

  lemma HeaderLine(body: string)
    ensures Split(CsvHeader + "\n" + body, '\n') == [CsvHeader] + Split(body, '\n')
  {
    assert CsvHeader + "\n" + body == CsvHeader + ['\n'] + body;
    CsvHeaderColumns();
    SplitFirst(CsvHeader, '\n', body);
  }

  /**
   * The file splits into the header and exactly one line per daily entry, in
   * list order (an empty list leaves one empty line after the header).
   */
  lemma CsvLines(ds: seq<DailyStat>)
    ensures Split(Csv(ds), '\n') == [CsvHeader] + (if ds == [] then [""] else CsvRows(ds))
  {
    HeaderLine(Join(CsvRows(ds), '\n'));
    if ds == [] {
      SplitNone("", '\n');
    } else {
      RowsPlain(ds);
      SplitJoin(CsvRows(ds), '\n');
    }
  }
}
