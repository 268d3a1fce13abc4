/**
 * Calendar dates of day numbers (days since 1970-01-01, UTC) as the date
 * part of `toISOString` prints them; the daily statistics key their entries
 * by such a date.
 */
module Calendar {
  import opened Text

  lemma DoeBounds(z: int)
    ensures 0 <= z - (z / 146097) * 146097 <= 146096
  {
  }

  lemma YoeBounds(doe: int)
    requires 0 <= doe <= 146096
    ensures 0 <= (doe - doe / 1460 + doe / 36524 - doe / 146096) / 365 <= 399
  {
  }

  /** Within one century of an era: the year of the century and its 4-year cycle. */
  lemma YearInCentury(e: int, b: int)
    requires 0 <= e <= 36523 && 0 <= b <= 3
    ensures var y := (e - (24 * b + e) / 1460) / 365;
      var q := e / 1461;
      var r := e % 1461;
      y == 4 * q + (if r / 365 < 3 then r / 365 else 3)
  {
    var q := e / 1461;
    var r := e % 1461;
    assert e == 1461 * q + r;
    assert 0 <= q <= 24;
    var g := (24 * b + e) / 1460;
    var delta := g - q;
    assert 24 * b + e == 1460 * q + (24 * b + q + r);
    assert 0 <= 24 * b + q + r < 2 * 1460;
    assert delta == (24 * b + q + r) / 1460;
    assert delta == 0 || delta == 1;
    assert r == 1460 ==> delta == 1;
    assert e - g == 1460 * q + (r - delta);
    assert (e - g) / 365 == 4 * q + (r - delta) / 365;
    if r < 1460 && delta == 1 {
      assert r >= 1364;
      assert (r - delta) / 365 == r / 365;
    }
  }

  lemma DayInCentury(e: int, b: int)
    requires 0 <= e <= 36523 && 0 <= b <= 3
    ensures var y := (e - (24 * b + e) / 1460) / 365;
      0 <= e - (365 * y + y / 4) <= 365
  {
    YearInCentury(e, b);
    var q := e / 1461;
    var r := e % 1461;
    var m := if r / 365 < 3 then r / 365 else 3;
    var y := 4 * q + m;
    assert y / 4 == q;
    assert e - (365 * y + y / 4) == r - 365 * m;
  }

  /** The day of the March-based year falls in 0-365: the leap-day corrections add up. */
  lemma DoyBounds(doe: int)
    requires 0 <= doe <= 146096
    ensures var yoe := (doe - doe / 1460 + doe / 36524 - doe / 146096) / 365;
      0 <= doe - (365 * yoe + yoe / 4 - yoe / 100) <= 365
  {
    if doe < 146096 {
      var b := doe / 36524;
      var e := doe % 36524;
      assert doe == 36524 * b + e;
      assert 0 <= b <= 3;
      assert doe / 1460 == 25 * b + (24 * b + e) / 1460;
      assert doe / 146096 == 0;
      var y := (e - (24 * b + e) / 1460) / 365;
      DayInCentury(e, b);
      assert 0 <= y <= 99;
      var yoe := (doe - doe / 1460 + doe / 36524 - doe / 146096) / 365;
      assert doe - doe / 1460 + doe / 36524 - doe / 146096 == 36500 * b + (e - (24 * b + e) / 1460);
      assert yoe == 100 * b + y;
      assert yoe / 4 == 25 * b + y / 4;
      assert yoe / 100 == b;
    }
  }

  /** Day 365 of a year of a century ends a 4-year cycle before the century's last year. */
  lemma LeapDayInCentury(e: int, b: int)
    requires 0 <= e <= 36523 && 0 <= b <= 3
    ensures var y := (e - (24 * b + e) / 1460) / 365;
      e - (365 * y + y / 4) == 365 ==> (y + 1) % 4 == 0 && y + 1 < 100
  {
    YearInCentury(e, b);
    var q := e / 1461;
    var r := e % 1461;
    var t := r / 365;
    var m := if t < 3 then t else 3;
    var y := 4 * q + m;
    assert y / 4 == q;
    assert e - (365 * y + y / 4) == r - 365 * m;
    if r - 365 * m == 365 {
      assert m == 3 && r == 1460;
      assert q <= 23;
    }
  }

  lemma CenturyYear(b: int, k: int)
    requires 0 <= b <= 3 && 0 < k < 100
    ensures (100 * b + k) % 100 == k && (100 * b + k) % 4 == k % 4
  {
  }

  /**
   * Day 365 of a March-based year of the era is a 29th of February: the
   * following calendar year of the era is a leap year.
   */
  lemma LeapDayOfEra(doe: int)
    requires 0 <= doe <= 146096
    ensures var yoe := (doe - doe / 1460 + doe / 36524 - doe / 146096) / 365;
      doe - (365 * yoe + yoe / 4 - yoe / 100) == 365 ==>
        (yoe + 1) % 4 == 0 && ((yoe + 1) % 100 != 0 || yoe + 1 == 400)
  {
    if doe < 146096 {
      var b := doe / 36524;
      var e := doe % 36524;
      assert doe == 36524 * b + e;
      assert doe / 1460 == 25 * b + (24 * b + e) / 1460;
      var y := (e - (24 * b + e) / 1460) / 365;
      DayInCentury(e, b);
      LeapDayInCentury(e, b);
      assert 0 <= y <= 99;
      var yoe := (doe - doe / 1460 + doe / 36524 - doe / 146096) / 365;
      assert doe - doe / 1460 + doe / 36524 - doe / 146096 == 36500 * b + (e - (24 * b + e) / 1460);
      assert yoe == 100 * b + y;
      assert yoe / 4 == 25 * b + y / 4;
      assert yoe / 100 == b;
      assert doe - (365 * yoe + yoe / 4 - yoe / 100) == e - (365 * y + y / 4);
      if e - (365 * y + y / 4) == 365 {
        CenturyYear(b, y + 1);
      }
    } else {
      assert (doe - doe / 1460 + doe / 36524 - doe / 146096) / 365 == 399;
    }
  }

  lemma MonthDayBounds(doy: int)
    requires 0 <= doy <= 365
    ensures var mp := (5 * doy + 2) / 153;
      0 <= mp <= 11 && 1 <= doy - (153 * mp + 2) / 5 + 1 <= 31
  {
  }

  /** Leap years of the proleptic Gregorian calendar. */
  predicate IsLeapYear(y: int) {
    y % 4 == 0 && (y % 100 != 0 || y % 400 == 0)
  }

  /** Number of days of a month (1-12) of a year. */
  function DaysInMonth(y: int, m: int): nat {
    if m == 2 then (if IsLeapYear(y) then 29 else 28)
    else if m == 4 || m == 6 || m == 9 || m == 11 then 30
    else 31
  }

  /**
   * The day of the month stays within the month's length counted from March:
   * 31, 30, 31, 30, 31, 31, 30, 31, 30, 31, 31 days, then a February of 28
   * days unless the day is the last of a 366-day year.
   */
  lemma MonthLengthBounds(doy: int)
    requires 0 <= doy <= 365
    ensures var mp := (5 * doy + 2) / 153;
      var d := doy - (153 * mp + 2) / 5 + 1;
      d <= (if mp == 11 then (if doy == 365 then 29 else 28)
            else if mp == 1 || mp == 3 || mp == 6 || mp == 8 then 30
            else 31)
  {
  }

  /** A year of an era keeps its leap status across eras of 400 years. */
  lemma LeapAcrossEras(era: int, k: int)
    ensures (k % 4 == 0 && (k % 100 != 0 || k == 400)) ==> IsLeapYear(era * 400 + k)
  {
    assert era * 400 + k == 4 * (100 * era) + k;
    assert era * 400 + k == 100 * (4 * era) + k;
    if k == 400 {
      assert era * 400 + k == 400 * (era + 1);
    }
  }

  /** The year of an era of 400 years holding a year, and its place in that era. */
  lemma EraOfYear(era: int, yoe: int)
    requires 0 <= yoe <= 399
    ensures (yoe + era * 400) / 400 == era
  {
  }

  /**
   * Year, month and day in the proleptic Gregorian calendar of a count of
   * days since 1970-01-01, by eras of 400 years.
   */
  function CivilFromDays(days: int): (r: (int, nat, nat))
    ensures 1 <= r.1 <= 12 && 1 <= r.2 <= DaysInMonth(r.0, r.1)
    ensures DaysFromCivil(r.0, r.1, r.2) == days
  {
    var z := days + 719468;
    var era := z / 146097;
    var doe := z - era * 146097;
    DoeBounds(z);
    YoeBounds(doe);
    DoyBounds(doe);
    LeapDayOfEra(doe);
    var yoe := (doe - doe / 1460 + doe / 36524 - doe / 146096) / 365;
    var doy := doe - (365 * yoe + yoe / 4 - yoe / 100);
    MonthDayBounds(doy);
    MonthLengthBounds(doy);
    var mp := (5 * doy + 2) / 153;
    var d := doy - (153 * mp + 2) / 5 + 1;
    var m := if mp < 10 then mp + 3 else mp - 9;
    LeapAcrossEras(era, yoe + 1);
    EraOfYear(era, yoe);
    (yoe + era * 400 + (if m <= 2 then 1 else 0), m, d)
  }

  /**
   * The count of days since 1970-01-01 of a date of the proleptic Gregorian
   * calendar, by eras of 400 years starting in March.
   */
  function DaysFromCivil(y: int, m: int, d: int): int {
    var y1 := if m <= 2 then y - 1 else y;
    var era := y1 / 400;
    var yoe := y1 - era * 400;
    var mp := if m > 2 then m - 3 else m + 9;
    var doy := (153 * mp + 2) / 5 + d - 1;
    var doe := yoe * 365 + yoe / 4 - yoe / 100 + doy;
    era * 146097 + doe - 719468
  }

  /** The date part of `toISOString`: four-digit years, or a sign and six digits outside 0-9999. */
  function IsoDate(days: int): string {
    var (y, m, d) := CivilFromDays(days);
    var year := if 0 <= y <= 9999 then PadLeft(NatToString(y), 4)
                else (if y < 0 then "-" else "+") + PadLeft(NatToString(if y < 0 then -y else y), 6);
    year + "-" + Pad2(m) + "-" + Pad2(d)
  }

  /** The epoch day prints as 1970-01-01. */
  lemma IsoDateEpoch()
    ensures CivilFromDays(0) == (1970, 1, 1)
    ensures IsoDate(0) == "1970-01-01"
  {
    assert 719468 / 146097 == 4;
    assert 135080 / 1460 == 92 && 135080 / 36524 == 3 && 135080 / 146096 == 0;
    assert 134991 / 365 == 369 && 369 / 4 == 92 && 369 / 100 == 3;
    assert 1532 / 153 == 10 && 1532 / 5 == 306;
    assert NatToString(1970) == "1970";
    assert NatToString(1) == "1";
  }

  /** The day before the epoch prints as 1969-12-31. */
  lemma IsoDateBeforeEpoch()
    ensures CivilFromDays(-1) == (1969, 12, 31)
    ensures IsoDate(-1) == "1969-12-31"
  {
    assert 719467 / 146097 == 4;
    assert 135079 / 1460 == 92 && 135079 / 36524 == 3 && 135079 / 146096 == 0;
    assert 134990 / 365 == 369 && 369 / 4 == 92 && 369 / 100 == 3;
    assert 1527 / 153 == 9 && 1379 / 5 == 275;
    assert NatToString(1969) == "1969";
    assert NatToString(12) == "12" && NatToString(31) == "31";
  }

  /** Day 20000 prints as 2024-10-04. */
  lemma IsoDateRecent()
    ensures CivilFromDays(20000) == (2024, 10, 4)
    ensures IsoDate(20000) == "2024-10-04"
  {
    assert 739468 / 146097 == 5;
    assert 8983 / 1460 == 6 && 8983 / 36524 == 0 && 8983 / 146096 == 0;
    assert 8977 / 365 == 24 && 24 / 4 == 6 && 24 / 100 == 0;
    assert 1087 / 153 == 7 && 1073 / 5 == 214;
    assert NatToString(2024) == "2024";
    assert NatToString(10) == "10" && NatToString(4) == "4";
  }
}
