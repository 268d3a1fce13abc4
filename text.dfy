/**
 * Decimal rendering of integers as JavaScript's `Number.prototype.toString`
 * produces it for integral values, `String.prototype.padStart`, `join` and
 * `split` on one separator character, and the small parsers that read the
 * rendered strings back. The parsers exist only to state round trips.
 */
module Text {
  import opened Wrappers

  predicate IsDigit(c: char) {
    '0' <= c <= '9'
  }

  predicate AllDigits(s: string) {
    forall i :: 0 <= i < |s| ==> IsDigit(s[i])
  }

  function DigitChar(d: nat): (c: char)
    requires d < 10
    ensures IsDigit(c)
  {
    ('0' as int + d) as char
  }

  function DigitValue(c: char): (d: nat)
    requires IsDigit(c)
    ensures d < 10
  {
    c as int - '0' as int
  }

  /** Decimal digits of `n`, most significant first, no leading zero. */
  function NatToString(n: nat): (s: string)
    ensures |s| > 0 && AllDigits(s)
    ensures |s| > 1 ==> s[0] != '0'
    decreases n
  {
    if n < 10 then [DigitChar(n)] else NatToString(n / 10) + [DigitChar(n % 10)]
  }

  /** Decimal rendering with a leading minus sign for negative values. */
  function IntToString(i: int): string {
    if i < 0 then "-" + NatToString(-i) else NatToString(i)
  }

  /** The value of a string of decimal digits. */
  function ParseNat(s: string): nat
    requires AllDigits(s)
  {
    if s == [] then 0 else ParseNat(s[..|s| - 1]) * 10 + DigitValue(s[|s| - 1])
  }

  /** Reads back what `IntToString` writes. */
  function ParseInt(s: string): Option<int> {
    if |s| > 1 && s[0] == '-' && AllDigits(s[1..]) then Some(0 - ParseNat(s[1..]) as int)
    else if |s| > 0 && AllDigits(s) then Some(ParseNat(s))
    else None
  }

  lemma {:induction false} ParseNatToString(n: nat)
    ensures ParseNat(NatToString(n)) == n
    decreases n
  {
    if n >= 10 {
      var s := NatToString(n);
      assert s == NatToString(n / 10) + [DigitChar(n % 10)];
      assert s[..|s| - 1] == NatToString(n / 10);
      ParseNatToString(n / 10);
    }
  }

  lemma ParseIntToString(i: int)
    ensures ParseInt(IntToString(i)) == Some(i)
  {
    if i < 0 {
      var s := IntToString(i);
      assert s[1..] == NatToString(-i);
      ParseNatToString(-i);
    } else {
      ParseNatToString(i);
    }
  }

  /** `s.padStart(width, '0')` */
  function PadLeft(s: string, width: nat): (r: string)
    decreases width - |s|
  {
    if |s| >= width then s else PadLeft("0" + s, width)
  }

  lemma {:induction false} PadLeftShape(s: string, width: nat)
    ensures |PadLeft(s, width)| == if |s| >= width then |s| else width
    ensures AllDigits(s) ==> AllDigits(PadLeft(s, width)) && ParseNat(PadLeft(s, width)) == ParseNat(s)
    decreases width - |s|
  {
    if |s| < width {
      if AllDigits(s) {
        ParseNatLeadingZero(s);
      }
      PadLeftShape("0" + s, width);
    }
  }

  /** A leading zero does not change the value of a digit string. */
  lemma {:induction false} ParseNatLeadingZero(s: string)
    requires AllDigits(s)
    ensures AllDigits("0" + s) && ParseNat("0" + s) == ParseNat(s)
    decreases |s|
  {
    if s != [] {
      var t := "0" + s;
      assert t[..|t| - 1] == "0" + s[..|s| - 1];
      ParseNatLeadingZero(s[..|s| - 1]);
    }
  }

  /** Two-digit zero padding, `n.toString().padStart(2, '0')`. */
  function Pad2(n: nat): string {
    PadLeft(NatToString(n), 2)
  }

  lemma Pad2Shape(n: nat)
    ensures AllDigits(Pad2(n)) && ParseNat(Pad2(n)) == n
    ensures n < 100 ==> |Pad2(n)| == 2
  {
    PadLeftShape(NatToString(n), 2);
    ParseNatToString(n);
    if n < 100 {
      NatToStringShort(n);
    }
  }

  lemma NatToStringShort(n: nat)
    requires n < 100
    ensures |NatToString(n)| <= 2
  {
  }

  /** The longest prefix of `s` made of digits, and what follows it. */
  function SplitDigits(s: string): (r: (string, string))
    ensures r.0 + r.1 == s && AllDigits(r.0)
    ensures r.1 != [] ==> !IsDigit(r.1[0])
  {
    if s == [] || !IsDigit(s[0]) then ([], s)
    else
      var (d, rest) := SplitDigits(s[1..]);
      ([s[0]] + d, rest)
  }

  lemma {:induction false} SplitDigitsAppend(x: string, rest: string)
    requires AllDigits(x)
    requires rest == [] || !IsDigit(rest[0])
    ensures SplitDigits(x + rest) == (x, rest)
    decreases |x|
  {
    if x != [] {
      assert (x + rest)[1..] == x[1..] + rest;
      SplitDigitsAppend(x[1..], rest);
      assert [x[0]] + x[1..] == x;
    } else {
      assert x + rest == rest;
    }
  }

  /** Number of seconds one unit letter of a duration label stands for. */
  function UnitSeconds(u: char): nat {
    if u == 'h' then 3600 else if u == 'm' then 60 else if u == 's' then 1 else 0
  }

  /**
   * Reads labels such as "1h 2m 3s": numbers each followed by one unit letter,
   * separated by single spaces, into their (value, unit) pairs.
   */
  function ParseUnits(s: string): Option<seq<(nat, char)>>
    decreases |s|
  {
    var (d, r) := SplitDigits(s);
    if d == [] || r == [] then None
    else if |r| == 1 then Some([(ParseNat(d), r[0])])
    else if r[1] == ' ' then
      match ParseUnits(r[2..])
      case Some(ts) => Some([(ParseNat(d), r[0])] + ts)
      case None => None
    else None
  }

  /** Total number of seconds a parsed duration label denotes. */
  function UnitsValue(ts: seq<(nat, char)>): nat {
    if ts == [] then 0 else ts[0].0 * UnitSeconds(ts[0].1) + UnitsValue(ts[1..])
  }

  lemma ParseUnitsLast(n: nat, u: char)
    requires !IsDigit(u)
    ensures ParseUnits(NatToString(n) + [u]) == Some([(n, u)])
  {
    SplitDigitsAppend(NatToString(n), [u]);
    ParseNatToString(n);
  }

  lemma ParseUnitsCons(n: nat, u: char, more: string)
    requires !IsDigit(u)
    ensures ParseUnits(NatToString(n) + [u] + " " + more) ==
      match ParseUnits(more)
      case Some(ts) => Some([(n, u)] + ts)
      case None => None
  {
    var s := NatToString(n) + [u] + " " + more;
    assert s == NatToString(n) + ([u] + " " + more);
    SplitDigitsAppend(NatToString(n), [u] + " " + more);
    assert ([u] + " " + more)[2..] == more;
    ParseNatToString(n);
  }

  /** `lines.join(sep)` */
  function Join(lines: seq<string>, sep: char): string {
    if |lines| == 0 then ""
    else if |lines| == 1 then lines[0]
    else lines[0] + [sep] + Join(lines[1..], sep)
  }

  /** Index of the first `c` in `s`, or `|s|` when there is none. */
  function IndexOf(s: string, c: char): (i: nat)
    ensures i <= |s|
    ensures i < |s| ==> s[i] == c
    ensures forall j :: 0 <= j < i ==> s[j] != c
  {
    if s == [] then 0 else if s[0] == c then 0 else 1 + IndexOf(s[1..], c)
  }

  /** `s.split(sep)` for a one-character separator. */
  function Split(s: string, sep: char): (r: seq<string>)
    ensures |r| > 0
    decreases |s|
  {
    var i := IndexOf(s, sep);
    if i == |s| then [s] else [s[..i]] + Split(s[i + 1..], sep)
  }

  lemma SplitFirst(a: string, sep: char, b: string)
    requires sep !in a
    ensures Split(a + [sep] + b, sep) == [a] + Split(b, sep)
  {
    var s := a + [sep] + b;
    IndexOfAfter(a, sep, b);
    assert s[..|a|] == a && s[|a| + 1..] == b;
  }

  lemma SplitNone(a: string, sep: char)
    requires sep !in a
    ensures Split(a, sep) == [a]
  {
    IndexOfAbsent(a, sep);
  }

  lemma {:induction false} IndexOfAbsent(s: string, c: char)
    requires c !in s
    ensures IndexOf(s, c) == |s|
  {
    if s != [] {
      assert forall k :: 0 <= k < |s| - 1 ==> s[1..][k] == s[k + 1];
      IndexOfAbsent(s[1..], c);
    }
  }

  lemma {:induction false} IndexOfAfter(a: string, c: char, b: string)
    requires c !in a
    ensures IndexOf(a + [c] + b, c) == |a|
  {
    if a != [] {
      assert (a + [c] + b)[1..] == a[1..] + [c] + b;
      IndexOfAfter(a[1..], c, b);
    }
  }

  /** Splitting a join on a separator that no piece contains gives the pieces back. */
  lemma {:induction false} SplitJoin(lines: seq<string>, sep: char)
    requires |lines| > 0
    requires forall k :: 0 <= k < |lines| ==> sep !in lines[k]
    ensures Split(Join(lines, sep), sep) == lines
  {
    if |lines| == 1 {
      SplitNone(lines[0], sep);
    } else {
      SplitFirst(lines[0], sep, Join(lines[1..], sep));
      SplitJoin(lines[1..], sep);
    }
  }
}
