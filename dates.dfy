/** Calendar dates in the proleptic Gregorian calendar, within the range a
    chrono `NaiveDate` can hold, with the `%Y<sep>%m<sep>%d` format and
    parser that the program uses for storage ("-") and for the command line
    and reports ("/"). */
module Dates {
  import opened Wrappers
  import opened Numerals

  datatype Date = Date(year: int, month: int, day: int)

  const MinYear: int := -262144
  const MaxYear: int := 262143
  /** `NaiveDate::MIN` and `NaiveDate::MAX`. */
  const MinDate: Date := Date(MinYear, 1, 1)
  const MaxDate: Date := Date(MaxYear, 12, 31)

  predicate IsLeapYear(y: int) {
    y % 4 == 0 && (y % 100 != 0 || y % 400 == 0)
  }

  function DaysInMonth(y: int, m: int): (n: int)
    requires 1 <= m <= 12
    ensures 28 <= n <= 31
  {
    if m == 2 then (if IsLeapYear(y) then 29 else 28)
    else if m == 4 || m == 6 || m == 9 || m == 11 then 30
    else 31
  }

  predicate Valid(d: Date) {
    MinYear <= d.year <= MaxYear && 1 <= d.month <= 12 && 1 <= d.day <= DaysInMonth(d.year, d.month)
  }

  /** Strict calendar order (`NaiveDate`'s `<`). */
  predicate Before(a: Date, b: Date) {
    a.year < b.year || (a.year == b.year && (a.month < b.month || (a.month == b.month && a.day < b.day)))
  }

  /** `NaiveDate::from_ymd_opt`. */
  function FromYmd(y: int, m: int, d: int): (r: Option<Date>)
    ensures r.Some? <==> Valid(Date(y, m, d))
    ensures r.Some? ==> r.value == Date(y, m, d)
  {
    if Valid(Date(y, m, d)) then Some(Date(y, m, d)) else None
  }

  /** `NaiveDate::pred_opt`: the day before, if it is representable. */
  function Pred(d: Date): (r: Option<Date>)
    requires Valid(d)
    ensures r.None? <==> d == MinDate
    ensures r.Some? ==> Valid(r.value) && Before(r.value, d)
    ensures r.Some? ==> forall e :: Valid(e) && Before(r.value, e) ==> !Before(e, d)
  {
    if d.day > 1 then Some(Date(d.year, d.month, d.day - 1))
    else if d.month > 1 then Some(Date(d.year, d.month - 1, DaysInMonth(d.year, d.month - 1)))
    else if d.year > MinYear then Some(Date(d.year - 1, 12, 31))
    else None
  }

  /** chrono's `%Y`: four digits, zero-padded, between 0 and 9999; otherwise
      an explicit sign followed by at least four digits. */
  function FormatYear(y: int): string {
    if 0 <= y <= 9999 then ZeroPadded(y, 4)
    else if y < 0 then "-" + ZeroPadded(-y, 4)
    else "+" + ZeroPadded(y, 4)
  }

  /** `format("%Y<sep>%m<sep>%d")`. */
  function Format(d: Date, sep: char): (s: string)
    requires Valid(d)
  {
    FormatYear(d.year) + [sep] + ZeroPadded(d.month, 2) + [sep] + ZeroPadded(d.day, 2)
  }

  /** chrono's `%Y` scanner: a signed number of any length, or up to four
      unsigned digits. */
  function ScanYear(s: string): Option<(int, string)> {
    if |s| > 0 && s[0] == '-' then
      var r :- ScanNumber(s[1..], 1, |s|);
      Some((-(r.0 as int), r.1))
    else if |s| > 0 && s[0] == '+' then
      var r :- ScanNumber(s[1..], 1, |s|);
      Some((r.0 as int, r.1))
    else
      var r :- ScanNumber(s, 1, 4);
      Some((r.0 as int, r.1))
  }

  /** `NaiveDate::parse_from_str(s, "%Y<sep>%m<sep>%d")`: every character
      must be consumed and the fields must name a valid date. */
  function Parse(s: string, sep: char): (r: Option<Date>)
    ensures r.Some? ==> Valid(r.value)
  {
    var y :- ScanYear(s);
    if |y.1| == 0 || y.1[0] != sep then None
    else
      var m :- ScanNumber(y.1[1..], 1, 2);
      if |m.1| == 0 || m.1[0] != sep then None
      else
        var d :- ScanNumber(m.1[1..], 1, 2);
        if |d.1| != 0 then None
        else FromYmd(y.0, m.0, d.0)
  }

  /** `NaiveDate::parse_from_str(s, "%d<sep>%m<sep>%Y")`. */
  function ParseDayFirst(s: string, sep: char): (r: Option<Date>)
    ensures r.Some? ==> Valid(r.value)
  {
    var d :- ScanNumber(s, 1, 2);
    if |d.1| == 0 || d.1[0] != sep then None
    else
      var m :- ScanNumber(d.1[1..], 1, 2);
      if |m.1| == 0 || m.1[0] != sep then None
      else
        var y :- ScanYear(m.1[1..]);
        if |y.1| != 0 then None
        else FromYmd(y.0, m.0, d.0)
  }

  lemma FieldWidth(n: nat, width: nat)
    requires width == 2 || width == 4
    requires n < (if width == 2 then 100 else 10000)
    ensures |ZeroPadded(n, width)| == width
  {
    if width == 2 {
      assert Pow10(2) == 100;
    } else {
      assert Pow10(4) == 10000 by {
        assert Pow10(2) == 100;
      }
    }
    NatToStringLength(n, width);
  }

  lemma ScanUnsignedYear(y: int, tail: string)
    requires 0 <= y <= 9999
    requires |tail| > 0 && !IsDigit(tail[0])
    ensures ScanYear(FormatYear(y) + tail) == Some((y, tail))
  {
    var ys := ZeroPadded(y, 4);
    FieldWidth(y, 4);
    ScanNumberOfDigits(ys, tail, 1, 4);
    assert (ys + tail)[0] == ys[0];
  }

  lemma ScanSignedYear(sign: char, n: nat, tail: string)
    requires sign == '-' || sign == '+'
    requires |tail| > 0 && !IsDigit(tail[0])
    ensures var s := [sign] + ZeroPadded(n, 4) + tail;
      s[0] == sign && ScanNumber(s[1..], 1, |s|) == Some((n, tail))
  {
    var ys := ZeroPadded(n, 4);
    var s := [sign] + ys + tail;
    assert s[1..] == ys + tail;
    ScanNumberOfDigits(ys, tail, 1, |s|);
  }

  /** What the signed branches of `ScanYear` make of a sign and the number
      after it. */
  lemma ScanYearSign(s: string, sign: char, n: nat, tail: string)
    requires sign == '-' || sign == '+'
    requires |s| > 0 && s[0] == sign && ScanNumber(s[1..], 1, |s|) == Some((n, tail))
    ensures ScanYear(s) == Some((if sign == '-' then -(n as int) else n as int, tail))
  {
  }

  lemma FormatSignedYear(y: int)
    requires y < 0 || y > 9999
    ensures FormatYear(y) == [if y < 0 then '-' else '+'] + ZeroPadded(if y < 0 then -y else y, 4)
  {
    assert "-" == ['-'] && "+" == ['+'];
  }

  lemma ScanNegativeYear(y: int, tail: string)
    requires y < 0
    requires |tail| > 0 && !IsDigit(tail[0])
    ensures ScanYear(FormatYear(y) + tail) == Some((y, tail))
  {
    FormatSignedYear(y);
    ScanSignedYear('-', -y, tail);
    ScanYearSign(['-'] + ZeroPadded(-y, 4) + tail, '-', -y, tail);
  }

  lemma ScanPositiveYear(y: int, tail: string)
    requires y > 9999
    requires |tail| > 0 && !IsDigit(tail[0])
    ensures ScanYear(FormatYear(y) + tail) == Some((y, tail))
  {
    FormatSignedYear(y);
    ScanSignedYear('+', y, tail);
    ScanYearSign(['+'] + ZeroPadded(y, 4) + tail, '+', y, tail);
  }

  lemma ScanFormattedYear(y: int, tail: string)
    requires MinYear <= y <= MaxYear
    requires |tail| > 0 && !IsDigit(tail[0])
    ensures ScanYear(FormatYear(y) + tail) == Some((y, tail))
  {
    if 0 <= y <= 9999 {
      ScanUnsignedYear(y, tail);
    } else if y < 0 {
      ScanNegativeYear(y, tail);
    } else {
      ScanPositiveYear(y, tail);
    }
  }

  /** Parsing what `Format` wrote gives back the date, for any separator
      that is not a digit. */
  lemma ParseFields(s: string, sep: char, y: int, m: nat, day: nat, t1: string, t2: string)
    requires ScanYear(s) == Some((y, t1)) && |t1| > 0 && t1[0] == sep
    requires ScanNumber(t1[1..], 1, 2) == Some((m, t2)) && |t2| > 0 && t2[0] == sep
    requires ScanNumber(t2[1..], 1, 2) == Some((day, []))
    ensures Parse(s, sep) == FromYmd(y, m, day)
  {
  }

  lemma ScanMonthAndDay(m: nat, day: nat, sep: char)
    requires 1 <= m <= 12 && 1 <= day <= 31 && !IsDigit(sep)
    ensures ScanNumber(ZeroPadded(m, 2) + ([sep] + ZeroPadded(day, 2)), 1, 2) == Some((m, [sep] + ZeroPadded(day, 2)))
    ensures ScanNumber(([sep] + ZeroPadded(day, 2))[1..], 1, 2) == Some((day, []))
  {
    var ds := ZeroPadded(day, 2);
    FieldWidth(m, 2);
    FieldWidth(day, 2);
    ScanNumberOfDigits(ZeroPadded(m, 2), [sep] + ds, 1, 2);
    assert ([sep] + ds)[1..] == ds + [];
    ScanNumberOfDigits(ds, [], 1, 2);
  }

  lemma FormatParseRoundTrip(d: Date, sep: char)
    requires Valid(d) && !IsDigit(sep)
    ensures Parse(Format(d, sep), sep) == Some(d)
  {
    var afterMonth := [sep] + ZeroPadded(d.day, 2);
    var tail := [sep] + (ZeroPadded(d.month, 2) + afterMonth);
    FormatShape(d, sep);
    ScanFormattedYear(d.year, tail);
    ScanMonthAndDay(d.month, d.day, sep);
    ParseFields(Format(d, sep), sep, d.year, d.month, d.day, tail, afterMonth);
  }

  /** `Format` as the year followed by the separated month and day. */
  lemma FormatShape(d: Date, sep: char)
    requires Valid(d)
    ensures var tail := [sep] + (ZeroPadded(d.month, 2) + ([sep] + ZeroPadded(d.day, 2)));
      Format(d, sep) == FormatYear(d.year) + tail && tail[1..] == ZeroPadded(d.month, 2) + ([sep] + ZeroPadded(d.day, 2))
  {
    var ms, ds := ZeroPadded(d.month, 2), ZeroPadded(d.day, 2);
    RightNested(FormatYear(d.year), [sep], ms, [sep], ds);
    DropHead(sep, ms + ([sep] + ds));
  }

  lemma RightNested(a: string, b: string, c: string, d: string, e: string)
    ensures a + b + c + d + e == a + (b + (c + (d + e)))
  {
  }

  lemma DropHead(x: char, r: string)
    ensures ([x] + r)[1..] == r
  {
  }
}
