/** The command-line argument parsers of `stingy`: ranges `lo-hi` of dates
    or amounts, months and periods. The current year, which the program
    reads from the clock, is a parameter. */
module Cli {
  import opened Wrappers
  import opened Numerals
  import opened Strings
  import opened Dates
  import Tags

  // -----------------------------------------------------------------------
  // parse_range

  const NoDash := "could not split provided range string (must contain one '-')"
  /** The `{TIP}` prefix is the light-bulb emoji. */
  const InvalidValues := "invalid value(s) in range.\n\n\U{1F4A1} Tip: use ':' to mean infinity, as in ':-max' or 'min-:'."
  const WrongOrder := "range values are in the wrong order!"

  /** `parse_range`: the text is split at its first '-' only, each part is
      parsed with its index (0 for the lower bound, 1 for the upper bound),
      and two present bounds must not be in descending order under `less`,
      the type's `<`. */
  function ParseRange<T>(s: string, part: (nat, string) -> Result<Option<T>>, less: (T, T) -> bool)
    : (r: Result<(Option<T>, Option<T>)>)
    ensures '-' !in s ==> r == Err(NoDash)
    ensures r.Ok? <==>
      && '-' in s
      && var (lo, hi) := SplitOnce(s, '-').value;
      && part(0, lo).Ok? && part(1, hi).Ok?
      && !(part(0, lo).value.Some? && part(1, hi).value.Some? && less(part(1, hi).value.value, part(0, lo).value.value))
    ensures r.Ok? ==>
      var (lo, hi) := SplitOnce(s, '-').value;
      && s == lo + "-" + hi && '-' !in lo
      && r.value == (part(0, lo).value, part(1, hi).value)
  {
    match SplitOnce(s, '-')
    case None => Err(NoDash)
    case Some((lo, hi)) =>
      var a, b := part(0, lo), part(1, hi);
      if a.Err? || b.Err? then Err(InvalidValues)
      else if a.value.Some? && b.value.Some? && less(b.value.value, a.value.value) then Err(WrongOrder)
      else Ok((a.value, b.value))
  }

  /** Only the first '-' splits: the upper part may hold more of them. */
  lemma SplitsAtFirstDash(lo: string, hi: string)
    requires '-' !in lo
    ensures SplitOnce(lo + "-" + hi, '-') == Some((lo, hi))
  {
    var s := lo + "-" + hi;
    var r := SplitOnce(s, '-').value;
    assert r.0 + "-" + r.1 == s && '-' !in r.0;
    assert forall i :: 0 <= i < |lo| ==> s[i] == lo[i] && s[i] != '-';
    assert forall i :: 0 <= i < |r.0| ==> s[i] == r.0[i] && s[i] != '-';
    assert s[|lo|] == '-' && s[|r.0|] == '-';
    assert |r.0| == |lo|;
    assert r.0 == s[..|lo|] && lo == s[..|lo|];
    assert r.1 == s[|lo| + 1..] && hi == s[|lo| + 1..];
  }

  // -----------------------------------------------------------------------
  // parse_month

  const MonthFormat := "invalid month format: try YYYY/MM."

  /** chrono's month names, in lower case, as a three-letter abbreviation
      and the rest of the name. */
  const Abbreviations: seq<string> := ["jan", "feb", "mar", "apr", "may", "jun", "jul", "aug", "sep", "oct", "nov", "dec"]
  const Suffixes: seq<string> := ["uary", "ruary", "ch", "il", "", "e", "y", "ust", "tember", "ober", "ember", "ember"]

  function MonthName(k: nat): (name: string)
    requires k < 12
    ensures |name| >= 3 && name[..3] == Abbreviations[k] && name[3..] == Suffixes[k]
  {
    Abbreviations[k] + Suffixes[k]
  }

  predicate IsAsciiLetter(c: char) {
    'A' <= c <= 'Z' || 'a' <= c <= 'z'
  }

  /** The `month` group: two digits or a run of ASCII letters. */
  predicate IsMonthToken(t: string) {
    (|t| == 2 && AllDigits(t)) || (|t| > 0 && forall i :: 0 <= i < |t| ==> IsAsciiLetter(t[i]))
  }

  /** The pattern `^((?P<year>\d{4})[-/])?(?P<month>(\d{2}|[A-Za-z]+))$`:
      the year group, if present, and the month group. The two shapes
      cannot both match, since a bare month token holds no '-' or '/'. */
  function MatchMonth(s: string): (r: Option<(Option<string>, string)>)
    ensures r.Some? && r.value.0.None? ==> r.value.1 == s && IsMonthToken(s)
    ensures r.Some? && r.value.0.Some? ==>
      && |r.value.0.value| == 4 && AllDigits(r.value.0.value) && IsMonthToken(r.value.1)
      && (s == r.value.0.value + "-" + r.value.1 || s == r.value.0.value + "/" + r.value.1)
  {
    if IsMonthToken(s) then Some((None, s))
    else if |s| >= 5 && AllDigits(s[..4]) && (s[4] == '-' || s[4] == '/') && IsMonthToken(s[5..]) then
      assert s == s[..4] + [s[4]] + s[5..];
      Some((Some(s[..4]), s[5..]))
    else None
  }

  function LowerChar(c: char): char {
    if 'A' <= c <= 'Z' then (c as int + 32) as char else c
  }

  function Lower(s: string): (r: string)
    ensures |r| == |s| && forall i :: 0 <= i < |s| ==> r[i] == LowerChar(s[i])
  {
    seq(|s|, i requires 0 <= i < |s| => LowerChar(s[i]))
  }

  /** `chrono::Month::from_str`: the first three letters of a month's name,
      in any case, optionally followed by the rest of that name. */
  function MonthFromName(t: string): (r: Option<nat>)
    ensures r.Some? ==> 1 <= r.value <= 12
    ensures r.Some? ==> |t| >= 3 && Lower(t)[..3] == Abbreviations[r.value - 1]
  {
    FindMonth(Lower(t), 0)
  }

  function FindMonth(l: string, k: nat): (r: Option<nat>)
    requires k <= 12
    ensures r.Some? ==> k < r.value <= 12 && |l| >= 3 && l[..3] == Abbreviations[r.value - 1]
    decreases 12 - k
  {
    if k == 12 then None
    else if |l| >= 3 && l[..3] == Abbreviations[k] && (l[3..] == [] || l[3..] == Suffixes[k]) then Some(k + 1)
    else FindMonth(l, k + 1)
  }

  /** The month group as a number: `parse::<u32>` for two digits, otherwise
      a month name. */
  function MonthNumber(t: string): (r: Result<nat>)
    ensures r.Ok? && !(|t| == 2 && AllDigits(t)) ==> 1 <= r.value <= 12
  {
    if |t| == 2 && AllDigits(t) then Ok(DigitsValue(t))
    else
      match MonthFromName(t)
      case None => Err("invalid month '" + t + "'")
      case Some(m) => Ok(m)
  }

  /** `parse_month`: (month, year), the year defaulting to `nowYear`. */
  function ParseMonth(s: string, nowYear: int): (r: Result<(nat, int)>)
    ensures MatchMonth(s).None? ==> r == Err(MonthFormat)
    ensures r.Ok? ==> 1 <= r.value.0 <= 12
    ensures r.Ok? && IsMonthToken(s) ==> r.value.1 == nowYear
    ensures r.Ok? && !IsMonthToken(s) ==> 0 <= r.value.1 <= 9999
  {
    match MatchMonth(s)
    case None => Err(MonthFormat)
    case Some((year, token)) =>
      var y := if year.Some? then DigitsValue(year.value) as int else nowYear;
      assert year.Some? ==> y < 10000 by {
        if year.Some? { DigitsBelow(year.value); }
      }
      var m :- MonthNumber(token);
      if m == 0 || m > 12 then Err("month " + NatToString(m) + " is not in range 1-12!")
      else Ok((m, y))
  }

  lemma {:induction false} DigitsBelow(s: string)
    requires AllDigits(s)
    ensures DigitsValue(s) < Pow10(|s|)
    decreases |s|
  {
    if |s| > 0 {
      DigitsBelow(s[..|s| - 1]);
    }
  }

  /** `YYYY/MM` and `YYYY-MM` name that month of that year. */
  lemma YearMonthParses(y: nat, m: nat, sep: char, nowYear: int)
    requires y <= 9999 && 1 <= m <= 12 && (sep == '-' || sep == '/')
    ensures ParseMonth(ZeroPadded(y, 4) + [sep] + ZeroPadded(m, 2), nowYear) == Ok((m, y))
  {
    var ys, ms := ZeroPadded(y, 4), ZeroPadded(m, 2);
    NatToStringLength(y, 4);
    NatToStringLength(m, 2);
    var s := ys + [sep] + ms;
    assert !IsMonthToken(s) by {
      assert |s| == 7 && !IsAsciiLetter(s[0]);
    }
    assert s[..4] == ys && s[4] == sep && s[5..] == ms;
    assert IsMonthToken(ms);
  }

  /** A month's name or its three-letter abbreviation, in lower case, is
      that month of the current year. */
  lemma MonthNameParses(k: nat, nowYear: int)
    requires k < 12
    ensures ParseMonth(MonthName(k), nowYear) == Ok((k + 1, nowYear))
    ensures ParseMonth(Abbreviations[k], nowYear) == Ok((k + 1, nowYear))
  {
    var name := MonthName(k);
    LowerCaseNames(k);
    LowerOfLower(name);
    LowerOfLower(Abbreviations[k]);
    assert IsMonthToken(name) && IsMonthToken(Abbreviations[k]);
    FirstMatchingMonth(name, k);
    assert Abbreviations[k][..3] == Abbreviations[k];
    FirstMatchingMonth(Abbreviations[k], k);
  }

  /** Month names are lower-case letters. */
  lemma LowerCaseNames(k: nat)
    requires k < 12
    ensures |Abbreviations[k]| == 3
    ensures forall i :: 0 <= i < |MonthName(k)| ==> 'a' <= MonthName(k)[i] <= 'z'
  {
    if k == 0 {} else if k == 1 {} else if k == 2 {} else if k == 3 {} else if k == 4 {} else if k == 5 {}
    else if k == 6 {} else if k == 7 {} else if k == 8 {} else if k == 9 {} else if k == 10 {} else {}
  }

  lemma LowerOfLower(s: string)
    requires forall i :: 0 <= i < |s| ==> 'a' <= s[i] <= 'z'
    ensures Lower(s) == s
  {
  }

  /** The month whose name starts with the given three letters. */
  function MonthOfAbbreviation(a: string): int {
    if a == "jan" then 0 else if a == "feb" then 1 else if a == "mar" then 2
    else if a == "apr" then 3 else if a == "may" then 4 else if a == "jun" then 5
    else if a == "jul" then 6 else if a == "aug" then 7 else if a == "sep" then 8
    else if a == "oct" then 9 else if a == "nov" then 10 else if a == "dec" then 11 else -1
  }

  /** The three-letter abbreviations tell the months apart. */
  lemma AbbreviationsDistinct(k: nat)
    requires k < 12
    ensures MonthOfAbbreviation(Abbreviations[k]) == k
  {
    if k == 0 {} else if k == 1 {} else if k == 2 {} else if k == 3 {} else if k == 4 {} else if k == 5 {}
    else if k == 6 {} else if k == 7 {} else if k == 8 {} else if k == 9 {} else if k == 10 {} else {}
  }

  /** No other month shares the first three letters of month `k`. */
  lemma FirstMatchingMonth(l: string, k: nat)
    requires k < 12 && |l| >= 3 && l[..3] == Abbreviations[k]
    requires l[3..] == [] || l[3..] == Suffixes[k]
    ensures FindMonth(l, 0) == Some(k + 1)
  {
    AbbreviationsDistinct(k);
    var j := 0;
    while j < k
      invariant 0 <= j <= k
      invariant FindMonth(l, j) == FindMonth(l, 0)
    {
      AbbreviationsDistinct(j);
      j := j + 1;
    }
  }

  /** Two digits outside 01..12 are refused. */
  lemma MonthOutOfRange(t: string, nowYear: int)
    requires |t| == 2 && AllDigits(t) && (DigitsValue(t) == 0 || DigitsValue(t) > 12)
    ensures ParseMonth(t, nowYear).Err?
  {
  }

  // -----------------------------------------------------------------------
  // first_day_of_month, last_day_of_month

  const FirstDayBug := "failed to compute the first day of the month. This is a bug."
  const LastDayBug := "failed to compute the last day of the month. This is a bug."

  function FirstDayOfMonth(y: int, m: nat): (r: Result<Date>)
    ensures r.Ok? <==> MinYear <= y <= MaxYear && 1 <= m <= 12
    ensures r.Ok? ==> r.value == Date(y, m, 1)
  {
    match FromYmd(y, m, 1)
    case None => Err(FirstDayBug)
    case Some(d) => Ok(d)
  }

  /** `last_day_of_month`: the day before the first of the next month, or
      before the first of January of the next year when the month is
      December. The fallback for December is computed, and must exist,
      whatever the month. */
  function LastDayOfMonth(y: int, m: nat): (r: Result<Date>)
    ensures r.Ok? ==> Valid(r.value)
  {
    match FromYmd(y + 1, 1, 1)
    case None => Err(LastDayBug)
    case Some(fallback) =>
      var next := FromYmd(y, m + 1, 1).GetOr(fallback);
      match Pred(next)
      case None => Err(LastDayBug)
      case Some(d) => Ok(d)
  }

  /** The last day of a month is that month's length, and the next day is
      not in the month. */
  lemma LastDayIsLast(y: int, m: nat)
    requires MinYear <= y < MaxYear && 1 <= m <= 12
    ensures LastDayOfMonth(y, m) == Ok(Date(y, m, DaysInMonth(y, m)))
    ensures Valid(Date(y, m, DaysInMonth(y, m))) && !Valid(Date(y, m, DaysInMonth(y, m) + 1))
  {
    if m < 12 {
      assert FromYmd(y, m + 1, 1) == Some(Date(y, m + 1, 1));
    } else {
      assert FromYmd(y, m + 1, 1) == None;
    }
  }

  /** In the last year chrono can represent, the December fallback does not
      exist, so every month of that year is refused. */
  lemma LastYearRefused(m: nat)
    ensures LastDayOfMonth(MaxYear, m) == Err(LastDayBug)
  {
    assert FromYmd(MaxYear + 1, 1, 1) == None;
  }

  // -----------------------------------------------------------------------
  // parse_date_range, parse_period, parse_amount_range

  /** One bound of a date range: ':' is `NaiveDate::MIN` as a lower bound
      and `NaiveDate::MAX` as an upper bound; otherwise `%Y/%m/%d`, and
      failing that a month, whose first day is a lower bound and whose last
      day is an upper bound. */
  function DatePart(i: nat, part: string, nowYear: int): Result<Option<Date>> {
    if part == ":" then Ok(Some(if i == 0 then MinDate else MaxDate))
    else
      match Parse(part, '/')
      case Some(d) => Ok(Some(d))
      case None =>
        var (m, y) :- ParseMonth(part, nowYear);
        var d :- if i == 0 then FirstDayOfMonth(y, m) else LastDayOfMonth(y, m);
        Ok(Some(d))
  }

  /** `parse_date_range`. */
  function ParseDateRange(s: string, nowYear: int): (r: Result<(Option<Date>, Option<Date>)>)
    ensures r.Ok? ==> r.value.0.Some? && r.value.1.Some? && !Before(r.value.1.value, r.value.0.value)
  {
    var r := ParseRange(s, (i, p) => DatePart(i, p, nowYear), Before);
    assert r.Ok? ==> r.value.0.Some? && r.value.1.Some?;
    r
  }

  /** `parse_period`: nothing; a single month, from its first to its last
      day; or a date range. */
  function ParsePeriod(period: Option<string>, nowYear: int): (r: Result<(Option<Date>, Option<Date>)>)
    ensures period.None? ==> r == Ok((None, None))
    ensures period.Some? && ParseMonth(period.value, nowYear).Err? ==> r == ParseDateRange(period.value, nowYear)
  {
    match period
    case None => Ok((None, None))
    case Some(p) =>
      match ParseMonth(p, nowYear)
      case Ok((m, y)) =>
        var first :- FirstDayOfMonth(y, m);
        var last :- LastDayOfMonth(y, m);
        Ok((Some(first), Some(last)))
      case Err(_) => ParseDateRange(p, nowYear)
  }

  /** A single `YYYY/MM` period covers that whole month. */
  lemma PeriodOfYearMonth(y: nat, m: nat, nowYear: int)
    requires y <= 9999 && 1 <= m <= 12
    ensures ParsePeriod(Some(ZeroPadded(y, 4) + "/" + ZeroPadded(m, 2)), nowYear)
      == Ok((Some(Date(y, m, 1)), Some(Date(y, m, DaysInMonth(y, m)))))
  {
    YearMonthParses(y, m, '/', nowYear);
    LastDayIsLast(y, m);
  }

  /** A single month name is that whole month of the current year. */
  lemma PeriodOfMonthName(k: nat, nowYear: int)
    requires k < 12 && MinYear <= nowYear < MaxYear
    ensures ParsePeriod(Some(MonthName(k)), nowYear)
      == Ok((Some(Date(nowYear, k + 1, 1)), Some(Date(nowYear, k + 1, DaysInMonth(nowYear, k + 1)))))
  {
    MonthNameParses(k, nowYear);
    LastDayIsLast(nowYear, k + 1);
  }

  /** Two dates in ascending order (years 0 to 9999, which `%Y` writes
      without a sign) are read back as the bounds; in descending order they
      are refused. */
  lemma DateRangeOfDates(d1: Date, d2: Date, nowYear: int)
    requires Valid(d1) && Valid(d2) && 0 <= d1.year <= 9999
    ensures ParseDateRange(Format(d1, '/') + "-" + Format(d2, '/'), nowYear)
      == if Before(d2, d1) then Err(WrongOrder) else Ok((Some(d1), Some(d2)))
  {
    var lo, hi := Format(d1, '/'), Format(d2, '/');
    DatePartOfDate(0, d1, nowYear);
    DatePartOfDate(1, d2, nowYear);
    SplitsAtFirstDash(lo, hi);
  }

  /** A formatted date is read back as itself, and holds no '-' when its
      year is not negative. */
  lemma DatePartOfDate(i: nat, d: Date, nowYear: int)
    requires Valid(d)
    ensures DatePart(i, Format(d, '/'), nowYear) == Ok(Some(d))
    ensures 0 <= d.year <= 9999 ==> '-' !in Format(d, '/')
  {
    var f := Format(d, '/');
    FormatParseRoundTrip(d, '/');
    assert f != ":" by {
      assert f[|f| - 1] == ZeroPadded(d.day, 2)[1];
    }
    if 0 <= d.year <= 9999 {
      FormatHasNoDash(d);
    }
  }

  lemma FormatHasNoDash(d: Date)
    requires Valid(d) && 0 <= d.year <= 9999
    ensures '-' !in Format(d, '/')
  {
    var y, m, x := ZeroPadded(d.year, 4), ZeroPadded(d.month, 2), ZeroPadded(d.day, 2);
    assert Format(d, '/') == y + "/" + m + "/" + x;
    assert '-' !in y && '-' !in m && '-' !in x;
  }

  /** ':' on either side is the extreme date on that side. */
  lemma OpenDateRange(nowYear: int)
    ensures ParseDateRange(":-:", nowYear) == Ok((Some(MinDate), Some(MaxDate)))
  {
    SplitsAtFirstDash(":", ":");
  }

  /** Two month names in order span from the first day of the first to the
      last day of the second, in the current year. */
  lemma MonthNameRange(k1: nat, k2: nat, nowYear: int)
    requires k1 <= k2 < 12 && MinYear <= nowYear < MaxYear
    ensures ParsePeriod(Some(MonthName(k1) + "-" + MonthName(k2)), nowYear)
      == Ok((Some(Date(nowYear, k1 + 1, 1)), Some(Date(nowYear, k2 + 1, DaysInMonth(nowYear, k2 + 1)))))
  {
    var a, b := MonthName(k1), MonthName(k2);
    var s := a + "-" + b;
    LowerCaseNames(k1);
    assert MatchMonth(s).None? by {
      assert !IsAsciiLetter(s[|a|]) && !IsDigit(s[0]);
    }
    MonthNameDateRange(k1, k2, nowYear);
  }

  lemma MonthNameDateRange(k1: nat, k2: nat, nowYear: int)
    requires k1 <= k2 < 12 && MinYear <= nowYear < MaxYear
    ensures ParseDateRange(MonthName(k1) + "-" + MonthName(k2), nowYear)
      == Ok((Some(Date(nowYear, k1 + 1, 1)), Some(Date(nowYear, k2 + 1, DaysInMonth(nowYear, k2 + 1)))))
  {
    DatePartOfName(k1, nowYear);
    DatePartOfName(k2, nowYear);
    SplitsAtFirstDash(MonthName(k1), MonthName(k2));
  }

  /** A month name is its first day as a lower bound and its last day as an
      upper bound. */
  lemma DatePartOfName(k: nat, nowYear: int)
    requires k < 12 && MinYear <= nowYear < MaxYear
    ensures DatePart(0, MonthName(k), nowYear) == Ok(Some(Date(nowYear, k + 1, 1)))
    ensures DatePart(1, MonthName(k), nowYear) == Ok(Some(Date(nowYear, k + 1, DaysInMonth(nowYear, k + 1))))
    ensures '-' !in MonthName(k)
  {
    LowerCaseNames(k);
    NameIsNotDate(MonthName(k));
    MonthNameParses(k, nowYear);
    LastDayIsLast(nowYear, k + 1);
  }

  /** A word is not a `%Y/%m/%d` date. */
  lemma NameIsNotDate(w: string)
    requires |w| > 0 && IsAsciiLetter(w[0])
    ensures Parse(w, '/').None?
  {
    assert ScanNumber(w, 1, 4).None? by {
      assert DigitRun(w, 4) == 0;
    }
  }

  const AmountError := "failed to parse range value"

  /** One bound of an amount range: ':' is the most negative `f64` as a
      lower bound and the largest as an upper bound; otherwise
      `str::parse::<f64>`, given as `parse`. */
  function AmountPart(i: nat, part: string, parse: string -> Option<real>): Result<Option<real>> {
    if part == ":" then Ok(Some(if i == 0 then Tags.F64Min else Tags.F64Max))
    else
      match parse(part)
      case Some(v) => Ok(Some(v))
      case None => Err(AmountError)
  }

  /** `parse_amount_range`. */
  function ParseAmountRange(range: Option<string>, parse: string -> Option<real>): (r: Result<(Option<real>, Option<real>)>)
    ensures range.None? ==> r == Ok((None, None))
    ensures r.Ok? && range.Some? ==> r.value.0.Some? && r.value.1.Some? && r.value.0.value <= r.value.1.value
  {
    match range
    case None => Ok((None, None))
    case Some(s) =>
      var r := ParseRange(s, (i, p) => AmountPart(i, p, parse), (a: real, b: real) => a < b);
      assert r.Ok? ==> r.value.0.Some? && r.value.1.Some?;
      r
  }

  /** `:-:` spans every `f64` amount; a single amount is refused. */
  lemma OpenAmountRange(parse: string -> Option<real>)
    ensures ParseAmountRange(Some(":-:"), parse) == Ok((Some(Tags.F64Min), Some(Tags.F64Max)))
  {
    SplitsAtFirstDash(":", ":");
  }
}
