/** Decimal text: the digit rendering behind `{}`, `{:02}` and `{:3}` and
    the digit scanning behind `str::parse` and chrono's numeric fields. */
module Numerals {
  import opened Wrappers

  predicate IsDigit(c: char) { '0' <= c <= '9' }

  predicate AllDigits(s: string) { forall i :: 0 <= i < |s| ==> IsDigit(s[i]) }

  function DigitChar(n: nat): (c: char)
    requires n < 10
    ensures IsDigit(c) && c as int - '0' as int == n
  {
    ['0', '1', '2', '3', '4', '5', '6', '7', '8', '9'][n]
  }

  function DigitValue(c: char): nat
    requires IsDigit(c)
  {
    c as int - '0' as int
  }

  /** The value of a run of decimal digits, most significant first. */
  function DigitsValue(s: string): nat
    requires AllDigits(s)
  {
    if |s| == 0 then 0 else DigitsValue(s[..|s| - 1]) * 10 + DigitValue(s[|s| - 1])
  }

  /** Shortest decimal rendering of `n` ("0" for zero). */
  function NatToString(n: nat): (s: string)
    ensures 1 <= |s| && AllDigits(s)
    ensures n < 10 <==> |s| == 1
    ensures s[0] != '0' || n == 0
  {
    if n < 10 then [DigitChar(n)] else NatToString(n / 10) + [DigitChar(n % 10)]
  }

  function Repeat(c: char, k: nat): (s: string)
    ensures |s| == k && forall i :: 0 <= i < k ==> s[i] == c
  {
    if k == 0 then [] else [c] + Repeat(c, k - 1)
  }

  /** `s` padded on the left with `c` up to `width` characters. */
  function PadLeft(s: string, width: nat, c: char): (r: string)
    ensures |r| == if |s| < width then width else |s|
    ensures r[|r| - |s|..] == s
    ensures forall i :: 0 <= i < |r| - |s| ==> r[i] == c
  {
    if |s| < width then Repeat(c, width - |s|) + s else s
  }

  /** `{:0w}` of a non-negative integer. */
  function ZeroPadded(n: nat, width: nat): (s: string)
    ensures AllDigits(s) && DigitsValue(s) == n
    ensures |s| == if |NatToString(n)| < width then width else |NatToString(n)|
  {
    var digits := NatToString(n);
    NatToStringValue(n);
    ZerosValue(if |digits| < width then width - |digits| else 0, digits);
    PadLeft(digits, width, '0')
  }

  /** `{}` of an integer: a minus sign for negative values. */
  function IntToString(i: int): (s: string)
    ensures 1 <= |s|
    ensures i >= 0 ==> s == NatToString(i)
    ensures i < 0 ==> s == "-" + NatToString(-i)
  {
    if i < 0 then "-" + NatToString(-i) else NatToString(i)
  }

  lemma {:induction false} NatToStringValue(n: nat)
    ensures DigitsValue(NatToString(n)) == n
  {
    if n >= 10 {
      var s := NatToString(n);
      assert s[..|s| - 1] == NatToString(n / 10);
      NatToStringValue(n / 10);
    }
  }

  lemma {:induction false} ZerosValue(k: nat, s: string)
    requires AllDigits(s)
    ensures AllDigits(Repeat('0', k) + s)
    ensures DigitsValue(Repeat('0', k) + s) == DigitsValue(s)
  {
    var t := Repeat('0', k) + s;
    if |s| == 0 {
      assert t == Repeat('0', k);
      if k > 0 {
        assert t[..|t| - 1] == Repeat('0', k - 1) + s;
        ZerosValue(k - 1, s);
      }
    } else {
      assert t[..|t| - 1] == Repeat('0', k) + s[..|s| - 1];
      ZerosValue(k, s[..|s| - 1]);
    }
  }

  function Pow10(k: nat): (p: nat)
    ensures p >= 1
  {
    if k == 0 then 1 else 10 * Pow10(k - 1)
  }

  lemma {:induction false} NatToStringLength(n: nat, k: nat)
    requires 1 <= k && n < Pow10(k)
    ensures |NatToString(n)| <= k
  {
    if n >= 10 {
      assert n / 10 < Pow10(k - 1);
      NatToStringLength(n / 10, k - 1);
    }
  }

  /** Length of the run of leading digits of `s`, at most `max`. */
  function DigitRun(s: string, max: nat): (k: nat)
    ensures k <= |s| && k <= max
    ensures AllDigits(s[..k])
    ensures k < |s| && k < max ==> !IsDigit(s[k])
  {
    if |s| == 0 || max == 0 || !IsDigit(s[0]) then 0
    else
      var k := 1 + DigitRun(s[1..], max - 1);
      assert s[..k] == [s[0]] + s[1..][..k - 1];
      k
  }

  /** chrono's number scanner: at least `min` and at most `max` leading
      digits, taken greedily; the value and what follows it. */
  function ScanNumber(s: string, min: nat, max: nat): (r: Option<(nat, string)>)
    ensures r.Some? ==> exists k :: min <= k <= |s| && AllDigits(s[..k]) && r.value == (DigitsValue(s[..k]), s[k..])
  {
    var k := DigitRun(s, max);
    if k < min then None else Some((DigitsValue(s[..k]), s[k..]))
  }

  lemma {:induction false} DigitRunOfDigits(ds: string, rest: string, max: nat)
    requires AllDigits(ds) && |ds| <= max
    requires |rest| == 0 || !IsDigit(rest[0])
    ensures DigitRun(ds + rest, max) == |ds|
  {
    if |ds| > 0 {
      assert (ds + rest)[1..] == ds[1..] + rest;
      DigitRunOfDigits(ds[1..], rest, max - 1);
    } else {
      assert ds + rest == rest;
    }
  }

  lemma ScanNumberOfDigits(ds: string, rest: string, min: nat, max: nat)
    requires AllDigits(ds) && min <= |ds| <= max
    requires |rest| == 0 || !IsDigit(rest[0])
    ensures ScanNumber(ds + rest, min, max) == Some((DigitsValue(ds), rest))
  {
    DigitRunOfDigits(ds, rest, max);
    assert (ds + rest)[..|ds|] == ds;
    assert (ds + rest)[|ds|..] == rest;
  }

  const I64Min: int := -0x8000_0000_0000_0000
  const I64Max: int := 0x7fff_ffff_ffff_ffff

  /** `str::parse::<i64>`: an optional sign and at least one digit, nothing
      else, within the 64-bit range. */
  function ParseI64(s: string): (r: Option<int>)
    ensures r.Some? ==> I64Min <= r.value <= I64Max
    ensures r.Some? ==> exists i :: 0 <= i < |s| && AllDigits(s[i..])
  {
    var neg := |s| > 0 && s[0] == '-';
    var digits := if |s| > 0 && (s[0] == '-' || s[0] == '+') then s[1..] else s;
    if |digits| == 0 || !AllDigits(digits) then None
    else
      assert s[|s| - |digits|..] == digits;
      var v: int := if neg then -(DigitsValue(digits) as int) else DigitsValue(digits);
      if I64Min <= v <= I64Max then Some(v) else None
  }

  lemma {:induction false} ParseI64OfIntToString(i: int)
    requires I64Min <= i <= I64Max
    ensures ParseI64(IntToString(i)) == Some(i)
  {
    NatToStringValue(if i < 0 then -i else i);
    if i < 0 {
      assert IntToString(i)[1..] == NatToString(-i);
    }
  }
}
