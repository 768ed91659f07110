/** Decimal numerals: JavaScript's `"" + n` for non-negative integers, the
    digit-string reading used by the date parser, left zero padding, and
    the prefix-reading `parseFloat` restricted to unsigned decimals. */
module Numerals {
  import opened Optional

  predicate IsDigit(c: char) {
    '0' <= c <= '9'
  }

  predicate AllDigits(s: string) {
    forall i :: 0 <= i < |s| ==> IsDigit(s[i])
  }

  /** A digit string holds no other character. */
  lemma DigitsOnly(s: string, c: char)
    requires AllDigits(s) && !IsDigit(c)
    ensures c !in s
  {
    assert forall i :: 0 <= i < |s| ==> s[i] != c;
  }

  function DigitChar(d: nat): (c: char)
    requires d < 10
    ensures IsDigit(c)
  {
    (48 + d) as char
  }

  function DigitValue(c: char): (d: nat)
    requires IsDigit(c)
    ensures d < 10 && DigitChar(d) == c
  {
    c as int - 48
  }

  function Pow10(k: nat): (p: nat)
    ensures p >= 1
  {
    if k == 0 then 1 else 10 * Pow10(k - 1)
  }

  /** The value of a string of decimal digits, most significant first. */
  function ParseDigits(s: string): (n: nat)
    requires AllDigits(s)
    ensures n < Pow10(|s|)
  {
    if |s| == 0 then 0
    else ParseDigits(s[..|s| - 1]) * 10 + DigitValue(s[|s| - 1])
  }

  /** JavaScript's `"" + n` for a non-negative integer: the shortest
      decimal numeral. */
  function NatToString(n: nat): (s: string)
    ensures |s| >= 1 && AllDigits(s)
    ensures ParseDigits(s) == n
    ensures |s| > 1 ==> s[0] != '0'
  {
    if n < 10 then [DigitChar(n)]
    else
      var s := NatToString(n / 10) + [DigitChar(n % 10)];
      assert s[..|s| - 1] == NatToString(n / 10);
      s
  }

  /** A numeral fits in `k` characters when its value is below 10^k. */
  lemma {:induction false} NatToStringLength(n: nat, k: nat)
    requires k >= 1 && n < Pow10(k)
    ensures |NatToString(n)| <= k
  {
    if n >= 10 {
      assert n / 10 < Pow10(k - 1);
      NatToStringLength(n / 10, k - 1);
    }
  }

  /** A leading zero does not change the value of a numeral. */
  lemma {:induction false} ParseDigitsLeadingZero(s: string)
    requires AllDigits(s)
    ensures AllDigits("0" + s) && ParseDigits("0" + s) == ParseDigits(s)
    decreases |s|
  {
    var z := "0" + s;
    if |s| > 0 {
      assert z[..|z| - 1] == "0" + s[..|s| - 1];
      ParseDigitsLeadingZero(s[..|s| - 1]);
    }
  }

  /** The zero padding of the NMEQ component (`zeroPad`): prefixes `'0'`
      until the string has at least `digits` characters. */
  function ZeroPad(s: string, digits: int): (r: string)
    ensures |r| == Max(|s|, digits)
    ensures |r| >= |s| && r[|r| - |s|..] == s
    ensures forall i :: 0 <= i < |r| - |s| ==> r[i] == '0'
    ensures |s| >= digits ==> r == s
    decreases digits - |s|
  {
    if |s| < digits then
      var r := ZeroPad("0" + s, digits);
      PadStep(r, s);
      r
    else s
  }

  /** A string ending in `'0'` followed by `s` ends in `s`, after zeros. */
  lemma PadStep(r: string, s: string)
    requires |r| > |s| && r[|r| - |s| - 1..] == "0" + s
    requires forall i :: 0 <= i < |r| - |s| - 1 ==> r[i] == '0'
    ensures r[|r| - |s|..] == s
    ensures forall i :: 0 <= i < |r| - |s| ==> r[i] == '0'
  {
    var n := |r| - |s|;
    assert r[n - 1] == ("0" + s)[0];
    assert forall j :: 0 <= j < |s| ==> r[n..][j] == ("0" + s)[j + 1];
  }

  /** Padding a numeral with zeros keeps its value. */
  lemma {:induction false} ZeroPadKeepsValue(s: string, digits: int)
    requires AllDigits(s)
    ensures AllDigits(ZeroPad(s, digits))
    ensures ParseDigits(ZeroPad(s, digits)) == ParseDigits(s)
    decreases digits - |s|
  {
    if |s| < digits {
      ParseDigitsLeadingZero(s);
      ZeroPadKeepsValue("0" + s, digits);
    }
  }

  /** `n` written with exactly `k` digits, as `toISOString` writes the
      fields of a date: the last `k` decimal digits, most significant first. */
  function Fixed(n: nat, k: nat): (s: string)
    requires n < Pow10(k)
    ensures |s| == k && AllDigits(s) && ParseDigits(s) == n
  {
    if k == 0 then ""
    else
      var s := Fixed(n / 10, k - 1) + [DigitChar(n % 10)];
      assert s[..k - 1] == Fixed(n / 10, k - 1);
      s
  }

  /** Digit strings of equal length and equal value are equal. */
  lemma {:induction false} ParseDigitsInjective(a: string, b: string)
    requires |a| == |b| && AllDigits(a) && AllDigits(b)
    requires ParseDigits(a) == ParseDigits(b)
    ensures a == b
    decreases |a|
  {
    if |a| > 0 {
      var n := |a| - 1;
      var x, y := DigitValue(a[n]), DigitValue(b[n]);
      assert ParseDigits(a) % 10 == x && ParseDigits(b) % 10 == y;
      assert ParseDigits(a[..n]) == ParseDigits(a) / 10;
      assert ParseDigits(b[..n]) == ParseDigits(b) / 10;
      ParseDigitsInjective(a[..n], b[..n]);
      assert a == a[..n] + [a[n]] && b == b[..n] + [b[n]];
    }
  }

  /** The fixed-width field is the numeral of `n` padded with zeros, which is
      how the NMEQ component builds file-name fields (`zeroPad`). */
  lemma FixedIsZeroPad(n: nat, k: nat)
    requires k >= 1 && n < Pow10(k)
    ensures Fixed(n, k) == ZeroPad(NatToString(n), k)
  {
    NatToStringLength(n, k);
    ZeroPadKeepsValue(NatToString(n), k);
    ParseDigitsInjective(Fixed(n, k), ZeroPad(NatToString(n), k));
  }

  /** A trailing zero multiplies a numeral by ten. */
  lemma ParseDigitsTrailingZero(s: string)
    requires AllDigits(s)
    ensures AllDigits(s + "0") && ParseDigits(s + "0") == ParseDigits(s) * 10
  {
    assert (s + "0")[..|s|] == s;
  }

  /** Three trailing zeros multiply a numeral by a thousand. */
  lemma ParseDigitsThousand(s: string)
    requires AllDigits(s)
    ensures AllDigits(s + "000") && ParseDigits(s + "000") == ParseDigits(s) * 1000
  {
    ParseDigitsTrailingZero(s);
    ParseDigitsTrailingZero(s + "0");
    ParseDigitsTrailingZero(s + "00");
    assert s + "0" + "0" == s + "00";
    assert s + "00" + "0" == s + "000";
  }

  /** Trailing zeros in the fraction do not change a decimal's value. */
  lemma DecimalTrailingZeros(whole: string, frac: string)
    requires AllDigits(whole) && AllDigits(frac)
    ensures AllDigits(frac + "000") && DecimalValue(whole, frac + "000") == DecimalValue(whole, frac)
  {
    ParseDigitsThousand(frac);
    var n, p := ParseDigits(frac), Pow10(|frac|);
    assert Pow10(|frac| + 3) == p * 1000 by {
      assert Pow10(|frac| + 3) == 10 * (10 * (10 * p));
    }
    ScaleFraction(n, p, 1000);
  }

  /** Scaling a fraction's numerator and denominator alike keeps its value. */
  lemma ScaleFraction(n: nat, p: nat, k: nat)
    requires p > 0 && k > 0
    ensures (n * k) as real / (p * k) as real == n as real / p as real
  {
    var x, y, z := n as real, p as real, k as real;
    assert (n * k) as real == x * z && (p * k) as real == y * z;
    assert (x * z) / (y * z) == x / y;
  }

  /** The length of the run of digits at the start of `s`. */
  function DigitRun(s: string): (k: nat)
    ensures k <= |s| && AllDigits(s[..k])
    ensures k < |s| ==> !IsDigit(s[k])
  {
    if |s| == 0 || !IsDigit(s[0]) then 0
    else
      var k := 1 + DigitRun(s[1..]);
      assert forall i :: 1 <= i < k ==> s[..k][i] == s[1..][..k - 1][i - 1];
      k
  }

  /** The value of a decimal with integer digits `whole` and fraction
      digits `frac`. */
  function DecimalValue(whole: string, frac: string): real
    requires AllDigits(whole) && AllDigits(frac)
  {
    ParseDigits(whole) as real + ParseDigits(frac) as real / Pow10(|frac|) as real
  }

  /** JavaScript `parseFloat` on unsigned decimals: the longest prefix of
      the form `digits [. digits]` is read; `None` stands for `NaN`, which
      is the result when no digit starts the string (a lone `"."` included). */
  function ParseFloat(s: string): (r: Option<real>)
    ensures r.Some? <==> (|s| > 0 && IsDigit(s[0])) || (|s| > 1 && s[0] == '.' && IsDigit(s[1]))
    ensures r.Some? ==> r.value >= 0.0
  {
    var a := DigitRun(s);
    if a < |s| && s[a] == '.' then
      var rest := s[a + 1..];
      var b := DigitRun(rest);
      if a == 0 && b == 0 then None
      else Some(DecimalValue(s[..a], rest[..b]))
    else if a == 0 then None
    else Some(ParseDigits(s[..a]) as real)
  }

  lemma {:induction false} DigitRunOfDigits(d: string, rest: string)
    requires AllDigits(d)
    requires |rest| == 0 || !IsDigit(rest[0])
    ensures DigitRun(d + rest) == |d| && (d + rest)[..|d|] == d
    decreases |d|
  {
    if |d| > 0 {
      assert (d + rest)[1..] == d[1..] + rest;
      DigitRunOfDigits(d[1..], rest);
    } else {
      assert d + rest == rest;
    }
  }

  /** `parseFloat` reads back a decimal written as integer digits, a
      point and fraction digits, ignoring whatever non-digit follows. */
  lemma ParseFloatDecimal(whole: string, frac: string, rest: string)
    requires |whole| >= 1 && AllDigits(whole) && AllDigits(frac)
    requires |rest| == 0 || !IsDigit(rest[0])
    ensures ParseFloat(whole + "." + frac + rest) == Some(DecimalValue(whole, frac))
  {
    var tail := frac + rest;
    assert whole + "." + frac + rest == whole + (['.'] + tail);
    PointAfterDigits(whole, tail);
    DigitRunOfDigits(frac, rest);
    ParseFloatAtPoint(whole + (['.'] + tail), |whole|, |frac|);
  }

  lemma PointAfterDigits(whole: string, tail: string)
    requires AllDigits(whole)
    ensures var s := whole + (['.'] + tail);
      DigitRun(s) == |whole| && s[|whole|] == '.' && s[..|whole|] == whole && s[|whole| + 1..] == tail
  {
    DigitRunOfDigits(whole, ['.'] + tail);
  }

  lemma ParseFloatAtPoint(s: string, a: nat, b: nat)
    requires a >= 1 && a < |s| && DigitRun(s) == a && s[a] == '.'
    requires DigitRun(s[a + 1..]) == b
    ensures ParseFloat(s) == Some(DecimalValue(s[..a], s[a + 1..][..b]))
  {
  }

  /** `parseFloat` reads back an integer numeral followed by anything that
      is neither a digit nor a point. */
  lemma ParseFloatWhole(whole: string, rest: string)
    requires |whole| >= 1 && AllDigits(whole)
    requires |rest| == 0 || (!IsDigit(rest[0]) && rest[0] != '.')
    ensures ParseFloat(whole + rest) == Some(ParseDigits(whole) as real)
  {
    DigitRunOfDigits(whole, rest);
  }
}
