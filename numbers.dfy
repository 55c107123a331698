/**
 * The number presentation the service applies to scores: rounding to two decimals
 * (`round(x, 2)`) and the one-decimal percentage of `f"{score:.1%}"`. Scores are exact reals here.
 */
module Numbers {

  /** `round(x, 2)`, with halves rounded up. */
  function Round2(x: real): (r: real)
    ensures x - 0.005 < r <= x + 0.005
    ensures (r * 100.0).Floor as real == r * 100.0
  {
    ((x * 100.0 + 0.5).Floor as real) / 100.0
  }

  /** Rounding a value that already has two decimals gives it back. */
  lemma Round2Hundredths(k: int)
    ensures Round2(k as real / 100.0) == k as real / 100.0
  {
    var x := k as real / 100.0;
    assert x * 100.0 + 0.5 == k as real + 0.5;
    assert (x * 100.0 + 0.5).Floor == k;
  }

  /** Rounding keeps order: a larger value never rounds below a smaller one. */
  lemma Round2Monotone(x: real, y: real)
    requires x <= y
    ensures Round2(x) <= Round2(y)
  {
    var fx, fy := (x * 100.0 + 0.5).Floor, (y * 100.0 + 0.5).Floor;
    assert fx as real <= x * 100.0 + 0.5 <= y * 100.0 + 0.5 < fy as real + 1.0;
    assert fx <= fy;
    assert (fx as real) / 100.0 <= (fy as real) / 100.0;
  }

  function DigitChar(d: nat): (c: char)
    requires d < 10
    ensures '0' <= c <= '9'
  {
    "0123456789"[d]
  }

  /** Decimal digits of `n`, as `str(n)` writes them: no leading zero except for 0 itself. */
  function NatToString(n: nat): (s: string)
    ensures s != [] && (|s| > 1 ==> s[0] != '0')
    ensures forall k :: 0 <= k < |s| ==> '0' <= s[k] <= '9'
    decreases n
  {
    if n < 10 then [DigitChar(n)] else NatToString(n / 10) + [DigitChar(n % 10)]
  }

  /** The value of a string of decimal digits: the reading partner of `NatToString`. */
  function DigitsValue(s: string): int
  {
    if s == [] then 0 else DigitsValue(s[..|s| - 1]) * 10 + (s[|s| - 1] as int - '0' as int)
  }

  lemma {:induction false} NatToStringRoundTrip(n: nat)
    ensures DigitsValue(NatToString(n)) == n
  {
    if n >= 10 {
      NatToStringRoundTrip(n / 10);
      var s := NatToString(n);
      assert s[..|s| - 1] == NatToString(n / 10);
    }
  }

  /**
   * `f"{score:.1%}"`: the score times 100, rounded to one decimal (halves up), with a "%" sign;
   * a minus sign when the rounded value is negative.
   */
  function FormatPercent1(score: real): (s: string)
    ensures |s| >= 4 && s[|s| - 1] == '%' && s[|s| - 3] == '.' && '0' <= s[|s| - 2] <= '9'
  {
    var tenths := (score * 1000.0 + 0.5).Floor;
    var magnitude: nat := if tenths < 0 then -tenths else tenths;
    (if tenths < 0 then "-" else "") + NatToString(magnitude / 10) + "." + [DigitChar(magnitude % 10)] + "%"
  }

  /** The number a `FormatPercent1` text shows, in tenths of a percent: sign, integer digits, the one decimal. */
  function PercentTenths(s: string): int
    requires |s| >= 4
  {
    var negative := s[0] == '-';
    var digits := s[(if negative then 1 else 0)..|s| - 3];
    var value := DigitsValue(digits) * 10 + (s[|s| - 2] as int - '0' as int);
    if negative then -value else value
  }

  lemma DigitCharValue(d: nat)
    requires d < 10
    ensures DigitChar(d) as int - '0' as int == d
  {
  }

  /** A sign, the integer digits of `m / 10`, a point, the last digit of `m` and "%" read back as `m` tenths. */
  lemma {:induction false} PercentTextValue(negative: bool, m: nat)
    ensures var s := (if negative then "-" else "") + NatToString(m / 10) + "." + [DigitChar(m % 10)] + "%";
      |s| >= 4 && (s[0] == '-' <==> negative) && PercentTenths(s) == (if negative then -(m as int) else m as int)
  {
    var sign: string := if negative then "-" else "";
    var head := NatToString(m / 10);
    var s := sign + head + "." + [DigitChar(m % 10)] + "%";
    assert s[0] == (if negative then '-' else head[0]);
    assert s[|sign|..|s| - 3] == head;
    assert s[|s| - 2] == DigitChar(m % 10);
    NatToStringRoundTrip(m / 10);
    DigitCharValue(m % 10);
  }

  /**
   * The text shows the score: read back, it is `score * 100` to the nearest tenth of a percent,
   * so it lies within half a tenth of `score * 1000` tenths.
   */
  lemma FormatPercent1Value(score: real)
    ensures (FormatPercent1(score)[0] == '-') <==> (score * 1000.0 + 0.5).Floor < 0
    ensures PercentTenths(FormatPercent1(score)) == (score * 1000.0 + 0.5).Floor
    ensures score * 1000.0 - 0.5 < PercentTenths(FormatPercent1(score)) as real <= score * 1000.0 + 0.5
  {
    var tenths := (score * 1000.0 + 0.5).Floor;
    var magnitude: nat := if tenths < 0 then -tenths else tenths;
    PercentTextValue(tenths < 0, magnitude);
  }
}
