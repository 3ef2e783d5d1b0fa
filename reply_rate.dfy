/** The email summary's reply rate (email_send.py:71-72): positives / sent
    as a percentage, quantized to one decimal with `Decimal.quantize`, whose
    default context rounds half to even. The value is kept exactly as an
    integer number of tenths of a percent. */
module ReplyRate {
  import opened Text

  datatype Option<T> = None | Some(value: T)

  /** `q` is n/d rounded to the nearest integer, ties going to the even one. */
  predicate IsHalfEvenRounding(q: nat, n: nat, d: nat) {
    && d * (2 * q) <= 2 * n + d
    && 2 * n <= d * (2 * q) + d
    && ((d * (2 * q) == 2 * n + d || 2 * n == d * (2 * q) + d) ==> q % 2 == 0)
  }

  /** Python decimal's ROUND_HALF_EVEN of n/d to an integer. */
  function RoundHalfEven(n: nat, d: nat): (q: nat)
    requires d > 0
    ensures IsHalfEvenRounding(q, n, d)
  {
    var f := n / d;
    var r := n % d;
    assert n == d * f + r;
    assert d * (2 * f) == 2 * (d * f) && d * (2 * (f + 1)) == 2 * (d * f) + 2 * d;
    if 2 * r < d then f
    else if 2 * r > d then f + 1
    else if f % 2 == 0 then f
    else f + 1
  }

  /** Half-even rounding has exactly one answer, so RoundHalfEven is it:
      two different candidates would sit at least 2d apart (scaled by 2d)
      inside a window of width 2d, so both would be ties, and two
      neighbouring integers are not both even. */
  lemma RoundHalfEvenUnique(q: nat, n: nat, d: nat)
    requires d > 0 && IsHalfEvenRounding(q, n, d)
    ensures q == RoundHalfEven(n, d)
  {
    var p := RoundHalfEven(n, d);
    if q != p {
      var lo, hi := if q < p then q else p, if q < p then p else q;
      ScaleStep(d, 2 * lo, 2 * hi);
      if hi > lo + 1 {
        ScaleStep(d, 2 * lo, 2 * lo + 2);
        ScaleStep(d, 2 * lo + 2, 2 * hi);
      }
    }
  }

  /** Multiplying by d keeps a gap of at least two, and exactly two when the gap is two. */
  lemma ScaleStep(d: nat, x: nat, y: nat)
    requires x + 2 <= y
    ensures d * x + 2 * d <= d * y
    ensures y == x + 2 ==> d * y == d * x + 2 * d
    decreases y - x
  {
    if y == x + 2 {
      MulSucc(d, x);
      MulSucc(d, x + 1);
    } else {
      ScaleStep(d, x, y - 1);
      MulSucc(d, y - 1);
    }
  }

  lemma MulSucc(d: nat, x: nat)
    ensures d * (x + 1) == d * x + d
  {
  }

  /** Tenths of a percent: `Decimal(pos) / sent * 100` quantized to `0.1`,
      and 0 when nothing was sent. */
  function ReplyRateTenths(positives: nat, sent: nat): nat {
    if sent == 0 then 0 else RoundHalfEven(positives * 1000, sent)
  }

  /** `str()` of a Decimal with exponent -1, followed by the percent sign. */
  function PercentString(tenths: nat): string {
    NatToString(tenths / 10) + "." + [DigitChar(tenths % 10)] + "%"
  }

  /** The reply-rate text of the summary: "0.0%" when nothing was sent,
      otherwise the exact ratio rounded half-even to one decimal, not clamped
      at 100. */
  function ReplyRateString(positives: nat, sent: nat): (s: string)
    ensures sent == 0 ==> s == "0.0%"
    ensures ParsePercent(s).Some?
    ensures sent > 0 ==> IsHalfEvenRounding(ParsePercent(s).value, positives * 1000, sent)
  {
    var t := ReplyRateTenths(positives, sent);
    PercentStringParse(t);
    PercentString(t)
  }

  /** Reads a percentage written as `str(int)`, one decimal digit, `%`. */
  function ParsePercent(s: string): Option<nat> {
    if |s| >= 4 && s[|s| - 1] == '%' && s[|s| - 3] == '.' && IsDigit(s[|s| - 2])
       && Canonical(s[..|s| - 3])
    then Some(DigitsValue(s[..|s| - 3]) * 10 + DigitValue(s[|s| - 2]))
    else None
  }

  /** Parsing a rendered rate gives back its tenths. */
  lemma PercentStringParse(t: nat)
    ensures ParsePercent(PercentString(t)) == Some(t)
  {
    var s := PercentString(t);
    var whole := NatToString(t / 10);
    NatToStringCanonical(t / 10);
    assert s[..|s| - 3] == whole;
    DigitsValueOfNatToString(t / 10);
  }

  /** Conversely, every text the parser accepts is the rendering of its value. */
  lemma ParsePercentCanonical(s: string, t: nat)
    requires ParsePercent(s) == Some(t)
    ensures s == PercentString(t)
  {
    var whole := s[..|s| - 3];
    NatToStringOfDigitsValue(whole);
    DigitCharOfValue(s[|s| - 2]);
    assert t / 10 == DigitsValue(whole) && t % 10 == DigitValue(s[|s| - 2]);
    assert s == whole + "." + [s[|s| - 2]] + "%";
  }

  /** Worked values: 0.12345 gives "12.3%", no positives give "0.0%", and
      more positives than sends exceed 100%. */
  lemma ReplyRateExamples()
    ensures ReplyRateString(12345, 100000) == "12.3%"
    ensures ReplyRateString(0, 500) == "0.0%"
    ensures ReplyRateString(3, 2) == "150.0%"
  {
    assert ReplyRateTenths(12345, 100000) == 123;
    assert NatToString(12) == "12";
    assert ReplyRateTenths(0, 500) == 0;
    assert ReplyRateTenths(3, 2) == 1500;
    assert NatToString(150) == "150";
  }

  /** Exact ties round to the even tenth: 6.25% gives "6.2%" and 18.75%
      gives "18.8%". */
  lemma ReplyRateTieExamples()
    ensures ReplyRateString(1, 16) == "6.2%"
    ensures ReplyRateString(3, 16) == "18.8%"
  {
    assert ReplyRateTenths(1, 16) == 62;
    assert ReplyRateTenths(3, 16) == 188;
    assert NatToString(18) == "18";
  }
}
