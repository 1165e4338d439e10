/** The progress percentage both route screens compute, `Math.round(count / length * 100)`,
    and the text it is sent as. The arithmetic is exact: `Math.round(x)` is the integer
    nearest `x`, halves rounded up, which is `floor(x + 1/2)`. */
module Percentage {
  import opened Common
  import opened Backend

  /** The JavaScript numbers the computation can produce: an integral value, or the NaN and
      infinities that a division by an empty stop list yields. */
  datatype JsNumber = Integral(value: int) | NaN | PositiveInfinity | NegativeInfinity

  /** `r` is `num / den` rounded to the nearest integer, halves up:
      `r - 1/2 <= num / den < r + 1/2`. */
  ghost predicate RoundsHalfUp(r: int, num: int, den: int)
  {
    den > 0 && 2 * den * r <= 2 * num + den < 2 * den * (r + 1)
  }

  /** `Math.round((count / length) * 100)` */
  function RoundedPercentage(count: int, length: nat): (r: JsNumber)
    ensures length > 0 ==> r.Integral? && RoundsHalfUp(r.value, 100 * count, length)
    ensures length == 0 && count == 0 ==> r == NaN
    ensures length == 0 && count > 0 ==> r == PositiveInfinity
    ensures length == 0 && count < 0 ==> r == NegativeInfinity
  {
    if length == 0 then
      (if count == 0 then NaN else if count > 0 then PositiveInfinity else NegativeInfinity)
    else
      var q := (200 * count + length) / (2 * length);
      DivisionBounds(200 * count + length, 2 * length);
      Integral(q)
  }

  lemma DivisionBounds(n: int, d: int)
    requires d > 0
    ensures d * (n / d) <= n < d * (n / d + 1)
  {
    assert n == d * (n / d) + n % d;
    assert d * (n / d + 1) == d * (n / d) + d;
  }

  /** The percentage of a stops-between reply body. */
  function SpanPercentage(body: SpanBody): JsNumber
  {
    RoundedPercentage(body.count, |body.allStopIds|)
  }

  lemma MultiplyMonotone(k: int, x: int, y: int)
    requires k >= 0 && x <= y
    ensures k * x <= k * y
  {
    assert k * y - k * x == k * (y - x);
  }

  /** Round-half-up has one answer, so `RoundedPercentage` is the rounding and nothing else. */
  lemma RoundingIsUnique(a: int, b: int, num: int, den: int)
    requires RoundsHalfUp(a, num, den) && RoundsHalfUp(b, num, den)
    ensures a == b
  {
    if a < b {
      MultiplyMonotone(2 * den, a + 1, b);
    } else if b < a {
      MultiplyMonotone(2 * den, b + 1, a);
    }
  }

  /** A count within the stop list gives a whole percentage from 0 to 100. */
  lemma PercentageInRange(count: int, length: nat)
    requires 1 <= length && 0 <= count <= length
    ensures RoundedPercentage(count, length).Integral?
    ensures 0 <= RoundedPercentage(count, length).value <= 100
  {
    var r := RoundedPercentage(count, length).value;
    if r < 0 {
      MultiplyMonotone(2 * length, r + 1, 0);
    }
    if r > 100 {
      MultiplyMonotone(2 * length, 101, r);
      MultiplyMonotone(200, count, length);
    }
  }

  /** More stops travelled never gives a smaller percentage. */
  lemma PercentageMonotone(c1: int, c2: int, length: nat)
    requires length >= 1 && c1 <= c2
    ensures RoundedPercentage(c1, length).value <= RoundedPercentage(c2, length).value
  {
    var p1 := RoundedPercentage(c1, length).value;
    var p2 := RoundedPercentage(c2, length).value;
    if p2 < p1 {
      MultiplyMonotone(2 * length, p2 + 1, p1);
    }
  }

  /** The backend's count is at most one less than the number of stops, so even a trip from
      the first to the last stop of a line is recorded below 100 unless the line has 200 or
      more stops. */
  lemma WholeLineBelowHundred(length: nat)
    requires 2 <= length < 200
    ensures RoundedPercentage(length - 1, length).value < 100
  {
    var r := RoundedPercentage(length - 1, length).value;
    if r >= 100 {
      MultiplyMonotone(2 * length, 100, r);
    }
  }

  /** Half-way cases round up: one stop of eight is 13, four of eight 50, one of three 33,
      two of three 67. */
  lemma RoundingExamples()
    ensures RoundedPercentage(1, 8) == Integral(13)
    ensures RoundedPercentage(4, 8) == Integral(50)
    ensures RoundedPercentage(1, 3) == Integral(33)
    ensures RoundedPercentage(2, 3) == Integral(67)
  {
  }

  predicate IsDigit(c: char)
  {
    '0' <= c <= '9'
  }

  predicate AllDigits(s: string)
  {
    forall i :: 0 <= i < |s| ==> IsDigit(s[i])
  }

  function DigitChar(d: nat): (c: char)
    requires d < 10
    ensures IsDigit(c)
  {
    ('0' as int + d) as char
  }

  function DigitValue(c: char): nat
    requires IsDigit(c)
  {
    c as int - '0' as int
  }

  /** The decimal numeral of `n`: digits only, no leading zero. */
  function Digits(n: nat): (s: string)
    ensures |s| >= 1 && AllDigits(s)
    ensures n > 0 ==> s[0] != '0'
    decreases n
  {
    if n < 10 then [DigitChar(n)] else Digits(n / 10) + [DigitChar(n % 10)]
  }

  /** The number a string of digits denotes. */
  function DigitsValue(s: string): nat
    requires AllDigits(s)
    decreases |s|
  {
    if s == [] then 0 else DigitsValue(s[..|s| - 1]) * 10 + DigitValue(s[|s| - 1])
  }

  /** JavaScript's `String(n)` on an integral number below 10^21 in magnitude; larger ones
      JavaScript writes in exponent form, which is not modelled. */
  function DecimalText(n: int): string
  {
    if n < 0 then "-" + Digits(-n) else Digits(n)
  }

  /** JavaScript's `String(x)`, which is also what a template literal `${x}` interpolates:
      an optional '-', then decimal digits without a leading zero; or "NaN", "Infinity",
      "-Infinity". Exact for integral values below 10^21 in magnitude. */
  function NumberText(x: JsNumber): (s: string)
    ensures x.Integral? && x.value >= 0 ==> |s| >= 1 && AllDigits(s) && (|s| > 1 ==> s[0] != '0')
    ensures x.Integral? && x.value < 0 ==> |s| >= 2 && s[0] == '-' && AllDigits(s[1..]) && s[1] != '0'
    ensures x == NaN ==> s == "NaN"
    ensures x == PositiveInfinity ==> s == "Infinity"
    ensures x == NegativeInfinity ==> s == "-Infinity"
  {
    match x
    case Integral(n) => DecimalText(n)
    case NaN => "NaN"
    case PositiveInfinity => "Infinity"
    case NegativeInfinity => "-Infinity"
  }

  /** Reads back the texts `NumberText` writes: a reference reader, so that the rendering is
      shown to lose nothing. */
  function ReadNumber(s: string): Option<JsNumber>
  {
    if s == "NaN" then Some(NaN)
    else if s == "Infinity" then Some(PositiveInfinity)
    else if s == "-Infinity" then Some(NegativeInfinity)
    else if |s| >= 2 && s[0] == '-' && AllDigits(s[1..]) then Some(Integral(-(DigitsValue(s[1..]) as int)))
    else if |s| >= 1 && AllDigits(s) then Some(Integral(DigitsValue(s)))
    else None
  }

  lemma {:induction false} DigitsRoundTrip(n: nat)
    ensures DigitsValue(Digits(n)) == n
    decreases n
  {
    if n >= 10 {
      var s := Digits(n);
      assert s[..|s| - 1] == Digits(n / 10);
      DigitsRoundTrip(n / 10);
    }
  }

  /** The text a percentage is sent as determines the percentage. */
  lemma NumberTextRoundTrip(x: JsNumber)
    ensures ReadNumber(NumberText(x)) == Some(x)
  {
    match x
    case Integral(n) =>
      var s := NumberText(x);
      if n < 0 {
        assert s[1..] == Digits(-n);
        assert s[1] != 'I';
        DigitsRoundTrip(-n);
      } else {
        assert s[0] != 'N' && s[0] != 'I' && s[0] != '-';
        DigitsRoundTrip(n);
      }
    case _ =>
  }

  /** So two different numbers are never sent as the same text. */
  lemma NumberTextInjective(x: JsNumber, y: JsNumber)
    requires NumberText(x) == NumberText(y)
    ensures x == y
  {
    NumberTextRoundTrip(x);
    NumberTextRoundTrip(y);
  }
}
