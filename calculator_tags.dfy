/**
 * The template filters and the percentage tag of the calculator's pages.
 * A template value is absent (`None`), a number, or something that does
 * not convert to a number; every filter guards the first and the last and
 * falls back to a zero rendering.
 */
module CalculatorTags {
  import opened Wrappers
  import opened DecimalText

  datatype TemplateValue = Missing | Number(x: real) | NotNumeric

  /**
   * `currency`: `$` then the amount with thousands separators and two
   * decimals. Every rendering, the fallback included, ends in a point
   * and two cent digits.
   */
  function Currency(v: TemplateValue): (s: string)
    ensures |s| >= 5 && s[0] == '$'
    ensures s[|s| - 3] == '.' && IsDigit(s[|s| - 2]) && IsDigit(s[|s| - 1])
  {
    match v
    case Number(x) =>
      FixedTextFraction(x, 2, true);
      "$" + FixedText(x, 2, true)
    case _ => "$0.00"
  }

  /** Reads a currency rendering back as a signed number of cents. */
  function ReadCurrency(s: string): Option<int>
  {
    if |s| > 0 && s[0] == '$' then ReadFixed(s[1..], 2, true) else None
  }

  /**
   * A rendered amount reads back as the amount in cents, rounded half to
   * even and so within half a cent; a missing or non-numeric value reads
   * back as zero.
   */
  lemma CurrencyReadsBack(v: TemplateValue)
    ensures var cents := ReadCurrency(Currency(v));
      && cents == Some(if v.Number? then ScaledRound(v.x, 2) else 0)
      && (v.Number? ==> -0.5 <= cents.value as real - 100.0 * v.x <= 0.5)
  {
    if v.Number? {
      var s := Currency(v);
      assert s[1..] == FixedText(v.x, 2, true);
      FixedReadsBack(v.x, 2, true);
      ScaledRoundNearest(v.x, 2);
      assert ScaleUp(v.x, 1) == v.x * 10.0;
      assert ScaleUp(v.x, 2) == 100.0 * v.x;
    } else {
      CurrencyFallbackIsZero();
      var s := Currency(Number(0.0));
      assert s[1..] == FixedText(0.0, 2, true);
      FixedReadsBack(0.0, 2, true);
      assert ScaleUp(0.0, 2) == 0.0;
    }
  }

  /** The fallback `$0.00` is exactly what an amount of zero renders as. */
  lemma CurrencyFallbackIsZero()
    ensures Currency(Missing) == Currency(NotNumeric) == Currency(Number(0.0))
  {
    ZeroText(2, true);
  }

  /** Zero renders as one zero digit and, with places, a point and that many zeros. */
  lemma ZeroText(places: nat, grouped: bool)
    requires places <= 2
    ensures FixedText(0.0, places, grouped) == "0" + (if places == 0 then "" else if places == 1 then ".0" else ".00")
  {
    assert ScaleUp(0.0, places) == 0.0;
    assert RoundedMagnitude(0.0, places) == 0;
    assert DropDigits(0, places) == 0;
    assert DigitString(0) == "0";
    assert Grouped("0") == "0";
    assert Padded(0, 1) == "0";
    assert Padded(0, 2) == "00";
  }

  /**
   * `percent`: the number with `decimals` places and a percent sign. The
   * sign always follows a digit, and a number asked for with decimals
   * shows exactly that many after its point.
   */
  function Percent(v: TemplateValue, decimals: int): (s: string)
    ensures |s| >= 2 && s[|s| - 1] == '%' && IsDigit(s[|s| - 2])
    ensures v.Number? && decimals > 0 ==>
      |s| >= decimals + 3 && s[|s| - decimals - 2] == '.' && AllDigits(s[|s| - decimals - 1..|s| - 1])
  {
    if v.Number? && decimals >= 0 then
      FixedTextEndsInDigit(v.x, decimals);
      if decimals > 0 then
        FixedTextFraction(v.x, decimals, false);
        var t := FixedText(v.x, decimals, false);
        assert (t + "%")[|t| - decimals..|t|] == t[|t| - decimals..];
        t + "%"
      else
        FixedText(v.x, decimals, false) + "%"
    else "0.00%"
  }

  /** Reads a percentage rendering with `places` decimals back as a signed count of 10^-places. */
  function ReadPercent(s: string, places: nat): Option<int>
  {
    if |s| > 0 && s[|s| - 1] == '%' then ReadFixed(s[..|s| - 1], places, false) else None
  }

  /** A rendered percentage reads back as the number rounded half to even to its places. */
  lemma PercentReadsBack(x: real, decimals: nat)
    ensures ReadPercent(Percent(Number(x), decimals), decimals) == Some(ScaledRound(x, decimals))
  {
    var t := FixedText(x, decimals, false);
    assert (t + "%")[..|t + "%"| - 1] == t;
    FixedReadsBack(x, decimals, false);
  }

  /**
   * A missing or non-numeric value, or a negative number of decimals (an
   * invalid format), renders as zero with two places.
   */
  lemma PercentFallbackIsZero(v: TemplateValue, decimals: int)
    requires !v.Number? || decimals < 0
    ensures Percent(v, decimals) == Percent(Number(0.0), 2) == "0.00%"
  {
    ZeroText(2, false);
  }

  /** The scale `currency_short` writes an amount in: a unit, the places shown and the suffix. */
  datatype ShortScale = ShortScale(unit: real, places: nat, suffix: string)
  {
    /** The amount one unit of the last digit shown stands for. */
    function Step(): real
    {
      if places == 0 then unit else unit / 10.0
    }

    /** The amount `n` steps stand for. */
    function Amount(n: int): real
    {
      n as real * Step()
    }
  }

  /**
   * The tier of `currency_short`: the largest of thousands, millions and
   * billions that the amount reaches, shown with one decimal, or plain
   * units with none.
   */
  function ScaleFor(amount: real): (sc: ShortScale)
    ensures sc.unit == 1.0 || sc.unit <= amount
    ensures sc.unit == 1000000000.0 || amount < sc.unit * 1000.0
    ensures sc.places == if sc.unit == 1.0 then 0 else 1
    ensures sc == ShortScale(1.0, 0, "") || sc == ShortScale(1000.0, 1, "K")
      || sc == ShortScale(1000000.0, 1, "M") || sc == ShortScale(1000000000.0, 1, "B")
  {
    if amount >= 1000000000.0 then ShortScale(1000000000.0, 1, "B")
    else if amount >= 1000000.0 then ShortScale(1000000.0, 1, "M")
    else if amount >= 1000.0 then ShortScale(1000.0, 1, "K")
    else ShortScale(1.0, 0, "")
  }

  /**
   * `currency_short`: `$`, the amount in its tier's unit, then the tier's
   * suffix. A thousand or more shows one decimal and then K, M or B; a
   * smaller amount ends in a digit.
   */
  function CurrencyShort(v: TemplateValue): (s: string)
    ensures |s| >= 2 && s[0] == '$'
    ensures v.Number? && v.x >= 1000.0 ==>
      |s| >= 5 && s[|s| - 3] == '.' && IsDigit(s[|s| - 2]) && s[|s| - 1] in {'K', 'M', 'B'}
    ensures !(v.Number? && v.x >= 1000.0) ==> IsDigit(s[|s| - 1])
  {
    match v
    case Number(x) =>
      var sc := ScaleFor(x);
      var t := FixedText(x / sc.unit, sc.places, false);
      FixedTextEndsInDigit(x / sc.unit, sc.places);
      if sc.places > 0 then
        FixedTextFraction(x / sc.unit, sc.places, false);
        "$" + t + sc.suffix
      else
        "$" + t + sc.suffix
    case _ => "$0"
  }

  /** The scale a short rendering's last character announces. */
  function ScaleOfSuffix(c: char): ShortScale
  {
    if c == 'B' then ShortScale(1000000000.0, 1, "B")
    else if c == 'M' then ShortScale(1000000.0, 1, "M")
    else if c == 'K' then ShortScale(1000.0, 1, "K")
    else ShortScale(1.0, 0, "")
  }

  /** Reads a short rendering back as an amount. */
  function ReadShort(s: string): Option<real>
  {
    if |s| < 2 || s[0] != '$' then None
    else
      var sc := ScaleOfSuffix(s[|s| - 1]);
      var digits := s[1..|s| - |sc.suffix|];
      match ReadFixed(digits, sc.places, false)
      case Some(n) => Some(sc.Amount(n))
      case None => None
  }

  /**
   * A short rendering reads back as the amount to within half of its last
   * digit: half a dollar below a thousand, fifty dollars in thousands,
   * and so on.
   */
  lemma ShortReadsBack(x: real)
    ensures var sc := ScaleFor(x);
      var r := ReadShort(CurrencyShort(Number(x)));
      && r.Some?
      && -sc.Step() / 2.0 <= r.value - x <= sc.Step() / 2.0
  {
    var sc := ScaleFor(x);
    ShortReadsAsRounded(x);
    ScaledRoundNearest(x / sc.unit, sc.places);
    WithinHalfStep(ScaledRound(x / sc.unit, sc.places), x, sc);
  }

  /** A short rendering reads back as the amount in its tier's unit, rounded to the places shown. */
  lemma ShortReadsAsRounded(x: real)
    ensures var sc := ScaleFor(x);
      ReadShort(CurrencyShort(Number(x))) == Some(sc.Amount(ScaledRound(x / sc.unit, sc.places)))
  {
    var sc := ScaleFor(x);
    var y := x / sc.unit;
    var n := ScaledRound(y, sc.places);
    var t := FixedText(y, sc.places, false);
    var s := "$" + t + sc.suffix;
    assert s == CurrencyShort(Number(x));
    FixedReadsBack(y, sc.places, false);
    FixedTextEndsInDigit(y, sc.places);
    ReadShortText(t, sc, n);
    assert ReadShort(s) == Some(sc.Amount(n));
  }

  /** A count of steps within half a step of the scaled amount stands for the amount to within half a step. */
  lemma WithinHalfStep(n: int, x: real, sc: ShortScale)
    requires sc == ShortScale(1.0, 0, "") || sc == ShortScale(1000.0, 1, "K")
      || sc == ShortScale(1000000.0, 1, "M") || sc == ShortScale(1000000000.0, 1, "B")
    requires -0.5 <= n as real - ScaleUp(x / sc.unit, sc.places) <= 0.5
    ensures -sc.Step() / 2.0 <= sc.Amount(n) - x <= sc.Step() / 2.0
  {
    if sc.places == 1 {
      assert ScaleUp(x / sc.unit, 1) == (x / sc.unit) * 10.0;
      WithinHalfTenth(n as real, x, sc.unit);
    } else {
      assert ScaleUp(x / sc.unit, 0) == x;
    }
  }

  /** Digits in front of a tier's suffix are read in that tier. */
  lemma ReadShortText(t: string, sc: ShortScale, n: int)
    requires sc == ShortScale(1.0, 0, "") || sc == ShortScale(1000.0, 1, "K")
      || sc == ShortScale(1000000.0, 1, "M") || sc == ShortScale(1000000000.0, 1, "B")
    requires |t| > 0 && IsDigit(t[|t| - 1])
    requires ReadFixed(t, sc.places, false) == Some(n)
    ensures ReadShort("$" + t + sc.suffix) == Some(sc.Amount(n))
  {
    var s := "$" + t + sc.suffix;
    assert ScaleOfSuffix(s[|s| - 1]) == sc;
    assert s[1..|s| - |sc.suffix|] == t;
  }

  /** A count of tenths of `unit` within half a tenth of `x / unit` is within a twentieth of `unit` of `x`. */
  lemma WithinHalfTenth(n: real, x: real, unit: real)
    requires unit > 0.0 && -0.5 <= n - (x / unit) * 10.0 <= 0.5
    ensures -(unit / 10.0) / 2.0 <= n * (unit / 10.0) - x <= (unit / 10.0) / 2.0
  {
    var y, u := x / unit, unit / 10.0;
    var d := n - y * 10.0;
    assert y * unit == x;
    assert n * u - x == d * u;
    assert (d + 0.5) * u >= 0.0;
    assert (0.5 - d) * u >= 0.0;
  }

  /** `calculate_percentage`: what percentage `part` is of `total`, and 0 when that is undefined. */
  function CalculatePercentage(part: TemplateValue, total: TemplateValue): (r: real)
    ensures part.Number? && total.Number? && total.x != 0.0 ==> r * total.x == part.x * 100.0
    ensures !(part.Number? && total.Number? && total.x != 0.0) ==> r == 0.0
  {
    if total.Number? && total.x == 0.0 then 0.0
    else if part.Number? && total.Number? then (part.x / total.x) * 100.0
    else 0.0
  }

  /** The shares of two parts of a non-zero total add up to one hundred percent. */
  lemma SharesAddUp(a: real, b: real)
    requires a + b != 0.0
    ensures CalculatePercentage(Number(a), Number(a + b)) + CalculatePercentage(Number(b), Number(a + b)) == 100.0
  {
    var t := a + b;
    var ra, rb := CalculatePercentage(Number(a), Number(t)), CalculatePercentage(Number(b), Number(t));
    assert ra == a / t * 100.0 && rb == b / t * 100.0;
    assert a / t + b / t == 1.0;
  }

  /** Python's `int()` on a number: truncation toward zero. */
  function TowardZero(x: real): (n: int)
    ensures x >= 0.0 ==> n as real <= x < n as real + 1.0
    ensures x < 0.0 ==> n as real - 1.0 < x <= n as real
  {
    if x >= 0.0 then x.Floor else -((-x).Floor)
  }

  /**
   * `years_plural`: the singular exactly when the value truncates to one,
   * that is, for numbers from one up to, but not including, two.
   */
  function YearsPlural(v: TemplateValue): (s: string)
    ensures s == "year" || s == "years"
    ensures s == "year" <==> v.Number? && 1.0 <= v.x < 2.0
  {
    if v.Number? && TowardZero(v.x) == 1 then "year" else "years"
  }

  /** 999999 is shown as 1000.0 thousands: rounding can carry a value to the next tier's threshold. */
  lemma ThousandsCanShowAThousand()
    ensures ScaleFor(999999.0).suffix == "K"
    ensures ReadShort(CurrencyShort(Number(999999.0))) == Some(1000000.0)
  {
    var y := 999999.0 / 1000.0;
    assert ScaleUp(y, 1) == 9999.99;
    RoundHalfEvenUnique(9999.99, 10000);
    var s := CurrencyShort(Number(999999.0));
    var t := FixedText(y, 1, false);
    assert s == "$" + t + "K";
    FixedReadsBack(y, 1, false);
    FixedTextEndsInDigit(y, 1);
    ReadShortText(t, ShortScale(1000.0, 1, "K"), 10000);
  }
}
