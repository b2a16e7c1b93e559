/**
 * Django's cleaning of one form field, as the calculator's forms use it.
 * An empty value is an error only on a required field. A present value
 * runs through every validator of the field, in Django's order: the
 * field's own validators (the realistic-return check), max_value,
 * min_value and, for a decimal, the digit limits. Each failing validator
 * adds one error; a field without errors is cleaned to its value, and a
 * field with errors is missing from the cleaned data that the form's
 * `clean()` reads.
 */
module FormFields {
  import opened Wrappers
  import opened Numeric

  datatype FieldError =
    | Required
    | Unrealistic(value: real)
    | AboveMaximum(limit: real)
    | BelowMinimum(limit: real)
    | TooManyDigits(maxDigits: nat, decimalPlaces: nat)
    | ContributionTooHigh(value: real)
    | VarianceTooHigh

  /** The error a form's `clean()` raises, shared by the calculator's forms. */
  datatype CleanError =
    | EndNotAfterStart(startAge: int, endAge: int)
    | TooShort(years: int)
    | TooLong(years: int)
    | NoFunding

  /** Everything a bound form reports: errors per field, then the error of `clean()`. */
  datatype FormError = FieldErrors(field: string, errors: seq<FieldError>) | FormLevel(error: CleanError)

  /** The outcome of cleaning one field. */
  datatype Cleaned<T> = Valid(value: Option<T>) | Invalid(errors: seq<FieldError>) {
    /** What `cleaned_data.get(name)` gives back afterwards. */
    function Value(): Option<T>
    {
      if Valid? then value else None
    }
  }

  /** An IntegerField's required flag and bounds. */
  datatype IntegerField = IntegerField(required: bool, minValue: int, maxValue: int)

  /** A DecimalField's required flag, digit limits, bounds and realistic-return validator. */
  datatype DecimalField = DecimalField(
    required: bool,
    maxDigits: nat,
    decimalPlaces: nat,
    minValue: real,
    maxValue: Option<real>,
    realisticReturn: bool)

  /** Expected returns above this percentage are rejected as unrealistic. */
  const RealisticReturnLimit: real := 15.0

  /** The realistic-return validator: it raises exactly on values above 15. */
  function ValidateRealisticReturn(value: real): (r: Outcome<FieldError>)
    ensures r.Pass? <==> value <= RealisticReturnLimit
  {
    if value > RealisticReturnLimit then Fail(Unrealistic(value)) else Pass
  }

  /** The error list of a validator that either passes or raises one error. */
  function Errors(o: Outcome<FieldError>): seq<FieldError>
  {
    if o.Fail? then [o.error] else []
  }

  /**
   * Django's digit limits, on the value written without trailing zeros:
   * at most `decimalPlaces` decimals and at most `maxDigits - decimalPlaces`
   * whole digits.
   */
  function DigitsFit(v: real, maxDigits: nat, decimalPlaces: nat): (fits: bool)
    ensures fits ==> decimalPlaces <= maxDigits
    ensures fits && decimalPlaces == 0 ==> v.Floor as real == v
  {
    var scaled := Magnitude(v) * Pow(10.0, decimalPlaces);
    WholeMagnitude(v);
    assert decimalPlaces == 0 ==> scaled == Magnitude(v);
    && scaled.Floor as real == scaled
    && decimalPlaces <= maxDigits
    && Magnitude(v) < Pow(10.0, maxDigits - decimalPlaces)
  }

  /** Zero fits any digit limits that leave room for the decimal places. */
  lemma ZeroAlwaysFits(maxDigits: nat, decimalPlaces: nat)
    requires decimalPlaces <= maxDigits
    ensures DigitsFit(0.0, maxDigits, decimalPlaces)
  {
    assert Magnitude(0.0) == 0.0;
    ZeroTimes(Pow(10.0, decimalPlaces));
    PowPositive(10.0, maxDigits - decimalPlaces);
  }

  /** A number is whole exactly when its magnitude is. */
  lemma WholeMagnitude(v: real)
    ensures Magnitude(v).Floor as real == Magnitude(v) ==> v.Floor as real == v
  {
    if v < 0.0 && Magnitude(v).Floor as real == Magnitude(v) {
      assert v == -Magnitude(v);
      assert (-Magnitude(v)).Floor == -(Magnitude(v).Floor);
    }
  }

  lemma ZeroTimes(p: real)
    ensures 0.0 * p == 0.0
  {
  }

  /** An IntegerField's clean: required, then max_value, then min_value. */
  function CleanInteger(f: IntegerField, raw: Option<int>): (c: Cleaned<int>)
    ensures c.Valid? <==> if raw.Some? then f.minValue <= raw.value <= f.maxValue else !f.required
    ensures c.Valid? ==> c.value == raw
    ensures c.Invalid? ==> c.errors != []
  {
    match raw
    case None => if f.required then Invalid([Required]) else Valid(None)
    case Some(v) =>
      var errors :=
        (if v > f.maxValue then [AboveMaximum(f.maxValue as real)] else [])
        + (if v < f.minValue then [BelowMinimum(f.minValue as real)] else []);
      if errors == [] then Valid(raw) else Invalid(errors)
  }

  /** The validators of a DecimalField, in the order Django runs them. */
  function DecimalErrors(f: DecimalField, v: real): (errors: seq<FieldError>)
    ensures errors == [] <==>
      && (f.realisticReturn ==> v <= RealisticReturnLimit)
      && (f.maxValue.Some? ==> v <= f.maxValue.value)
      && f.minValue <= v
      && DigitsFit(v, f.maxDigits, f.decimalPlaces)
  {
    (if f.realisticReturn then Errors(ValidateRealisticReturn(v)) else [])
    + (if f.maxValue.Some? && v > f.maxValue.value then [AboveMaximum(f.maxValue.value)] else [])
    + (if v < f.minValue then [BelowMinimum(f.minValue)] else [])
    + (if DigitsFit(v, f.maxDigits, f.decimalPlaces) then [] else [TooManyDigits(f.maxDigits, f.decimalPlaces)])
  }

  /** A DecimalField's clean: required, then every validator. */
  function CleanDecimal(f: DecimalField, raw: Option<real>): (c: Cleaned<real>)
    ensures c.Valid? <==> if raw.Some? then DecimalErrors(f, raw.value) == [] else !f.required
    ensures c.Valid? ==> c.value == raw
    ensures c.Invalid? ==> c.errors != []
  {
    match raw
    case None => if f.required then Invalid([Required]) else Valid(None)
    case Some(v) =>
      var errors := DecimalErrors(f, v);
      if errors == [] then Valid(raw) else Invalid(errors)
  }

  /** The form's report for one field: nothing when it cleaned, its errors otherwise. */
  function Report<T>(name: string, c: Cleaned<T>): (errors: seq<FormError>)
    ensures errors == [] <==> c.Valid?
  {
    if c.Invalid? then [FieldErrors(name, c.errors)] else []
  }

  /** The form's report for `clean()`. */
  function ReportClean(o: Outcome<CleanError>): (errors: seq<FormError>)
    ensures errors == [] <==> o.Pass?
  {
    if o.Fail? then [FormLevel(o.error)] else []
  }

  /** Python truthiness of an optional integer: present and non-zero. */
  predicate Truthy(o: Option<int>)
  {
    o.Some? && o.value != 0
  }

  /** An optional decimal that, when present, lies in [lo, hi] and fits its digit limits. */
  predicate OptionalWithin(o: Option<real>, lo: real, hi: real, maxDigits: nat, decimalPlaces: nat)
  {
    o.Some? ==> lo <= o.value <= hi && DigitsFit(o.value, maxDigits, decimalPlaces)
  }

  /** A present decimal that is at least `lo` and fits its digit limits. */
  predicate PresentAtLeast(o: Option<real>, lo: real, maxDigits: nat, decimalPlaces: nat)
  {
    o.Some? && lo <= o.value && DigitsFit(o.value, maxDigits, decimalPlaces)
  }

  /** A present decimal in [lo, hi] that fits its digit limits. */
  predicate PresentWithin(o: Option<real>, lo: real, hi: real, maxDigits: nat, decimalPlaces: nat)
  {
    o.Some? && lo <= o.value <= hi && DigitsFit(o.value, maxDigits, decimalPlaces)
  }

  /** A present integer in [lo, hi]. */
  predicate IntegerWithin(o: Option<int>, lo: int, hi: int)
  {
    o.Some? && lo <= o.value <= hi
  }

  /** A whole-dollar amount with at most 12 digits passes the digit limits of (12, 0). */
  lemma WholeDollarsFit(v: real)
    requires v >= 0.0 && v.Floor as real == v && v < 1000000000000.0
    ensures DigitsFit(v, 12, 0)
  {
    assert Pow(10.0, 12) == 1000000000000.0 by {
      PowTwelveDigits();
    }
  }

  lemma PowTwelveDigits()
    ensures Pow(10.0, 12) == 1000000000000.0
  {
    assert Pow(10.0, 3) == 1000.0;
    assert Pow(10.0, 6) == 1000.0 * Pow(10.0, 3) by {
      PowAdd(10.0, 3, 3);
    }
    assert Pow(10.0, 12) == Pow(10.0, 6) * Pow(10.0, 6) by {
      PowAdd(10.0, 6, 6);
    }
  }
}
