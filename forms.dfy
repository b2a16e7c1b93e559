/**
 * The closed-form calculator's input form. Its fields are cleaned as any
 * Django field, then two field hooks run on fields that cleaned: a monthly
 * contribution above 10000 is rejected, and an empty variance becomes 2.0
 * while one above 10 is rejected. The form-level rules are the
 * accumulation form's: retirement at least five years after the current
 * age, and savings and contribution not both zero.
 */
module CalculatorForm {
  import opened Wrappers
  import opened FormFields
  import opened Numeric
  import PhaseForms
  import Calculator

  /** A monthly contribution above this is rejected as implausible. */
  const MaxMonthlyContribution: real := 10000.0

  /** The variance a form without one is cleaned to. */
  const DefaultVariance: real := 2.0

  /** A variance above this is rejected as too risky. */
  const MaxVariance: real := 10.0

  datatype RetirementCalculatorForm = RetirementCalculatorForm(
    currentAge: Option<int>,
    retirementAge: Option<int>,
    currentSavings: Option<real>,
    monthlyContribution: Option<real>,
    expectedReturn: Option<real>,
    variance: Option<real>)

  /** The monthly contribution hook, run only on a contribution that cleaned. */
  function CleanMonthlyContribution(c: Cleaned<real>): (r: Cleaned<real>)
    ensures r.Valid? <==> c.Valid? && (c.value.Some? ==> c.value.value <= MaxMonthlyContribution)
    ensures r.Valid? ==> r == c
  {
    if c.Valid? && c.value.Some? && c.value.value > MaxMonthlyContribution then
      Invalid([ContributionTooHigh(c.value.value)])
    else
      c
  }

  /** The variance hook, run only on a variance that cleaned: empty becomes the default. */
  function CleanVariance(c: Cleaned<real>): (r: Cleaned<real>)
    ensures r.Valid? <==> c.Valid? && (c.value.Some? ==> c.value.value <= MaxVariance)
    ensures r.Valid? ==> r.value == Some(c.value.GetOr(DefaultVariance))
  {
    if c.Invalid? then c
    else if c.value.None? then Valid(Some(DefaultVariance))
    else if c.value.value > MaxVariance then Invalid([VarianceTooHigh])
    else c
  }

  function CurrentAge(f: RetirementCalculatorForm): Cleaned<int>
  {
    CleanInteger(IntegerField(true, 18, 100), f.currentAge)
  }

  function RetirementAge(f: RetirementCalculatorForm): Cleaned<int>
  {
    CleanInteger(IntegerField(true, 18, 100), f.retirementAge)
  }

  function CurrentSavings(f: RetirementCalculatorForm): Cleaned<real>
  {
    CleanDecimal(DecimalField(true, 12, 0, 0.0, None, false), f.currentSavings)
  }

  function MonthlyContribution(f: RetirementCalculatorForm): Cleaned<real>
  {
    CleanMonthlyContribution(CleanDecimal(DecimalField(true, 10, 0, 0.0, None, false), f.monthlyContribution))
  }

  function ExpectedReturn(f: RetirementCalculatorForm): Cleaned<real>
  {
    CleanDecimal(DecimalField(true, 5, 2, 0.0, Some(100.0), true), f.expectedReturn)
  }

  function Variance(f: RetirementCalculatorForm): Cleaned<real>
  {
    CleanVariance(CleanDecimal(DecimalField(false, 5, 2, 0.0, Some(50.0), false), f.variance))
  }

  /**
   * Field errors in declaration order, then the error of `clean()`: the
   * form reports nothing exactly when every field cleaned and `clean()`
   * passed, and a bad current age is always reported first.
   */
  function CalculatorErrors(f: RetirementCalculatorForm): (errors: seq<FormError>)
    ensures errors == [] <==>
      && CurrentAge(f).Valid? && RetirementAge(f).Valid? && CurrentSavings(f).Valid?
      && MonthlyContribution(f).Valid? && ExpectedReturn(f).Valid? && Variance(f).Valid?
      && PhaseForms.CleanAccumulation(
           f.currentAge, f.retirementAge, CurrentSavings(f).Value(), MonthlyContribution(f).Value()).Pass?
    ensures CurrentAge(f).Invalid? ==> errors[0] == FieldErrors("current_age", CurrentAge(f).errors)
  {
    Report("current_age", CurrentAge(f))
    + Report("retirement_age", RetirementAge(f))
    + Report("current_savings", CurrentSavings(f))
    + Report("monthly_contribution", MonthlyContribution(f))
    + Report("expected_return", ExpectedReturn(f))
    + Report("variance", Variance(f))
    + ReportClean(PhaseForms.CleanAccumulation(
        CurrentAge(f).Value(), RetirementAge(f).Value(), CurrentSavings(f).Value(), MonthlyContribution(f).Value()))
  }

  predicate CalculatorAccepted(f: RetirementCalculatorForm)
  {
    CalculatorErrors(f) == []
  }

  /** What an accepted calculator form holds, field by field. */
  predicate CalculatorValid(f: RetirementCalculatorForm)
  {
    && IntegerWithin(f.currentAge, 18, 100)
    && IntegerWithin(f.retirementAge, 18, 100)
    && f.retirementAge.value - f.currentAge.value >= PhaseForms.MinimumPhaseYears
    && PresentAtLeast(f.currentSavings, 0.0, 12, 0)
    && PresentWithin(f.monthlyContribution, 0.0, MaxMonthlyContribution, 10, 0)
    && (f.currentSavings.value > 0.0 || f.monthlyContribution.value > 0.0)
    && PresentWithin(f.expectedReturn, 0.0, RealisticReturnLimit, 5, 2)
    && OptionalWithin(f.variance, 0.0, MaxVariance, 5, 2)
  }

  /**
   * The form is accepted exactly when both ages lie in [18, 100] at least
   * five years apart, the savings and a contribution of at most 10000 are
   * present and not both zero, the return is at most 15%, and a variance,
   * when given, is at most 10.
   */
  lemma CalculatorAcceptedIff(f: RetirementCalculatorForm)
    ensures CalculatorAccepted(f) <==> CalculatorValid(f)
  {
    if CurrentAge(f).Valid? && RetirementAge(f).Valid? {
      PhaseForms.CleanAccumulationOnGivenAges(
        f.currentAge.value, f.retirementAge.value, CurrentSavings(f).Value(), MonthlyContribution(f).Value());
    }
  }

  /** The variance an accepted form passes on: the one given, or 2.0 when none was. */
  lemma AcceptedVariance(f: RetirementCalculatorForm)
    requires CalculatorAccepted(f)
    ensures Variance(f).Value() == Some(f.variance.GetOr(DefaultVariance))
    ensures 0.0 <= Variance(f).Value().value <= MaxVariance
  {
    CalculatorAcceptedIff(f);
  }

  /** The projection the calculator computes from an accepted form. */
  function ProjectionOf(f: RetirementCalculatorForm): Calculator.RetirementProjection
    requires CalculatorAccepted(f)
  {
    CalculatorAcceptedIff(f);
    Calculator.CalculateRetirementSavings(
      f.currentAge.value, f.retirementAge.value, f.currentSavings.value, f.monthlyContribution.value,
      f.expectedReturn.value, Variance(f).Value())
  }

  /**
   * An accepted form projects at least five years with a positive total
   * paid in, so the return on investment is the gains over that total, in
   * percent, and never the zero fallback.
   */
  lemma AcceptedFormProjects(f: RetirementCalculatorForm)
    requires CalculatorAccepted(f)
    ensures var p := ProjectionOf(f);
      && p.yearsToRetirement >= PhaseForms.MinimumPhaseYears
      && p.totalContributions > 0.0
      && Calculator.ReturnOnInvestmentPercent(p) * p.totalContributions == p.investmentGains * 100.0
  {
    CalculatorAcceptedIff(f);
    var p := ProjectionOf(f);
    var months := (12 * p.yearsToRetirement) as real;
    assert f.monthlyContribution.value * months >= 0.0;
    assert f.monthlyContribution.value > 0.0 ==> f.monthlyContribution.value * months > 0.0;
  }

  /** The form of the age-boundary example, with the current age as given. */
  function BoundaryForm(currentAge: int): RetirementCalculatorForm
  {
    RetirementCalculatorForm(Some(currentAge), Some(65), Some(1000.0), Some(100.0), Some(7.0), Some(2.0))
  }

  /** Eighteen is the youngest accepted current age: 18 passes and 17 fails on that field alone. */
  lemma AgeBoundary()
    ensures CalculatorAccepted(BoundaryForm(18))
    ensures !CalculatorAccepted(BoundaryForm(17))
    ensures CalculatorErrors(BoundaryForm(17))[0] == FieldErrors("current_age", [BelowMinimum(18.0)])
  {
    BoundaryFormValid();
    CalculatorAcceptedIff(BoundaryForm(18));
    CalculatorAcceptedIff(BoundaryForm(17));
    assert CurrentAge(BoundaryForm(17)) == Invalid([BelowMinimum(18.0)]);
  }

  /** Every field of the boundary form but the current age lies within its limits. */
  lemma BoundaryFormValid()
    ensures CalculatorValid(BoundaryForm(18))
  {
    var f := BoundaryForm(18);
    assert Pow(10.0, 0) == 1.0;
    assert Pow(10.0, 2) == 100.0;
    assert Pow(10.0, 3) == 1000.0;
    assert DigitsFit(1000.0, 12, 0) by {
      assert Pow(10.0, 12) >= Pow(10.0, 3) by {
        PowAdd(10.0, 3, 9);
        PowAtLeastOne(10.0, 9);
      }
    }
    assert DigitsFit(100.0, 10, 0) by {
      assert Pow(10.0, 10) >= Pow(10.0, 3) by {
        PowAdd(10.0, 3, 7);
        PowAtLeastOne(10.0, 7);
      }
    }
    assert DigitsFit(7.0, 5, 2);
    assert DigitsFit(2.0, 5, 2);
  }
}
