/**
 * The four phase forms. Each form cleans its fields one by one, then its
 * `clean()` checks the pair of ages that bounds the phase (both present
 * and non-zero): the later age must be greater, and the phase must last
 * between a minimum and a maximum number of years. The accumulation form
 * also asks for some savings or some contribution. A form is accepted
 * when nothing reported an error.
 *
 * For each form a reference predicate lists what an accepted form holds,
 * field by field; a lemma proves it equivalent to acceptance, and another
 * proves that the inputs an accepted form hands to its phase calculation
 * lie within the durations the phase expects.
 */
module PhaseForms {
  import opened Wrappers
  import opened FormFields
  import Accumulation
  import PhasedRetirement
  import ActiveRetirement
  import LateRetirement

  /** Every phase but the phased retirement must last at least this many years. */
  const MinimumPhaseYears: int := 5

  /** A phased retirement longer than this many years is rejected. */
  const MaximumPhasedYears: int := 20

  /** An active retirement longer than this many years is rejected. */
  const MaximumActiveYears: int := 30

  // ----- Phase 1: accumulation -----

  datatype AccumulationForm = AccumulationForm(
    currentAge: Option<int>,
    retirementStartAge: Option<int>,
    currentSavings: Option<real>,
    monthlyContribution: Option<real>,
    employerMatchRate: Option<real>,
    expectedReturn: Option<real>,
    annualSalaryIncrease: Option<real>,
    returnVolatility: Option<real>)

  /**
   * The accumulation form's cross-field rules: when both ages are given
   * and non-zero, retirement comes at least five years later; savings
   * and contribution are not both zero.
   */
  function CleanAccumulation(
    currentAge: Option<int>, retirementStartAge: Option<int>, currentSavings: Option<real>, monthlyContribution: Option<real>)
    : (r: Outcome<CleanError>)
    ensures r.Pass? <==>
      && (Truthy(currentAge) && Truthy(retirementStartAge) ==> retirementStartAge.value - currentAge.value >= MinimumPhaseYears)
      && !(currentSavings == Some(0.0) && monthlyContribution == Some(0.0))
    ensures r.Fail? && r.error.TooShort? ==> 0 < r.error.years < MinimumPhaseYears
  {
    if Truthy(currentAge) && Truthy(retirementStartAge) && retirementStartAge.value <= currentAge.value then
      Fail(EndNotAfterStart(currentAge.value, retirementStartAge.value))
    else if Truthy(currentAge) && Truthy(retirementStartAge)
         && retirementStartAge.value - currentAge.value < MinimumPhaseYears then
      Fail(TooShort(retirementStartAge.value - currentAge.value))
    else if currentSavings == Some(0.0) && monthlyContribution == Some(0.0) then
      Fail(NoFunding)
    else
      Pass
  }

  /** The cleaned accumulation fields, in declaration order. */
  function AccumulationErrors(f: AccumulationForm): seq<FormError>
  {
    var currentAge := CleanInteger(IntegerField(true, 18, 100), f.currentAge);
    var retirementStartAge := CleanInteger(IntegerField(true, 40, 100), f.retirementStartAge);
    var currentSavings := CleanDecimal(DecimalField(true, 12, 0, 0.0, None, false), f.currentSavings);
    var monthlyContribution := CleanDecimal(DecimalField(true, 10, 0, 0.0, None, false), f.monthlyContribution);
    Report("current_age", currentAge)
    + Report("retirement_start_age", retirementStartAge)
    + Report("current_savings", currentSavings)
    + Report("monthly_contribution", monthlyContribution)
    + Report("employer_match_rate", CleanDecimal(DecimalField(false, 5, 2, 0.0, Some(100.0), false), f.employerMatchRate))
    + Report("expected_return", CleanDecimal(DecimalField(true, 5, 2, 0.0, Some(100.0), true), f.expectedReturn))
    + Report("annual_salary_increase", CleanDecimal(DecimalField(false, 5, 2, 0.0, Some(100.0), false), f.annualSalaryIncrease))
    + Report("return_volatility", CleanDecimal(DecimalField(false, 5, 2, 0.0, Some(50.0), false), f.returnVolatility))
    + ReportClean(CleanAccumulation(
        currentAge.Value(), retirementStartAge.Value(), currentSavings.Value(), monthlyContribution.Value()))
  }

  predicate AccumulationAccepted(f: AccumulationForm)
  {
    AccumulationErrors(f) == []
  }

  /** What an accepted accumulation form holds, field by field. */
  predicate AccumulationValid(f: AccumulationForm)
  {
    && IntegerWithin(f.currentAge, 18, 100)
    && IntegerWithin(f.retirementStartAge, 40, 100)
    && f.retirementStartAge.value - f.currentAge.value >= MinimumPhaseYears
    && PresentAtLeast(f.currentSavings, 0.0, 12, 0)
    && PresentAtLeast(f.monthlyContribution, 0.0, 10, 0)
    && (f.currentSavings.value > 0.0 || f.monthlyContribution.value > 0.0)
    && OptionalWithin(f.employerMatchRate, 0.0, 100.0, 5, 2)
    && PresentWithin(f.expectedReturn, 0.0, RealisticReturnLimit, 5, 2)
    && OptionalWithin(f.annualSalaryIncrease, 0.0, 100.0, 5, 2)
    && OptionalWithin(f.returnVolatility, 0.0, 50.0, 5, 2)
  }

  /** With both ages given and non-zero, the rules of `clean()` reduce to the gap and the funding. */
  lemma CleanAccumulationOnGivenAges(age: int, retirementAge: int, savings: Option<real>, contribution: Option<real>)
    requires age != 0 && retirementAge != 0
    ensures CleanAccumulation(Some(age), Some(retirementAge), savings, contribution).Pass?
        <==> retirementAge - age >= MinimumPhaseYears && !(savings == Some(0.0) && contribution == Some(0.0))
  {
  }

  /**
   * The accumulation form is accepted exactly when its ages are in range
   * at least five years apart, savings and contribution are present and
   * not both zero, the return is at most 15%, and every optional rate is
   * within its bounds.
   */
  lemma AccumulationAcceptedIff(f: AccumulationForm)
    ensures AccumulationAccepted(f) <==> AccumulationValid(f)
  {
    var currentAge := CleanInteger(IntegerField(true, 18, 100), f.currentAge);
    var retirementStartAge := CleanInteger(IntegerField(true, 40, 100), f.retirementStartAge);
    var currentSavings := CleanDecimal(DecimalField(true, 12, 0, 0.0, None, false), f.currentSavings);
    var monthlyContribution := CleanDecimal(DecimalField(true, 10, 0, 0.0, None, false), f.monthlyContribution);
    if currentAge.Valid? && retirementStartAge.Valid? && currentSavings.Valid? && monthlyContribution.Valid? {
      CleanAccumulationOnGivenAges(
        f.currentAge.value, f.retirementStartAge.value, currentSavings.Value(), monthlyContribution.Value());
    }
  }

  /** The phase input an accepted form hands on, optional fields defaulting to 0. */
  function AccumulationInputOf(f: AccumulationForm): Accumulation.AccumulationInput
  {
    Accumulation.AccumulationInput(
      f.currentAge.GetOr(0), f.retirementStartAge.GetOr(0), f.currentSavings.GetOr(0.0),
      f.monthlyContribution.GetOr(0.0), f.employerMatchRate.GetOr(0.0), f.expectedReturn.GetOr(0.0),
      f.annualSalaryIncrease.GetOr(0.0))
  }

  /**
   * An accepted accumulation form gives the phase at least five years, a
   * return in [0, 15], non-negative rates and something to invest.
   */
  lemma AcceptedAccumulationFeedsPhase(f: AccumulationForm)
    requires AccumulationAccepted(f)
    ensures var a := AccumulationInputOf(f);
      && Accumulation.AccumulationDefined(a)
      && Accumulation.AccumulationYears(a) >= MinimumPhaseYears
      && 0.0 <= a.expectedReturn <= RealisticReturnLimit
      && a.currentSavings >= 0.0 && a.monthlyContribution >= 0.0 && a.currentSavings + a.monthlyContribution > 0.0
      && 0.0 <= a.employerMatchRate <= 100.0 && 0.0 <= a.annualSalaryIncrease <= 100.0
  {
    AccumulationAcceptedIff(f);
  }

  // ----- Phase 2: phased retirement -----

  datatype PhasedForm = PhasedForm(
    startingPortfolio: Option<real>,
    phaseStartAge: Option<int>,
    fullRetirementAge: Option<int>,
    partTimeIncome: Option<real>,
    monthlyContribution: Option<real>,
    annualWithdrawal: Option<real>,
    expectedReturn: Option<real>,
    stockAllocation: Option<real>,
    returnVolatility: Option<real>,
    inflationRate: Option<real>)

  /** The phased form's cross-field rules: when both ages are given and non-zero, a phase of one to twenty years. */
  function CleanPhased(phaseStartAge: Option<int>, fullRetirementAge: Option<int>): (r: Outcome<CleanError>)
    ensures r.Pass? <==>
      (Truthy(phaseStartAge) && Truthy(fullRetirementAge) ==>
         0 < fullRetirementAge.value - phaseStartAge.value <= MaximumPhasedYears)
    ensures r.Fail? && r.error.TooLong? ==> r.error.years > MaximumPhasedYears
  {
    if Truthy(phaseStartAge) && Truthy(fullRetirementAge) && fullRetirementAge.value <= phaseStartAge.value then
      Fail(EndNotAfterStart(phaseStartAge.value, fullRetirementAge.value))
    else if Truthy(phaseStartAge) && Truthy(fullRetirementAge)
         && fullRetirementAge.value - phaseStartAge.value > MaximumPhasedYears then
      Fail(TooLong(fullRetirementAge.value - phaseStartAge.value))
    else
      Pass
  }

  function PhasedErrors(f: PhasedForm): seq<FormError>
  {
    var phaseStartAge := CleanInteger(IntegerField(true, 50, 100), f.phaseStartAge);
    var fullRetirementAge := CleanInteger(IntegerField(true, 50, 100), f.fullRetirementAge);
    Report("starting_portfolio", CleanDecimal(DecimalField(true, 12, 0, 0.0, None, false), f.startingPortfolio))
    + Report("phase_start_age", phaseStartAge)
    + Report("full_retirement_age", fullRetirementAge)
    + Report("part_time_income", CleanDecimal(DecimalField(false, 10, 0, 0.0, None, false), f.partTimeIncome))
    + Report("monthly_contribution", CleanDecimal(DecimalField(false, 10, 0, 0.0, None, false), f.monthlyContribution))
    + Report("annual_withdrawal", CleanDecimal(DecimalField(false, 10, 0, 0.0, None, false), f.annualWithdrawal))
    + Report("expected_return", CleanDecimal(DecimalField(true, 5, 2, 0.0, Some(100.0), true), f.expectedReturn))
    + Report("stock_allocation", CleanDecimal(DecimalField(true, 5, 2, 0.0, Some(100.0), false), f.stockAllocation))
    + Report("return_volatility", CleanDecimal(DecimalField(false, 5, 2, 0.0, Some(50.0), false), f.returnVolatility))
    + Report("inflation_rate", CleanDecimal(DecimalField(false, 5, 2, 0.0, Some(20.0), false), f.inflationRate))
    + ReportClean(CleanPhased(phaseStartAge.Value(), fullRetirementAge.Value()))
  }

  predicate PhasedAccepted(f: PhasedForm)
  {
    PhasedErrors(f) == []
  }

  /** What an accepted phased form holds, field by field. */
  predicate PhasedValid(f: PhasedForm)
  {
    && PresentAtLeast(f.startingPortfolio, 0.0, 12, 0)
    && IntegerWithin(f.phaseStartAge, 50, 100)
    && IntegerWithin(f.fullRetirementAge, 50, 100)
    && 0 < f.fullRetirementAge.value - f.phaseStartAge.value <= MaximumPhasedYears
    && (f.partTimeIncome.Some? ==> PresentAtLeast(f.partTimeIncome, 0.0, 10, 0))
    && (f.monthlyContribution.Some? ==> PresentAtLeast(f.monthlyContribution, 0.0, 10, 0))
    && (f.annualWithdrawal.Some? ==> PresentAtLeast(f.annualWithdrawal, 0.0, 10, 0))
    && PresentWithin(f.expectedReturn, 0.0, RealisticReturnLimit, 5, 2)
    && PresentWithin(f.stockAllocation, 0.0, 100.0, 5, 2)
    && OptionalWithin(f.returnVolatility, 0.0, 50.0, 5, 2)
    && OptionalWithin(f.inflationRate, 0.0, 20.0, 5, 2)
  }

  /**
   * The phased form is accepted exactly when its ages are in range, full
   * retirement comes one to twenty years after the phase starts, the return
   * is at most 15%, and every amount and rate is within its bounds.
   */
  lemma PhasedAcceptedIff(f: PhasedForm)
    ensures PhasedAccepted(f) <==> PhasedValid(f)
  {
  }

  function PhasedInputOf(f: PhasedForm): PhasedRetirement.PhasedRetirementInput
  {
    PhasedRetirement.PhasedRetirementInput(
      f.startingPortfolio.GetOr(0.0), f.phaseStartAge.GetOr(0), f.fullRetirementAge.GetOr(0),
      f.monthlyContribution.GetOr(0.0), f.annualWithdrawal.GetOr(0.0), f.partTimeIncome.GetOr(0.0),
      f.expectedReturn.GetOr(0.0))
  }

  /** An accepted phased form gives the phase one to twenty years, so 12 to 240 months. */
  lemma AcceptedPhasedFeedsPhase(f: PhasedForm)
    requires PhasedAccepted(f)
    ensures var p := PhasedInputOf(f);
      && 1 <= PhasedRetirement.PhasedYears(p) <= MaximumPhasedYears
      && 12 <= PhasedRetirement.PhasedMonths(p) <= 12 * MaximumPhasedYears
      && p.startingPortfolio >= 0.0 && 0.0 <= p.expectedReturn <= RealisticReturnLimit
      && p.monthlyContribution >= 0.0 && p.annualWithdrawal >= 0.0 && p.partTimeIncome >= 0.0
  {
    PhasedAcceptedIff(f);
  }

  // ----- Phase 3: active retirement -----

  /** Social Security and the pension have no field yet; the phase receives 0 for both. */
  datatype ActiveForm = ActiveForm(
    startingPortfolio: Option<real>,
    activeRetirementStartAge: Option<int>,
    activeRetirementEndAge: Option<int>,
    annualExpenses: Option<real>,
    annualHealthcareCosts: Option<real>,
    expectedReturn: Option<real>,
    inflationRate: Option<real>)

  /** The active form's cross-field rules: when both ages are given and non-zero, a phase of five to thirty years. */
  function CleanActive(startAge: Option<int>, endAge: Option<int>): (r: Outcome<CleanError>)
    ensures r.Pass? <==>
      (Truthy(startAge) && Truthy(endAge) ==> MinimumPhaseYears <= endAge.value - startAge.value <= MaximumActiveYears)
    ensures r.Fail? && r.error.TooShort? ==> 0 < r.error.years < MinimumPhaseYears
    ensures r.Fail? && r.error.TooLong? ==> r.error.years > MaximumActiveYears
  {
    if Truthy(startAge) && Truthy(endAge) && endAge.value <= startAge.value then
      Fail(EndNotAfterStart(startAge.value, endAge.value))
    else if Truthy(startAge) && Truthy(endAge) && endAge.value - startAge.value < MinimumPhaseYears then
      Fail(TooShort(endAge.value - startAge.value))
    else if Truthy(startAge) && Truthy(endAge) && endAge.value - startAge.value > MaximumActiveYears then
      Fail(TooLong(endAge.value - startAge.value))
    else
      Pass
  }

  function ActiveErrors(f: ActiveForm): seq<FormError>
  {
    var startAge := CleanInteger(IntegerField(true, 50, 100), f.activeRetirementStartAge);
    var endAge := CleanInteger(IntegerField(true, 60, 100), f.activeRetirementEndAge);
    Report("starting_portfolio", CleanDecimal(DecimalField(true, 12, 0, 0.0, None, false), f.startingPortfolio))
    + Report("active_retirement_start_age", startAge)
    + Report("active_retirement_end_age", endAge)
    + Report("annual_expenses", CleanDecimal(DecimalField(true, 10, 0, 0.0, None, false), f.annualExpenses))
    + Report("annual_healthcare_costs", CleanDecimal(DecimalField(true, 10, 0, 0.0, None, false), f.annualHealthcareCosts))
    + Report("expected_return", CleanDecimal(DecimalField(true, 5, 2, 0.0, Some(100.0), false), f.expectedReturn))
    + Report("inflation_rate", CleanDecimal(DecimalField(true, 5, 2, 0.0, Some(100.0), false), f.inflationRate))
    + ReportClean(CleanActive(startAge.Value(), endAge.Value()))
  }

  predicate ActiveAccepted(f: ActiveForm)
  {
    ActiveErrors(f) == []
  }

  /** What an accepted active form holds, field by field (no realistic-return limit here). */
  predicate ActiveValid(f: ActiveForm)
  {
    && PresentAtLeast(f.startingPortfolio, 0.0, 12, 0)
    && IntegerWithin(f.activeRetirementStartAge, 50, 100)
    && IntegerWithin(f.activeRetirementEndAge, 60, 100)
    && MinimumPhaseYears <= f.activeRetirementEndAge.value - f.activeRetirementStartAge.value <= MaximumActiveYears
    && PresentAtLeast(f.annualExpenses, 0.0, 10, 0)
    && PresentAtLeast(f.annualHealthcareCosts, 0.0, 10, 0)
    && PresentWithin(f.expectedReturn, 0.0, 100.0, 5, 2)
    && PresentWithin(f.inflationRate, 0.0, 100.0, 5, 2)
  }

  /**
   * The active form is accepted exactly when its ages are in range and five
   * to thirty years apart, and every amount and rate is within its bounds.
   */
  lemma ActiveAcceptedIff(f: ActiveForm)
    ensures ActiveAccepted(f) <==> ActiveValid(f)
  {
  }

  function ActiveInputOf(f: ActiveForm): ActiveRetirement.ActiveRetirementInput
  {
    ActiveRetirement.ActiveRetirementInput(
      f.startingPortfolio.GetOr(0.0), f.activeRetirementStartAge.GetOr(0), f.activeRetirementEndAge.GetOr(0),
      f.annualExpenses.GetOr(0.0), f.annualHealthcareCosts.GetOr(0.0), 0.0, 0.0,
      f.expectedReturn.GetOr(0.0), f.inflationRate.GetOr(0.0))
  }

  /**
   * An accepted active form gives the phase five to thirty years, and the
   * phase then never ends on a negative balance.
   */
  lemma AcceptedActiveFeedsPhase(f: ActiveForm)
    requires ActiveAccepted(f)
    ensures var p := ActiveInputOf(f);
      && MinimumPhaseYears <= ActiveRetirement.ActiveYears(p) <= MaximumActiveYears
      && ActiveRetirement.ActiveOutcome(p).endingPortfolio >= 0.0
  {
    ActiveAcceptedIff(f);
    ActiveRetirement.EndingNeverNegative(ActiveInputOf(f));
  }

  // ----- Phase 4: late retirement -----

  /** Long-term care, its insurance and Social Security have no field yet; the phase receives 0 for each. */
  datatype LateForm = LateForm(
    startingPortfolio: Option<real>,
    lateRetirementStartAge: Option<int>,
    lifeExpectancy: Option<int>,
    annualBasicExpenses: Option<real>,
    annualHealthcareCosts: Option<real>,
    expectedReturn: Option<real>,
    inflationRate: Option<real>,
    desiredLegacy: Option<real>)

  /** The late form's cross-field rules: when both ages are given and non-zero, at least five years. */
  function CleanLate(startAge: Option<int>, lifeExpectancy: Option<int>): (r: Outcome<CleanError>)
    ensures r.Pass? <==>
      (Truthy(startAge) && Truthy(lifeExpectancy) ==> lifeExpectancy.value - startAge.value >= MinimumPhaseYears)
    ensures r.Fail? && r.error.TooShort? ==> 0 < r.error.years < MinimumPhaseYears
  {
    if Truthy(startAge) && Truthy(lifeExpectancy) && lifeExpectancy.value <= startAge.value then
      Fail(EndNotAfterStart(startAge.value, lifeExpectancy.value))
    else if Truthy(startAge) && Truthy(lifeExpectancy) && lifeExpectancy.value - startAge.value < MinimumPhaseYears then
      Fail(TooShort(lifeExpectancy.value - startAge.value))
    else
      Pass
  }

  function LateErrors(f: LateForm): seq<FormError>
  {
    var startAge := CleanInteger(IntegerField(true, 70, 100), f.lateRetirementStartAge);
    var lifeExpectancy := CleanInteger(IntegerField(true, 75, 120), f.lifeExpectancy);
    Report("starting_portfolio", CleanDecimal(DecimalField(true, 12, 0, 0.0, None, false), f.startingPortfolio))
    + Report("late_retirement_start_age", startAge)
    + Report("life_expectancy", lifeExpectancy)
    + Report("annual_basic_expenses", CleanDecimal(DecimalField(true, 10, 0, 0.0, None, false), f.annualBasicExpenses))
    + Report("annual_healthcare_costs", CleanDecimal(DecimalField(true, 10, 0, 0.0, None, false), f.annualHealthcareCosts))
    + Report("expected_return", CleanDecimal(DecimalField(true, 5, 2, 0.0, Some(100.0), false), f.expectedReturn))
    + Report("inflation_rate", CleanDecimal(DecimalField(true, 5, 2, 0.0, Some(100.0), false), f.inflationRate))
    + Report("desired_legacy", CleanDecimal(DecimalField(false, 12, 0, 0.0, None, false), f.desiredLegacy))
    + ReportClean(CleanLate(startAge.Value(), lifeExpectancy.Value()))
  }

  predicate LateAccepted(f: LateForm)
  {
    LateErrors(f) == []
  }

  /** What an accepted late form holds, field by field. */
  predicate LateValid(f: LateForm)
  {
    && PresentAtLeast(f.startingPortfolio, 0.0, 12, 0)
    && IntegerWithin(f.lateRetirementStartAge, 70, 100)
    && IntegerWithin(f.lifeExpectancy, 75, 120)
    && f.lifeExpectancy.value - f.lateRetirementStartAge.value >= MinimumPhaseYears
    && PresentAtLeast(f.annualBasicExpenses, 0.0, 10, 0)
    && PresentAtLeast(f.annualHealthcareCosts, 0.0, 10, 0)
    && PresentWithin(f.expectedReturn, 0.0, 100.0, 5, 2)
    && PresentWithin(f.inflationRate, 0.0, 100.0, 5, 2)
    && (f.desiredLegacy.Some? ==> PresentAtLeast(f.desiredLegacy, 0.0, 12, 0))
  }

  /**
   * The late form is accepted exactly when its ages are in range and at
   * least five years apart, and every amount and rate is within its bounds.
   */
  lemma LateAcceptedIff(f: LateForm)
    ensures LateAccepted(f) <==> LateValid(f)
  {
  }

  function LateInputOf(f: LateForm): LateRetirement.LateRetirementInput
  {
    LateRetirement.LateRetirementInput(
      f.startingPortfolio.GetOr(0.0), f.lateRetirementStartAge.GetOr(0), f.lifeExpectancy.GetOr(0),
      f.annualBasicExpenses.GetOr(0.0), f.annualHealthcareCosts.GetOr(0.0), 0.0, 0.0, 0.0,
      f.expectedReturn.GetOr(0.0), f.inflationRate.GetOr(0.0), f.desiredLegacy.GetOr(0.0))
  }

  /**
   * An accepted late form gives the phase at least five years, and the
   * legacy the phase reports is then its final balance itself.
   */
  lemma AcceptedLateFeedsPhase(f: LateForm)
    requires LateAccepted(f)
    ensures var p := LateInputOf(f);
      && LateRetirement.LateYearCount(p) >= MinimumPhaseYears
      && LateRetirement.LateOutcome(p).legacyAmount == LateRetirement.LateFinal(p).portfolio
  {
    LateAcceptedIff(f);
    LateRetirement.LegacyIsFinalBalance(LateInputOf(f));
  }

  // ----- The realistic-return validator -----

  /**
   * The realistic-return limit guards only the accumulation and phased
   * forms: a 20% return fails there, while the active and late forms take
   * it.
   */
  lemma RealisticReturnOnlyOnEarlyPhases(a: AccumulationForm, p: PhasedForm, act: ActiveForm, late: LateForm)
    requires a.expectedReturn == Some(20.0) && p.expectedReturn == Some(20.0)
    requires act.expectedReturn == Some(20.0) && late.expectedReturn == Some(20.0)
    ensures !AccumulationAccepted(a) && !PhasedAccepted(p)
    ensures ActiveValid(act.(expectedReturn := Some(10.0))) ==> ActiveAccepted(act)
    ensures LateValid(late.(expectedReturn := Some(10.0))) ==> LateAccepted(late)
  {
    AccumulationAcceptedIff(a);
    PhasedAcceptedIff(p);
    ActiveAcceptedIff(act);
    LateAcceptedIff(late);
  }
}
