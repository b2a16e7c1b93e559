/**
 * The closed-form retirement calculator: future value of a lump sum and of
 * a monthly annuity, the combined projection with its return on
 * investment, and the safe-withdrawal ("4% rule") amount. Rates are annual
 * percentages, compounded monthly.
 */
module Calculator {
  import opened Numeric
  import opened Wrappers

  /** The projection record returned by the calculator. */
  datatype RetirementProjection = RetirementProjection(
    yearsToRetirement: int,
    totalContributions: real,
    futureValue: real,
    investmentGains: real,
    monthlyIncomeEstimate: real,
    variance: Option<real>)

  /** Retirement is taken to last 20 years of monthly income. */
  const RetirementDurationMonths: int := 20 * 12

  /** The default withdrawal rate of the 4% rule, in percent. */
  const DefaultWithdrawalRate: real := 4.0

  /** An annual percentage as a monthly fraction. */
  function MonthlyRate(annualRate: real): real
  {
    (annualRate / 100.0) / 12.0
  }

  /**
   * The growth factor may be 0 only when compounding forward: `0 ** 0`
   * raises, and `0 ** -n` is Infinity, which is not modelled.
   */
  predicate LumpSumDefined(annualRate: real, years: int)
  {
    years > 0 || 1.0 + MonthlyRate(annualRate) != 0.0
  }

  /** principal * (1 + r/1200)^(12 * years). */
  function FutureValueLumpSum(principal: real, annualRate: real, years: int): (fv: real)
    requires LumpSumDefined(annualRate, years)
    ensures years == 0 ==> fv == principal
    ensures annualRate == 0.0 ==> fv == principal
    ensures annualRate > 0.0 && years > 0 && principal > 0.0 ==> fv > principal
  {
    var x := 1.0 + MonthlyRate(annualRate);
    IntPowOne(years * 12);
    PowAboveOne(x, if years > 0 then years * 12 else 0);
    principal * IntPow(x, years * 12)
  }

  /**
   * Monthly payments compounded to the end: payment * ((1+r)^n - 1) / r when
   * the monthly rate r is positive, otherwise payment * n (no growth at all,
   * even for a negative rate).
   */
  function FutureValueAnnuity(monthlyPayment: real, annualRate: real, years: int): (fv: real)
    ensures MonthlyRate(annualRate) <= 0.0 ==> fv == monthlyPayment * (years * 12) as real
    ensures years == 0 ==> fv == 0.0
  {
    var months := years * 12;
    var r := MonthlyRate(annualRate);
    if r > 0.0 then
      monthlyPayment * ((IntPow(1.0 + r, months) - 1.0) / r)
    else
      monthlyPayment * months as real
  }

  /** The combined projection: savings as a lump sum plus contributions as an annuity. */
  function CalculateRetirementSavings(
    currentAge: int,
    retirementAge: int,
    currentSavings: real,
    monthlyContribution: real,
    annualReturnRate: real,
    variance: Option<real>): (p: RetirementProjection)
    requires LumpSumDefined(annualReturnRate, retirementAge - currentAge)
    ensures p.yearsToRetirement == retirementAge - currentAge
    ensures p.futureValue
      == FutureValueLumpSum(currentSavings, annualReturnRate, p.yearsToRetirement)
       + FutureValueAnnuity(monthlyContribution, annualReturnRate, p.yearsToRetirement)
    ensures p.totalContributions == currentSavings + monthlyContribution * (12 * p.yearsToRetirement) as real
    ensures p.investmentGains + p.totalContributions == p.futureValue
    ensures p.monthlyIncomeEstimate * 240.0 == p.futureValue
    ensures p.variance == variance
  {
    var years := retirementAge - currentAge;
    var fvSavings := FutureValueLumpSum(currentSavings, annualReturnRate, years);
    var fvContributions := FutureValueAnnuity(monthlyContribution, annualReturnRate, years);
    var futureValue := fvSavings + fvContributions;
    var totalContributions := currentSavings + monthlyContribution * years as real * 12.0;
    RetirementProjection(
      years,
      totalContributions,
      futureValue,
      futureValue - totalContributions,
      futureValue / RetirementDurationMonths as real,
      variance)
  }

  /** ROI in percent, guarded against zero contributions. */
  function ReturnOnInvestmentPercent(p: RetirementProjection): (roi: real)
    ensures p.totalContributions == 0.0 ==> roi == 0.0
    ensures p.totalContributions != 0.0 ==> roi * p.totalContributions == p.investmentGains * 100.0
  {
    if p.totalContributions == 0.0 then 0.0
    else (p.investmentGains / p.totalContributions) * 100.0
  }

  /** The annual amount the withdrawal rule allows. */
  function CalculateSafeWithdrawal(totalSavings: real, withdrawalRate: real): (amount: real)
    ensures amount * 100.0 == totalSavings * withdrawalRate
    ensures withdrawalRate == DefaultWithdrawalRate ==> amount * 25.0 == totalSavings
  {
    totalSavings * (withdrawalRate / 100.0)
  }

  lemma IntPowOne(n: int)
    ensures IntPow(1.0, n) == 1.0
  {
    PowOne(if n >= 0 then n else -n);
  }

  lemma PowAboveOne(x: real, n: nat)
    ensures x > 1.0 && n > 0 ==> Pow(x, n) > 1.0
  {
    if x > 1.0 && n > 0 {
      PowAtLeastOne(x, n - 1);
      assert x * Pow(x, n - 1) > Pow(x, n - 1);
    }
  }

  /**
   * The annuity closed form is the sum of the monthly payments, the k-th
   * from the end having grown for k months: payment * sum_{k < n} (1+r)^k.
   */
  lemma AnnuityIsGeometricSum(monthlyPayment: real, annualRate: real, years: int)
    requires years >= 0 && annualRate >= 0.0
    ensures FutureValueAnnuity(monthlyPayment, annualRate, years)
         == monthlyPayment * GeoSum(1.0 + MonthlyRate(annualRate), years * 12)
  {
    var r := MonthlyRate(annualRate);
    var x := 1.0 + r;
    if r > 0.0 {
      GeoSumClosedForm(x, years * 12);
      assert GeoSum(x, years * 12) == (Pow(x, years * 12) - 1.0) / r;
    } else {
      GeoSumOfOne(years * 12);
    }
  }

  /** At a 0% return nothing is gained: the projection is exactly what was paid in. */
  lemma ZeroReturnProjection(
    currentAge: int, retirementAge: int, currentSavings: real, monthlyContribution: real, variance: Option<real>)
    ensures var p := CalculateRetirementSavings(currentAge, retirementAge, currentSavings, monthlyContribution, 0.0, variance);
      p.futureValue == p.totalContributions && p.investmentGains == 0.0 && ReturnOnInvestmentPercent(p) == 0.0
  {
  }

  /**
   * The projection written as sums: the savings compounded over all months
   * plus every monthly contribution compounded over its remaining months
   * (the future value of the projection is this sum by its contract).
   */
  lemma ProjectionIsCompoundedDeposits(currentSavings: real, monthlyContribution: real, annualReturnRate: real, years: int)
    requires years >= 0 && annualReturnRate >= 0.0
    ensures FutureValueLumpSum(currentSavings, annualReturnRate, years)
          + FutureValueAnnuity(monthlyContribution, annualReturnRate, years)
         == ClosedBalance(currentSavings, monthlyContribution, 1.0 + MonthlyRate(annualReturnRate), years * 12)
  {
    var x := 1.0 + MonthlyRate(annualReturnRate);
    AnnuityIsGeometricSum(monthlyContribution, annualReturnRate, years);
    assert FutureValueLumpSum(currentSavings, annualReturnRate, years) == currentSavings * Pow(x, years * 12);
  }
}
