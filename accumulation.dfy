/**
 * Phase 1, accumulation: current savings compound monthly as a lump sum,
 * and every month a contribution and its employer match are paid and
 * compounded over the months still to run. After every twelfth month a
 * positive salary increase raises the contribution, and the match is
 * recomputed from the raised contribution.
 *
 * The method follows the source loop; its invariant ties the running
 * values to `AccumulationFrom`, the month-by-month specification, about
 * which the phase's properties are proved. Optional inputs arrive already
 * defaulted to 0.
 */
module Accumulation {
  import opened Numeric
  import Calculator

  datatype AccumulationInput = AccumulationInput(
    currentAge: int,
    retirementStartAge: int,
    currentSavings: real,
    monthlyContribution: real,
    employerMatchRate: real,
    expectedReturn: real,
    annualSalaryIncrease: real)

  datatype AccumulationResults = AccumulationResults(
    yearsToRetirement: int,
    totalPersonalContributions: real,
    totalEmployerContributions: real,
    futureValue: real,
    investmentGains: real,
    finalMonthlyContribution: real)

  /** The running values of the monthly contribution loop. */
  datatype AccumulationState = AccumulationState(
    contribution: real,
    employerMatch: real,
    totalPersonal: real,
    totalEmployer: real,
    fvContributions: real)

  function AccumulationYears(a: AccumulationInput): int
  {
    a.retirementStartAge - a.currentAge
  }

  /** The number of monthly contributions (a range over a negative count is empty). */
  function AccumulationMonths(a: AccumulationInput): nat
  {
    if AccumulationYears(a) > 0 then AccumulationYears(a) * 12 else 0
  }

  /**
   * A -1200% return makes the growth factor 0: with no months to go
   * `0 ** 0` raises, and with negative months `0 ** -n` is Infinity,
   * which is not modelled.
   */
  predicate AccumulationDefined(a: AccumulationInput)
  {
    Calculator.LumpSumDefined(a.expectedReturn, AccumulationYears(a))
  }

  /** The employer match on a contribution, the rate being a percentage. */
  function MatchOn(contribution: real, matchRate: real): real
  {
    contribution * (matchRate / 100.0)
  }

  /** A contribution after one yearly raise. */
  function Raised(contribution: real, salaryIncreaseRate: real): real
  {
    contribution * (1.0 + salaryIncreaseRate)
  }

  /** One month's contribution and match, compounded over the months still to run. */
  function CompoundedDeposit(contribution: real, employerMatch: real, monthlyRate: real, monthsRemaining: nat): real
  {
    (contribution + employerMatch) * Pow(1.0 + monthlyRate, monthsRemaining)
  }

  /** Whether the month with 0-based index `month` closes a year with a raise. */
  predicate RaiseAfter(a: AccumulationInput, month: nat)
  {
    (month + 1) % 12 == 0 && a.annualSalaryIncrease / 100.0 > 0.0
  }

  function AccumulationStart(a: AccumulationInput): AccumulationState
  {
    AccumulationState(a.monthlyContribution, MatchOn(a.monthlyContribution, a.employerMatchRate), 0.0, 0.0, 0.0)
  }

  /** Month `month` (0-based) of the loop. */
  function AccumulationMonth(a: AccumulationInput, s: AccumulationState, month: nat): AccumulationState
    requires month < AccumulationMonths(a)
  {
    var contributionFv := CompoundedDeposit(
      s.contribution, s.employerMatch, Calculator.MonthlyRate(a.expectedReturn), AccumulationYears(a) * 12 - month);
    var contribution := if RaiseAfter(a, month) then Raised(s.contribution, a.annualSalaryIncrease / 100.0) else s.contribution;
    AccumulationState(
      contribution,
      if RaiseAfter(a, month) then MatchOn(contribution, a.employerMatchRate) else s.employerMatch,
      s.totalPersonal + s.contribution,
      s.totalEmployer + s.employerMatch,
      s.fvContributions + contributionFv)
  }

  /** The loop state once months `month` up to the last have run from state `s`. */
  function AccumulationFrom(a: AccumulationInput, s: AccumulationState, month: nat): AccumulationState
    requires month <= AccumulationMonths(a)
    decreases AccumulationMonths(a) - month
  {
    if month == AccumulationMonths(a) then s else AccumulationFrom(a, AccumulationMonth(a, s, month), month + 1)
  }

  /** The loop state after every month. */
  function AccumulationFinal(a: AccumulationInput): AccumulationState
  {
    AccumulationFrom(a, AccumulationStart(a), 0)
  }

  /** The results once every month has run: the savings lump sum plus the compounded deposits. */
  function AccumulationOutcome(a: AccumulationInput): AccumulationResults
    requires AccumulationDefined(a)
  {
    var s := AccumulationFinal(a);
    var fv := Calculator.FutureValueLumpSum(a.currentSavings, a.expectedReturn, AccumulationYears(a)) + s.fvContributions;
    AccumulationResults(
      AccumulationYears(a), s.totalPersonal, s.totalEmployer, fv,
      fv - (a.currentSavings + s.totalPersonal + s.totalEmployer), s.contribution)
  }

  /** One month in terms of the values the loop body computes. */
  lemma AccumulationMonthValues(
    a: AccumulationInput, months: int, month: nat, s: AccumulationState, contribution: real, employerMatch: real)
    requires month < AccumulationMonths(a) && months == AccumulationYears(a) * 12
    requires RaiseAfter(a, month) ==>
      contribution == Raised(s.contribution, a.annualSalaryIncrease / 100.0)
      && employerMatch == MatchOn(contribution, a.employerMatchRate)
    requires !RaiseAfter(a, month) ==> contribution == s.contribution && employerMatch == s.employerMatch
    ensures AccumulationMonth(a, s, month)
      == AccumulationState(contribution, employerMatch, s.totalPersonal + s.contribution, s.totalEmployer + s.employerMatch,
           s.fvContributions
           + CompoundedDeposit(s.contribution, s.employerMatch, Calculator.MonthlyRate(a.expectedReturn), months - month))
  {
    var m := AccumulationMonth(a, s, month);
    assert m.contribution == contribution;
    assert m.employerMatch == employerMatch;
  }

  /** The results in terms of the values the method holds after its loop. */
  lemma AccumulationOutcomeValues(a: AccumulationInput, s: AccumulationState, fvCurrentSavings: real)
    requires AccumulationDefined(a) && s == AccumulationFinal(a)
    requires fvCurrentSavings
          == a.currentSavings * IntPow(1.0 + Calculator.MonthlyRate(a.expectedReturn), AccumulationYears(a) * 12)
    ensures AccumulationOutcome(a)
         == AccumulationResults(
              AccumulationYears(a), s.totalPersonal, s.totalEmployer, fvCurrentSavings + s.fvContributions,
              (fvCurrentSavings + s.fvContributions) - (a.currentSavings + s.totalPersonal + s.totalEmployer),
              s.contribution)
  {
  }

  lemma AccumulationFromStep(a: AccumulationInput, s: AccumulationState, month: nat)
    requires month < AccumulationMonths(a)
    ensures AccumulationFrom(a, s, month) == AccumulationFrom(a, AccumulationMonth(a, s, month), month + 1)
  {
  }

  method CalculateAccumulationPhase(a: AccumulationInput) returns (r: AccumulationResults)
    requires AccumulationDefined(a)
    ensures r == AccumulationOutcome(a)
  {
    var yearsToRetirement := a.retirementStartAge - a.currentAge;
    var monthlyRate := Calculator.MonthlyRate(a.expectedReturn);
    var salaryIncreaseRate := a.annualSalaryIncrease / 100.0;

    var months := yearsToRetirement * 12;
    var fvCurrentSavings := a.currentSavings * IntPow(1.0 + monthlyRate, months);

    var totalPersonal := 0.0;
    var totalEmployer := 0.0;
    var fvContributions := 0.0;

    var currentContribution := a.monthlyContribution;
    var currentEmployerMatch := MatchOn(a.monthlyContribution, a.employerMatchRate);

    var month := 0;
    assert AccumulationStart(a)
        == AccumulationState(currentContribution, currentEmployerMatch, totalPersonal, totalEmployer, fvContributions);
    while month < months
      invariant 0 <= month <= AccumulationMonths(a)
      invariant months > 0 ==> months == AccumulationMonths(a)
      invariant AccumulationFrom(
                  a, AccumulationState(currentContribution, currentEmployerMatch, totalPersonal, totalEmployer, fvContributions), month)
             == AccumulationFinal(a)
    {
      ghost var s := AccumulationState(currentContribution, currentEmployerMatch, totalPersonal, totalEmployer, fvContributions);
      ghost var m := month;
      totalPersonal := totalPersonal + currentContribution;
      totalEmployer := totalEmployer + currentEmployerMatch;

      var monthsRemaining := months - month;
      var contributionFv := CompoundedDeposit(currentContribution, currentEmployerMatch, monthlyRate, monthsRemaining);
      fvContributions := fvContributions + contributionFv;

      if (month + 1) % 12 == 0 && salaryIncreaseRate > 0.0 {
        currentContribution := Raised(currentContribution, salaryIncreaseRate);
        currentEmployerMatch := MatchOn(currentContribution, a.employerMatchRate);
      }
      month := month + 1;
      AccumulationMonthValues(a, months, m, s, currentContribution, currentEmployerMatch);
      AccumulationFromStep(a, s, m);
    }

    AccumulationOutcomeValues(
      a, AccumulationState(currentContribution, currentEmployerMatch, totalPersonal, totalEmployer, fvContributions),
      fvCurrentSavings);
    var futureValue := fvCurrentSavings + fvContributions;
    var investmentGains := futureValue - (a.currentSavings + totalPersonal + totalEmployer);
    r := AccumulationResults(
      yearsToRetirement, totalPersonal, totalEmployer, futureValue, investmentGains, currentContribution);
  }

  // ----- Properties of the phase -----

  /** The match is always the current contribution times the rate, and so is each total. */
  predicate MatchKept(a: AccumulationInput, s: AccumulationState)
  {
    s.employerMatch == MatchOn(s.contribution, a.employerMatchRate)
    && s.totalEmployer == MatchOn(s.totalPersonal, a.employerMatchRate)
  }

  lemma MonthKeepsMatch(a: AccumulationInput, s: AccumulationState, month: nat)
    requires month < AccumulationMonths(a) && MatchKept(a, s)
    ensures MatchKept(a, AccumulationMonth(a, s, month))
  {
    var t := AccumulationMonth(a, s, month);
    var rate := a.employerMatchRate / 100.0;
    assert t.totalEmployer == s.totalPersonal * rate + s.contribution * rate;
    assert t.totalPersonal * rate == s.totalPersonal * rate + s.contribution * rate;
  }

  lemma {:induction false} FromKeepsMatch(a: AccumulationInput, s: AccumulationState, month: nat)
    requires month <= AccumulationMonths(a) && MatchKept(a, s)
    ensures MatchKept(a, AccumulationFrom(a, s, month))
    decreases AccumulationMonths(a) - month
  {
    if month < AccumulationMonths(a) {
      MonthKeepsMatch(a, s, month);
      FromKeepsMatch(a, AccumulationMonth(a, s, month), month + 1);
    }
  }

  /** The employer pays in exactly the match rate times what the saver pays in. */
  lemma EmployerTotalIsMatchOfPersonal(a: AccumulationInput)
    requires AccumulationDefined(a)
    ensures var r := AccumulationOutcome(a);
      r.totalEmployerContributions == r.totalPersonalContributions * (a.employerMatchRate / 100.0)
  {
    FromKeepsMatch(a, AccumulationStart(a), 0);
  }

  /** The factor the contribution grows by at each year's end. */
  function YearlyRaiseFactor(a: AccumulationInput): real
  {
    if a.annualSalaryIncrease / 100.0 > 0.0 then 1.0 + a.annualSalaryIncrease / 100.0 else 1.0
  }

  /** After `month` months the contribution has been raised once per completed year. */
  predicate RaisedPerYear(a: AccumulationInput, s: AccumulationState, month: nat)
  {
    s.contribution == a.monthlyContribution * Pow(YearlyRaiseFactor(a), month / 12)
  }

  lemma MonthRaises(a: AccumulationInput, s: AccumulationState, month: nat)
    requires month < AccumulationMonths(a) && RaisedPerYear(a, s, month)
    ensures RaisedPerYear(a, AccumulationMonth(a, s, month), month + 1)
  {
    var x := YearlyRaiseFactor(a);
    var k := month / 12;
    if RaiseAfter(a, month) {
      assert (month + 1) / 12 == k + 1;
      assert Pow(x, k + 1) == x * Pow(x, k);
    } else if a.annualSalaryIncrease / 100.0 > 0.0 {
      assert (month + 1) / 12 == k;
    } else {
      PowOne(k);
      PowOne((month + 1) / 12);
    }
  }

  lemma {:induction false} FromRaises(a: AccumulationInput, s: AccumulationState, month: nat)
    requires month <= AccumulationMonths(a) && RaisedPerYear(a, s, month)
    ensures RaisedPerYear(a, AccumulationFrom(a, s, month), AccumulationMonths(a))
    decreases AccumulationMonths(a) - month
  {
    if month < AccumulationMonths(a) {
      MonthRaises(a, s, month);
      FromRaises(a, AccumulationMonth(a, s, month), month + 1);
    }
  }

  /**
   * The final contribution is the first one raised once per year to go:
   * by (1 + s)^years when the increase s is positive, unchanged otherwise.
   */
  lemma FinalContributionAfterRaises(a: AccumulationInput)
    requires AccumulationDefined(a) && AccumulationYears(a) >= 0
    ensures var r := AccumulationOutcome(a);
      && (a.annualSalaryIncrease > 0.0 ==>
            r.finalMonthlyContribution
            == a.monthlyContribution * Pow(1.0 + a.annualSalaryIncrease / 100.0, AccumulationYears(a)))
      && (a.annualSalaryIncrease <= 0.0 ==> r.finalMonthlyContribution == a.monthlyContribution)
  {
    FromRaises(a, AccumulationStart(a), 0);
    assert AccumulationMonths(a) / 12 == AccumulationYears(a);
    if a.annualSalaryIncrease <= 0.0 {
      PowOne(AccumulationYears(a));
    }
  }

  /** At a 0% return every deposit keeps its face value. */
  predicate FaceValueKept(s: AccumulationState)
  {
    s.fvContributions == s.totalPersonal + s.totalEmployer
  }

  lemma MonthAtZeroReturn(a: AccumulationInput, s: AccumulationState, month: nat)
    requires a.expectedReturn == 0.0
    requires month < AccumulationMonths(a) && FaceValueKept(s)
    ensures FaceValueKept(AccumulationMonth(a, s, month))
  {
    PowOne(AccumulationYears(a) * 12 - month);
  }

  lemma {:induction false} FromAtZeroReturn(a: AccumulationInput, s: AccumulationState, month: nat)
    requires a.expectedReturn == 0.0
    requires month <= AccumulationMonths(a) && FaceValueKept(s)
    ensures FaceValueKept(AccumulationFrom(a, s, month))
    decreases AccumulationMonths(a) - month
  {
    if month < AccumulationMonths(a) {
      MonthAtZeroReturn(a, s, month);
      FromAtZeroReturn(a, AccumulationMonth(a, s, month), month + 1);
    }
  }

  /** With no return the future value is everything paid in and nothing is gained. */
  lemma ZeroReturnGainsNothing(a: AccumulationInput)
    requires a.expectedReturn == 0.0
    ensures var r := AccumulationOutcome(a);
      && r.futureValue == a.currentSavings + r.totalPersonalContributions + r.totalEmployerContributions
      && r.investmentGains == 0.0
  {
    FromAtZeroReturn(a, AccumulationStart(a), 0);
    Calculator.IntPowOne(AccumulationYears(a) * 12);
  }

  /** With no years to go nothing is paid in and the savings are returned as they are. */
  lemma NoYearsLeavesSavings(a: AccumulationInput)
    requires a.retirementStartAge == a.currentAge && AccumulationDefined(a)
    ensures var r := AccumulationOutcome(a);
      && r.yearsToRetirement == 0
      && r.futureValue == a.currentSavings
      && r.totalPersonalContributions == 0.0 && r.totalEmployerContributions == 0.0
      && r.investmentGains == 0.0
      && r.finalMonthlyContribution == a.monthlyContribution
  {
    assert AccumulationFinal(a) == AccumulationStart(a);
  }

  /** Without raises every month pays the same deposit, valued over the months left to run. */
  predicate LevelDeposits(a: AccumulationInput, s: AccumulationState, month: nat)
    requires month <= AccumulationMonths(a)
  {
    && s == AccumulationState(
         a.monthlyContribution, MatchOn(a.monthlyContribution, a.employerMatchRate),
         s.totalPersonal, s.totalEmployer, s.fvContributions)
    && s.fvContributions
       == (s.contribution + s.employerMatch)
          * GrownDeposits(1.0 + Calculator.MonthlyRate(a.expectedReturn), AccumulationMonths(a), month)
  }

  lemma MonthLevel(a: AccumulationInput, s: AccumulationState, month: nat)
    requires a.annualSalaryIncrease <= 0.0
    requires month < AccumulationMonths(a) && LevelDeposits(a, s, month)
    ensures LevelDeposits(a, AccumulationMonth(a, s, month), month + 1)
  {
    var x := 1.0 + Calculator.MonthlyRate(a.expectedReturn);
    var n := AccumulationMonths(a);
    var t := AccumulationMonth(a, s, month);
    assert GrownDeposits(x, n, month + 1) == GrownDeposits(x, n, month) + Pow(x, n - month);
    assert t.fvContributions == s.fvContributions + (s.contribution + s.employerMatch) * Pow(x, n - month);
  }

  lemma {:induction false} FromLevel(a: AccumulationInput, s: AccumulationState, month: nat)
    requires a.annualSalaryIncrease <= 0.0
    requires month <= AccumulationMonths(a) && LevelDeposits(a, s, month)
    ensures LevelDeposits(a, AccumulationFrom(a, s, month), AccumulationMonths(a))
    decreases AccumulationMonths(a) - month
  {
    if month < AccumulationMonths(a) {
      MonthLevel(a, s, month);
      FromLevel(a, AccumulationMonth(a, s, month), month + 1);
    }
  }

  /**
   * Without raises the deposits are one level deposit grown over n .. 1
   * months: one month's growth on the geometric sum over n months.
   */
  lemma LevelFinalValue(a: AccumulationInput)
    requires a.annualSalaryIncrease <= 0.0
    ensures var x := 1.0 + Calculator.MonthlyRate(a.expectedReturn);
      AccumulationFinal(a).fvContributions
      == x * ((a.monthlyContribution + MatchOn(a.monthlyContribution, a.employerMatchRate)) * GeoSum(x, AccumulationMonths(a)))
  {
    var x := 1.0 + Calculator.MonthlyRate(a.expectedReturn);
    FromLevel(a, AccumulationStart(a), 0);
    DepositsAreAnnuityDue(
      a.monthlyContribution + MatchOn(a.monthlyContribution, a.employerMatchRate), x, AccumulationMonths(a));
  }

  /** Without salary increases the compounded deposits are one month's growth on the annuity. */
  lemma LevelDepositsGrowth(a: AccumulationInput)
    requires a.annualSalaryIncrease <= 0.0 && a.expectedReturn >= 0.0 && AccumulationYears(a) >= 0
    ensures AccumulationFinal(a).fvContributions
         == (1.0 + Calculator.MonthlyRate(a.expectedReturn))
          * Calculator.FutureValueAnnuity(
              a.monthlyContribution + MatchOn(a.monthlyContribution, a.employerMatchRate),
              a.expectedReturn, AccumulationYears(a))
  {
    var x := 1.0 + Calculator.MonthlyRate(a.expectedReturn);
    var deposit := a.monthlyContribution + MatchOn(a.monthlyContribution, a.employerMatchRate);
    var months := AccumulationMonths(a);
    assert months == AccumulationYears(a) * 12;
    Calculator.AnnuityIsGeometricSum(deposit, a.expectedReturn, AccumulationYears(a));
    ScaleEqual(x, Calculator.FutureValueAnnuity(deposit, a.expectedReturn, AccumulationYears(a)), deposit * GeoSum(x, months));
    LevelFinalValue(a);
  }

  /**
   * Without salary increases, the phase is the closed-form calculator's
   * projection except that each deposit is paid at the start of its month:
   * the savings' lump sum plus one month's extra growth on the annuity of
   * the contribution and its match.
   */
  lemma LevelAccumulationIsAnnuityDue(a: AccumulationInput)
    requires a.annualSalaryIncrease <= 0.0 && a.expectedReturn >= 0.0 && AccumulationYears(a) >= 0
    ensures var r := AccumulationOutcome(a);
      var deposit := a.monthlyContribution + MatchOn(a.monthlyContribution, a.employerMatchRate);
      r.futureValue
      == Calculator.FutureValueLumpSum(a.currentSavings, a.expectedReturn, AccumulationYears(a))
       + (1.0 + Calculator.MonthlyRate(a.expectedReturn))
         * Calculator.FutureValueAnnuity(deposit, a.expectedReturn, AccumulationYears(a))
  {
    var deposit := a.monthlyContribution + MatchOn(a.monthlyContribution, a.employerMatchRate);
    LevelDepositsGrowth(a);
  }
}
