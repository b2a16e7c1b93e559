/**
 * Phase 2, phased retirement: a semi-retired transition. Every month the
 * portfolio first earns its monthly growth, then receives the continued
 * contribution, then pays the monthly share of the annual withdrawal.
 * Nothing stops the balance from going negative. Part-time income is only
 * totalled; it never enters the portfolio.
 */
module PhasedRetirement {
  import opened Numeric
  import Calculator

  datatype PhasedRetirementInput = PhasedRetirementInput(
    startingPortfolio: real,
    phaseStartAge: int,
    fullRetirementAge: int,
    monthlyContribution: real,
    annualWithdrawal: real,
    partTimeIncome: real,
    expectedReturn: real)

  datatype PhasedRetirementResults = PhasedRetirementResults(
    phaseDurationYears: int,
    startingPortfolio: real,
    endingPortfolio: real,
    totalContributions: real,
    totalWithdrawals: real,
    totalPartTimeIncome: real,
    investmentGains: real,
    netChange: real)

  /** The running values of the monthly loop. */
  datatype PhasedState = PhasedState(
    portfolio: real,
    totalContributions: real,
    totalWithdrawals: real,
    totalGains: real)

  function PhasedYears(p: PhasedRetirementInput): int
  {
    p.fullRetirementAge - p.phaseStartAge
  }

  /** The number of months simulated (a range over a negative count is empty). */
  function PhasedMonths(p: PhasedRetirementInput): nat
  {
    if PhasedYears(p) > 0 then PhasedYears(p) * 12 else 0
  }

  function MonthlyWithdrawal(p: PhasedRetirementInput): real
  {
    p.annualWithdrawal / 12.0
  }

  function PhasedStart(p: PhasedRetirementInput): PhasedState
  {
    PhasedState(p.startingPortfolio, 0.0, 0.0, 0.0)
  }

  /** One month: growth, then the contribution, then the withdrawal. */
  function PhasedMonth(p: PhasedRetirementInput, s: PhasedState): PhasedState
  {
    var gain := GainOn(s.portfolio, Calculator.MonthlyRate(p.expectedReturn));
    PhasedState(
      s.portfolio + gain + p.monthlyContribution - MonthlyWithdrawal(p),
      s.totalContributions + p.monthlyContribution,
      s.totalWithdrawals + MonthlyWithdrawal(p),
      s.totalGains + gain)
  }

  /** The loop state once months `month` up to the last have run from state `s`. */
  function PhasedFrom(p: PhasedRetirementInput, s: PhasedState, month: nat): PhasedState
    requires month <= PhasedMonths(p)
    decreases PhasedMonths(p) - month
  {
    if month == PhasedMonths(p) then s else PhasedFrom(p, PhasedMonth(p, s), month + 1)
  }

  function PhasedFinal(p: PhasedRetirementInput): PhasedState
  {
    PhasedFrom(p, PhasedStart(p), 0)
  }

  /** The results once every month has run. */
  function PhasedOutcome(p: PhasedRetirementInput): PhasedRetirementResults
  {
    var s := PhasedFinal(p);
    PhasedRetirementResults(
      PhasedYears(p), p.startingPortfolio, s.portfolio, s.totalContributions, s.totalWithdrawals,
      p.partTimeIncome * PhasedYears(p) as real, s.totalGains, s.portfolio - p.startingPortfolio)
  }

  lemma PhasedFromStep(p: PhasedRetirementInput, s: PhasedState, month: nat)
    requires month < PhasedMonths(p)
    ensures PhasedFrom(p, s, month) == PhasedFrom(p, PhasedMonth(p, s), month + 1)
  {
  }

  method CalculatePhasedRetirementPhase(p: PhasedRetirementInput) returns (r: PhasedRetirementResults)
    ensures r == PhasedOutcome(p)
  {
    var phaseDurationYears := p.fullRetirementAge - p.phaseStartAge;
    var monthlyRate := Calculator.MonthlyRate(p.expectedReturn);
    var monthlyWithdrawal := p.annualWithdrawal / 12.0;

    var portfolio := p.startingPortfolio;
    var totalContributions := 0.0;
    var totalWithdrawals := 0.0;
    var totalInvestmentGains := 0.0;

    var month := 0;
    while month < phaseDurationYears * 12
      invariant 0 <= month <= PhasedMonths(p)
      invariant phaseDurationYears * 12 > 0 ==> phaseDurationYears * 12 == PhasedMonths(p)
      invariant PhasedFrom(p, PhasedState(portfolio, totalContributions, totalWithdrawals, totalInvestmentGains), month)
             == PhasedFinal(p)
    {
      ghost var s := PhasedState(portfolio, totalContributions, totalWithdrawals, totalInvestmentGains);
      PhasedFromStep(p, s, month);

      var monthlyGain := GainOn(portfolio, monthlyRate);
      totalInvestmentGains := totalInvestmentGains + monthlyGain;
      portfolio := portfolio + monthlyGain;

      portfolio := portfolio + p.monthlyContribution;
      totalContributions := totalContributions + p.monthlyContribution;

      portfolio := portfolio - monthlyWithdrawal;
      totalWithdrawals := totalWithdrawals + monthlyWithdrawal;
      month := month + 1;
    }

    var endingPortfolio := portfolio;
    var netChange := endingPortfolio - p.startingPortfolio;
    var totalPartTimeIncome := p.partTimeIncome * phaseDurationYears as real;
    r := PhasedRetirementResults(
      phaseDurationYears, p.startingPortfolio, endingPortfolio, totalContributions,
      totalWithdrawals, totalPartTimeIncome, totalInvestmentGains, netChange);
  }

  // ----- Properties of the phase -----

  /** The balance is the start plus everything credited minus everything taken out. */
  predicate Balanced(p: PhasedRetirementInput, s: PhasedState)
  {
    s.portfolio == p.startingPortfolio + s.totalGains + s.totalContributions - s.totalWithdrawals
  }

  /** After `month` months each flow has been paid exactly `month` times. */
  predicate PaidMonthly(p: PhasedRetirementInput, s: PhasedState, month: nat)
  {
    && s.totalContributions == p.monthlyContribution * month as real
    && s.totalWithdrawals == MonthlyWithdrawal(p) * month as real
  }

  lemma {:induction false} FromKeepsBooks(p: PhasedRetirementInput, s: PhasedState, month: nat)
    requires month <= PhasedMonths(p) && Balanced(p, s) && PaidMonthly(p, s, month)
    ensures Balanced(p, PhasedFrom(p, s, month)) && PaidMonthly(p, PhasedFrom(p, s, month), PhasedMonths(p))
    decreases PhasedMonths(p) - month
  {
    if month < PhasedMonths(p) {
      var t := PhasedMonth(p, s);
      assert p.monthlyContribution * (month + 1) as real == p.monthlyContribution * month as real + p.monthlyContribution;
      assert MonthlyWithdrawal(p) * (month + 1) as real == MonthlyWithdrawal(p) * month as real + MonthlyWithdrawal(p);
      FromKeepsBooks(p, t, month + 1);
    }
  }

  /**
   * The phase's accounting identity: the ending balance is the start plus
   * gains plus contributions minus withdrawals, the totals are 12 * years
   * times the monthly amounts, and part-time income is the yearly amount
   * times the years.
   */
  lemma PhasedAccounting(p: PhasedRetirementInput)
    ensures var r := PhasedOutcome(p);
      && r.endingPortfolio == r.startingPortfolio + r.investmentGains + r.totalContributions - r.totalWithdrawals
      && r.netChange == r.endingPortfolio - r.startingPortfolio
      && r.totalContributions == p.monthlyContribution * PhasedMonths(p) as real
      && r.totalWithdrawals == p.annualWithdrawal / 12.0 * PhasedMonths(p) as real
      && r.totalPartTimeIncome == p.partTimeIncome * r.phaseDurationYears as real
  {
    FromKeepsBooks(p, PhasedStart(p), 0);
  }

  /** A phase of no length changes nothing. */
  lemma ZeroDurationKeepsPortfolio(p: PhasedRetirementInput)
    requires p.fullRetirementAge == p.phaseStartAge
    ensures var r := PhasedOutcome(p);
      && r.endingPortfolio == p.startingPortfolio && r.netChange == 0.0
      && r.totalContributions == 0.0 && r.totalWithdrawals == 0.0
      && r.investmentGains == 0.0 && r.totalPartTimeIncome == 0.0
  {
    assert PhasedFinal(p) == PhasedStart(p);
  }

  /**
   * After `month` months the balance is the start compounded for `month`
   * months plus the net monthly flow (contribution - withdrawal) as an
   * annuity.
   */
  predicate CompoundedSoFar(p: PhasedRetirementInput, s: PhasedState, month: nat)
  {
    s.portfolio
    == ClosedBalance(
         p.startingPortfolio, p.monthlyContribution - MonthlyWithdrawal(p), 1.0 + Calculator.MonthlyRate(p.expectedReturn), month)
  }

  lemma MonthCompounds(p: PhasedRetirementInput, s: PhasedState, month: nat)
    requires CompoundedSoFar(p, s, month)
    ensures CompoundedSoFar(p, PhasedMonth(p, s), month + 1)
  {
    CompoundOnePeriod(
      s.portfolio, p.startingPortfolio, Calculator.MonthlyRate(p.expectedReturn),
      p.monthlyContribution, MonthlyWithdrawal(p), month);
  }

  lemma {:induction false} FromCompounds(p: PhasedRetirementInput, s: PhasedState, month: nat)
    requires month <= PhasedMonths(p) && CompoundedSoFar(p, s, month)
    ensures CompoundedSoFar(p, PhasedFrom(p, s, month), PhasedMonths(p))
    decreases PhasedMonths(p) - month
  {
    if month < PhasedMonths(p) {
      MonthCompounds(p, s, month);
      FromCompounds(p, PhasedMonth(p, s), month + 1);
    }
  }

  /**
   * The month-by-month phase agrees with the closed-form calculator: the
   * lump-sum growth of the start plus the annuity value of the net monthly
   * flow.
   */
  lemma PhasedAgreesWithClosedForm(p: PhasedRetirementInput)
    requires PhasedYears(p) >= 0 && p.expectedReturn >= 0.0
    ensures PhasedOutcome(p).endingPortfolio
         == Calculator.FutureValueLumpSum(p.startingPortfolio, p.expectedReturn, PhasedYears(p))
          + Calculator.FutureValueAnnuity(p.monthlyContribution - MonthlyWithdrawal(p), p.expectedReturn, PhasedYears(p))
  {
    FromCompounds(p, PhasedStart(p), 0);
    assert PhasedMonths(p) == 12 * PhasedYears(p);
    Calculator.AnnuityIsGeometricSum(p.monthlyContribution - MonthlyWithdrawal(p), p.expectedReturn, PhasedYears(p));
  }
}
