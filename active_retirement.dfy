/**
 * Phase 3, active retirement: a yearly simulation. Each year the portfolio
 * earns its annual return, Social Security and the pension are totalled,
 * and the costs not covered by that income are withdrawn. A withdrawal
 * larger than the balance takes the whole balance and records the age at
 * which the money ran out. Costs then rise with inflation, and the loop
 * stops as soon as a year closes with a balance of zero or less.
 */
module ActiveRetirement {
  import opened Numeric
  import opened Wrappers

  datatype ActiveRetirementInput = ActiveRetirementInput(
    startingPortfolio: real,
    startAge: int,
    endAge: int,
    annualExpenses: real,
    annualHealthcareCosts: real,
    socialSecurityAnnual: real,
    pensionAnnual: real,
    expectedReturn: real,
    inflationRate: real)

  datatype ActiveRetirementResults = ActiveRetirementResults(
    phaseDurationYears: int,
    startingPortfolio: real,
    endingPortfolio: real,
    totalWithdrawals: real,
    totalSocialSecurity: real,
    totalPension: real,
    totalInvestmentGains: real,
    averageAnnualWithdrawal: real,
    portfolioDepletionAge: Option<int>)

  /** The running values of the yearly loop. */
  datatype ActiveState = ActiveState(
    portfolio: real,
    totalWithdrawals: real,
    totalSocialSecurity: real,
    totalPension: real,
    totalGains: real,
    expenses: real,
    healthcare: real,
    depletionAge: Option<int>)

  function ActiveYears(p: ActiveRetirementInput): int
  {
    p.endAge - p.startAge
  }

  /** The number of years simulated at most (a range over a negative count is empty). */
  function ActiveYearCount(p: ActiveRetirementInput): nat
  {
    if ActiveYears(p) > 0 then ActiveYears(p) else 0
  }

  /** The part of this year's costs that income does not cover, never negative. */
  function WithdrawalNeeded(expenses: real, healthcare: real, socialSecurity: real, pension: real): (w: real)
    ensures w >= 0.0
    ensures socialSecurity + pension >= expenses + healthcare ==> w == 0.0
    ensures socialSecurity + pension < expenses + healthcare ==> w + socialSecurity + pension == expenses + healthcare
  {
    Max(0.0, (expenses + healthcare) - (socialSecurity + pension))
  }

  function ActiveStart(p: ActiveRetirementInput): ActiveState
  {
    ActiveState(p.startingPortfolio, 0.0, 0.0, 0.0, 0.0, p.annualExpenses, p.annualHealthcareCosts, None)
  }

  /** Year `year` (0-based): growth, income, the capped withdrawal, then inflation. */
  function ActiveYear(p: ActiveRetirementInput, s: ActiveState, year: nat): ActiveState
  {
    var gain := GainOn(s.portfolio, p.expectedReturn / 100.0);
    var grown := s.portfolio + gain;
    var needed := WithdrawalNeeded(s.expenses, s.healthcare, p.socialSecurityAnnual, p.pensionAnnual);
    var depleted := needed > grown;
    ActiveState(
      if depleted then 0.0 else grown - needed,
      s.totalWithdrawals + (if depleted then grown else needed),
      s.totalSocialSecurity + p.socialSecurityAnnual,
      s.totalPension + p.pensionAnnual,
      s.totalGains + gain,
      Inflated(s.expenses, p.inflationRate / 100.0),
      Inflated(s.healthcare, p.inflationRate / 100.0),
      if depleted then Some(p.startAge + year) else s.depletionAge)
  }

  /** The loop state once years `year` up to the last have run from `s`, stopping after a year closing at or below zero. */
  function ActiveFrom(p: ActiveRetirementInput, s: ActiveState, year: nat): ActiveState
    requires year <= ActiveYearCount(p)
    decreases ActiveYearCount(p) - year
  {
    if year == ActiveYearCount(p) then s
    else
      var t := ActiveYear(p, s, year);
      if t.portfolio <= 0.0 then t else ActiveFrom(p, t, year + 1)
  }

  function ActiveFinal(p: ActiveRetirementInput): ActiveState
  {
    ActiveFrom(p, ActiveStart(p), 0)
  }

  /** The results once the loop has ended. */
  function ActiveOutcome(p: ActiveRetirementInput): ActiveRetirementResults
  {
    var s := ActiveFinal(p);
    ActiveRetirementResults(
      ActiveYears(p), p.startingPortfolio, s.portfolio, s.totalWithdrawals, s.totalSocialSecurity,
      s.totalPension, s.totalGains,
      if ActiveYears(p) > 0 then s.totalWithdrawals / ActiveYears(p) as real else 0.0,
      s.depletionAge)
  }

  /** One year in terms of the values the loop body computes. */
  lemma ActiveYearValues(
    p: ActiveRetirementInput, s: ActiveState, year: nat,
    gain: real, needed: real, portfolio: real, withdrawal: real, depletionAge: Option<int>)
    requires gain == GainOn(s.portfolio, p.expectedReturn / 100.0)
    requires needed == WithdrawalNeeded(s.expenses, s.healthcare, p.socialSecurityAnnual, p.pensionAnnual)
    requires needed > s.portfolio + gain ==>
      portfolio == 0.0 && withdrawal == s.portfolio + gain && depletionAge == Some(p.startAge + year)
    requires needed <= s.portfolio + gain ==>
      portfolio == s.portfolio + gain - needed && withdrawal == needed && depletionAge == s.depletionAge
    ensures ActiveYear(p, s, year)
      == ActiveState(
           portfolio, s.totalWithdrawals + withdrawal, s.totalSocialSecurity + p.socialSecurityAnnual,
           s.totalPension + p.pensionAnnual, s.totalGains + gain,
           Inflated(s.expenses, p.inflationRate / 100.0), Inflated(s.healthcare, p.inflationRate / 100.0), depletionAge)
  {
  }

  lemma ActiveFromStep(p: ActiveRetirementInput, s: ActiveState, year: nat)
    requires year < ActiveYearCount(p)
    ensures var t := ActiveYear(p, s, year);
      ActiveFrom(p, s, year) == if t.portfolio <= 0.0 then t else ActiveFrom(p, t, year + 1)
  {
  }

  method CalculateActiveRetirementPhase(p: ActiveRetirementInput) returns (r: ActiveRetirementResults)
    ensures r == ActiveOutcome(p)
  {
    var phaseDurationYears := p.endAge - p.startAge;
    var annualReturnRate := p.expectedReturn / 100.0;
    var annualInflationRate := p.inflationRate / 100.0;

    var portfolio := p.startingPortfolio;
    var totalWithdrawals := 0.0;
    var totalSocialSecurity := 0.0;
    var totalPension := 0.0;
    var totalInvestmentGains := 0.0;
    var currentExpenses := p.annualExpenses;
    var currentHealthcare := p.annualHealthcareCosts;
    var portfolioDepletionAge: Option<int> := None;

    var year := 0;
    while year < phaseDurationYears
      invariant 0 <= year <= ActiveYearCount(p)
      invariant phaseDurationYears > 0 ==> phaseDurationYears == ActiveYearCount(p)
      invariant ActiveFrom(p, ActiveState(portfolio, totalWithdrawals, totalSocialSecurity, totalPension,
                                          totalInvestmentGains, currentExpenses, currentHealthcare, portfolioDepletionAge), year)
             == ActiveFinal(p)
    {
      ghost var s := ActiveState(portfolio, totalWithdrawals, totalSocialSecurity, totalPension,
                                 totalInvestmentGains, currentExpenses, currentHealthcare, portfolioDepletionAge);
      var currentAge := p.startAge + year;

      var annualGain := GainOn(portfolio, annualReturnRate);
      totalInvestmentGains := totalInvestmentGains + annualGain;
      portfolio := portfolio + annualGain;

      totalSocialSecurity := totalSocialSecurity + p.socialSecurityAnnual;
      totalPension := totalPension + p.pensionAnnual;

      var withdrawalNeeded := WithdrawalNeeded(currentExpenses, currentHealthcare, p.socialSecurityAnnual, p.pensionAnnual);
      ghost var needed := withdrawalNeeded;

      if withdrawalNeeded > portfolio {
        portfolioDepletionAge := Some(currentAge);
        withdrawalNeeded := portfolio;
        portfolio := 0.0;
      } else {
        portfolio := portfolio - withdrawalNeeded;
      }

      totalWithdrawals := totalWithdrawals + withdrawalNeeded;

      currentExpenses := Inflated(currentExpenses, annualInflationRate);
      currentHealthcare := Inflated(currentHealthcare, annualInflationRate);

      ActiveYearValues(p, s, year, annualGain, needed, portfolio, withdrawalNeeded, portfolioDepletionAge);
      ActiveFromStep(p, s, year);
      if portfolio <= 0.0 {
        break;
      }
      year := year + 1;
    }

    var endingPortfolio := portfolio;
    var averageAnnualWithdrawal := if phaseDurationYears > 0 then totalWithdrawals / phaseDurationYears as real else 0.0;
    r := ActiveRetirementResults(
      phaseDurationYears, p.startingPortfolio, endingPortfolio, totalWithdrawals, totalSocialSecurity,
      totalPension, totalInvestmentGains, averageAnnualWithdrawal, portfolioDepletionAge);
  }

  // ----- Properties of the phase -----

  /** The balance is the start plus the gains minus the withdrawals. */
  predicate ActiveBalanced(p: ActiveRetirementInput, s: ActiveState)
  {
    s.portfolio == p.startingPortfolio + s.totalGains - s.totalWithdrawals
  }

  lemma {:induction false} FromKeepsBalance(p: ActiveRetirementInput, s: ActiveState, year: nat)
    requires year <= ActiveYearCount(p) && ActiveBalanced(p, s)
    ensures ActiveBalanced(p, ActiveFrom(p, s, year))
    decreases ActiveYearCount(p) - year
  {
    if year < ActiveYearCount(p) {
      var t := ActiveYear(p, s, year);
      assert ActiveBalanced(p, t);
      if t.portfolio > 0.0 {
        FromKeepsBalance(p, t, year + 1);
      }
    }
  }

  /**
   * The phase's accounting: the ending balance is the start plus the gains
   * minus the withdrawals, and the average withdrawal spreads the total
   * over the phase's years (0 for a phase of no length).
   */
  lemma ActiveAccounting(p: ActiveRetirementInput)
    ensures var r := ActiveOutcome(p);
      && r.endingPortfolio == r.startingPortfolio + r.totalInvestmentGains - r.totalWithdrawals
      && (r.phaseDurationYears > 0 ==> r.averageAnnualWithdrawal * r.phaseDurationYears as real == r.totalWithdrawals)
      && (r.phaseDurationYears <= 0 ==> r.averageAnnualWithdrawal == 0.0)
  {
    FromKeepsBalance(p, ActiveStart(p), 0);
  }

  /**
   * From a non-negative balance, a return of at least -100% never leaves a
   * negative balance, and every withdrawal is the uncovered cost capped at
   * the grown balance.
   */
  lemma YearStaysNonNegative(p: ActiveRetirementInput, s: ActiveState, year: nat)
    requires s.portfolio >= 0.0 && p.expectedReturn >= -100.0
    ensures var t := ActiveYear(p, s, year);
      var grown := s.portfolio + GainOn(s.portfolio, p.expectedReturn / 100.0);
      var withdrawal := t.totalWithdrawals - s.totalWithdrawals;
      && t.portfolio >= 0.0
      && withdrawal == Min(WithdrawalNeeded(s.expenses, s.healthcare, p.socialSecurityAnnual, p.pensionAnnual), grown)
      && t.portfolio == grown - withdrawal
  {
    assert s.portfolio * (p.expectedReturn / 100.0) >= -s.portfolio;
  }

  lemma {:induction false} FromStaysNonNegative(p: ActiveRetirementInput, s: ActiveState, year: nat)
    requires year <= ActiveYearCount(p) && s.portfolio >= 0.0 && p.expectedReturn >= -100.0
    ensures ActiveFrom(p, s, year).portfolio >= 0.0
    decreases ActiveYearCount(p) - year
  {
    if year < ActiveYearCount(p) {
      var t := ActiveYear(p, s, year);
      YearStaysNonNegative(p, s, year);
      if t.portfolio > 0.0 {
        FromStaysNonNegative(p, t, year + 1);
      }
    }
  }

  /** A non-negative start and a return of at least -100% never produce a negative ending balance. */
  lemma EndingNeverNegative(p: ActiveRetirementInput)
    requires p.startingPortfolio >= 0.0 && p.expectedReturn >= -100.0
    ensures ActiveOutcome(p).endingPortfolio >= 0.0
  {
    FromStaysNonNegative(p, ActiveStart(p), 0);
  }

  /** A year whose income covers its costs withdraws nothing, unless the balance has already gone negative. */
  lemma IncomeCoversCosts(p: ActiveRetirementInput, s: ActiveState, year: nat)
    requires p.socialSecurityAnnual + p.pensionAnnual >= s.expenses + s.healthcare
    requires s.portfolio + GainOn(s.portfolio, p.expectedReturn / 100.0) >= 0.0
    ensures var t := ActiveYear(p, s, year);
      && t.totalWithdrawals == s.totalWithdrawals
      && t.portfolio == s.portfolio + GainOn(s.portfolio, p.expectedReturn / 100.0)
      && t.depletionAge == s.depletionAge
  {
  }

  /**
   * A depletion age is recorded at most once, in the year the money ran
   * out: it lies within the phase, and the balance it leaves is 0.
   */
  lemma {:induction false} FromDepletion(p: ActiveRetirementInput, s: ActiveState, year: nat)
    requires year <= ActiveYearCount(p) && s.depletionAge == None
    ensures var f := ActiveFrom(p, s, year);
      f.depletionAge.Some? ==>
        p.startAge + year <= f.depletionAge.value < p.startAge + ActiveYearCount(p) && f.portfolio == 0.0
    decreases ActiveYearCount(p) - year
  {
    if year < ActiveYearCount(p) {
      var t := ActiveYear(p, s, year);
      if t.portfolio > 0.0 {
        FromDepletion(p, t, year + 1);
      }
    }
  }

  /** A recorded depletion age lies in [start age, end age) and leaves an ending balance of 0. */
  lemma DepletionWithinPhase(p: ActiveRetirementInput)
    ensures var r := ActiveOutcome(p);
      r.portfolioDepletionAge.Some? ==>
        p.startAge <= r.portfolioDepletionAge.value < p.endAge && r.endingPortfolio == 0.0
  {
    FromDepletion(p, ActiveStart(p), 0);
  }

  /** The state after k whole years from `s`, with no early stop. */
  function ActiveAfter(p: ActiveRetirementInput, s: ActiveState, year: nat, k: nat): ActiveState
    decreases k
  {
    if k == 0 then s else ActiveAfter(p, ActiveYear(p, s, year), year + 1, k - 1)
  }

  /** The number of years the loop runs from `s` at year `year`. */
  function ActiveYearsRun(p: ActiveRetirementInput, s: ActiveState, year: nat): (k: nat)
    requires year <= ActiveYearCount(p)
    ensures k <= ActiveYearCount(p) - year
    decreases ActiveYearCount(p) - year
  {
    if year == ActiveYearCount(p) then 0
    else
      var t := ActiveYear(p, s, year);
      if t.portfolio <= 0.0 then 1 else 1 + ActiveYearsRun(p, t, year + 1)
  }

  /**
   * The loop is exactly k whole years, every year before the last closed
   * with a positive balance, and it stopped early only because its last
   * year closed at zero or below.
   */
  lemma {:induction false} StopsAtFirstDepletion(p: ActiveRetirementInput, s: ActiveState, year: nat)
    requires year <= ActiveYearCount(p)
    ensures var k := ActiveYearsRun(p, s, year);
      && ActiveFrom(p, s, year) == ActiveAfter(p, s, year, k)
      && (forall j :: 1 <= j < k ==> ActiveAfter(p, s, year, j).portfolio > 0.0)
      && (k < ActiveYearCount(p) - year ==> ActiveFrom(p, s, year).portfolio <= 0.0)
    decreases ActiveYearCount(p) - year
  {
    if year < ActiveYearCount(p) {
      var t := ActiveYear(p, s, year);
      if t.portfolio > 0.0 {
        StopsAtFirstDepletion(p, t, year + 1);
        var k := ActiveYearsRun(p, s, year);
        forall j | 1 <= j < k
          ensures ActiveAfter(p, s, year, j).portfolio > 0.0
        {
          assert ActiveAfter(p, s, year, j) == ActiveAfter(p, t, year + 1, j - 1);
        }
      }
    }
  }
}
