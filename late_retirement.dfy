/**
 * Phase 4, late retirement: a yearly simulation with long-term care. Each
 * year the portfolio earns its annual return, Social Security is totalled,
 * insurance pays up to its coverage of this year's long-term-care cost, and
 * the costs left after insurance and Social Security are withdrawn, capped
 * at the balance. Costs then rise with inflation, and the loop stops as
 * soon as a year closes with a balance of zero or less. The phase reports
 * whether the ending balance meets the desired legacy.
 */
module LateRetirement {
  import opened Numeric

  datatype LateRetirementInput = LateRetirementInput(
    startingPortfolio: real,
    startAge: int,
    lifeExpectancy: int,
    annualBasicExpenses: real,
    annualHealthcareCosts: real,
    longTermCareAnnual: real,
    ltcInsuranceCoverage: real,
    socialSecurityAnnual: real,
    expectedReturn: real,
    inflationRate: real,
    desiredLegacy: real)

  datatype LateRetirementResults = LateRetirementResults(
    phaseDurationYears: int,
    startingPortfolio: real,
    endingPortfolio: real,
    totalWithdrawals: real,
    totalLtcCosts: real,
    totalLtcInsurancePaid: real,
    totalSocialSecurity: real,
    netLtcOutOfPocket: real,
    legacyAmount: real,
    portfolioSufficient: bool)

  /** The running values of the yearly loop. */
  datatype LateState = LateState(
    portfolio: real,
    totalWithdrawals: real,
    totalLtcCosts: real,
    totalLtcInsurancePaid: real,
    totalSocialSecurity: real,
    basicExpenses: real,
    healthcare: real,
    ltc: real)

  function LateYears(p: LateRetirementInput): int
  {
    p.lifeExpectancy - p.startAge
  }

  /** The number of years simulated at most (a range over a negative count is empty). */
  function LateYearCount(p: LateRetirementInput): nat
  {
    if LateYears(p) > 0 then LateYears(p) else 0
  }

  /** What is left to withdraw after insurance and Social Security, never negative. */
  function LateWithdrawalNeeded(totalCosts: real, coverage: real, socialSecurity: real): (w: real)
    ensures w >= 0.0 && w >= totalCosts - coverage - socialSecurity
    ensures w == 0.0 || w == totalCosts - coverage - socialSecurity
  {
    Max(0.0, (totalCosts - coverage) - socialSecurity)
  }

  function LateStart(p: LateRetirementInput): LateState
  {
    LateState(p.startingPortfolio, 0.0, 0.0, 0.0, 0.0, p.annualBasicExpenses, p.annualHealthcareCosts, p.longTermCareAnnual)
  }

  /** One year: growth, income, insurance, the capped withdrawal, then inflation. */
  function LateYear(p: LateRetirementInput, s: LateState): LateState
  {
    var grown := s.portfolio + GainOn(s.portfolio, p.expectedReturn / 100.0);
    var coverage := Min(p.ltcInsuranceCoverage, s.ltc);
    var withdrawal :=
      Min(LateWithdrawalNeeded(s.basicExpenses + s.healthcare + s.ltc, coverage, p.socialSecurityAnnual), grown);
    LateState(
      grown - withdrawal,
      s.totalWithdrawals + withdrawal,
      s.totalLtcCosts + s.ltc,
      s.totalLtcInsurancePaid + coverage,
      s.totalSocialSecurity + p.socialSecurityAnnual,
      Inflated(s.basicExpenses, p.inflationRate / 100.0),
      Inflated(s.healthcare, p.inflationRate / 100.0),
      Inflated(s.ltc, p.inflationRate / 100.0))
  }

  /** The loop state once years `year` up to the last have run from `s`, stopping after a year closing at or below zero. */
  function LateFrom(p: LateRetirementInput, s: LateState, year: nat): LateState
    requires year <= LateYearCount(p)
    decreases LateYearCount(p) - year
  {
    if year == LateYearCount(p) then s
    else
      var t := LateYear(p, s);
      if t.portfolio <= 0.0 then t else LateFrom(p, t, year + 1)
  }

  function LateFinal(p: LateRetirementInput): LateState
  {
    LateFrom(p, LateStart(p), 0)
  }

  /** The results once the loop has ended, with the sufficiency flag as the source computes it. */
  function LateOutcome(p: LateRetirementInput): LateRetirementResults
  {
    var s := LateFinal(p);
    var ending := Max(0.0, s.portfolio);
    LateRetirementResults(
      LateYears(p), p.startingPortfolio, ending, s.totalWithdrawals, s.totalLtcCosts, s.totalLtcInsurancePaid,
      s.totalSocialSecurity, s.totalLtcCosts - s.totalLtcInsurancePaid, ending, ending >= p.desiredLegacy)
  }

  /** One year in terms of the values the loop body computes. */
  lemma LateYearValues(p: LateRetirementInput, s: LateState, grown: real, coverage: real, withdrawal: real)
    requires grown == s.portfolio + GainOn(s.portfolio, p.expectedReturn / 100.0)
    requires coverage == Min(p.ltcInsuranceCoverage, s.ltc)
    requires withdrawal
          == Min(LateWithdrawalNeeded(s.basicExpenses + s.healthcare + s.ltc, coverage, p.socialSecurityAnnual), grown)
    ensures LateYear(p, s)
      == LateState(
           grown - withdrawal, s.totalWithdrawals + withdrawal, s.totalLtcCosts + s.ltc,
           s.totalLtcInsurancePaid + coverage, s.totalSocialSecurity + p.socialSecurityAnnual,
           Inflated(s.basicExpenses, p.inflationRate / 100.0),
           Inflated(s.healthcare, p.inflationRate / 100.0),
           Inflated(s.ltc, p.inflationRate / 100.0))
  {
  }

  lemma LateFromStep(p: LateRetirementInput, s: LateState, year: nat)
    requires year < LateYearCount(p)
    ensures var t := LateYear(p, s);
      LateFrom(p, s, year) == if t.portfolio <= 0.0 then t else LateFrom(p, t, year + 1)
  {
  }

  method CalculateLateRetirementPhase(p: LateRetirementInput) returns (r: LateRetirementResults)
    ensures r == LateOutcome(p)
  {
    var phaseDurationYears := p.lifeExpectancy - p.startAge;
    var annualReturnRate := p.expectedReturn / 100.0;
    var annualInflationRate := p.inflationRate / 100.0;

    var portfolio := p.startingPortfolio;
    var totalWithdrawals := 0.0;
    var totalLtcCosts := 0.0;
    var totalLtcInsurancePaid := 0.0;
    var totalSocialSecurity := 0.0;
    var currentBasicExpenses := p.annualBasicExpenses;
    var currentHealthcare := p.annualHealthcareCosts;
    var currentLtc := p.longTermCareAnnual;

    var year := 0;
    while year < phaseDurationYears
      invariant 0 <= year <= LateYearCount(p)
      invariant phaseDurationYears > 0 ==> phaseDurationYears == LateYearCount(p)
      invariant LateFrom(p, LateState(portfolio, totalWithdrawals, totalLtcCosts, totalLtcInsurancePaid,
                                      totalSocialSecurity, currentBasicExpenses, currentHealthcare, currentLtc), year)
             == LateFinal(p)
    {
      ghost var s := LateState(portfolio, totalWithdrawals, totalLtcCosts, totalLtcInsurancePaid,
                               totalSocialSecurity, currentBasicExpenses, currentHealthcare, currentLtc);
      var annualGain := GainOn(portfolio, annualReturnRate);
      portfolio := portfolio + annualGain;
      ghost var grown := portfolio;

      totalSocialSecurity := totalSocialSecurity + p.socialSecurityAnnual;

      var totalAnnualCosts := currentBasicExpenses + currentHealthcare + currentLtc;
      totalLtcCosts := totalLtcCosts + currentLtc;

      var ltcCoverageThisYear := Min(p.ltcInsuranceCoverage, currentLtc);
      totalLtcInsurancePaid := totalLtcInsurancePaid + ltcCoverageThisYear;

      var withdrawalNeeded := LateWithdrawalNeeded(totalAnnualCosts, ltcCoverageThisYear, p.socialSecurityAnnual);

      withdrawalNeeded := Min(withdrawalNeeded, portfolio);
      portfolio := portfolio - withdrawalNeeded;
      totalWithdrawals := totalWithdrawals + withdrawalNeeded;

      currentBasicExpenses := Inflated(currentBasicExpenses, annualInflationRate);
      currentHealthcare := Inflated(currentHealthcare, annualInflationRate);
      currentLtc := Inflated(currentLtc, annualInflationRate);

      LateYearValues(p, s, grown, ltcCoverageThisYear, withdrawalNeeded);
      LateFromStep(p, s, year);
      if portfolio <= 0.0 {
        break;
      }
      year := year + 1;
    }

    var endingPortfolio := Max(0.0, portfolio);
    var netLtcOutOfPocket := totalLtcCosts - totalLtcInsurancePaid;
    var legacyAmount := endingPortfolio;
    var portfolioSufficient := endingPortfolio >= p.desiredLegacy;
    r := LateRetirementResults(
      phaseDurationYears, p.startingPortfolio, endingPortfolio, totalWithdrawals, totalLtcCosts,
      totalLtcInsurancePaid, totalSocialSecurity, netLtcOutOfPocket, legacyAmount, portfolioSufficient);
  }

  // ----- Properties of the phase -----

  /** Insurance has paid no more than the long-term care it was paying for. */
  predicate InsuranceWithinCare(s: LateState)
  {
    s.totalLtcInsurancePaid <= s.totalLtcCosts
  }

  lemma {:induction false} FromKeepsInsuranceWithinCare(p: LateRetirementInput, s: LateState, year: nat)
    requires year <= LateYearCount(p) && InsuranceWithinCare(s)
    ensures InsuranceWithinCare(LateFrom(p, s, year))
    decreases LateYearCount(p) - year
  {
    if year < LateYearCount(p) {
      var t := LateYear(p, s);
      assert InsuranceWithinCare(t);
      if t.portfolio > 0.0 {
        FromKeepsInsuranceWithinCare(p, t, year + 1);
      }
    }
  }

  /**
   * The out-of-pocket care cost is the care cost less what insurance paid,
   * and it is never negative: each year insurance pays at most that year's
   * care cost.
   */
  lemma NetCareNeverNegative(p: LateRetirementInput)
    ensures var r := LateOutcome(p);
      && r.netLtcOutOfPocket + r.totalLtcInsurancePaid == r.totalLtcCosts
      && r.netLtcOutOfPocket >= 0.0
  {
    FromKeepsInsuranceWithinCare(p, LateStart(p), 0);
  }

  /**
   * From a non-negative balance, a return of at least -100% closes the year
   * at a non-negative balance, after a withdrawal of the uncovered costs
   * capped at the grown balance; insurance pays the smaller of its coverage
   * and the year's care cost.
   */
  lemma LateYearStaysNonNegative(p: LateRetirementInput, s: LateState)
    requires s.portfolio >= 0.0 && p.expectedReturn >= -100.0
    ensures var t := LateYear(p, s);
      var grown := s.portfolio + GainOn(s.portfolio, p.expectedReturn / 100.0);
      var coverage := t.totalLtcInsurancePaid - s.totalLtcInsurancePaid;
      var withdrawal := t.totalWithdrawals - s.totalWithdrawals;
      && t.portfolio >= 0.0
      && coverage == Min(p.ltcInsuranceCoverage, s.ltc)
      && withdrawal >= 0.0
      && withdrawal == Min(LateWithdrawalNeeded(s.basicExpenses + s.healthcare + s.ltc, coverage, p.socialSecurityAnnual), grown)
      && t.portfolio == grown - withdrawal
  {
    GrownStaysNonNegative(s.portfolio, p.expectedReturn / 100.0);
  }

  lemma {:induction false} LateFromStaysNonNegative(p: LateRetirementInput, s: LateState, year: nat)
    requires year <= LateYearCount(p) && s.portfolio >= 0.0 && p.expectedReturn >= -100.0
    ensures LateFrom(p, s, year).portfolio >= 0.0
    decreases LateYearCount(p) - year
  {
    if year < LateYearCount(p) {
      var t := LateYear(p, s);
      LateYearStaysNonNegative(p, s);
      if t.portfolio > 0.0 {
        LateFromStaysNonNegative(p, t, year + 1);
      }
    }
  }

  /**
   * From a non-negative start and a return of at least -100% the loop never
   * overdraws, so the ending balance and the legacy are the final balance
   * itself and not a clamped value.
   */
  lemma LegacyIsFinalBalance(p: LateRetirementInput)
    requires p.startingPortfolio >= 0.0 && p.expectedReturn >= -100.0
    ensures var r := LateOutcome(p);
      r.endingPortfolio == r.legacyAmount == LateFinal(p).portfolio
  {
    LateFromStaysNonNegative(p, LateStart(p), 0);
  }

  // ----- Sufficiency: the flag as written and as intended -----

  /**
   * As written, a legacy goal of zero or less is always met, whatever
   * happened to the portfolio: the ending balance is clamped at zero.
   */
  lemma ZeroLegacyAlwaysSufficient(p: LateRetirementInput)
    requires p.desiredLegacy <= 0.0
    ensures LateOutcome(p).portfolioSufficient
  {
  }

  /** An input whose portfolio of 10000 cannot cover the first year's 50000 of costs, with no legacy goal. */
  predicate ShortfallWithoutLegacy(p: LateRetirementInput)
  {
    && p.startingPortfolio == 10000.0 && p.startAge == 85 && p.lifeExpectancy == 95
    && p.annualBasicExpenses == 30000.0 && p.annualHealthcareCosts == 20000.0
    && p.longTermCareAnnual == 0.0 && p.ltcInsuranceCoverage == 0.0 && p.socialSecurityAnnual == 0.0
    && p.expectedReturn == 4.0 && p.inflationRate == 3.0 && p.desiredLegacy == 0.0
  }

  /** Year one grows 10000 to 10400, and costs of 50000 with no income take all of it. */
  lemma ShortfallFirstYear(p: LateRetirementInput)
    requires ShortfallWithoutLegacy(p)
    ensures LateYear(p, LateStart(p)).portfolio == 0.0
  {
    var s := LateStart(p);
    assert GainOn(s.portfolio, p.expectedReturn / 100.0) == 400.0;
    var coverage := Min(p.ltcInsuranceCoverage, s.ltc);
    assert LateWithdrawalNeeded(s.basicExpenses + s.healthcare + s.ltc, coverage, p.socialSecurityAnnual) == 50000.0;
    LateYearValues(p, s, 10400.0, coverage, 10400.0);
  }

  /** So the first of that input's ten years closes without money. */
  lemma ShortfallFirstYearEmpty(p: LateRetirementInput)
    requires ShortfallWithoutLegacy(p)
    ensures LateYearCount(p) >= 1 && LateYear(p, LateStart(p)).portfolio <= 0.0
  {
    ShortfallFirstYear(p);
  }

  /** A phase whose first year closes at or below zero ends there, out of money. */
  lemma RunsOutInFirstYear(p: LateRetirementInput)
    requires LateYearCount(p) >= 1 && LateYear(p, LateStart(p)).portfolio <= 0.0
    ensures LateFinal(p).portfolio <= 0.0
  {
    LateFromStep(p, LateStart(p), 0);
  }

  /**
   * Whenever a phase of at least one year runs out of money and no legacy
   * is asked for, the flag as written still reports the portfolio
   * sufficient, while the intended flag does not.
   */
  lemma RanOutYetReportedSufficient(p: LateRetirementInput)
    requires LateYearCount(p) >= 1 && LateFinal(p).portfolio <= 0.0 && p.desiredLegacy <= 0.0
    ensures LateOutcome(p).portfolioSufficient && !SufficientAsIntended(p)
  {
  }

  /** On that input the money runs out in the first of ten years. */
  lemma ShortfallRunsOut(p: LateRetirementInput)
    requires ShortfallWithoutLegacy(p)
    ensures LateFinal(p).portfolio <= 0.0
  {
    ShortfallFirstYearEmpty(p);
    RunsOutInFirstYear(p);
  }

  /**
   * On that input, where the money ran out, the flag as written reports the
   * portfolio sufficient and the intended flag does not.
   */
  lemma DepletedButReportedSufficient(p: LateRetirementInput)
    requires ShortfallWithoutLegacy(p)
    ensures LateOutcome(p).portfolioSufficient && !SufficientAsIntended(p)
  {
    ShortfallRunsOut(p);
    RanOutYetReportedSufficient(p);
  }

  /**
   * The flag as evidently intended: the legacy goal is met and the money
   * did not run out, that is, a phase of at least one year did not end on
   * a balance of zero or less.
   */
  predicate SufficientAsIntended(p: LateRetirementInput)
  {
    Max(0.0, LateFinal(p).portfolio) >= p.desiredLegacy && (LateYearCount(p) == 0 || LateFinal(p).portfolio > 0.0)
  }

  /** Every year from `year` to the end of the phase closes on a positive balance. */
  predicate Lasted(p: LateRetirementInput, s: LateState, year: nat)
    decreases LateYearCount(p) - year
  {
    year >= LateYearCount(p) || (LateYear(p, s).portfolio > 0.0 && Lasted(p, LateYear(p, s), year + 1))
  }

  lemma {:induction false} FromPositiveIffLasted(p: LateRetirementInput, s: LateState, year: nat)
    requires year < LateYearCount(p)
    ensures LateFrom(p, s, year).portfolio > 0.0 <==> Lasted(p, s, year)
    decreases LateYearCount(p) - year
  {
    var t := LateYear(p, s);
    if t.portfolio > 0.0 && year + 1 < LateYearCount(p) {
      FromPositiveIffLasted(p, t, year + 1);
    }
  }

  /**
   * The intended flag holds exactly when the ending balance meets the
   * legacy goal and every year of the phase closed on a positive balance.
   */
  lemma SufficientAsIntendedMeansLasting(p: LateRetirementInput)
    ensures SufficientAsIntended(p)
        <==> LateOutcome(p).endingPortfolio >= p.desiredLegacy && Lasted(p, LateStart(p), 0)
  {
    if LateYearCount(p) > 0 {
      FromPositiveIffLasted(p, LateStart(p), 0);
    }
  }

  /** With a positive legacy goal, the flag as written and the intended flag agree. */
  lemma FlagsAgreeOnPositiveLegacy(p: LateRetirementInput)
    requires p.desiredLegacy > 0.0
    ensures LateOutcome(p).portfolioSufficient == SufficientAsIntended(p)
  {
  }
}
