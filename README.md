# Retirement planner: a verified model of the calculation core

The retirement planner is a Django application that projects savings for
retirement in two ways:

- a closed-form calculator (`calculator/calculator.py`) that grows current
  savings and a level monthly contribution to a retirement age;
- a four-phase planner (`calculator/phase_calculator.py`) that simulates
  each phase step by step:
  - accumulation, month by month, with employer match and yearly raises;
  - phased retirement, month by month, with contributions and withdrawals;
  - active retirement, year by year, with inflating expenses and depletion
    tracking;
  - late retirement, year by year, with long-term care, insurance and a
    legacy goal.

The forms that feed these calculations are modelled as well:

- `calculator/forms.py` and `calculator/phase_forms.py`: how each form
  field is cleaned, the field hooks, each form's `clean()` rules, and the
  realistic-return validator;
- `calculator/templatetags/calculator_tags.py`: the template filters that
  render the results, namely `currency`, `currency_short`, `percent`,
  `calculate_percentage` and `years_plural`.

Modules, one per file:

- **`Wrappers`**: `Option` and `Outcome`.
- **`Numeric`**: powers, geometric sums and closed-form balances, shared
  by the calculator and the phases.
- **`Calculator`**: the functions of `calculator.py`.
- **`Accumulation`, `PhasedRetirement`, `ActiveRetirement`,
  `LateRetirement`**: the four phases, each in the same shape:
  - a specification as pure functions: one step, the run from a given
    step to the end, and the results;
  - a `method` whose loop is the source's loop, proved to return exactly
    those results;
  - lemmas about the specification: accounting identities, non-negative
    balances, where depletion happens, and agreement with the closed-form
    calculator.
- **`FormFields`**: Django's cleaning of one integer or decimal field. The
  checks run in this order: required, then the field's validators, then
  max_value, then min_value, then the digit limits.
- **`PhaseForms`, `CalculatorForm`**: the five forms. For each form, a
  lemma proves that the form is accepted exactly when a plain predicate
  over its raw inputs holds. Another lemma proves what an accepted form
  guarantees to the calculation it feeds.
- **`DecimalText`**: fixed-point rendering of a decimal:
  - round half to even;
  - digit strings and thousands grouping;
  - a reader that recovers the rounded number from the text, with the
    round trip proved.
- **`CalculatorTags`**: the template filters, each with a read-back or
  fallback property.

Money and rates are Python `Decimal`s in the source and `real`s here.

## Model

| member | source | states |
|---|---|---|
| Numeric.Max | calculator/phase_calculator.py:348 | the result is one of the arguments and at least both |
| Numeric.Min | calculator/phase_calculator.py:336 | the result is one of the arguments and at most both |
| Numeric.GrownStaysNonNegative | calculator/phase_calculator.py:230-232 | a non-negative balance grown at a rate of at least -100% stays non-negative |
| Numeric.IntPow | calculator/calculator.py:60 | Decimal's integer power: the `n`-fold product for `n >= 0`, the reciprocal for negative `n`, defined wherever the result is finite: `0 ** 0` raises, and `0 ** -n` is Infinity, which is not modelled |
| Numeric.GeoSumClosedForm | calculator/calculator.py:89-92 | `(x^n - 1) / (x - 1)` is the sum `1 + x + ... + x^(n-1)`, which is the growth factor the annuity formula relies on |
| Numeric.GrownDepositsClosedForm | calculator/phase_calculator.py:102-110 | the deposits of the accumulation loop, each compounded over its remaining months, sum to `x^(n-m+1)` times a geometric sum |
| Numeric.CompoundOnePeriod | calculator/phase_calculator.py:160-172 | one period of gain, then a contribution, then a withdrawal, moves the closed-form balance on by exactly one period |
| Calculator.FutureValueLumpSum | calculator/calculator.py:35-61 | no years or a 0% rate leaves the principal unchanged; a positive rate over positive years strictly grows a positive principal |
| Calculator.FutureValueAnnuity | calculator/calculator.py:64-97 | at a rate of 0 or less the value is payment times months; with no years it is 0 |
| Calculator.CalculateRetirementSavings | calculator/calculator.py:100-173 | years are the age gap; the future value is lump sum plus annuity; total contributions are savings plus 12 payments a year; gains plus contributions equal the future value; the monthly income is the future value over 240 months; the variance is passed through |
| Calculator.ReturnOnInvestmentPercent | calculator/calculator.py:27-32 | 0 when nothing was contributed, otherwise ROI times contributions equals gains times 100 |
| Calculator.CalculateSafeWithdrawal | calculator/calculator.py:176-197 | the amount is the savings times the rate in percent; at the default 4% it is one twenty-fifth of the savings |
| Calculator.IntPowOne | calculator/calculator.py:60 | a 0% rate gives a growth factor of 1 over any number of months, negative ones included |
| Calculator.AnnuityIsGeometricSum | calculator/calculator.py:86-97 | for non-negative rates and years, the annuity is the payment times the geometric sum of the monthly growth factor over all months |
| Calculator.ZeroReturnProjection | calculator/calculator.py:100-173 | at a 0% return the future value equals the total contributed, gains are 0 and the ROI is 0 |
| Calculator.ProjectionIsCompoundedDeposits | calculator/calculator.py:135-152 | lump sum plus annuity is the closed-form balance of the savings with the contribution added every month |
| Accumulation.CalculateAccumulationPhase | calculator/phase_calculator.py:69-127 | the loop's results are exactly the accumulation specification's results for the input |
| Accumulation.AccumulationFromStep | calculator/phase_calculator.py:102-115 | running from a month equals doing that month and running from the next |
| Accumulation.EmployerTotalIsMatchOfPersonal | calculator/phase_calculator.py:100-115 | total employer contributions are exactly the match rate times total personal contributions, raises included |
| Accumulation.FinalContributionAfterRaises | calculator/phase_calculator.py:113-115 | with a positive raise, the final contribution is the first one compounded once per full year; without a raise it is unchanged |
| Accumulation.ZeroReturnGainsNothing | calculator/phase_calculator.py:117-118 | at a 0% return the future value is savings plus everything paid in, and gains are 0 |
| Accumulation.NoYearsLeavesSavings | calculator/phase_calculator.py:86-127 | retiring at the current age leaves the savings unchanged, pays nothing in, gains nothing and keeps the contribution |
| Accumulation.LevelDepositsGrowth | calculator/phase_calculator.py:102-110 | with no raises, the contributions' future value is the growth factor times deposit times the geometric sum over all months |
| Accumulation.LevelAccumulationIsAnnuityDue | calculator/phase_calculator.py:90-118 | with no raises, the future value is the closed-form lump sum plus one extra month's growth on the closed-form annuity of the matched deposit |
| PhasedRetirement.CalculatePhasedRetirementPhase | calculator/phase_calculator.py:132-187 | the loop's results are exactly the phased specification's results for the input |
| PhasedRetirement.PhasedFromStep | calculator/phase_calculator.py:160-172 | running from a month equals doing that month and running from the next |
| PhasedRetirement.PhasedAccounting | calculator/phase_calculator.py:155-187 | ending portfolio is start plus gains plus contributions minus withdrawals; net change is end minus start; contributions and withdrawals are per-month amounts times months; part-time income is per year times years |
| PhasedRetirement.ZeroDurationKeepsPortfolio | calculator/phase_calculator.py:150-187 | a phase of no years leaves the portfolio unchanged, with every total 0 |
| PhasedRetirement.PhasedAgreesWithClosedForm | calculator/phase_calculator.py:151-174 | for non-negative rates and years, the month-by-month ending portfolio equals the closed-form lump sum plus the annuity of contribution minus withdrawal |
| ActiveRetirement.WithdrawalNeeded | calculator/phase_calculator.py:239-241 | never negative; 0 when income covers costs, otherwise exactly the gap between costs and income |
| ActiveRetirement.ActiveFromStep | calculator/phase_calculator.py:226-259 | running from a year equals doing that year, then stopping if it ran out and otherwise running from the next |
| ActiveRetirement.CalculateActiveRetirementPhase | calculator/phase_calculator.py:192-274 | the loop's results, early exit included, are exactly the active specification's results for the input |
| ActiveRetirement.ActiveAccounting | calculator/phase_calculator.py:226-274 | ending portfolio is start plus gains minus withdrawals; the average withdrawal times the years is the total, or 0 when there are no years |
| ActiveRetirement.YearStaysNonNegative | calculator/phase_calculator.py:229-252 | from a non-negative balance a year ends non-negative, having withdrawn the smaller of the need and the grown balance |
| ActiveRetirement.EndingNeverNegative | calculator/phase_calculator.py:226-264 | a non-negative start at a return of at least -100% never ends below 0 |
| ActiveRetirement.IncomeCoversCosts | calculator/phase_calculator.py:239-252 | when income covers costs the year withdraws nothing, only grows, and records no depletion |
| ActiveRetirement.DepletionWithinPhase | calculator/phase_calculator.py:244-250 | a recorded depletion age lies in [start age, end age) and the ending balance is then 0 |
| ActiveRetirement.ActiveYearsRun | calculator/phase_calculator.py:226-259 | the number of years run never exceeds the phase |
| ActiveRetirement.StopsAtFirstDepletion | calculator/phase_calculator.py:258-259 | the run ends after the first year whose balance is 0 or less; every earlier year closed positive, and an early stop ends on a balance of 0 or less |
| LateRetirement.LateWithdrawalNeeded | calculator/phase_calculator.py:332-333 | never negative, at least the uncovered cost, and either 0 or exactly that cost |
| LateRetirement.LateFromStep | calculator/phase_calculator.py:315-346 | running from a year equals doing that year, then stopping if it ran out and otherwise running from the next |
| LateRetirement.CalculateLateRetirementPhase | calculator/phase_calculator.py:279-364 | the loop's results, early exit included, are exactly the late specification's results for the input |
| LateRetirement.NetCareNeverNegative | calculator/phase_calculator.py:328-349 | insurance paid plus net out-of-pocket care equals total care cost, and the net is never negative |
| LateRetirement.LateYearStaysNonNegative | calculator/phase_calculator.py:316-338 | from a non-negative balance a year ends non-negative; coverage is the smaller of the insurance and the care cost; the withdrawal is the smaller of the need and the grown balance |
| LateRetirement.LateFromStaysNonNegative | calculator/phase_calculator.py:315-346 | a non-negative balance stays non-negative to the end of the phase |
| LateRetirement.LegacyIsFinalBalance | calculator/phase_calculator.py:348-350 | with a non-negative start, ending portfolio and legacy are both the final balance itself, not a clamped value |
| LateRetirement.ZeroLegacyAlwaysSufficient | calculator/phase_calculator.py:348-351 | as written: with a legacy goal of 0 or less the portfolio is always reported sufficient |
| LateRetirement.DepletedButReportedSufficient | calculator/phase_calculator.py:348-351 | as written: a 10000 portfolio facing 50000 of yearly costs runs out, yet is reported sufficient, while the intended flag is false |
| LateRetirement.SufficientAsIntendedMeansLasting | calculator/phase_calculator.py:345-351 | the intended flag holds exactly when the ending balance meets the legacy and every year closed on a positive balance |
| LateRetirement.FlagsAgreeOnPositiveLegacy | calculator/phase_calculator.py:348-351 | with a positive legacy goal the flag as written and the intended flag agree |
| FormFields.ValidateRealisticReturn | calculator/phase_forms.py:15-21 | passes exactly the values of at most 15 |
| FormFields.DigitsFit | calculator/phase_forms.py:63-69 | the digit limits of a DecimalField: a value that fits has no more decimal places than digits, and with `decimal_places=0` only whole amounts fit |
| FormFields.ZeroAlwaysFits | calculator/phase_forms.py:63-69 | 0 fits any digit limits whose decimal places do not exceed the digits |
| FormFields.CleanInteger | calculator/phase_forms.py:49-61 | an integer field cleans exactly when the value is in [min, max], or is empty on an optional field; it cleans to the value given; a failure carries errors |
| FormFields.DecimalErrors | calculator/phase_forms.py:63-122 | no errors exactly when the realistic-return check, max_value, min_value and the digit limits all pass |
| FormFields.CleanDecimal | calculator/phase_forms.py:63-122 | a decimal field cleans exactly when it has no validator errors, or is empty on an optional field; it cleans to the value given |
| FormFields.WholeDollarsFit | calculator/phase_forms.py:63-69 | a whole amount below 10^12 fits the 12-digit, 0-place limits |
| PhaseForms.CleanAccumulation | calculator/phase_forms.py:124-151 | `clean()` passes exactly when retirement is 5+ years after the current age (checked only when both ages are given and non-zero) and savings and contribution are not both 0; a too-short error carries a gap of 1 to 4 years |
| PhaseForms.CleanAccumulationOnGivenAges | calculator/phase_forms.py:124-151 | with both ages given, `clean()` passes exactly when the ages are at least 5 years apart and savings and contribution are not both 0 |
| PhaseForms.AccumulationAcceptedIff | calculator/phase_forms.py:41-151 | the accumulation form is accepted exactly when every field is within its bounds and digit limits, the return is at most 15, the ages are 5+ years apart, and there is something to invest |
| PhaseForms.AcceptedAccumulationFeedsPhase | calculator/phase_forms.py:41-151 | an accepted form gives the phase 5+ years, a return in [0, 15], non-negative amounts with something to invest, and rates in [0, 100] |
| PhaseForms.CleanPhased | calculator/phase_forms.py:262-281 | `clean()` passes exactly when, with both ages given and non-zero, full retirement comes 1 to 20 years after the phase start; a too-long error carries more than 20 years |
| PhaseForms.PhasedAcceptedIff | calculator/phase_forms.py:155-281 | the phased form is accepted exactly when every field is within its bounds and the phase is 1 to 20 years long |
| PhaseForms.AcceptedPhasedFeedsPhase | calculator/phase_forms.py:155-281 | an accepted form gives the phase 1 to 20 years (12 to 240 months), a return in [0, 15] and non-negative amounts |
| PhaseForms.CleanActive | calculator/phase_forms.py:375-400 | `clean()` passes exactly when, with both ages given and non-zero, the phase lasts 5 to 30 years; too-short and too-long errors carry gaps of 1 to 4 and above 30 years |
| PhaseForms.ActiveAcceptedIff | calculator/phase_forms.py:285-400 | the active form is accepted exactly when every field is within its bounds and the phase is 5 to 30 years long |
| PhaseForms.AcceptedActiveFeedsPhase | calculator/phase_forms.py:285-400 | an accepted form gives 5 to 30 years, and the phase then never ends on a negative balance |
| PhaseForms.CleanLate | calculator/phase_forms.py:515-535 | `clean()` passes exactly when, with both ages given and non-zero, life expectancy is 5+ years after the start; a too-short error carries a gap of 1 to 4 years |
| PhaseForms.LateAcceptedIff | calculator/phase_forms.py:404-535 | the late form is accepted exactly when every field is within its bounds and the life expectancy is 5+ years after the start |
| PhaseForms.AcceptedLateFeedsPhase | calculator/phase_forms.py:404-535 | an accepted form gives 5+ years, and the reported legacy is the final balance |
| PhaseForms.RealisticReturnOnlyOnEarlyPhases | calculator/phase_forms.py:90-96 | a 20% return rejects the accumulation and phased forms, but not the active and late forms, which carry no realistic-return validator |
| CalculatorForm.CleanMonthlyContribution | calculator/forms.py:97-108 | a cleaned contribution passes exactly when it is at most 10000, and is then unchanged |
| CalculatorForm.CleanVariance | calculator/forms.py:110-124 | a cleaned variance passes exactly when it is at most 10; an empty one becomes 2.0 |
| CalculatorForm.CalculatorErrors | calculator/forms.py:18-155 | the form reports no error exactly when every field cleaned and `clean()` passed; a bad current age is always the first error reported |
| CalculatorForm.CalculatorAcceptedIff | calculator/forms.py:18-155 | the calculator form is accepted exactly when the ages are in [18, 100] and 5+ years apart, savings and a contribution of at most 10000 are present and not both 0, the return is in [0, 15], and any variance is in [0, 10] |
| CalculatorForm.AcceptedVariance | calculator/forms.py:110-124 | an accepted form passes on the variance given, or 2.0, and it lies in [0, 10] |
| CalculatorForm.AcceptedFormProjects | calculator/forms.py:127-155 | an accepted form projects 5+ years with a positive total paid in, so its ROI is gains over that total in percent |
| CalculatorForm.AgeBoundary | calculator/forms.py:18-155 | current age 18 is accepted; 17 is rejected, with the first error on `current_age` being below the minimum of 18 |
| CalculatorForm.BoundaryFormValid | calculator/forms.py:18-155 | the boundary example's fields are all within their limits |
| DecimalText.DigitStringReadsBack | calculator/templatetags/calculator_tags.py:31 | the decimal digits of a number read back as that number |
| DecimalText.DigitsSplit | calculator/templatetags/calculator_tags.py:31 | a number is its leading digits shifted plus its last `width` digits, zero-padded |
| DecimalText.GroupedReadsBack | calculator/templatetags/calculator_tags.py:31 | removing the thousands separators from a grouped digit string gives back the digits |
| DecimalText.GroupsOfThree | calculator/templatetags/calculator_tags.py:31 | in grouped text a comma sits exactly at every fourth position counted from the end, so every group after the first has three digits |
| DecimalText.RoundHalfEven | calculator/templatetags/calculator_tags.py:31 | the result is within 0.5 of the input, and even on a tie |
| DecimalText.RoundHalfEvenUnique | calculator/templatetags/calculator_tags.py:31 | any integer with those two properties is the rounded value |
| DecimalText.ScaledRoundNearest | calculator/templatetags/calculator_tags.py:31 | the rounded scaled value is within half a unit in the last place of the exact one |
| DecimalText.FixedTextFraction | calculator/templatetags/calculator_tags.py:29-31 | fixed-point text with `places > 0` ends in a point followed by exactly `places` digits |
| DecimalText.FixedReadsBack | calculator/templatetags/calculator_tags.py:29-31 | fixed-point text, grouped or not, reads back as the input rounded half-even at the places shown |
| DecimalText.FixedTextEndsInDigit | calculator/templatetags/calculator_tags.py:78 | ungrouped fixed-point text is non-empty and ends in a digit |
| CalculatorTags.Currency | calculator/templatetags/calculator_tags.py:16-33 | every rendering, the `$0.00` fallback included, starts with `$` and ends in a point and two cent digits; what the digits denote is stated by CurrencyReadsBack |
| CalculatorTags.CurrencyReadsBack | calculator/templatetags/calculator_tags.py:16-33 | `currency` text reads back as the value's cents, rounded half-even and within half a cent of 100 times the value; a missing or non-numeric value reads as 0 cents |
| CalculatorTags.CurrencyFallbackIsZero | calculator/templatetags/calculator_tags.py:24-33 | a missing or non-numeric value renders exactly as 0 does |
| CalculatorTags.Percent | calculator/templatetags/calculator_tags.py:65-80 | the text always ends in a digit and then `%`; a number asked for with `d > 0` decimals shows a point and exactly `d` digits before the sign; what they denote is stated by PercentReadsBack |
| CalculatorTags.PercentReadsBack | calculator/templatetags/calculator_tags.py:65-80 | `percent` text reads back as the value rounded half-even to the decimals asked for |
| CalculatorTags.PercentFallbackIsZero | calculator/templatetags/calculator_tags.py:73-80 | a missing or non-numeric value, or a negative precision, renders "0.00%" |
| CalculatorTags.ScaleFor | calculator/templatetags/calculator_tags.py:53-60 | the tier chosen is the largest of 1, K, M and B not above the amount, below 1000 of it unless it is B; K, M and B show one decimal and the plain tier none |
| CalculatorTags.CurrencyShort | calculator/templatetags/calculator_tags.py:36-62 | the text starts with `$`; an amount of 1000 or more ends in one decimal and then K, M or B; anything else, the `$0` fallback included, ends in a digit; what the text denotes is stated by ShortReadsBack |
| CalculatorTags.ShortReadsBack | calculator/templatetags/calculator_tags.py:36-62 | `currency_short` text always reads back as a number within half a displayed step (0.05 of the unit, or 0.5 dollars) of the amount |
| CalculatorTags.ShortReadsAsRounded | calculator/templatetags/calculator_tags.py:53-60 | `currency_short` text reads back as the amount in its tier's unit, rounded half-even to the places shown |
| CalculatorTags.ThousandsCanShowAThousand | calculator/templatetags/calculator_tags.py:57-58 | 999999 stays in the K tier and renders as 1000.0K |
| CalculatorTags.CalculatePercentage | calculator/templatetags/calculator_tags.py:83-96 | for numbers with a non-zero total, result times total is part times 100; otherwise 0 |
| CalculatorTags.SharesAddUp | calculator/templatetags/calculator_tags.py:91-94 | the percentages of two parts of a non-zero total add up to 100 |
| CalculatorTags.TowardZero | calculator/templatetags/calculator_tags.py:125 | `int()` truncation: the result is the whole part of the number, moving toward zero |
| CalculatorTags.YearsPlural | calculator/templatetags/calculator_tags.py:116-128 | "year" exactly for numbers in [1, 2), whose truncation is 1; everything else, non-numbers included, is "years" |

## Left out

- Decimal's 28-digit context: every operation is exact over the reals
  here. `Decimal`'s rounding of long results, and the `float` rounding
  `currency_short` applies (`float(value)`), are not modelled.
- NaN and the infinities are not modelled. Nor is Decimal's negative zero,
  which the filters would render as "-0.00".
- Template values: each is a number, missing (`None`), or something that
  does not convert. A numeric string is treated as its number.
  - YearsPlural: a string such as "1.5" makes `int()` raise, so the
    source answers "years". The model treats it as the number 1.5 and
    answers "year".
- FormFields.DigitsFit: checks the digit limits on the value's normalised
  digits. Trailing zeros the user typed, which Django's DecimalValidator
  counts, are not seen. A value over both limits reports one error here
  where Django may report the first one it finds.
- `currency_card` is not modelled: it only hands its arguments to a
  template.
- The Monte Carlo simulation, the views, PDF export, settings and the
  account forms in `forms.py` are not part of this model.
- The social security, pension, long-term care and insurance inputs:
  - the active and late forms have no fields for them (they are commented
    out), so `ActiveInputOf` and `LateInputOf` pass 0 for each;
  - the phase functions themselves take them as inputs.
- Compounding differs between the phases. Active and late retirement grow
  the balance once a year at the full annual return. Accumulation and
  phased retirement compound monthly. The model follows the code in each
  case.
- The accumulation phase computes the lump-sum growth of the savings
  before the loop. The model computes it in the same place, through
  `IntPow`, so a negative number of years gives Decimal's reciprocal
  power.
- Numeric.IntPow: `Decimal(0) ** -n` is Infinity, and `current_savings`
  times Infinity is an infinity again (or raises when the savings are 0).
  The infinities are not modelled, so `IntPow` requires a non-zero base
  for a negative exponent. `0 ** 0`, which raises, is excluded the same
  way.

## Findings

| source | as written | input that shows it | evidently intended | confidence | as-written member | corrected member |
|---|---|---|---|---|---|---|
| calculator/phase_calculator.py:348-351 | `portfolio_sufficient` compares the ending balance, clamped at 0, with the legacy goal, which defaults to 0; a portfolio that runs out is therefore reported sufficient | starting portfolio 10000, ages 85 to 95, basic expenses 30000, healthcare 20000, no care, insurance or income, return 4%, inflation 3%, legacy 0 | insufficient whenever the portfolio ran out before the end of the phase | not executed | LateRetirement.DepletedButReportedSufficient | LateRetirement.SufficientAsIntendedMeansLasting |
