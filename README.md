# ASEAN carbon simulator — projection arithmetic in Dafny

The ASEAN carbon-pricing dashboard (`2_asean-carbon-simulator/app.py`)
projects what carbon pricing costs the refining sectors of Singapore,
Thailand, Indonesia, Malaysia and Vietnam. It also projects how the five
countries' prices could converge. This project models the deterministic
arithmetic behind the dashboard and proves properties of it:

- the carbon-liability engine: the net present value of a sector's carbon
  costs, as the helper and the interactive calculator compute it (module
  `Liability`);
- the regional liability comparison (`Liability`);
- the policy-divergence metrics (`Divergence`);
- the price-convergence simulation under the baseline, accelerated and delayed
  scenarios (`Convergence`);
- the price-trajectory chart (`Growth`);
- the integration phase progress (`Phases`);
- the return on the integration investment (`Roi`);
- the refinery risk labels, the country and complexity filter and the
  per-country fleet summary (`Fleet`);
- the milestone timeline under the Malaysia delay scenario (`Milestones`).

The numeric fields of the country table, the refinery fleet, the milestones
and the investment amounts are in `ReferenceData`. Module `PriceDefaults` holds
the rule that replaces a country's missing 2024 price by a floor: 25 $/t in
the calculator and 15 $/t elsewhere. Module `Numeric` holds shared arithmetic:
powers, sums, extrema, the "positive entries" filter and linear interpolation.

Each loop of the modelled core is a method proved against a specification function
or predicate: the helper's NPV loop, the calculator's breakdown loop, the
comparison loop, the convergence and trajectory loops, the phase loop and the
fleet-summary loop. The properties are lemmas about those specification
functions. Python floats are modelled as exact reals, and `**` with an integer
exponent is a recursive power.

Where the code's fallback branches (`float('inf')`, `else 0`) cannot be reached, the model follows what the code does instead:

- The divergence metrics' `float('inf')` branch (app.py:443) can never be
  taken, because the price list is already filtered to positive prices. With
  no positive price the code fails on `min` of an empty list instead, since the
  condition `min(prices) > 0` is evaluated first. The
  model requires a positive price.
- The convergence spread's `else 0` branch (app.py:573) can never be taken,
  for the same reason. The model requires some positive price in every year.
- An unknown convergence scenario name is not rejected: the code leaves the
  anchors unscaled, and so does the model.

## Model

| member | source | states |
|---|---|---|
| PriceDefaults.PriceOrFloor | 2_asean-carbon-simulator/app.py:908 | The substituted price is always positive. It is the country's own 2024 price when that is positive, and the floor otherwise. |
| Liability.AnnualEmissionsMt | 2_asean-carbon-simulator/app.py:417-423 | At 0.14 t per barrel, 1000 barrels a kbpd and 365 days, a sector emits 0.0511 Mt a year per kbpd. |
| Liability.DiscountedCost | 2_asean-carbon-simulator/app.py:428-431 | Defines one projection year's cost: the price escalated t times, the emissions costed at it, and the result divided by (1 + rate)^t. Year 0 is the undiscounted cost at the base price. |
| Liability.Npv | 2_asean-carbon-simulator/app.py:426-431 | Defines the liability in dollars as the sum of the discounted costs of years 0 .. years-1. Its properties are the Npv lemmas below. |
| Liability.CoveredEmissionsMt | 2_asean-carbon-simulator/app.py:825 | Defines the covered emissions as the sector's emissions times coverage/100. At 100% coverage they are all the emissions. For a coverage in 0 .. 100 and non-negative capacity they lie between 0 and all the emissions. |
| Liability.CalculateCarbonLiability | 2_asean-carbon-simulator/app.py:412-433 | The helper's result, in billions, is the engine NPV: all emissions priced, the price escalated by 1.03 a year, each year discounted. A zero-year horizon gives 0. |
| Liability.CalculatorDefaultPrice | 2_asean-carbon-simulator/app.py:796-801 | The calculator opens at the country's positive 2024 price, otherwise at 25 $/t, and that value lies in the input's 0 .. 200 range. |
| Liability.CalculatorDefaultCoverage | 2_asean-carbon-simulator/app.py:808-811 | The coverage slider opens at the country's coverage, within its 0 .. 100 % range, where the covered emissions lie between none and all of the sector's. |
| Liability.LiabilityBreakdown | 2_asean-carbon-simulator/app.py:815-838 | Each year has a row for 2025 + k with the price escalated k times, the covered cost and the engine's discounted cost. The total liability is the engine NPV at the covered emissions. The rows' discounted costs add up to the total. The government exposure is the ownership share of the total. |
| Liability.FirstYearUndiscounted | 2_asean-carbon-simulator/app.py:823-828 | The first breakdown row carries the base price, undiscounted, and a one-year liability is exactly that cost. |
| Liability.CalculatorAtHelperSettings | 2_asean-carbon-simulator/app.py:823-827 | At 100% coverage the covered emissions are all the emissions, and at 3% escalation the calculator's NPV equals the helper's. |
| Liability.RegionalComparison | 2_asean-carbon-simulator/app.py:906-914 | There is one row per country, in order. Each row's liability is the helper's at the country's price or 15 $/t. Its exposure is the government share. The liability is non-negative for a rate above -1 and non-negative capacity. |
| Liability.DiscountedCostNonNegative | 2_asean-carbon-simulator/app.py:428-431 | Each year's cost and discounted cost are non-negative for non-negative inputs and a rate above -1. |
| Liability.NpvNonNegative | 2_asean-carbon-simulator/app.py:426-431 | The liability is never negative for non-negative emissions, price and growth and a rate above -1. |
| Liability.NpvAtMostUndiscounted | 2_asean-carbon-simulator/app.py:426-431 | At a non-negative rate the liability lies between 0 and the undiscounted escalated total. |
| Liability.DiscountedCostDecreasingInRate | 2_asean-carbon-simulator/app.py:431 | A higher discount rate leaves year 0 unchanged and makes every later year's discounted cost strictly smaller. |
| Liability.NpvStrictlyDecreasingInRate | 2_asean-carbon-simulator/app.py:426-431 | Over two or more years with positive inputs, a higher discount rate gives a strictly smaller liability. |
| Liability.DiscountedCostIncreasingInPrice | 2_asean-carbon-simulator/app.py:429-431 | A higher base price gives every year a strictly larger discounted cost. |
| Liability.NpvStrictlyIncreasingInPrice | 2_asean-carbon-simulator/app.py:426-431 | Over at least one year, a higher base price gives a strictly larger liability. |
| Liability.UnpricedDefaultsDisagree | 2_asean-carbon-simulator/app.py:908 | For an unpriced country with capacity, the calculator at its default price and the helper's settings reports strictly more than the regional comparison (25 against 15 $/t). |
| Divergence.GetDivergenceMetrics | 2_asean-carbon-simulator/app.py:436-446 | The launch-year gap is non-negative. The minimum price is positive and at most the maximum. The price spread is at least 1. |
| Divergence.TimelineSpreadIsLargestGap | 2_asean-carbon-simulator/app.py:442 | The timeline spread bounds every difference of two launch years, and two countries attain it. |
| Divergence.MaxPriceIsHighest | 2_asean-carbon-simulator/app.py:444 | The maximum price bounds every 2024 price, and some country has it. |
| Divergence.MinPriceIsLowestMandatory | 2_asean-carbon-simulator/app.py:445 | The minimum price is at most every positive 2024 price, and some country has it, so an unpriced country never counts. |
| Divergence.PriceSpreadIsRatio | 2_asean-carbon-simulator/app.py:443 | The price spread is the maximum price divided by the minimum price. |
| Divergence.DivergenceOfShippedFigures | 2_asean-carbon-simulator/app.py:436-446 | A table with the shipped prices and launch years has the metrics (11, 59/20, 59, 20). |
| Divergence.ShippedDivergence | 2_asean-carbon-simulator/app.py:165-231 | The shipped country table gives a timeline spread of 11 years. Its prices run from 20 to 59 $/t, a spread of 2.95, with Malaysia's zero left out. |
| Numeric.Positives | 2_asean-carbon-simulator/app.py:438 | The filter keeps exactly the positive entries, and no more entries than it was given. |
| Numeric.PositiveSpread | 2_asean-carbon-simulator/app.py:573 | The highest positive entry over the lowest is at least 1. |
| Convergence.ScaleAnchors | 2_asean-carbon-simulator/app.py:543-552 | Defines the scenario scaling of one country's anchors. The 2024 price is never touched, and a name other than "accelerated" or "delayed" leaves the anchors as they are. |
| Convergence.PriceAt | 2_asean-carbon-simulator/app.py:558-569 | Defines a country's price in a year: the 2024 price up to 2024, straight lines to the 2030 and 2045 targets, and the 2045 target after. The path passes through the three anchors. |
| Convergence.ApplyScenario | 2_asean-carbon-simulator/app.py:543-552 | Scaling the anchors in place yields exactly the scenario's scaled trajectories. |
| Convergence.ConvergenceRowFor | 2_asean-carbon-simulator/app.py:556-574 | A year's row has every country's price at that year and a spread over the positive prices, which is at least 1. |
| Convergence.SimulatePriceConvergence | 2_asean-carbon-simulator/app.py:530-576 | There are 27 rows, for 2024 .. 2050. Row k holds the scaled prices of year 2024 + k and their spread, which is always at least 1. |
| Convergence.ScenarioEffect | 2_asean-carbon-simulator/app.py:543-552 | The 2024 price never changes. "accelerated" strictly raises and "delayed" strictly lowers both positive targets. Any other name changes nothing. |
| Convergence.BaselineUnscaled | 2_asean-carbon-simulator/app.py:543-552 | The baseline scenario runs on the anchors as given. |
| Convergence.PriceAtAnchors | 2_asean-carbon-simulator/app.py:558-569 | The path passes through the 2024, 2030 and 2045 anchors, holds the 2024 price before 2024, and stays flat from 2045. |
| Convergence.PriceBetweenAnchors | 2_asean-carbon-simulator/app.py:560-567 | On 2024 .. 2030 and on 2030 .. 2045 the price lies between the two anchors of the segment. |
| Convergence.PriceMonotone | 2_asean-carbon-simulator/app.py:558-569 | With rising anchors the price never falls from one year to a later one. |
| Convergence.PositiveAnchorsActive | 2_asean-carbon-simulator/app.py:572-573 | One country with three positive anchors gives every year a positive price, so the spread is always defined. |
| Convergence.ShippedScenariosActive | 2_asean-carbon-simulator/app.py:535-552 | Under every scenario the shipped anchors give every year a positive price. |
| Convergence.ShippedBaselinePrices | 2_asean-carbon-simulator/app.py:535-563 | Singapore's baseline is 67 in 2027. Malaysia is at 0 in 2024 and 2.5 in 2025. |
| Convergence.ShippedBaselineSpread2024 | 2_asean-carbon-simulator/app.py:570-573 | The 2024 baseline prices are (59, 35, 25, 0, 20), and the spread over the positive ones is 59/20. |
| Convergence.SpreadOfShippedPrices | 2_asean-carbon-simulator/app.py:572-573 | The spread of the price list (59, 35, 25, 0, 20) is 59/20. |
| Growth.GrowthPriceAt | 2_asean-carbon-simulator/app.py:1036-1043 | Defines the chart price in a year: the straight line from the base to the 2030 target, then the target grown by 3% a year. Growth.GrowthAnchors and Growth.PriceAfterTarget state its values. |
| Growth.GrowthLine | 2_asean-carbon-simulator/app.py:1036-1044 | Each year 2024 .. 2050 has its price: the straight line from the base to the 2030 target, then 3% growth a year. |
| Growth.PriceTrajectories | 2_asean-carbon-simulator/app.py:1028-1046 | Each country's line starts at its positive 2024 price, or at 15 $/t, and reaches its 2030 target. The lines are in table order. |
| Growth.GrowthAnchors | 2_asean-carbon-simulator/app.py:1037-1043 | The line starts at the base in 2024 and meets the target in 2030. It is 3% higher in 2031, with no jump between the two pieces. |
| Growth.GrowthBetweenAnchors | 2_asean-carbon-simulator/app.py:1037-1040 | From 2024 to 2030 the price lies between the base and the target. |
| Growth.PriceAfterTarget | 2_asean-carbon-simulator/app.py:1041-1043 | From 2030 on the price is the target times 1.03 per year elapsed. |
| Growth.PriceStepAfterTarget | 2_asean-carbon-simulator/app.py:1041-1043 | After 2030 a positive target makes each year's price strictly higher than the year before. |
| Growth.GrowthStrictlyIncreasingAfterTarget | 2_asean-carbon-simulator/app.py:1041-1043 | After 2030 a positive target makes the price strictly increase from year to year. |
| Growth.GrowthMonotone | 2_asean-carbon-simulator/app.py:1036-1044 | A base at most a non-negative target gives a price that never falls. |
| Phases.Progress | 2_asean-carbon-simulator/app.py:507-526 | Progress stays in 0 .. 100. A phase is not started (0%) before its start. It is complete (100%) from its end on. In between it is in progress below 100%, and at 0% only in its start year. |
| Phases.GetPhaseProgress | 2_asean-carbon-simulator/app.py:498-527 | Gives one entry per phase, in order, each the phase's progress at the given year. |
| Phases.ProgressMonotone | 2_asean-carbon-simulator/app.py:508-516 | A phase's progress never goes down as the years pass. |
| Phases.PhasesAreConsecutive | 2_asean-carbon-simulator/app.py:500-504 | Each phase ends where the next starts, so at most one phase is in progress in any year. |
| Phases.DefaultYearProgress | 2_asean-carbon-simulator/app.py:498 | In 2025 Foundation is in progress at 0% and the others have not started. In 2026 Foundation is a third of the way. |
| Roi.CalculateIntegrationRoi | 2_asean-carbon-simulator/app.py:475-495 | The investment is the sum of the amounts. Savings are 18 + 50 a year. Benefits are ten years of savings plus 200. The ratio times the investment is the benefits. The payback times the savings is the investment. |
| Roi.PaybackWithinHorizon | 2_asean-carbon-simulator/app.py:486-494 | The payback is at most 10 years exactly when the investment is at most $680M, and then the benefit-cost ratio exceeds 1. |
| Roi.ShippedRoi | 2_asean-carbon-simulator/app.py:293-299 | The shipped amounts total $229M and return $880M over ten years: a ratio of 880/229 (3.84 .. 3.85) and a payback of 229/68 years. |
| Fleet.RiskLabel | 2_asean-carbon-simulator/app.py:1207-1209 | A facility is high risk exactly when older than 50, medium exactly when aged 31 .. 50, and low exactly when aged at most 30. |
| Fleet.RiskMonotone | 2_asean-carbon-simulator/app.py:1207-1209 | An older facility never gets a lower risk label. |
| Fleet.FilterRefineries | 2_asean-carbon-simulator/app.py:1156-1159 | A refinery passes the filter exactly when it is in the fleet and both its country and its complexity were chosen. The filter never grows the list. |
| Fleet.FilterKeepsMultiplicity | 2_asean-carbon-simulator/app.py:1156-1159 | The filter keeps each selected record as many times as the fleet lists it, and drops every other record. |
| Fleet.FilterKeepsSelected | 2_asean-carbon-simulator/app.py:1140-1159 | With every refinery selected, as the default all-countries, all-complexities choice does, the filter returns the fleet unchanged and in order. |
| Fleet.FilterIdempotent | 2_asean-carbon-simulator/app.py:1156-1159 | Filtering a filtered list again changes nothing. |
| Fleet.OfCountry | 2_asean-carbon-simulator/app.py:1230 | Keeps exactly the refineries of the given country, and never grows the list. |
| Fleet.OfCountryKeepsMultiplicity | 2_asean-carbon-simulator/app.py:1230 | A country's list holds each of its records as many times as the filtered list does, and nothing else. |
| Fleet.OfCountryLength | 2_asean-carbon-simulator/app.py:1230 | A country's list is as long as the number of that country's records, which the summary reports as "Refineries" (app.py:1235). |
| Fleet.CountOlderThan | 2_asean-carbon-simulator/app.py:1239 | Counts the ages above a limit. The count never exceeds the number of ages, and it is 0 exactly when no age is above the limit. |
| Fleet.CountYoungerThan | 2_asean-carbon-simulator/app.py:1240 | Counts the ages below a limit. The count never exceeds the number of ages, and it is 0 exactly when no age is below the limit. |
| Fleet.HighRiskCountMatchesLabel | 2_asean-carbon-simulator/app.py:1239 | The summary's "High Risk" count is the number of facilities labelled high risk. |
| Fleet.ReadyCountMissesAgeThirty | 2_asean-carbon-simulator/app.py:1240 | The "Transition Ready" count plus the facilities aged exactly 30 is the number labelled low risk. |
| Fleet.ShippedFleetAgedThirty | 2_asean-carbon-simulator/app.py:239-274 | In the shipped fleet exactly Pertamina Balongan and Petronas Melaka I are aged 30. Both are labelled low risk, and the "Transition Ready" count misses exactly those two of the low-risk facilities. |
| Fleet.HighAndReadyDisjoint | 2_asean-carbon-simulator/app.py:1239-1240 | No facility is counted both high risk and transition ready. |
| Fleet.Summarize | 2_asean-carbon-simulator/app.py:1231-1241 | The count is the number of ages. The average is their mean, which lies between the newest and the oldest age. The oldest and newest are ages of the country's facilities and bound all of them. The high-risk count is the number labelled high. The ready count is the number labelled low minus those aged 30. |
| Fleet.Mean | 2_asean-carbon-simulator/app.py:1236 | `np.mean` of ages with the given total and count: the mean times the count is the total. |
| Fleet.CountryRows | 2_asean-carbon-simulator/app.py:1230-1232 | A chosen country contributes one row exactly when it has a filtered refinery, and that row names it and counts its refineries. |
| Fleet.FleetSummary | 2_asean-carbon-simulator/app.py:1228-1241 | Gives one summary row per chosen country with filtered refineries, in the order chosen. |
| Fleet.SummaryRowsMeaning | 2_asean-carbon-simulator/app.py:1228-1241 | There are no more rows than chosen countries. Every row names a chosen country with a positive count equal to its number of filtered refineries. |
| Milestones.Contains | 2_asean-carbon-simulator/app.py:1290 | A substring test: true exactly when the pattern occurs at some position of the text. |
| Milestones.AdjustForScenario | 2_asean-carbon-simulator/app.py:1281-1292 | The milestones keep their number and order, and only years change. A year moves 5 later exactly when the scenario contains "Delayed" and the milestone mentions Malaysia. |
| Milestones.AdjustNeverEarlier | 2_asean-carbon-simulator/app.py:1290-1292 | No milestone moves earlier, and without "Delayed" in the scenario the timeline is unchanged. |
| Milestones.ScenarioOptions | 2_asean-carbon-simulator/app.py:1281-1285 | Of the two radio options, only the second is a delayed one. |
| Milestones.ShippedBaselineTimeline | 2_asean-carbon-simulator/app.py:277-290 | The baseline option keeps the shipped milestone timeline. |
| Milestones.DelayedMovesMalaysia | 2_asean-carbon-simulator/app.py:1290-1292 | Under a delayed option, a milestone whose text begins with "Malaysia" moves five years later. |

## Left out

- The Streamlit layout and the Plotly and pandas output (charts, metrics, tables, HTML) are not modelled, because they only display results.
- `get_malaysia_countdown` (app.py:467-472) is left out, because it reads the system clock.
- `create_country_comparison_df` (app.py:449-464) is left out, because it only formats strings.
- The descriptive tables (funding sources, Malaysia scenarios, technology cooperation, risk matrix) are left out, because no computation reads them.
- The cost-per-barrel chart (app.py:1087-1096) is not part of this model.
- Floating-point rounding is not modelled: every float computation is exact real arithmetic.
- Integer inputs (prices, years, ages) are modelled as unbounded values.
- `liability_managed` (app.py:483) is left out, because it is assigned and never used.
- The fleet summary's string formatting (flag, "years" suffix, `:.0f` rounding of the mean) is not modelled. Rows carry the numbers.
- Convergence.ApplyScenario updates a sequence value, not the source's dictionary in place, so aliasing of the dictionary is not captured.
- Divergence.GetDivergenceMetrics requires a positive 2024 price, because without one the source fails on `min` of an empty list (the condition `min(prices) > 0` at app.py:443 is evaluated first). That failure is not modelled as a result value.
- Convergence.SimulatePriceConvergence requires every year to have a positive price, because the source fails on `min` of an empty list otherwise. That failure is not modelled as a result value.
- Liability.CalculateCarbonLiability excludes a discount rate of -1 over two or more years, where the source divides by zero.
- Liability.LiabilityBreakdown has the same exclusion, for the same reason.
- Numeric.PositiveSpread states only that the spread is at least 1. The identity spread × minimum = maximum is stated separately in Numeric.RatioScales for explicit arguments.
- Fleet.Summarize does not model the `:.0f` rounding of the displayed mean. Its average is the exact mean.
- The country table keeps name, capacity, government ownership, the 2024 and 2030 prices, launch year and coverage. The `flag`, `refineries`, `ets_status`, `total_liability_b`, `govt_exposure_b` and `avg_refinery_age` fields (app.py:165-236) are left out, because no modelled computation reads them.
- The refinery records keep country, name, capacity, age and complexity. The `owner` and `govt_owned` fields (app.py:239-274) are left out: `owner` is only displayed (app.py:1212), and `govt_owned` is never read.
- Roi.CalculateIntegrationRoi requires the investment amounts to have a non-zero sum. With a zero sum the source raises a division by zero at app.py:492, and the model does not represent that failure as a result value.
- Liability.CalculatorDefaultPrice requires a 2024 price of at most 200 $/t. Above that the number input at app.py:796-801 rejects its default value, and the model does not represent that failure.
- Liability.CalculatorDefaultCoverage requires a coverage between 0 and 100 %. Outside that range the slider at app.py:808-811 rejects its default value, and the model does not represent that failure.
- Milestones.AdjustForScenario is not evaluated on the shipped table under the delayed option. Milestones.DelayedMovesMalaysia states the shift for any milestone whose text begins with "Malaysia".
- Milestones.DelayedMovesMalaysia does not cover milestones that mention Malaysia later in their text. Milestones.AdjustForScenario covers those in general.
