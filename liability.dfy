/** The carbon-liability engine: the net present value of a refining sector's
    carbon costs over a horizon of years, as computed by the helper used for
    the regional comparison (fixed 3% escalation, full coverage) and by the
    liability calculator (user escalation and coverage, with a per-year
    breakdown and the government's share). */
module Liability {
  import opened Numeric
  import opened ReferenceData
  import opened PriceDefaults

  /** Tonnes of CO2 per barrel refined. */
  const EmissionsIntensity: real := 0.14
  /** Growth factor of the price in the helper: 3% a year. */
  const HelperEscalation: real := 1.03
  /** Calendar year of projection year 0 in the calculator's breakdown. */
  const FirstProjectionYear: int := 2025

  /** Annual emissions in million tonnes of a sector refining `capacityKbpd`
      thousand barrels a day: 0.0511 Mt per kbpd. */
  function AnnualEmissionsMt(capacityKbpd: real): (e: real)
    ensures e == capacityKbpd * 0.0511
  {
    var dailyEmissions := capacityKbpd * 1000.0 * EmissionsIntensity;
    dailyEmissions * 365.0 / 1000000.0
  }

  /** Discounting divides by (1 + discountRate)^year; that power is zero only
      for a rate of -1 in a year after the first. */
  predicate DiscountDefined(discountRate: real, years: nat)
  {
    years <= 1 || discountRate != -1.0
  }

  /** The price in projection year `t` of a price that starts at `basePrice`
      and is multiplied by `growth` every year. */
  function PriceInYear(basePrice: real, growth: real, t: nat): real
  {
    basePrice * Pow(growth, t)
  }

  /** Dollar cost of `emissionsMt` million tonnes at `price` $/t. */
  function AnnualCost(emissionsMt: real, price: real): real
  {
    emissionsMt * price * 1000000.0
  }

  /** A dollar amount of projection year `t` discounted back to year 0. */
  function Discounted(amount: real, discountRate: real, t: nat): real
    requires t == 0 || discountRate != -1.0
  {
    PowNonZero(1.0 + discountRate, t);
    amount / Pow(1.0 + discountRate, t)
  }

  /** The discounted cost of projection year `t`: escalate the price first,
      cost the emissions at it, then discount. */
  function DiscountedCost(emissionsMt: real, basePrice: real, growth: real, discountRate: real, t: nat): (cost: real)
    requires t == 0 || discountRate != -1.0
    ensures t == 0 ==> cost == AnnualCost(emissionsMt, basePrice)
  {
    Discounted(AnnualCost(emissionsMt, PriceInYear(basePrice, growth, t)), discountRate, t)
  }

  /** Net present value in dollars: the discounted costs of years 0 .. years-1.
      With a discount rate of 0 it is the undiscounted escalated total. */
  function Npv(emissionsMt: real, basePrice: real, growth: real, discountRate: real, years: nat): (npv: real)
    requires DiscountDefined(discountRate, years)
  {
    if years == 0 then 0.0
    else Npv(emissionsMt, basePrice, growth, discountRate, years - 1)
         + DiscountedCost(emissionsMt, basePrice, growth, discountRate, years - 1)
  }

  /** The helper's liability in billions of dollars. It prices every tonne the
      sector emits (coverage plays no part) and escalates the price by a fixed
      3% a year. */
  method CalculateCarbonLiability(country: Country, carbonPrice: real, years: nat, discountRate: real)
    returns (npvB: real)
    requires DiscountDefined(discountRate, years)
    ensures npvB * 1000000000.0
            == Npv(AnnualEmissionsMt(country.capacityKbpd), carbonPrice, HelperEscalation, discountRate, years)
    ensures years == 0 ==> npvB == 0.0
  {
    var annualEmissions := AnnualEmissionsMt(country.capacityKbpd);
    var npv := 0.0;
    for year := 0 to years
      invariant npv == Npv(annualEmissions, carbonPrice, HelperEscalation, discountRate, year)
    {
      var price := PriceInYear(carbonPrice, HelperEscalation, year);
      var annualCost := AnnualCost(annualEmissions, price);
      npv := npv + Discounted(annualCost, discountRate, year);
    }
    npvB := npv / 1000000000.0;
  }

  /** One row of the calculator's breakdown; costs in millions of dollars. */
  datatype YearRow = YearRow(year: int, carbonPrice: real, annualCostM: real, discountedCostM: real)

  function DiscountedCostsM(rows: seq<YearRow>): (costs: seq<real>)
    ensures |costs| == |rows|
    ensures forall k :: 0 <= k < |rows| ==> costs[k] == rows[k].discountedCostM
  {
    seq(|rows|, k requires 0 <= k < |rows| => rows[k].discountedCostM)
  }

  /** Emissions (Mt) the pricing covers at `coveragePct` percent coverage. */
  function CoveredEmissionsMt(country: Country, coveragePct: real): (covered: real)
    ensures coveragePct == 100.0 ==> covered == AnnualEmissionsMt(country.capacityKbpd)
    ensures country.capacityKbpd >= 0.0 && 0.0 <= coveragePct <= 100.0 ==>
      0.0 <= covered <= AnnualEmissionsMt(country.capacityKbpd)
  {
    var emissions := AnnualEmissionsMt(country.capacityKbpd);
    if country.capacityKbpd >= 0.0 && 0.0 <= coveragePct <= 100.0 then
      ScaleByFraction(emissions, coveragePct / 100.0);
      emissions * (coveragePct / 100.0)
    else
      emissions * (coveragePct / 100.0)
  }

  /** The calculator's opening base price: the country's 2024 price when it
      is positive, otherwise 25 $/t. The input box accepts 0 .. 200 $/t, so
      a country priced above 200 $/t cannot open the calculator. */
  function CalculatorDefaultPrice(country: Country): (p: real)
    requires country.carbonPrice2024 <= 200.0
    ensures 0.0 < p <= 200.0
    ensures country.carbonPrice2024 > 0.0 ==> p == country.carbonPrice2024
    ensures country.carbonPrice2024 <= 0.0 ==> p == CalculatorFloorPrice
  {
    PriceOrFloor(country.carbonPrice2024, CalculatorFloorPrice)
  }

  /** The coverage slider's opening value: the country's own coverage, which
      the slider accepts only within its 0 .. 100 % range. At that value the
      covered emissions lie between none and all of the sector's. */
  function CalculatorDefaultCoverage(country: Country): (pct: real)
    requires 0.0 <= country.coveragePct <= 100.0
    ensures pct == country.coveragePct
    ensures 0.0 <= pct <= 100.0
    ensures country.capacityKbpd >= 0.0 ==>
      0.0 <= CoveredEmissionsMt(country, pct) <= AnnualEmissionsMt(country.capacityKbpd)
  {
    country.coveragePct
  }

  /** Row k of a breakdown in the engine's terms: calendar year 2025 + k, the
      base price escalated k times, the covered emissions costed at that
      price, and the engine's discounted cost of year k (both in $M). */
  predicate RowAgreesWithEngine(row: YearRow, coveredMt: real, basePrice: real, growth: real,
                                discountRate: real, k: nat)
    requires k == 0 || discountRate != -1.0
  {
    && row.year == FirstProjectionYear + k
    && row.carbonPrice == PriceInYear(basePrice, growth, k)
    && row.annualCostM * 1000000.0 == AnnualCost(coveredMt, row.carbonPrice)
    && row.discountedCostM * 1000000.0 == DiscountedCost(coveredMt, basePrice, growth, discountRate, k)
  }

  /** The liability calculator: for each of `analysisYears` years from 2025 the
      escalated price, the covered cost and its discounted value; the total
      liability in billions, and the government's exposure through its
      ownership share. */
  method LiabilityBreakdown(country: Country, baseCarbonPrice: real, priceEscalationPct: real,
                            coveragePct: real, discountRate: real, analysisYears: nat)
    returns (yearlyData: seq<YearRow>, npvLiabilityB: real, govtExposureB: real)
    requires DiscountDefined(discountRate, analysisYears)
    ensures |yearlyData| == analysisYears
    ensures forall k :: 0 <= k < analysisYears ==>
      RowAgreesWithEngine(yearlyData[k], CoveredEmissionsMt(country, coveragePct), baseCarbonPrice,
                          1.0 + priceEscalationPct / 100.0, discountRate, k)
    ensures npvLiabilityB * 1000000000.0
            == Npv(CoveredEmissionsMt(country, coveragePct), baseCarbonPrice,
                   1.0 + priceEscalationPct / 100.0, discountRate, analysisYears)
    // the breakdown's discounted costs add up to the headline liability
    ensures Sum(DiscountedCostsM(yearlyData)) == npvLiabilityB * 1000.0
    ensures govtExposureB == npvLiabilityB * country.govtOwnership
  {
    var growth := 1.0 + priceEscalationPct / 100.0;
    var coveredEmissions := CoveredEmissionsMt(country, coveragePct);
    var npvLiability := 0.0;
    yearlyData := [];
    for year := 0 to analysisYears
      invariant |yearlyData| == year
      invariant forall k :: 0 <= k < year ==>
        RowAgreesWithEngine(yearlyData[k], coveredEmissions, baseCarbonPrice, growth, discountRate, k)
      invariant npvLiability == Npv(coveredEmissions, baseCarbonPrice, growth, discountRate, year)
      invariant Sum(DiscountedCostsM(yearlyData)) * 1000000.0 == npvLiability
    {
      var price := PriceInYear(baseCarbonPrice, growth, year);
      var annualCost := AnnualCost(coveredEmissions, price);
      var discountedCost := Discounted(annualCost, discountRate, year);
      npvLiability := npvLiability + discountedCost;
      var row := YearRow(FirstProjectionYear + year, price, annualCost / 1000000.0, discountedCost / 1000000.0);
      assert RowAgreesWithEngine(row, coveredEmissions, baseCarbonPrice, growth, discountRate, year);
      assert DiscountedCostsM(yearlyData + [row]) == DiscountedCostsM(yearlyData) + [row.discountedCostM];
      SumAppend(DiscountedCostsM(yearlyData), row.discountedCostM);
      yearlyData := yearlyData + [row];
    }
    npvLiabilityB := npvLiability / 1000000000.0;
    govtExposureB := npvLiabilityB * country.govtOwnership;
  }

  /** The first row of a breakdown carries the base price undiscounted, and a
      one-year liability is exactly that first-year cost. */
  lemma FirstYearUndiscounted(row: YearRow, coveredMt: real, basePrice: real, growth: real, discountRate: real)
    requires RowAgreesWithEngine(row, coveredMt, basePrice, growth, discountRate, 0)
    ensures row.carbonPrice == basePrice
    ensures row.discountedCostM == row.annualCostM
    ensures Npv(coveredMt, basePrice, growth, discountRate, 1) == row.annualCostM * 1000000.0
  {
    assert Pow(growth, 0) == 1.0 && Pow(1.0 + discountRate, 0) == 1.0;
    assert Npv(coveredMt, basePrice, growth, discountRate, 1)
           == DiscountedCost(coveredMt, basePrice, growth, discountRate, 0);
  }

  /** At full coverage and 3% escalation the calculator's liability is the
      helper's: both price all emissions and grow the price by 1.03 a year. */
  lemma CalculatorAtHelperSettings(country: Country, basePrice: real, discountRate: real, years: nat)
    requires DiscountDefined(discountRate, years)
    ensures CoveredEmissionsMt(country, 100.0) == AnnualEmissionsMt(country.capacityKbpd)
    ensures Npv(CoveredEmissionsMt(country, 100.0), basePrice, 1.0 + 3.0 / 100.0, discountRate, years)
            == Npv(AnnualEmissionsMt(country.capacityKbpd), basePrice, HelperEscalation, discountRate, years)
  {
  }

  /** One bar pair of the regional comparison chart. */
  datatype ComparisonRow = ComparisonRow(country: string, liabilityB: real, govtExposureB: real)

  /** A comparison row for `country`: its liability in billions is the
      helper's at the country's 2024 price, or at 15 $/t where it has none;
      the exposure is the government's share of it; and the liability is never
      negative when the rate is above -1 and the capacity is not negative. */
  predicate ComparisonRowFor(row: ComparisonRow, country: Country, analysisYears: nat, discountRate: real)
    requires DiscountDefined(discountRate, analysisYears)
  {
    && row.country == country.name
    && row.liabilityB * 1000000000.0
       == Npv(AnnualEmissionsMt(country.capacityKbpd),
              PriceOrFloor(country.carbonPrice2024, ComparisonFloorPrice),
              HelperEscalation, discountRate, analysisYears)
    && row.govtExposureB == row.liabilityB * country.govtOwnership
    && (discountRate > -1.0 && country.capacityKbpd >= 0.0 ==> row.liabilityB >= 0.0)
  }

  /** The regional comparison: one row per country, in order. */
  method RegionalComparison(countries: seq<Country>, analysisYears: nat, discountRate: real)
    returns (comparisonData: seq<ComparisonRow>)
    requires DiscountDefined(discountRate, analysisYears)
    ensures |comparisonData| == |countries|
    ensures forall i :: 0 <= i < |countries| ==>
      ComparisonRowFor(comparisonData[i], countries[i], analysisYears, discountRate)
  {
    comparisonData := [];
    for i := 0 to |countries|
      invariant |comparisonData| == i
      invariant forall j :: 0 <= j < i ==>
        ComparisonRowFor(comparisonData[j], countries[j], analysisYears, discountRate)
    {
      var data := countries[i];
      var price := PriceOrFloor(data.carbonPrice2024, ComparisonFloorPrice);
      var liability := CalculateCarbonLiability(data, price, analysisYears, discountRate);
      if discountRate > -1.0 && data.capacityKbpd >= 0.0 {
        NpvNonNegative(AnnualEmissionsMt(data.capacityKbpd), price, HelperEscalation, discountRate, analysisYears);
      }
      var row := ComparisonRow(data.name, liability, liability * data.govtOwnership);
      assert ComparisonRowFor(row, data, analysisYears, discountRate);
      comparisonData := comparisonData + [row];
    }
  }

  lemma DiscountedCostNonNegative(emissionsMt: real, basePrice: real, growth: real, discountRate: real, t: nat)
    requires emissionsMt >= 0.0 && basePrice >= 0.0 && growth >= 0.0 && discountRate > -1.0
    ensures AnnualCost(emissionsMt, PriceInYear(basePrice, growth, t)) >= 0.0
    ensures DiscountedCost(emissionsMt, basePrice, growth, discountRate, t) >= 0.0
  {
    PowNonNegative(growth, t);
    MulNonNegative(basePrice, Pow(growth, t));
    MulNonNegative(emissionsMt, basePrice * Pow(growth, t));
    PowPositive(1.0 + discountRate, t);
  }

  /** With non-negative emissions, price and growth and a rate above -1, the
      liability is never negative. */
  lemma {:induction false} NpvNonNegative(emissionsMt: real, basePrice: real, growth: real, discountRate: real, years: nat)
    requires emissionsMt >= 0.0 && basePrice >= 0.0 && growth >= 0.0 && discountRate > -1.0
    ensures Npv(emissionsMt, basePrice, growth, discountRate, years) >= 0.0
  {
    if years > 0 {
      NpvNonNegative(emissionsMt, basePrice, growth, discountRate, years - 1);
      DiscountedCostNonNegative(emissionsMt, basePrice, growth, discountRate, years - 1);
    }
  }

  /** At a non-negative discount rate the liability never exceeds the
      undiscounted escalated total (the same sum at rate 0). */
  lemma {:induction false} NpvAtMostUndiscounted(emissionsMt: real, basePrice: real, growth: real, discountRate: real, years: nat)
    requires emissionsMt >= 0.0 && basePrice >= 0.0 && growth >= 0.0 && discountRate >= 0.0
    ensures 0.0 <= Npv(emissionsMt, basePrice, growth, discountRate, years)
                <= Npv(emissionsMt, basePrice, growth, 0.0, years)
  {
    if years > 0 {
      var t := years - 1;
      NpvAtMostUndiscounted(emissionsMt, basePrice, growth, discountRate, t);
      DiscountedCostNonNegative(emissionsMt, basePrice, growth, discountRate, t);
      PowAtLeastOne(1.0 + discountRate, t);
      PowOfOne(t);
      DivideByAtLeastOne(AnnualCost(emissionsMt, PriceInYear(basePrice, growth, t)), Pow(1.0 + discountRate, t));
    }
  }

  /** A higher rate discounts every year after the first strictly more. */
  lemma DiscountedCostDecreasingInRate(emissionsMt: real, basePrice: real, growth: real,
                                       lowRate: real, highRate: real, t: nat)
    requires emissionsMt > 0.0 && basePrice > 0.0 && growth > 0.0 && -1.0 < lowRate < highRate
    ensures t == 0 ==> DiscountedCost(emissionsMt, basePrice, growth, highRate, t)
                       == DiscountedCost(emissionsMt, basePrice, growth, lowRate, t)
    ensures t > 0 ==> DiscountedCost(emissionsMt, basePrice, growth, highRate, t)
                      < DiscountedCost(emissionsMt, basePrice, growth, lowRate, t)
  {
    PowPositive(growth, t);
    MulPositive(basePrice, Pow(growth, t));
    MulPositive(emissionsMt, basePrice * Pow(growth, t));
    PowPositive(1.0 + lowRate, t);
    PowStrictlyIncreasingInBase(1.0 + lowRate, 1.0 + highRate, t);
    if t > 0 {
      DivideByLarger(AnnualCost(emissionsMt, PriceInYear(basePrice, growth, t)),
                     Pow(1.0 + lowRate, t), Pow(1.0 + highRate, t));
    }
  }

  /** Over two or more years, with positive emissions, price and growth, the
      liability strictly decreases as the discount rate rises. In particular
      any positive rate gives strictly less than the undiscounted total. */
  lemma {:induction false} NpvStrictlyDecreasingInRate(emissionsMt: real, basePrice: real, growth: real,
                                                       lowRate: real, highRate: real, years: nat)
    requires emissionsMt > 0.0 && basePrice > 0.0 && growth > 0.0 && -1.0 < lowRate < highRate
    requires years >= 2
    ensures Npv(emissionsMt, basePrice, growth, highRate, years)
            < Npv(emissionsMt, basePrice, growth, lowRate, years)
  {
    var t := years - 1;
    DiscountedCostDecreasingInRate(emissionsMt, basePrice, growth, lowRate, highRate, t);
    if t >= 2 {
      NpvStrictlyDecreasingInRate(emissionsMt, basePrice, growth, lowRate, highRate, t);
    } else {
      DiscountedCostDecreasingInRate(emissionsMt, basePrice, growth, lowRate, highRate, 0);
      assert Npv(emissionsMt, basePrice, growth, highRate, 1)
             == DiscountedCost(emissionsMt, basePrice, growth, highRate, 0);
      assert Npv(emissionsMt, basePrice, growth, lowRate, 1)
             == DiscountedCost(emissionsMt, basePrice, growth, lowRate, 0);
    }
  }

  /** A higher base price costs every year strictly more. */
  lemma DiscountedCostIncreasingInPrice(emissionsMt: real, lowPrice: real, highPrice: real,
                                        growth: real, discountRate: real, t: nat)
    requires emissionsMt > 0.0 && growth > 0.0 && discountRate > -1.0 && lowPrice < highPrice
    ensures DiscountedCost(emissionsMt, lowPrice, growth, discountRate, t)
            < DiscountedCost(emissionsMt, highPrice, growth, discountRate, t)
  {
    var g := Pow(growth, t);
    var d := Pow(1.0 + discountRate, t);
    PowPositive(growth, t);
    PowPositive(1.0 + discountRate, t);
    assert lowPrice * g < highPrice * g;
    ScaleRealLt(emissionsMt, lowPrice * g, highPrice * g);
    var lowCost := AnnualCost(emissionsMt, PriceInYear(lowPrice, growth, t));
    var highCost := AnnualCost(emissionsMt, PriceInYear(highPrice, growth, t));
    assert lowCost < highCost;
    assert lowCost / d < highCost / d;
  }

  /** Over at least one year, with positive emissions and growth and a rate
      above -1, the liability strictly increases with the base price. */
  lemma {:induction false} NpvStrictlyIncreasingInPrice(emissionsMt: real, lowPrice: real, highPrice: real,
                                                        growth: real, discountRate: real, years: nat)
    requires emissionsMt > 0.0 && growth > 0.0 && discountRate > -1.0 && lowPrice < highPrice
    requires years >= 1
    ensures Npv(emissionsMt, lowPrice, growth, discountRate, years)
            < Npv(emissionsMt, highPrice, growth, discountRate, years)
  {
    DiscountedCostIncreasingInPrice(emissionsMt, lowPrice, highPrice, growth, discountRate, years - 1);
    if years >= 2 {
      NpvStrictlyIncreasingInPrice(emissionsMt, lowPrice, highPrice, growth, discountRate, years - 1);
    }
  }

  /** For a country without a mandatory price and with refining capacity, the
      calculator opened at its default price and run at the helper's settings
      (3% escalation, full coverage) reports a strictly larger liability than
      the regional comparison, which assumes 15 $/t against the calculator's
      25 $/t. */
  lemma UnpricedDefaultsDisagree(country: Country, discountRate: real, years: nat)
    requires country.carbonPrice2024 <= 0.0 && country.capacityKbpd > 0.0
    requires discountRate > -1.0 && years >= 1
    ensures Npv(AnnualEmissionsMt(country.capacityKbpd), PriceOrFloor(country.carbonPrice2024, ComparisonFloorPrice),
                HelperEscalation, discountRate, years)
            < Npv(CoveredEmissionsMt(country, 100.0), CalculatorDefaultPrice(country),
                  1.0 + 3.0 / 100.0, discountRate, years)
  {
    CalculatorAtHelperSettings(country, CalculatorDefaultPrice(country), discountRate, years);
    NpvStrictlyIncreasingInPrice(AnnualEmissionsMt(country.capacityKbpd), ComparisonFloorPrice,
                                 CalculatorFloorPrice, HelperEscalation, discountRate, years);
  }
}
