/** Policy-divergence headline metrics over the country table: how far apart
    the carbon-pricing launch years are, and how far apart the mandatory 2024
    prices are. */
module Divergence {
  import opened Numeric
  import opened ReferenceData

  datatype DivergenceMetrics = DivergenceMetrics(
    timelineSpread: int,  // years between the earliest and latest launch
    priceSpread: real,    // highest mandatory price over the lowest
    maxPrice: real,
    minPrice: real)

  /** The 2024 price of every country, in table order. */
  function Prices2024(countries: seq<Country>): (prices: seq<real>)
    ensures |prices| == |countries|
    ensures forall i :: 0 <= i < |countries| ==> prices[i] == countries[i].carbonPrice2024
  {
    seq(|countries|, i requires 0 <= i < |countries| => countries[i].carbonPrice2024)
  }

  /** The launch year of every country's carbon pricing, in table order. */
  function LaunchYears(countries: seq<Country>): (years: seq<int>)
    ensures |years| == |countries|
    ensures forall i :: 0 <= i < |countries| ==> years[i] == countries[i].etsLaunchYear
  {
    seq(|countries|, i requires 0 <= i < |countries| => countries[i].etsLaunchYear)
  }

  /** Some country has a mandatory (positive) 2024 price. Without one the
      source's `min` over the empty price list raises (the condition of
      the ratio is evaluated first). */
  predicate SomeMandatoryPrice(countries: seq<Country>)
  {
    exists i :: 0 <= i < |countries| && countries[i].carbonPrice2024 > 0.0
  }

  lemma MandatoryPriceListed(countries: seq<Country>)
    requires SomeMandatoryPrice(countries)
    ensures exists i :: 0 <= i < |countries| && Prices2024(countries)[i] > 0.0
  {
    var i :| 0 <= i < |countries| && countries[i].carbonPrice2024 > 0.0;
    assert Prices2024(countries)[i] > 0.0;
  }

  /** The metrics as the dashboard computes them: launch-year gap, the ratio
      of the highest to the lowest positive 2024 price, the highest positive
      price, and the lowest positive price (taken over the positive prices
      filtered a second time). */
  function GetDivergenceMetrics(countries: seq<Country>): (m: DivergenceMetrics)
    requires SomeMandatoryPrice(countries)
    ensures m.timelineSpread >= 0
    ensures 0.0 < m.minPrice <= m.maxPrice
    ensures m.priceSpread >= 1.0
  {
    var all := Prices2024(countries);
    var years := LaunchYears(countries);
    MandatoryPriceListed(countries);
    PositivesNonEmpty(all);
    PositivesIdempotent(all);
    MinPositiveAtMostMaxPositive(all);
    var prices := Positives(all);
    DivergenceMetrics(
      MaxInt(years) - MinInt(years),
      PositiveSpread(all),
      MaxReal(prices),
      MinReal(Positives(prices)))
  }

  /** The launch-year gap is the largest difference between any two
      countries' launch years. */
  lemma TimelineSpreadIsLargestGap(countries: seq<Country>)
    requires SomeMandatoryPrice(countries)
    ensures forall i, j :: 0 <= i < |countries| && 0 <= j < |countries| ==>
      countries[i].etsLaunchYear - countries[j].etsLaunchYear <= GetDivergenceMetrics(countries).timelineSpread
    ensures exists i, j :: (0 <= i < |countries| && 0 <= j < |countries| &&
      countries[i].etsLaunchYear - countries[j].etsLaunchYear == GetDivergenceMetrics(countries).timelineSpread)
  {
    var years := LaunchYears(countries);
    var hi :| 0 <= hi < |years| && years[hi] == MaxInt(years);
    var lo :| 0 <= lo < |years| && years[lo] == MinInt(years);
    assert countries[hi].etsLaunchYear - countries[lo].etsLaunchYear
           == GetDivergenceMetrics(countries).timelineSpread;
  }

  /** The maximum is the highest 2024 price, and some country has it. */
  lemma MaxPriceIsHighest(countries: seq<Country>)
    requires SomeMandatoryPrice(countries)
    ensures forall i :: 0 <= i < |countries| ==>
      countries[i].carbonPrice2024 <= GetDivergenceMetrics(countries).maxPrice
    ensures exists i :: (0 <= i < |countries| &&
      countries[i].carbonPrice2024 == GetDivergenceMetrics(countries).maxPrice)
  {
    var all := Prices2024(countries);
    MandatoryPriceListed(countries);
    assert GetDivergenceMetrics(countries).maxPrice == MaxPositive(all);
    var a :| 0 <= a < |all| && all[a] == MaxPositive(all);
    assert countries[a].carbonPrice2024 == MaxPositive(all);
  }

  /** The minimum is the lowest positive 2024 price, and some country has it:
      a country without a mandatory price never counts as the minimum. */
  lemma MinPriceIsLowestMandatory(countries: seq<Country>)
    requires SomeMandatoryPrice(countries)
    ensures forall i :: 0 <= i < |countries| && countries[i].carbonPrice2024 > 0.0 ==>
      GetDivergenceMetrics(countries).minPrice <= countries[i].carbonPrice2024
    ensures exists i :: (0 <= i < |countries| &&
      countries[i].carbonPrice2024 == GetDivergenceMetrics(countries).minPrice)
  {
    var all := Prices2024(countries);
    MandatoryPriceListed(countries);
    PositivesIdempotent(all);
    assert GetDivergenceMetrics(countries).minPrice == MinPositive(all);
    var b :| 0 <= b < |all| && all[b] == MinPositive(all);
    assert countries[b].carbonPrice2024 == MinPositive(all);
  }

  /** The price spread is the maximum over the minimum. */
  lemma PriceSpreadIsRatio(countries: seq<Country>)
    requires SomeMandatoryPrice(countries)
    ensures GetDivergenceMetrics(countries).priceSpread
            == Ratio(GetDivergenceMetrics(countries).maxPrice, GetDivergenceMetrics(countries).minPrice)
  {
    var all := Prices2024(countries);
    MandatoryPriceListed(countries);
    PositivesIdempotent(all);
  }

  lemma ShippedLaunchExtremes(years: seq<int>)
    requires years == [2019, 2025, 2023, 2030, 2028]
    ensures MaxInt(years) == 2030 && MinInt(years) == 2019
  {
    var i :| 0 <= i < 5 && years[i] == MaxInt(years);
    assert years[3] <= MaxInt(years);
    var j :| 0 <= j < 5 && years[j] == MinInt(years);
    assert MinInt(years) <= years[0];
  }

  lemma ShippedPriceExtremes(all: seq<real>)
    requires all == [59.0, 35.0, 25.0, 0.0, 20.0]
    ensures exists i :: 0 <= i < |all| && all[i] > 0.0
    ensures MaxPositive(all) == 59.0 && MinPositive(all) == 20.0
  {
    assert all[0] > 0.0;
    var i :| 0 <= i < 5 && all[i] == MaxPositive(all);
    assert all[0] <= MaxPositive(all);
    var j :| 0 <= j < 5 && all[j] == MinPositive(all);
    assert MinPositive(all) <= all[4];
  }

  /** The metrics of any table with the shipped launch years and 2024
      prices. */
  lemma DivergenceOfShippedFigures(countries: seq<Country>)
    requires Prices2024(countries) == [59.0, 35.0, 25.0, 0.0, 20.0]
    requires LaunchYears(countries) == [2019, 2025, 2023, 2030, 2028]
    ensures SomeMandatoryPrice(countries)
    ensures GetDivergenceMetrics(countries) == DivergenceMetrics(11, 59.0 / 20.0, 59.0, 20.0)
  {
    var all := Prices2024(countries);
    assert countries[0].carbonPrice2024 > 0.0;
    ShippedLaunchExtremes(LaunchYears(countries));
    ShippedPriceExtremes(all);
    PositivesIdempotent(all);
  }

  /** On the shipped table: launches span 2019 (Singapore) to 2030 (Malaysia),
      Malaysia's zero price is left out, and the prices run from Vietnam's 20
      to Singapore's 59, a spread of 2.95. */
  lemma ShippedDivergence()
    ensures SomeMandatoryPrice(ShippedCountries)
    ensures GetDivergenceMetrics(ShippedCountries) == DivergenceMetrics(11, 59.0 / 20.0, 59.0, 20.0)
  {
    assert Prices2024(ShippedCountries) == [59.0, 35.0, 25.0, 0.0, 20.0];
    assert LaunchYears(ShippedCountries) == [2019, 2025, 2023, 2030, 2028];
    DivergenceOfShippedFigures(ShippedCountries);
  }
}
