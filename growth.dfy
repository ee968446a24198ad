/** The price-trajectory chart: each country's price runs in a straight line
    from its 2024 price (15 $/t where it has none) to its 2030 target, and
    grows by 3% a year after 2030. */
module Growth {
  import opened Numeric
  import opened ReferenceData
  import opened PriceDefaults
  import Convergence

  /** Growth factor after the 2030 target: 3% a year. */
  const PostTargetGrowth: real := 1.03

  /** The chart's price in `year` for a country that starts at `base` in 2024
      and reaches `target` in 2030. */
  function GrowthPriceAt(base: real, target: real, year: int): real
  {
    if year <= 2030 then Lerp(base, target, (year - 2024) as real / 6.0)
    else target * Pow(PostTargetGrowth, year - 2030)
  }

  /** `prices` is the chart line from `base` to `target` over 2024 .. 2050. */
  predicate IsGrowthLine(prices: seq<real>, base: real, target: real)
  {
    && |prices| == Convergence.LastYear - Convergence.FirstYear + 1
    && forall k :: 0 <= k < |prices| ==> prices[k] == GrowthPriceAt(base, target, Convergence.FirstYear + k)
  }

  /** One country's chart line, year by year. */
  method GrowthLine(base: real, target: real) returns (prices: seq<real>)
    ensures IsGrowthLine(prices, base, target)
  {
    prices := [];
    for year := Convergence.FirstYear to Convergence.LastYear + 1
      invariant |prices| == year - Convergence.FirstYear
      invariant forall k :: 0 <= k < |prices| ==> prices[k] == GrowthPriceAt(base, target, Convergence.FirstYear + k)
    {
      var price;
      if year <= 2030 {
        var progress := (year - 2024) as real / 6.0;
        price := Lerp(base, target, progress);
      } else {
        price := target * Pow(PostTargetGrowth, year - 2030);
      }
      prices := prices + [price];
    }
  }

  /** The chart lines of every country, in table order. Each starts from the
      country's 2024 price, or from 15 $/t where that is not positive. */
  method PriceTrajectories(countries: seq<Country>) returns (trajectories: seq<seq<real>>)
    ensures |trajectories| == |countries|
    ensures forall i :: 0 <= i < |countries| ==>
      IsGrowthLine(trajectories[i], PriceOrFloor(countries[i].carbonPrice2024, ComparisonFloorPrice),
                   countries[i].carbonPrice2030)
  {
    trajectories := [];
    for i := 0 to |countries|
      invariant |trajectories| == i
      invariant forall j :: 0 <= j < i ==>
        IsGrowthLine(trajectories[j], PriceOrFloor(countries[j].carbonPrice2024, ComparisonFloorPrice),
                     countries[j].carbonPrice2030)
    {
      var data := countries[i];
      var base := PriceOrFloor(data.carbonPrice2024, ComparisonFloorPrice);
      var prices := GrowthLine(base, data.carbonPrice2030);
      trajectories := trajectories + [prices];
    }
  }

  /** The line starts at the base in 2024, meets the target in 2030 and is
      3% above it in 2031, so there is no jump where the two pieces meet. */
  lemma GrowthAnchors(base: real, target: real)
    ensures GrowthPriceAt(base, target, 2024) == base
    ensures GrowthPriceAt(base, target, 2030) == target
    ensures GrowthPriceAt(base, target, 2031) == target * PostTargetGrowth
  {
    LerpBetween(base, target, 0.0);
    LerpBetween(base, target, 1.0);
    assert Pow(PostTargetGrowth, 1) == PostTargetGrowth * Pow(PostTargetGrowth, 0);
  }

  /** From 2024 to 2030 the price lies between the base and the target. */
  lemma GrowthBetweenAnchors(base: real, target: real, year: int)
    requires 2024 <= year <= 2030
    ensures base <= target ==> base <= GrowthPriceAt(base, target, year) <= target
    ensures target <= base ==> target <= GrowthPriceAt(base, target, year) <= base
  {
    LerpBetween(base, target, (year - 2024) as real / 6.0);
  }

  /** From 2030 on the price is the target grown by 3% a year. */
  lemma PriceAfterTarget(base: real, target: real, year: int)
    requires year >= 2030
    ensures GrowthPriceAt(base, target, year) == target * Pow(PostTargetGrowth, year - 2030)
  {
    if year == 2030 {
      LerpBetween(base, target, 1.0);
    }
  }

  /** After 2030 a positive target grows strictly from one year to the
      next. */
  lemma PriceStepAfterTarget(base: real, target: real, year: int)
    requires target > 0.0 && year >= 2030
    ensures GrowthPriceAt(base, target, year) < GrowthPriceAt(base, target, year + 1)
  {
    var now := Pow(PostTargetGrowth, year - 2030);
    var next := Pow(PostTargetGrowth, year + 1 - 2030);
    PowStepIncreases(PostTargetGrowth, year - 2030);
    ScaleRealLt(target, now, next);
    PriceAfterTarget(base, target, year);
    PriceAfterTarget(base, target, year + 1);
  }

  /** After 2030 a positive target grows strictly every year. */
  lemma {:induction false} GrowthStrictlyIncreasingAfterTarget(base: real, target: real, year1: int, year2: int)
    requires target > 0.0
    requires 2030 <= year1 < year2
    ensures GrowthPriceAt(base, target, year1) < GrowthPriceAt(base, target, year2)
    decreases year2 - year1
  {
    PriceStepAfterTarget(base, target, year2 - 1);
    if year1 < year2 - 1 {
      GrowthStrictlyIncreasingAfterTarget(base, target, year1, year2 - 1);
    }
  }

  /** A country whose target is at least its base and not negative sees its
      chart price never fall from one year to a later one. */
  lemma GrowthMonotone(base: real, target: real, year1: int, year2: int)
    requires base <= target && 0.0 <= target
    requires year1 <= year2
    ensures GrowthPriceAt(base, target, year1) <= GrowthPriceAt(base, target, year2)
  {
    if year2 <= 2030 {
      LerpMonotone(base, target, (year1 - 2024) as real / 6.0, (year2 - 2024) as real / 6.0);
    } else if year1 >= 2030 {
      if year1 < year2 && target > 0.0 {
        GrowthStrictlyIncreasingAfterTarget(base, target, year1, year2);
      } else if target == 0.0 {
        PriceAfterTarget(base, target, year1);
        PriceAfterTarget(base, target, year2);
      }
    } else {
      LerpMonotone(base, target, (year1 - 2024) as real / 6.0, 1.0);
      LerpBetween(base, target, 1.0);
      PriceAfterTarget(base, target, year2);
      PowAtLeastOne(PostTargetGrowth, year2 - 2030);
      ScaleRealLe(target, 1.0, Pow(PostTargetGrowth, year2 - 2030));
    }
  }
}
