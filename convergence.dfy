/** The carbon-price convergence simulation: every country's price moves
    along straight lines between its 2024 price and its 2030 and 2045
    targets, under a baseline, an accelerated or a delayed scenario, and
    each year's spread is the highest positive price over the lowest. */
module Convergence {
  import opened Numeric

  /** A country's price anchors ($/tCO2): the 2024 price and the 2030 and
      2045 targets. */
  datatype Anchors = Anchors(p2024: real, p2030: real, p2045: real)

  datatype Trajectory = Trajectory(country: string, anchors: Anchors)

  /** One year of the simulation: the prices in trajectory order and their
      spread. */
  datatype ConvergenceRow = ConvergenceRow(year: int, prices: seq<real>, spread: real)

  /** The years both price charts cover: `range(2024, 2051)`. */
  const FirstYear: int := 2024
  const LastYear: int := 2050

  /** The baseline anchors of the simulation, in table order. */
  const BaseTrajectories: seq<Trajectory> := [
    Trajectory("Singapore", Anchors(59.0, 75.0, 95.0)),
    Trajectory("Thailand", Anchors(35.0, 50.0, 85.0)),
    Trajectory("Indonesia", Anchors(25.0, 35.0, 75.0)),
    Trajectory("Malaysia", Anchors(0.0, 15.0, 70.0)),
    Trajectory("Vietnam", Anchors(20.0, 40.0, 80.0))
  ]

  /** The anchors after the scenario is applied: "accelerated" raises the
      2030 target by 20% and the 2045 target by 10%, "delayed" lowers them
      by 20% and 10%; any other name leaves them alone. */
  function ScaleAnchors(a: Anchors, scenario: string): (scaled: Anchors)
    ensures scaled.p2024 == a.p2024
    ensures scenario != "accelerated" && scenario != "delayed" ==> scaled == a
  {
    if scenario == "accelerated" then Anchors(a.p2024, a.p2030 * 1.2, a.p2045 * 1.1)
    else if scenario == "delayed" then Anchors(a.p2024, a.p2030 * 0.8, a.p2045 * 0.9)
    else a
  }

  function ScaledTrajectories(trajectories: seq<Trajectory>, scenario: string): (scaled: seq<Trajectory>)
    ensures |scaled| == |trajectories|
    ensures forall i :: 0 <= i < |trajectories| ==>
      scaled[i] == Trajectory(trajectories[i].country, ScaleAnchors(trajectories[i].anchors, scenario))
  {
    seq(|trajectories|, i requires 0 <= i < |trajectories| =>
      Trajectory(trajectories[i].country, ScaleAnchors(trajectories[i].anchors, scenario)))
  }

  /** A country's price in `year`: its 2024 price up to 2024, then straight
      lines to the 2030 and the 2045 targets, and the 2045 target after
      that. */
  function PriceAt(a: Anchors, year: int): (price: real)
    ensures year == 2024 ==> price == a.p2024
    ensures year == 2030 ==> price == a.p2030
    ensures year == 2045 ==> price == a.p2045
  {
    if year <= 2024 then a.p2024
    else if year <= 2030 then
      LerpBetween(a.p2024, a.p2030, (year - 2024) as real / 6.0);
      Lerp(a.p2024, a.p2030, (year - 2024) as real / 6.0)
    else if year <= 2045 then
      LerpBetween(a.p2030, a.p2045, (year - 2030) as real / 15.0);
      Lerp(a.p2030, a.p2045, (year - 2030) as real / 15.0)
    else a.p2045
  }

  function PricesAt(trajectories: seq<Trajectory>, year: int): (prices: seq<real>)
    ensures |prices| == |trajectories|
    ensures forall i :: 0 <= i < |trajectories| ==> prices[i] == PriceAt(trajectories[i].anchors, year)
  {
    seq(|trajectories|, i requires 0 <= i < |trajectories| => PriceAt(trajectories[i].anchors, year))
  }

  /** Some country has a positive price in `year`. */
  predicate ActiveAt(trajectories: seq<Trajectory>, year: int)
  {
    exists i :: 0 <= i < |trajectories| && PriceAt(trajectories[i].anchors, year) > 0.0
  }

  /** Every simulated year has a positive price; without one the source's
      `min` over the empty list of active prices raises. */
  predicate ActiveEveryYear(trajectories: seq<Trajectory>)
  {
    forall year :: FirstYear <= year <= LastYear ==> ActiveAt(trajectories, year)
  }

  /** Row `year` of the simulation over `trajectories`: the prices in order,
      and their spread (highest positive price over lowest). */
  predicate RowAt(row: ConvergenceRow, trajectories: seq<Trajectory>, year: int)
  {
    && row.year == year
    && row.prices == PricesAt(trajectories, year)
    && (exists i :: 0 <= i < |row.prices| && row.prices[i] > 0.0)
    && row.spread == PositiveSpread(row.prices)
  }

  lemma ActivePricesPositive(trajectories: seq<Trajectory>, year: int)
    requires ActiveAt(trajectories, year)
    ensures exists i :: 0 <= i < |trajectories| && PricesAt(trajectories, year)[i] > 0.0
  {
    var i :| 0 <= i < |trajectories| && PriceAt(trajectories[i].anchors, year) > 0.0;
    assert PricesAt(trajectories, year)[i] > 0.0;
  }

  /** The scenario step of the simulation: scale every country's targets in
      place. */
  method ApplyScenario(trajectories: seq<Trajectory>, scenario: string)
    returns (scaled: seq<Trajectory>)
    ensures scaled == ScaledTrajectories(trajectories, scenario)
  {
    scaled := trajectories;
    if scenario == "accelerated" {
      for c := 0 to |scaled|
        invariant |scaled| == |trajectories|
        invariant forall j :: 0 <= j < c ==>
          scaled[j] == Trajectory(trajectories[j].country, ScaleAnchors(trajectories[j].anchors, scenario))
        invariant forall j :: c <= j < |scaled| ==> scaled[j] == trajectories[j]
      {
        var a := scaled[c].anchors;
        scaled := scaled[c := scaled[c].(anchors := a.(p2030 := a.p2030 * 1.2, p2045 := a.p2045 * 1.1))];
      }
    } else if scenario == "delayed" {
      for c := 0 to |scaled|
        invariant |scaled| == |trajectories|
        invariant forall j :: 0 <= j < c ==>
          scaled[j] == Trajectory(trajectories[j].country, ScaleAnchors(trajectories[j].anchors, scenario))
        invariant forall j :: c <= j < |scaled| ==> scaled[j] == trajectories[j]
      {
        var a := scaled[c].anchors;
        scaled := scaled[c := scaled[c].(anchors := a.(p2030 := a.p2030 * 0.8, p2045 := a.p2045 * 0.9))];
      }
    }
  }

  /** One year's row: every country's price in order, then the spread over
      the positive ones. */
  method ConvergenceRowFor(scaled: seq<Trajectory>, year: int) returns (row: ConvergenceRow)
    requires ActiveAt(scaled, year)
    ensures RowAt(row, scaled, year)
    ensures row.spread >= 1.0
  {
    var prices := [];
    for c := 0 to |scaled|
      invariant |prices| == c
      invariant forall j :: 0 <= j < c ==> prices[j] == PriceAt(scaled[j].anchors, year)
    {
      prices := prices + [PriceAt(scaled[c].anchors, year)];
    }
    assert prices == PricesAt(scaled, year);
    ActivePricesPositive(scaled, year);
    row := ConvergenceRow(year, prices, PositiveSpread(prices));
  }

  /** The simulation: apply the scenario to every country's anchors, then
      one row for each year 2024 .. 2050. */
  method SimulatePriceConvergence(trajectories: seq<Trajectory>, scenario: string)
    returns (rows: seq<ConvergenceRow>)
    requires ActiveEveryYear(ScaledTrajectories(trajectories, scenario))
    ensures |rows| == LastYear - FirstYear + 1
    ensures forall k :: 0 <= k < |rows| ==>
      RowAt(rows[k], ScaledTrajectories(trajectories, scenario), FirstYear + k)
    ensures forall k :: 0 <= k < |rows| ==> rows[k].spread >= 1.0
  {
    var scaled := ApplyScenario(trajectories, scenario);
    rows := [];
    for year := FirstYear to LastYear + 1
      invariant |rows| == year - FirstYear
      invariant forall k :: 0 <= k < |rows| ==> RowAt(rows[k], scaled, FirstYear + k)
      invariant forall k :: 0 <= k < |rows| ==> rows[k].spread >= 1.0
    {
      assert ActiveAt(scaled, year);
      var row := ConvergenceRowFor(scaled, year);
      rows := rows + [row];
    }
  }

  /** Applying a scenario never touches the 2024 price. With positive
      targets, "accelerated" strictly raises both targets, "delayed" strictly
      lowers both, and any other scenario name changes nothing. */
  lemma ScenarioEffect(a: Anchors, scenario: string)
    requires a.p2030 > 0.0 && a.p2045 > 0.0
    ensures ScaleAnchors(a, scenario).p2024 == a.p2024
    ensures scenario == "accelerated" ==>
      ScaleAnchors(a, scenario).p2030 > a.p2030 && ScaleAnchors(a, scenario).p2045 > a.p2045
    ensures scenario == "delayed" ==>
      0.0 < ScaleAnchors(a, scenario).p2030 < a.p2030 && 0.0 < ScaleAnchors(a, scenario).p2045 < a.p2045
    ensures scenario != "accelerated" && scenario != "delayed" ==> ScaleAnchors(a, scenario) == a
  {
  }

  /** The baseline scenario runs on the anchors as given. */
  lemma BaselineUnscaled(trajectories: seq<Trajectory>)
    ensures ScaledTrajectories(trajectories, "baseline") == trajectories
  {
    assert "baseline" != "accelerated" && "baseline" != "delayed";
  }

  /** The path passes through its anchors and is flat from 2045 on, and
      before 2024 it holds the 2024 price. */
  lemma PriceAtAnchors(a: Anchors)
    ensures PriceAt(a, 2024) == a.p2024
    ensures PriceAt(a, 2030) == a.p2030
    ensures PriceAt(a, 2045) == a.p2045
    ensures forall year :: year <= 2024 ==> PriceAt(a, year) == a.p2024
    ensures forall year :: year >= 2045 ==> PriceAt(a, year) == a.p2045
  {
    LerpBetween(a.p2024, a.p2030, 1.0);
    LerpBetween(a.p2030, a.p2045, 1.0);
  }

  /** The lower and the higher of two anchor prices. */
  function Min(x: real, y: real): real { if x <= y then x else y }
  function Max(x: real, y: real): real { if x <= y then y else x }

  /** Between two anchors the price lies between the two anchor prices. */
  lemma PriceBetweenAnchors(a: Anchors, year: int)
    ensures 2024 <= year <= 2030 ==>
      Min(a.p2024, a.p2030) <= PriceAt(a, year) <= Max(a.p2024, a.p2030)
    ensures 2030 <= year <= 2045 ==>
      Min(a.p2030, a.p2045) <= PriceAt(a, year) <= Max(a.p2030, a.p2045)
  {
    if 2024 <= year <= 2030 {
      LerpBetween(a.p2024, a.p2030, (year - 2024) as real / 6.0);
    }
    if 2030 <= year <= 2045 {
      LerpBetween(a.p2030, a.p2045, (year - 2030) as real / 15.0);
      if year == 2030 {
        LerpBetween(a.p2024, a.p2030, 1.0);
      }
    }
  }

  /** Rising anchors give a price that never falls from one year to a later
      one. */
  lemma PriceMonotone(a: Anchors, year1: int, year2: int)
    requires a.p2024 <= a.p2030 <= a.p2045
    requires year1 <= year2
    ensures PriceAt(a, year1) <= PriceAt(a, year2)
  {
    PriceBetweenAnchors(a, year1);
    PriceBetweenAnchors(a, year2);
    PriceAtAnchors(a);
    if 2024 < year1 && year2 <= 2030 {
      LerpMonotone(a.p2024, a.p2030, (year1 - 2024) as real / 6.0, (year2 - 2024) as real / 6.0);
    } else if 2030 < year1 && year2 <= 2045 {
      LerpMonotone(a.p2030, a.p2045, (year1 - 2030) as real / 15.0, (year2 - 2030) as real / 15.0);
    }
  }

  /** A country whose three anchors are positive has a positive price every
      year, so its presence keeps the simulation's spread defined. */
  lemma PositiveAnchorsActive(trajectories: seq<Trajectory>, i: int)
    requires 0 <= i < |trajectories|
    requires trajectories[i].anchors.p2024 > 0.0
    requires trajectories[i].anchors.p2030 > 0.0
    requires trajectories[i].anchors.p2045 > 0.0
    ensures ActiveEveryYear(trajectories)
  {
    var a := trajectories[i].anchors;
    forall year | FirstYear <= year <= LastYear
      ensures ActiveAt(trajectories, year)
    {
      PriceBetweenAnchors(a, year);
      PriceAtAnchors(a);
      assert PriceAt(a, year) > 0.0;
    }
  }

  /** Every scenario of the shipped table is defined: Singapore's anchors
      stay positive under any scaling. */
  lemma ShippedScenariosActive(scenario: string)
    ensures ActiveEveryYear(ScaledTrajectories(BaseTrajectories, scenario))
  {
    var scaled := ScaledTrajectories(BaseTrajectories, scenario);
    assert scaled[0].anchors == ScaleAnchors(Anchors(59.0, 75.0, 95.0), scenario);
    PositiveAnchorsActive(scaled, 0);
  }

  /** Halfway to 2030 Singapore's baseline price is halfway between 59 and
      75; Malaysia has no price in 2024 and 2.5 $/t a year later. */
  lemma ShippedBaselinePrices()
    ensures PriceAt(Anchors(59.0, 75.0, 95.0), 2027) == 67.0
    ensures PriceAt(Anchors(0.0, 15.0, 70.0), 2024) == 0.0
    ensures PriceAt(Anchors(0.0, 15.0, 70.0), 2025) == 2.5
  {
  }

  /** The baseline spread in 2024 leaves out Malaysia's zero price: 59 over
      Vietnam's 20. */
  lemma ShippedBaselineSpread2024()
    ensures PricesAt(BaseTrajectories, 2024) == [59.0, 35.0, 25.0, 0.0, 20.0]
    ensures exists i :: 0 <= i < 5 && PricesAt(BaseTrajectories, 2024)[i] > 0.0
    ensures PositiveSpread(PricesAt(BaseTrajectories, 2024)) == 59.0 / 20.0
  {
    var p := PricesAt(BaseTrajectories, 2024);
    assert p == [59.0, 35.0, 25.0, 0.0, 20.0];
    SpreadOfShippedPrices(p);
  }

  lemma SpreadOfShippedPrices(all: seq<real>)
    requires all == [59.0, 35.0, 25.0, 0.0, 20.0]
    ensures exists i :: 0 <= i < |all| && all[i] > 0.0
    ensures PositiveSpread(all) == 59.0 / 20.0
  {
    assert all[0] > 0.0;
    var i :| 0 <= i < 5 && all[i] == MaxPositive(all);
    assert all[0] <= MaxPositive(all);
    var j :| 0 <= j < 5 && all[j] == MinPositive(all);
    assert MinPositive(all) <= all[4];
  }
}
