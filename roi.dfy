/** Return on the regional integration investment over ten years. */
module Roi {
  import opened Numeric
  import opened ReferenceData

  const AnnualOperationalSavingsM: int := 18
  const AnnualMarketEfficiencyM: int := 50
  const ClimateBenefitsNpvM: int := 200
  const BenefitYears: int := 10

  datatype IntegrationRoi = IntegrationRoi(
    totalInvestment: int,   // $M
    totalBenefits: int,     // $M over the benefit horizon
    benefitCostRatio: real,
    annualSavings: int,     // $M a year
    paybackYears: real)

  /** The ROI figures for investment components costing `amounts` ($M): the
      benefits are ten years of operational savings and market efficiency
      plus the climate benefit; the ratio is benefits per dollar invested and
      the payback is how many years of savings repay the investment. */
  function CalculateIntegrationRoi(amounts: seq<int>): (r: IntegrationRoi)
    requires SumInt(amounts) != 0
    ensures r.totalInvestment == SumInt(amounts)
    ensures r.annualSavings == AnnualOperationalSavingsM + AnnualMarketEfficiencyM
    ensures r.totalBenefits == r.annualSavings * BenefitYears + ClimateBenefitsNpvM
    ensures r.benefitCostRatio * r.totalInvestment as real == r.totalBenefits as real
    ensures r.paybackYears * r.annualSavings as real == r.totalInvestment as real
  {
    var totalInvestment := SumInt(amounts);
    var years := BenefitYears;
    var totalBenefits := (AnnualOperationalSavingsM + AnnualMarketEfficiencyM) * years + ClimateBenefitsNpvM;
    var annualSavings := AnnualOperationalSavingsM + AnnualMarketEfficiencyM;
    QuotientTimesDivisor(totalBenefits as real, totalInvestment as real);
    QuotientTimesDivisor(totalInvestment as real, annualSavings as real);
    IntegrationRoi(
      totalInvestment,
      totalBenefits,
      totalBenefits as real / totalInvestment as real,
      annualSavings,
      totalInvestment as real / annualSavings as real)
  }

  lemma QuotientTimesDivisor(a: real, b: real)
    requires b != 0.0
    ensures (a / b) * b == a
  {
  }

  /** The investment pays for itself within the ten-year horizon exactly when
      it costs at most ten years of savings, and then the benefits exceed it
      at least 1.29-fold (880 against at most 680). */
  lemma PaybackWithinHorizon(amounts: seq<int>)
    requires SumInt(amounts) > 0
    ensures CalculateIntegrationRoi(amounts).paybackYears <= BenefitYears as real
            <==> SumInt(amounts) <= 680
    ensures SumInt(amounts) <= 680 ==> CalculateIntegrationRoi(amounts).benefitCostRatio > 1.0
  {
    var r := CalculateIntegrationRoi(amounts);
    var total := SumInt(amounts) as real;
    assert r.paybackYears == total / 68.0;
    if SumInt(amounts) <= 680 {
      assert r.benefitCostRatio * total == 880.0;
      RatioAboveOne(880.0, total, r.benefitCostRatio);
    }
  }

  lemma RatioAboveOne(benefits: real, cost: real, ratio: real)
    requires 0.0 < cost < benefits && ratio * cost == benefits
    ensures ratio > 1.0
  {
  }

  /** The shipped investment components total $229M, returning $880M over
      ten years: a ratio of 880/229 (about 3.84) and a payback of 229/68
      (about 3.4) years. */
  lemma ShippedRoi()
    ensures SumInt(ShippedInvestmentAmounts) == 229
    ensures CalculateIntegrationRoi(ShippedInvestmentAmounts)
            == IntegrationRoi(229, 880, 880.0 / 229.0, 68, 229.0 / 68.0)
    ensures 3.84 < 880.0 / 229.0 < 3.85
  {
    var a := ShippedInvestmentAmounts;
    assert SumInt([85]) == 85 by { assert [85][..0] == []; }
    assert SumInt([85, 45]) == 130 by { assert [85, 45][..1] == [85]; }
    assert SumInt([85, 45, 35]) == 165 by { assert [85, 45, 35][..2] == [85, 45]; }
    assert SumInt([85, 45, 35, 40]) == 205 by { assert [85, 45, 35, 40][..3] == [85, 45, 35]; }
    assert SumInt(a) == 229 by { assert a[..4] == [85, 45, 35, 40]; }
    var r := CalculateIntegrationRoi(a);
    assert r.totalInvestment == 229 && r.totalBenefits == 880 && r.annualSavings == 68;
    assert r.benefitCostRatio == 880.0 / 229.0;
    assert r.paybackYears == 229.0 / 68.0;
  }
}
