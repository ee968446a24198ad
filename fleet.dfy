/** Facility-level risk assessment of the refinery fleet: the age-based risk
    label, the country/complexity filter and the per-country fleet
    summary. */
module Fleet {
  import opened Numeric
  import opened ReferenceData

  datatype RiskLevel = Low | Medium | High

  /** Stranding risk by facility age: over 50 years is high, over 30 is
      medium, anything else low. */
  function RiskLabel(ageYears: int): (r: RiskLevel)
    ensures r == High <==> ageYears > 50
    ensures r == Medium <==> 30 < ageYears <= 50
    ensures r == Low <==> ageYears <= 30
  {
    if ageYears > 50 then High else if ageYears > 30 then Medium else Low
  }

  function Rank(r: RiskLevel): int
  {
    match r
    case Low => 0
    case Medium => 1
    case High => 2
  }

  /** An older facility never carries a lower risk label. */
  lemma RiskMonotone(age1: int, age2: int)
    requires age1 <= age2
    ensures Rank(RiskLabel(age1)) <= Rank(RiskLabel(age2))
  {
  }

  /** The refinery is in one of the chosen countries and has one of the
      chosen complexities. */
  predicate Selected(r: Refinery, countryFilter: seq<string>, complexityFilter: seq<string>)
  {
    r.country in countryFilter && r.complexity in complexityFilter
  }

  /** The refineries the two filters let through, in fleet order: every
      selected record as often as the fleet lists it, and nothing else. */
  function FilterRefineries(refineries: seq<Refinery>, countryFilter: seq<string>,
                            complexityFilter: seq<string>): (result: seq<Refinery>)
    ensures |result| <= |refineries|
    ensures forall r :: r in result <==> r in refineries && Selected(r, countryFilter, complexityFilter)
  {
    if |refineries| == 0 then []
    else
      var last := refineries[|refineries| - 1];
      var init := FilterRefineries(refineries[..|refineries| - 1], countryFilter, complexityFilter);
      assert refineries == refineries[..|refineries| - 1] + [last];
      if Selected(last, countryFilter, complexityFilter) then init + [last] else init
  }

  /** With every refinery selected (the dashboard's default of all countries
      and all complexities) the filter passes the whole fleet through in
      order. */
  lemma {:induction false} FilterKeepsSelected(refineries: seq<Refinery>, countryFilter: seq<string>,
                                               complexityFilter: seq<string>)
    requires forall i :: 0 <= i < |refineries| ==> Selected(refineries[i], countryFilter, complexityFilter)
    ensures FilterRefineries(refineries, countryFilter, complexityFilter) == refineries
  {
    if |refineries| > 0 {
      var init := refineries[..|refineries| - 1];
      var last := refineries[|refineries| - 1];
      FilterKeepsSelected(init, countryFilter, complexityFilter);
      assert refineries == init + [last];
    }
  }

  /** Filtering a filtered list again changes nothing. */
  lemma FilterIdempotent(refineries: seq<Refinery>, countryFilter: seq<string>, complexityFilter: seq<string>)
    ensures var once := FilterRefineries(refineries, countryFilter, complexityFilter);
            FilterRefineries(once, countryFilter, complexityFilter) == once
  {
    var once := FilterRefineries(refineries, countryFilter, complexityFilter);
    assert forall i :: 0 <= i < |once| ==> once[i] in once;
    FilterKeepsSelected(once, countryFilter, complexityFilter);
  }

  /** The filter keeps every selected record as often as the fleet lists it
      and drops every other record. */
  lemma {:induction false} FilterKeepsMultiplicity(refineries: seq<Refinery>, countryFilter: seq<string>,
                                                   complexityFilter: seq<string>)
    ensures forall r :: (multiset(FilterRefineries(refineries, countryFilter, complexityFilter))[r]
                         == (if Selected(r, countryFilter, complexityFilter) then multiset(refineries)[r] else 0))
  {
    if |refineries| > 0 {
      var init := refineries[..|refineries| - 1];
      var last := refineries[|refineries| - 1];
      FilterKeepsMultiplicity(init, countryFilter, complexityFilter);
      assert refineries == init + [last];
      assert multiset(refineries) == multiset(init) + multiset{last};
    }
  }

  /** The refineries of one country, in order (their multiplicity is
      OfCountryKeepsMultiplicity). */
  function OfCountry(refineries: seq<Refinery>, country: string): (result: seq<Refinery>)
    ensures |result| <= |refineries|
    ensures forall r :: r in result <==> r in refineries && r.country == country
  {
    if |refineries| == 0 then []
    else
      var last := refineries[|refineries| - 1];
      var init := OfCountry(refineries[..|refineries| - 1], country);
      assert refineries == refineries[..|refineries| - 1] + [last];
      if last.country == country then init + [last] else init
  }

  /** A country's list holds each of its records as often as the input does,
      so its length is the number of that country's records. */
  lemma {:induction false} OfCountryKeepsMultiplicity(refineries: seq<Refinery>, country: string)
    ensures forall r :: (multiset(OfCountry(refineries, country))[r]
                         == (if r.country == country then multiset(refineries)[r] else 0))
  {
    if |refineries| > 0 {
      var init := refineries[..|refineries| - 1];
      var last := refineries[|refineries| - 1];
      OfCountryKeepsMultiplicity(init, country);
      assert refineries == init + [last];
      assert multiset(refineries) == multiset(init) + multiset{last};
    }
  }

  /** How many records of the list belong to `country`. */
  function CountOfCountry(refineries: seq<Refinery>, country: string): nat
  {
    if |refineries| == 0 then 0
    else CountOfCountry(refineries[..|refineries| - 1], country)
         + (if refineries[|refineries| - 1].country == country then 1 else 0)
  }

  /** A country's list is as long as the number of that country's records,
      which is the summary's "Refineries" count. */
  lemma {:induction false} OfCountryLength(refineries: seq<Refinery>, country: string)
    ensures |OfCountry(refineries, country)| == CountOfCountry(refineries, country)
  {
    if |refineries| > 0 {
      OfCountryLength(refineries[..|refineries| - 1], country);
    }
  }

  function Ages(refineries: seq<Refinery>): (ages: seq<int>)
    ensures |ages| == |refineries|
    ensures forall i :: 0 <= i < |refineries| ==> ages[i] == refineries[i].ageYears
  {
    seq(|refineries|, i requires 0 <= i < |refineries| => refineries[i].ageYears)
  }

  /** How many ages exceed `limit`. */
  function CountOlderThan(ages: seq<int>, limit: int): (count: nat)
    ensures count <= |ages|
    ensures count == 0 <==> forall i :: 0 <= i < |ages| ==> ages[i] <= limit
  {
    if |ages| == 0 then 0
    else CountOlderThan(ages[..|ages| - 1], limit) + (if ages[|ages| - 1] > limit then 1 else 0)
  }

  /** How many ages are below `limit`. */
  function CountYoungerThan(ages: seq<int>, limit: int): (count: nat)
    ensures count <= |ages|
    ensures count == 0 <==> forall i :: 0 <= i < |ages| ==> ages[i] >= limit
  {
    if |ages| == 0 then 0
    else CountYoungerThan(ages[..|ages| - 1], limit) + (if ages[|ages| - 1] < limit then 1 else 0)
  }

  /** How many ages are exactly `age`. */
  function CountAge(ages: seq<int>, age: int): nat
  {
    if |ages| == 0 then 0
    else CountAge(ages[..|ages| - 1], age) + (if ages[|ages| - 1] == age then 1 else 0)
  }

  /** How many ages carry the risk label `level`. */
  function CountAtRisk(ages: seq<int>, level: RiskLevel): nat
  {
    if |ages| == 0 then 0
    else CountAtRisk(ages[..|ages| - 1], level) + (if RiskLabel(ages[|ages| - 1]) == level then 1 else 0)
  }

  /** The summary's "High Risk" count is the number of facilities labelled
      high risk. */
  lemma {:induction false} HighRiskCountMatchesLabel(ages: seq<int>)
    ensures CountOlderThan(ages, 50) == CountAtRisk(ages, High)
  {
    if |ages| > 0 {
      HighRiskCountMatchesLabel(ages[..|ages| - 1]);
    }
  }

  /** The summary's "Transition Ready" count (under 30 years) misses the
      facilities aged exactly 30, which the label still calls low risk. */
  lemma {:induction false} ReadyCountMissesAgeThirty(ages: seq<int>)
    ensures CountYoungerThan(ages, 30) + CountAge(ages, 30) == CountAtRisk(ages, Low)
  {
    if |ages| > 0 {
      ReadyCountMissesAgeThirty(ages[..|ages| - 1]);
    }
  }

  /** Counting an age over two runs of ages adds the two counts. */
  lemma {:induction false} CountAgeAppend(a: seq<int>, b: seq<int>, age: int)
    ensures CountAge(a + b, age) == CountAge(a, age) + CountAge(b, age)
  {
    if |b| > 0 {
      CountAgeAppend(a, b[..|b| - 1], age);
      assert (a + b)[..|a + b| - 1] == a + b[..|b| - 1];
    } else {
      assert a + b == a;
    }
  }

  /** No age equal to `age` means a zero count. */
  lemma {:induction false} CountAgeAbsent(a: seq<int>, age: int)
    requires forall i :: 0 <= i < |a| ==> a[i] != age
    ensures CountAge(a, age) == 0
  {
    if |a| > 0 {
      CountAgeAbsent(a[..|a| - 1], age);
    }
  }

  /** In the shipped fleet exactly two facilities, Pertamina Balongan and
      Petronas Melaka I, are aged 30: both are labelled low risk and neither
      is counted as transition ready. */
  lemma ShippedFleetAgedThirty()
    ensures ShippedRefineries[12].name == "Pertamina Balongan"
    ensures ShippedRefineries[18].name == "Petronas Melaka I"
    ensures forall i :: 0 <= i < |ShippedRefineries| ==>
      (ShippedRefineries[i].ageYears == 30 <==> i == 12 || i == 18)
    ensures RiskLabel(ShippedRefineries[12].ageYears) == Low && RiskLabel(ShippedRefineries[18].ageYears) == Low
    ensures CountAge(Ages(ShippedRefineries), 30) == 2
    ensures CountYoungerThan(Ages(ShippedRefineries), 30) + 2 == CountAtRisk(Ages(ShippedRefineries), Low)
  {
    var ages := Ages(ShippedRefineries);
    assert ages == ages[..12] + [ages[12]] + ages[13..18] + [ages[18]] + ages[19..];
    CountAgeAbsent(ages[..12], 30);
    CountAgeAbsent(ages[13..18], 30);
    CountAgeAbsent(ages[19..], 30);
    CountAgeAppend(ages[..12], [ages[12]], 30);
    CountAgeAppend(ages[..12] + [ages[12]], ages[13..18], 30);
    CountAgeAppend(ages[..12] + [ages[12]] + ages[13..18], [ages[18]], 30);
    CountAgeAppend(ages[..12] + [ages[12]] + ages[13..18] + [ages[18]], ages[19..], 30);
    ReadyCountMissesAgeThirty(ages);
  }

  /** No facility is both high risk and transition ready. */
  lemma {:induction false} HighAndReadyDisjoint(ages: seq<int>)
    ensures CountOlderThan(ages, 50) + CountYoungerThan(ages, 30) <= |ages|
  {
    if |ages| > 0 {
      HighAndReadyDisjoint(ages[..|ages| - 1]);
    }
  }

  datatype CountrySummary = CountrySummary(
    country: string,
    refineries: nat,
    avgAge: real,
    oldest: int,
    newest: int,
    highRisk: nat,
    transitionReady: nat)

  /** The summary row of one country's facility ages: the average lies
      between the newest and the oldest, the oldest and the newest are ages
      of the country's facilities, no facility is counted both high risk and
      transition ready, the high-risk count is the number labelled high, and
      the transition-ready count is the number labelled low except those
      aged exactly 30. */
  function Summarize(country: string, ages: seq<int>): (s: CountrySummary)
    requires |ages| > 0
    ensures s.country == country && s.refineries == |ages|
    ensures s.avgAge == Mean(SumInt(ages), s.refineries)
    ensures s.newest as real <= s.avgAge <= s.oldest as real
    ensures exists i :: 0 <= i < |ages| && ages[i] == s.oldest
    ensures exists i :: 0 <= i < |ages| && ages[i] == s.newest
    ensures forall i :: 0 <= i < |ages| ==> s.newest <= ages[i] <= s.oldest
    ensures s.highRisk + s.transitionReady <= s.refineries
    ensures s.highRisk == CountAtRisk(ages, High)
    ensures s.transitionReady + CountAge(ages, 30) == CountAtRisk(ages, Low)
  {
    SumIntBounds(ages);
    HighRiskCountMatchesLabel(ages);
    ReadyCountMissesAgeThirty(ages);
    MeanBetween(SumInt(ages), |ages|, MinInt(ages), MaxInt(ages));
    HighAndReadyDisjoint(ages);
    CountrySummary(country, |ages|, Mean(SumInt(ages), |ages|), MaxInt(ages), MinInt(ages),
                   CountOlderThan(ages, 50), CountYoungerThan(ages, 30))
  }

  /** `np.mean` of ages whose total is `total`. */
  function Mean(total: int, count: int): (mean: real)
    requires count > 0
    ensures mean * count as real == total as real
  {
    total as real / count as real
  }

  lemma MeanBetween(total: int, count: int, lo: int, hi: int)
    requires count > 0 && count * lo <= total <= count * hi
    ensures lo as real <= Mean(total, count) <= hi as real
  {
    assert (count * lo) as real == count as real * lo as real;
    assert (count * hi) as real == count as real * hi as real;
  }

  /** The summary rows one chosen country contributes: its row when it has
      at least one filtered refinery, none otherwise. */
  function CountryRows(filtered: seq<Refinery>, country: string): (rows: seq<CountrySummary>)
    ensures |rows| <= 1
    ensures |rows| == 1 <==> |OfCountry(filtered, country)| > 0
    ensures forall k :: 0 <= k < |rows| ==>
      rows[k].country == country && rows[k].refineries == |OfCountry(filtered, country)|
  {
    var refs := OfCountry(filtered, country);
    if |refs| > 0 then [Summarize(country, Ages(refs))] else []
  }

  /** The fleet summary specified row by row: one row for each chosen
      country, in the order chosen, that has at least one refinery among
      the filtered ones. */
  function SummaryRows(filtered: seq<Refinery>, countries: seq<string>): seq<CountrySummary>
  {
    if |countries| == 0 then []
    else SummaryRows(filtered, countries[..|countries| - 1]) + CountryRows(filtered, countries[|countries| - 1])
  }

  /** The country fleet summary. */
  method FleetSummary(filtered: seq<Refinery>, countryFilter: seq<string>)
    returns (summary: seq<CountrySummary>)
    ensures summary == SummaryRows(filtered, countryFilter)
  {
    summary := [];
    for i := 0 to |countryFilter|
      invariant summary == SummaryRows(filtered, countryFilter[..i])
    {
      var country := countryFilter[i];
      var countryRefs := OfCountry(filtered, country);
      SummaryRowsStep(filtered, countryFilter, i);
      if |countryRefs| > 0 {
        var ages := Ages(countryRefs);
        summary := summary + [Summarize(country, ages)];
      }
    }
    assert countryFilter[..|countryFilter|] == countryFilter;
  }

  lemma SummaryRowsStep(filtered: seq<Refinery>, countries: seq<string>, i: int)
    requires 0 <= i < |countries|
    ensures var refs := OfCountry(filtered, countries[i]);
      SummaryRows(filtered, countries[..i + 1])
      == SummaryRows(filtered, countries[..i]) + (if |refs| > 0 then [Summarize(countries[i], Ages(refs))] else [])
  {
    assert countries[..i + 1][..i] == countries[..i];
  }

  /** A summary row for a chosen country with at least one filtered
      refinery, counting exactly that country's refineries. */
  predicate RowOfChosenCountry(row: CountrySummary, filtered: seq<Refinery>, countries: seq<string>)
  {
    row.country in countries && row.refineries == |OfCountry(filtered, row.country)| > 0
  }

  /** Every summary row belongs to a chosen country with at least one
      filtered refinery and counts exactly that country's refineries, and
      there is at most one row per chosen country. */
  lemma {:induction false} SummaryRowsMeaning(filtered: seq<Refinery>, countries: seq<string>)
    ensures |SummaryRows(filtered, countries)| <= |countries|
    ensures forall k :: 0 <= k < |SummaryRows(filtered, countries)| ==>
      RowOfChosenCountry(SummaryRows(filtered, countries)[k], filtered, countries)
  {
    if |countries| > 0 {
      var init := countries[..|countries| - 1];
      var last := countries[|countries| - 1];
      SummaryRowsMeaning(filtered, init);
      var front := SummaryRows(filtered, init);
      var tail := CountryRows(filtered, last);
      assert SummaryRows(filtered, countries) == front + tail;
      forall k | 0 <= k < |front| + |tail|
        ensures RowOfChosenCountry((front + tail)[k], filtered, countries)
      {
        if k < |front| {
          assert RowOfChosenCountry(front[k], filtered, init);
          assert front[k].country in init;
        } else {
          assert tail[k - |front|].country == last;
        }
      }
    }
  }
}
