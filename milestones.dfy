/** The milestone timeline under the two Malaysia scenarios: in the delayed
    scenario every milestone that mentions Malaysia moves five years
    later. */
module Milestones {
  import opened ReferenceData

  const BaselineScenario: string := "Baseline (Malaysia Commits Q3 2025)"
  const DelayedScenario: string := "Delayed (Malaysia Commits 2027+)"
  /** Years a Malaysia milestone moves in the delayed scenario. */
  const DelayYears: int := 5

  /** `pattern` occurs in `text` starting at `start`. */
  predicate OccursAt(text: string, pattern: string, start: int)
  {
    0 <= start && start + |pattern| <= |text| && text[start..start + |pattern|] == pattern
  }

  /** Substring test (Python's `in` on strings). */
  function Contains(text: string, pattern: string): (r: bool)
    ensures r <==> exists start :: OccursAt(text, pattern, start)
    decreases |text|
  {
    if |pattern| > |text| then
      assert forall start :: !OccursAt(text, pattern, start);
      false
    else if text[..|pattern|] == pattern then
      assert OccursAt(text, pattern, 0);
      true
    else
      var rest := Contains(text[1..], pattern);
      ContainsShift(text, pattern);
      rest
  }

  /** An occurrence in `text` that is not at its first position is an
      occurrence in `text[1..]`, and conversely. */
  lemma ContainsShift(text: string, pattern: string)
    requires |text| > 0 && |pattern| <= |text| && text[..|pattern|] != pattern
    ensures (exists start :: OccursAt(text, pattern, start))
            <==> (exists start :: OccursAt(text[1..], pattern, start))
  {
    if exists start :: OccursAt(text, pattern, start) {
      var start :| OccursAt(text, pattern, start);
      assert start != 0;
      assert text[1..][start - 1..start - 1 + |pattern|] == text[start..start + |pattern|];
      assert OccursAt(text[1..], pattern, start - 1);
    }
    if exists start :: OccursAt(text[1..], pattern, start) {
      var start :| OccursAt(text[1..], pattern, start);
      assert text[start + 1..start + 1 + |pattern|] == text[1..][start..start + |pattern|];
      assert OccursAt(text, pattern, start + 1);
    }
  }

  /** The milestone is shifted: the scenario is a delayed one and the
      milestone mentions Malaysia. */
  predicate Shifted(m: Milestone, scenario: string)
  {
    Contains(scenario, "Delayed") && Contains(m.milestone, "Malaysia")
  }

  /** The timeline under `scenario`: the same milestones in the same order,
      with only the year of the shifted ones moved five years later. */
  function AdjustForScenario(milestones: seq<Milestone>, scenario: string): (adjusted: seq<Milestone>)
    ensures |adjusted| == |milestones|
    ensures forall i :: 0 <= i < |milestones| ==>
      adjusted[i] == milestones[i].(year := adjusted[i].year)
    ensures forall i :: 0 <= i < |milestones| ==>
      adjusted[i].year == milestones[i].year + (if Shifted(milestones[i], scenario) then DelayYears else 0)
  {
    if Contains(scenario, "Delayed") then
      seq(|milestones|, i requires 0 <= i < |milestones| =>
        var m := milestones[i];
        if Contains(m.milestone, "Malaysia") then m.(year := m.year + DelayYears) else m)
    else milestones
  }

  /** No milestone moves earlier, and under a scenario that is not delayed
      nothing moves at all. */
  lemma AdjustNeverEarlier(milestones: seq<Milestone>, scenario: string)
    ensures forall i :: 0 <= i < |milestones| ==>
      AdjustForScenario(milestones, scenario)[i].year >= milestones[i].year
    ensures !Contains(scenario, "Delayed") ==> AdjustForScenario(milestones, scenario) == milestones
  {
    if !Contains(scenario, "Delayed") {
      var adjusted := AdjustForScenario(milestones, scenario);
      assert forall i :: 0 <= i < |milestones| ==> adjusted[i] == milestones[i];
    }
  }

  /** A text without the pattern's first character does not contain it. */
  lemma MissingFirstCharacter(text: string, pattern: string)
    requires |pattern| > 0
    requires forall i :: 0 <= i < |text| ==> text[i] != pattern[0]
    ensures !Contains(text, pattern)
  {
  }

  /** The two options of the scenario selector: only the second is a delayed
      one. */
  lemma ScenarioOptions()
    ensures !Contains(BaselineScenario, "Delayed")
    ensures Contains(DelayedScenario, "Delayed")
  {
    assert OccursAt(DelayedScenario, "Delayed", 0);
    MissingFirstCharacter(BaselineScenario, "Delayed");
  }

  /** The baseline option keeps the shipped timeline. */
  lemma ShippedBaselineTimeline()
    ensures AdjustForScenario(ShippedMilestones, BaselineScenario) == ShippedMilestones
  {
    ScenarioOptions();
    AdjustNeverEarlier(ShippedMilestones, BaselineScenario);
  }

  /** A milestone whose text begins with "Malaysia" moves five years later in
      the delayed option. */
  lemma DelayedMovesMalaysia(milestones: seq<Milestone>, scenario: string, i: int)
    requires Contains(scenario, "Delayed")
    requires 0 <= i < |milestones|
    requires OccursAt(milestones[i].milestone, "Malaysia", 0)
    ensures AdjustForScenario(milestones, scenario)[i].year == milestones[i].year + DelayYears
  {
  }
}
