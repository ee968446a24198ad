/** Progress through the three integration phases at a given year. */
module Phases {

  datatype Status = NotStarted | InProgress | Complete

  /** A phase runs from its start year (inclusive) to its end year
      (exclusive). */
  datatype Phase = Phase(key: string, name: string, start: int, end: int)

  datatype PhaseProgress = PhaseProgress(
    phase: string,
    name: string,
    start: int,
    end: int,
    progress: real,  // percent
    status: Status)

  const IntegrationPhases: seq<Phase> := [
    Phase("Phase 1", "Foundation", 2025, 2028),
    Phase("Phase 2", "Convergence", 2028, 2035),
    Phase("Phase 3", "Full Integration", 2035, 2045)
  ]

  /** The year the dashboard reports progress for. */
  const DefaultCurrentYear: int := 2025

  /** A phase's progress at `year`: not started before its start year (0%),
      complete from its end year on (100%), and otherwise the elapsed share
      of its span, which is below 100%. */
  function Progress(p: Phase, year: int): (r: PhaseProgress)
    ensures r.phase == p.key && r.name == p.name && r.start == p.start && r.end == p.end
    ensures 0.0 <= r.progress <= 100.0
    ensures r.status == NotStarted <==> year < p.start
    ensures r.status == Complete <==> p.start <= year && p.end <= year
    ensures r.status == InProgress <==> p.start <= year < p.end
    ensures r.status == NotStarted ==> r.progress == 0.0
    ensures r.status == Complete ==> r.progress == 100.0
    ensures r.status == InProgress ==> r.progress < 100.0
    ensures r.status == InProgress ==> (r.progress == 0.0 <==> year == p.start)
  {
    if year < p.start then
      PhaseProgress(p.key, p.name, p.start, p.end, 0.0, NotStarted)
    else if year >= p.end then
      PhaseProgress(p.key, p.name, p.start, p.end, 100.0, Complete)
    else
      var share := (year - p.start) as real / (p.end - p.start) as real;
      FractionBelowOne(year - p.start, p.end - p.start);
      PhaseProgress(p.key, p.name, p.start, p.end, share * 100.0, InProgress)
  }

  lemma FractionBelowOne(elapsed: int, span: int)
    requires 0 <= elapsed < span
    ensures 0.0 <= elapsed as real / span as real < 1.0
    ensures elapsed as real / span as real == 0.0 <==> elapsed == 0
  {
  }

  /** The progress report: every phase, in order. */
  method GetPhaseProgress(currentYear: int) returns (results: seq<PhaseProgress>)
    ensures |results| == |IntegrationPhases|
    ensures forall i :: 0 <= i < |results| ==> results[i] == Progress(IntegrationPhases[i], currentYear)
  {
    results := [];
    for i := 0 to |IntegrationPhases|
      invariant |results| == i
      invariant forall j :: 0 <= j < i ==> results[j] == Progress(IntegrationPhases[j], currentYear)
    {
      var info := IntegrationPhases[i];
      var entry: PhaseProgress;
      if currentYear < info.start {
        entry := PhaseProgress(info.key, info.name, info.start, info.end, 0.0, NotStarted);
      } else if currentYear >= info.end {
        entry := PhaseProgress(info.key, info.name, info.start, info.end, 100.0, Complete);
      } else {
        var progress := ((currentYear - info.start) as real / (info.end - info.start) as real) * 100.0;
        entry := PhaseProgress(info.key, info.name, info.start, info.end, progress, InProgress);
      }
      results := results + [entry];
    }
  }

  /** Progress never goes backwards as the years pass. */
  lemma ProgressMonotone(p: Phase, year1: int, year2: int)
    requires year1 <= year2
    ensures Progress(p, year1).progress <= Progress(p, year2).progress
  {
    var r1 := Progress(p, year1);
    var r2 := Progress(p, year2);
    if r1.status == InProgress && r2.status == InProgress {
      FractionMonotone(year1 - p.start, year2 - p.start, p.end - p.start);
    }
  }

  lemma FractionMonotone(a: int, b: int, span: int)
    requires 0 <= a <= b && span > 0
    ensures (a as real / span as real) * 100.0 <= (b as real / span as real) * 100.0
  {
  }

  /** The phases follow one another without gap or overlap, so in any year
      at most one of them is in progress. */
  lemma PhasesAreConsecutive(year: int)
    ensures forall i :: 0 <= i < |IntegrationPhases| - 1 ==>
      IntegrationPhases[i].end == IntegrationPhases[i + 1].start
    ensures forall i, j :: 0 <= i < j < |IntegrationPhases| ==>
      !(Progress(IntegrationPhases[i], year).status == InProgress
        && Progress(IntegrationPhases[j], year).status == InProgress)
  {
  }

  /** In the default year 2025 the Foundation phase has just begun and the
      others have not started; in 2026 it is a third of the way through. */
  lemma DefaultYearProgress()
    ensures Progress(IntegrationPhases[0], DefaultCurrentYear) == PhaseProgress("Phase 1", "Foundation", 2025, 2028, 0.0, InProgress)
    ensures Progress(IntegrationPhases[1], DefaultCurrentYear).status == NotStarted
    ensures Progress(IntegrationPhases[2], DefaultCurrentYear).status == NotStarted
    ensures Progress(IntegrationPhases[0], 2026).progress == 100.0 / 3.0
  {
  }
}
