/** From the sampler to the report: what a complete report over a freshly drawn lot measures. */
module Certificate {
  import opened AuditTypes
  import opened Hypergeometric
  import opened StratifiedBound
  import opened Sampling
  import opened SampleFit
  import opened AuditReport
  import opened StickyVerdicts

  /** The design frozen for a sample of the given records. */
  function SampleDesign(records: seq<Staged>, parts: seq<seq<LotItem>>, annual: Option<map<int, int>>,
                  confidence: real, maxRate: real): Design
  {
    Design(Joined(parts), FrameOf(records, EligibleYears(records)), annual, confidence, maxRate)
  }

  ghost predicate Sampled(records: seq<Staged>, quota: nat, parts: seq<seq<LotItem>>, annual: Option<map<int, int>>) {
    && Consistent(records) && IsSample(records, quota, EligibleYears(records), parts)
    && AnnualAgrees(annual, FrameOf(records, EligibleYears(records)))
  }

  /** The bound lies between the critical share of the population and the share not seen to pass. */
  ghost predicate Within(upper: Option<real>, lot: seq<LotItem>, critical: set<DocId>, frame: seq<YearFrame>) {
    var all, failed := Population(Cells(frame)), CriticalCount(lot, critical);
    && all > 0 && upper.Some? && |lot| - failed <= all
    && Ratio(failed, all) <= upper.value <= Ratio(all - (|lot| - failed), all)
  }

  lemma BoundWithin(lot: seq<LotItem>, critical: set<DocId>, frame: seq<YearFrame>, confidence: real,
                    annual: Option<map<int, int>>)
    requires DesignSound(lot, Ids(lot), frame, annual) && YearsAscend(frame) && 0.0 <= confidence < 1.0
    ensures var upper := CriticalBound(lot, critical, Ids(lot), frame, confidence, annual).Value();
            && Within(Some(upper), lot, critical, frame)
            && ((forall cell :: cell in Cells(frame) ==> Drawn(lot, cell.stratum) == cell.population)
                 ==> upper == Ratio(CriticalCount(lot, critical), Population(Cells(frame))))
  {
    BoundRange(lot, critical, Ids(lot), frame, confidence, annual);
  }

  /** The report's bound is a measurement of the population. */
  ghost predicate Measures(history: seq<Entry>, design: Design, ev: Evidence) {
    Within(ReportOf(history, design, ev).upper, design.lot, CriticalNow(design.lot, history, ev), design.frame)
  }

  /** What a complete report states over any sound design. */
  lemma CompleteMeasures(history: seq<Entry>, design: Design, ev: Evidence)
    requires DesignSound(design.lot, Ids(design.lot), design.frame, design.annual) && YearsAscend(design.frame)
    requires 0.0 <= design.confidence < 1.0 && ReportOf(history, design, ev).Complete()
    ensures Measures(history, design, ev)
    ensures (forall cell :: cell in Cells(design.frame) ==> Drawn(design.lot, cell.stratum) == cell.population)
       ==> ReportOf(history, design, ev).upper
             == Some(Ratio(CriticalCount(design.lot, CriticalNow(design.lot, history, ev)), Population(Cells(design.frame))))
  {
    CompleteReport(history, design, ev);
    BoundWithin(design.lot, CriticalNow(design.lot, history, ev), design.frame, design.confidence, design.annual);
  }

  lemma SampleIsSound(records: seq<Staged>, quota: nat, parts: seq<seq<LotItem>>, annual: Option<map<int, int>>,
                      confidence: real, maxRate: real, history: seq<Entry>, ev: Evidence)
    requires Sampled(records, quota, parts, annual)
    requires ReportOf(history, SampleDesign(records, parts, annual, confidence, maxRate), ev).Complete()
    ensures var design := SampleDesign(records, parts, annual, confidence, maxRate);
            DesignSound(design.lot, Ids(design.lot), design.frame, design.annual) && YearsAscend(design.frame)
  {
    CompleteReport(history, SampleDesign(records, parts, annual, confidence, maxRate), ev);
    ConsistentFits(records, quota, parts, annual);
    EligibleYearsExact(records, 0);
    FrameAscends(records, EligibleYears(records));
  }

  /** A complete report over a lot the sampler drew never fails closed: its bound is a measurement. */
  lemma SampledLotIsMeasured(records: seq<Staged>, quota: nat, parts: seq<seq<LotItem>>, annual: Option<map<int, int>>,
                             confidence: real, maxRate: real, history: seq<Entry>, ev: Evidence)
    requires Sampled(records, quota, parts, annual) && 0.0 <= confidence < 1.0
    requires ReportOf(history, SampleDesign(records, parts, annual, confidence, maxRate), ev).Complete()
    ensures Measures(history, SampleDesign(records, parts, annual, confidence, maxRate), ev)
  {
    SampleIsSound(records, quota, parts, annual, confidence, maxRate, history, ev);
    CompleteMeasures(history, SampleDesign(records, parts, annual, confidence, maxRate), ev);
  }

  /** The quota reaches every eligible document of every year. */
  ghost predicate CoversAll(records: seq<Staged>, quota: nat) {
    forall y :: |EligibleIn(records, y)| <= quota
  }

  lemma ChoiceIsAll(eligible: set<DocId>, flagged: set<DocId>, quota: nat, chosen: set<DocId>)
    requires IsChoice(eligible, flagged, quota, chosen) && |eligible| <= quota
    ensures chosen == eligible
  {
    assert |eligible| == |eligible * flagged| + |eligible - flagged| by {
      assert eligible == eligible * flagged + (eligible - flagged);
    }
    assert |chosen| == |chosen * flagged| + |chosen - flagged| by {
      assert chosen == chosen * flagged + (chosen - flagged);
    }
    SubsetOfSameSize(chosen, eligible);
  }

  /** Every year's part of such a sample is all that is eligible. */
  lemma {:induction false} FullDraws(records: seq<Staged>, quota: nat, years: seq<int>, parts: seq<seq<LotItem>>, cell: Stratum)
    requires CoversAll(records, quota) && Ascending(years) && IsSample(records, quota, years, parts)
    ensures Drawn(Joined(parts), cell)
         == if cell.year in years then
              |InGroup(EligibleIn(records, cell.year), FrozenFlags(records, cell.year), cell.group)|
            else 0
    decreases |years|
  {
    if years != [] {
      var last := |years| - 1;
      FullDraws(records, quota, years[..last], parts[..last], cell);
      FullPart(records, quota, years[last], parts[last], cell);
      DrawnAppend(Joined(parts[..last]), parts[last], cell);
      LastYear(years, cell.year);
    }
  }

  lemma FullPart(records: seq<Staged>, quota: nat, year: int, part: seq<LotItem>, cell: Stratum)
    requires CoversAll(records, quota) && IsYearSample(records, quota, year, part)
    ensures Drawn(part, cell)
         == if cell.year != year then 0
            else |InGroup(EligibleIn(records, year), FrozenFlags(records, year), cell.group)|
  {
    assert |EligibleIn(records, year)| <= quota;
    ChoiceIsAll(EligibleIn(records, year), FlaggedAnywhere(records), quota, Ids(part));
    PartInCells(records, quota, year, part, cell);
  }

  lemma FullQuotaIsCensus(records: seq<Staged>, quota: nat, parts: seq<seq<LotItem>>)
    requires Consistent(records) && IsSample(records, quota, EligibleYears(records), parts) && CoversAll(records, quota)
    ensures forall cell :: cell in Cells(FrameOf(records, EligibleYears(records))) ==>
              Drawn(Joined(parts), cell.stratum) == cell.population
  {
    var years := EligibleYears(records);
    EligibleYearsExact(records, 0);
    forall cell | cell in Cells(FrameOf(records, years))
      ensures Drawn(Joined(parts), cell.stratum) == cell.population
    {
      CellCounts(records, years, cell);
      CellHoldsGroup(records, years, cell);
      FullDraws(records, quota, years, parts, cell.stratum);
    }
  }

  /** With a quota that covers every year the sample is a census, and a complete report states the
      exact critical share of the population, whatever the confidence. */
  lemma CensusIsExact(records: seq<Staged>, quota: nat, parts: seq<seq<LotItem>>, annual: Option<map<int, int>>,
                      confidence: real, maxRate: real, history: seq<Entry>, ev: Evidence)
    requires Sampled(records, quota, parts, annual) && CoversAll(records, quota) && 0.0 <= confidence < 1.0
    requires ReportOf(history, SampleDesign(records, parts, annual, confidence, maxRate), ev).Complete()
    ensures var design := SampleDesign(records, parts, annual, confidence, maxRate);
            var all := Population(Cells(design.frame));
            all > 0 && ReportOf(history, design, ev).upper
              == Some(Ratio(CriticalCount(design.lot, CriticalNow(design.lot, history, ev)), all))
  {
    SampleIsSound(records, quota, parts, annual, confidence, maxRate, history, ev);
    FullQuotaIsCensus(records, quota, parts);
    CompleteMeasures(history, SampleDesign(records, parts, annual, confidence, maxRate), ev);
  }
}
