/** Exactly which staging populations the sampler and the acceptance bound agree about. */
module SampleFit {
  import opened AuditTypes
  import opened StratifiedBound
  import opened Sampling

  /** The flag frozen with a document: that of its first record, of whatever year and status. */
  predicate FrozenFlagged(records: seq<Staged>, d: DocId) {
    FirstRecord(records, d).Some? && FirstRecord(records, d).value.assetReview
  }

  function FrozenFlags(records: seq<Staged>, year: int): set<DocId> {
    set d | d in EligibleIn(records, year) && FrozenFlagged(records, d)
  }

  /** No document is eligible in two years, and in every year as many eligible documents are frozen
      with the flag as the frame counts flagged. */
  ghost predicate Consistent(records: seq<Staged>) {
    && (forall y, z, d :: d in EligibleIn(records, y) && d in EligibleIn(records, z) ==> y == z)
    && (forall y :: |FrozenFlags(records, y)| == YearCount(records, y).flagged)
  }

  /** A nonempty lot the sampler may freeze at some quota, with annual counts that agree. */
  ghost predicate Possible(records: seq<Staged>, quota: nat, parts: seq<seq<LotItem>>, annual: Option<map<int, int>>) {
    && IsSample(records, quota, EligibleYears(records), parts) && Joined(parts) != []
    && AnnualAgrees(annual, FrameOf(records, EligibleYears(records)))
  }

  /** Whatever the quota and the random choices, such a lot passes every check of the bound. */
  ghost predicate AlwaysFits(records: seq<Staged>) {
    forall quota: nat, parts: seq<seq<LotItem>>, annual: Option<map<int, int>> ::
      Possible(records, quota, parts, annual) ==> LotFits(records, parts, annual)
  }

  ghost predicate LotFits(records: seq<Staged>, parts: seq<seq<LotItem>>, annual: Option<map<int, int>>) {
    DesignSound(Joined(parts), Ids(Joined(parts)), FrameOf(records, EligibleYears(records)), annual)
  }

  // ---- what a year's part puts into a cell -----------------------------------------------------------

  /** The frozen flags decide the cells of a part. */
  lemma PartInCells(records: seq<Staged>, quota: nat, year: int, part: seq<LotItem>, cell: Stratum)
    requires IsYearSample(records, quota, year, part)
    ensures Drawn(part, cell)
         == if cell.year != year then 0 else |InGroup(Ids(part), FrozenFlags(records, year), cell.group)|
    ensures DrawnFrom(records, [year], part)
  {
    forall i | 0 <= i < |part|
      ensures part[i].year == year && part[i].docId in EligibleIn(records, year)
      ensures part[i].assetReview <==> part[i].docId in FrozenFlags(records, year)
    {
      assert IsFrozen(records, part[i], year);
      assert part[i].docId in Ids(part);
    }
    DrawnInYear(part, year, FrozenFlags(records, year), cell);
  }

  lemma GroupWithin(ids: set<DocId>, eligible: set<DocId>, flagged: set<DocId>, group: Group)
    requires ids <= eligible
    ensures |InGroup(ids, flagged, group)| <= |InGroup(eligible, flagged, group)|
  {
    SubsetSize(InGroup(ids, flagged, group), InGroup(eligible, flagged, group));
  }

  lemma SubsetSize(a: set<DocId>, b: set<DocId>)
    requires a <= b
    ensures |a| <= |b|
  {
    assert b == a + (b - a);
  }

  /** A year's eligible documents, by their frozen flag. */
  lemma EligibleGroups(records: seq<Staged>, year: int, group: Group)
    ensures |InGroup(EligibleIn(records, year), FrozenFlags(records, year), group)|
         == if group.Flagged? then |FrozenFlags(records, year)|
            else |EligibleIn(records, year)| - |FrozenFlags(records, year)|
  {
    var all, flagged := EligibleIn(records, year), FrozenFlags(records, year);
    assert all * flagged == flagged;
    assert all == flagged + (all - flagged);
  }

  // ---- consistent records always fit -------------------------------------------------------------------

  ghost predicate WithinFrame(records: seq<Staged>, years: seq<int>, lot: seq<LotItem>, cell: Stratum) {
    && NoDuplicates(lot) && DrawnFrom(records, years, lot)
    && Drawn(lot, cell) <= if cell.year in years then
                             |InGroup(EligibleIn(records, cell.year), FrozenFlags(records, cell.year), cell.group)|
                           else 0
  }

  lemma {:induction false} PartsWithinFrame(records: seq<Staged>, quota: nat, years: seq<int>, parts: seq<seq<LotItem>>,
                                            cell: Stratum)
    requires Consistent(records) && Ascending(years) && IsSample(records, quota, years, parts)
    ensures WithinFrame(records, years, Joined(parts), cell)
    decreases |years|
  {
    if years != [] {
      var last := |years| - 1;
      PartsWithinFrame(records, quota, years[..last], parts[..last], cell);
      OneMorePart(records, quota, years, Joined(parts[..last]), parts[last], cell);
    }
  }

  lemma OneMorePart(records: seq<Staged>, quota: nat, years: seq<int>, before: seq<LotItem>, part: seq<LotItem>,
                    cell: Stratum)
    requires Consistent(records) && Ascending(years) && years != []
    requires WithinFrame(records, years[..|years| - 1], before, cell)
    requires IsYearSample(records, quota, years[|years| - 1], part)
    ensures WithinFrame(records, years, before + part, cell)
  {
    var year := years[|years| - 1];
    PartInCells(records, quota, year, part, cell);
    GroupWithin(Ids(part), EligibleIn(records, year), FrozenFlags(records, year), cell.group);
    DrawnAppend(before, part, cell);
    LastYear(years, cell.year);
    JoinDistinct(records, years, before, part);
  }

  lemma JoinDistinct(records: seq<Staged>, years: seq<int>, a: seq<LotItem>, b: seq<LotItem>)
    requires Consistent(records) && Ascending(years) && years != []
    requires NoDuplicates(a) && DrawnFrom(records, years[..|years| - 1], a)
    requires NoDuplicates(b) && DrawnFrom(records, [years[|years| - 1]], b)
    ensures NoDuplicates(a + b) && DrawnFrom(records, years, a + b)
  {
    forall i, j | 0 <= i < |a| && 0 <= j < |b|
      ensures a[i].docId != b[j].docId
    {
      assert a[i].year in years[..|years| - 1] && b[j].year in [years[|years| - 1]];
      LastYear(years, b[j].year);
    }
    forall i | 0 <= i < |a + b|
      ensures (a + b)[i].year in years && (a + b)[i].docId in EligibleIn(records, (a + b)[i].year)
    {
      assert (a + b)[i] == if i < |a| then a[i] else b[i - |a|];
      LastYear(years, (a + b)[i].year);
    }
  }

  lemma ConsistentFits(records: seq<Staged>, quota: nat, parts: seq<seq<LotItem>>, annual: Option<map<int, int>>)
    requires Consistent(records) && Possible(records, quota, parts, annual)
    ensures LotFits(records, parts, annual)
  {
    var years := EligibleYears(records);
    EligibleYearsExact(records, 0);
    FrameAscends(records, years);
    PartsWithinFrame(records, quota, years, parts, Stratum(0, Flagged));
    YearsInFrame(records, years, Joined(parts));
    forall cell | cell in Cells(FrameOf(records, years))
      ensures Drawn(Joined(parts), cell.stratum) <= cell.population
    {
      PartsWithinFrame(records, quota, years, parts, cell.stratum);
      CellHoldsGroup(records, years, cell);
    }
    DrawsGiveSoundDesign(Joined(parts), FrameOf(records, years), annual);
  }

  lemma CellHoldsGroup(records: seq<Staged>, years: seq<int>, cell: FrameCell)
    requires Consistent(records) && cell in Cells(FrameOf(records, years))
    ensures var y := cell.stratum.year;
            cell.population == |InGroup(EligibleIn(records, y), FrozenFlags(records, y), cell.stratum.group)|
  {
    var y := cell.stratum.year;
    CellCounts(records, years, cell);
    EligibleGroups(records, y, cell.stratum.group);
    YearTotal(records, y);
    assert |FrozenFlags(records, y)| == YearCount(records, y).flagged;
  }

  lemma CellCounts(records: seq<Staged>, years: seq<int>, cell: FrameCell)
    requires cell in Cells(FrameOf(records, years))
    ensures cell.stratum.year in years
    ensures var count := YearCount(records, cell.stratum.year);
            cell.population == if cell.stratum.group.Flagged? then count.flagged else count.unflagged
  {
    var frame := FrameOf(records, years);
    CellOfFrame(frame, cell);
    var i :| 0 <= i < |frame|
            && cell == FrameCell(Stratum(frame[i].year, cell.stratum.group),
                                 if cell.stratum.group.Flagged? then frame[i].flagged else frame[i].unflagged);
    assert frame[i] == YearCount(records, years[i]);
  }

  // ---- inconsistent records can fail ---------------------------------------------------------------------

  /** One year's part when everything eligible is drawn. */
  ghost function FreezeAll(records: seq<Staged>, year: int, ids: set<DocId>): seq<LotItem>
    requires forall d :: d in ids ==> FirstRecord(records, d).Some?
  {
    if ids == {} then []
    else
      var d :| d in ids;
      var r := FirstRecord(records, d).value;
      FreezeAll(records, year, ids - {d}) + [LotItem(d, year, r.assetReview, Some(r.stable))]
  }

  lemma {:induction false} FreezeAllFrozen(records: seq<Staged>, year: int, ids: set<DocId>)
    requires forall d :: d in ids ==> FirstRecord(records, d).Some?
    ensures var part := FreezeAll(records, year, ids);
            Ids(part) == ids && NoDuplicates(part) && AllFrozen(records, year, part)
    decreases ids
  {
    if ids != {} {
      var part := FreezeAll(records, year, ids);
      var item := part[|part| - 1];
      var rest := ids - {item.docId};
      FreezeAllFrozen(records, year, rest);
      assert part == FreezeAll(records, year, rest) + [item];
      OneMoreItem(FreezeAll(records, year, rest), item, []);
    }
  }

  lemma EligibleAreRecords(records: seq<Staged>, year: int)
    ensures forall d :: d in EligibleIn(records, year) ==> FirstRecord(records, d).Some?
  {
    EligibleHaveRecords(records, year, EligibleIn(records, year));
  }

  ghost function YearPart(records: seq<Staged>, year: int): (part: seq<LotItem>)
    ensures Ids(part) == EligibleIn(records, year) && NoDuplicates(part) && AllFrozen(records, year, part)
  {
    EligibleAreRecords(records, year);
    FreezeAllFrozen(records, year, EligibleIn(records, year));
    FreezeAll(records, year, EligibleIn(records, year))
  }

  ghost function CensusParts(records: seq<Staged>, years: seq<int>): seq<seq<LotItem>> {
    seq(|years|, i requires 0 <= i < |years| => YearPart(records, years[i]))
  }

  lemma {:induction false} EligibleAtMost(records: seq<Staged>, q: Query)
    ensures |Select(records, q)| <= |records|
  {
    if records != [] {
      EligibleAtMost(records[..|records| - 1], q);
    }
  }

  /** With a quota as large as the population everything eligible is drawn. */
  lemma CensusIsSample(records: seq<Staged>, years: seq<int>)
    ensures IsSample(records, |records|, years, CensusParts(records, years))
  {
    forall i | 0 <= i < |years|
      ensures IsYearSample(records, |records|, years[i], CensusParts(records, years)[i])
    {
      var eligible, flagged := EligibleIn(records, years[i]), FlaggedAnywhere(records);
      EligibleAtMost(records, InYear(years[i]));
      assert eligible == eligible * flagged + (eligible - flagged);
    }
  }

  lemma {:induction false} IdsAppend(a: seq<LotItem>, b: seq<LotItem>)
    ensures Ids(a + b) == Ids(a) + Ids(b)
    decreases |b|
  {
    if b == [] {
      assert a + b == a;
    } else {
      assert (a + b)[..|a| + |b| - 1] == a + b[..|b| - 1];
      IdsAppend(a, b[..|b| - 1]);
    }
  }

  lemma DistinctParts(a: seq<LotItem>, b: seq<LotItem>)
    requires NoDuplicates(a + b)
    ensures NoDuplicates(a) && Ids(a) !! Ids(b)
  {
    var all := a + b;
    assert forall i :: 0 <= i < |a| ==> all[i] == a[i];
    forall i, j | 0 <= i < j < |a|
      ensures a[i].docId != a[j].docId
    {
      assert all[i].docId != all[j].docId;
    }
    forall i, j | 0 <= i < |a| && 0 <= j < |b|
      ensures a[i].docId != b[j].docId
    {
      assert all[i].docId != all[|a| + j].docId;
    }
    forall d | d in Ids(a)
      ensures d !in Ids(b)
    {
      IdsFrom(a, d);
      if d in Ids(b) {
        IdsFrom(b, d);
      }
    }
  }

  lemma JoinedStep(parts: seq<seq<LotItem>>)
    requires parts != []
    ensures var before, part := Joined(parts[..|parts| - 1]), parts[|parts| - 1];
            && Ids(Joined(parts)) == Ids(before) + Ids(part)
            && (NoDuplicates(Joined(parts)) ==> NoDuplicates(before) && Ids(before) !! Ids(part))
  {
    var before, part := Joined(parts[..|parts| - 1]), parts[|parts| - 1];
    IdsAppend(before, part);
    if NoDuplicates(before + part) {
      DistinctParts(before, part);
    }
  }

  lemma {:induction false} JoinedIds(parts: seq<seq<LotItem>>, i: nat, d: DocId)
    requires i < |parts| && d in Ids(parts[i])
    ensures d in Ids(Joined(parts))
    decreases |parts|
  {
    JoinedStep(parts);
    if i < |parts| - 1 {
      JoinedIds(parts[..|parts| - 1], i, d);
    }
  }

  /** A document in two parts makes the lot repeat it. */
  lemma {:induction false} TwiceDrawn(parts: seq<seq<LotItem>>, i: nat, j: nat, d: DocId)
    requires i < j < |parts| && d in Ids(parts[i]) && d in Ids(parts[j])
    ensures !NoDuplicates(Joined(parts))
    decreases |parts|
  {
    JoinedStep(parts);
    if j < |parts| - 1 {
      TwiceDrawn(parts[..|parts| - 1], i, j, d);
    } else {
      JoinedIds(parts[..j], i, d);
      assert d in Ids(Joined(parts[..j])) * Ids(parts[j]);
    }
  }

  lemma {:induction false} CensusDraws(records: seq<Staged>, years: seq<int>, cell: Stratum)
    requires Ascending(years)
    ensures Drawn(Joined(CensusParts(records, years)), cell)
         == if cell.year in years then
              |InGroup(EligibleIn(records, cell.year), FrozenFlags(records, cell.year), cell.group)|
            else 0
    decreases |years|
  {
    if years != [] {
      var last := |years| - 1;
      var parts := CensusParts(records, years);
      CensusDraws(records, years[..last], cell);
      assert parts[..last] == CensusParts(records, years[..last]);
      CensusIsSample(records, [years[last]]);
      assert CensusParts(records, [years[last]])[0] == parts[last];
      PartInCells(records, |records|, years[last], parts[last], cell);
      DrawnAppend(Joined(parts[..last]), parts[last], cell);
      LastYear(years, cell.year);
    }
  }

  lemma YearAt(records: seq<Staged>, y: int, d: DocId) returns (i: nat)
    requires d in EligibleIn(records, y)
    ensures i < |EligibleYears(records)| && EligibleYears(records)[i] == y
  {
    EligibleYearsExact(records, y);
    i :| 0 <= i < |EligibleYears(records)| && EligibleYears(records)[i] == y;
  }

  ghost function Census(records: seq<Staged>): seq<seq<LotItem>> {
    CensusParts(records, EligibleYears(records))
  }

  /** A refused census of a population with an eligible document refutes the promise. */
  lemma CensusRefutes(records: seq<Staged>, y: int, d: DocId)
    requires d in EligibleIn(records, y) && !LotFits(records, Census(records), None)
    ensures !AlwaysFits(records)
  {
    CensusIsPossible(records, y, d);
  }

  lemma CensusIsPossible(records: seq<Staged>, y: int, d: DocId)
    requires d in EligibleIn(records, y)
    ensures Possible(records, |records|, Census(records), None)
  {
    var i := YearAt(records, y, d);
    CensusIsSample(records, EligibleYears(records));
    CensusHas(records, EligibleYears(records), i, d);
  }

  lemma CensusHas(records: seq<Staged>, years: seq<int>, i: nat, d: DocId)
    requires i < |years| && d in EligibleIn(records, years[i])
    ensures d in Ids(CensusParts(records, years)[i]) && d in Ids(Joined(CensusParts(records, years)))
  {
    JoinedIds(CensusParts(records, years), i, d);
  }

  lemma RepeatRefused(records: seq<Staged>, parts: seq<seq<LotItem>>)
    requires !NoDuplicates(Joined(parts))
    ensures !LotFits(records, parts, None)
  {
  }

  lemma OverfullRefused(records: seq<Staged>, parts: seq<seq<LotItem>>, cell: FrameCell)
    requires cell in Cells(FrameOf(records, EligibleYears(records))) && Drawn(Joined(parts), cell.stratum) > cell.population
    ensures !LotFits(records, parts, None)
  {
  }

  /** A document eligible in two years is drawn twice by a large enough quota. */
  lemma TwoYearsFail(records: seq<Staged>, y: int, z: int, d: DocId)
    requires d in EligibleIn(records, y) && d in EligibleIn(records, z) && y != z
    ensures !AlwaysFits(records)
  {
    var i := YearAt(records, y, d);
    var j := YearAt(records, z, d);
    CensusRepeats(records, EligibleYears(records), if i < j then i else j, if i < j then j else i, d);
    RepeatRefused(records, Census(records));
    CensusRefutes(records, y, d);
  }

  lemma CensusRepeats(records: seq<Staged>, years: seq<int>, i: nat, j: nat, d: DocId)
    requires i < j < |years| && d in EligibleIn(records, years[i]) && d in EligibleIn(records, years[j])
    ensures !NoDuplicates(Joined(CensusParts(records, years)))
  {
    CensusHas(records, years, i, d);
    CensusHas(records, years, j, d);
    TwiceDrawn(CensusParts(records, years), i, j, d);
  }

  /** The group of the year that a census overfills. */
  lemma GroupOverfilled(records: seq<Staged>, y: int) returns (group: Group, population: nat)
    requires |FrozenFlags(records, y)| != YearCount(records, y).flagged
    ensures population == if group.Flagged? then YearCount(records, y).flagged else YearCount(records, y).unflagged
    ensures |InGroup(EligibleIn(records, y), FrozenFlags(records, y), group)| > population
  {
    YearTotal(records, y);
    var count := YearCount(records, y);
    group := if |FrozenFlags(records, y)| > count.flagged then Flagged else Unflagged;
    population := if group.Flagged? then count.flagged else count.unflagged;
    EligibleGroups(records, y, group);
  }

  lemma YearNotEmpty(records: seq<Staged>, y: int) returns (d: DocId)
    requires |FrozenFlags(records, y)| != YearCount(records, y).flagged
    ensures d in EligibleIn(records, y)
  {
    YearTotal(records, y);
    SubsetSize(FrozenFlags(records, y), EligibleIn(records, y));
    assert EligibleIn(records, y) != {};
    d :| d in EligibleIn(records, y);
  }

  /** So does a year whose frozen flags are not as many as its frame counts. */
  lemma FlagsFail(records: seq<Staged>, y: int)
    requires |FrozenFlags(records, y)| != YearCount(records, y).flagged
    ensures !AlwaysFits(records)
  {
    var d := YearNotEmpty(records, y);
    var i := YearAt(records, y, d);
    var group, population := GroupOverfilled(records, y);
    var cell := FrameCell(Stratum(y, group), population);
    FrameHasCell(FrameOf(records, EligibleYears(records)), i, group);
    EligibleYearsExact(records, y);
    CensusDraws(records, EligibleYears(records), cell.stratum);
    OverfullRefused(records, Census(records), cell);
    CensusRefutes(records, y, d);
  }

  lemma {:induction false} FrameHasCell(frame: seq<YearFrame>, i: nat, group: Group)
    requires i < |frame|
    ensures FrameCell(Stratum(frame[i].year, group), if group.Flagged? then frame[i].flagged else frame[i].unflagged)
            in Cells(frame)
  {
    var last := |frame| - 1;
    if i < last {
      FrameHasCell(frame[..last], i, group);
    } else {
      var a, b := FrameCell(Stratum(frame[last].year, Flagged), frame[last].flagged),
                  FrameCell(Stratum(frame[last].year, Unflagged), frame[last].unflagged);
      assert Cells(frame) == Cells(frame[..last]) + [a, b];
      assert a in [a, b] && b in [a, b];
    }
  }

  /** All quotas and all random choices pass the bound's checks exactly when no document is eligible
      in two years and the frozen flags are as many per year as the frame counts. */
  lemma FitsExactly(records: seq<Staged>)
    ensures AlwaysFits(records) <==> Consistent(records)
  {
    if Consistent(records) {
      forall quota: nat, parts: seq<seq<LotItem>>, annual: Option<map<int, int>> | Possible(records, quota, parts, annual)
        ensures LotFits(records, parts, annual)
      {
        ConsistentFits(records, quota, parts, annual);
      }
    } else if y, z, d :| d in EligibleIn(records, y) && d in EligibleIn(records, z) && y != z {
      TwoYearsFail(records, y, z, d);
    } else {
      var y :| |FrozenFlags(records, y)| != YearCount(records, y).flagged;
      FlagsFail(records, y);
    }
  }

  // ---- examples ---------------------------------------------------------------------------------------------

  /** Unique ids are consistent. */
  lemma UniqueIsConsistent(records: seq<Staged>)
    requires UniqueIds(records)
    ensures Consistent(records)
  {
    forall y, z, d | d in EligibleIn(records, y) && d in EligibleIn(records, z)
      ensures y == z
    {
      YearsDisjoint(records, y, z, d);
    }
    forall y
      ensures FrozenFlags(records, y) == FlaggedIn(records, y)
    {
      FlaggedHere(records, y);
      forall d | d in EligibleIn(records, y)
        ensures FrozenFlagged(records, d) <==> d in FlaggedAnywhere(records)
      {
        OneFlag(records, y, d);
      }
    }
  }

  lemma OneFlag(records: seq<Staged>, y: int, d: DocId)
    requires UniqueIds(records) && d in EligibleIn(records, y)
    ensures FrozenFlagged(records, d) <==> d in FlaggedAnywhere(records)
  {
    EligibleAreRecords(records, y);
    var r := FirstRecord(records, d).value;
    FrozenFlag(records, LotItem(d, y, r.assetReview, Some(r.stable)), y);
  }

  /** One id, eligible once: an error record of an earlier year without the flag, then a success with
      it. The lot is frozen with the stale flag, its cell is empty, and the bound refuses it. */
  lemma StaleFlagFails(r: Staged, s: Staged)
    requires r.docId == s.docId && r.year < s.year
    requires !r.Eligible() && !r.assetReview && s.Eligible() && s.assetReview
    ensures !AlwaysFits([r, s])
  {
    var records := [r, s];
    PairSelected(r, s, InYear(s.year));
    PairSelected(r, s, FlaggedInYear(s.year));
    assert FirstRecord(records, s.docId) == Some(r);
    assert FrozenFlags(records, s.year) == {};
    assert FlaggedIn(records, s.year) == {s.docId};
    FlagsFail(records, s.year);
  }

  /** The same error record followed by an unflagged success is harmless: being staged in two years
      is not what matters. */
  lemma StagedTwiceFits(r: Staged, s: Staged)
    requires r.docId == s.docId && r.year < s.year
    requires !r.Eligible() && !r.assetReview && s.Eligible() && !s.assetReview
    ensures AlwaysFits([r, s])
  {
    var records := [r, s];
    forall y
      ensures EligibleIn(records, y) == if y == s.year then {s.docId} else {}
      ensures |FrozenFlags(records, y)| == YearCount(records, y).flagged
    {
      NoFlagIn(r, s, y);
    }
    FitsExactly(records);
  }

  lemma NoFlagIn(r: Staged, s: Staged, y: int)
    requires r.docId == s.docId && !r.Eligible() && !r.assetReview && s.Eligible() && !s.assetReview
    ensures EligibleIn([r, s], y) == if y == s.year then {s.docId} else {}
    ensures FrozenFlags([r, s], y) == {} == FlaggedIn([r, s], y)
  {
    PairSelected(r, s, InYear(y));
    PairSelected(r, s, FlaggedInYear(y));
    assert FirstRecord([r, s], s.docId) == Some(r);
  }

  /** A document eligible in two years is drawn twice by the census, a possible sample, and no frame,
      annual counts or resolution make that lot acceptable. */
  lemma EligibleTwiceFails(records: seq<Staged>, y: int, z: int, d: DocId)
    requires d in EligibleIn(records, y) && d in EligibleIn(records, z) && y != z
    ensures IsSample(records, |records|, EligibleYears(records), Census(records))
    ensures Joined(Census(records)) != [] && NeverSound(Joined(Census(records)))
  {
    var i := YearAt(records, y, d);
    var j := YearAt(records, z, d);
    CensusIsPossible(records, y, d);
    CensusRepeats(records, EligibleYears(records), if i < j then i else j, if i < j then j else i, d);
    RepeatNeverSound(Joined(Census(records)));
  }

  lemma RepeatNeverSound(lot: seq<LotItem>)
    requires !NoDuplicates(lot)
    ensures NeverSound(lot)
  {
  }

  ghost predicate NeverSound(lot: seq<LotItem>) {
    forall resolved: set<DocId>, frame: seq<YearFrame>, annual: Option<map<int, int>> ::
      !DesignSound(lot, resolved, frame, annual)
  }
}
