/** The acceptance bound over all year-by-flag cells of a frozen lot: its fail-closed checks,
    its Bonferroni split, its monotonicity, and its simultaneous coverage. */
module StratifiedBound {
  import opened AuditTypes
  import opened Binomials
  import opened Hypergeometric

  // ---- the design --------------------------------------------------------------

  datatype FrameCell = FrameCell(stratum: Stratum, population: nat)

  /** The frame's cells in the order the program visits them. */
  function Cells(frame: seq<YearFrame>): (cells: seq<FrameCell>)
    ensures |cells| == 2 * |frame|
  {
    if frame == [] then []
    else
      var last := |frame| - 1;
      Cells(frame[..last]) + [FrameCell(Stratum(frame[last].year, Flagged), frame[last].flagged),
                              FrameCell(Stratum(frame[last].year, Unflagged), frame[last].unflagged)]
  }

  function Ids(lot: seq<LotItem>): (ids: set<DocId>)
    ensures forall i :: 0 <= i < |lot| ==> lot[i].docId in ids
    ensures |ids| <= |lot|
  {
    if lot == [] then {} else Ids(lot[..|lot| - 1]) + {lot[|lot| - 1].docId}
  }

  /** How many lot documents lie in a cell. */
  function Drawn(lot: seq<LotItem>, cell: Stratum): (n: nat)
    ensures n <= |lot|
  {
    if lot == [] then 0
    else
      var last := |lot| - 1;
      Drawn(lot[..last], cell) + if lot[last].Cell() == cell then 1 else 0
  }

  /** How many lot documents in a cell are critical failures. */
  function Failed(lot: seq<LotItem>, cell: Stratum, critical: set<DocId>): (f: nat)
    ensures f <= Drawn(lot, cell)
  {
    if lot == [] then 0
    else
      var last := |lot| - 1;
      Failed(lot[..last], cell, critical)
        + if lot[last].Cell() == cell && lot[last].docId in critical then 1 else 0
  }

  function Population(cells: seq<FrameCell>): nat {
    if cells == [] then 0
    else
      var last := |cells| - 1;
      Population(cells[..last]) + cells[last].population
  }

  ghost predicate NoDuplicates(lot: seq<LotItem>) {
    forall i, j :: 0 <= i < j < |lot| ==> lot[i].docId != lot[j].docId
  }

  predicate InFrame(cell: Stratum, frame: seq<YearFrame>) {
    exists i :: 0 <= i < |frame| && frame[i].year == cell.year
  }

  /** The annual counts, when present, must agree with the cells, a missing year counting 0. */
  ghost predicate AnnualAgrees(annual: Option<map<int, int>>, frame: seq<YearFrame>) {
    annual.Some? ==>
      && (forall i :: 0 <= i < |frame| ==>
            (if frame[i].year in annual.value then annual.value[frame[i].year] else 0)
              == frame[i].flagged + frame[i].unflagged)
      && (forall y :: y in annual.value && annual.value[y] != 0 ==> InFrame(Stratum(y, Flagged), frame))
  }

  /** The evidence the bound insists on; anything less fails closed. */
  ghost predicate DesignSound(lot: seq<LotItem>, resolved: set<DocId>, frame: seq<YearFrame>,
                              annual: Option<map<int, int>>)
  {
    && lot != [] && frame != []
    && AnnualAgrees(annual, frame)
    && NoDuplicates(lot)
    && AllInFrame(lot, frame)
    && Ids(lot) == resolved
    && 0 < Population(Cells(frame))
    && |Ids(lot)| <= Population(Cells(frame))
    && (forall cell :: cell in Cells(frame) ==> Drawn(lot, cell.stratum) <= cell.population)
  }

  // ---- the bound ------------------------------------------------------------------

  predicate IsUncertain(population: nat, draws: nat) {
    0 < draws < population
  }

  function Uncertain(cells: seq<FrameCell>, lot: seq<LotItem>): nat {
    if cells == [] then 0
    else
      var last := |cells| - 1;
      Uncertain(cells[..last], lot)
        + if IsUncertain(cells[last].population, Drawn(lot, cells[last].stratum)) then 1 else 0
  }

  /** The per-cell level: the error probability shared equally by the uncertain cells. */
  function Level(confidence: real, uncertain: nat): real {
    if uncertain == 0 then 0.0 else (1.0 - confidence) / uncertain as real
  }

  /** Unsampled cells count in full, census cells exactly, all others by their own bound. */
  function CellUpper(population: nat, draws: nat, failures: nat, alpha: real): nat {
    if draws == 0 then population
    else if draws == population then failures
    else ShortcutCount(failures, draws, population, alpha)
  }

  function UpperTotal(cells: seq<FrameCell>, lot: seq<LotItem>, critical: set<DocId>, alpha: real): nat {
    if cells == [] then 0
    else
      var last := |cells| - 1;
      UpperTotal(cells[..last], lot, critical, alpha)
        + CellUpper(cells[last].population, Drawn(lot, cells[last].stratum),
                    Failed(lot, cells[last].stratum, critical), alpha)
  }

  datatype BoundResult = FailClosed | Bound(upper: real) {
    /** A refusal is worth the bound 1. */
    function Value(): real {
      if FailClosed? then 1.0 else upper
    }
  }

  function MinReal(a: real, b: real): real {
    if a <= b then a else b
  }

  ghost function PooledUpper(lot: seq<LotItem>, critical: set<DocId>, frame: seq<YearFrame>,
                             confidence: real): real
    requires Population(Cells(frame)) > 0
  {
    var cells := Cells(frame);
    MinReal(1.0, Ratio(UpperTotal(cells, lot, critical, Level(confidence, Uncertain(cells, lot))),
                       Population(cells)))
  }

  ghost function CriticalBound(lot: seq<LotItem>, critical: set<DocId>, resolved: set<DocId>,
                               frame: seq<YearFrame>, confidence: real,
                               annual: Option<map<int, int>>): BoundResult
  {
    if DesignSound(lot, resolved, frame, annual)
    then Bound(PooledUpper(lot, critical, frame, confidence))
    else FailClosed
  }

  // ---- the program -----------------------------------------------------------------

  method CheckAnnual(annual: Option<map<int, int>>, frame: seq<YearFrame>) returns (ok: bool)
    requires YearsAscend(frame)
    ensures ok <==> AnnualAgrees(annual, frame)
  {
    if annual.None? {
      return true;
    }
    for i := 0 to |frame|
      invariant forall k :: 0 <= k < i ==>
        (if frame[k].year in annual.value then annual.value[frame[k].year] else 0)
          == frame[k].flagged + frame[k].unflagged
    {
      var count := if frame[i].year in annual.value then annual.value[frame[i].year] else 0;
      if count != frame[i].flagged + frame[i].unflagged {
        return false;
      }
    }
    return forall y :: y in annual.value && annual.value[y] != 0 ==> InFrame(Stratum(y, Flagged), frame);
  }

  function Lookup(sample: map<Stratum, nat>, cell: Stratum): nat {
    if cell in sample then sample[cell] else 0
  }

  ghost predicate AllInFrame(lot: seq<LotItem>, frame: seq<YearFrame>) {
    forall i :: 0 <= i < |lot| ==> InFrame(lot[i].Cell(), frame)
  }

  ghost predicate Counts(sample: map<Stratum, nat>, lot: seq<LotItem>) {
    forall cell :: Lookup(sample, cell) == Drawn(lot, cell)
  }

  /** Counts the lot per cell while checking identities and cell membership. */
  method CountSample(lot: seq<LotItem>, frame: seq<YearFrame>)
    returns (ok: bool, ids: set<DocId>, sample: map<Stratum, nat>)
    ensures ok <==> NoDuplicates(lot) && AllInFrame(lot, frame)
    ensures ok ==> ids == Ids(lot) && Counts(sample, lot)
  {
    ok, ids, sample := true, {}, map[];
    for i := 0 to |lot|
      invariant ids == Ids(lot[..i]) && NoDuplicates(lot[..i])
      invariant AllInFrame(lot[..i], frame) && Counts(sample, lot[..i])
    {
      var item := lot[i];
      OneMoreItem(lot[..i], item, frame);
      assert lot[..i] + [item] == lot[..i + 1];
      if item.docId in ids || !InFrame(item.Cell(), frame) {
        FaultsPersist(lot, i + 1, frame);
        return false, {}, map[];
      }
      OneMoreCount(sample, lot[..i], item);
      sample := sample[item.Cell() := Lookup(sample, item.Cell()) + 1];
      ids := ids + {item.docId};
    }
    assert lot[..|lot|] == lot;
  }

  lemma OneMoreCount(sample: map<Stratum, nat>, lot: seq<LotItem>, item: LotItem)
    requires Counts(sample, lot)
    ensures Counts(sample[item.Cell() := Lookup(sample, item.Cell()) + 1], lot + [item])
  {
    var cell, more := item.Cell(), sample[item.Cell() := Lookup(sample, item.Cell()) + 1];
    assert (lot + [item])[..|lot|] == lot;
    forall c
      ensures Lookup(more, c) == Drawn(lot + [item], c)
    {
      assert Lookup(sample, c) == Drawn(lot, c);
      assert Lookup(more, c) == if c == cell then Lookup(sample, cell) + 1 else Lookup(sample, c);
    }
  }

  lemma {:induction false} IdsFrom(lot: seq<LotItem>, d: DocId)
    requires d in Ids(lot)
    ensures exists i :: 0 <= i < |lot| && lot[i].docId == d
  {
    var last := |lot| - 1;
    if lot[last].docId != d {
      IdsFrom(lot[..last], d);
      var i :| 0 <= i < last && lot[..last][i].docId == d;
      assert lot[i].docId == d;
    }
  }

  lemma OneMoreItem(lot: seq<LotItem>, item: LotItem, frame: seq<YearFrame>)
    ensures Ids(lot + [item]) == Ids(lot) + {item.docId}
    ensures NoDuplicates(lot + [item]) <==> NoDuplicates(lot) && item.docId !in Ids(lot)
    ensures AllInFrame(lot + [item], frame) <==> AllInFrame(lot, frame) && InFrame(item.Cell(), frame)
  {
    var all := lot + [item];
    assert all[..|lot|] == lot;
    assert all[|lot|] == item && forall i :: 0 <= i < |lot| ==> all[i] == lot[i];
    if NoDuplicates(all) {
      forall i, j | 0 <= i < j < |lot|
        ensures lot[i].docId != lot[j].docId
      {
        assert all[i].docId != all[j].docId;
      }
      if item.docId in Ids(lot) {
        IdsFrom(lot, item.docId);
      }
    }
    if AllInFrame(all, frame) {
      forall i | 0 <= i < |lot|
        ensures InFrame(lot[i].Cell(), frame)
      {
        assert InFrame(all[i].Cell(), frame);
      }
    }
  }

  lemma FaultsPersist(lot: seq<LotItem>, k: nat, frame: seq<YearFrame>)
    requires k <= |lot|
    ensures NoDuplicates(lot) ==> NoDuplicates(lot[..k])
    ensures AllInFrame(lot, frame) ==> AllInFrame(lot[..k], frame)
  {
  }

  method CountFailures(lot: seq<LotItem>, cell: Stratum, critical: set<DocId>) returns (f: nat)
    ensures f == Failed(lot, cell, critical)
  {
    f := 0;
    for i := 0 to |lot|
      invariant f == Failed(lot[..i], cell, critical)
    {
      assert lot[..i + 1][..i] == lot[..i];
      if lot[i].Cell() == cell && lot[i].docId in critical {
        f := f + 1;
      }
    }
    assert lot[..|lot|] == lot;
  }

  /** The pass that sizes the frame and counts the uncertain cells, refusing an overfull cell. */
  method SizeCells(cells: seq<FrameCell>, lot: seq<LotItem>, sample: map<Stratum, nat>)
    returns (ok: bool, total: nat, uncertain: nat)
    requires Counts(sample, lot)
    ensures ok <==> forall cell :: cell in cells ==> Drawn(lot, cell.stratum) <= cell.population
    ensures ok ==> total == Population(cells) && uncertain == Uncertain(cells, lot)
  {
    ok, total, uncertain := true, 0, 0;
    for i := 0 to |cells|
      invariant total == Population(cells[..i])
      invariant uncertain == Uncertain(cells[..i], lot)
      invariant forall k :: 0 <= k < i ==> Drawn(lot, cells[k].stratum) <= cells[k].population
    {
      assert cells[..i + 1][..i] == cells[..i];
      var draws := Lookup(sample, cells[i].stratum);
      if draws > cells[i].population {
        assert cells[i] in cells;
        return false, 0, 0;
      }
      total := total + cells[i].population;
      if IsUncertain(cells[i].population, draws) {
        uncertain := uncertain + 1;
      }
    }
    assert cells[..|cells|] == cells;
  }

  /** The pass that adds up the cells' upper counts. */
  method SumUppers(cells: seq<FrameCell>, lot: seq<LotItem>, sample: map<Stratum, nat>,
                   critical: set<DocId>, alpha: real) returns (upper: nat)
    requires Counts(sample, lot)
    ensures upper == UpperTotal(cells, lot, critical, alpha)
  {
    upper := 0;
    for i := 0 to |cells|
      invariant upper == UpperTotal(cells[..i], lot, critical, alpha)
    {
      assert cells[..i + 1][..i] == cells[..i];
      var population := cells[i].population;
      var draws := Lookup(sample, cells[i].stratum);
      var failures := CountFailures(lot, cells[i].stratum, critical);
      var cellUpper: nat;
      if draws == 0 {
        cellUpper := population;
      } else if draws == population {
        cellUpper := failures;
      } else {
        cellUpper := UpperFailures(failures, draws, population, alpha);
      }
      upper := upper + cellUpper;
    }
    assert cells[..|cells|] == cells;
  }

  /** The acceptance bound, in the order the program computes it. */
  method StratifiedCriticalUpperBound(lot: seq<LotItem>, critical: set<DocId>, resolved: set<DocId>,
                                      frame: seq<YearFrame>, confidence: real,
                                      annual: Option<map<int, int>>) returns (r: BoundResult)
    requires YearsAscend(frame)
    ensures r == CriticalBound(lot, critical, resolved, frame, confidence, annual)
  {
    if lot == [] || frame == [] {
      return FailClosed;
    }
    var annualOk := CheckAnnual(annual, frame);
    if !annualOk {
      return FailClosed;
    }
    var ok, ids, sample := CountSample(lot, frame);
    if !ok || ids != resolved {
      return FailClosed;
    }
    var cells := Cells(frame);
    var fits, total, uncertain := SizeCells(cells, lot, sample);
    if !fits || total <= 0 || |ids| > total {
      return FailClosed;
    }
    var upper := SumUppers(cells, lot, sample, critical, Level(confidence, uncertain));
    return Bound(MinReal(1.0, Ratio(upper, total)));
  }

  // ---- monotonicity, range, exactness -------------------------------------------------

  lemma {:induction false} FailedMonotone(lot: seq<LotItem>, cell: Stratum, a: set<DocId>, b: set<DocId>)
    requires a <= b
    ensures Failed(lot, cell, a) <= Failed(lot, cell, b)
  {
    if lot != [] {
      FailedMonotone(lot[..|lot| - 1], cell, a, b);
    }
  }

  lemma {:induction false} CellUpperMonotone(population: nat, draws: nat, f: nat, g: nat, alpha: real)
    requires f <= g && draws <= population
    ensures CellUpper(population, draws, f, alpha) <= CellUpper(population, draws, g, alpha)
  {
    if IsUncertain(population, draws) {
      UpperCountMonotone(f, g, draws, population, Need(population, draws, alpha));
    }
  }

  lemma {:induction false} UpperTotalMonotone(cells: seq<FrameCell>, lot: seq<LotItem>,
                                              a: set<DocId>, b: set<DocId>, alpha: real)
    requires a <= b
    requires forall cell :: cell in cells ==> Drawn(lot, cell.stratum) <= cell.population
    ensures UpperTotal(cells, lot, a, alpha) <= UpperTotal(cells, lot, b, alpha)
  {
    if cells != [] {
      var last := |cells| - 1;
      UpperTotalMonotone(cells[..last], lot, a, b, alpha);
      FailedMonotone(lot, cells[last].stratum, a, b);
      CellUpperMonotone(cells[last].population, Drawn(lot, cells[last].stratum),
                        Failed(lot, cells[last].stratum, a), Failed(lot, cells[last].stratum, b), alpha);
    }
  }

  lemma ShareOfRatio(part: nat, whole: nat)
    requires whole > 0
    ensures Share(Ratio(part, whole), whole) == part as real
  {
  }

  lemma RatioMonotone(a: nat, b: nat, whole: nat)
    requires whole > 0
    ensures a <= b ==> Ratio(a, whole) <= Ratio(b, whole)
  {
    RatioAtLeast(b, whole, Ratio(a, whole));
    ShareOfRatio(a, whole);
  }

  lemma RatioStrict(a: nat, b: nat, whole: nat)
    requires whole > 0
    ensures a < b ==> Ratio(a, whole) < Ratio(b, whole)
  {
    RatioAtLeast(a, whole, Ratio(b, whole));
    ShareOfRatio(b, whole);
  }

  /** A larger set of critical failures never gives a smaller bound, whatever the lot,
      the frame and the confidence. */
  lemma BoundMonotone(lot: seq<LotItem>, a: set<DocId>, b: set<DocId>, resolved: set<DocId>,
                      frame: seq<YearFrame>, confidence: real, annual: Option<map<int, int>>)
    requires a <= b
    ensures CriticalBound(lot, a, resolved, frame, confidence, annual).Value()
         <= CriticalBound(lot, b, resolved, frame, confidence, annual).Value()
  {
    if DesignSound(lot, resolved, frame, annual) {
      var cells := Cells(frame);
      var alpha := Level(confidence, Uncertain(cells, lot));
      UpperTotalMonotone(cells, lot, a, b, alpha);
      RatioMonotone(UpperTotal(cells, lot, a, alpha), UpperTotal(cells, lot, b, alpha), Population(cells));
    }
  }

  function DrawnTotal(cells: seq<FrameCell>, lot: seq<LotItem>): nat {
    if cells == [] then 0
    else
      var last := |cells| - 1;
      DrawnTotal(cells[..last], lot) + Drawn(lot, cells[last].stratum)
  }

  function FailedTotal(cells: seq<FrameCell>, lot: seq<LotItem>, critical: set<DocId>): nat {
    if cells == [] then 0
    else
      var last := |cells| - 1;
      FailedTotal(cells[..last], lot, critical) + Failed(lot, cells[last].stratum, critical)
  }

  lemma LevelRange(confidence: real, uncertain: nat)
    requires 0.0 <= confidence <= 1.0
    ensures 0.0 <= Level(confidence, uncertain) <= 1.0
    ensures uncertain > 0 && confidence < 1.0 ==> 0.0 < Level(confidence, uncertain)
    ensures Level(confidence, uncertain) * uncertain as real <= 1.0 - confidence
  {
    if uncertain > 0 {
      QuotientRange(1.0 - confidence, uncertain as real);
    }
  }

  lemma QuotientRange(e: real, m: real)
    requires 0.0 <= e <= 1.0 <= m
    ensures 0.0 <= e / m <= 1.0 && (e / m) * m == e && (0.0 < e ==> 0.0 < e / m)
  {
  }

  /** Each cell's upper count lies between its observed failures and its population minus
      its observed passes. */
  lemma {:induction false} CellUpperRange(population: nat, draws: nat, failures: nat, alpha: real)
    requires failures <= draws <= population && 0.0 <= alpha <= 1.0
    requires IsUncertain(population, draws) ==> 0.0 < alpha
    ensures failures <= CellUpper(population, draws, failures, alpha) <= population - (draws - failures)
  {
    if IsUncertain(population, draws) {
      NeedRange(population, draws, alpha);
      ShortcutsAreTheSearch(failures, draws, population, alpha);
      UpperCountRange(failures, draws, population, Need(population, draws, alpha));
    }
  }

  lemma {:induction false} TotalsRange(cells: seq<FrameCell>, lot: seq<LotItem>, critical: set<DocId>, alpha: real)
    requires 0.0 <= alpha <= 1.0
    requires Uncertain(cells, lot) > 0 ==> 0.0 < alpha
    requires forall cell :: cell in cells ==> Drawn(lot, cell.stratum) <= cell.population
    ensures FailedTotal(cells, lot, critical) <= UpperTotal(cells, lot, critical, alpha)
         <= Population(cells) - (DrawnTotal(cells, lot) - FailedTotal(cells, lot, critical))
    ensures (forall cell :: cell in cells ==> Drawn(lot, cell.stratum) == cell.population)
       ==> UpperTotal(cells, lot, critical, alpha) == FailedTotal(cells, lot, critical)
  {
    if cells != [] {
      var last := |cells| - 1;
      TotalsRange(cells[..last], lot, critical, alpha);
      CellUpperRange(cells[last].population, Drawn(lot, cells[last].stratum),
                     Failed(lot, cells[last].stratum, critical), alpha);
    }
  }

  /** The number of lot documents that are critical failures, whatever their cell. */
  function CriticalCount(lot: seq<LotItem>, critical: set<DocId>): (f: nat)
    ensures f <= |lot|
  {
    if lot == [] then 0
    else
      var last := |lot| - 1;
      CriticalCount(lot[..last], critical) + if lot[last].docId in critical then 1 else 0
  }

  function Occurrences(cells: seq<FrameCell>, s: Stratum): nat {
    if cells == [] then 0
    else
      var last := |cells| - 1;
      Occurrences(cells[..last], s) + if cells[last].stratum == s then 1 else 0
  }

  lemma OneMoreYear(frame: seq<YearFrame>, s: Stratum)
    requires YearsAscend(frame) && frame != []
    ensures var last := |frame| - 1;
            && (InFrame(s, frame) <==> InFrame(s, frame[..last]) || frame[last].year == s.year)
            && !(InFrame(s, frame[..last]) && frame[last].year == s.year)
  {
    var last := |frame| - 1;
    if InFrame(s, frame[..last]) {
      var i :| 0 <= i < last && frame[..last][i].year == s.year;
      assert frame[i].year == s.year;
    }
    if InFrame(s, frame) {
      var i :| 0 <= i < |frame| && frame[i].year == s.year;
      if i < last {
        assert frame[..last][i].year == s.year;
      }
    }
  }

  lemma OccurrencesSnoc(cells: seq<FrameCell>, cell: FrameCell, s: Stratum)
    ensures Occurrences(cells + [cell], s) == Occurrences(cells, s) + if cell.stratum == s then 1 else 0
  {
    assert (cells + [cell])[..|cells|] == cells;
  }

  lemma {:induction false} CellsAreDistinct(frame: seq<YearFrame>, s: Stratum)
    requires YearsAscend(frame)
    ensures Occurrences(Cells(frame), s) == if InFrame(s, frame) then 1 else 0
  {
    if frame != [] {
      var last := |frame| - 1;
      var rest, cells := Cells(frame[..last]), Cells(frame);
      CellsAreDistinct(frame[..last], s);
      var a := FrameCell(Stratum(frame[last].year, Flagged), frame[last].flagged);
      var b := FrameCell(Stratum(frame[last].year, Unflagged), frame[last].unflagged);
      assert cells == (rest + [a]) + [b];
      OccurrencesSnoc(rest, a, s);
      OccurrencesSnoc(rest + [a], b, s);
      OneMoreYear(frame, s);
      match s.group {
        case Flagged => assert s == Stratum(s.year, Flagged);
        case Unflagged => assert s == Stratum(s.year, Unflagged);
      }
    }
  }

  lemma {:induction false} TotalsSnoc(cells: seq<FrameCell>, lot: seq<LotItem>, critical: set<DocId>)
    requires lot != []
    ensures var last := |lot| - 1;
            var times := Occurrences(cells, lot[last].Cell());
            && DrawnTotal(cells, lot) == DrawnTotal(cells, lot[..last]) + times
            && FailedTotal(cells, lot, critical) == FailedTotal(cells, lot[..last], critical)
                 + if lot[last].docId in critical then times else 0
  {
    if cells != [] {
      TotalsSnoc(cells[..|cells| - 1], lot, critical);
    }
  }

  /** The cells partition the lot: nothing is counted twice or left out. */
  lemma {:induction false} CellsPartitionLot(frame: seq<YearFrame>, lot: seq<LotItem>, critical: set<DocId>)
    requires YearsAscend(frame)
    requires AllInFrame(lot, frame)
    ensures DrawnTotal(Cells(frame), lot) == |lot|
    ensures FailedTotal(Cells(frame), lot, critical) == CriticalCount(lot, critical)
  {
    if lot == [] {
      NothingDrawn(Cells(frame), critical);
    } else {
      var last := |lot| - 1;
      CellsPartitionLot(frame, lot[..last], critical);
      TotalsSnoc(Cells(frame), lot, critical);
      CellsAreDistinct(frame, lot[last].Cell());
    }
  }

  lemma {:induction false} NothingDrawn(cells: seq<FrameCell>, critical: set<DocId>)
    ensures DrawnTotal(cells, []) == 0 && FailedTotal(cells, [], critical) == 0
  {
    if cells != [] {
      NothingDrawn(cells[..|cells| - 1], critical);
    }
  }

  lemma {:induction false} UncertainLevel(cells: seq<FrameCell>, lot: seq<LotItem>, confidence: real)
    requires 0.0 <= confidence < 1.0
    ensures var alpha := Level(confidence, Uncertain(cells, lot));
            0.0 <= alpha <= 1.0 && (Uncertain(cells, lot) > 0 ==> 0.0 < alpha)
  {
    LevelRange(confidence, Uncertain(cells, lot));
  }

  /** A sound design gives a bound between the observed critical share of the population and
      the share of the population not observed to pass; a census gives exactly that share. */
  lemma {:induction false} BoundRange(lot: seq<LotItem>, critical: set<DocId>, resolved: set<DocId>, frame: seq<YearFrame>,
                   confidence: real, annual: Option<map<int, int>>)
    requires YearsAscend(frame) && DesignSound(lot, resolved, frame, annual) && 0.0 <= confidence < 1.0
    ensures var r := CriticalBound(lot, critical, resolved, frame, confidence, annual);
            var all, failed := Population(Cells(frame)), CriticalCount(lot, critical);
            && r.Bound?
            && Ratio(failed, all) <= r.upper <= 1.0
            && |lot| - failed <= all
            && r.upper <= Ratio(all - (|lot| - failed), all)
            && ((forall cell :: cell in Cells(frame) ==> Drawn(lot, cell.stratum) == cell.population)
                 ==> r.upper == Ratio(failed, all))
  {
    var cells := Cells(frame);
    var all, failed := Population(cells), CriticalCount(lot, critical);
    UncertainLevel(cells, lot, confidence);
    var upper := UpperTotal(cells, lot, critical, Level(confidence, Uncertain(cells, lot)));
    TotalsRange(cells, lot, critical, Level(confidence, Uncertain(cells, lot)));
    CellsPartitionLot(frame, lot, critical);
    RatioMonotone(failed, upper, all);
    RatioMonotone(upper, all - (|lot| - failed), all);
    RatioMonotone(upper, all, all);
    RatioRange(all, all);
  }

  // ---- when the bound refuses -----------------------------------------------------------

  function Size(frame: seq<YearFrame>): nat {
    if frame == [] then 0
    else
      var last := frame[|frame| - 1];
      Size(frame[..|frame| - 1]) + last.flagged + last.unflagged
  }

  /** Where in the lot the documents of one year and flag are. */
  ghost function Places(lot: seq<LotItem>, year: int, flagged: bool): set<nat> {
    set i: nat | i < |lot| && lot[i].year == year && lot[i].assetReview == flagged
  }

  /** The inputs on which the owner's bound is not defined. */
  datatype Fault =
    | EmptyLot | EmptyFrame | Twice(i: nat, j: nat) | NoSuchYear(i: nat) | OtherIds
    | OtherCount(k: nat) | ExtraYear(year: int) | Overfull(k: nat, flagged: bool) | TooSmall

  ghost predicate Present(f: Fault, lot: seq<LotItem>, resolved: set<DocId>, frame: seq<YearFrame>,
                          annual: Option<map<int, int>>)
  {
    match f
    case EmptyLot => lot == []
    case EmptyFrame => frame == []
    case Twice(i, j) => i < j < |lot| && lot[i].docId == lot[j].docId
    case NoSuchYear(i) => i < |lot| && forall k :: 0 <= k < |frame| ==> frame[k].year != lot[i].year
    case OtherIds =>
      (exists i :: 0 <= i < |lot| && lot[i].docId !in resolved)
      || (exists d :: d in resolved && forall i :: 0 <= i < |lot| ==> lot[i].docId != d)
    case OtherCount(k) =>
      annual.Some? && k < |frame|
      && frame[k].flagged + frame[k].unflagged
         != if frame[k].year in annual.value then annual.value[frame[k].year] else 0
    case ExtraYear(year) =>
      annual.Some? && year in annual.value && annual.value[year] != 0
      && forall k :: 0 <= k < |frame| ==> frame[k].year != year
    case Overfull(k, flagged) =>
      k < |frame| && |Places(lot, frame[k].year, flagged)| > if flagged then frame[k].flagged else frame[k].unflagged
    case TooSmall => |lot| > Size(frame)
  }

  lemma {:induction false} DrawnIsPlaces(lot: seq<LotItem>, year: int, flagged: bool)
    ensures Drawn(lot, Stratum(year, if flagged then Flagged else Unflagged)) == |Places(lot, year, flagged)|
  {
    if lot == [] {
      assert Places(lot, year, flagged) == {};
    } else {
      var last := |lot| - 1;
      DrawnIsPlaces(lot[..last], year, flagged);
      assert Places(lot, year, flagged) == Places(lot[..last], year, flagged)
        + if lot[last].year == year && lot[last].assetReview == flagged then {last} else {};
    }
  }

  lemma {:induction false} PopulationIsSize(frame: seq<YearFrame>)
    ensures Population(Cells(frame)) == Size(frame)
  {
    if frame != [] {
      var last := |frame| - 1;
      PopulationIsSize(frame[..last]);
      var rest, cells := Cells(frame[..last]), Cells(frame);
      assert cells[..2 * last + 1][..2 * last] == rest && cells[..2 * last] == rest;
    }
  }

  lemma {:induction false} CellsOfFrame(frame: seq<YearFrame>)
    ensures forall k :: 0 <= k < |frame| ==>
              && Cells(frame)[2 * k] == FrameCell(Stratum(frame[k].year, Flagged), frame[k].flagged)
              && Cells(frame)[2 * k + 1] == FrameCell(Stratum(frame[k].year, Unflagged), frame[k].unflagged)
  {
    if frame != [] {
      CellsOfFrame(frame[..|frame| - 1]);
    }
  }

  lemma {:induction false} DistinctIdsCount(lot: seq<LotItem>)
    requires NoDuplicates(lot)
    ensures |Ids(lot)| == |lot|
  {
    if lot != [] {
      var last := |lot| - 1;
      DistinctIdsCount(lot[..last]);
      if lot[last].docId in Ids(lot[..last]) {
        IdsFrom(lot[..last], lot[last].docId);
      }
    }
  }

  lemma SoundIsFaultless(f: Fault, lot: seq<LotItem>, resolved: set<DocId>, frame: seq<YearFrame>,
                         annual: Option<map<int, int>>)
    requires DesignSound(lot, resolved, frame, annual)
    ensures !Present(f, lot, resolved, frame, annual)
  {
    match f {
      case NoSuchYear(i) =>
        if i < |lot| {
          assert InFrame(lot[i].Cell(), frame);
        }
      case OtherIds =>
        forall d | d in resolved
          ensures exists i :: 0 <= i < |lot| && lot[i].docId == d
        {
          IdsFrom(lot, d);
        }
      case ExtraYear(year) =>
        if annual.Some? && year in annual.value && annual.value[year] != 0 {
          assert InFrame(Stratum(year, Flagged), frame);
        }
      case Overfull(k, flagged) =>
        if k < |frame| {
          CellsOfFrame(frame);
          DrawnIsPlaces(lot, frame[k].year, flagged);
          assert Cells(frame)[if flagged then 2 * k else 2 * k + 1] in Cells(frame);
        }
      case TooSmall =>
        DistinctIdsCount(lot);
        PopulationIsSize(frame);
      case _ =>
    }
  }

  /** The bound refuses exactly when the evidence has a fault: documents that are not resolved, repeated
      or outside the frame, annual counts that disagree, a cell with more documents than it counts. */
  lemma RefusesExactly(lot: seq<LotItem>, critical: set<DocId>, resolved: set<DocId>, frame: seq<YearFrame>,
                       confidence: real, annual: Option<map<int, int>>)
    ensures CriticalBound(lot, critical, resolved, frame, confidence, annual) == FailClosed
       <==> exists f: Fault :: Present(f, lot, resolved, frame, annual)
  {
    if f: Fault :| Present(f, lot, resolved, frame, annual) {
      if DesignSound(lot, resolved, frame, annual) {
        SoundIsFaultless(f, lot, resolved, frame, annual);
      }
    } else {
      FaultlessIsSound(lot, resolved, frame, annual);
    }
  }

  lemma FaultlessIsSound(lot: seq<LotItem>, resolved: set<DocId>, frame: seq<YearFrame>, annual: Option<map<int, int>>)
    requires forall f: Fault :: !Present(f, lot, resolved, frame, annual)
    ensures DesignSound(lot, resolved, frame, annual)
  {
    assert !Present(EmptyLot, lot, resolved, frame, annual) && !Present(EmptyFrame, lot, resolved, frame, annual);
    assert !Present(TooSmall, lot, resolved, frame, annual) && !Present(OtherIds, lot, resolved, frame, annual);
    forall i, j | 0 <= i < j < |lot|
      ensures lot[i].docId != lot[j].docId
    {
      assert !Present(Twice(i, j), lot, resolved, frame, annual);
    }
    forall i | 0 <= i < |lot|
      ensures InFrame(lot[i].Cell(), frame)
    {
      assert !Present(NoSuchYear(i), lot, resolved, frame, annual);
    }
    DistinctIdsCount(lot);
    PopulationIsSize(frame);
    FaultlessIds(lot, resolved);
    FaultlessAnnual(lot, resolved, frame, annual);
    FaultlessCells(lot, resolved, frame, annual);
  }

  lemma FaultlessIds(lot: seq<LotItem>, resolved: set<DocId>)
    requires !Present(OtherIds, lot, resolved, [], None)
    ensures Ids(lot) == resolved
  {
    forall d
      ensures d in Ids(lot) <==> d in resolved
    {
      if d in Ids(lot) {
        IdsFrom(lot, d);
      }
    }
  }

  lemma FaultlessAnnual(lot: seq<LotItem>, resolved: set<DocId>, frame: seq<YearFrame>, annual: Option<map<int, int>>)
    requires forall f: Fault :: !Present(f, lot, resolved, frame, annual)
    ensures AnnualAgrees(annual, frame)
  {
    if annual.Some? {
      forall k | 0 <= k < |frame|
        ensures (if frame[k].year in annual.value then annual.value[frame[k].year] else 0)
             == frame[k].flagged + frame[k].unflagged
      {
        assert !Present(OtherCount(k), lot, resolved, frame, annual);
      }
      forall y | y in annual.value && annual.value[y] != 0
        ensures InFrame(Stratum(y, Flagged), frame)
      {
        assert !Present(ExtraYear(y), lot, resolved, frame, annual);
      }
    }
  }

  lemma FaultlessCells(lot: seq<LotItem>, resolved: set<DocId>, frame: seq<YearFrame>, annual: Option<map<int, int>>)
    requires forall f: Fault :: !Present(f, lot, resolved, frame, annual)
    ensures forall cell :: cell in Cells(frame) ==> Drawn(lot, cell.stratum) <= cell.population
  {
    var cells := Cells(frame);
    CellsOfFrame(frame);
    forall n | 0 <= n < |cells|
      ensures Drawn(lot, cells[n].stratum) <= cells[n].population
    {
      var k, flagged := n / 2, n % 2 == 0;
      assert n == if flagged then 2 * k else 2 * k + 1;
      assert !Present(Overfull(k, flagged), lot, resolved, frame, annual);
      DrawnIsPlaces(lot, frame[k].year, flagged);
    }
  }

  // ---- what the bound says when it does not refuse ----------------------------------------

  function CountOf(y: YearFrame, flagged: bool): nat {
    if flagged then y.flagged else y.unflagged
  }

  /** Where in the lot the critical failures of one year and flag are. */
  ghost function CriticalPlaces(lot: seq<LotItem>, year: int, flagged: bool, critical: set<DocId>): set<nat> {
    set i: nat | i < |lot| && lot[i].year == year && lot[i].assetReview == flagged && lot[i].docId in critical
  }

  /** The cells of the frame that are sampled in part. */
  ghost function SampledInPart(frame: seq<YearFrame>, lot: seq<LotItem>): set<(nat, bool)> {
    set k: nat, flagged: bool |
      k < |frame| && 0 < |Places(lot, frame[k].year, flagged)| < CountOf(frame[k], flagged) :: (k, flagged)
  }

  /** What a cell may claim: all of it when nothing was drawn or nothing drawn passed, what failed when all was
      drawn, otherwise the largest failure count its draws do not exclude at the level. */
  ghost predicate CellClaims(population: nat, drawn: nat, failed: nat, alpha: real, upper: nat) {
    if drawn == 0 then upper == population
    else if drawn == population then upper == failed
    else if failed == drawn then upper == population
    else IsLargest(upper, population, drawn, failed, alpha * C(population, drawn) as real)
  }

  ghost predicate YearClaims(lot: seq<LotItem>, critical: set<DocId>, y: YearFrame, alpha: real, flagged: bool, upper: nat) {
    CellClaims(CountOf(y, flagged), |Places(lot, y.year, flagged)|, |CriticalPlaces(lot, y.year, flagged, critical)|,
               alpha, upper)
  }

  /** One claim for each cell of the frame. */
  ghost predicate AllClaim(lot: seq<LotItem>, critical: set<DocId>, frame: seq<YearFrame>, alpha: real,
                           uppers: seq<(nat, nat)>)
  {
    |uppers| == |frame| && forall k :: 0 <= k < |frame| ==>
      YearClaims(lot, critical, frame[k], alpha, true, uppers[k].0)
      && YearClaims(lot, critical, frame[k], alpha, false, uppers[k].1)
  }

  function Summed(uppers: seq<(nat, nat)>): nat {
    if uppers == [] then 0
    else
      var last := uppers[|uppers| - 1];
      Summed(uppers[..|uppers| - 1]) + last.0 + last.1
  }

  lemma {:induction false} FailedIsPlaces(lot: seq<LotItem>, year: int, flagged: bool, critical: set<DocId>)
    ensures Failed(lot, Stratum(year, if flagged then Flagged else Unflagged), critical)
         == |CriticalPlaces(lot, year, flagged, critical)|
  {
    if lot == [] {
      assert CriticalPlaces(lot, year, flagged, critical) == {};
    } else {
      var last := |lot| - 1;
      FailedIsPlaces(lot[..last], year, flagged, critical);
      assert CriticalPlaces(lot, year, flagged, critical) == CriticalPlaces(lot[..last], year, flagged, critical)
        + if lot[last].year == year && lot[last].assetReview == flagged && lot[last].docId in critical then {last} else {};
    }
  }

  lemma LastSampled(frame: seq<YearFrame>, lot: seq<LotItem>)
    requires frame != []
    ensures var last := |frame| - 1;
            SampledInPart(frame, lot) == SampledInPart(frame[..last], lot)
              + (if 0 < |Places(lot, frame[last].year, true)| < frame[last].flagged then {(last, true)} else {})
              + (if 0 < |Places(lot, frame[last].year, false)| < frame[last].unflagged then {(last, false)} else {})
  {
  }

  lemma UncertainSnoc(cells: seq<FrameCell>, cell: FrameCell, lot: seq<LotItem>)
    ensures Uncertain(cells + [cell], lot)
         == Uncertain(cells, lot) + if IsUncertain(cell.population, Drawn(lot, cell.stratum)) then 1 else 0
  {
    assert (cells + [cell])[..|cells|] == cells;
  }

  lemma LastUncertain(frame: seq<YearFrame>, lot: seq<LotItem>)
    requires frame != []
    ensures var last := |frame| - 1;
            Uncertain(Cells(frame), lot) == Uncertain(Cells(frame[..last]), lot)
              + (if 0 < |Places(lot, frame[last].year, true)| < frame[last].flagged then 1 else 0)
              + (if 0 < |Places(lot, frame[last].year, false)| < frame[last].unflagged then 1 else 0)
  {
    var last := |frame| - 1;
    var rest := Cells(frame[..last]);
    var a := FrameCell(Stratum(frame[last].year, Flagged), frame[last].flagged);
    var b := FrameCell(Stratum(frame[last].year, Unflagged), frame[last].unflagged);
    assert Cells(frame) == rest + [a] + [b];
    UncertainSnoc(rest, a, lot);
    UncertainSnoc(rest + [a], b, lot);
    DrawnIsPlaces(lot, frame[last].year, true);
    DrawnIsPlaces(lot, frame[last].year, false);
  }

  lemma {:induction false} UncertainIsSampled(frame: seq<YearFrame>, lot: seq<LotItem>)
    ensures Uncertain(Cells(frame), lot) == |SampledInPart(frame, lot)|
  {
    if frame == [] {
      assert SampledInPart(frame, lot) == {};
    } else {
      var last := |frame| - 1;
      UncertainIsSampled(frame[..last], lot);
      LastSampled(frame, lot);
      LastUncertain(frame, lot);
      forall flagged: bool
        ensures (last, flagged) !in SampledInPart(frame[..last], lot)
      {
      }
    }
  }

  /** The claim the program computes for one cell. */
  function Upper(lot: seq<LotItem>, critical: set<DocId>, y: YearFrame, alpha: real, flagged: bool): nat {
    var cell := Stratum(y.year, if flagged then Flagged else Unflagged);
    CellUpper(CountOf(y, flagged), Drawn(lot, cell), Failed(lot, cell, critical), alpha)
  }

  function Uppers(lot: seq<LotItem>, critical: set<DocId>, frame: seq<YearFrame>, alpha: real): seq<(nat, nat)> {
    seq(|frame|, k requires 0 <= k < |frame| =>
      (Upper(lot, critical, frame[k], alpha, true), Upper(lot, critical, frame[k], alpha, false)))
  }

  lemma {:induction false} TotalIsSummed(frame: seq<YearFrame>, lot: seq<LotItem>, critical: set<DocId>, alpha: real)
    ensures UpperTotal(Cells(frame), lot, critical, alpha) == Summed(Uppers(lot, critical, frame, alpha))
  {
    if frame != [] {
      var last := |frame| - 1;
      TotalIsSummed(frame[..last], lot, critical, alpha);
      assert Uppers(lot, critical, frame, alpha)[..last] == Uppers(lot, critical, frame[..last], alpha);
      var rest, cells := Cells(frame[..last]), Cells(frame);
      assert cells[..2 * last + 1][..2 * last] == rest && cells[..2 * last] == rest;
    }
  }

  lemma UpperClaims(lot: seq<LotItem>, critical: set<DocId>, y: YearFrame, alpha: real, flagged: bool)
    requires |Places(lot, y.year, flagged)| <= CountOf(y, flagged)
    ensures YearClaims(lot, critical, y, alpha, flagged, Upper(lot, critical, y, alpha, flagged))
  {
    DrawnIsPlaces(lot, y.year, flagged);
    FailedIsPlaces(lot, y.year, flagged, critical);
    var population, drawn := CountOf(y, flagged), |Places(lot, y.year, flagged)|;
    var failed, need := |CriticalPlaces(lot, y.year, flagged, critical)|, Need(population, drawn, alpha);
    UpperCountIsLargest(failed, drawn, population, need, UpperCount(failed, drawn, population, need));
  }

  /** The error probability a bound may spend, shared equally by the cells sampled in part. */
  ghost predicate SharesError(alpha: real, confidence: real, frame: seq<YearFrame>, lot: seq<LotItem>) {
    SampledInPart(frame, lot) != {} ==> alpha * |SampledInPart(frame, lot)| as real == 1.0 - confidence
  }

  lemma LevelShares(confidence: real, frame: seq<YearFrame>, lot: seq<LotItem>)
    ensures SharesError(Level(confidence, Uncertain(Cells(frame), lot)), confidence, frame, lot)
  {
    UncertainIsSampled(frame, lot);
    if SampledInPart(frame, lot) != {} {
      TimesQuotient(1.0 - confidence, |SampledInPart(frame, lot)|);
    }
  }

  lemma TimesQuotient(x: real, n: nat)
    requires n > 0
    ensures (x / n as real) * n as real == x
  {
  }

  /** The cells' claims, added up and divided by the size of the frame, but no more than 1. */
  predicate IsPooled(upper: real, uppers: seq<(nat, nat)>, size: nat) {
    size > 0 && upper == if Summed(uppers) >= size then 1.0 else Summed(uppers) as real / size as real
  }

  lemma CappedShare(part: nat, whole: nat)
    requires whole > 0
    ensures MinReal(1.0, Ratio(part, whole)) == if part >= whole then 1.0 else part as real / whole as real
  {
    RatioMonotone(whole, part, whole);
    RatioStrict(part, whole, whole);
  }

  /** Where it does not refuse, the bound pools one claim of each cell, at the level at which the cells sampled in part
      share the error probability. */
  lemma BoundSays(lot: seq<LotItem>, critical: set<DocId>, resolved: set<DocId>, frame: seq<YearFrame>, confidence: real,
                  annual: Option<map<int, int>>) returns (alpha: real, uppers: seq<(nat, nat)>)
    requires forall f: Fault :: !Present(f, lot, resolved, frame, annual)
    ensures SharesError(alpha, confidence, frame, lot) && AllClaim(lot, critical, frame, alpha, uppers)
    ensures var r := CriticalBound(lot, critical, resolved, frame, confidence, annual);
            r.Bound? && IsPooled(r.upper, uppers, Size(frame)) && r.Value() == r.upper
  {
    RefusesExactly(lot, critical, resolved, frame, confidence, annual);
    alpha := Level(confidence, Uncertain(Cells(frame), lot));
    uppers := Uppers(lot, critical, frame, alpha);
    LevelShares(confidence, frame, lot);
    PopulationIsSize(frame);
    TotalIsSummed(frame, lot, critical, alpha);
    CappedShare(Summed(uppers), Size(frame));
    forall k | 0 <= k < |frame|
      ensures YearClaims(lot, critical, frame[k], alpha, true, uppers[k].0)
      ensures YearClaims(lot, critical, frame[k], alpha, false, uppers[k].1)
    {
      assert !Present(Overfull(k, true), lot, resolved, frame, annual);
      assert !Present(Overfull(k, false), lot, resolved, frame, annual);
      UpperClaims(lot, critical, frame[k], alpha, true);
      UpperClaims(lot, critical, frame[k], alpha, false);
    }
  }
}
