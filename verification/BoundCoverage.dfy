/** Coverage of the acceptance bound itself: of all lots the design can draw from a population, at
    most the share 1 - confidence make the computed bound understate the population's failures. */
module BoundCoverage {
  import opened AuditTypes
  import opened Hypergeometric
  import opened StratifiedBound
  import opened Coverage
  import opened LotCoverage
  import Sampling

  /** The population behind a frame: each cell's documents, with no id in two places. */
  ghost predicate Universe(pops: seq<Pop>, frame: seq<YearFrame>) {
    && YearsAscend(frame) && PopsOk(pops) && |pops| == |Cells(frame)|
    && (forall h :: 0 <= h < |pops| ==> Matches(pops[h], Cells(frame)[h]))
    && (forall g, h :: 0 <= g < h < |pops| ==> Apart(pops[g].docs, pops[h].docs))
  }

  ghost predicate Matches(pop: Pop, cell: FrameCell) {
    && pop.stratum == cell.stratum && |pop.docs| == cell.population
    && forall i :: 0 <= i < |pop.docs| ==> pop.docs[i].Cell() == pop.stratum
  }

  ghost predicate Apart(a: seq<LotItem>, b: seq<LotItem>) {
    forall i, j :: 0 <= i < |a| && 0 <= j < |b| ==> a[i].docId != b[j].docId
  }

  ghost predicate IsPick(pick: Pick, pops: seq<Pop>) {
    |pick| == |pops| && forall h :: 0 <= h < |pops| ==> IsDraw(pick[h], pops[h].docs, pops[h].draws)
  }

  // ---- each listed lot is one, once ---------------------------------------------------------------

  lemma {:induction false} CombinedAt(draws: seq<seq<LotItem>>, rest: seq<Pick>, i: nat) returns (j: nat, k: nat)
    requires i < |Combined(draws, rest)|
    ensures j < |draws| && k < |rest| && i == j * |rest| + k
    ensures Combined(draws, rest)[i] == [draws[j]] + rest[k]
    decreases |draws|
  {
    if i < |rest| {
      j, k := 0, i;
    } else {
      var before;
      before, k := CombinedAt(draws[1..], rest, i - |rest|);
      j := before + 1;
      OneMoreTimes(before, |rest|);
    }
  }

  lemma {:induction false} PicksAreLots(pops: seq<Pop>, i: nat)
    requires PopsOk(pops) && i < |Picks(pops)|
    ensures IsPick(Picks(pops)[i], pops)
  {
    if pops != [] {
      var draws, rest := DrawsOf(pops[0].docs, pops[0].draws), Picks(pops[1..]);
      var j, k := CombinedAt(draws, rest, i);
      DrawsAreDraws(pops[0].docs, pops[0].draws, j);
      PicksAreLots(pops[1..], k);
      PickCons(pops, draws[j], rest[k]);
    }
  }

  lemma PickCons(pops: seq<Pop>, draw: seq<LotItem>, rest: Pick)
    requires pops != [] && IsDraw(draw, pops[0].docs, pops[0].draws) && IsPick(rest, pops[1..])
    ensures IsPick([draw] + rest, pops)
  {
    forall h | 0 <= h < |pops|
      ensures IsDraw(([draw] + rest)[h], pops[h].docs, pops[h].draws)
    {
      if h > 0 {
        assert IsDraw(rest[h - 1], pops[1..][h - 1].docs, pops[1..][h - 1].draws);
      }
    }
  }

  /** No lot is counted twice. */
  lemma {:induction false} PicksDiffer(pops: seq<Pop>, i: nat, j: nat)
    requires PopsOk(pops) && i < j < |Picks(pops)|
    ensures Picks(pops)[i] != Picks(pops)[j]
    decreases |pops|
  {
    if pops != [] {
      var draws, rest := DrawsOf(pops[0].docs, pops[0].draws), Picks(pops[1..]);
      var a, b := CombinedAt(draws, rest, i);
      var c, d := CombinedAt(draws, rest, j);
      if a == c {
        PicksDiffer(pops[1..], if b < d then b else d, if b < d then d else b);
      } else {
        DrawsDiffer(pops[0].docs, pops[0].draws, if a < c then a else c, if a < c then c else a);
      }
      PairsDiffer(draws[a], rest[b], draws[c], rest[d]);
    }
  }

  lemma PairsDiffer(x: seq<LotItem>, p: Pick, y: seq<LotItem>, q: Pick)
    ensures x != y || p != q ==> [x] + p != [y] + q
  {
    if [x] + p == [y] + q {
      assert ([x] + p)[0] == ([y] + q)[0] && ([x] + p)[1..] == ([y] + q)[1..];
      assert ([x] + p)[1..] == p && ([y] + q)[1..] == q;
    }
  }

  // ---- cells of a lot ---------------------------------------------------------------------------------

  lemma {:induction false} OneCell(part: seq<LotItem>, s: Stratum, c: Stratum, bad: set<DocId>)
    requires forall i :: 0 <= i < |part| ==> part[i].Cell() == s
    ensures Drawn(part, c) == if c == s then |part| else 0
    ensures Failed(part, c, bad) == if c == s then CriticalCount(part, bad) else 0
  {
    if part != [] {
      OneCell(part[..|part| - 1], s, c, bad);
    }
  }

  lemma {:induction false} FailedAppend(a: seq<LotItem>, b: seq<LotItem>, cell: Stratum, bad: set<DocId>)
    ensures Failed(a + b, cell, bad) == Failed(a, cell, bad) + Failed(b, cell, bad)
    decreases |b|
  {
    if b == [] {
      assert a + b == a;
    } else {
      assert (a + b)[..|a| + |b| - 1] == a + b[..|b| - 1];
      FailedAppend(a, b[..|b| - 1], cell, bad);
    }
  }

  lemma {:induction false} AtLeastTwice(cells: seq<FrameCell>, g: nat, h: nat)
    requires g < h < |cells| && cells[g].stratum == cells[h].stratum
    ensures Occurrences(cells, cells[h].stratum) >= 2
  {
    var last := |cells| - 1;
    if h < last {
      AtLeastTwice(cells[..last], g, h);
    } else {
      AtLeastOnce(cells[..last], g);
    }
  }

  lemma {:induction false} AtLeastOnce(cells: seq<FrameCell>, g: nat)
    requires g < |cells|
    ensures Occurrences(cells, cells[g].stratum) >= 1
  {
    if g < |cells| - 1 {
      AtLeastOnce(cells[..|cells| - 1], g);
    }
  }

  lemma StrataDiffer(pops: seq<Pop>, frame: seq<YearFrame>, g: nat, h: nat)
    requires Universe(pops, frame) && g < |pops| && h < |pops| && g != h
    ensures pops[g].stratum != pops[h].stratum
  {
    assert Matches(pops[g], Cells(frame)[g]) && Matches(pops[h], Cells(frame)[h]);
    CellsAreDistinct(frame, pops[h].stratum);
    if pops[g].stratum == pops[h].stratum {
      AtLeastTwice(Cells(frame), if g < h then g else h, if g < h then h else g);
    }
  }

  lemma PartInCell(pops: seq<Pop>, frame: seq<YearFrame>, pick: Pick, g: nat)
    requires Universe(pops, frame) && IsPick(pick, pops) && g < |pops|
    ensures forall i :: 0 <= i < |pick[g]| ==> pick[g][i].Cell() == pops[g].stratum
  {
    assert Matches(pops[g], Cells(frame)[g]) && IsDraw(pick[g], pops[g].docs, pops[g].draws);
    forall i | 0 <= i < |pick[g]|
      ensures pick[g][i].Cell() == pops[g].stratum
    {
      assert pick[g][i] in pops[g].docs;
    }
  }

  /** A lot shows in each cell exactly its draw and its draw's failures. */
  lemma {:induction false} CellOfLot(pops: seq<Pop>, frame: seq<YearFrame>, pick: Pick, bad: set<DocId>, k: nat, h: nat)
    requires Universe(pops, frame) && IsPick(pick, pops) && k <= |pops| && h < |pops|
    ensures Drawn(LotOf(pick[..k]), pops[h].stratum) == if h < k then pops[h].draws else 0
    ensures Failed(LotOf(pick[..k]), pops[h].stratum, bad) == if h < k then CriticalCount(pick[h], bad) else 0
    decreases k
  {
    if k > 0 {
      var g := k - 1;
      var before, part := LotOf(pick[..g]), pick[g];
      CellOfLot(pops, frame, pick, bad, g, h);
      assert pick[..k][..g] == pick[..g];
      PartInCell(pops, frame, pick, g);
      OneCell(part, pops[g].stratum, pops[h].stratum, bad);
      Sampling.DrawnAppend(before, part, pops[h].stratum);
      FailedAppend(before, part, pops[h].stratum, bad);
      assert IsDraw(pick[g], pops[g].docs, pops[g].draws);
      if h != g {
        StrataDiffer(pops, frame, g, h);
      }
    }
  }

  /** Auditing a lot finds its failing documents, and no others matter to the bound. */
  lemma {:induction false} FoundIsBad(part: seq<LotItem>, cell: Stratum, bad: set<DocId>, ids: set<DocId>)
    requires Ids(part) <= ids
    ensures Failed(part, cell, bad * ids) == Failed(part, cell, bad)
  {
    if part != [] {
      FoundIsBad(part[..|part| - 1], cell, bad, ids);
    }
  }

  // ---- the computed bound of a lot -----------------------------------------------------------------------

  lemma {:induction false} ClaimedSnoc(pops: seq<Pop>, pick: Pick, bad: set<DocId>, alpha: real)
    requires |pick| == |pops| && pops != []
    ensures var last := |pops| - 1;
            Claimed(pops, pick, bad, alpha) == Claimed(pops[..last], pick[..last], bad, alpha)
              + CellUpper(|pops[last].docs|, pops[last].draws, CriticalCount(pick[last], bad), alpha)
    decreases |pops|
  {
    var last := |pops| - 1;
    if last > 0 {
      ClaimedSnoc(pops[1..], pick[1..], bad, alpha);
      assert pops[1..][..last - 1] == pops[..last][1..] && pick[1..][..last - 1] == pick[..last][1..];
    }
  }

  lemma {:induction false} UncertainSnoc(cells: seq<TrueCell>)
    requires cells != []
    ensures var last := |cells| - 1;
            UncertainCells(cells) == UncertainCells(cells[..last])
              + if IsUncertain(cells[last].population, cells[last].draws) then 1 else 0
    decreases |cells|
  {
    var last := |cells| - 1;
    if last > 0 {
      UncertainSnoc(cells[1..]);
      assert cells[1..][..last - 1] == cells[..last][1..];
    }
  }

  function Size(pops: seq<Pop>): nat {
    if pops == [] then 0 else Size(pops[..|pops| - 1]) + |pops[|pops| - 1].docs|
  }

  lemma {:induction false} TruthSnoc(pops: seq<Pop>, bad: set<DocId>)
    requires pops != []
    ensures Truth(pops, bad) == Truth(pops[..|pops| - 1], bad) + CriticalCount(pops[|pops| - 1].docs, bad)
    decreases |pops|
  {
    var last := |pops| - 1;
    if last > 0 {
      TruthSnoc(pops[1..], bad);
      assert pops[1..][..last - 1] == pops[..last][1..];
    }
  }

  lemma {:induction false} TruthWithin(pops: seq<Pop>, bad: set<DocId>)
    ensures Truth(pops, bad) <= Size(pops)
  {
    if pops != [] {
      TruthWithin(pops[..|pops| - 1], bad);
      TruthSnoc(pops, bad);
    }
  }

  /** What the program sees of one cell of a lot. */
  ghost predicate SeenAt(cell: FrameCell, lot: seq<LotItem>, critical: set<DocId>, pop: Pop, draw: seq<LotItem>,
                         bad: set<DocId>)
  {
    && cell.population == |pop.docs| && Drawn(lot, cell.stratum) == pop.draws
    && Failed(lot, cell.stratum, critical) == CriticalCount(draw, bad)
  }

  ghost predicate Seen(cells: seq<FrameCell>, lot: seq<LotItem>, critical: set<DocId>, pops: seq<Pop>, pick: Pick,
                       bad: set<DocId>)
  {
    && |cells| == |pops| == |pick|
    && forall g :: 0 <= g < |pops| ==> SeenAt(cells[g], lot, critical, pops[g], pick[g], bad)
  }

  lemma LotSeen(pops: seq<Pop>, frame: seq<YearFrame>, pick: Pick, bad: set<DocId>)
    requires Universe(pops, frame) && IsPick(pick, pops)
    ensures Seen(Cells(frame), LotOf(pick), bad * Ids(LotOf(pick)), pops, pick, bad)
  {
    forall g | 0 <= g < |pops|
      ensures SeenAt(Cells(frame)[g], LotOf(pick), bad * Ids(LotOf(pick)), pops[g], pick[g], bad)
    {
      assert Matches(pops[g], Cells(frame)[g]);
      assert pick[..|pops|] == pick;
      CellOfLot(pops, frame, pick, bad, |pops|, g);
      FoundIsBad(LotOf(pick), pops[g].stratum, bad, Ids(LotOf(pick)));
    }
  }

  lemma UpperStep(cells: seq<FrameCell>, lot: seq<LotItem>, critical: set<DocId>, alpha: real, k: nat)
    requires k < |cells|
    ensures UpperTotal(cells[..k + 1], lot, critical, alpha) == UpperTotal(cells[..k], lot, critical, alpha)
              + CellUpper(cells[k].population, Drawn(lot, cells[k].stratum), Failed(lot, cells[k].stratum, critical), alpha)
  {
    assert cells[..k + 1][..k] == cells[..k];
  }

  lemma UncertainStep(cells: seq<FrameCell>, lot: seq<LotItem>, k: nat)
    requires k < |cells|
    ensures Uncertain(cells[..k + 1], lot) == Uncertain(cells[..k], lot)
              + if IsUncertain(cells[k].population, Drawn(lot, cells[k].stratum)) then 1 else 0
  {
    assert cells[..k + 1][..k] == cells[..k];
  }

  lemma ClaimedStep(pops: seq<Pop>, pick: Pick, bad: set<DocId>, alpha: real, k: nat)
    requires |pick| == |pops| && k < |pops|
    ensures Claimed(pops[..k + 1], pick[..k + 1], bad, alpha) == Claimed(pops[..k], pick[..k], bad, alpha)
              + CellUpper(|pops[k].docs|, pops[k].draws, CriticalCount(pick[k], bad), alpha)
  {
    ClaimedSnoc(pops[..k + 1], pick[..k + 1], bad, alpha);
    assert pops[..k + 1][..k] == pops[..k] && pick[..k + 1][..k] == pick[..k];
  }

  lemma TrueStep(cells: seq<TrueCell>, k: nat)
    requires k < |cells|
    ensures UncertainCells(cells[..k + 1]) == UncertainCells(cells[..k])
              + if IsUncertain(cells[k].population, cells[k].draws) then 1 else 0
  {
    UncertainSnoc(cells[..k + 1]);
    assert cells[..k + 1][..k] == cells[..k];
  }

  lemma {:induction false} UpperOfLot(cells: seq<FrameCell>, lot: seq<LotItem>, critical: set<DocId>, pops: seq<Pop>,
                                      pick: Pick, bad: set<DocId>, alpha: real, k: nat)
    requires Seen(cells, lot, critical, pops, pick, bad) && k <= |pops|
    ensures UpperTotal(cells[..k], lot, critical, alpha) == Claimed(pops[..k], pick[..k], bad, alpha)
    decreases k
  {
    if k > 0 {
      UpperOfLot(cells, lot, critical, pops, pick, bad, alpha, k - 1);
      assert SeenAt(cells[k - 1], lot, critical, pops[k - 1], pick[k - 1], bad);
      UpperStep(cells, lot, critical, alpha, k - 1);
      ClaimedStep(pops, pick, bad, alpha, k - 1);
    }
  }

  lemma {:induction false} UncertainOfLot(cells: seq<FrameCell>, lot: seq<LotItem>, critical: set<DocId>, pops: seq<Pop>,
                                          pick: Pick, bad: set<DocId>, k: nat)
    requires Seen(cells, lot, critical, pops, pick, bad) && k <= |pops|
    ensures Uncertain(cells[..k], lot) == UncertainCells(TrueCells(pops, bad)[..k])
    decreases k
  {
    if k > 0 {
      UncertainOfLot(cells, lot, critical, pops, pick, bad, k - 1);
      assert SeenAt(cells[k - 1], lot, critical, pops[k - 1], pick[k - 1], bad);
      UncertainStep(cells, lot, k - 1);
      TrueStep(TrueCells(pops, bad), k - 1);
    }
  }

  lemma PopulationStep(cells: seq<FrameCell>, pops: seq<Pop>, k: nat)
    requires k < |cells| == |pops|
    ensures Population(cells[..k + 1]) == Population(cells[..k]) + cells[k].population
    ensures Size(pops[..k + 1]) == Size(pops[..k]) + |pops[k].docs|
  {
    assert cells[..k + 1][..k] == cells[..k] && pops[..k + 1][..k] == pops[..k];
  }

  lemma {:induction false} PopulationOfCells(cells: seq<FrameCell>, lot: seq<LotItem>, critical: set<DocId>,
                                             pops: seq<Pop>, pick: Pick, bad: set<DocId>, k: nat)
    requires Seen(cells, lot, critical, pops, pick, bad) && k <= |pops|
    ensures Population(cells[..k]) == Size(pops[..k])
    decreases k
  {
    if k > 0 {
      PopulationOfCells(cells, lot, critical, pops, pick, bad, k - 1);
      assert SeenAt(cells[k - 1], lot, critical, pops[k - 1], pick[k - 1], bad);
      PopulationStep(cells, pops, k - 1);
    }
  }

  /** The lot's computed bound lies below the true failure share. */
  ghost predicate Understates(pops: seq<Pop>, frame: seq<YearFrame>, pick: Pick, bad: set<DocId>, confidence: real,
                              annual: Option<map<int, int>>)
    requires Population(Cells(frame)) > 0
  {
    var lot := LotOf(pick);
    CriticalBound(lot, bad * Ids(lot), Ids(lot), frame, confidence, annual).Value()
      < Ratio(Truth(pops, bad), Population(Cells(frame)))
  }

  function DesignLevel(pops: seq<Pop>, bad: set<DocId>, confidence: real): real {
    Level(confidence, UncertainCells(TrueCells(pops, bad)))
  }

  /** The program's totals over a lot are those of its draws. */
  lemma WholeTotals(pops: seq<Pop>, frame: seq<YearFrame>, pick: Pick, bad: set<DocId>, alpha: real)
    requires Universe(pops, frame) && IsPick(pick, pops)
    ensures var lot := LotOf(pick);
            && Population(Cells(frame)) == Size(pops)
            && Uncertain(Cells(frame), lot) == UncertainCells(TrueCells(pops, bad))
            && UpperTotal(Cells(frame), lot, bad * Ids(lot), alpha) == Claimed(pops, pick, bad, alpha)
  {
    var n := |pops|;
    LotSeen(pops, frame, pick, bad);
    PopulationOfCells(Cells(frame), LotOf(pick), bad * Ids(LotOf(pick)), pops, pick, bad, n);
    UncertainOfLot(Cells(frame), LotOf(pick), bad * Ids(LotOf(pick)), pops, pick, bad, n);
    UpperOfLot(Cells(frame), LotOf(pick), bad * Ids(LotOf(pick)), pops, pick, bad, alpha, n);
    assert pops[..n] == pops && pick[..n] == pick && Cells(frame)[..n] == Cells(frame)
        && TrueCells(pops, bad)[..n] == TrueCells(pops, bad);
  }

  /** The bound understates exactly the lots whose claim is below the truth, if the lot passes the
      fail-closed checks; a refused lot never understates. */
  lemma UnderstatesExactly(pops: seq<Pop>, frame: seq<YearFrame>, pick: Pick, bad: set<DocId>, confidence: real,
                           annual: Option<map<int, int>>)
    requires Universe(pops, frame) && IsPick(pick, pops) && Population(Cells(frame)) > 0
    ensures Understates(pops, frame, pick, bad, confidence, annual)
       <==> DesignSound(LotOf(pick), Ids(LotOf(pick)), frame, annual)
            && Below(pops, pick, bad, DesignLevel(pops, bad, confidence), 0)
  {
    var lot, all := LotOf(pick), Population(Cells(frame));
    var alpha := DesignLevel(pops, bad, confidence);
    WholeTotals(pops, frame, pick, bad, alpha);
    TruthWithin(pops, bad);
    if DesignSound(lot, Ids(lot), frame, annual) {
      PooledBoundMisses(UpperTotal(Cells(frame), lot, bad * Ids(lot), alpha), Truth(pops, bad), all);
    } else {
      RatioRange(Truth(pops, bad), all);
    }
  }

  // ---- the listed lots pass the checks -------------------------------------------------------------------

  /** Item i of a lot's first k parts comes from one of the first k cells. */
  ghost predicate FromCells(lot: seq<LotItem>, pops: seq<Pop>, k: nat) {
    k <= |pops| && forall i :: 0 <= i < |lot| ==> InCells(lot[i], pops, k)
  }

  ghost predicate InCells(item: LotItem, pops: seq<Pop>, k: nat)
    requires k <= |pops|
  {
    exists g :: 0 <= g < k && item in pops[g].docs
  }

  lemma {:induction false} PartsJoin(pops: seq<Pop>, frame: seq<YearFrame>, pick: Pick, k: nat)
    requires Universe(pops, frame) && IsPick(pick, pops) && k <= |pops|
    ensures NoDuplicates(LotOf(pick[..k])) && FromCells(LotOf(pick[..k]), pops, k)
    decreases k
  {
    if k > 0 {
      var g := k - 1;
      PartsJoin(pops, frame, pick, g);
      assert pick[..k][..g] == pick[..g];
      assert IsDraw(pick[g], pops[g].docs, pops[g].draws);
      JoinApart(LotOf(pick[..g]), pick[g], pops, g);
    }
  }

  lemma JoinApart(before: seq<LotItem>, part: seq<LotItem>, pops: seq<Pop>, g: nat)
    requires g < |pops| && NoDuplicates(before) && FromCells(before, pops, g)
    requires NoDuplicates(part) && forall i :: 0 <= i < |part| ==> part[i] in pops[g].docs
    requires forall h :: 0 <= h < g ==> Apart(pops[h].docs, pops[g].docs)
    ensures NoDuplicates(before + part) && FromCells(before + part, pops, g + 1)
  {
    var all := before + part;
    forall i, j | 0 <= i < |before| && 0 <= j < |part|
      ensures before[i].docId != part[j].docId
    {
      assert InCells(before[i], pops, g);
      var h :| 0 <= h < g && before[i] in pops[h].docs;
      var x :| 0 <= x < |pops[h].docs| && pops[h].docs[x] == before[i];
      var y :| 0 <= y < |pops[g].docs| && pops[g].docs[y] == part[j];
      assert pops[h].docs[x].docId != pops[g].docs[y].docId;
    }
    forall i | 0 <= i < |all|
      ensures InCells(all[i], pops, g + 1)
    {
      if i < |before| {
        assert InCells(before[i], pops, g);
        var h :| 0 <= h < g && before[i] in pops[h].docs;
        assert all[i] in pops[h].docs;
      } else {
        assert all[i] == part[i - |before|] && all[i] in pops[g].docs;
      }
    }
  }

  lemma LotInFrame(pops: seq<Pop>, frame: seq<YearFrame>, lot: seq<LotItem>)
    requires Universe(pops, frame) && FromCells(lot, pops, |pops|)
    ensures AllInFrame(lot, frame)
  {
    forall i | 0 <= i < |lot|
      ensures InFrame(lot[i].Cell(), frame)
    {
      assert InCells(lot[i], pops, |pops|);
      var g :| 0 <= g < |pops| && lot[i] in pops[g].docs;
      var cell := Cells(frame)[g];
      assert Matches(pops[g], cell);
      Sampling.CellOfFrame(frame, cell);
      var y :| 0 <= y < |frame|
            && cell == FrameCell(Stratum(frame[y].year, cell.stratum.group),
                                 if cell.stratum.group.Flagged? then frame[y].flagged else frame[y].unflagged);
      assert lot[i].Cell() == cell.stratum && frame[y].year == lot[i].Cell().year;
    }
  }

  /** Every nonempty lot listed passes the fail-closed checks, so its bound is the computed one. */
  lemma PickIsSound(pops: seq<Pop>, frame: seq<YearFrame>, pick: Pick, annual: Option<map<int, int>>)
    requires Universe(pops, frame) && IsPick(pick, pops) && LotOf(pick) != [] && AnnualAgrees(annual, frame)
    ensures DesignSound(LotOf(pick), Ids(LotOf(pick)), frame, annual)
  {
    assert pick[..|pops|] == pick;
    PartsJoin(pops, frame, pick, |pops|);
    LotInFrame(pops, frame, LotOf(pick));
    LotSeen(pops, frame, pick, {});
    forall cell | cell in Cells(frame)
      ensures Drawn(LotOf(pick), cell.stratum) <= cell.population
    {
      var g :| 0 <= g < |Cells(frame)| && Cells(frame)[g] == cell;
      assert SeenAt(Cells(frame)[g], LotOf(pick), {} * Ids(LotOf(pick)), pops[g], pick[g], {});
    }
    Sampling.DrawsGiveSoundDesign(LotOf(pick), frame, annual);
  }

  // ---- coverage -------------------------------------------------------------------------------------------

  /** How many of the listed lots the bound understates. */
  ghost function Understated(pops: seq<Pop>, frame: seq<YearFrame>, picks: seq<Pick>, bad: set<DocId>, confidence: real,
                             annual: Option<map<int, int>>): nat
    requires Population(Cells(frame)) > 0
  {
    if picks == [] then 0
    else Understated(pops, frame, picks[..|picks| - 1], bad, confidence, annual)
         + if Understates(pops, frame, picks[|picks| - 1], bad, confidence, annual) then 1 else 0
  }

  lemma {:induction false} UnderstatedAreMisses(pops: seq<Pop>, frame: seq<YearFrame>, picks: seq<Pick>, bad: set<DocId>,
                                                confidence: real, annual: Option<map<int, int>>)
    requires Universe(pops, frame) && Population(Cells(frame)) > 0
    requires forall i :: 0 <= i < |picks| ==> IsPick(picks[i], pops)
    ensures Understated(pops, frame, picks, bad, confidence, annual)
         <= MissCount(pops, picks, bad, DesignLevel(pops, bad, confidence), 0)
  {
    if picks != [] {
      var last := |picks| - 1;
      UnderstatedAreMisses(pops, frame, picks[..last], bad, confidence, annual);
      UnderstatesExactly(pops, frame, picks[last], bad, confidence, annual);
    }
  }

  /** Simultaneous coverage of the acceptance bound. Whatever the population, its failing documents,
      the draws per cell, the confidence and the annual counts: of all lots the design can draw, at
      most the share 1 - confidence gives a bound below the true failure share. */
  lemma BoundCovers(pops: seq<Pop>, frame: seq<YearFrame>, bad: set<DocId>, confidence: real, annual: Option<map<int, int>>)
    requires Universe(pops, frame) && Population(Cells(frame)) > 0 && 0.0 <= confidence <= 1.0
    ensures Understated(pops, frame, Picks(pops), bad, confidence, annual) as real
         <= Share(1.0 - confidence, |Picks(pops)|)
  {
    var trues := TrueCells(pops, bad);
    forall i | 0 <= i < |Picks(pops)|
      ensures IsPick(Picks(pops)[i], pops)
    {
      PicksAreLots(pops, i);
    }
    UnderstatedAreMisses(pops, frame, Picks(pops), bad, confidence, annual);
    LotsAreVectors(pops, bad, DesignLevel(pops, bad, confidence), 0);
    SimultaneousCoverage(trues, confidence);
    PicksNumber(pops, bad);
  }
}
