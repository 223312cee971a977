/** Coverage of the bound the report actually computes: every lot the design can draw is listed
    once, and at most the share 1 - confidence of these lots gives a bound below the truth. */
module LotCoverage {
  import opened AuditTypes
  import opened Binomials
  import opened Hypergeometric
  import opened StratifiedBound
  import opened Coverage
  import Sampling

  /** The documents of one cell and how many of them are drawn. */
  datatype Pop = Pop(stratum: Stratum, docs: seq<LotItem>, draws: nat)

  /** One lot, as its draw from every cell. */
  type Pick = seq<seq<LotItem>>

  // ---- every lot the design can draw -----------------------------------------------------------

  function Prefixed(item: LotItem, draws: seq<seq<LotItem>>): seq<seq<LotItem>> {
    seq(|draws|, i requires 0 <= i < |draws| => [item] + draws[i])
  }

  /** All ways to draw n of the listed documents: without the first one, or with it. */
  function DrawsOf(docs: seq<LotItem>, n: int): seq<seq<LotItem>> {
    if docs == [] then (if n == 0 then [[]] else [])
    else DrawsOf(docs[1..], n) + Prefixed(docs[0], DrawsOf(docs[1..], n - 1))
  }

  function Continued(draw: seq<LotItem>, rest: seq<Pick>): seq<Pick> {
    seq(|rest|, i requires 0 <= i < |rest| => [draw] + rest[i])
  }

  function Combined(draws: seq<seq<LotItem>>, rest: seq<Pick>): seq<Pick> {
    if draws == [] then [] else Continued(draws[0], rest) + Combined(draws[1..], rest)
  }

  /** All joint draws, one choice per cell. */
  function Picks(pops: seq<Pop>): seq<Pick> {
    if pops == [] then [[]] else Combined(DrawsOf(pops[0].docs, pops[0].draws), Picks(pops[1..]))
  }

  /** The lot of a joint draw. */
  function LotOf(pick: Pick): seq<LotItem> {
    if pick == [] then [] else LotOf(pick[..|pick| - 1]) + pick[|pick| - 1]
  }

  // ---- counting draws by their failures ------------------------------------------------------------

  function FailCounts(draws: seq<seq<LotItem>>, bad: set<DocId>): seq<nat> {
    seq(|draws|, i requires 0 <= i < |draws| => CriticalCount(draws[i], bad))
  }

  function Fails(docs: seq<LotItem>, bad: set<DocId>): seq<bool> {
    seq(|docs|, i requires 0 <= i < |docs| => docs[i].docId in bad)
  }

  function Occurs(counts: seq<nat>, f: int): nat {
    if counts == [] then 0
    else Occurs(counts[..|counts| - 1], f) + if counts[|counts| - 1] == f then 1 else 0
  }

  lemma {:induction false} OccursAppend(a: seq<nat>, b: seq<nat>, f: int)
    ensures Occurs(a + b, f) == Occurs(a, f) + Occurs(b, f)
    decreases |b|
  {
    if b == [] {
      assert a + b == a;
    } else {
      assert (a + b)[..|a| + |b| - 1] == a + b[..|b| - 1];
      OccursAppend(a, b[..|b| - 1], f);
    }
  }

  lemma {:induction false} CountCons(item: LotItem, draw: seq<LotItem>, bad: set<DocId>)
    ensures CriticalCount([item] + draw, bad) == CriticalCount(draw, bad) + if item.docId in bad then 1 else 0
    decreases |draw|
  {
    var all := [item] + draw;
    if draw == [] {
      assert all[..0] == [] && all == [item];
    } else {
      assert all[..|all| - 1] == [item] + draw[..|draw| - 1];
      CountCons(item, draw[..|draw| - 1], bad);
    }
  }

  lemma {:induction false} OccursPrefixed(item: LotItem, draws: seq<seq<LotItem>>, bad: set<DocId>, f: int)
    ensures Occurs(FailCounts(Prefixed(item, draws), bad), f)
         == Occurs(FailCounts(draws, bad), if item.docId in bad then f - 1 else f)
    decreases |draws|
  {
    if draws != [] {
      var last := |draws| - 1;
      OccursPrefixed(item, draws[..last], bad, f);
      CountCons(item, draws[last], bad);
      assert FailCounts(draws, bad)[..last] == FailCounts(draws[..last], bad);
      assert FailCounts(Prefixed(item, draws), bad)[..last] == FailCounts(Prefixed(item, draws[..last]), bad);
    }
  }

  lemma FailCountsAppend(a: seq<seq<LotItem>>, b: seq<seq<LotItem>>, bad: set<DocId>)
    ensures FailCounts(a + b, bad) == FailCounts(a, bad) + FailCounts(b, bad)
  {
  }

  lemma FailsTail(docs: seq<LotItem>, bad: set<DocId>)
    requires docs != []
    ensures Fails(docs, bad) == [docs[0].docId in bad] + Fails(docs[1..], bad)
  {
  }

  /** The listed draws with f failures are as many as the weight counts. */
  lemma {:induction false} DrawsCounted(docs: seq<LotItem>, n: int, f: int, bad: set<DocId>)
    ensures Occurs(FailCounts(DrawsOf(docs, n), bad), f) == Draws(Fails(docs, bad), n, f)
  {
    if docs == [] {
      assert FailCounts([[]], bad) == [0] && [0][..0] == [];
    } else {
      var without, including := DrawsOf(docs[1..], n), DrawsOf(docs[1..], n - 1);
      FailsTail(docs, bad);
      assert Fails(docs, bad)[1..] == Fails(docs[1..], bad);
      DrawsCounted(docs[1..], n, f, bad);
      DrawsCounted(docs[1..], n - 1, if docs[0].docId in bad then f - 1 else f, bad);
      OccursPrefixed(docs[0], including, bad, f);
      FailCountsAppend(without, Prefixed(docs[0], including), bad);
      OccursAppend(FailCounts(without, bad), FailCounts(Prefixed(docs[0], including), bad), f);
    }
  }

  lemma {:induction false} FailingIsCritical(docs: seq<LotItem>, bad: set<DocId>)
    ensures Failing(Fails(docs, bad)) == CriticalCount(docs, bad)
  {
    if docs != [] {
      FailingIsCritical(docs[1..], bad);
      assert Fails(docs, bad)[1..] == Fails(docs[1..], bad);
      assert docs == [docs[0]] + docs[1..];
      CountCons(docs[0], docs[1..], bad);
    }
  }

  lemma DrawsWeighed(docs: seq<LotItem>, n: int, f: int, bad: set<DocId>)
    ensures CriticalCount(docs, bad) <= |docs|
    ensures Occurs(FailCounts(DrawsOf(docs, n), bad), f)
         == Weight(CriticalCount(docs, bad), |docs| - CriticalCount(docs, bad), n, f)
  {
    DrawsCounted(docs, n, f, bad);
    DrawsAreWeights(Fails(docs, bad), n, f);
    FailingIsCritical(docs, bad);
  }

  lemma {:induction false} DrawsNumber(docs: seq<LotItem>, n: int)
    ensures |DrawsOf(docs, n)| == C(|docs|, n)
  {
    if docs != [] {
      DrawsNumber(docs[1..], n);
      DrawsNumber(docs[1..], n - 1);
      Pascal(|docs| - 1, n);
    }
  }

  // ---- what a draw is -------------------------------------------------------------------------------

  /** n different documents of the list. */
  ghost predicate IsDraw(draw: seq<LotItem>, docs: seq<LotItem>, n: int) {
    |draw| == n && NoDuplicates(draw) && forall i :: 0 <= i < |draw| ==> draw[i] in docs
  }

  lemma TailDistinct(docs: seq<LotItem>)
    requires NoDuplicates(docs) && docs != []
    ensures NoDuplicates(docs[1..]) && forall i :: 0 <= i < |docs[1..]| ==> docs[1..][i].docId != docs[0].docId
  {
    var tail := docs[1..];
    forall i, j | 0 <= i < j < |tail|
      ensures tail[i].docId != tail[j].docId
    {
      assert docs[i + 1].docId != docs[j + 1].docId;
    }
    forall i | 0 <= i < |tail|
      ensures tail[i].docId != docs[0].docId
    {
      assert docs[0].docId != docs[i + 1].docId;
    }
  }

  lemma OneMoreDrawn(item: LotItem, draw: seq<LotItem>, docs: seq<LotItem>, n: int)
    requires IsDraw(draw, docs, n) && forall i :: 0 <= i < |docs| ==> docs[i].docId != item.docId
    ensures IsDraw([item] + draw, [item] + docs, n + 1)
  {
    var all := [item] + draw;
    forall i | 0 <= i < |all|
      ensures all[i] in [item] + docs
      ensures i > 0 ==> all[i] == draw[i - 1] && all[i].docId != item.docId
    {
      if i > 0 {
        assert all[i] == draw[i - 1] && draw[i - 1] in docs;
      }
    }
    forall i, j | 0 <= i < j < |all|
      ensures all[i].docId != all[j].docId
    {
      if i > 0 {
        assert draw[i - 1].docId != draw[j - 1].docId;
      }
    }
  }

  /** Each listed draw is one. */
  lemma {:induction false} DrawsAreDraws(docs: seq<LotItem>, n: int, i: nat)
    requires NoDuplicates(docs) && i < |DrawsOf(docs, n)|
    ensures IsDraw(DrawsOf(docs, n)[i], docs, n)
  {
    if docs != [] {
      var without, including := DrawsOf(docs[1..], n), DrawsOf(docs[1..], n - 1);
      TailDistinct(docs);
      assert docs == [docs[0]] + docs[1..];
      if i < |without| {
        DrawsAreDraws(docs[1..], n, i);
      } else {
        DrawsAreDraws(docs[1..], n - 1, i - |without|);
        OneMoreDrawn(docs[0], including[i - |without|], docs[1..], n - 1);
      }
    }
  }

  /** No draw is listed twice. */
  lemma {:induction false} DrawsDiffer(docs: seq<LotItem>, n: int, i: nat, j: nat)
    requires NoDuplicates(docs) && i < j < |DrawsOf(docs, n)|
    ensures DrawsOf(docs, n)[i] != DrawsOf(docs, n)[j]
  {
    if docs != [] {
      var without, including := DrawsOf(docs[1..], n), DrawsOf(docs[1..], n - 1);
      var k := |without|;
      TailDistinct(docs);
      if j < k {
        DrawsDiffer(docs[1..], n, i, j);
      } else if i >= k {
        DrawsDiffer(docs[1..], n - 1, i - k, j - k);
        assert DrawsOf(docs, n)[i][1..] == including[i - k] && DrawsOf(docs, n)[j][1..] == including[j - k];
      } else {
        DrawsAreDraws(docs[1..], n, i);
        FirstNotDrawn(docs, without[i], DrawsOf(docs, n)[j], n);
      }
    }
  }

  lemma FirstNotDrawn(docs: seq<LotItem>, a: seq<LotItem>, b: seq<LotItem>, n: int)
    requires docs != [] && IsDraw(a, docs[1..], n) && b != [] && b[0] == docs[0]
    requires forall i :: 0 <= i < |docs[1..]| ==> docs[1..][i].docId != docs[0].docId
    ensures a != b
  {
    if a != [] {
      assert a[0] in docs[1..];
    }
  }

  // ---- the claim of one lot ----------------------------------------------------------------------------

  /** The summed upper counts of a joint draw. */
  function Claimed(pops: seq<Pop>, pick: Pick, bad: set<DocId>, alpha: real): nat
    requires |pick| == |pops|
  {
    if pops == [] then 0
    else CellUpper(|pops[0].docs|, pops[0].draws, CriticalCount(pick[0], bad), alpha)
         + Claimed(pops[1..], pick[1..], bad, alpha)
  }

  /** The failing documents of the population. */
  function Truth(pops: seq<Pop>, bad: set<DocId>): nat {
    if pops == [] then 0 else CriticalCount(pops[0].docs, bad) + Truth(pops[1..], bad)
  }

  function TrueCells(pops: seq<Pop>, bad: set<DocId>): seq<TrueCell> {
    seq(|pops|, i requires 0 <= i < |pops| => TrueCell(|pops[i].docs|, pops[i].draws, CriticalCount(pops[i].docs, bad)))
  }

  ghost predicate AllFit(picks: seq<Pick>, n: nat) {
    forall i :: 0 <= i < |picks| ==> |picks[i]| == n
  }

  predicate Below(pops: seq<Pop>, pick: Pick, bad: set<DocId>, alpha: real, slack: int) {
    |pick| == |pops| && slack + Claimed(pops, pick, bad, alpha) < Truth(pops, bad)
  }

  /** The joint draws whose claim, with the slack of earlier cells, lies below the truth. */
  function MissCount(pops: seq<Pop>, picks: seq<Pick>, bad: set<DocId>, alpha: real, slack: int): nat {
    if picks == [] then 0
    else MissCount(pops, picks[..|picks| - 1], bad, alpha, slack)
         + if Below(pops, picks[|picks| - 1], bad, alpha, slack) then 1 else 0
  }

  lemma {:induction false} MissAppend(pops: seq<Pop>, a: seq<Pick>, b: seq<Pick>, bad: set<DocId>, alpha: real, slack: int)
    ensures MissCount(pops, a + b, bad, alpha, slack)
         == MissCount(pops, a, bad, alpha, slack) + MissCount(pops, b, bad, alpha, slack)
    decreases |b|
  {
    if b == [] {
      assert a + b == a;
    } else {
      assert (a + b)[..|a| + |b| - 1] == a + b[..|b| - 1];
      MissAppend(pops, a, b[..|b| - 1], bad, alpha, slack);
    }
  }

  /** The slack one cell's draw with f failures passes on. */
  function NextSlack(pop: Pop, f: nat, bad: set<DocId>, alpha: real, slack: int): int {
    slack + CellUpper(|pop.docs|, pop.draws, f, alpha) - CriticalCount(pop.docs, bad)
  }

  lemma {:induction false} MissContinued(pops: seq<Pop>, draw: seq<LotItem>, rest: seq<Pick>, bad: set<DocId>,
                                         alpha: real, slack: int)
    requires pops != [] && AllFit(rest, |pops| - 1)
    ensures MissCount(pops, Continued(draw, rest), bad, alpha, slack)
         == MissCount(pops[1..], rest, bad, alpha, NextSlack(pops[0], CriticalCount(draw, bad), bad, alpha, slack))
    decreases |rest|
  {
    if rest != [] {
      var last := |rest| - 1;
      MissContinued(pops, draw, rest[..last], bad, alpha, slack);
      assert Continued(draw, rest)[..last] == Continued(draw, rest[..last]);
      assert ([draw] + rest[last])[1..] == rest[last];
    }
  }

  /** The miss counts of the later cells, by the failures drawn from the first. */
  function Table(pops: seq<Pop>, rest: seq<Pick>, bad: set<DocId>, alpha: real, slack: int): seq<nat>
    requires pops != []
  {
    seq(pops[0].draws + 1, f requires 0 <= f < pops[0].draws + 1 =>
      MissCount(pops[1..], rest, bad, alpha, NextSlack(pops[0], f, bad, alpha, slack)))
  }

  function Looked(counts: seq<nat>, table: seq<nat>): nat
    requires forall i :: 0 <= i < |counts| ==> counts[i] < |table|
  {
    if counts == [] then 0 else Looked(counts[1..], table) + table[counts[0]]
  }

  lemma {:induction false} MissCombined(pops: seq<Pop>, draws: seq<seq<LotItem>>, rest: seq<Pick>, bad: set<DocId>,
                                        alpha: real, slack: int)
    requires pops != [] && AllFit(rest, |pops| - 1)
    requires forall i :: 0 <= i < |draws| ==> CriticalCount(draws[i], bad) <= pops[0].draws
    ensures MissCount(pops, Combined(draws, rest), bad, alpha, slack)
         == Looked(FailCounts(draws, bad), Table(pops, rest, bad, alpha, slack))
    decreases |draws|
  {
    if draws != [] {
      MissCombined(pops, draws[1..], rest, bad, alpha, slack);
      MissContinued(pops, draws[0], rest, bad, alpha, slack);
      MissAppend(pops, Continued(draws[0], rest), Combined(draws[1..], rest), bad, alpha, slack);
      assert FailCounts(draws, bad)[1..] == FailCounts(draws[1..], bad);
    }
  }

  /** The same sum, ordered by failure count. */
  function ByCount(counts: seq<nat>, table: seq<nat>, f: nat): nat
    requires f <= |table|
  {
    if f == 0 then 0 else ByCount(counts, table, f - 1) + Occurs(counts, f - 1) * table[f - 1]
  }

  lemma {:induction false} ByCountCons(c: nat, counts: seq<nat>, table: seq<nat>, f: nat)
    requires f <= |table|
    ensures ByCount([c] + counts, table, f) == ByCount(counts, table, f) + if c < f then table[c] else 0
  {
    if f > 0 {
      ByCountCons(c, counts, table, f - 1);
      OccursAppend([c], counts, f - 1);
      assert [c][..0] == [];
      OneMoreTimes(Occurs(counts, f - 1), table[f - 1]);
    }
  }

  lemma OneMoreTimes(n: nat, x: nat)
    ensures (1 + n) * x == n * x + x
  {
  }

  lemma {:induction false} ByCountNone(table: seq<nat>, f: nat)
    requires f <= |table|
    ensures ByCount([], table, f) == 0
  {
    if f > 0 {
      ByCountNone(table, f - 1);
    }
  }

  lemma {:induction false} LookedByCount(counts: seq<nat>, table: seq<nat>)
    requires forall i :: 0 <= i < |counts| ==> counts[i] < |table|
    ensures Looked(counts, table) == ByCount(counts, table, |table|)
  {
    if counts == [] {
      ByCountNone(table, |table|);
    } else {
      LookedByCount(counts[1..], table);
      assert counts == [counts[0]] + counts[1..];
      ByCountCons(counts[0], counts[1..], table, |table|);
    }
  }

  lemma {:induction false} CombinedFit(draws: seq<seq<LotItem>>, rest: seq<Pick>, n: nat)
    requires AllFit(rest, n)
    ensures AllFit(Combined(draws, rest), n + 1) && |Combined(draws, rest)| == |draws| * |rest|
  {
    if draws != [] {
      CombinedFit(draws[1..], rest, n);
      OneMoreTimes(|draws| - 1, |rest|);
    }
  }

  lemma {:induction false} PicksFit(pops: seq<Pop>)
    ensures AllFit(Picks(pops), |pops|)
  {
    if pops != [] {
      PicksFit(pops[1..]);
      CombinedFit(DrawsOf(pops[0].docs, pops[0].draws), Picks(pops[1..]), |pops| - 1);
    }
  }

  lemma FailsWithinDraws(pop: Pop, bad: set<DocId>)
    requires NoDuplicates(pop.docs)
    ensures forall i :: 0 <= i < |DrawsOf(pop.docs, pop.draws)| ==> CriticalCount(DrawsOf(pop.docs, pop.draws)[i], bad) <= pop.draws
  {
    forall i | 0 <= i < |DrawsOf(pop.docs, pop.draws)|
      ensures CriticalCount(DrawsOf(pop.docs, pop.draws)[i], bad) <= pop.draws
    {
      DrawsAreDraws(pop.docs, pop.draws, i);
    }
  }

  ghost predicate PopsOk(pops: seq<Pop>) {
    forall i :: 0 <= i < |pops| ==> NoDuplicates(pops[i].docs) && pops[i].draws <= |pops[i].docs|
  }

  lemma TrueCellsValid(pops: seq<Pop>, bad: set<DocId>)
    requires PopsOk(pops)
    ensures Valid(TrueCells(pops, bad))
  {
  }

  /** Counting lots by their claims is counting failure vectors by their weights. */
  lemma {:induction false} LotsAreVectors(pops: seq<Pop>, bad: set<DocId>, alpha: real, slack: int)
    requires PopsOk(pops)
    ensures Valid(TrueCells(pops, bad))
    ensures MissCount(pops, Picks(pops), bad, alpha, slack) == JointMisses(TrueCells(pops, bad), alpha, slack)
    decreases |pops|, 1, 0
  {
    TrueCellsValid(pops, bad);
    if pops == [] {
      var only: seq<Pick> := [[]];
      assert only[..0] == [];
      assert MissCount(pops, only, bad, alpha, slack) == if slack < 0 then 1 else 0;
    } else {
      var pop, rest := pops[0], Picks(pops[1..]);
      var draws := DrawsOf(pop.docs, pop.draws);
      PicksFit(pops[1..]);
      FailsWithinDraws(pop, bad);
      MissCombined(pops, draws, rest, bad, alpha, slack);
      LookedByCount(FailCounts(draws, bad), Table(pops, rest, bad, alpha, slack));
      VectorsUpTo(pops, bad, alpha, slack, pop.draws);
    }
  }

  lemma {:induction false} VectorsUpTo(pops: seq<Pop>, bad: set<DocId>, alpha: real, slack: int, f: nat)
    requires PopsOk(pops) && pops != [] && f <= pops[0].draws
    ensures Valid(TrueCells(pops, bad))
    ensures ByCount(FailCounts(DrawsOf(pops[0].docs, pops[0].draws), bad),
                    Table(pops, Picks(pops[1..]), bad, alpha, slack), f + 1)
         == MissesUpTo(TrueCells(pops, bad), alpha, slack, f)
    decreases |pops|, 0, f + 1
  {
    TrueCellsValid(pops, bad);
    TrueCellsTail(pops, bad);
    DrawsWeighed(pops[0].docs, pops[0].draws, f, bad);
    LotsAreVectors(pops[1..], bad, alpha, NextSlack(pops[0], f, bad, alpha, slack));
    if f > 0 {
      VectorsUpTo(pops, bad, alpha, slack, f - 1);
    }
    VectorsStep(pops, bad, alpha, slack, f);
  }

  lemma TrueCellsTail(pops: seq<Pop>, bad: set<DocId>)
    requires pops != []
    ensures TrueCells(pops, bad)[0] == TrueCell(|pops[0].docs|, pops[0].draws, CriticalCount(pops[0].docs, bad))
    ensures TrueCells(pops, bad)[1..] == TrueCells(pops[1..], bad)
  {
  }

  lemma VectorsStep(pops: seq<Pop>, bad: set<DocId>, alpha: real, slack: int, f: nat)
    requires pops != [] && f <= pops[0].draws
    requires Valid(TrueCells(pops, bad)) && Valid(TrueCells(pops[1..], bad))
    requires var pop := pops[0];
             && CriticalCount(pop.docs, bad) <= |pop.docs|
             && Occurs(FailCounts(DrawsOf(pop.docs, pop.draws), bad), f)
                  == Weight(CriticalCount(pop.docs, bad), |pop.docs| - CriticalCount(pop.docs, bad), pop.draws, f)
    requires var next := NextSlack(pops[0], f, bad, alpha, slack);
             MissCount(pops[1..], Picks(pops[1..]), bad, alpha, next) == JointMisses(TrueCells(pops[1..], bad), alpha, next)
    requires f > 0 ==>
             ByCount(FailCounts(DrawsOf(pops[0].docs, pops[0].draws), bad),
                     Table(pops, Picks(pops[1..]), bad, alpha, slack), f)
               == MissesUpTo(TrueCells(pops, bad), alpha, slack, f - 1)
    ensures ByCount(FailCounts(DrawsOf(pops[0].docs, pops[0].draws), bad),
                    Table(pops, Picks(pops[1..]), bad, alpha, slack), f + 1)
         == MissesUpTo(TrueCells(pops, bad), alpha, slack, f)
  {
    TrueCellsTail(pops, bad);
    var counts, table := FailCounts(DrawsOf(pops[0].docs, pops[0].draws), bad), Table(pops, Picks(pops[1..]), bad, alpha, slack);
    assert ByCount(counts, table, f + 1) == ByCount(counts, table, f) + Occurs(counts, f) * table[f];
  }

  lemma {:induction false} PicksNumber(pops: seq<Pop>, bad: set<DocId>)
    ensures |Picks(pops)| == JointSamples(TrueCells(pops, bad))
  {
    if pops != [] {
      PicksNumber(pops[1..], bad);
      PicksFit(pops[1..]);
      CombinedFit(DrawsOf(pops[0].docs, pops[0].draws), Picks(pops[1..]), |pops| - 1);
      DrawsNumber(pops[0].docs, pops[0].draws);
      assert TrueCells(pops, bad)[1..] == TrueCells(pops[1..], bad);
    }
  }
}
