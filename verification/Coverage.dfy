/** The union bound behind the acceptance bound, on cells with known truth: the failure vectors
    whose summed upper counts fall below the truth weigh at most the share 1 - confidence of all
    joint samples. BoundCoverage counts lots with it. */
module Coverage {
  import opened Binomials
  import opened Hypergeometric
  import opened StratifiedBound

  /** A cell with its true number of failing documents. */
  datatype TrueCell = TrueCell(population: nat, draws: nat, bad: nat)

  ghost predicate Valid(cells: seq<TrueCell>) {
    forall i :: 0 <= i < |cells| ==> cells[i].draws <= cells[i].population && cells[i].bad <= cells[i].population
  }

  /** The number of joint samples: one draw from every cell. */
  function JointSamples(cells: seq<TrueCell>): nat {
    if cells == [] then 1
    else C(cells[0].population, cells[0].draws) * JointSamples(cells[1..])
  }

  function UncertainCells(cells: seq<TrueCell>): nat {
    if cells == [] then 0
    else UncertainCells(cells[1..]) + if IsUncertain(cells[0].population, cells[0].draws) then 1 else 0
  }

  /** The number of joint samples whose summed upper counts fall below the true number of
      failures, `slack` being the claimed minus the true failures of the cells before. */
  function JointMisses(cells: seq<TrueCell>, alpha: real, slack: int): nat
    requires Valid(cells)
    decreases |cells|, 1, 0
  {
    if cells == [] then (if slack < 0 then 1 else 0)
    else MissesUpTo(cells, alpha, slack, cells[0].draws)
  }

  /** The same, counting only samples with at most f failures drawn from the first cell. */
  function MissesUpTo(cells: seq<TrueCell>, alpha: real, slack: int, f: int): nat
    requires Valid(cells) && cells != []
    decreases |cells|, 0, f + 1
  {
    if f < 0 then 0
    else
      var c := cells[0];
      MissesUpTo(cells, alpha, slack, f - 1)
        + Weight(c.bad, c.population - c.bad, c.draws, f)
          * JointMisses(cells[1..], alpha, slack + CellUpper(c.population, c.draws, f, alpha) - c.bad)
  }

  /** The draws of one cell, with at most f failures, whose upper count misses the truth. */
  function CellMisses(c: TrueCell, alpha: real, f: int): nat
    requires c.bad <= c.population
    decreases f
  {
    if f < 0 then 0
    else CellMisses(c, alpha, f - 1)
         + if CellUpper(c.population, c.draws, f, alpha) < c.bad
           then Weight(c.bad, c.population - c.bad, c.draws, f) else 0
  }

  // ---- one cell -----------------------------------------------------------------

  lemma {:induction false} SampledCellMisses(c: TrueCell, alpha: real, f: int)
    requires c.bad <= c.population && IsUncertain(c.population, c.draws) && f <= c.draws
    ensures CellMisses(c, alpha, f) <= MissWeight(c.population, c.bad, c.draws, Need(c.population, c.draws, alpha), f)
    decreases f
  {
    if f >= 0 {
      SampledCellMisses(c, alpha, f - 1);
    }
  }

  lemma {:induction false} CertainCellMisses(c: TrueCell, alpha: real, f: int)
    requires c.bad <= c.population && c.draws <= c.population && !IsUncertain(c.population, c.draws)
    ensures CellMisses(c, alpha, f) == 0
    decreases f
  {
    if f >= 0 {
      CertainCellMisses(c, alpha, f - 1);
      if 0 < c.draws && f < c.bad {
        AboveRange(c.population - c.bad, c.draws - f);
      }
    }
  }

  /** An uncertain cell misses in at most alpha of its draws, any other cell never. */
  lemma {:induction false} CellMissShare(c: TrueCell, alpha: real)
    requires c.bad <= c.population && c.draws <= c.population && 0.0 <= alpha <= 1.0
    ensures CellMisses(c, alpha, c.draws) as real
         <= if IsUncertain(c.population, c.draws) then Share(alpha, C(c.population, c.draws)) else 0.0
  {
    if IsUncertain(c.population, c.draws) {
      SampledCellMisses(c, alpha, c.draws);
      var need := Need(c.population, c.draws, alpha);
      assert 0.0 <= need by {
        NonNegativeShare(alpha, C(c.population, c.draws));
      }
      MissesAreExcluded(c.population, c.bad, c.draws, need, c.draws);
    } else {
      CertainCellMisses(c, alpha, c.draws);
    }
  }

  lemma NonNegativeShare(alpha: real, whole: nat)
    requires 0.0 <= alpha
    ensures 0.0 <= Share(alpha, whole)
  {
  }

  // ---- all cells ------------------------------------------------------------------

  lemma {:induction false} MissesAreSamples(cells: seq<TrueCell>, alpha: real, slack: int)
    requires Valid(cells)
    ensures JointMisses(cells, alpha, slack) <= JointSamples(cells)
    decreases |cells|, 1, 0
  {
    if cells != [] {
      var c := cells[0];
      MissesUpToAreSamples(cells, alpha, slack, c.draws);
      TailIsComplete(c.bad, c.population - c.bad, c.draws);
      assert c.bad + (c.population - c.bad) == c.population;
    }
  }

  lemma {:induction false} MissesUpToAreSamples(cells: seq<TrueCell>, alpha: real, slack: int, f: int)
    requires Valid(cells) && cells != []
    ensures var c := cells[0];
            MissesUpTo(cells, alpha, slack, f) <= Tail(c.bad, c.population - c.bad, c.draws, f) * JointSamples(cells[1..])
    decreases |cells|, 0, f + 1
  {
    if f >= 0 {
      var c := cells[0];
      var claim := slack + CellUpper(c.population, c.draws, f, alpha) - c.bad;
      MissesUpToAreSamples(cells, alpha, slack, f - 1);
      MissesAreSamples(cells[1..], alpha, claim);
      ScaleSum(Tail(c.bad, c.population - c.bad, c.draws, f - 1), Weight(c.bad, c.population - c.bad, c.draws, f),
               JointMisses(cells[1..], alpha, claim), JointSamples(cells[1..]));
    }
  }

  lemma ScaleSum(t: nat, w: nat, x: nat, p: nat)
    requires x <= p
    ensures t * p + w * x <= (t + w) * p
  {
    assert w * x <= w * p;
  }

  /** The union bound, in the form the induction needs: the misses are covered by alpha of
      all samples for each uncertain cell. `budget` bounds the misses of the later cells. */
  ghost function Budget(cells: seq<TrueCell>, alpha: real): real {
    Share(alpha, UncertainCells(cells) * JointSamples(cells))
  }

  lemma {:induction false} UnionBound(cells: seq<TrueCell>, alpha: real, slack: int)
    requires Valid(cells) && slack >= 0 && 0.0 <= alpha <= 1.0
    ensures JointMisses(cells, alpha, slack) as real <= Budget(cells, alpha)
    decreases |cells|, 1, 0
  {
    if cells == [] {
      NonNegativeShare(alpha, 0);
    } else {
      var c, rest := cells[0], cells[1..];
      UnionUpTo(cells, alpha, slack, c.draws);
      TailIsComplete(c.bad, c.population - c.bad, c.draws);
      assert c.bad + (c.population - c.bad) == c.population;
      CellMissShare(c, alpha);
      AddCell(C(c.population, c.draws), JointSamples(rest), UncertainCells(rest),
              IsUncertain(c.population, c.draws), CellMisses(c, alpha, c.draws), alpha);
    }
  }

  /** A sample misses in total only if this cell misses or the later cells do. */
  lemma {:induction false} UnionUpTo(cells: seq<TrueCell>, alpha: real, slack: int, f: int)
    requires Valid(cells) && cells != [] && slack >= 0 && 0.0 <= alpha <= 1.0
    ensures var c := cells[0];
            MissesUpTo(cells, alpha, slack, f) as real
              <= Times(Tail(c.bad, c.population - c.bad, c.draws, f), Budget(cells[1..], alpha))
                 + (CellMisses(c, alpha, f) * JointSamples(cells[1..])) as real
    decreases |cells|, 0, f + 1
  {
    var c, rest := cells[0], cells[1..];
    var b := Budget(rest, alpha);
    NonNegativeShare(alpha, UncertainCells(rest) * JointSamples(rest));
    if f >= 0 {
      UnionUpTo(cells, alpha, slack, f - 1);
      var claim := slack + CellUpper(c.population, c.draws, f, alpha) - c.bad;
      MissesAreSamples(rest, alpha, claim);
      if claim >= 0 {
        UnionBound(rest, alpha, claim);
      }
      AddCount(Tail(c.bad, c.population - c.bad, c.draws, f - 1), Weight(c.bad, c.population - c.bad, c.draws, f),
               JointMisses(rest, alpha, claim), JointSamples(rest), CellMisses(c, alpha, f - 1), b,
               CellUpper(c.population, c.draws, f, alpha) < c.bad);
    }
  }

  ghost function Times(n: nat, b: real): real {
    n as real * b
  }

  lemma TimesAdds(t: nat, w: nat, b: real)
    ensures Times(t + w, b) == Times(t, b) + Times(w, b)
    ensures 0.0 <= b ==> 0.0 <= Times(w, b)
  {
    var x, y := t as real, w as real;
    assert (t + w) as real == x + y;
    assert (x + y) * b == x * b + y * b;
  }

  lemma ProductAtMost(w: nat, x: nat, p: nat)
    requires x <= p
    ensures w * x <= w * p
  {
  }

  lemma ProductBelow(w: nat, x: nat, b: real)
    requires x as real <= b
    ensures (w * x) as real <= Times(w, b)
  {
    var y, z := w as real, x as real;
    assert (w * x) as real == y * z;
    assert y * (b - z) >= 0.0;
  }

  /** One more failure count f, drawn in w ways, x of whose continuations miss: if f misses
      its own cell all p continuations may, otherwise at most b. */
  lemma AddCount(t: nat, w: nat, x: nat, p: nat, m: nat, b: real, missed: bool)
    requires x <= p && 0.0 <= b && (!missed ==> x as real <= b)
    ensures (w * x) as real + Times(t, b) + (m * p) as real
         <= Times(t + w, b) + ((m + if missed then w else 0) * p) as real
  {
    TimesAdds(t, w, b);
    if missed {
      ProductAtMost(w, x, p);
      Distribute(w, m, p);
    } else {
      ProductBelow(w, x, b);
    }
  }

  lemma AddCell(all: nat, p: nat, u: nat, uncertain: bool, m: nat, alpha: real)
    requires m as real <= if uncertain then Share(alpha, all) else 0.0
    ensures Times(all, Share(alpha, u * p)) + (m * p) as real
         <= Share(alpha, (u + if uncertain then 1 else 0) * (all * p))
  {
    var a, q, v := all as real, p as real, u as real;
    assert (u * p) as real == v * q && (m * p) as real == m as real * q;
    assert Times(all, Share(alpha, u * p)) == alpha * (v * (a * q));
    if uncertain {
      assert (alpha * a - m as real) * q >= 0.0;
      assert (u + 1) * (all * p) == u * (all * p) + all * p;
      assert ((u + 1) * (all * p)) as real == v * (a * q) + a * q;
    } else {
      assert (u * (all * p)) as real == v * (a * q);
      assert m == 0;
    }
  }

  /** For any cells and any true failure counts, at most the share 1 - confidence of all joint
      samples has failures whose summed upper counts lie below the true total. */
  lemma {:induction false} SimultaneousCoverage(cells: seq<TrueCell>, confidence: real)
    requires Valid(cells) && 0.0 <= confidence <= 1.0
    ensures JointMisses(cells, Level(confidence, UncertainCells(cells)), 0) as real
         <= Share(1.0 - confidence, JointSamples(cells))
  {
    var m, p := UncertainCells(cells), JointSamples(cells);
    LevelRange(confidence, m);
    var alpha := Level(confidence, m);
    UnionBound(cells, alpha, 0);
    SpendLevel(alpha, m, p, 1.0 - confidence);
  }

  lemma SpendLevel(alpha: real, m: nat, p: nat, e: real)
    requires alpha * m as real <= e
    ensures Share(alpha, m * p) <= Share(e, p)
  {
    assert (m * p) as real == m as real * p as real;
    assert (e - alpha * m as real) * p as real >= 0.0;
  }

  /** What a miss means for the reported rate: the pooled bound is below the true failure
      share exactly when the summed upper counts are below the true total. */
  lemma PooledBoundMisses(upper: nat, bad: nat, all: nat)
    requires bad <= all && all > 0
    ensures MinReal(1.0, Ratio(upper, all)) < Ratio(bad, all) <==> upper < bad
  {
    RatioMonotone(bad, upper, all);
    RatioRange(bad, all);
    RatioStrict(upper, bad, all);
  }
}
