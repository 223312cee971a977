/** The finite-population error bound of one sampling cell: the hypergeometric lower tail,
    the binary search for the largest failure count the sample does not exclude, and the
    coverage that count guarantees. */
module Hypergeometric {
  import opened Binomials

  /** The number of ways to draw n documents, x of them from `bad` failing ones and the
      rest from `good` passing ones. */
  function Weight(bad: nat, good: nat, n: int, x: int): nat {
    C(bad, x) * C(good, n - x)
  }

  /** The number of n-document draws that contain at most f failing documents. */
  function Tail(bad: nat, good: nat, n: int, f: int): nat
    decreases f
  {
    if f < 0 then 0 else Tail(bad, good, n, f - 1) + Weight(bad, good, n, f)
  }

  /** P(X <= f) when n of `population` documents are drawn and `bad` of them fail. */
  function Cdf(population: nat, bad: nat, n: nat, f: int): real
    requires bad <= population && n <= population
  {
    InRangePositive(population, n);
    Ratio(Tail(bad, population - bad, n, f), C(population, n))
  }

  function Ratio(part: nat, whole: nat): real
    requires whole > 0
  {
    part as real / whole as real
  }

  /** The number of draws a tail must reach to have probability alpha. */
  function Need(population: nat, n: nat, alpha: real): real {
    Share(alpha, C(population, n))
  }

  function Share(alpha: real, whole: nat): real {
    alpha * whole as real
  }

  /** The sample does not exclude `bad` failing documents: P(X <= f) >= alpha, with the
      denominator multiplied out into `need` (CdfAtLeast). */
  predicate Admits(population: nat, bad: nat, n: nat, f: int, need: real)
    requires bad <= population
  {
    Tail(bad, population - bad, n, f) as real >= need
  }

  /** The simple form of the bound: scan the failure counts downwards from `top`. */
  function LargestAdmissible(population: nat, n: nat, f: int, need: real, top: nat): (k: nat)
    requires top <= population
    ensures k <= top
  {
    if top == 0 || Admits(population, top, n, f, need) then top
    else LargestAdmissible(population, n, f, need, top - 1)
  }

  function UpperCount(f: int, n: nat, population: nat, need: real): (k: nat)
    ensures k <= population
  {
    LargestAdmissible(population, n, f, need, population)
  }

  // ---- the tail ------------------------------------------------------------

  lemma TermDifference(a: nat, b: nat, c: nat, d: nat)
    ensures a * (d + c) + b * c == (b + a) * c + a * d
  {
  }

  /** Turning one passing document into a failing one removes exactly
      C(bad, f) * C(good, n-f-1) draws from the tail: all other terms telescope. */
  lemma {:induction false} TailStep(bad: nat, good: nat, n: int, f: int)
    requires f >= -1
    ensures Tail(bad, good + 1, n, f) == Tail(bad + 1, good, n, f) + C(bad, f) * C(good, n - f - 1)
    decreases f + 1
  {
    if f >= 0 {
      TailStep(bad, good, n, f - 1);
      Pascal(good, n - f);
      Pascal(bad, f);
      assert n - (f - 1) - 1 == n - f;
      TermDifference(C(bad, f), C(bad, f - 1), C(good, n - f), C(good, n - f - 1));
    }
  }

  lemma {:induction false} TailOfNoFailures(good: nat, n: int, f: int)
    requires f >= 0
    ensures Tail(0, good, n, f) == C(good, n)
    decreases f
  {
    if f > 0 {
      TailOfNoFailures(good, n, f - 1);
      assert C(0, f) == 0;
    } else {
      assert Tail(0, good, n, -1) == 0;
      assert C(0, 0) == 1;
    }
  }

  /** Every draw has some number of failures between 0 and n (Vandermonde's identity). */
  lemma {:induction false} TailIsComplete(bad: nat, good: nat, n: nat)
    ensures Tail(bad, good, n, n) == C(bad + good, n)
    decreases bad
  {
    if bad == 0 {
      TailOfNoFailures(good, n, n);
    } else {
      TailIsComplete(bad - 1, good + 1, n);
      TailStep(bad - 1, good, n, n);
    }
  }

  lemma {:induction false} TailMonotone(bad: nat, good: nat, n: int, f: int, g: int)
    requires f <= g
    ensures Tail(bad, good, n, f) <= Tail(bad, good, n, g)
    decreases g - f
  {
    if f < g {
      TailMonotone(bad, good, n, f, g - 1);
    }
  }

  /** Nothing is added to the tail beyond min(bad, n) observed failures. */
  lemma {:induction false} TailSaturates(bad: nat, good: nat, n: nat, f: int)
    requires f >= bad || f >= n
    ensures Tail(bad, good, n, f) == C(bad + good, n)
    decreases if f >= n then f - n else n - f
  {
    if f == n {
      TailIsComplete(bad, good, n);
    } else if f > n {
      TailSaturates(bad, good, n, f - 1);
      assert C(good, n - f) == 0;
    } else {
      TailSaturates(bad, good, n, f + 1);
      AboveRange(bad, f + 1);
    }
  }

  /** No draw has fewer failures than n minus the passing documents. */
  lemma {:induction false} TailBelowSupport(bad: nat, good: nat, n: nat, f: int)
    requires f < n - good
    ensures Tail(bad, good, n, f) == 0
    decreases f
  {
    if f >= 0 {
      TailBelowSupport(bad, good, n, f - 1);
      AboveRange(good, n - f);
    }
  }

  /** More failing documents never make few observed failures more likely. */
  lemma {:induction false} TailAntitone(population: nat, k1: nat, k2: nat, n: nat, f: int)
    requires k1 <= k2 <= population
    ensures Tail(k1, population - k1, n, f) >= Tail(k2, population - k2, n, f)
    decreases k2 - k1
  {
    if k1 < k2 && f >= 0 {
      TailAntitone(population, k1, k2 - 1, n, f);
      TailStep(k2 - 1, population - k2, n, f);
      NatProduct(C(k2 - 1, f), C(population - k2, n - f - 1));
    }
  }

  lemma NatProduct(a: nat, b: nat)
    ensures a * b >= 0
  {
  }

  // ---- the CDF -------------------------------------------------------------

  lemma RatioAtLeast(part: nat, whole: nat, alpha: real)
    requires whole > 0
    ensures Ratio(part, whole) >= alpha <==> part as real >= Share(alpha, whole)
  {
    var t, c := part as real, whole as real;
    var q := t / c;
    assert t == q * c;
    if q >= alpha {
      assert (q - alpha) * c >= 0.0;
    } else {
      assert (alpha - q) * c > 0.0;
    }
  }

  /** Comparing the probability with alpha is the multiplied-out comparison. */
  lemma {:induction false} CdfAtLeast(population: nat, bad: nat, n: nat, f: int, alpha: real)
    requires bad <= population && n <= population
    ensures Cdf(population, bad, n, f) >= alpha
       <==> Admits(population, bad, n, f, Need(population, n, alpha))
  {
    InRangePositive(population, n);
    RatioAtLeast(Tail(bad, population - bad, n, f), C(population, n), alpha);
  }

  /** A level in (0, 1] asks for at least one draw and at most all of them. */
  lemma {:induction false} NeedRange(population: nat, n: nat, alpha: real)
    requires n <= population
    ensures alpha <= 1.0 ==> Need(population, n, alpha) <= C(population, n) as real
    ensures 0.0 < alpha ==> 0.0 < Need(population, n, alpha)
  {
    InRangePositive(population, n);
    ShareRange(alpha, C(population, n));
  }

  lemma ShareRange(alpha: real, whole: nat)
    requires whole > 0
    ensures alpha <= 1.0 ==> Share(alpha, whole) <= whole as real
    ensures alpha > 0.0 ==> Share(alpha, whole) > 0.0
  {
    var c := whole as real;
    assert (1.0 - alpha) * c == c - alpha * c;
  }

  lemma {:induction false} AdmitsAll(population: nat, bad: nat, n: nat, f: int, need: real)
    requires bad <= population && (f >= bad || f >= n) && need <= C(population, n) as real
    ensures Admits(population, bad, n, f, need)
  {
    TailSaturates(bad, population - bad, n, f);
    assert bad + (population - bad) == population;
  }

  lemma {:induction false} AdmitsNone(population: nat, bad: nat, n: nat, f: int, need: real)
    requires bad <= population && f < n - (population - bad) && 0.0 < need
    ensures !Admits(population, bad, n, f, need)
  {
    TailBelowSupport(bad, population - bad, n, f);
  }

  lemma {:induction false} AdmitsMonotone(population: nat, bad: nat, n: nat, f: int, g: int, need: real)
    requires bad <= population && f <= g && Admits(population, bad, n, f, need)
    ensures Admits(population, bad, n, g, need)
  {
    TailMonotone(bad, population - bad, n, f, g);
  }

  function Clamp(failures: int, population: nat): (k: nat)
    ensures k <= population
    ensures 0 <= failures <= population ==> k == failures
    ensures failures <= 0 ==> k == 0
    ensures failures >= population ==> k == population
  {
    if failures < 0 then 0 else if failures > population then population else failures
  }

  lemma RatioRange(part: nat, whole: nat)
    requires whole > 0
    ensures part == 0 ==> Ratio(part, whole) == 0.0
    ensures part == whole ==> Ratio(part, whole) == 1.0
    ensures part <= whole ==> 0.0 <= Ratio(part, whole) <= 1.0
  {
    var t, c := part as real, whole as real;
    var q := t / c;
    assert t == q * c;
    if q > 1.0 {
      assert (q - 1.0) * c > 0.0;
    }
  }

  /** The tail is a count of draws, so it never exceeds all of them. */
  lemma {:induction false} TailAtMostAll(population: nat, bad: nat, n: nat, f: int)
    requires bad <= population
    ensures Tail(bad, population - bad, n, f) <= C(population, n)
  {
    var g := if f > n then f else n;
    TailMonotone(bad, population - bad, n, f, g);
    TailSaturates(bad, population - bad, n, g);
  }

  /** The program's CDF sums only the terms between the support's ends; the result is the
      full tail's probability, never above 1. */
  method CdfAtMost(population: nat, failures: int, draws: nat, observed: int) returns (p: real)
    requires draws <= population
    ensures p == Cdf(population, Clamp(failures, population), draws, observed)
    ensures 0.0 <= p <= 1.0
  {
    ghost var bad := Clamp(failures, population);
    ghost var t := Tail(bad, population - bad, draws, observed);
    TailAtMostAll(population, bad, draws, observed);
    InRangePositive(population, draws);
    RatioRange(t, C(population, draws));
    if observed < 0 {
      return 0.0;
    }
    if failures <= 0 {
      TailSaturates(0, population, draws, observed);
      return 1.0;
    }
    if failures >= population {
      if observed >= draws {
        TailSaturates(population, 0, draws, observed);
        return 1.0;
      }
      TailBelowSupport(population, 0, draws, observed);
      return 0.0;
    }
    var good := population - failures;
    var lower := if draws - good > 0 then draws - good else 0;
    var upper := if observed <= draws && observed <= failures then observed
                 else if draws <= failures then draws else failures;
    if upper < lower {
      TailBelowSupport(failures, good, draws, observed);
      return 0.0;
    }
    var total := SumTerms(failures, good, draws, lower, upper);
    if upper < observed {
      TailSaturates(failures, good, draws, upper);
      TailSaturates(failures, good, draws, observed);
    }
    p := Ratio(total, C(population, draws));
  }

  /** The loop over the support, whose terms are products of binomial coefficients. */
  method SumTerms(bad: nat, good: nat, n: nat, lower: nat, upper: nat) returns (total: nat)
    requires lower <= n - good || lower == 0
    requires lower <= upper
    ensures total == Tail(bad, good, n, upper)
  {
    total := 0;
    TailBelowSupport(bad, good, n, if lower == 0 && -1 >= n - good then -2 - good else lower - 1);
    assert Tail(bad, good, n, lower - 1) == 0;
    for x := lower to upper + 1
      invariant total == Tail(bad, good, n, x - 1)
    {
      total := total + C(bad, x) * C(good, n - x);
      assert Weight(bad, good, n, x) == C(bad, x) * C(good, n - x);
    }
  }

  // ---- the bound -----------------------------------------------------------

  /** k is the largest failure count the sample does not exclude (0 if it excludes all). */
  ghost predicate IsLargest(k: nat, population: nat, n: nat, f: int, need: real) {
    && k <= population
    && (k == 0 || Admits(population, k, n, f, need))
    && forall j: nat :: k < j <= population ==> !Admits(population, j, n, f, need)
  }

  lemma {:induction false} ScanFindsLargest(population: nat, n: nat, f: int, need: real, top: nat)
    requires top <= population
    ensures var k := LargestAdmissible(population, n, f, need, top);
            && (k == 0 || Admits(population, k, n, f, need))
            && forall j: nat :: k < j <= top ==> !Admits(population, j, n, f, need)
  {
    if top > 0 && !Admits(population, top, n, f, need) {
      ScanFindsLargest(population, n, f, need, top - 1);
    }
  }

  /** The scan's answer is the largest admissible count, and it is the only such count. */
  lemma {:induction false} UpperCountIsLargest(f: int, n: nat, population: nat, need: real, k: nat)
    ensures IsLargest(k, population, n, f, need) <==> k == UpperCount(f, n, population, need)
  {
    var u := UpperCount(f, n, population, need);
    ScanFindsLargest(population, n, f, need, population);
    assert IsLargest(u, population, n, f, need);
  }

  /** The bound with the program's two shortcuts in front of the search. */
  function ShortcutCount(observed: nat, draws: int, population: nat, alpha: real): nat {
    if draws <= 0 || observed >= draws then population
    else if draws >= population then observed
    else UpperCount(observed, draws, population, Need(population, draws, alpha))
  }

  /** The program's bound: two shortcuts, otherwise a binary search. Antitonicity of the
      tail makes the search return what the full scan returns, at every level alpha. */
  method UpperFailures(observed: nat, draws: int, population: nat, alpha: real) returns (k: nat)
    ensures k == ShortcutCount(observed, draws, population, alpha)
  {
    if draws <= 0 || observed >= draws {
      return population;
    }
    if draws >= population {
      return observed;
    }
    var low, high := 0, population;
    ghost var need := Need(population, draws, alpha);
    while low < high
      invariant 0 <= low <= high <= population
      invariant low == 0 || Admits(population, low, draws, observed, need)
      invariant forall j: nat :: high < j <= population ==> !Admits(population, j, draws, observed, need)
    {
      var middle := (low + high + 1) / 2;
      var p := CdfAtMost(population, middle, draws, observed);
      CdfAtLeast(population, middle, draws, observed, alpha);
      if p >= alpha {
        low := middle;
      } else {
        forall j: nat | middle <= j <= population
          ensures !Admits(population, j, draws, observed, need)
        {
          TailAntitone(population, middle, j, draws, observed);
        }
        high := middle - 1;
      }
    }
    UpperCountIsLargest(observed, draws, population, need, low);
    return low;
  }

  /** At every level in (0, 1] the shortcuts return the same largest admissible count as
      the search, so they are only a saving of work. */
  lemma {:induction false} ShortcutsAreTheSearch(observed: nat, draws: nat, population: nat, alpha: real)
    requires draws <= population && 0.0 < alpha <= 1.0
    ensures ShortcutCount(observed, draws, population, alpha)
         == UpperCount(observed, draws, population, Need(population, draws, alpha))
  {
    var need := Need(population, draws, alpha);
    NeedRange(population, draws, alpha);
    if draws == 0 || observed >= draws {
      AdmitsAll(population, population, draws, observed, need);
      UpperCountIsLargest(observed, draws, population, need, population);
    } else if draws == population {
      AdmitsAll(population, observed, draws, observed, need);
      forall j: nat | observed < j <= population
        ensures !Admits(population, j, draws, observed, need)
      {
        AdmitsNone(population, j, draws, observed, need);
      }
      UpperCountIsLargest(observed, draws, population, need, observed);
    }
  }

  /** Level 0 (certainty) excludes nothing. */
  lemma {:induction false} LevelZero(observed: nat, draws: nat, population: nat)
    ensures UpperCount(observed, draws, population, 0.0) == population
  {
    UpperCountIsLargest(observed, draws, population, 0.0, population);
  }

  /** Observing more failures never lowers the bound. */
  lemma {:induction false} UpperCountMonotone(f: nat, g: nat, n: nat, population: nat, need: real)
    requires f <= g
    ensures UpperCount(f, n, population, need) <= UpperCount(g, n, population, need)
  {
    var u := UpperCount(f, n, population, need);
    UpperCountIsLargest(f, n, population, need, u);
    UpperCountIsLargest(g, n, population, need, UpperCount(g, n, population, need));
    if u > 0 {
      AdmitsMonotone(population, u, n, f, g, need);
    }
  }

  /** The bound never contradicts the sample: it is at least the observed failures and
      leaves room for every observed pass. */
  lemma {:induction false} UpperCountRange(f: nat, n: nat, population: nat, need: real)
    requires f <= n <= population && 0.0 < need <= C(population, n) as real
    ensures f <= UpperCount(f, n, population, need) <= population - (n - f)
  {
    var u := UpperCount(f, n, population, need);
    UpperCountIsLargest(f, n, population, need, u);
    AdmitsAll(population, f, n, f, need);
    if u > population - (n - f) {
      AdmitsNone(population, u, n, f, need);
    }
  }

  // ---- per-cell coverage -----------------------------------------------------

  /** The number of draws with at most f failures (of `bad` in the population) whose
      computed bound lies below the true failure count. */
  function MissWeight(population: nat, bad: nat, n: nat, need: real, f: int): nat
    requires bad <= population
    decreases f
  {
    if f < 0 then 0
    else MissWeight(population, bad, n, need, f - 1)
         + if UpperCount(f, n, population, need) < bad then Weight(bad, population - bad, n, f) else 0
  }

  lemma {:induction false} EarlierCountsMiss(population: nat, bad: nat, n: nat, need: real, g: int, f: nat)
    requires bad <= population && g <= f
    requires UpperCount(f, n, population, need) < bad
    ensures MissWeight(population, bad, n, need, g) == Tail(bad, population - bad, n, g)
    decreases g
  {
    if g >= 0 {
      EarlierCountsMiss(population, bad, n, need, g - 1, f);
      UpperCountMonotone(g, f, n, population, need);
    }
  }

  /** Because the bound is monotone, the missing draws form a lower tail, and the last
      failure count in it is one the sample excludes. */
  lemma {:induction false} MissesAreExcluded(population: nat, bad: nat, n: nat, need: real, f: int)
    requires bad <= population && 0.0 <= need
    ensures MissWeight(population, bad, n, need, f) as real <= need
    ensures 0.0 < need ==> MissWeight(population, bad, n, need, f) as real < need
    decreases f
  {
    if f >= 0 {
      if UpperCount(f, n, population, need) < bad {
        EarlierCountsMiss(population, bad, n, need, f, f);
        UpperCountIsLargest(f, n, population, need, UpperCount(f, n, population, need));
        assert !Admits(population, bad, n, f, need);
      } else {
        MissesAreExcluded(population, bad, n, need, f - 1);
      }
    }
  }

  /** Per-cell coverage: strictly fewer than alpha * C(population, n) of the C(population, n)
      draws give a bound below the truth. */
  lemma {:induction false} CellCoverage(population: nat, bad: nat, n: nat, alpha: real)
    requires bad <= population && n <= population && 0.0 < alpha
    ensures MissWeight(population, bad, n, Need(population, n, alpha), n) as real
          < Need(population, n, alpha)
  {
    NeedRange(population, n, alpha);
    MissesAreExcluded(population, bad, n, Need(population, n, alpha), n);
  }

  // ---- what a weight counts ----------------------------------------------------

  /** The number of ways to choose n of the listed documents so that f of the chosen ones
      fail; fails[i] says whether document i fails. */
  function Draws(fails: seq<bool>, n: int, f: int): nat {
    if fails == [] then (if n == 0 && f == 0 then 1 else 0)
    else Draws(fails[1..], n, f) + Draws(fails[1..], n - 1, if fails[0] then f - 1 else f)
  }

  function Failing(fails: seq<bool>): (bad: nat)
    ensures bad <= |fails|
  {
    if fails == [] then 0 else Failing(fails[1..]) + if fails[0] then 1 else 0
  }

  /** Whether one more document is drawn or not, when it fails and when it passes. */
  lemma OneMoreDocument(bad: nat, good: nat, n: int, f: int)
    ensures Weight(bad + 1, good, n, f) == Weight(bad, good, n, f) + Weight(bad, good, n - 1, f - 1)
    ensures Weight(bad, good + 1, n, f) == Weight(bad, good, n, f) + Weight(bad, good, n - 1, f)
  {
    Pascal(bad, f);
    Pascal(good, n - f);
    assert n - 1 - (f - 1) == n - f && n - 1 - f == n - f - 1;
    Distribute(C(bad, f), C(bad, f - 1), C(good, n - f));
    Distribute(C(good, n - f), C(good, n - f - 1), C(bad, f));
  }

  lemma Distribute(a: nat, b: nat, c: nat)
    ensures (b + a) * c == a * c + b * c && c * (b + a) == c * a + c * b
  {
  }

  /** Wherever the failing documents sit in the population, the number of draws that show
      f failures is the hypergeometric weight. */
  lemma {:induction false} DrawsAreWeights(fails: seq<bool>, n: int, f: int)
    ensures Draws(fails, n, f) == Weight(Failing(fails), |fails| - Failing(fails), n, f)
  {
    if fails == [] {
      assert C(0, f) == (if f == 0 then 1 else 0) && C(0, n - f) == (if n == f then 1 else 0);
    } else {
      var bad := Failing(fails[1..]);
      DrawsAreWeights(fails[1..], n, f);
      DrawsAreWeights(fails[1..], n - 1, if fails[0] then f - 1 else f);
      OneMoreDocument(bad, |fails| - 1 - bad, n, f);
    }
  }
}
