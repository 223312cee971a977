/** The pooled binomial reference bound: the smallest failure probability at which at most f
    failures in n draws would be no likelier than 1 - confidence, found by bisection. */
module ClopperPearson {
  import opened Binomials
  import opened AuditTypes

  function Power(x: real, k: nat): real {
    if k == 0 then 1.0 else x * Power(x, k - 1)
  }

  /** One draw fails with probability p, mixing the two continuations accordingly. */
  function Blend(p: real, passes: real, fails: real): real {
    (1.0 - p) * passes + p * fails
  }

  /** P(X == k) for n draws of failure probability p, draw by draw. */
  function Mass(n: nat, k: int, p: real): real {
    if n == 0 then (if k == 0 then 1.0 else 0.0)
    else Blend(p, Mass(n - 1, k, p), Mass(n - 1, k - 1, p))
  }

  /** P(X <= f). */
  function Sum(n: nat, f: int, p: real): real
    decreases f
  {
    if f < 0 then 0.0 else Sum(n, f - 1, p) + Mass(n, f, p)
  }

  lemma BlendSums(p: real, a: real, b: real, c: real, d: real)
    ensures Blend(p, a, b) + Blend(p, c, d) == Blend(p, a + c, b + d)
  {
  }

  lemma BlendSame(p: real, a: real)
    ensures Blend(p, a, a) == a
  {
  }

  function Times3(c: nat, x: real, y: real): real {
    c as real * (x * y)
  }

  /** The term the program adds: C(n, k) p^k (1-p)^(n-k). */
  function Term(n: nat, k: int, p: real): real {
    if k < 0 || k > n then 0.0 else Times3(C(n, k), Power(p, k), Power(1.0 - p, n - k))
  }

  lemma Times3Blend(p: real, a: nat, b: nat, x: real, y: real, px: real, qy: real)
    requires px == p * x && qy == (1.0 - p) * y
    ensures Times3(a + b, px, qy) == Blend(p, Times3(b, px, y), Times3(a, x, qy))
  {
    var u, q := x * y, 1.0 - p;
    assert px * qy == p * q * u && px * y == p * u && x * qy == q * u;
    assert q * (b as real * (p * u)) == b as real * (p * q * u);
    assert p * (a as real * (q * u)) == a as real * (p * q * u);
  }

  lemma Times3Ends(p: real, z: real, pz: real, qz: real)
    requires pz == p * z && qz == (1.0 - p) * z
    ensures Times3(1, 1.0, qz) == Blend(p, Times3(1, 1.0, z), 0.0)
    ensures Times3(1, pz, 1.0) == Blend(p, 0.0, Times3(1, z, 1.0))
  {
  }

  lemma {:induction false} MassOutside(n: nat, k: int, p: real)
    requires k < 0 || k > n
    ensures Mass(n, k, p) == 0.0
  {
    if n > 0 {
      MassOutside(n - 1, k, p);
      MassOutside(n - 1, k - 1, p);
      BlendSame(p, 0.0);
    }
  }

  /** The program's terms are the binomial probabilities. */
  lemma {:induction false} TermIsMass(n: nat, k: int, p: real)
    ensures Term(n, k, p) == Mass(n, k, p)
  {
    if k < 0 || k > n {
      MassOutside(n, k, p);
    } else if n > 0 {
      TermIsMass(n - 1, k, p);
      TermIsMass(n - 1, k - 1, p);
      TermStep(n - 1, k, p);
    }
  }

  lemma {:induction false} TermStep(n: nat, k: int, p: real)
    requires 0 <= k <= n + 1
    ensures Term(n + 1, k, p) == Blend(p, Term(n, k, p), Term(n, k - 1, p))
  {
    if k == 0 {
      FirstTermStep(n, p);
    } else if k == n + 1 {
      LastTermStep(n, p);
    } else {
      var x, px := Power(p, k - 1), Power(p, k);
      var y, qy := Power(1.0 - p, n - k), Power(1.0 - p, n + 1 - k);
      Times3Blend(p, C(n, k - 1), C(n, k), x, y, px, qy);
      assert n - (k - 1) == n + 1 - k;
    }
  }

  lemma {:induction false} FirstTermStep(n: nat, p: real)
    ensures Term(n + 1, 0, p) == Blend(p, Term(n, 0, p), Term(n, -1, p))
  {
    Ends(n);
    Ends(n + 1);
    var z := Power(1.0 - p, n);
    Times3Ends(p, z, p * z, Power(1.0 - p, n + 1));
  }

  lemma {:induction false} LastTermStep(n: nat, p: real)
    ensures Term(n + 1, n + 1, p) == Blend(p, Term(n, n + 1, p), Term(n, n, p))
  {
    Ends(n);
    Ends(n + 1);
    var z := Power(p, n);
    Times3Ends(p, z, Power(p, n + 1), (1.0 - p) * z);
  }

  lemma BlendEnds(a: real, b: real)
    ensures Blend(0.0, a, b) == a && Blend(1.0, a, b) == b
  {
  }

  lemma {:induction false} SumStep(n: nat, f: int, p: real)
    ensures Sum(n + 1, f, p) == Blend(p, Sum(n, f, p), Sum(n, f - 1, p))
    decreases f
  {
    if f >= 0 {
      SumStep(n, f - 1, p);
      MassOutside(n, -1, p);
      BlendSums(p, Sum(n, f - 1, p), Sum(n, f - 2, p), Mass(n, f, p), Mass(n, f - 1, p));
    } else {
      BlendSame(p, 0.0);
    }
  }

  lemma BlendNonNegative(p: real, a: real, b: real)
    requires 0.0 <= p <= 1.0 && 0.0 <= a && 0.0 <= b
    ensures 0.0 <= Blend(p, a, b)
  {
    assert 0.0 <= (1.0 - p) * a && 0.0 <= p * b;
  }

  lemma {:induction false} MassNonNegative(n: nat, k: int, p: real)
    requires 0.0 <= p <= 1.0
    ensures 0.0 <= Mass(n, k, p)
  {
    if n > 0 {
      MassNonNegative(n - 1, k, p);
      MassNonNegative(n - 1, k - 1, p);
      BlendNonNegative(p, Mass(n - 1, k, p), Mass(n - 1, k - 1, p));
    }
  }

  /** The CDF is 1 from f = n on, and never exceeds it. */
  lemma {:induction false} SumIsOne(n: nat, f: int, p: real)
    requires f >= n
    ensures Sum(n, f, p) == 1.0
    decreases n + f
  {
    if n == 0 {
      if f > 0 {
        SumIsOne(0, f - 1, p);
      } else {
        assert Sum(0, -1, p) == 0.0;
      }
    } else {
      SumStep(n - 1, f, p);
      SumIsOne(n - 1, f, p);
      SumIsOne(n - 1, f - 1, p);
      BlendSame(p, 1.0);
    }
  }

  lemma {:induction false} SumAtMostOne(n: nat, f: int, p: real)
    requires 0.0 <= p <= 1.0
    ensures Sum(n, f, p) <= 1.0
    decreases if f < n then n - f else 0
  {
    if f >= n {
      SumIsOne(n, f, p);
    } else {
      SumAtMostOne(n, f + 1, p);
      if f >= -1 {
        MassNonNegative(n, f + 1, p);
      }
    }
  }

  /** A larger failure probability makes few failures less likely. */
  lemma {:induction false} SumAntitone(n: nat, f: int, p: real, q: real)
    requires 0.0 <= p <= q <= 1.0
    ensures Sum(n, f, p) >= Sum(n, f, q)
    decreases n
  {
    if f >= 0 {
      if n == 0 {
        SumIsOne(0, f, p);
        SumIsOne(0, f, q);
      } else {
        SumStep(n - 1, f, p);
        SumStep(n - 1, f, q);
        SumAntitone(n - 1, f, p, q);
        SumAntitone(n - 1, f - 1, p, q);
        MassNonNegative(n - 1, f, q);
        BlendAntitone(Sum(n - 1, f, p), Sum(n - 1, f - 1, p), Sum(n - 1, f, q), Sum(n - 1, f - 1, q), p, q);
      }
    }
  }

  lemma NonNegativeProduct(x: real, y: real)
    requires 0.0 <= x && 0.0 <= y
    ensures 0.0 <= x * y
  {
  }

  lemma BlendAntitone(a: real, b: real, c: real, d: real, p: real, q: real)
    requires a >= c && b >= d && c >= d && 0.0 <= p <= q <= 1.0
    ensures Blend(p, a, b) >= Blend(q, c, d)
  {
    NonNegativeProduct(1.0 - p, a - c);
    NonNegativeProduct(p, b - d);
    NonNegativeProduct(q - p, c - d);
  }

  /** The program's CDF, with its end cases and its cap at 1 (which never applies). */
  method CdfAtMost(n: nat, f: nat, p: real) returns (r: real)
    requires f <= n
    ensures 0.0 <= p <= 1.0 ==> r == Sum(n, f, p)
  {
    if p <= 0.0 {
      SumAtZero(n, f);
      return 1.0;
    }
    if p >= 1.0 {
      SumAtOne(n, f);
      return if f >= n then 1.0 else 0.0;
    }
    var total := 0.0;
    for k := 0 to f + 1
      invariant total == Sum(n, k - 1, p)
    {
      TermIsMass(n, k, p);
      total := total + Term(n, k, p);
    }
    SumAtMostOne(n, f, p);
    return if total <= 1.0 then total else 1.0;
  }

  lemma {:induction false} SumAtZero(n: nat, f: nat)
    ensures Sum(n, f, 0.0) == 1.0
    decreases n
  {
    if n == 0 {
      SumIsOne(0, f, 0.0);
    } else {
      SumStep(n - 1, f, 0.0);
      SumAtZero(n - 1, f);
      BlendEnds(1.0, Sum(n - 1, f - 1, 0.0));
    }
  }

  lemma {:induction false} SumAtOne(n: nat, f: int)
    ensures Sum(n, f, 1.0) == if f >= n then 1.0 else 0.0
    decreases n
  {
    if f >= n {
      SumIsOne(n, f, 1.0);
    } else if f >= 0 {
      SumStep(n - 1, f, 1.0);
      SumAtOne(n - 1, f - 1);
      BlendEnds(Sum(n - 1, f, 1.0), 0.0);
    }
  }

  function Half(i: nat): real {
    Power(0.5, i)
  }

  lemma {:induction false} HalfPositive(i: nat)
    ensures 0.0 < Half(i)
  {
    if i > 0 {
      HalfPositive(i - 1);
    }
  }

  const ROUNDS := 200

  /** The bisection. Its result is itself acceptable, and every probability more than
      2^-200 below it is not: the result is safe and within 2^-200 of the threshold. */
  method ExactUpperBound(f: nat, n: nat, confidence: real) returns (hi: real)
    requires f < n
    ensures 0.0 <= confidence <= 1.0 ==>
              && 0.0 < hi <= 1.0
              && Sum(n, f, hi) <= 1.0 - confidence
              && (0.0 < confidence ==>
                   forall p: real :: 0.0 <= p <= hi - Half(ROUNDS) ==> Sum(n, f, p) > 1.0 - confidence)
  {
    var alpha := 1.0 - confidence;
    var lo := 0.0;
    hi := 1.0;
    SumAtZero(n, f);
    SumAtOne(n, f);
    for i := 0 to ROUNDS
      invariant hi - lo == Half(i) && 0.0 <= lo < hi <= 1.0
      invariant confidence <= 1.0 ==> Sum(n, f, hi) <= alpha
      invariant 0.0 < confidence ==> Sum(n, f, lo) > alpha
    {
      HalfPositive(i + 1);
      assert Half(i) == 2.0 * Half(i + 1);
      var mid := (lo + hi) / 2.0;
      var p := CdfAtMost(n, f, mid);
      if p > alpha {
        lo := mid;
      } else {
        hi := mid;
      }
    }
    if 0.0 < confidence <= 1.0 {
      forall p: real | 0.0 <= p <= hi - Half(ROUNDS)
        ensures Sum(n, f, p) > alpha
      {
        SumAntitone(n, f, p, lo);
      }
    }
  }

  datatype RateBound = Rejected | Rate(upper: real)

  /** The public entry: no draws are an error, all failures give rate 1. */
  method BinomialUpperBound(f: int, n: int, confidence: real) returns (r: RateBound)
    ensures r.Rejected? <==> n <= 0
    ensures 0 < n <= f ==> r == Rate(1.0)
    ensures r.Rate? && f < n && 0.0 < confidence <= 1.0 ==>
              var g: nat := if f < 0 then 0 else f;
              && 0.0 < r.upper <= 1.0
              && Sum(n, g, r.upper) <= 1.0 - confidence
              && forall p: real :: 0.0 <= p <= r.upper - Half(ROUNDS) ==> Sum(n, g, p) > 1.0 - confidence
  {
    if n <= 0 {
      return Rejected;
    }
    var g := if f > 0 then f else 0;
    if g >= n {
      return Rate(1.0);
    }
    var upper := ExactUpperBound(g, n, confidence);
    return Rate(upper);
  }
}
