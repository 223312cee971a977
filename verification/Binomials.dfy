/** Binomial coefficients with an integer lower index (zero outside 0..n), and the
    identities the sampling bounds need. */
module Binomials {

  function C(n: nat, k: int): nat
    decreases n
  {
    if k < 0 then 0
    else if n == 0 then (if k == 0 then 1 else 0)
    else C(n - 1, k - 1) + C(n - 1, k)
  }

  function Factorial(n: nat): nat {
    if n == 0 then 1 else n * Factorial(n - 1)
  }

  /** Pascal's rule holds for every integer k, in and out of range. */
  lemma Pascal(n: nat, k: int)
    ensures C(n + 1, k) == C(n, k - 1) + C(n, k)
  {
  }

  lemma {:induction false} AboveRange(n: nat, k: int)
    requires k > n
    ensures C(n, k) == 0
  {
    if n > 0 {
      AboveRange(n - 1, k - 1);
      AboveRange(n - 1, k);
    }
  }

  lemma {:induction false} Ends(n: nat)
    ensures C(n, 0) == 1 && C(n, n) == 1
  {
    if n > 0 {
      Ends(n - 1);
      AboveRange(n - 1, n);
    }
  }

  lemma {:induction false} InRangePositive(n: nat, k: int)
    requires 0 <= k <= n
    ensures C(n, k) >= 1
  {
    if 0 < k < n {
      InRangePositive(n - 1, k);
    } else {
      Ends(n);
    }
  }

  /** C(n, k) is the factorial quotient n! / (k! (n-k)!), the form whose logarithm the
      program sums. */
  lemma {:induction false} FactorialForm(n: nat, k: nat)
    requires k <= n
    ensures C(n, k) * Factorial(k) * Factorial(n - k) == Factorial(n)
  {
    if k == 0 || k == n {
      Ends(n);
    } else {
      FactorialForm(n - 1, k - 1);
      FactorialForm(n - 1, k);
      var a, b := C(n - 1, k - 1), C(n - 1, k);
      var p, q, r, s := Factorial(k - 1), Factorial(n - k - 1), Factorial(k), Factorial(n - k);
      assert n - 1 - (k - 1) == n - k && n - 1 - k == n - k - 1;
      assert a * p * s == Factorial(n - 1) == b * r * q;
      JoinFactorials(n, k, a, b, p, q, r, s, Factorial(n - 1));
    }
  }

  lemma JoinFactorials(n: nat, k: nat, a: nat, b: nat, p: nat, q: nat, r: nat, s: nat, whole: nat)
    requires k <= n && r == k * p && s == (n - k) * q
    requires a * p * s == whole && b * r * q == whole
    ensures (a + b) * r * s == n * whole
  {
    var m := n - k;
    calc {
      (a + b) * r * s;
      { assert (a + b) * r == a * r + b * r; }
      a * r * s + b * r * s;
      { Reorder(a, k, p, s); }
      k * (a * p * s) + b * r * s;
      { Reorder(b * r, m, q, 1); }
      k * whole + m * whole;
    }
  }

  lemma Reorder(a: nat, k: nat, p: nat, s: nat)
    ensures a * (k * p) * s == k * (a * p * s)
  {
    assert a * (k * p) == k * (a * p);
  }
}
