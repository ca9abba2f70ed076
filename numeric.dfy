/// Integer helpers shared by the solver and the seed sampler.
module Numeric {

  /** x * x, by the odd-number recurrence (so that unfolding it stays linear). */
  function IntSquare(x: nat): nat
  {
    if x == 0 then 0 else IntSquare(x - 1) + 2 * x - 1
  }

  lemma {:induction false} IntSquareIsProduct(x: nat)
    ensures IntSquare(x) == x * x
  {
    if x > 0 {
      IntSquareIsProduct(x - 1);
    }
  }

  /** Integer square root (`Roots::sqrt` on `usize`, which is exact); IntSqrtBracket says
      what it computes. */
  function IntSqrt(n: nat): nat
  {
    if n == 0 then 0 else RootStep(IntSqrt(n / 4), n)
  }

  /** From the root q of n / 4, the root of n is 2q or 2q + 1. */
  function RootStep(q: nat, n: nat): nat
  {
    if IntSquare(2 * q + 1) <= n then 2 * q + 1 else 2 * q
  }

  /** r is the floor square root of n. */
  ghost predicate IsRoot(r: nat, n: nat)
  {
    IntSquare(r) <= n < IntSquare(r + 1)
  }

  /** IntSqrt(n) is the largest r with r * r <= n. */
  lemma {:induction false} IntSqrtBracket(n: nat)
    ensures IsRoot(IntSqrt(n), n)
    ensures IntSqrt(n) * IntSqrt(n) <= n < (IntSqrt(n) + 1) * (IntSqrt(n) + 1)
  {
    if n > 0 {
      IntSqrtBracket(n / 4);
      RootStepBracket(n, IntSqrt(n / 4));
    }
    IntSquareIsProduct(IntSqrt(n));
    IntSquareIsProduct(IntSqrt(n) + 1);
  }

  /** Doubling the root of n / 4, plus one when that still fits, gives the root of n. */
  lemma RootStepBracket(n: nat, q: nat)
    requires IsRoot(q, n / 4)
    ensures IsRoot(RootStep(q, n), n)
  {
    var a := n / 4;
    IntSquareIsProduct(q);
    IntSquareIsProduct(q + 1);
    IntSquareIsProduct(2 * q);
    IntSquareIsProduct(2 * q + 1);
    IntSquareIsProduct(2 * q + 2);
    assert n == 4 * a + n % 4;
    assert (2 * q) * (2 * q) == 4 * (q * q);
    assert (2 * q + 2) * (2 * q + 2) == 4 * ((q + 1) * (q + 1));
    assert a + 1 <= (q + 1) * (q + 1);
  }

  /** Squaring is monotonic. */
  lemma {:induction false} IntSquareMono(a: nat, b: nat)
    requires a <= b
    ensures IntSquare(a) <= IntSquare(b)
    decreases b
  {
    if a < b {
      IntSquareMono(a, b - 1);
    }
  }

  /** A floor square root is unique: every root of n is IntSqrt(n). */
  lemma RootUnique(n: nat, r: nat)
    requires IsRoot(r, n)
    ensures r == IntSqrt(n)
  {
    var t := IntSqrt(n);
    IntSqrtBracket(n);
    if r < t {
      IntSquareMono(r + 1, t);
    } else if t < r {
      IntSquareMono(t + 1, r);
    }
  }

  /** a, b <= c gives a * b <= c * c. */
  lemma ProductBound(a: nat, b: nat, c: nat)
    requires a <= c && b <= c
    ensures a * b <= c * c
  {
    MulLeftMono(a, c, b);
    MulLeftMono(b, c, c);
  }

  /** Integer division of naturals rounds down: 0 <= a / b and (a / b) * b never exceeds a. */
  lemma DivFacts(a: nat, b: nat)
    requires b > 0
    ensures 0 <= a / b
    ensures (a / b) * b <= a && b * (a / b) <= a
  {
    assert a == b * (a / b) + a % b;
  }

  lemma MulLeftMono(a: nat, b: nat, c: nat)
    requires a <= b
    ensures a * c <= b * c
  {
  }
}
