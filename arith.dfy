/** Small facts of real arithmetic, each proved on its own so that the
    lemmas using them need no nonlinear reasoning. */
module RealArith {

  lemma MulNonnegative(s: real, t: real)
    requires 0.0 <= s && 0.0 <= t
    ensures 0.0 <= s * t
  {
  }

  lemma MulPositive(s: real, t: real)
    requires 0.0 < s && 0.0 < t
    ensures 0.0 < s * t
  {
  }

  lemma MulSubDistributes(s: real, t: real, d: real)
    ensures (s - t) * d == s * d - t * d
  {
  }

  lemma MulDivCancel(x: real, n: real)
    requires n != 0.0
    ensures n * (x / n) == x
  {
  }

  lemma MulAddDistributes(c: real, s: real, t: real)
    ensures c * s + t * c == c * (s + t)
  {
  }

  lemma MulZero(e: real)
    ensures 0 as real * e == 0.0
  {
  }

  lemma ScaleByOne(d: real, c: real, s: real)
    requires s == 1.0
    ensures d * (c * s) == c * d
  {
  }

  lemma MulSucc(n: int, e: real)
    ensures (n - 1) as real * e + e == n as real * e
  {
  }

  /** A running total of i - 1 copies of e, plus one more e, is i copies. */
  lemma AccumulateStep(s: real, prev: real, d: real, e: real, i: int)
    requires s == prev + d && prev == (i - 1) as real * e && d == e
    ensures s == i as real * e
  {
    MulSucc(i, e);
  }

  lemma MulAssociates(s: real, t: real, e: real)
    ensures s * (t * e) == (s * t) * e
  {
  }

  /** Scaling a linear combination by h scales each of its terms. */
  lemma ScaleCombination(h: real, c3: real, a3: real, x3: real, c2: real, a2: real, x2: real,
                         c1: real, a1: real, x1: real, c0: real)
    requires h * a3 == x3 && h * a2 == x2 && h * a1 == x1
    ensures h * (c3 * a3 + c2 * a2 + c1 * a1 + c0) == c3 * x3 + c2 * x2 + c1 * x1 + c0 * h
  {
  }
}
