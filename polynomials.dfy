/**
 * Linear and cubic polynomials, their antiderivatives, and the closed-form
 * estimates used to state that the midpoint and trapezoidal rules are exact
 * for linear functions and Simpson's rule for cubics.
 */
module Polynomials {
  import opened RealArith

  function Square(t: real): real { t * t }
  function Cube(t: real): real { t * t * t }
  function Fourth(t: real): real { t * t * t * t }

  /** c3 t^3 + c2 t^2 + c1 t + c0. */
  function Cubic(c3: real, c2: real, c1: real, c0: real, t: real): real {
    c3 * Cube(t) + c2 * Square(t) + c1 * t + c0
  }

  /** An antiderivative of `Cubic`: c3 t^4 / 4 + c2 t^3 / 3 + c1 t^2 / 2 + c0 t. */
  function CubicPrimitive(c3: real, c2: real, c1: real, c0: real, t: real): real {
    c3 * Fourth(t) / 4.0 + c2 * Cube(t) / 3.0 + c1 * Square(t) / 2.0 + c0 * t
  }

  /** c1 t + c0. */
  function Linear(c1: real, c0: real, t: real): real {
    c1 * t + c0
  }

  /** An antiderivative of `Linear`: c1 t^2 / 2 + c0 t. */
  function LinearPrimitive(c1: real, c0: real, t: real): real {
    c1 * Square(t) / 2.0 + c0 * t
  }

  /** The midpoint rule integrates every linear function exactly on [u, v]. */
  lemma MidpointLinearOnInterval(c1: real, c0: real, u: real, v: real)
    ensures (v - u) * Linear(c1, c0, u + (v - u) / 2.0)
            == LinearPrimitive(c1, c0, v) - LinearPrimitive(c1, c0, u)
  {
  }

  /** The trapezoidal rule integrates every linear function exactly on [u, v]. */
  lemma TrapezoidLinearOnInterval(c1: real, c0: real, u: real, v: real)
    ensures (v - u) * (Linear(c1, c0, u) / 2.0 + Linear(c1, c0, v) / 2.0)
            == LinearPrimitive(c1, c0, v) - LinearPrimitive(c1, c0, u)
  {
  }

  /** Simpson's rule on [u, v] is exact for t. */
  lemma SimpsonLinear(u: real, v: real)
    ensures (v - u) * (u / 6.0 + 2.0 * (u + (v - u) / 2.0) / 3.0 + v / 6.0) == (Square(v) - Square(u)) / 2.0
  {
  }

  /** Simpson's rule on [u, v] is exact for t^2. */
  lemma SimpsonQuadratic(u: real, v: real)
    ensures (v - u) * (Square(u) / 6.0 + 2.0 * Square(u + (v - u) / 2.0) / 3.0 + Square(v) / 6.0)
            == (Cube(v) - Cube(u)) / 3.0
  {
  }

  /** Simpson's rule on [u, v] is exact for t^3. */
  lemma SimpsonCubic(u: real, v: real)
    ensures (v - u) * (Cube(u) / 6.0 + 2.0 * Cube(u + (v - u) / 2.0) / 3.0 + Cube(v) / 6.0)
            == (Fourth(v) - Fourth(u)) / 4.0
  {
  }

  /** The growth of `CubicPrimitive` over [u, v] splits along the coefficients. */
  lemma PrimitiveDifferenceSplits(c3: real, c2: real, c1: real, c0: real, u: real, v: real)
    ensures CubicPrimitive(c3, c2, c1, c0, v) - CubicPrimitive(c3, c2, c1, c0, u)
            == c3 * ((Fourth(v) - Fourth(u)) / 4.0) + c2 * ((Cube(v) - Cube(u)) / 3.0)
               + c1 * ((Square(v) - Square(u)) / 2.0) + c0 * (v - u)
  {
  }

  /** Simpson's combination is linear: given its value on each monomial, its
      value on a cubic follows. The powers are plain numbers here. */
  lemma SimpsonCombines(h: real, c3: real, c2: real, c1: real, c0: real,
                        k0: real, k1: real, k2: real, s0: real, s1: real, s2: real,
                        t0: real, t1: real, t2: real, y0: real, y1: real, y2: real,
                        p3: real, p2: real, p1: real)
    requires y0 == c3 * k0 + c2 * s0 + c1 * t0 + c0
    requires y1 == c3 * k1 + c2 * s1 + c1 * t1 + c0
    requires y2 == c3 * k2 + c2 * s2 + c1 * t2 + c0
    requires h * (k0 / 6.0 + 2.0 * k1 / 3.0 + k2 / 6.0) == p3
    requires h * (s0 / 6.0 + 2.0 * s1 / 3.0 + s2 / 6.0) == p2
    requires h * (t0 / 6.0 + 2.0 * t1 / 3.0 + t2 / 6.0) == p1
    ensures h * (y0 / 6.0 + 2.0 * y1 / 3.0 + y2 / 6.0) == c3 * p3 + c2 * p2 + c1 * p1 + c0 * h
  {
    var a3 := k0 / 6.0 + 2.0 * k1 / 3.0 + k2 / 6.0;
    var a2 := s0 / 6.0 + 2.0 * s1 / 3.0 + s2 / 6.0;
    var a1 := t0 / 6.0 + 2.0 * t1 / 3.0 + t2 / 6.0;
    assert y0 / 6.0 + 2.0 * y1 / 3.0 + y2 / 6.0 == c3 * a3 + c2 * a2 + c1 * a1 + c0;
    ScaleCombination(h, c3, a3, p3, c2, a2, p2, c1, a1, p1, c0);
  }

  /** Simpson's combination with step h and nodes u, m, v is exact for a cubic
      as soon as it is exact for t, t^2 and t^3. */
  lemma SimpsonCubicFromMonomials(c3: real, c2: real, c1: real, c0: real, h: real, u: real, m: real, v: real)
    requires h == v - u
    requires h * (u / 6.0 + 2.0 * m / 3.0 + v / 6.0) == (Square(v) - Square(u)) / 2.0
    requires h * (Square(u) / 6.0 + 2.0 * Square(m) / 3.0 + Square(v) / 6.0) == (Cube(v) - Cube(u)) / 3.0
    requires h * (Cube(u) / 6.0 + 2.0 * Cube(m) / 3.0 + Cube(v) / 6.0) == (Fourth(v) - Fourth(u)) / 4.0
    ensures h * (Cubic(c3, c2, c1, c0, u) / 6.0 + 2.0 * Cubic(c3, c2, c1, c0, m) / 3.0 + Cubic(c3, c2, c1, c0, v) / 6.0)
            == CubicPrimitive(c3, c2, c1, c0, v) - CubicPrimitive(c3, c2, c1, c0, u)
  {
    SimpsonCombines(h, c3, c2, c1, c0, Cube(u), Cube(m), Cube(v), Square(u), Square(m), Square(v), u, m, v,
                    Cubic(c3, c2, c1, c0, u), Cubic(c3, c2, c1, c0, m), Cubic(c3, c2, c1, c0, v),
                    (Fourth(v) - Fourth(u)) / 4.0, (Cube(v) - Cube(u)) / 3.0, (Square(v) - Square(u)) / 2.0);
    PrimitiveDifferenceSplits(c3, c2, c1, c0, u, v);
  }

  /** Simpson's rule integrates every cubic exactly on [u, v]. */
  lemma SimpsonCubicOnInterval(c3: real, c2: real, c1: real, c0: real, u: real, v: real)
    ensures (v - u) * (Cubic(c3, c2, c1, c0, u) / 6.0
                       + 2.0 * Cubic(c3, c2, c1, c0, u + (v - u) / 2.0) / 3.0
                       + Cubic(c3, c2, c1, c0, v) / 6.0)
            == CubicPrimitive(c3, c2, c1, c0, v) - CubicPrimitive(c3, c2, c1, c0, u)
  {
    SimpsonLinear(u, v);
    SimpsonQuadratic(u, v);
    SimpsonCubic(u, v);
    SimpsonCubicFromMonomials(c3, c2, c1, c0, v - u, u, u + (v - u) / 2.0, v);
  }

  /** The antiderivative t^3 / 3 of t^2 takes the values 1/3 at 1 and 0 at 0. */
  lemma PrimitiveOfSquare()
    ensures CubicPrimitive(0.0, 1.0, 0.0, 0.0, 1.0) - CubicPrimitive(0.0, 1.0, 0.0, 0.0, 0.0) == 1.0 / 3.0
  {
    var one, zero := 1.0, 0.0;
    assert Square(one) == one;
    assert Cube(one) == one;
    assert Fourth(one) == one;
    assert Square(zero) == zero && Cube(zero) == zero && Fourth(zero) == zero;
    assert CubicPrimitive(0.0, 1.0, 0.0, 0.0, one) == 0.0 * one / 4.0 + 1.0 * one / 3.0 + 0.0 * one / 2.0 + 0.0 * one;
  }
}
