/**
 * The composite quadrature engine: a rule record that callers fill in by
 * name, and the approximation of the integral of `f` over [a,b] obtained by
 * applying that rule on each of N equal subdivisions and summing.
 *
 * Integrands are total functions `real -> real`; all arithmetic is exact.
 */
module Integration {
  import opened Wrappers
  import opened Quadrature

  /** The ways an integration call can be refused. */
  datatype IntegrationError = InvalidSubdivision | InvalidStepSize

  /** Absolute value. */
  function Abs(t: real): real {
    if t < 0.0 then -t else t
  }

  // ---------------------------------------------------------------------
  // Specification of the composite rule.

  /** The j-th node of rule `q` mapped onto [ai, bi]: ai + x[j] * (bi - ai). */
  function Node(ai: real, bi: real, q: Rule, j: nat): real
    requires j < |q.x|
  {
    ai + q.x[j] * (bi - ai)
  }

  /** The j-th weighted sample of `f` on [ai, bi]: w[j] * f(Node(ai, bi, q, j)). */
  function Sample(f: real -> real, ai: real, bi: real, q: Rule, j: nat): real
    requires j < |q.w| && j < |q.x|
  {
    q.w[j] * f(Node(ai, bi, q, j))
  }

  /** The sum of the first k weighted samples of `f` on [ai, bi]. */
  function WeightedSamples(f: real -> real, ai: real, bi: real, q: Rule, k: nat): real
    requires k <= |q.w| && k <= |q.x|
  {
    if k == 0 then 0.0
    else WeightedSamples(f, ai, bi, q, k - 1) + Sample(f, ai, bi, q, k - 1)
  }

  /** The rule's estimate of the integral of `f` over one subdivision [ai, bi]:
      the weighted samples scaled by the width bi - ai. */
  function Element(f: real -> real, ai: real, bi: real, q: Rule): real
    requires q.WellFormed()
  {
    (bi - ai) * WeightedSamples(f, ai, bi, q, q.n + 1)
  }

  /** The i-th subdivision point a + i*h. */
  function Point(a: real, h: real, i: int): real {
    a + i as real * h
  }

  /** Sum of the estimates over the first i subdivisions
      [Point(a, h, j), Point(a, h, j + 1)], j < i. */
  function CompositeSum(f: real -> real, a: real, h: real, q: Rule, i: nat): real
    requires q.WellFormed()
  {
    if i == 0 then 0.0
    else CompositeSum(f, a, h, q, i - 1) + Element(f, Point(a, h, i - 1), Point(a, h, i), q)
  }

  /** One more weighted sample. */
  lemma WeightedSamplesStep(f: real -> real, ai: real, bi: real, q: Rule, k: nat)
    requires k < |q.w| && k < |q.x|
    ensures WeightedSamples(f, ai, bi, q, k + 1)
            == WeightedSamples(f, ai, bi, q, k) + Sample(f, ai, bi, q, k)
  {
  }

  /** One more subdivision. */
  lemma CompositeSumStep(f: real -> real, a: real, h: real, q: Rule, i: nat)
    requires q.WellFormed()
    ensures CompositeSum(f, a, h, q, i + 1)
            == CompositeSum(f, a, h, q, i) + Element(f, Point(a, h, i), Point(a, h, i + 1), q)
  {
  }

  /** The composite rule: [a,b] split into N equal subdivisions of width
      (b - a) / N, each estimated by `q`, the estimates summed. */
  function Composite(f: real -> real, a: real, b: real, N: nat, q: Rule): real
    requires N >= 1 && q.WellFormed()
  {
    CompositeSum(f, a, (b - a) / N as real, q, N)
  }

  /** Rounding of a nonnegative real to the nearest integer, halves upward. */
  function Round(t: real): (m: int)
    requires t >= 0.0
    ensures m >= 0
    ensures m as real - 1.0 / 2.0 <= t < m as real + 1.0 / 2.0
  {
    (t + 1.0 / 2.0).Floor
  }

  /** The subdivision count for a target step `dx`: |b - a| / dx rounded to
      the nearest integer, and 1 when that rounds to 0. */
  function StepCount(a: real, b: real, dx: real): (N: nat)
    requires dx > 0.0
    ensures N >= 1
    ensures Abs(b - a) / dx < 1.0 / 2.0 ==> N == 1
    ensures Abs(b - a) / dx >= 1.0 / 2.0 ==>
              N as real - 1.0 / 2.0 <= Abs(b - a) / dx < N as real + 1.0 / 2.0
  {
    var m := Round(Abs(b - a) / dx);
    if m == 0 then 1 else m
  }

  // ---------------------------------------------------------------------
  // The rule record filled in by name.

  /**
   * A quadrature rule record: degree `n` and the arrays of weights `w` and
   * nodes `x`, of which the first n+1 entries are in use.
   */
  class QuadFormula {
    var n: int
    var w: array<real>
    var x: array<real>

    /** The arrays are distinct, hold at least three entries, and the first
        n+1 entries of each exist. */
    ghost predicate Valid()
      reads this
    {
      w != x && 3 <= w.Length && 3 <= x.Length && 0 <= n < w.Length && n < x.Length
    }

    /** The rule the record currently holds. */
    function Formula(): (q: Rule)
      reads this, w, x
      requires Valid()
      ensures q.WellFormed() && q.n == n
    {
      Rule(n as nat, w[..n + 1], x[..n + 1])
    }

    /** A record with room for three weights and nodes, holding degree 0. */
    constructor ()
      ensures Valid() && fresh(w) && fresh(x)
      ensures w.Length == 3 && x.Length == 3 && n == 0
    {
      n := 0;
      w := new real[3];
      x := new real[3];
    }

    /** Writes degree 0 with weight `w0` at node `x0`; later entries are kept. */
    method SetDegree0(w0: real, x0: real)
      requires Valid()
      modifies this, w, x
      ensures Valid() && w == old(w) && x == old(x)
      ensures Formula() == Rule(0, [w0], [x0])
      ensures w[1..] == old(w[..])[1..] && x[1..] == old(x[..])[1..]
    {
      n := 0;
      w[0] := w0;
      x[0] := x0;
    }

    /** Writes degree 1 with weights `w0, w1` at nodes `x0, x1`; later entries are kept. */
    method SetDegree1(w0: real, w1: real, x0: real, x1: real)
      requires Valid()
      modifies this, w, x
      ensures Valid() && w == old(w) && x == old(x)
      ensures Formula() == Rule(1, [w0, w1], [x0, x1])
      ensures w[2..] == old(w[..])[2..] && x[2..] == old(x[..])[2..]
    {
      n := 1;
      w[0] := w0;
      w[1] := w1;
      x[0] := x0;
      x[1] := x1;
    }

    /** Writes degree 2 with weights `w0, w1, w2` at nodes `x0, x1, x2`; later entries are kept. */
    method SetDegree2(w0: real, w1: real, w2: real, x0: real, x1: real, x2: real)
      requires Valid()
      modifies this, w, x
      ensures Valid() && w == old(w) && x == old(x)
      ensures Formula() == Rule(2, [w0, w1, w2], [x0, x1, x2])
      ensures w[3..] == old(w[..])[3..] && x[3..] == old(x[..])[3..]
    {
      n := 2;
      w[0] := w0;
      w[1] := w1;
      w[2] := w2;
      x[0] := x0;
      x[1] := x1;
      x[2] := x2;
    }

    /** Writes the degree, weights and nodes of rule `id`, with the constants
        of the source's branch for that rule; later entries are kept. */
    method SetRule(id: RuleId, s3: real, s35: real)
      requires Valid() && ValidRoots(s3, s35)
      modifies this, w, x
      ensures Valid() && w == old(w) && x == old(x)
      ensures Formula() == RuleOf(id, s3, s35)
      ensures w[n + 1..] == old(w[..])[n + 1..] && x[n + 1..] == old(x[..])[n + 1..]
    {
      match id
      case Left => SetDegree0(1.0, 0.0);
      case Right => SetDegree0(1.0, 1.0);
      case Middle => SetDegree0(1.0, 1.0 / 2.0);
      case Trapezes => SetDegree1(1.0 / 2.0, 1.0 / 2.0, 0.0, 1.0);
      case Simpson => SetDegree2(1.0 / 6.0, 2.0 / 3.0, 1.0 / 6.0, 0.0, 1.0 / 2.0, 1.0);
      case Gauss2 =>
        SetDegree1(1.0 / 2.0, 1.0 / 2.0, 1.0 / 2.0 - 1.0 / (2.0 * s3), 1.0 / 2.0 + 1.0 / (2.0 * s3));
      case Gauss3 =>
        SetDegree2(5.0 / 18.0, 4.0 / 9.0, 5.0 / 18.0,
                   1.0 / 2.0 * (1.0 - s35), 1.0 / 2.0, 1.0 / 2.0 * (1.0 + s35));
    }

    /**
     * Compares `name` with each rule name in turn (`Lookup`) and writes the
     * degree, weights and nodes of the first match into the record. When no
     * name matches, nothing is written. The answer is `true` in every case.
     */
    method SetQuadFormula(name: string, s3: real, s35: real) returns (ok: bool)
      requires Valid() && ValidRoots(s3, s35)
      modifies this, w, x
      ensures Valid() && w == old(w) && x == old(x)
      ensures ok
      ensures Lookup(name).Some? ==> Formula() == RuleOf(Lookup(name).value, s3, s35)
      ensures Lookup(name).Some? ==>
                w[n + 1..] == old(w[..])[n + 1..] && x[n + 1..] == old(x[..])[n + 1..]
      ensures Lookup(name).None? ==> n == old(n) && w[..] == old(w[..]) && x[..] == old(x[..])
    {
      var found := Lookup(name);
      if found.Some? {
        SetRule(found.value, s3, s35);
      }
      ok := true;
    }

    /**
     * As `SetQuadFormula`, but the answer reports whether the name was
     * recognised, which is what callers test it for.
     */
    method SetQuadFormulaChecked(name: string, s3: real, s35: real) returns (ok: bool)
      requires Valid() && ValidRoots(s3, s35)
      modifies this, w, x
      ensures Valid() && w == old(w) && x == old(x)
      ensures ok <==> Lookup(name).Some?
      ensures ok ==> Formula() == RuleOf(Lookup(name).value, s3, s35)
      ensures ok ==>
                w[n + 1..] == old(w[..])[n + 1..] && x[n + 1..] == old(x[..])[n + 1..]
      ensures !ok ==> n == old(n) && w[..] == old(w[..]) && x[..] == old(x[..])
    {
      var _ := SetQuadFormula(name, s3, s35);
      ok := Lookup(name).Some?;
    }
  }

  // ---------------------------------------------------------------------
  // The integration loops.

  /**
   * The rule held by `qf` applied to one subdivision [ai, bi]: the sum of
   * w[k] * f(ai + x[k] * (bi - ai)) for k = 0..n, scaled by bi - ai.
   */
  method EstimateElement(f: real -> real, ai: real, bi: real, qf: QuadFormula) returns (e: real)
    requires qf.Valid()
    ensures e == Element(f, ai, bi, qf.Formula())
  {
    ghost var q := qf.Formula();
    var s := 0.0;
    var k := 0;
    while k <= qf.n
      invariant 0 <= k <= qf.n + 1
      invariant s == WeightedSamples(f, ai, bi, q, k)
    {
      WeightedSamplesStep(f, ai, bi, q, k);
      assert q.x[k] == qf.x[k] && q.w[k] == qf.w[k];
      var t := ai + qf.x[k] * (bi - ai);
      assert t == Node(ai, bi, q, k);
      var y := qf.w[k] * f(t);
      assert y == Sample(f, ai, bi, q, k);
      s := s + y;
      k := k + 1;
    }
    assert s == WeightedSamples(f, ai, bi, q, q.n + 1);
    e := (bi - ai) * s;
  }

  /**
   * Approximates the integral of `f` over [a,b]: [a,b] is split into N
   * subdivisions [ai, bi] of equal width, the rule held by `qf` estimates
   * each, and the estimates are summed. N must be positive.
   */
  method Integrate(f: real -> real, a: real, b: real, N: int, qf: QuadFormula)
    returns (r: Result<real, IntegrationError>)
    requires qf.Valid()
    ensures r.Err? <==> N <= 0
    ensures r.Err? ==> r.error == InvalidSubdivision
    ensures r.Ok? ==> N >= 1 && r.value == Composite(f, a, b, N, qf.Formula())
  {
    if N <= 0 {
      return Err(InvalidSubdivision);
    }
    ghost var q := qf.Formula();
    var h := (b - a) / N as real;
    var total := 0.0;
    var i := 0;
    while i < N
      invariant 0 <= i <= N
      invariant total == CompositeSum(f, a, h, q, i)
    {
      CompositeSumStep(f, a, h, q, i);
      var ai := a + i as real * h;
      var bi := a + (i + 1) as real * h;
      assert ai == Point(a, h, i) && bi == Point(a, h, i + 1);
      var e := EstimateElement(f, ai, bi, qf);
      total := total + e;
      i := i + 1;
    }
    return Ok(total);
  }

  /**
   * Approximates the integral of `f` over [a,b] with subdivisions of width
   * close to `dx`: the subdivision count is `StepCount(a, b, dx)`, then
   * `Integrate` does the work. `dx` must be positive.
   */
  method IntegrateDx(f: real -> real, a: real, b: real, dx: real, qf: QuadFormula)
    returns (r: Result<real, IntegrationError>)
    requires qf.Valid()
    ensures r.Err? <==> dx <= 0.0
    ensures r.Err? ==> r.error == InvalidStepSize
    ensures r.Ok? ==> dx > 0.0 && r.value == Composite(f, a, b, StepCount(a, b, dx), qf.Formula())
  {
    if dx <= 0.0 {
      return Err(InvalidStepSize);
    }
    var N := StepCount(a, b, dx);
    r := Integrate(f, a, b, N, qf);
  }

  // ---------------------------------------------------------------------
  // The answer of `setQuadFormula` for a name it does not know.

  /** As written, an unknown name such as "bogus" is reported as accepted. */
  method UnknownNameAccepted(s3: real, s35: real) returns (ok: bool)
    requires ValidRoots(s3, s35)
    ensures Lookup("bogus").None? && ok
  {
    var qf := new QuadFormula();
    ok := qf.SetQuadFormula("bogus", s3, s35);
  }

  /** With the answer tied to recognition, the same name is rejected. */
  method UnknownNameRejected(s3: real, s35: real) returns (ok: bool)
    requires ValidRoots(s3, s35)
    ensures Lookup("bogus").None? && !ok
  {
    var qf := new QuadFormula();
    ok := qf.SetQuadFormulaChecked("bogus", s3, s35);
  }

  // ---------------------------------------------------------------------
  // The integration entry points as they stand in the source.

  /** As written, `integrate` answers 0 whatever its arguments. */
  method IntegrateAsWritten(f: real -> real, a: real, b: real, N: int, qf: QuadFormula) returns (r: real)
    ensures r == 0.0
  {
    r := 0.0;
  }

  /** As written, `integrate_dx` answers 0 whatever its arguments. */
  method IntegrateDxAsWritten(f: real -> real, a: real, b: real, dx: real, qf: QuadFormula) returns (r: real)
    ensures r == 0.0
  {
    r := 0.0;
  }
}
