/**
 * What the composite rule guarantees, over exact real arithmetic: a
 * degenerate interval gives 0, a constant integrand is reproduced, every
 * sample point lies in its subdivision, the middle and trapezes rules are
 * exact for linear functions, Simpson's rule is exact for cubics
 * (so x^2 on [0,1] gives 1/3 for every N), and the step-size derivation
 * recovers N from an exact step.
 */
module Properties {
  import opened Wrappers
  import opened Quadrature
  import opened Integration
  import opened Polynomials
  import opened RealArith

  // ---------------------------------------------------------------------
  // Degenerate interval.

  /** With zero-width subdivisions every estimate, hence every partial sum, is 0. */
  lemma {:induction false} CompositeSumZeroWidth(f: real -> real, a: real, q: Rule, i: nat)
    requires q.WellFormed()
    ensures CompositeSum(f, a, 0.0, q, i) == 0.0
  {
    if i > 0 {
      CompositeSumZeroWidth(f, a, q, i - 1);
      assert Point(a, 0.0, i - 1) == Point(a, 0.0, i);
    }
  }

  /** Integrating over [a, a] gives 0 for every rule and every N >= 1. */
  lemma DegenerateInterval(f: real -> real, a: real, N: nat, q: Rule)
    requires N >= 1 && q.WellFormed()
    ensures Composite(f, a, a, N, q) == 0.0
  {
    assert (a - a) / N as real == 0.0;
    CompositeSumZeroWidth(f, a, q, N);
  }

  // ---------------------------------------------------------------------
  // Constant integrand.

  /** The first k weighted samples of a constant `c` add up to c times the first k weights. */
  lemma {:induction false} WeightedSamplesOfConstant(f: real -> real, c: real, ai: real, bi: real, q: Rule, k: nat)
    requires forall t :: f(t) == c
    requires k <= |q.w| && k <= |q.x|
    ensures WeightedSamples(f, ai, bi, q, k) == c * Sum(q.w[..k])
  {
    if k > 0 {
      WeightedSamplesOfConstant(f, c, ai, bi, q, k - 1);
      assert q.w[..k][..k - 1] == q.w[..k - 1];
      assert Sum(q.w[..k]) == Sum(q.w[..k - 1]) + q.w[k - 1];
      assert Sample(f, ai, bi, q, k - 1) == q.w[k - 1] * c;
      MulAddDistributes(c, Sum(q.w[..k - 1]), q.w[k - 1]);
    }
  }

  /** On a constant c, a rule's estimate over [ai, bi] is (bi - ai) * c * Sum(w). */
  lemma ElementOfConstant(f: real -> real, c: real, ai: real, bi: real, q: Rule)
    requires forall t :: f(t) == c
    requires q.WellFormed()
    ensures Element(f, ai, bi, q) == (bi - ai) * (c * Sum(q.w))
  {
    WeightedSamplesOfConstant(f, c, ai, bi, q, q.n + 1);
    assert q.w[..q.n + 1] == q.w;
  }

  /** Consecutive subdivision points are h apart. */
  lemma PointStep(a: real, h: real, i: int)
    ensures Point(a, h, i + 1) - Point(a, h, i) == h
  {
  }

  /** On a constant c, the estimate of subdivision i + 1 is h * c * Sum(w). */
  lemma ElementOfConstantOnStep(f: real -> real, c: real, a: real, h: real, q: Rule, i: int)
    requires forall t :: f(t) == c
    requires q.WellFormed()
    ensures Element(f, Point(a, h, i), Point(a, h, i + 1), q) == h * (c * Sum(q.w))
  {
    ElementOfConstant(f, c, Point(a, h, i), Point(a, h, i + 1), q);
    PointStep(a, h, i);
  }

  /** When every subdivision's estimate is e, the partial sum over i
      subdivisions is i * e. */
  lemma {:induction false} CompositeSumOfEqualElements(f: real -> real, a: real, h: real, q: Rule,
                                                       e: real, i: nat)
    requires q.WellFormed()
    requires forall j: int :: 0 <= j < i ==> Element(f, Point(a, h, j), Point(a, h, j + 1), q) == e
    ensures CompositeSum(f, a, h, q, i) == i as real * e
  {
    if i > 0 {
      CompositeSumOfEqualElements(f, a, h, q, e, i - 1);
      assert Element(f, Point(a, h, i - 1), Point(a, h, i - 1 + 1), q) == e;
      AccumulateStep(CompositeSum(f, a, h, q, i), CompositeSum(f, a, h, q, i - 1),
                     Element(f, Point(a, h, i - 1), Point(a, h, i), q), e, i);
    } else {
      MulZero(e);
    }
  }

  /** On a constant, the composite partial sum over i subdivisions of width h
      is i times the estimate h * c * Sum(w) of one subdivision. */
  lemma CompositeSumOfConstant(f: real -> real, c: real, a: real, h: real, q: Rule, i: nat)
    requires forall t :: f(t) == c
    requires q.WellFormed()
    ensures CompositeSum(f, a, h, q, i) == i as real * (h * (c * Sum(q.w)))
  {
    forall j: int | 0 <= j < i
      ensures Element(f, Point(a, h, j), Point(a, h, j + 1), q) == h * (c * Sum(q.w))
    {
      ElementOfConstantOnStep(f, c, a, h, q, j);
    }
    CompositeSumOfEqualElements(f, a, h, q, h * (c * Sum(q.w)), i);
  }

  /** A constant integrand c over [a,b] gives (b - a) * c * Sum(w). */
  lemma ConstantIntegrand(f: real -> real, c: real, a: real, b: real, N: nat, q: Rule)
    requires forall t :: f(t) == c
    requires N >= 1 && q.WellFormed()
    ensures Composite(f, a, b, N, q) == (b - a) * (c * Sum(q.w))
  {
    var h := (b - a) / N as real;
    CompositeSumOfConstant(f, c, a, h, q, N);
    MulAssociates(N as real, h, c * Sum(q.w));
    MulDivCancel(b - a, N as real);
  }

  /** A rule whose weights sum to 1 integrates a constant c over [a,b] to c * (b - a). */
  lemma ConstantIntegrandUnitWeights(f: real -> real, c: real, a: real, b: real, N: nat, q: Rule)
    requires forall t :: f(t) == c
    requires N >= 1 && q.WellFormed() && Sum(q.w) == 1.0
    ensures Composite(f, a, b, N, q) == c * (b - a)
  {
    ConstantIntegrand(f, c, a, b, N, q);
    ScaleByOne(b - a, c, Sum(q.w));
  }

  /** Every rule of the table reproduces a constant integrand: c over [a,b] gives c * (b - a). */
  lemma ConstantIntegrandExact(f: real -> real, c: real, a: real, b: real, N: nat,
                               id: RuleId, s3: real, s35: real)
    requires forall t :: f(t) == c
    requires N >= 1 && ValidRoots(s3, s35)
    ensures Composite(f, a, b, N, RuleOf(id, s3, s35)) == c * (b - a)
  {
    ConstantIntegrandUnitWeights(f, c, a, b, N, RuleOf(id, s3, s35));
  }

  // ---------------------------------------------------------------------
  // Sample points.

  /** When a rule's nodes lie in [0,1], each mapped node lies in [ai, bi]. */
  lemma NodeWithinSubdivision(ai: real, bi: real, q: Rule, j: nat)
    requires InUnitInterval(q.x) && j < |q.x| && ai <= bi
    ensures ai <= Node(ai, bi, q, j) <= bi
  {
    var t, d := q.x[j], bi - ai;
    assert 0.0 <= t <= 1.0 && 0.0 <= d;
    assert Node(ai, bi, q, j) == ai + t * d;
    MulNonnegative(t, d);
    MulNonnegative(1.0 - t, d);
    MulSubDistributes(1.0, t, d);
  }

  /** Mapping onto an interval with ai < bi keeps the order of the nodes. */
  lemma NodeMonotone(ai: real, bi: real, q: Rule, i: nat, j: nat)
    requires ai < bi && i < |q.x| && j < |q.x| && q.x[i] < q.x[j]
    ensures Node(ai, bi, q, i) < Node(ai, bi, q, j)
  {
    var d, s, t := bi - ai, q.x[i], q.x[j];
    MulPositive(t - s, d);
    MulSubDistributes(t, s, d);
    assert s * d < t * d;
  }

  /** Nodes in [0,1] in increasing order map to points of [ai, bi] in increasing order. */
  lemma MappedNodesOrdered(ai: real, bi: real, q: Rule, i: nat, j: nat)
    requires InUnitInterval(q.x) && StrictlyIncreasing(q.x)
    requires ai < bi && i < j < |q.x|
    ensures ai <= Node(ai, bi, q, i) < Node(ai, bi, q, j) <= bi
  {
    NodeWithinSubdivision(ai, bi, q, i);
    NodeWithinSubdivision(ai, bi, q, j);
    NodeMonotone(ai, bi, q, i, j);
  }

  /** Every sample point of every table rule, the single point of left, right
      and middle included, lies in its subdivision when ai <= bi. */
  lemma SamplePointsWithin(ai: real, bi: real, id: RuleId, s3: real, s35: real, i: nat)
    requires ValidRoots(s3, s35) && ai <= bi
    requires i <= RuleOf(id, s3, s35).n
    ensures ai <= Node(ai, bi, RuleOf(id, s3, s35), i) <= bi
  {
    NodesOrderedInUnitInterval(id, s3, s35);
    NodeWithinSubdivision(ai, bi, RuleOf(id, s3, s35), i);
  }

  /** For the table rules with several points, the sample points appear in
      increasing order when ai < bi. */
  lemma SamplePointsOrdered(ai: real, bi: real, id: RuleId, s3: real, s35: real, i: nat, j: nat)
    requires ValidRoots(s3, s35) && ai < bi
    requires i < j <= RuleOf(id, s3, s35).n
    ensures Node(ai, bi, RuleOf(id, s3, s35), i) < Node(ai, bi, RuleOf(id, s3, s35), j)
  {
    NodesOrderedInUnitInterval(id, s3, s35);
    NodeMonotone(ai, bi, RuleOf(id, s3, s35), i, j);
  }

  // ---------------------------------------------------------------------
  // Exactness.

  /** `q` integrates `f` exactly on every interval, `F` being an antiderivative. */
  ghost predicate ExactOn(f: real -> real, F: real -> real, q: Rule)
    requires q.WellFormed()
  {
    forall u, v :: Element(f, u, v, q) == F(v) - F(u)
  }

  /** If a rule is exact on every interval, the partial sums telescope. */
  lemma {:induction false} CompositeSumTelescopes(f: real -> real, F: real -> real, a: real, h: real,
                                                  q: Rule, i: nat)
    requires q.WellFormed() && ExactOn(f, F, q)
    ensures CompositeSum(f, a, h, q, i) == F(Point(a, h, i)) - F(a)
  {
    if i > 0 {
      CompositeSumTelescopes(f, F, a, h, q, i - 1);
      var u, v := Point(a, h, i - 1), Point(a, h, i);
      assert Element(f, u, v, q) == F(v) - F(u);
    } else {
      assert Point(a, h, 0) == a;
    }
  }

  /** The last of N subdivision points of [a,b] is b. */
  lemma LastPoint(a: real, b: real, N: nat)
    requires N >= 1
    ensures Point(a, (b - a) / N as real, N) == b
  {
    MulDivCancel(b - a, N as real);
  }

  /** A rule exact on every interval makes the composite rule exact on [a,b], for every N. */
  lemma CompositeExact(f: real -> real, F: real -> real, a: real, b: real, N: nat, q: Rule)
    requires N >= 1 && q.WellFormed() && ExactOn(f, F, q)
    ensures Composite(f, a, b, N, q) == F(b) - F(a)
  {
    CompositeSumTelescopes(f, F, a, (b - a) / N as real, q, N);
    LastPoint(a, b, N);
  }

  /** The middle estimate on [u, v] in closed form. */
  lemma MiddleElement(f: real -> real, u: real, v: real, s3: real, s35: real)
    requires ValidRoots(s3, s35)
    ensures Element(f, u, v, RuleOf(Middle, s3, s35)) == (v - u) * f(u + (v - u) / 2.0)
  {
    var q := RuleOf(Middle, s3, s35);
    assert Node(u, v, q, 0) == u + (v - u) / 2.0;
    assert WeightedSamples(f, u, v, q, 1) == Sample(f, u, v, q, 0);
  }

  /** The middle rule is exact for every linear function: the composite rule
      over [a,b] gives the exact integral for every N >= 1. */
  lemma MiddleExactForLinear(f: real -> real, c1: real, c0: real,
                             a: real, b: real, N: nat, s3: real, s35: real)
    requires forall t :: f(t) == Linear(c1, c0, t)
    requires N >= 1 && ValidRoots(s3, s35)
    ensures Composite(f, a, b, N, RuleOf(Middle, s3, s35))
            == LinearPrimitive(c1, c0, b) - LinearPrimitive(c1, c0, a)
  {
    var F := t => LinearPrimitive(c1, c0, t);
    var q := RuleOf(Middle, s3, s35);
    forall u, v ensures Element(f, u, v, q) == F(v) - F(u) {
      MiddleElement(f, u, v, s3, s35);
      MidpointLinearOnInterval(c1, c0, u, v);
    }
    CompositeExact(f, F, a, b, N, q);
  }

  /** Degree 1 is the middle rule's limit: on t^2 over [0,1] it gives 1/4,
      not the exact 1/3. */
  lemma MiddleNotExactForSquare(f: real -> real, s3: real, s35: real)
    requires forall t :: f(t) == t * t
    requires ValidRoots(s3, s35)
    ensures Composite(f, 0.0, 1.0, 1, RuleOf(Middle, s3, s35)) == 1.0 / 4.0
    ensures Composite(f, 0.0, 1.0, 1, RuleOf(Middle, s3, s35)) != 1.0 / 3.0
  {
    var q := RuleOf(Middle, s3, s35);
    MiddleElement(f, 0.0, 1.0, s3, s35);
    assert f(1.0 / 2.0) == 1.0 / 4.0;
    assert Point(0.0, 1.0, 0) == 0.0 && Point(0.0, 1.0, 1) == 1.0;
    assert CompositeSum(f, 0.0, 1.0, q, 1) == Element(f, 0.0, 1.0, q);
  }

  /** The trapezes estimate on [u, v] in closed form. */
  lemma TrapezesElement(f: real -> real, u: real, v: real, s3: real, s35: real)
    requires ValidRoots(s3, s35)
    ensures Element(f, u, v, RuleOf(Trapezes, s3, s35)) == (v - u) * (f(u) / 2.0 + f(v) / 2.0)
  {
    var q := RuleOf(Trapezes, s3, s35);
    assert Node(u, v, q, 0) == u;
    assert Node(u, v, q, 1) == v;
    assert WeightedSamples(f, u, v, q, 1) == Sample(f, u, v, q, 0);
    assert WeightedSamples(f, u, v, q, 2) == Sample(f, u, v, q, 0) + Sample(f, u, v, q, 1);
  }

  /** The trapezes rule is exact for every linear function: the composite rule
      over [a,b] gives the exact integral for every N >= 1. */
  lemma TrapezesExactForLinear(f: real -> real, c1: real, c0: real,
                               a: real, b: real, N: nat, s3: real, s35: real)
    requires forall t :: f(t) == Linear(c1, c0, t)
    requires N >= 1 && ValidRoots(s3, s35)
    ensures Composite(f, a, b, N, RuleOf(Trapezes, s3, s35))
            == LinearPrimitive(c1, c0, b) - LinearPrimitive(c1, c0, a)
  {
    var F := t => LinearPrimitive(c1, c0, t);
    var q := RuleOf(Trapezes, s3, s35);
    forall u, v ensures Element(f, u, v, q) == F(v) - F(u) {
      TrapezesElement(f, u, v, s3, s35);
      TrapezoidLinearOnInterval(c1, c0, u, v);
    }
    CompositeExact(f, F, a, b, N, q);
  }

  /** The Simpson estimate on [u, v] in closed form. */
  lemma SimpsonElement(f: real -> real, u: real, v: real, s3: real, s35: real)
    requires ValidRoots(s3, s35)
    ensures Element(f, u, v, RuleOf(Simpson, s3, s35))
            == (v - u) * (f(u) / 6.0 + 2.0 * f(u + (v - u) / 2.0) / 3.0 + f(v) / 6.0)
  {
    var q := RuleOf(Simpson, s3, s35);
    assert Node(u, v, q, 0) == u;
    assert Node(u, v, q, 1) == u + (v - u) / 2.0;
    assert Node(u, v, q, 2) == v;
    assert WeightedSamples(f, u, v, q, 1) == Sample(f, u, v, q, 0);
    assert WeightedSamples(f, u, v, q, 2) == Sample(f, u, v, q, 0) + Sample(f, u, v, q, 1);
    assert WeightedSamples(f, u, v, q, 3)
           == Sample(f, u, v, q, 0) + Sample(f, u, v, q, 1) + Sample(f, u, v, q, 2);
  }

  /** Simpson's rule is exact for every cubic: the composite rule over [a,b]
      gives the exact integral for every N >= 1. */
  lemma SimpsonExactForCubics(f: real -> real, c3: real, c2: real, c1: real, c0: real,
                              a: real, b: real, N: nat, s3: real, s35: real)
    requires forall t :: f(t) == Cubic(c3, c2, c1, c0, t)
    requires N >= 1 && ValidRoots(s3, s35)
    ensures Composite(f, a, b, N, RuleOf(Simpson, s3, s35))
            == CubicPrimitive(c3, c2, c1, c0, b) - CubicPrimitive(c3, c2, c1, c0, a)
  {
    var F := t => CubicPrimitive(c3, c2, c1, c0, t);
    var q := RuleOf(Simpson, s3, s35);
    forall u, v ensures Element(f, u, v, q) == F(v) - F(u) {
      SimpsonElement(f, u, v, s3, s35);
      SimpsonCubicOnInterval(c3, c2, c1, c0, u, v);
    }
    CompositeExact(f, F, a, b, N, q);
  }

  /** x^2 on [0,1] with Simpson's rule gives exactly 1/3 for every N >= 1. */
  lemma SimpsonSquareOnUnitInterval(f: real -> real, N: nat, s3: real, s35: real)
    requires forall t :: f(t) == t * t
    requires N >= 1 && ValidRoots(s3, s35)
    ensures Composite(f, 0.0, 1.0, N, RuleOf(Simpson, s3, s35)) == 1.0 / 3.0
  {
    forall t ensures f(t) == Cubic(0.0, 1.0, 0.0, 0.0, t) {
      assert Cubic(0.0, 1.0, 0.0, 0.0, t) == Square(t);
    }
    SimpsonExactForCubics(f, 0.0, 1.0, 0.0, 0.0, 0.0, 1.0, N, s3, s35);
    PrimitiveOfSquare();
  }

  // ---------------------------------------------------------------------
  // Step-size derivation.

  /** A step that divides |b - a| into exactly N parts gives back N subdivisions. */
  lemma StepCountOfExactStep(a: real, b: real, N: nat)
    requires a != b && N >= 1
    ensures Abs(b - a) / N as real > 0.0
    ensures StepCount(a, b, Abs(b - a) / N as real) == N
  {
    var d := Abs(b - a);
    var dx := d / N as real;
    assert dx * N as real == d;
    assert d / dx == N as real;
    assert (N as real + 1.0 / 2.0).Floor == N;
  }

  // ---------------------------------------------------------------------
  // The documented result differs from the stubs' constant 0.

  /** The constant 1 over [0,1] with one subdivision and the left rule
      integrates to 1, not to the 0 the stubs answer. */
  lemma DocumentedResultOfConstantOne(s3: real, s35: real)
    requires ValidRoots(s3, s35)
    ensures Composite(t => 1.0, 0.0, 1.0, 1, RuleOf(Left, s3, s35)) == 1.0
  {
    ConstantIntegrandExact(t => 1.0, 1.0, 0.0, 1.0, 1, Left, s3, s35);
  }

  /** With a step of 1 over [0,1], `StepCount` gives one subdivision, so the
      documented `integrate_dx` answer for the constant 1 is 1 as well. */
  lemma DocumentedStepResultOfConstantOne(s3: real, s35: real)
    requires ValidRoots(s3, s35)
    ensures StepCount(0.0, 1.0, 1.0) == 1
    ensures Composite(t => 1.0, 0.0, 1.0, StepCount(0.0, 1.0, 1.0), RuleOf(Left, s3, s35)) == 1.0
  {
    StepCountOfExactStep(0.0, 1.0, 1);
    DocumentedResultOfConstantOne(s3, s35);
  }
}
