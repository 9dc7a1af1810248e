/**
 * The table of quadrature rules on the reference interval [0,1].
 *
 * A rule of degree `n` has `n+1` weights `w[0..n]` and `n+1` nodes `x[0..n]`;
 * on [0,1] it approximates the integral of `f` by the sum of `w[k] * f(x[k])`.
 * The two Gauss rules need the irrational numbers sqrt(3) and sqrt(3/5);
 * they are passed in as reals `s3` and `s35` characterised by `ValidRoots`.
 */
module Quadrature {
  import opened Wrappers

  /** The seven recognised rules. */
  datatype RuleId = Left | Right | Middle | Trapezes | Simpson | Gauss2 | Gauss3

  /** A rule of degree `n` with its weights `w` and nodes `x`. */
  datatype Rule = Rule(n: nat, w: seq<real>, x: seq<real>) {
    /** There are exactly n+1 weights and n+1 nodes. */
    predicate WellFormed() {
      |w| == n + 1 && |x| == n + 1
    }
  }

  /** `s3` is the positive square root of 3 and `s35` that of 3/5. */
  predicate ValidRoots(s3: real, s35: real) {
    s3 > 0.0 && s3 * s3 == 3.0 && s35 > 0.0 && s35 * s35 == 3.0 / 5.0
  }

  /** Sum of a sequence of reals, taken from the left. */
  function Sum(s: seq<real>): real {
    if s == [] then 0.0 else Sum(s[..|s| - 1]) + s[|s| - 1]
  }

  /** The sum of a three-element sequence. */
  lemma SumOfThree(p: real, r: real, t: real)
    ensures Sum([p, r, t]) == p + r + t
  {
    assert [p][..0] == [];
    assert Sum([p]) == p;
    assert [p, r][..1] == [p];
    assert Sum([p, r]) == p + r;
    assert [p, r, t][..2] == [p, r];
  }

  /** Every element lies in the closed unit interval. */
  predicate InUnitInterval(s: seq<real>) {
    forall j :: 0 <= j < |s| ==> 0.0 <= s[j] <= 1.0
  }

  /** The elements are strictly increasing. */
  predicate StrictlyIncreasing(s: seq<real>) {
    forall i, j :: 0 <= i < j < |s| ==> s[i] < s[j]
  }

  /** The name under which the source recognises each rule. */
  function NameOf(id: RuleId): string {
    match id
    case Left => "left"
    case Right => "right"
    case Middle => "middle"
    case Trapezes => "trapezes"
    case Simpson => "simpson"
    case Gauss2 => "gauss2"
    case Gauss3 => "gauss3"
  }

  /**
   * The chain of name comparisons: the first rule whose name equals `name`,
   * or `None` when no name matches.
   */
  function Lookup(name: string): (r: Option<RuleId>)
    ensures r.Some? ==> NameOf(r.value) == name
    ensures r.None? <==> forall id: RuleId :: NameOf(id) != name
  {
    if name == "left" then Some(Left)
    else if name == "right" then Some(Right)
    else if name == "middle" then Some(Middle)
    else if name == "trapezes" then Some(Trapezes)
    else if name == "simpson" then Some(Simpson)
    else if name == "gauss2" then Some(Gauss2)
    else if name == "gauss3" then Some(Gauss3)
    else None
  }

  /**
   * The rule each identifier stands for: its degree, weights and nodes.
   * Every rule has degree at most 2, n+1 weights and nodes, and weights
   * summing to exactly 1.
   */
  function RuleOf(id: RuleId, s3: real, s35: real): (q: Rule)
    requires ValidRoots(s3, s35)
    ensures q.WellFormed() && q.n <= 2
    ensures q.n == 0 <==> id == Left || id == Right || id == Middle
    ensures q.n == 1 <==> id == Trapezes || id == Gauss2
    ensures q.n == 2 <==> id == Simpson || id == Gauss3
    ensures Sum(q.w) == 1.0
  {
    match id
    case Left => Rule(0, [1.0], [0.0])
    case Right => Rule(0, [1.0], [1.0])
    case Middle => Rule(0, [1.0], [1.0 / 2.0])
    case Trapezes => Rule(1, [1.0 / 2.0, 1.0 / 2.0], [0.0, 1.0])
    case Simpson =>
      SumOfThree(1.0 / 6.0, 2.0 / 3.0, 1.0 / 6.0);
      Rule(2, [1.0 / 6.0, 2.0 / 3.0, 1.0 / 6.0], [0.0, 1.0 / 2.0, 1.0])
    case Gauss2 =>
      Rule(1, [1.0 / 2.0, 1.0 / 2.0], [1.0 / 2.0 - 1.0 / (2.0 * s3), 1.0 / 2.0 + 1.0 / (2.0 * s3)])
    case Gauss3 =>
      SumOfThree(5.0 / 18.0, 4.0 / 9.0, 5.0 / 18.0);
      Rule(2, [5.0 / 18.0, 4.0 / 9.0, 5.0 / 18.0],
           [1.0 / 2.0 * (1.0 - s35), 1.0 / 2.0, 1.0 / 2.0 * (1.0 + s35)])
  }

  /** Half of 1/sqrt(3) lies strictly between 0 and 1/2. */
  lemma Gauss2Offset(s3: real)
    requires s3 > 0.0 && s3 * s3 == 3.0
    ensures 0.0 < 1.0 / (2.0 * s3) < 1.0 / 2.0
  {
  }

  /** sqrt(3/5) lies strictly between 0 and 1. */
  lemma Gauss3Offset(s35: real)
    requires s35 > 0.0 && s35 * s35 == 3.0 / 5.0
    ensures 0.0 < s35 < 1.0
  {
  }

  /** Every rule's nodes lie in [0,1] and are strictly increasing. */
  lemma NodesOrderedInUnitInterval(id: RuleId, s3: real, s35: real)
    requires ValidRoots(s3, s35)
    ensures InUnitInterval(RuleOf(id, s3, s35).x)
    ensures StrictlyIncreasing(RuleOf(id, s3, s35).x)
  {
    match id
    case Gauss2 => Gauss2Offset(s3);
    case Gauss3 => Gauss3Offset(s35);
    case _ =>
  }

  /** Looking up a rule's own name finds that rule. */
  lemma LookupNameOf(id: RuleId)
    ensures Lookup(NameOf(id)) == Some(id)
  {
  }
}
