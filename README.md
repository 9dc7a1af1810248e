# Composite numerical integration: rule table and integration loops

This project models the numerical-integration core of the CodePFA
repository in Dafny.

- The **rule table** is `setQuadFormula`. It fills a quadrature record with
  the degree `n`, the weights `w[0..n]` and the nodes `x[0..n]` of one of
  seven rules on the reference interval [0,1], chosen by name: `left`,
  `right`, `middle`, `trapezes`, `simpson`, `gauss2` and `gauss3`.
- The **integration engine** is `integrate` and `integrate_dx`. The comment
  above `integrate` (CodePFA/integration.c:76-81) says only that [a,b] is
  split into N subdivisions [ai, bi], and that the integral on each one is
  approximated by the quadrature formula. The model reads this in the
  standard way:
  - the subdivisions have equal width, as the step-size comment at
    CodePFA/pfa.c:15 ("(b-a)/N ~ dt") implies;
  - the rule's nodes on [0,1] are mapped onto [ai, bi];
  - each subdivision is estimated as (bi - ai) times the sum of
    `w[k] * f(ai + x[k] * (bi - ai))`;
  - the estimates are added up.
  `integrate_dx` is meant to work out N from a target step `dx`. The test
  program computes that N itself (CodePFA/test_integration.c:111-112): it
  rounds |b - a| / dx to the nearest integer and uses 1 when that rounds to
  0. The model's `StepCount` follows that rule.

Files and modules:

- `quadrature.dfy` (`Quadrature`) holds the rule table as values: the names,
  the lookup by name, and the rule each name stands for.
- `integration.dfy` (`Integration`) holds the record as a class. Its methods
  write the record's fields and arrays in place, as the C function writes
  through its pointer. It also holds the two integration loops as methods,
  proved against recursive specification functions (`Element`,
  `CompositeSum`, `Composite`).
- `properties.dfy` (`Properties`) proves what the composite rule
  guarantees:
  - a degenerate interval gives 0;
  - a constant integrand is reproduced by every rule;
  - middle and trapezes are exact for linear functions;
  - sample points stay in their subdivision and keep the nodes' order;
  - Simpson's rule is exact for cubics, so x^2 over [0,1] gives 1/3 for
    every N;
  - an exact step gives back its subdivision count.
- `polynomials.dfy` (`Polynomials`) and `arith.dfy` (`RealArith`) hold the
  polynomial and real-arithmetic facts these proofs use.
- `wrappers.dfy` (`Wrappers`) holds `Option` and `Result`.

How the model represents the source:

- All arithmetic is exact over `real`.
- sqrt(3) and sqrt(3/5) are parameters `s3` and `s35`. `ValidRoots` pins
  each down as the positive root of its square.
- Integrands are total functions `real -> real`.
- In the source, `integrate` and `integrate_dx` are stubs that return 0.0.
  The methods `Integrate` and `IntegrateDx` follow the behaviour that the
  comment above `integrate` documents, and that the test program and
  `pfa.c` rely on. The stubs themselves are modelled as
  `IntegrateAsWritten` and `IntegrateDxAsWritten`; see "Findings".
- A subdivision count N <= 0 is answered with `Err(InvalidSubdivision)`,
  and a step dx <= 0 with `Err(InvalidStepSize)`.

## Model

| member | source | states |
|---|---|---|
| Quadrature.Lookup | CodePFA/integration.c:11-64 | The name chain picks the rule whose name equals the argument. It answers None exactly when no rule has that name. |
| Quadrature.LookupNameOf | CodePFA/integration.c:11-64 | Each of the seven names is recognised as its own rule, so the comparisons never shadow one another. |
| Quadrature.RuleOf | CodePFA/integration.c:13-63 | Each rule has n+1 weights and nodes. n is 0 for left/right/middle, 1 for trapezes/gauss2, and 2 for simpson/gauss3. The weights of every rule sum to exactly 1. |
| Quadrature.NodesOrderedInUnitInterval | CodePFA/integration.c:13-63 | Every rule's nodes lie in [0,1] and are strictly increasing. For the Gauss rules this holds because sqrt(3) and sqrt(3/5) are the positive roots. |
| Integration.QuadFormula.constructor | CodePFA/test_integration.c:40 | A fresh record with room for three weights and nodes and degree 0. |
| Integration.QuadFormula.SetRule | CodePFA/integration.c:13-63 | Each branch's assignments leave the record holding exactly that rule's degree, weights and nodes, with the array entries past n untouched. |
| Integration.QuadFormula.SetQuadFormula | CodePFA/integration.c:9-66 | For a known name, the record afterwards holds exactly that name's rule, and the array entries past n are untouched. For an unknown name, degree, weights and nodes are all unchanged. The answer is true in both cases. |
| Integration.QuadFormula.SetQuadFormulaChecked | CodePFA/test_integration.c:42-45 | The same state change as SetQuadFormula, but the answer is true exactly when the name is recognised. This is what the callers test the answer for. |
| Integration.EstimateElement | CodePFA/integration.c:79-80 | The loop over k = 0..n returns the rule's estimate on [ai, bi]: (bi - ai) times the sum of w[k]·f(ai + x[k](bi - ai)). |
| Integration.Integrate | CodePFA/integration.c:76-85 | The answer is an error exactly when N <= 0. Otherwise the loop over the N subdivisions returns the composite estimate Composite(f, a, b, N, rule held by the record). |
| Integration.Round | CodePFA/test_integration.c:111 | Rounding to nearest: the result m satisfies m - 1/2 <= t < m + 1/2. |
| Integration.StepCount | CodePFA/test_integration.c:111-112 | N >= 1. N is 1 when abs(b - a)/dx rounds to 0. Otherwise N is abs(b - a)/dx rounded to the nearest integer. |
| Integration.IntegrateDx | CodePFA/integration.c:87-90 | The answer is an error exactly when dx <= 0. Otherwise it is the composite estimate with StepCount(a, b, dx) subdivisions. |
| Integration.IntegrateAsWritten | CodePFA/integration.c:82-85 | The stub answers 0 for every input. |
| Integration.IntegrateDxAsWritten | CodePFA/integration.c:87-90 | The stub answers 0 for every input. |
| Integration.UnknownNameAccepted | CodePFA/integration.c:65 | "bogus" is no rule name, yet the record-filling function answers true for it. |
| Integration.UnknownNameRejected | CodePFA/test_integration.c:42-45 | With the answer tied to recognition, "bogus" is answered false. |
| Properties.DegenerateInterval | CodePFA/integration.c:76-81 | Integrating over [a, a] gives 0 for every rule and every N >= 1. |
| Properties.ConstantIntegrand | CodePFA/integration.c:76-81 | A constant c over [a,b] gives (b - a)·c·(sum of the weights), for every well-formed rule and every N >= 1. |
| Properties.ConstantIntegrandUnitWeights | CodePFA/integration.c:76-81 | A rule whose weights sum to 1 integrates a constant c over [a,b] to exactly c·(b - a). |
| Properties.ConstantIntegrandExact | CodePFA/integration.c:13-63 | Every rule of the table integrates a constant c over [a,b] to exactly c·(b - a), for every N >= 1. |
| Properties.SamplePointsWithin | CodePFA/integration.c:79-80 | For ai <= bi, every sample point ai + x[k](bi - ai), k = 0..n, of every table rule lies in [ai, bi]. This includes the single point of left, right and middle. |
| Properties.SamplePointsOrdered | CodePFA/integration.c:79-80 | For ai < bi, the sample points of every table rule appear in strictly increasing order of k. |
| Properties.CompositeSumTelescopes | CodePFA/integration.c:76-81 | If a rule is exact on every interval for f with antiderivative F, the partial sum over i subdivisions is F(a + i·h) - F(a). |
| Properties.CompositeExact | CodePFA/integration.c:76-81 | A rule exact on every interval makes the composite estimate over [a,b] exactly F(b) - F(a), for every N >= 1. |
| Properties.MiddleElement | CodePFA/integration.c:23-28 | The middle estimate on [u,v] is (v - u)·f((u+v)/2). |
| Properties.MiddleExactForLinear | CodePFA/integration.c:23-28 | The composite middle estimate of c1·t + c0 over [a,b] equals its exact integral, for every N >= 1. |
| Properties.MiddleNotExactForSquare | CodePFA/integration.c:23-28 | Middle is exact only up to degree 1: t^2 over [0,1] with one subdivision gives 1/4, not 1/3. |
| Properties.TrapezesElement | CodePFA/integration.c:29-36 | The trapezes estimate on [u,v] is (v - u)(f(u)/2 + f(v)/2). |
| Properties.TrapezesExactForLinear | CodePFA/integration.c:29-36 | The composite trapezes estimate of c1·t + c0 over [a,b] equals its exact integral, for every N >= 1. |
| Properties.SimpsonElement | CodePFA/integration.c:37-46 | The simpson estimate on [u,v] is (v - u)(f(u)/6 + 2f((u+v)/2)/3 + f(v)/6). |
| Polynomials.SimpsonCubicOnInterval | CodePFA/integration.c:37-46 | Simpson's weights and nodes integrate every cubic exactly on every interval [u,v]. |
| Properties.SimpsonExactForCubics | CodePFA/integration.c:37-46 | The composite simpson estimate of a cubic over [a,b] equals its exact integral, for every N >= 1. |
| Properties.SimpsonSquareOnUnitInterval | CodePFA/test_integration.c:80-94 | x^2 over [0,1] with simpson gives exactly 1/3 for every N >= 1. |
| Properties.StepCountOfExactStep | CodePFA/pfa.c:13-15 | For a != b, a step of exactly abs(b - a)/N is positive and gives back N subdivisions. |
| Properties.DocumentedResultOfConstantOne | CodePFA/integration.c:76-81 | The documented integrate answer for the constant 1 over [0,1], with one subdivision and the left rule, is 1. |
| Properties.DocumentedStepResultOfConstantOne | CodePFA/integration.c:87-90 | With step 1 over [0,1] there is one subdivision, and the documented integrate_dx answer for the constant 1 is 1. |

## Left out

- `printQuadFormula` (CodePFA/integration.c:68-73) prints a debugging line and nothing else. Output is not modelled.
- The rest of the repository is not part of this model: the pricing code in `pfa.c` beyond its step-size comment, and the test and main programs beyond the cited lines. `integration.h` is not part of this model either. The record layout (an `n` and arrays of three weights and three nodes) is inferred from the accesses in `integration.c`. The record also has a `name` field, which `printQuadFormula` reads (CodePFA/integration.c:71) and `setQuadFormula` never writes. The model leaves that field out, since no modelled operation reads or writes it.
- Integration.Integrate: computes over exact reals, not IEEE doubles. Rounding error, NaN, infinities and the convergence rates the test program prints are not modelled.
- Quadrature.RuleOf: sqrt(3) and sqrt(3/5) are exact parameters fixed by `ValidRoots`, not the rounded values of the C `sqrt`.
- Integration.StepCount: the C `(int)` cast of the rounded quotient can overflow for a huge |b - a|/dx. The model's count is unbounded. Halfway cases round upward, which matches C `round` for the nonnegative quotient.
- Integration.QuadFormula.constructor: a C caller's record starts uninitialised. The model starts it at degree 0 with default array contents, and no property depends on those contents.
- Integration.Integrate: the C signature takes any `int` N and returns a bare double. The model returns an error for N <= 0, where the documented behaviour is undefined.
- Integration.IntegrateDx: likewise returns an error for dx <= 0, where the documented behaviour is undefined.
- The order of the bounds is not restricted. For b < a the model computes the same composite sum with a negative width. Only the ordering lemmas `NodeMonotone`, `MappedNodesOrdered` and `SamplePointsOrdered` assume ai < bi. `NodeWithinSubdivision` and `SamplePointsWithin` assume ai <= bi.
- The exactness of the Gauss rules beyond constants (degree 3 for gauss2, degree 5 for gauss3) is not proved. Their nodes involve the parameters sqrt(3) and sqrt(3/5), and the polynomial identities up to degree 5 over those parameters are left unproved. Exactness is proved for constants (every rule), linear functions (middle, trapezes) and cubics (simpson). For middle, the failure on t^2 is also proved.
- Integration by a function pointer to code with side effects is not modelled. Integrands are pure total functions.

## Findings

| source | as written | input that shows it | evidently intended | confidence | as-written member | corrected member |
|---|---|---|---|---|---|---|
| CodePFA/integration.c:65 | The function answers true also when no rule name matched, and leaves the record as it was. | name "bogus" | Answer false for an unrecognised name, as the callers in test_integration.c:42-45 and pfa.c:36-39 expect. | high, not executed | Integration.UnknownNameAccepted | Integration.UnknownNameRejected |
| CodePFA/integration.c:82-85 | `integrate` returns 0.0 for every input. | f = 1 on [0,1], N = 1, rule left: documented answer 1 | The composite rule described in the comment at integration.c:76-81. | high, not executed | Integration.IntegrateAsWritten | Integration.Integrate |
| CodePFA/integration.c:87-90 | `integrate_dx` returns 0.0 for every input. | f = 1 on [0,1], dx = 1, rule left: documented answer 1 | The composite rule with N = round(abs(b - a)/dx), at least 1. | high, not executed | Integration.IntegrateDxAsWritten | Integration.IntegrateDx |
