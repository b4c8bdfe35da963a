/** The finite-difference calculator, and why its sum is exact on polynomials. */
module FiniteDifference {
  import opened Wrappers
  import opened Polynomials
  import opened Lagrange

  type Matrix = seq<seq<real>>

  /** The linear solver behind the calculator. */
  type Solver = (Matrix, seq<real>) -> seq<real>

  /** The option that picks the decomposition; `Other` stands for a number that names none. */
  datatype LinearSolver = Auto | PartialPivLu | HouseholderQr | ColPivHouseholderQr | Other(code: int)

  datatype Solvers = Solvers(partialPivLu: Solver, householderQr: Solver, colPivHouseholderQr: Solver)

  function Chosen(choice: LinearSolver, solvers: Solvers): Option<Solver> {
    match choice
    case Auto => Some(solvers.partialPivLu)
    case PartialPivLu => Some(solvers.partialPivLu)
    case HouseholderQr => Some(solvers.householderQr)
    case ColPivHouseholderQr => Some(solvers.colPivHouseholderQr)
    case Other(_) => None
  }

  datatype Outcome = Value(value: real) | SizesDiffer | TooFewValues | RepeatedArgument | UnexpectedSolver

  /** Row `n` holds (xs[k] - x)^n / n! for each argument. */
  function TaylorRow(xs: seq<real>, x: real, n: nat): seq<real> {
    seq(|xs|, k requires 0 <= k < |xs| => Coefficient(xs[k] - x, n))
  }

  function TaylorMatrix(xs: seq<real>, x: real): Matrix {
    seq(|xs|, n requires 0 <= n < |xs| => TaylorRow(xs, x, n))
  }

  function UnitVector(size: nat, order: nat): seq<real> {
    seq(size, n => if n == order then 1.0 else 0.0)
  }

  // ----- the solver -----

  ghost predicate Square(m: Matrix) { forall n | 0 <= n < |m| :: |m[n]| == |m| }

  /** `c` solves m * c = b. */
  ghost predicate Solves(m: Matrix, c: seq<real>, b: seq<real>)
    requires Square(m)
  {
    |c| == |m| == |b| && forall n | 0 <= n < |m| :: Dot(m[n], c, |m|) == b[n]
  }

  function Zeros(size: nat): seq<real> { seq(size, _ => 0.0) }

  /** Only zero is mapped to zero. */
  ghost predicate Regular(m: Matrix)
    requires Square(m)
  {
    forall c | Solves(m, c, Zeros(|m|)) :: c == Zeros(|m|)
  }

  ghost predicate Solvable(m: Matrix, b: seq<real>)
    requires Square(m)
  {
    exists c :: Solves(m, c, b)
  }

  /** The solver is asked to be right only where the matrix is regular and there is a solution. */
  ghost predicate Exact(solve: Solver) {
    forall m, b | Square(m) && Regular(m) && Solvable(m, b) :: Solves(m, solve(m, b), b)
  }

  /** A solution, if there is one. */
  ghost function SomeSolution(m: Matrix, b: seq<real>): (c: seq<real>)
    ensures |c| == |m|
    ensures Square(m) && Solvable(m, b) ==> Solves(m, c, b)
  {
    if Square(m) && Solvable(m, b) then var c :| Solves(m, c, b); c else Zeros(|m|)
  }

  /** There are such solvers. */
  lemma {:induction false} ExactSolverExists()
    ensures exists solve :: Exact(solve) && Fits(solve)
  {
    var solve: Solver := (m, b) => SomeSolution(m, b);
    assert Exact(solve) && Fits(solve);
  }

  /** A solver answers with one coefficient for each argument. */
  ghost predicate Fits(solve: Solver) { forall m, b | |b| == |m| :: |solve(m, b)| == |m| }

  // ----- sums -----

  function Scaled(a: real, s: real): real { a * s }

  lemma {:induction false} SeriesLinear(d: nat -> real, r: nat -> real, q: nat -> real, s: real, r': nat -> real,
                                        m: nat)
    requires forall n: nat | n < m :: r'(n) == r(n) + Scaled(q(n), s)
    ensures Series(d, r', m) == Series(d, r, m) + Scaled(Series(d, q, m), s)
  {
    if m > 0 {
      SeriesLinear(d, r, q, s, r', m - 1);
      TermLinear(d(m - 1), r(m - 1), q(m - 1), s, r'(m - 1));
      FactorOut(Series(d, q, m - 1), Term(d, q, m - 1), s);
    }
  }

  lemma {:induction false} TermLinear(d: real, r: real, q: real, s: real, r': real)
    requires r' == r + q * s
    ensures d * r' == d * r + (d * q) * s
  {
    assert d * (q * s) == (d * q) * s;
    assert d * (r + q * s) == d * r + d * (q * s);
  }

  lemma {:induction false} FactorOut(a: real, b: real, s: real)
    ensures (a + b) * s == a * s + b * s
  {
  }

  lemma {:induction false} SeriesUnit(d: nat -> real, r: nat -> real, order: nat, m: nat)
    requires forall n: nat | n < m :: r(n) == if n == order then 1.0 else 0.0
    ensures Series(d, r, m) == if order < m then d(order) else 0.0
  {
    if m > 0 {
      SeriesUnit(d, r, order, m - 1);
      assert d(m - 1) * 1.0 == d(m - 1) && d(m - 1) * 0.0 == 0.0;
    }
  }

  lemma {:induction false} SeriesZero(d: nat -> real, r: nat -> real, m: nat)
    requires forall n: nat | n < m :: r(n) == 0.0
    ensures Series(d, r, m) == 0.0
  {
    if m > 0 {
      SeriesZero(d, r, m - 1);
      assert d(m - 1) * 0.0 == 0.0;
    }
  }

  /** Row `n` of the matrix times `c`, cut off after `k` columns. */
  ghost function RowDots(xs: seq<real>, x: real, c: seq<real>, k: nat): nat -> real
    requires k <= |xs| == |c|
  {
    (n: nat) => Dot(TaylorRow(xs, x, n), c, k)
  }

  lemma {:induction false} NextColumn(xs: seq<real>, x: real, c: seq<real>, k: nat, n: nat)
    requires 0 < k <= |xs| == |c|
    ensures RowDots(xs, x, c, k)(n) == RowDots(xs, x, c, k - 1)(n) + Scaled(Coefficients(xs[k - 1] - x)(n), c[k - 1])
  {
  }

  lemma {:induction false} SampleAt(p: Poly, xs: seq<real>, x: real, k: nat, m: nat)
    requires k < |xs| && |p| <= m
    ensures Samples(p, xs)[k] == Series(Derivatives(p, x), Coefficients(xs[k] - x), m)
  {
    TaylorExact(p, x, xs[k] - x, m);
    assert x + (xs[k] - x) == xs[k];
  }

  lemma {:induction false} SeriesOfColumn(d: nat -> real, xs: seq<real>, x: real, c: seq<real>, k: nat, m: nat)
    requires 0 < k <= |xs| == |c|
    ensures Series(d, RowDots(xs, x, c, k), m)
         == Series(d, RowDots(xs, x, c, k - 1), m) + Scaled(Series(d, Coefficients(xs[k - 1] - x), m), c[k - 1])
  {
    var r, r', q := RowDots(xs, x, c, k - 1), RowDots(xs, x, c, k), Coefficients(xs[k - 1] - x);
    forall n: nat | n < m ensures r'(n) == r(n) + Scaled(q(n), c[k - 1]) { NextColumn(xs, x, c, k, n); }
    SeriesLinear(d, r, q, c[k - 1], r', m);
  }

  lemma {:induction false} NextSample(samples: seq<real>, c: seq<real>, k: nat)
    requires 0 < k <= |samples| == |c|
    ensures Dot(samples, c, k) == Dot(samples, c, k - 1) + Scaled(samples[k - 1], c[k - 1])
  {
  }

  /** Exchange of the two finite sums: weighting samples of a polynomial is weighting its derivatives by the rows. */
  lemma {:induction false} Exchange(p: Poly, xs: seq<real>, x: real, c: seq<real>, k: nat, m: nat)
    requires k <= |xs| == |c| && |p| <= m
    ensures Dot(Samples(p, xs), c, k) == Series(Derivatives(p, x), RowDots(xs, x, c, k), m)
  {
    var d := Derivatives(p, x);
    if k == 0 {
      SeriesZero(d, RowDots(xs, x, c, 0), m);
    } else {
      Exchange(p, xs, x, c, k - 1, m);
      SampleAt(p, xs, x, k - 1, m);
      SeriesOfColumn(d, xs, x, c, k, m);
      NextSample(Samples(p, xs), c, k);
    }
  }

  // ----- the matrix -----

  lemma {:induction false} MatrixShape(xs: seq<real>, x: real)
    ensures Square(TaylorMatrix(xs, x)) && |TaylorMatrix(xs, x)| == |xs|
  {
  }

  /** A solution of the linear system weights samples of `p` to the same combination of the derivatives of `p`. */
  lemma {:induction false} SolutionWeights(p: Poly, xs: seq<real>, x: real, c: seq<real>, b: seq<real>, r: nat -> real)
    requires |p| <= |xs| == |c| == |b|
    requires Square(TaylorMatrix(xs, x)) && Solves(TaylorMatrix(xs, x), c, b)
    requires forall n | 0 <= n < |xs| :: r(n) == b[n]
    ensures Dot(Samples(p, xs), c, |xs|) == Series(Derivatives(p, x), r, |xs|)
  {
    Exchange(p, xs, x, c, |xs|, |xs|);
    forall n: nat | n < |xs| ensures RowDots(xs, x, c, |xs|)(n) == r(n) {
      assert TaylorMatrix(xs, x)[n] == TaylorRow(xs, x, n);
    }
    SameSeries(Derivatives(p, x), RowDots(xs, x, c, |xs|), r, |xs|);
  }

  lemma {:induction false} SameSeries(d: nat -> real, r: nat -> real, q: nat -> real, m: nat)
    requires forall n: nat | n < m :: r(n) == q(n)
    ensures Series(d, r, m) == Series(d, q, m)
  {
    if m > 0 { SameSeries(d, r, q, m - 1); }
  }

  lemma {:induction false} DotSingle(a: seq<real>, c: seq<real>, j: nat, n: nat)
    requires n <= |a| == |c|
    requires forall k | 0 <= k < n && k != j :: a[k] == 0.0
    ensures Dot(a, c, n) == if j < n then a[j] * c[j] else 0.0
  {
    if n > 0 {
      DotSingle(a, c, j, n - 1);
      if n - 1 != j { assert a[n - 1] * c[n - 1] == 0.0; }
    }
  }

  /** For distinct arguments a weighting that every row annihilates is zero: test it on the polynomial that vanishes
      at all arguments but one. */
  lemma {:induction false} WeightIsZero(xs: seq<real>, x: real, c: seq<real>, j: nat)
    requires Distinct(xs) && j < |xs| == |c|
    requires Square(TaylorMatrix(xs, x)) && Solves(TaylorMatrix(xs, x), c, Zeros(|xs|))
    ensures c[j] == 0.0
  {
    var others := Others(xs, j);
    var p := WithRoots(others);
    RootsMeaning(others, xs[j]);
    var r := (n: nat) => 0.0;
    SolutionWeights(p, xs, x, c, Zeros(|xs|), r);
    SeriesZero(Derivatives(p, x), r, |xs|);
    forall k | 0 <= k < |xs| && k != j ensures Samples(p, xs)[k] == 0.0 {
      AmongOthers(xs, j, k);
      RootsMeaning(others, xs[k]);
    }
    DotSingle(Samples(p, xs), c, j, |xs|);
    NotAmongOthers(xs, j);
    ZeroProduct(Eval(p, xs[j]), c[j]);
  }

  /** The matrix built for distinct arguments is regular. */
  lemma {:induction false} TaylorRegular(xs: seq<real>, x: real)
    requires Distinct(xs)
    ensures Square(TaylorMatrix(xs, x)) && Regular(TaylorMatrix(xs, x))
  {
    MatrixShape(xs, x);
    forall c | Solves(TaylorMatrix(xs, x), c, Zeros(|xs|)) ensures c == Zeros(|xs|) {
      forall j | 0 <= j < |xs| ensures c[j] == 0.0 { WeightIsZero(xs, x, c, j); }
    }
  }

  lemma {:induction false} TaylorRowIsSamples(xs: seq<real>, x: real, n: nat)
    ensures TaylorRow(xs, x, n) == Samples(TaylorPoly(x, n), xs)
  {
    forall k | 0 <= k < |xs| ensures Coefficient(xs[k] - x, n) == Eval(TaylorPoly(x, n), xs[k]) {
      TaylorPolyAt(x, n, xs[k]);
    }
  }

  /** The system of the calculator has a solution: the derivatives of the basis polynomials. */
  lemma {:induction false} WeightsSolve(xs: seq<real>, x: real, order: nat)
    requires Distinct(xs)
    ensures Square(TaylorMatrix(xs, x)) && Solves(TaylorMatrix(xs, x), Weights(xs, x, order), UnitVector(|xs|, order))
  {
    MatrixShape(xs, x);
    forall n | 0 <= n < |xs|
      ensures Dot(TaylorMatrix(xs, x)[n], Weights(xs, x, order), |xs|) == UnitVector(|xs|, order)[n]
    {
      TaylorRowIsSamples(xs, x, n);
      TaylorPolyAt(x, n, x);
      Interpolates(TaylorPoly(x, n), xs, x, order);
      TaylorPolyNth(x, n, order);
    }
  }

  /** The sum the calculator returns. */
  function Estimate(solve: Solver, xs: seq<real>, ys: seq<real>, x: real, order: nat): real
    requires |ys| == |xs|
  {
    var c := solve(TaylorMatrix(xs, x), UnitVector(|xs|, order));
    if |c| == |xs| then Dot(ys, c, |xs|) else 0.0
  }

  /** Exactness: sampled on distinct arguments, more of them than the polynomial has degree, every polynomial gets its
      true derivative of every order the calculator accepts, whatever the solver does on singular systems. */
  lemma {:induction false} ExactOnPolynomials(solve: Solver, p: Poly, xs: seq<real>, x: real, order: nat)
    requires Exact(solve) && Distinct(xs) && order < |xs| && |p| <= |xs|
    ensures Estimate(solve, xs, Samples(p, xs), x, order) == Nth(p, order, x)
  {
    var m, b := TaylorMatrix(xs, x), UnitVector(|xs|, order);
    TaylorRegular(xs, x);
    WeightsSolve(xs, x, order);
    var c := solve(m, b);
    assert Solves(m, c, b);
    var r := (n: nat) => if n == order then 1.0 else 0.0;
    SolutionWeights(p, xs, x, c, b, r);
    SeriesUnit(Derivatives(p, x), r, order, |xs|);
  }

  // ----- the calculator -----

  function RowOf(m: array2<real>, i: nat): seq<real>
    requires i < m.Length0
    reads m
  {
    seq(m.Length1, j requires 0 <= j < m.Length1 reads m => m[i, j])
  }

  ghost function Rows(m: array2<real>): Matrix
    reads m
  {
    seq(m.Length0, i requires 0 <= i < m.Length0 reads m => RowOf(m, i))
  }

  /** Copies the matrix for the solver. */
  method RowsOf(m: array2<real>) returns (rows: Matrix)
    ensures rows == Rows(m)
  {
    rows := seq(m.Length0, i requires 0 <= i < m.Length0 reads m => RowOf(m, i));
  }

  /** Fills one column: a running product gives the Taylor coefficients of one argument. */
  method FillColumn(matrix: array2<real>, k: nat, delta: real)
    requires k < matrix.Length1 && matrix.Length0 > 0
    modifies matrix
    ensures forall n | 0 <= n < matrix.Length0 :: matrix[n, k] == Coefficient(delta, n)
    ensures forall n, j | 0 <= n < matrix.Length0 && 0 <= j < matrix.Length1 && j != k ::
            matrix[n, j] == old(matrix[n, j])
  {
    var coeff := 1.0;
    matrix[0, k] := coeff;
    for n := 1 to matrix.Length0
      invariant coeff == Coefficient(delta, n - 1)
      invariant forall i | 0 <= i < n :: matrix[i, k] == Coefficient(delta, i)
      invariant forall i, j | 0 <= i < matrix.Length0 && 0 <= j < matrix.Length1 && j != k ::
                matrix[i, j] == old(matrix[i, j])
    {
      coeff := coeff * (delta / n as real);
      matrix[n, k] := coeff;
    }
  }

  method CalculateDerivative(choice: LinearSolver, solvers: Solvers, xs: seq<real>, ys: seq<real>, xDer: real,
                             order: nat)
    returns (r: Outcome)
    requires Chosen(choice, solvers).Some? ==> Fits(Chosen(choice, solvers).value)
    ensures r.SizesDiffer? <==> |xs| != |ys|
    ensures r.TooFewValues? <==> |xs| == |ys| && |xs| < order + 1
    ensures r.RepeatedArgument? <==> |xs| == |ys| && order < |xs| && !Distinct(xs)
    ensures r.UnexpectedSolver? <==> |xs| == |ys| && order < |xs| && Distinct(xs) && choice.Other?
    ensures r.Value? ==>
              match choice
              case HouseholderQr => r.value == Estimate(solvers.householderQr, xs, ys, xDer, order)
              case ColPivHouseholderQr => r.value == Estimate(solvers.colPivHouseholderQr, xs, ys, xDer, order)
              case _ => r.value == Estimate(solvers.partialPivLu, xs, ys, xDer, order)
  {
    if |xs| != |ys| { return SizesDiffer; }
    if |xs| < order + 1 { return TooFewValues; }
    var size := |xs|;
    var seen: set<real> := {};
    var matrix := new real[size, size];
    for k := 0 to size
      invariant seen == set i | 0 <= i < k :: xs[i]
      invariant Distinct(xs[..k])
      invariant forall n, j | 0 <= n < size && 0 <= j < k :: matrix[n, j] == Coefficient(xs[j] - xDer, n)
    {
      if xs[k] in seen {
        assert !Distinct(xs);
        return RepeatedArgument;
      }
      seen := seen + {xs[k]};
      FillColumn(matrix, k, xs[k] - xDer);
    }
    assert xs[..size] == xs;
    var result := UnitVector(size, order);
    var rows := RowsOf(matrix);
    forall n | 0 <= n < size ensures rows[n] == TaylorMatrix(xs, xDer)[n] {
      assert rows[n] == TaylorRow(xs, xDer, n);
    }
    assert rows == TaylorMatrix(xs, xDer);
    var coeffs;
    match choice {
      case Auto => coeffs := solvers.partialPivLu(rows, result);
      case PartialPivLu => coeffs := solvers.partialPivLu(rows, result);
      case HouseholderQr => coeffs := solvers.householderQr(rows, result);
      case ColPivHouseholderQr => coeffs := solvers.colPivHouseholderQr(rows, result);
      case Other(_) => return UnexpectedSolver;
    }
    var sum := WeightedSum(ys, coeffs);
    r := Value(sum);
  }

  method WeightedSum(ys: seq<real>, coeffs: seq<real>) returns (sum: real)
    requires |ys| == |coeffs|
    ensures sum == Dot(ys, coeffs, |ys|)
  {
    sum := 0.0;
    for i := 0 to |ys|
      invariant sum == Dot(ys, coeffs, i)
    {
      sum := sum + ys[i] * coeffs[i];
    }
  }
}
