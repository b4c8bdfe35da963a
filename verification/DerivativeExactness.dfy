/** The derivative handler with the finite-difference calculator. */
module DerivativeExactness {
  import opened Wrappers
  import opened Timeline
  import opened DerivativeSpec
  import opened DerivativeRuns
  import P = Polynomials
  import F = FiniteDifference
  import L = Lagrange

  /** The times in the deques, as the calculator sees them. */
  function Reals(times: seq<int>): seq<real> { seq(|times|, i requires 0 <= i < |times| => times[i] as real) }

  /** The calculator as the handler uses it: whatever it throws becomes a null. */
  function FiniteDifferences(choice: F.LinearSolver, solvers: F.Solvers): Calculator {
    (times: seq<int>, values: seq<real>, t: int, order: nat) =>
      if |times| == |values| && order < |times| && L.Distinct(Reals(times)) && F.Chosen(choice, solvers).Some?
      then Some(F.Estimate(F.Chosen(choice, solvers).value, Reals(times), values, t as real, order))
      else None
  }

  /** The calculator's method computes that function. */
  method Calculate(choice: F.LinearSolver, solvers: F.Solvers, times: seq<int>, values: seq<real>, t: int, order: nat)
    returns (r: Option<real>)
    requires F.Chosen(choice, solvers).Some? ==> F.Fits(F.Chosen(choice, solvers).value)
    ensures r == FiniteDifferences(choice, solvers)(times, values, t, order)
  {
    var outcome := F.CalculateDerivative(choice, solvers, Reals(times), values, t as real, order);
    match outcome {
      case Value(v) => r := Some(v);
      case _ => r := None;
    }
  }

  /** The chosen solver is right wherever the matrix is regular and there is a solution. */
  ghost predicate Sound(choice: F.LinearSolver, solvers: F.Solvers) {
    F.Chosen(choice, solvers).Some? && F.Exact(F.Chosen(choice, solvers).value)
  }

  /** The valid readings of a column lie on the polynomial `p`. */
  ghost predicate OnPolynomial(rows: seq<Sample>, column: string, p: P.Poly) {
    forall i | 0 <= i < |rows| && HasValue(rows[i], column) ::
      rows[i].row.cells[column].value == P.Eval(p, rows[i].at as real)
  }

  /** The readings a row is answered from. */
  function InReach(rows: seq<Sample>, r: nat, reach: int, column: string): Buffered
    requires r < |rows|
  {
    Watched(Near(rows, rows[r].at, reach), column)
  }

  /** The calculator accepts the readings: they have different times, and there are more of them than the order. */
  predicate Answerable(readings: Buffered, order: nat) {
    L.Distinct(Reals(readings.times)) && order < |readings.times|
  }

  /** The cell that row `r` ought to get. */
  predicate IsTrueDerivative(cell: Option<real>, rows: seq<Sample>, r: nat, reach: int, c: Case, p: P.Poly)
    requires r < |rows|
  {
    cell == if Answerable(InReach(rows, r, reach, c.column), c.order) then Some(P.Nth(p, c.order, rows[r].at as real))
        else None
  }

  lemma {:induction false} WatchedSamples(rows: seq<Sample>, column: string, p: P.Poly)
    requires OnPolynomial(rows, column, p)
    ensures var b := Watched(rows, column);
            |b.times| == |b.values| && b.values == L.Samples(p, Reals(b.times))
  {
    if rows != [] {
      forall i | 0 <= i < |rows[1..]| && HasValue(rows[1..][i], column)
        ensures rows[1..][i].row.cells[column].value == P.Eval(p, rows[1..][i].at as real)
      {
        assert rows[1..][i] == rows[i + 1];
      }
      WatchedSamples(rows[1..], column, p);
      var b := Watched(rows[1..], column);
      if HasValue(rows[0], column) { SamplesCons(p, rows[0].at, b.times); }
    }
  }

  lemma {:induction false} SamplesCons(p: P.Poly, t: int, times: seq<int>)
    ensures L.Samples(p, Reals([t] + times)) == [P.Eval(p, t as real)] + L.Samples(p, Reals(times))
  {
    assert Reals([t] + times) == [t as real] + Reals(times);
  }

  lemma {:induction false} NearOnPolynomial(rows: seq<Sample>, t: int, reach: int, column: string, p: P.Poly)
    requires OnPolynomial(rows, column, p)
    ensures OnPolynomial(Near(rows, t, reach), column, p)
  {
    var near := Near(rows, t, reach);
    forall i | 0 <= i < |near| && HasValue(near[i], column)
      ensures near[i].row.cells[column].value == P.Eval(p, near[i].at as real)
    {
      BetweenMeans(rows, t - reach, t + reach + 1, near[i]);
      var j :| 0 <= j < |rows| && rows[j] == near[i];
    }
  }

  /** Where a column is sampled from a polynomial with no more coefficients than there are readings in reach, a row gets
      the polynomial's true derivative, or null exactly if the calculator does not accept the readings. */
  lemma {:induction false} CellIsTrueDerivative(choice: F.LinearSolver, solvers: F.Solvers, rows: seq<Sample>, r: nat,
                                                reach: int, c: Case, p: P.Poly)
    requires Sound(choice, solvers) && r < |rows| && OnPolynomial(rows, c.column, p)
    requires |p| <= |InReach(rows, r, reach, c.column).times|
    ensures IsTrueDerivative(Cell(FiniteDifferences(choice, solvers), rows, r, reach, c), rows, r, reach, c, p)
  {
    var b := InReach(rows, r, reach, c.column);
    NearOnPolynomial(rows, rows[r].at, reach, c.column, p);
    WatchedSamples(Near(rows, rows[r].at, reach), c.column, p);
    if Answerable(b, c.order) {
      F.ExactOnPolynomials(F.Chosen(choice, solvers).value, p, Reals(b.times), rows[r].at as real, c.order);
    }
  }

  /** The rows over which a run takes the derivatives of row `r`: with waiting the whole stream, otherwise what had been
      received by the end of the row's own batch. */
  function Known(k: Setup, batches: seq<seq<Reading>>, r: nat): seq<Sample>
    requires k.Valid()
  {
    if k.noWait then UpTo(k, batches, r) else Received(k, batches)
  }

  /** Over whole runs: as long as no call throws, every row put out gets the true derivatives of the polynomial that its
      column is sampled from. */
  lemma {:induction false} RunIsExact(k: Setup, batches: seq<seq<Reading>>, name: string, r: nat,
                                      choice: F.LinearSolver, solvers: F.Solvers, p: P.Poly)
    requires k.Valid() && AllHaveRows(batches) && TimeOrdered(Received(k, batches)) && !Throws(k, batches)
    requires k.calculator == FiniteDifferences(choice, solvers) && Sound(choice, solvers)
    requires name in k.cases && r < |Calls(k, batches).rows|
    ensures var s, rows, c := Calls(k, batches), Known(k, batches, r), k.cases[name];
            && name in s.derivatives && r < |s.derivatives[name]| && r < |rows|
            && (OnPolynomial(rows, c.column, p) && |p| <= |InReach(rows, r, k.reach, c.column).times| ==>
                  IsTrueDerivative(s.derivatives[name][r], rows, r, k.reach, c, p))
  {
    var rows, c := Known(k, batches, r), k.cases[name];
    CellOfRun(k, batches, name, r);
    if OnPolynomial(rows, c.column, p) && |p| <= |InReach(rows, r, k.reach, c.column).times| {
      CellIsTrueDerivative(choice, solvers, rows, r, k.reach, c, p);
    }
  }

  lemma {:induction false} CellOfRun(k: Setup, batches: seq<seq<Reading>>, name: string, r: nat)
    requires k.Valid() && AllHaveRows(batches) && TimeOrdered(Received(k, batches)) && !Throws(k, batches)
    requires name in k.cases && r < |Calls(k, batches).rows|
    ensures var s := Calls(k, batches);
            && name in s.derivatives && r < |s.derivatives[name]| && r < |Known(k, batches, r)|
            && s.derivatives[name][r] == Cell(k.calculator, Known(k, batches, r), r, k.reach, k.cases[name])
  {
    var s, all, c := Calls(k, batches), Received(k, batches), k.cases[name];
    if k.noWait {
      NoWaitRun(k, batches);
      assert CellsUpTo(k, batches, s.derivatives[name], c) && CellAt(k, batches, s.derivatives[name], c, r);
    } else {
      WaitingRun(k, batches);
      GoneFits(all, k.reach, false);
      ColumnAt(k.calculator, all, 0, Emitted(all, k.reach, false), k.reach, c);
      assert s.derivatives[name] == Column(k.calculator, all, 0, Emitted(all, k.reach, false), k.reach, c);
      assert s.derivatives[name][r] == Cell(k.calculator, all, 0 + r, k.reach, c);
    }
  }
}
