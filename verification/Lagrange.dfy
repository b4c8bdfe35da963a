/** Interpolation: a polynomial has fewer roots than coefficients, so the derivatives of the basis polynomials for some
    arguments weight samples at these arguments to derivatives. */
module Lagrange {
  import opened Polynomials

  predicate Distinct(xs: seq<real>) { forall i, j | 0 <= i < j < |xs| :: xs[i] != xs[j] }

  /** The sum of the first `n` products a[i] * b[i]. */
  function Dot(a: seq<real>, b: seq<real>, n: nat): real
    requires n <= |a| && n <= |b|
  {
    if n == 0 then 0.0 else Dot(a, b, n - 1) + Product(a[n - 1], b[n - 1])
  }

  function Samples(p: Poly, xs: seq<real>): seq<real> {
    seq(|xs|, k requires 0 <= k < |xs| => Eval(p, xs[k]))
  }

  // ----- a polynomial has fewer roots than coefficients -----

  /** p(t) - p(r), divided by t - r. */
  function Quotient(p: Poly, r: real): (q: Poly)
    ensures |q| == if |p| <= 1 then 0 else |p| - 1
  {
    if |p| <= 1 then [] else [Eval(p[1..], r)] + Quotient(p[1..], r)
  }

  lemma {:induction false} FactorStep(a: real, t: real, r: real, v: real, q: real)
    ensures a + t * ((t - r) * q + v) == (t - r) * (v + t * q) + (a + r * v)
  {
    assert t * ((t - r) * q) == (t - r) * (t * q);
    assert t * ((t - r) * q + v) == t * ((t - r) * q) + t * v;
    assert (t - r) * (v + t * q) == (t - r) * v + (t - r) * (t * q);
    assert (t - r) * v == t * v - r * v;
  }

  lemma {:induction false} QuotientMeans(p: Poly, r: real, t: real)
    ensures Eval(p, t) == (t - r) * Eval(Quotient(p, r), t) + Eval(p, r)
  {
    if |p| > 1 {
      var q := Quotient(p[1..], r);
      QuotientMeans(p[1..], r, t);
      assert Quotient(p, r)[1..] == q;
      FactorStep(p[0], t, r, Eval(p[1..], r), Eval(q, t));
    } else if |p| == 1 {
      assert Eval(p[1..], t) == 0.0 && Eval(p[1..], r) == 0.0;
    }
  }

  predicate AllZero(p: Poly) { forall i | 0 <= i < |p| :: p[i] == 0.0 }

  lemma {:induction false} ZeroCons(p: Poly)
    requires p != [] && p[0] == 0.0 && AllZero(p[1..])
    ensures AllZero(p)
  {
    assert p == [p[0]] + p[1..];
  }

  lemma {:induction false} ZeroQuotient(p: Poly, r: real)
    requires AllZero(Quotient(p, r)) && Eval(p, r) == 0.0
    ensures AllZero(p)
  {
    if |p| > 1 {
      var q := Quotient(p, r);
      assert q[0] == Eval(p[1..], r) && q[1..] == Quotient(p[1..], r);
      ZeroQuotient(p[1..], r);
      ZeroCons(p);
    } else if |p| == 1 {
      assert Eval(p[1..], r) == 0.0;
    }
  }

  lemma {:induction false} QuotientRoot(p: Poly, r: real, t: real)
    requires Eval(p, r) == 0.0 && Eval(p, t) == 0.0 && t != r
    ensures Eval(Quotient(p, r), t) == 0.0
  {
    QuotientMeans(p, r, t);
    ZeroProduct(t - r, Eval(Quotient(p, r), t));
  }

  /** Only the zero polynomial vanishes at as many points as it has coefficients. */
  lemma {:induction false} ManyRoots(p: Poly, xs: seq<real>)
    requires Distinct(xs) && |p| <= |xs| && forall k | 0 <= k < |xs| :: Eval(p, xs[k]) == 0.0
    ensures AllZero(p)
    decreases |xs|
  {
    if p != [] {
      var r, rest := xs[0], xs[1..];
      forall k | 0 <= k < |rest| ensures Eval(Quotient(p, r), rest[k]) == 0.0 { QuotientRoot(p, r, xs[k + 1]); }
      ManyRoots(Quotient(p, r), rest);
      ZeroQuotient(p, r);
    }
  }

  // ----- derivatives of scaled polynomials -----

  lemma {:induction false} WeightedZero(p: Poly, k: nat)
    requires AllZero(p)
    ensures AllZero(Weighted(p, k))
  {
    if p != [] {
      WeightedZero(p[1..], k + 1);
      ZeroCons(Weighted(p, k));
    }
  }

  lemma {:induction false} EvalOfZero(p: Poly, x: real)
    requires AllZero(p)
    ensures Eval(p, x) == 0.0
  {
    if p != [] { EvalOfZero(p[1..], x); }
  }

  lemma {:induction false} NthOfZero(p: Poly, n: nat, x: real)
    requires AllZero(p)
    ensures Nth(p, n, x) == 0.0
    decreases n
  {
    if n == 0 {
      EvalOfZero(p, x);
    } else {
      if p != [] { WeightedZero(p[1..], 1); }
      NthOfZero(Derivative(p), n - 1, x);
    }
  }

  lemma {:induction false} TimesScaled(k: nat, s: real, a: real)
    ensures Times(k, Product(s, a)) == Product(s, Times(k, a))
  {
  }

  lemma {:induction false} ScaledCons(a: real, p: Poly, s: real)
    ensures Scaled([a] + p, s) == [Product(s, a)] + Scaled(p, s)
  {
    assert ([a] + p)[1..] == p;
  }

  lemma {:induction false} WeightedScaled(p: Poly, s: real, k: nat)
    ensures Weighted(Scaled(p, s), k) == Scaled(Weighted(p, k), s)
  {
    if p != [] {
      WeightedScaled(p[1..], s, k + 1);
      TimesScaled(k, s, p[0]);
      assert p == [p[0]] + p[1..];
      ScaledCons(p[0], p[1..], s);
      WeightedCons(Product(s, p[0]), Scaled(p[1..], s), k);
      WeightedCons(p[0], p[1..], k);
      ScaledCons(Times(k, p[0]), Weighted(p[1..], k + 1), s);
    }
  }

  lemma {:induction false} NthScaled(p: Poly, s: real, n: nat, x: real)
    ensures Nth(Scaled(p, s), n, x) == s * Nth(p, n, x)
    decreases n
  {
    if n == 0 {
      EvalScaled(p, s, x);
    } else {
      if p != [] {
        WeightedScaled(p[1..], s, 1);
        assert Scaled(p, s)[1..] == Scaled(p[1..], s);
      }
      NthScaled(Derivative(p), s, n - 1, x);
    }
  }

  // ----- the basis polynomials -----

  function Others(xs: seq<real>, k: nat): seq<real>
    requires k < |xs|
  {
    xs[..k] + xs[k + 1..]
  }

  /** One at the argument with index `k`, zero at the others. */
  function Basis(xs: seq<real>, k: nat): Poly
    requires k < |xs|
  {
    var p := WithRoots(Others(xs, k));
    var v := Eval(p, xs[k]);
    if v == 0.0 then p else Scaled(p, 1.0 / v)
  }

  lemma {:induction false} AmongOthers(xs: seq<real>, j: nat, k: nat)
    requires j < |xs| && k < |xs| && k != j
    ensures xs[k] in Others(xs, j)
  {
    assert Others(xs, j)[if k < j then k else k - 1] == xs[k];
  }

  lemma {:induction false} NotAmongOthers(xs: seq<real>, j: nat)
    requires Distinct(xs) && j < |xs|
    ensures xs[j] !in Others(xs, j)
  {
  }

  lemma {:induction false} Inverse(v: real)
    requires v != 0.0
    ensures (1.0 / v) * v == 1.0
  {
  }

  lemma {:induction false} BasisMeans(xs: seq<real>, k: nat, j: nat)
    requires Distinct(xs) && k < |xs| && j < |xs|
    ensures |Basis(xs, k)| == |xs| && Eval(Basis(xs, k), xs[j]) == if j == k then 1.0 else 0.0
  {
    var p := WithRoots(Others(xs, k));
    var v := Eval(p, xs[k]);
    NotAmongOthers(xs, k);
    RootsMeaning(Others(xs, k), xs[k]);
    RootsMeaning(Others(xs, k), xs[j]);
    ScaledLength(p, 1.0 / v);
    EvalScaled(p, 1.0 / v, xs[j]);
    if j == k { Inverse(v); } else { AmongOthers(xs, k, j); }
  }

  // ----- interpolation -----

  /** The sum of the first `m` polynomials with the factors `ys`. */
  function Blend(ps: seq<Poly>, ys: seq<real>, m: nat): Poly
    requires m <= |ps| == |ys|
  {
    if m == 0 then [] else Plus(Blend(ps, ys, m - 1), Scaled(ps[m - 1], ys[m - 1]))
  }

  lemma {:induction false} BlendLength(ps: seq<Poly>, ys: seq<real>, m: nat, n: nat)
    requires m <= |ps| == |ys| && forall k | 0 <= k < |ps| :: |ps[k]| <= n
    ensures |Blend(ps, ys, m)| <= n
  {
    if m > 0 {
      BlendLength(ps, ys, m - 1, n);
      ScaledLength(ps[m - 1], ys[m - 1]);
      PlusLength(Blend(ps, ys, m - 1), Scaled(ps[m - 1], ys[m - 1]));
    }
  }

  lemma {:induction false} PlusScaled(p: Poly, q: Poly, y: real, n: nat, x: real)
    ensures Nth(Plus(p, Scaled(q, y)), n, x) == Nth(p, n, x) + Product(y, Nth(q, n, x))
  {
    NthPlus(p, Scaled(q, y), n, x);
    NthScaled(q, y, n, x);
  }

  /** The derivatives of a blend are the blended derivatives. */
  lemma {:induction false} BlendNth(ps: seq<Poly>, ys: seq<real>, m: nat, n: nat, x: real, ws: seq<real>)
    requires m <= |ps| == |ys| == |ws| && forall k | 0 <= k < |ps| :: ws[k] == Nth(ps[k], n, x)
    ensures Nth(Blend(ps, ys, m), n, x) == Dot(ys, ws, m)
  {
    if m == 0 {
      NthOfNothing(n, x);
    } else {
      BlendNth(ps, ys, m - 1, n, x, ws);
      PlusScaled(Blend(ps, ys, m - 1), ps[m - 1], ys[m - 1], n, x);
    }
  }

  lemma {:induction false} DotUnit(ys: seq<real>, ws: seq<real>, j: nat, m: nat)
    requires m <= |ys| == |ws| && j < |ws| && forall k | 0 <= k < |ws| :: ws[k] == if k == j then 1.0 else 0.0
    ensures Dot(ys, ws, m) == if j < m then ys[j] else 0.0
  {
    if m > 0 {
      DotUnit(ys, ws, j, m - 1);
      OneOrZero(ys[m - 1]);
    }
  }

  lemma {:induction false} OneOrZero(y: real)
    ensures y * 1.0 == y && y * 0.0 == 0.0
  {
  }

  function Bases(xs: seq<real>): seq<Poly> { seq(|xs|, k requires 0 <= k < |xs| => Basis(xs, k)) }

  /** The derivatives of the basis polynomials. */
  function Weights(xs: seq<real>, x: real, order: nat): seq<real> {
    seq(|xs|, k requires 0 <= k < |xs| => Nth(Basis(xs, k), order, x))
  }

  /** The basis polynomials with factors `ys` take these values at the arguments. */
  lemma {:induction false} BlendAt(xs: seq<real>, ys: seq<real>, j: nat)
    requires Distinct(xs) && |xs| == |ys| && j < |xs|
    ensures Eval(Blend(Bases(xs), ys, |xs|), xs[j]) == ys[j]
  {
    var ws := Weights(xs, xs[j], 0);
    forall k | 0 <= k < |xs| ensures ws[k] == if k == j then 1.0 else 0.0 { BasisMeans(xs, k, j); }
    BlendNth(Bases(xs), ys, |xs|, 0, xs[j], ws);
    DotUnit(ys, ws, j, |xs|);
  }

  function Difference(p: Poly, q: Poly): Poly { Plus(p, Scaled(q, -1.0)) }

  lemma {:induction false} Minus(a: real)
    ensures -1.0 * a == -a
  {
  }

  lemma {:induction false} DifferenceMeans(p: Poly, q: Poly, n: nat, x: real)
    ensures |Difference(p, q)| == if |p| > |q| then |p| else |q|
    ensures Nth(Difference(p, q), n, x) == Nth(p, n, x) - Nth(q, n, x)
  {
    ScaledLength(q, -1.0);
    PlusLength(p, Scaled(q, -1.0));
    NthPlus(p, Scaled(q, -1.0), n, x);
    NthScaled(q, -1.0, n, x);
    Minus(Nth(q, n, x));
  }

  /** Polynomials that agree at as many points as they have coefficients have the same derivatives. */
  lemma {:induction false} AgreeEverywhere(p: Poly, q: Poly, xs: seq<real>, n: nat, x: real)
    requires Distinct(xs) && |p| <= |xs| && |q| <= |xs| && forall k | 0 <= k < |xs| :: Eval(p, xs[k]) == Eval(q, xs[k])
    ensures Nth(p, n, x) == Nth(q, n, x)
  {
    var d := Difference(p, q);
    DifferenceMeans(p, q, n, x);
    forall k | 0 <= k < |xs| ensures Eval(d, xs[k]) == 0.0 {
      DifferenceMeans(p, q, 0, xs[k]);
      assert Nth(d, 0, xs[k]) == Nth(p, 0, xs[k]) - Nth(q, 0, xs[k]);
    }
    ManyRoots(d, xs);
    NthOfZero(d, n, x);
  }

  /** The weights give every polynomial with no more coefficients than there are arguments its derivative. */
  lemma {:induction false} Interpolates(p: Poly, xs: seq<real>, x: real, order: nat)
    requires Distinct(xs) && |p| <= |xs|
    ensures Dot(Samples(p, xs), Weights(xs, x, order), |xs|) == Nth(p, order, x)
  {
    var ys := Samples(p, xs);
    var blend := Blend(Bases(xs), ys, |xs|);
    forall k | 0 <= k < |xs| ensures |Bases(xs)[k]| <= |xs| { BasisMeans(xs, k, k); }
    BlendLength(Bases(xs), ys, |xs|, |xs|);
    forall k | 0 <= k < |xs| ensures Eval(p, xs[k]) == Eval(blend, xs[k]) { BlendAt(xs, ys, k); }
    AgreeEverywhere(p, blend, xs, order, x);
    BlendNth(Bases(xs), ys, |xs|, order, x, Weights(xs, x, order));
  }

  // ----- (t - x)^n / n! -----

  function TaylorPoly(x: real, n: nat): Poly {
    if n == 0 then [1.0] else Scaled(TimesRoot(TaylorPoly(x, n - 1), x), 1.0 / n as real)
  }

  lemma {:induction false} TimesRootLength(p: Poly, r: real)
    ensures |TimesRoot(p, r)| == |p| + 1
  {
    ScaledLength(p, -r);
    PlusLength([0.0] + p, Scaled(p, -r));
  }

  lemma {:induction false} Regroup(m: real, h: real, c: real)
    requires m != 0.0
    ensures (1.0 / m) * (h * c) == c * (h / m)
  {
    assert h / m == h * (1.0 / m);
    assert (1.0 / m) * (h * c) == c * (h * (1.0 / m));
  }

  lemma {:induction false} TaylorPolyAt(x: real, n: nat, t: real)
    ensures |TaylorPoly(x, n)| == n + 1 && Eval(TaylorPoly(x, n), t) == Coefficient(t - x, n)
  {
    if n == 0 {
      assert Eval([1.0][1..], t) == 0.0;
    } else {
      var p := TaylorPoly(x, n - 1);
      TaylorPolyAt(x, n - 1, t);
      TimesRootLength(p, x);
      ScaledLength(TimesRoot(p, x), 1.0 / n as real);
      EvalTimesRoot(p, x, t);
      EvalScaled(TimesRoot(p, x), 1.0 / n as real, t);
      Regroup(n as real, t - x, Coefficient(t - x, n - 1));
    }
  }

  lemma {:induction false} Cancels(x: real, v: real)
    ensures Product(x, v) + Product(-x, v) == 0.0
  {
  }

  /** The product rule for (t - x) p(t), at x. */
  lemma {:induction false} NthTimesRoot(p: Poly, x: real, j: nat)
    ensures Nth(TimesRoot(p, x), j, x) == if j == 0 then 0.0 else Times(j, Nth(p, j - 1, x))
  {
    NthShifted(p, j, x);
    PlusScaled([0.0] + p, p, -x, j, x);
    Cancels(x, Nth(p, j, x));
  }

  lemma {:induction false} NthShifted(p: Poly, j: nat, x: real)
    ensures Nth([0.0] + p, j, x) == (if j == 0 then 0.0 else Times(j, Nth(p, j - 1, x))) + Product(x, Nth(p, j, x))
  {
    assert ([0.0] + p)[1..] == p;
    if j == 0 { NthOfFirst([0.0] + p, x); } else { NthOfShift([0.0] + p, j, x); }
  }

  lemma {:induction false} Cancel(n: nat)
    requires n > 0
    ensures (1.0 / n as real) * Times(n, 1.0) == 1.0 && forall j: nat :: Times(j, 0.0) == 0.0
  {
  }

  lemma {:induction false} TaylorPolyNth(x: real, n: nat, j: nat)
    ensures Nth(TaylorPoly(x, n), j, x) == if j == n then 1.0 else 0.0
    decreases n
  {
    if n == 0 {
      if j == 0 {
        assert Eval([1.0][1..], x) == 0.0;
      } else {
        NthOfOne([1.0], j, x);
      }
    } else {
      var p := TimesRoot(TaylorPoly(x, n - 1), x);
      NthScaled(p, 1.0 / n as real, j, x);
      NthTimesRoot(TaylorPoly(x, n - 1), x, j);
      if j > 0 { TaylorPolyNth(x, n - 1, j - 1); }
      Cancel(n);
      assert (1.0 / n as real) * 0.0 == 0.0;
    }
  }
}
