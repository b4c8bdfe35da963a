/** Polynomials over the reals as coefficient sequences, their derivatives, Taylor's formula for them, and polynomials
    built from their roots. */
module Polynomials {

  /** `p[i]` is the coefficient of the i-th power. */
  type Poly = seq<real>

  function Eval(p: Poly, x: real): real {
    if p == [] then 0.0 else p[0] + x * Eval(p[1..], x)
  }

  function Times(k: nat, a: real): real { (k as real) * a }

  function Product(a: real, b: real): real { a * b }

  /** Coefficient `i` times `k + i`. */
  function Weighted(q: Poly, k: nat): Poly {
    if q == [] then [] else [Times(k, q[0])] + Weighted(q[1..], k + 1)
  }

  function Derivative(p: Poly): Poly {
    if p == [] then [] else Weighted(p[1..], 1)
  }

  function NthDerivative(p: Poly, n: nat): Poly
    decreases n
  {
    if n == 0 then p else NthDerivative(Derivative(p), n - 1)
  }

  /** The value at `x` of the n-th derivative of `p`. */
  function Nth(p: Poly, n: nat, x: real): real { Eval(NthDerivative(p, n), x) }

  function Plus(p: Poly, q: Poly): Poly {
    if p == [] then q else if q == [] then p else [p[0] + q[0]] + Plus(p[1..], q[1..])
  }

  /** h^n / n!, computed as a running product. */
  function Coefficient(h: real, n: nat): real {
    if n == 0 then 1.0 else Coefficient(h, n - 1) * (h / n as real)
  }

  /** The derivatives of `p` at `x`. */
  function Derivatives(p: Poly, x: real): nat -> real { (n: nat) => Nth(p, n, x) }

  /** The coefficients h^n / n!. */
  function Coefficients(h: real): nat -> real { (n: nat) => Coefficient(h, n) }

  function Combine(p: real, h: real, a: real, x: real, b: real): real { p + h * a + x * b }

  function Term(f: nat -> real, c: nat -> real, n: nat): real { f(n) * c(n) }

  /** The sum of the first `m` products f(n) * c(n). */
  function Series(f: nat -> real, c: nat -> real, m: nat): real {
    if m == 0 then 0.0 else Series(f, c, m - 1) + Term(f, c, m - 1)
  }

  // ----- derivatives are linear -----

  lemma {:induction false} SumsUp(a: real, b: real, x: real, v: real, w: real)
    ensures a + b + x * (v + w) == (a + x * v) + (b + x * w)
  {
  }

  lemma {:induction false} EvalPlus(p: Poly, q: Poly, x: real)
    ensures Eval(Plus(p, q), x) == Eval(p, x) + Eval(q, x)
  {
    if p != [] && q != [] {
      EvalPlus(p[1..], q[1..], x);
      assert Plus(p, q)[1..] == Plus(p[1..], q[1..]);
      SumsUp(p[0], q[0], x, Eval(p[1..], x), Eval(q[1..], x));
    }
  }

  lemma {:induction false} TimesPlus(k: nat, a: real, b: real)
    ensures Times(k, a + b) == Times(k, a) + Times(k, b)
  {
  }

  lemma {:induction false} TimesNext(k: nat, a: real)
    ensures Times(k + 1, a) == a + Times(k, a)
  {
  }

  lemma {:induction false} PlusCons(a: real, p: Poly, b: real, q: Poly)
    ensures Plus([a] + p, [b] + q) == [a + b] + Plus(p, q)
  {
    assert ([a] + p)[1..] == p && ([b] + q)[1..] == q;
  }

  lemma {:induction false} WeightedCons(a: real, p: Poly, k: nat)
    ensures Weighted([a] + p, k) == [Times(k, a)] + Weighted(p, k + 1)
  {
    assert ([a] + p)[1..] == p;
  }

  lemma {:induction false} WeightedPlus(p: Poly, q: Poly, k: nat)
    ensures Weighted(Plus(p, q), k) == Plus(Weighted(p, k), Weighted(q, k))
  {
    if p != [] && q != [] {
      WeightedPlus(p[1..], q[1..], k + 1);
      PlusCons(p[0], p[1..], q[0], q[1..]);
      WeightedCons(p[0] + q[0], Plus(p[1..], q[1..]), k);
      PlusCons(Times(k, p[0]), Weighted(p[1..], k + 1), Times(k, q[0]), Weighted(q[1..], k + 1));
      assert p == [p[0]] + p[1..] && q == [q[0]] + q[1..];
      TimesPlus(k, p[0], q[0]);
    }
  }

  lemma {:induction false} NthPlus(p: Poly, q: Poly, n: nat, x: real)
    ensures Nth(Plus(p, q), n, x) == Nth(p, n, x) + Nth(q, n, x)
    decreases n
  {
    if n == 0 {
      EvalPlus(p, q, x);
    } else {
      if p != [] && q != [] { WeightedPlus(p[1..], q[1..], 1); }
      assert Derivative(Plus(p, q)) == Plus(Derivative(p), Derivative(q));
      NthPlus(Derivative(p), Derivative(q), n - 1, x);
    }
  }

  /** (k + 1 + i) q_i = q_i + (k + i) q_i */
  lemma {:induction false} WeightedNext(q: Poly, k: nat)
    ensures Weighted(q, k + 1) == Plus(q, Weighted(q, k))
  {
    if q != [] {
      WeightedNext(q[1..], k + 1);
      PlusCons(q[0], q[1..], Times(k, q[0]), Weighted(q[1..], k + 1));
      WeightedCons(q[0], q[1..], k + 1);
      assert q == [q[0]] + q[1..];
      TimesNext(k, q[0]);
    }
  }

  lemma {:induction false} NthOfNothing(n: nat, x: real)
    ensures Nth([], n, x) == 0.0
  {
    if n > 0 { NthOfNothing(n - 1, x); }
  }

  /** The derivative of a + t * q is q + t * q'. */
  lemma {:induction false} DerivativeOfShift(p: Poly)
    requires |p| > 1
    ensures Derivative(p) == Plus(p[1..], [0.0] + Derivative(p[1..]))
  {
    WeightedNext(p[1..], 0);
  }

  lemma {:induction false} NthOfDerivative(p: Poly, n: nat, x: real)
    requires n > 0
    ensures Nth(Derivative(p), n - 1, x) == Nth(p, n, x)
  {
  }

  lemma {:induction false} NthOfFirst(p: Poly, x: real)
    requires p != []
    ensures Nth(p, 0, x) == p[0] + x * Nth(p[1..], 0, x)
  {
  }

  lemma {:induction false} NthOfOne(p: Poly, n: nat, x: real)
    requires |p| == 1 && n > 0
    ensures Nth(p, n, x) == 0.0
  {
    assert Derivative(p) == [];
    NthOfNothing(n - 1, x);
  }

  lemma {:induction false} NthOfSum(p: Poly, r: Poly, n: nat, x: real)
    requires |p| > 1 && n > 0 && r == [0.0] + Derivative(p[1..])
    ensures Nth(p, n, x) == Nth(p[1..], n - 1, x) + Nth(r, n - 1, x)
  {
    DerivativeOfShift(p);
    NthOfDerivative(p, n, x);
    NthPlus(p[1..], r, n - 1, x);
  }

  /** The product rule for a + t * q: the n-th derivative is n q^(n-1) + t q^(n). */
  lemma {:induction false} NthOfShift(p: Poly, n: nat, x: real)
    requires p != [] && n > 0
    ensures Nth(p, n, x) == Times(n, Nth(p[1..], n - 1, x)) + x * Nth(p[1..], n, x)
    decreases n
  {
    var q := p[1..];
    if q == [] {
      NthOfOne(p, n, x);
      NthOfNothing(n - 1, x);
      NthOfNothing(n, x);
    } else {
      var r := [0.0] + Derivative(q);
      NthOfSum(p, r, n, x);
      if n > 1 { NthOfShift(r, n - 1, x); } else { NthOfFirst(r, x); }
      ShiftedTwice(q, r, n, x);
    }
  }

  lemma {:induction false} ShiftedTwice(q: Poly, r: Poly, n: nat, x: real)
    requires n > 0 && r == [0.0] + Derivative(q)
    requires n == 1 ==> Nth(r, 0, x) == r[0] + x * Nth(r[1..], 0, x)
    requires n > 1 ==> Nth(r, n - 1, x) == Times(n - 1, Nth(r[1..], n - 2, x)) + x * Nth(r[1..], n - 1, x)
    ensures Nth(q, n - 1, x) + Nth(r, n - 1, x) == Times(n, Nth(q, n - 1, x)) + x * Nth(q, n, x)
  {
    assert r[1..] == Derivative(q);
    NthOfDerivative(q, n, x);
    if n > 1 { NthOfDerivative(q, n - 1, x); }
    TimesNext(n - 1, Nth(q, n - 1, x));
  }

  // ----- Taylor's formula -----

  lemma {:induction false} CoefficientTimes(h: real, n: nat)
    requires n > 0
    ensures Times(n, Coefficient(h, n)) == h * Coefficient(h, n - 1)
  {
    var c, m := Coefficient(h, n - 1), n as real;
    assert m * (h / m) == h;
    assert m * (c * (h / m)) == c * (m * (h / m));
  }

  lemma {:induction false} ShiftTerm(v: real, n: nat, a: real, x: real, b: real, c: real, h: real, d: real)
    requires v == Times(n, a) + x * b && Times(n, c) == h * d
    ensures v * c == h * (a * d) + x * (b * c)
  {
    var m := n as real;
    assert (m * a) * c == a * (m * c);
    assert a * (h * d) == h * (a * d);
    assert (x * b) * c == x * (b * c);
    assert v * c == (m * a) * c + (x * b) * c;
  }

  lemma {:induction false} TermShift(f: nat -> real, g: nat -> real, c: nat -> real, x: real, h: real, n: nat)
    requires n > 0 && f(n) == Times(n, g(n - 1)) + x * g(n) && Times(n, c(n)) == h * c(n - 1)
    ensures Term(f, c, n) == Combine(0.0, h, Term(g, c, n - 1), x, Term(g, c, n))
  {
    ShiftTerm(f(n), n, g(n - 1), x, g(n), c(n), h, c(n - 1));
  }

  lemma {:induction false} AddTerm(s: real, a: real, b: real)
    ensures s * (a + b) == s * a + s * b
  {
  }

  lemma {:induction false} ShiftStep(p: real, h: real, x: real, a: real, b: real, s: real, t: real)
    ensures p + h * s + x * t + (h * a + x * b) == p + h * (s + a) + x * (t + b)
  {
    AddTerm(h, s, a);
    AddTerm(x, t, b);
  }

  /** The terms of `f` come from those of `g` by the product rule. */
  ghost predicate Shifts(f: nat -> real, g: nat -> real, c: nat -> real, x: real, h: real) {
    forall n: nat | n > 0 :: Term(f, c, n) == Combine(0.0, h, Term(g, c, n - 1), x, Term(g, c, n))
  }

  lemma {:induction false} SeriesOfShift(f: nat -> real, g: nat -> real, c: nat -> real, p: real, x: real, h: real,
                                         m: nat)
    requires m > 0 && f(0) == p + x * g(0) && c(0) == 1.0 && Shifts(f, g, c, x, h)
    ensures Series(f, c, m) == Combine(p, h, Series(g, c, m - 1), x, Series(g, c, m))
  {
    var n := m - 1;
    if n == 0 {
      FirstTerm(f, c);
      FirstTerm(g, c);
    } else {
      SeriesOfShift(f, g, c, p, x, h, n);
      ShiftStep(p, h, x, Term(g, c, n - 1), Term(g, c, n), Series(g, c, n - 1), Series(g, c, n));
    }
  }

  lemma {:induction false} FirstTerm(f: nat -> real, c: nat -> real)
    requires c(0) == 1.0
    ensures Series(f, c, 1) == f(0) && Series(f, c, 0) == 0.0
  {
    assert Series(f, c, 1) == Series(f, c, 0) + f(0) * c(0);
  }

  lemma {:induction false} TaylorOfShift(p: Poly, x: real, h: real, m: nat)
    requires p != [] && m > 0
    ensures Series(Derivatives(p, x), Coefficients(h), m) ==
            Combine(p[0], h, Series(Derivatives(p[1..], x), Coefficients(h), m - 1),
                    x, Series(Derivatives(p[1..], x), Coefficients(h), m))
  {
    DerivativesShift(p, x, h);
    FirstOfShift(p, x, h);
    SeriesOfShift(Derivatives(p, x), Derivatives(p[1..], x), Coefficients(h), p[0], x, h, m);
  }

  lemma {:induction false} DerivativesShift(p: Poly, x: real, h: real)
    requires p != []
    ensures Shifts(Derivatives(p, x), Derivatives(p[1..], x), Coefficients(h), x, h)
  {
    var f, g, c := Derivatives(p, x), Derivatives(p[1..], x), Coefficients(h);
    forall n: nat | n > 0 ensures Term(f, c, n) == Combine(0.0, h, Term(g, c, n - 1), x, Term(g, c, n)) {
      NthShift(p, x, h, n);
    }
  }

  lemma {:induction false} NthShift(p: Poly, x: real, h: real, n: nat)
    requires p != [] && n > 0
    ensures var f, g, c := Derivatives(p, x), Derivatives(p[1..], x), Coefficients(h);
            Term(f, c, n) == Combine(0.0, h, Term(g, c, n - 1), x, Term(g, c, n))
  {
    NthOfShift(p, n, x);
    CoefficientTimes(h, n);
    TermShift(Derivatives(p, x), Derivatives(p[1..], x), Coefficients(h), x, h, n);
  }

  lemma {:induction false} FirstOfShift(p: Poly, x: real, h: real)
    requires p != []
    ensures Derivatives(p, x)(0) == p[0] + x * Derivatives(p[1..], x)(0) && Coefficients(h)(0) == 1.0
  {
    NthOfFirst(p, x);
  }

  /** Taylor's formula: a polynomial is the sum of its Taylor terms, as many as it has coefficients or more. */
  lemma {:induction false} TaylorExact(p: Poly, x: real, h: real, m: nat)
    requires |p| <= m
    ensures Series(Derivatives(p, x), Coefficients(h), m) == Eval(p, x + h)
  {
    if p == [] {
      TaylorOfNothing(x, h, m);
    } else {
      var v := Eval(p[1..], x + h);
      TaylorOfShift(p, x, h, m);
      TaylorExact(p[1..], x, h, m - 1);
      TaylorExact(p[1..], x, h, m);
      assert Series(Derivatives(p, x), Coefficients(h), m) == Combine(p[0], h, v, x, v);
      SumTimes(p[0], h, x, v);
    }
  }

  lemma {:induction false} SumTimes(p: real, h: real, x: real, v: real)
    ensures Combine(p, h, v, x, v) == p + (x + h) * v
  {
  }

  lemma {:induction false} TaylorOfNothing(x: real, h: real, m: nat)
    ensures Series(Derivatives([], x), Coefficients(h), m) == 0.0
  {
    if m > 0 {
      TaylorOfNothing(x, h, m - 1);
      NthOfNothing(m - 1, x);
    }
  }

  // ----- polynomials with given roots -----

  function Scaled(p: Poly, s: real): Poly {
    if p == [] then [] else [Product(s, p[0])] + Scaled(p[1..], s)
  }

  /** p * (t - r) */
  function TimesRoot(p: Poly, r: real): Poly { Plus([0.0] + p, Scaled(p, -r)) }

  function WithRoots(rs: seq<real>): Poly {
    if rs == [] then [1.0] else TimesRoot(WithRoots(rs[1..]), rs[0])
  }

  lemma {:induction false} EvalScaled(p: Poly, s: real, x: real)
    ensures Eval(Scaled(p, s), x) == s * Eval(p, x)
  {
    if p != [] {
      EvalScaled(p[1..], s, x);
      var v := Eval(p[1..], x);
      assert x * (s * v) == s * (x * v);
      AddTerm(s, p[0], x * v);
    }
  }

  lemma {:induction false} EvalTimesRoot(p: Poly, r: real, x: real)
    ensures Eval(TimesRoot(p, r), x) == (x - r) * Eval(p, x)
  {
    EvalPlus([0.0] + p, Scaled(p, -r), x);
    EvalScaled(p, -r, x);
    assert ([0.0] + p)[1..] == p;
    var v := Eval(p, x);
    assert x * v + -r * v == (x - r) * v;
  }

  lemma {:induction false} PlusLength(p: Poly, q: Poly)
    ensures |Plus(p, q)| == if |p| > |q| then |p| else |q|
  {
    if p != [] && q != [] { PlusLength(p[1..], q[1..]); }
  }

  lemma {:induction false} ScaledLength(p: Poly, s: real)
    ensures |Scaled(p, s)| == |p|
  {
    if p != [] { ScaledLength(p[1..], s); }
  }

  /** The polynomial with roots `rs` has one more coefficient than roots, and vanishes exactly at them. */
  lemma {:induction false} RootsMeaning(rs: seq<real>, x: real)
    ensures |WithRoots(rs)| == |rs| + 1
    ensures Eval(WithRoots(rs), x) == 0.0 <==> x in rs
  {
    if rs == [] {
      assert WithRoots(rs)[1..] == [];
    } else {
      RootsMeaning(rs[1..], x);
      var p := WithRoots(rs[1..]);
      EvalTimesRoot(p, rs[0], x);
      ScaledLength(p, -rs[0]);
      PlusLength([0.0] + p, Scaled(p, -rs[0]));
      ZeroProduct(x - rs[0], Eval(p, x));
      assert rs == [rs[0]] + rs[1..];
    }
  }

  lemma {:induction false} ZeroProduct(a: real, b: real)
    ensures a * b == 0.0 <==> a == 0.0 || b == 0.0
  {
  }
}
