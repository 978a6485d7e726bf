/**
 Polynomials over GF(2^8), least significant coefficient first: evaluation,
 division by a linear factor, the bound on roots, and Lagrange interpolation.
 */
module Polynomials {
  import opened Gf256

  type Poly = seq<bv8>

  function Eval(p: Poly, x: bv8): bv8 {
    if p == [] then 0 else Add(p[0], Mul(x, Eval(p[1..], x)))
  }

  predicate AllZero(p: Poly) {
    forall k :: 0 <= k < |p| ==> p[k] == 0
  }

  predicate Distinct(xs: seq<bv8>) {
    forall i, j :: 0 <= i < j < |xs| ==> xs[i] != xs[j]
  }

  // ----- sums and multiples -----

  function Sum(p: Poly, q: Poly): (r: Poly)
    requires |p| == |q|
    ensures |r| == |p|
    ensures forall k :: 0 <= k < |p| ==> r[k] == Add(p[k], q[k])
  {
    seq(|p|, k requires 0 <= k < |p| => Add(p[k], q[k]))
  }

  function Scale(c: bv8, p: Poly): (r: Poly)
    ensures |r| == |p|
    ensures forall k :: 0 <= k < |p| ==> r[k] == Mul(c, p[k])
  {
    seq(|p|, k requires 0 <= k < |p| => Mul(c, p[k]))
  }

  lemma {:induction false} EvalSum(p: Poly, q: Poly, x: bv8)
    requires |p| == |q|
    ensures Eval(Sum(p, q), x) == Add(Eval(p, x), Eval(q, x))
  {
    hide Add, Mul;
    if p == [] {
      AddIsGroup(0, 0, 0);
    } else {
      assert Sum(p, q)[1..] == Sum(p[1..], q[1..]);
      EvalSum(p[1..], q[1..], x);
      Distributive(Eval(p[1..], x), Eval(q[1..], x), x);
      Interchange(p[0], q[0], Mul(x, Eval(p[1..], x)), Mul(x, Eval(q[1..], x)));
    }
  }

  lemma {:induction false} EvalScale(c: bv8, p: Poly, x: bv8)
    ensures Eval(Scale(c, p), x) == Mul(c, Eval(p, x))
  {
    hide Add, Mul;
    if p == [] {
      MulUnits(c);
    } else {
      assert Scale(c, p)[1..] == Scale(c, p[1..]);
      EvalScale(c, p[1..], x);
      var rest := Eval(p[1..], x);
      Distributive(p[0], Mul(x, rest), c);
      Associative(x, c, rest);
      Associative(c, x, rest);
      Commutative(x, c);
    }
  }

  lemma {:induction false} EvalPadded(p: Poly, n: nat, x: bv8)
    ensures Eval(p + seq(n, _ => 0), x) == Eval(p, x)
    decreases |p|
  {
    hide Add, Mul;
    if p == [] {
      EvalAllZero(p + seq(n, _ => 0), x);
    } else {
      assert (p + seq(n, _ => 0))[1..] == p[1..] + seq(n, _ => 0);
      EvalPadded(p[1..], n, x);
    }
  }

  lemma {:induction false} EvalAllZero(p: Poly, x: bv8)
    requires AllZero(p)
    ensures Eval(p, x) == 0
  {
    hide Add, Mul;
    if p != [] {
      EvalAllZero(p[1..], x);
      MulUnits(x);
      AddIsGroup(0, 0, 0);
    }
  }

  lemma EvalAtZero(p: Poly)
    requires p != []
    ensures Eval(p, 0) == p[0]
  {
    hide Add, Mul;
    MulUnits(Eval(p[1..], 0));
    AddIsGroup(p[0], 0, 0);
  }

  // ----- linear factors -----

  // (x + r) * p
  function TimesLinear(p: Poly, r: bv8): (q: Poly)
    ensures |q| == |p| + 1
  {
    Sum([0] + p, Scale(r, p) + [0])
  }

  lemma EvalTimesLinear(p: Poly, r: bv8, x: bv8)
    ensures Eval(TimesLinear(p, r), x) == Mul(Add(x, r), Eval(p, x))
  {
    hide Add, Mul;
    EvalSum([0] + p, Scale(r, p) + [0], x);
    assert ([0] + p)[1..] == p;
    AddIsGroup(Mul(x, Eval(p, x)), 0, 0);
    assert [0] == seq(1, _ => 0 as bv8);
    EvalPadded(Scale(r, p), 1, x);
    EvalScale(r, p, x);
    Distributive(x, r, Eval(p, x));
  }

  // The quotient of p by (x + r); the remainder is p's value at r.
  function Quotient(p: Poly, r: bv8): (q: Poly)
    requires p != []
    ensures |q| == |p| - 1
  {
    if |p| == 1 then [] else [Eval(p[1..], r)] + Quotient(p[1..], r)
  }

  lemma {:induction false} QuotientDivides(p: Poly, r: bv8, x: bv8)
    requires p != []
    ensures Eval(p, x) == Add(Mul(Add(x, r), Eval(Quotient(p, r), x)), Eval(p, r))
  {
    hide Add, Mul;
    if |p| == 1 {
      MulUnits(x); MulUnits(r); MulUnits(Add(x, r));
      AddIsGroup(p[0], 0, 0);
    } else {
      var tail := p[1..];
      var rest := Quotient(tail, r);
      QuotientDivides(tail, r, x);
      assert Quotient(p, r)[1..] == rest;
      var w, e := Eval(rest, x), Eval(tail, r);
      LinearStep(p[0], x, r, w, e);
    }
  }

  // p0 + x((x+r)w + e) == (x+r)(e + xw) + (p0 + re)
  lemma LinearStep(p0: bv8, x: bv8, r: bv8, w: bv8, e: bv8)
    ensures Add(p0, Mul(x, Add(Mul(Add(x, r), w), e)))
         == Add(Mul(Add(x, r), Add(e, Mul(x, w))), Add(p0, Mul(r, e)))
  {
    hide Add, Mul;
    var s := Add(x, r);
    var m := Mul(s, Mul(x, w));
    calc {
      Mul(x, Add(Mul(s, w), e));
      { Distributive(Mul(s, w), e, x); }
      Add(Mul(x, Mul(s, w)), Mul(x, e));
      { Associative(x, s, w); Commutative(x, s); Associative(s, x, w); }
      Add(m, Mul(x, e));
    }
    Distributive(e, Mul(x, w), s);
    Distributive(x, r, e);
    var a, b := Mul(x, e), Mul(r, e);
    // p0 + (m + a) == ((a + b) + m) + (p0 + b)
    calc {
      Add(Add(Add(a, b), m), Add(p0, b));
      { AddIsGroup(Add(a, b), m, 0); }
      Add(Add(m, Add(a, b)), Add(p0, b));
      { AddIsGroup(m, a, b); }
      Add(Add(Add(m, a), b), Add(p0, b));
      { Interchange(Add(m, a), b, p0, b); }
      Add(Add(Add(m, a), p0), Add(b, b));
      { AddIsGroup(b, 0, 0); AddIsGroup(Add(Add(m, a), p0), 0, 0); }
      Add(Add(m, a), p0);
      { AddIsGroup(Add(m, a), p0, 0); }
      Add(p0, Add(m, a));
    }
  }

  lemma {:induction false} QuotientZero(p: Poly, r: bv8)
    requires p != [] && AllZero(Quotient(p, r)) && Eval(p, r) == 0
    ensures AllZero(p)
  {
    hide Add, Mul;
    var tail := p[1..];
    MulUnits(r);
    AddIsGroup(p[0], 0, 0);
    if |p| > 1 {
      assert Quotient(p, r)[0] == Eval(tail, r);
      assert Quotient(p, r)[1..] == Quotient(tail, r);
      assert forall k :: 0 <= k < |Quotient(tail, r)| ==> Quotient(tail, r)[k] == Quotient(p, r)[k + 1];
      QuotientZero(tail, r);
      assert forall k :: 1 <= k < |p| ==> p[k] == tail[k - 1];
    } else {
      assert tail == [];
    }
  }

  /** A polynomial with as many distinct roots as coefficients is zero. */
  lemma {:induction false} RootBound(p: Poly, roots: seq<bv8>)
    requires |p| <= |roots| && Distinct(roots)
    requires forall k :: 0 <= k < |roots| ==> Eval(p, roots[k]) == 0
    ensures AllZero(p)
    decreases |p|
  {
    hide Add, Mul;
    if p != [] {
      var r := roots[0];
      var q := Quotient(p, r);
      var others := roots[1..];
      forall k | 0 <= k < |others|
        ensures Eval(q, others[k]) == 0
      {
        var x := others[k];
        assert x == roots[k + 1];
        QuotientDivides(p, r, x);
        AddIsGroup(Mul(Add(x, r), Eval(q, x)), 0, 0);
        NoZeroDivisors(Add(x, r), Eval(q, x));
        AddCancels(x, r);
      }
      RootBound(q, others);
      QuotientZero(p, r);
    }
  }

  /** Polynomials that agree at enough points have the same coefficients. */
  lemma AgreeingPolynomials(p: Poly, q: Poly, xs: seq<bv8>)
    requires |p| == |q| <= |xs| && Distinct(xs)
    requires forall k :: 0 <= k < |xs| ==> Eval(p, xs[k]) == Eval(q, xs[k])
    ensures p == q
  {
    hide Add, Mul;
    forall k | 0 <= k < |xs|
      ensures Eval(Sum(p, q), xs[k]) == 0
    {
      EvalSum(p, q, xs[k]);
      AddCancels(Eval(p, xs[k]), Eval(q, xs[k]));
    }
    RootBound(Sum(p, q), xs);
    forall k | 0 <= k < |p|
      ensures p[k] == q[k]
    {
      assert Sum(p, q)[k] == 0;
      AddCancels(p[k], q[k]);
    }
  }

  // ----- interpolation -----

  // The Lagrange basis polynomial of xs[i], from the first `j` factors.
  function BasisPoly(xs: seq<bv8>, i: nat, j: nat): (p: Poly)
    requires i < |xs| && j <= |xs|
    ensures |p| == if i < j then j else j + 1
  {
    if j == 0 then [1]
    else if j - 1 == i then BasisPoly(xs, i, j - 1)
    else Scale(Inverse(Add(xs[i], xs[j - 1])), TimesLinear(BasisPoly(xs, i, j - 1), xs[j - 1]))
  }

  // What each factor multiplies a value at x by.
  lemma BasisPolyStep(xs: seq<bv8>, i: nat, j: nat, x: bv8)
    requires i < |xs| && j < |xs| && j != i
    ensures Eval(BasisPoly(xs, i, j + 1), x)
         == Mul(Eval(BasisPoly(xs, i, j), x), Div(Add(x, xs[j]), Add(xs[i], xs[j])))
  {
    hide Add, Mul, Inverse;
    var b := BasisPoly(xs, i, j);
    var inv := Inverse(Add(xs[i], xs[j]));
    var s := Add(x, xs[j]);
    EvalScale(inv, TimesLinear(b, xs[j]), x);
    EvalTimesLinear(b, xs[j], x);
    var e := Eval(b, x);
    calc {
      Mul(inv, Mul(s, e));
      { Associative(inv, s, e); }
      Mul(Mul(inv, s), e);
      { Commutative(inv, s); Commutative(Mul(s, inv), e); }
      Mul(e, Mul(s, inv));
    }
  }

  lemma {:induction false} BasisPolyAt(xs: seq<bv8>, i: nat, j: nat, k: nat)
    requires i < |xs| && j <= |xs| && k < |xs| && Distinct(xs)
    ensures k == i ==> Eval(BasisPoly(xs, i, j), xs[k]) == 1
    ensures k != i && k < j ==> Eval(BasisPoly(xs, i, j), xs[k]) == 0
    decreases j
  {
    hide Add, Mul, Div, Eval, BasisPoly;
    if j == 0 {
      assert BasisPoly(xs, i, 0) == [1] by { BasisPolyStart(xs, i); }
      EvalOne(xs[k]);
    } else if j - 1 == i {
      BasisPolySkip(xs, i);
      BasisPolyAt(xs, i, j - 1, k);
    } else {
      BasisPolyAt(xs, i, j - 1, k);
      BasisPolyStep(xs, i, j - 1, xs[k]);
      var e := Eval(BasisPoly(xs, i, j - 1), xs[k]);
      AddCancels(xs[i], xs[j - 1]);
      if k == i {
        DivUnits(Add(xs[i], xs[j - 1]));
        MulUnits(1);
      } else if k == j - 1 {
        AddCancels(xs[k], xs[j - 1]);
        DivUnits(Add(xs[i], xs[j - 1]));
        MulUnits(e);
      } else {
        MulUnits(Div(Add(xs[k], xs[j - 1]), Add(xs[i], xs[j - 1])));
      }
    }
  }

  lemma BasisPolyStart(xs: seq<bv8>, i: nat)
    requires i < |xs|
    ensures BasisPoly(xs, i, 0) == [1]
  {
  }

  lemma BasisPolySkip(xs: seq<bv8>, i: nat)
    requires i < |xs|
    ensures BasisPoly(xs, i, i + 1) == BasisPoly(xs, i, i)
  {
  }

  lemma DivUnits(b: bv8)
    requires b != 0
    ensures Div(b, b) == 1 && Div(0, b) == 0
  {
    hide Mul, Inverse;
    InverseIsInverse(b);
    MulUnits(Inverse(b));
  }

  lemma EvalOne(x: bv8)
    ensures Eval([1], x) == 1
  {
    hide Add, Mul;
    var one: Poly := [1];
    assert one[1..] == [];
    MulUnits(x);
    AddIsGroup(1, 0, 0);
  }

  // The sum of ys[i] times the i-th basis polynomial, for i below `n`.
  function Interpolant(xs: seq<bv8>, ys: seq<bv8>, n: nat): (p: Poly)
    requires |xs| == |ys| && n <= |xs|
    ensures |p| == |xs|
  {
    if n == 0 then seq(|xs|, _ => 0)
    else Sum(Interpolant(xs, ys, n - 1), Scale(ys[n - 1], BasisPoly(xs, n - 1, |xs|)))
  }

  lemma {:induction false} InterpolantAt(xs: seq<bv8>, ys: seq<bv8>, n: nat, k: nat)
    requires |xs| == |ys| && n <= |xs| && k < |xs| && Distinct(xs)
    ensures Eval(Interpolant(xs, ys, n), xs[k]) == if k < n then ys[k] else 0
    decreases n
  {
    hide Add, Mul, BasisPoly, Eval;
    if n == 0 {
      EvalAllZero(Interpolant(xs, ys, 0), xs[k]);
    } else {
      var b := BasisPoly(xs, n - 1, |xs|);
      InterpolantAt(xs, ys, n - 1, k);
      EvalSum(Interpolant(xs, ys, n - 1), Scale(ys[n - 1], b), xs[k]);
      EvalScale(ys[n - 1], b, xs[k]);
      BasisPolyAt(xs, n - 1, |xs|, k);
      MulUnits(ys[n - 1]);
      AddIsGroup(ys[n - 1], 0, 0);
      AddIsGroup(ys[k], 0, 0);
      AddIsGroup(0, 0, 0);
    }
  }

  /** Through any points with distinct abscissae there is exactly one polynomial of that length. */
  lemma InterpolationExistsUniquely(xs: seq<bv8>, ys: seq<bv8>) returns (p: Poly)
    requires |xs| == |ys| && Distinct(xs)
    ensures |p| == |xs|
    ensures forall k :: 0 <= k < |xs| ==> Eval(p, xs[k]) == ys[k]
    ensures forall q: Poly :: |q| == |xs| && (forall k :: 0 <= k < |xs| ==> Eval(q, xs[k]) == ys[k]) ==> q == p
  {
    hide Interpolant, Eval;
    p := Interpolant(xs, ys, |xs|);
    forall k | 0 <= k < |xs|
      ensures Eval(p, xs[k]) == ys[k]
    {
      InterpolantAt(xs, ys, |xs|, k);
    }
    forall q: Poly | |q| == |xs| && (forall k :: 0 <= k < |xs| ==> Eval(q, xs[k]) == ys[k])
      ensures q == p
    {
      AgreeingPolynomials(q, p, xs);
    }
  }
}
