/**
 Polynomials over the table field: Horner evaluation, Lagrange interpolation, and
 the theorem that ties them together (a polynomial with as many roots as
 coefficients is zero).  Coefficients are listed from the constant term up.
 */
module Polynomial {
  import opened Gf256

  function Eval<E(==, !new)>(t: Tables<E>, p: seq<E>, x: E): E
    requires t.Valid()
  {
    if |p| == 0 then t.zero else t.add(t.Mul(Eval(t, p[1..], x), x), p[0])
  }

  ghost predicate IsZero<E(!new)>(t: Tables<E>, p: seq<E>) {
    forall i :: 0 <= i < |p| ==> p[i] == t.zero
  }

  ghost predicate Distinct<E>(xs: seq<E>) {
    forall i, j :: 0 <= i < j < |xs| ==> xs[i] != xs[j]
  }

  // ----- Arithmetic on coefficient lists -----

  function Add<E(==, !new)>(t: Tables<E>, p: seq<E>, q: seq<E>): (r: seq<E>)
    requires |p| == |q|
    ensures |r| == |p|
  {
    seq(|p|, i requires 0 <= i < |p| => t.add(p[i], q[i]))
  }

  function Scale<E(==, !new)>(t: Tables<E>, c: E, p: seq<E>): (r: seq<E>)
    requires t.Valid()
    ensures |r| == |p|
  {
    seq(|p|, i requires 0 <= i < |p| => t.Mul(c, p[i]))
  }

  function Zeros<E(==, !new)>(t: Tables<E>, n: nat): (r: seq<E>)
    ensures |r| == n
  {
    seq(n, _ => t.zero)
  }

  /** (X + r) * p. */
  function TimesRoot<E(==, !new)>(t: Tables<E>, p: seq<E>, r: E): (q: seq<E>)
    requires t.Valid()
    ensures |q| == |p| + 1
  {
    Add(t, [t.zero] + p, Scale(t, r, p) + [t.zero])
  }

  lemma {:induction false} EvalAdd<E(!new)>(t: Tables<E>, p: seq<E>, q: seq<E>, x: E)
    requires t.Valid() && |p| == |q|
    ensures Eval(t, Add(t, p, q), x) == t.add(Eval(t, p, x), Eval(t, q, x))
  {
    if |p| == 0 {
      assert t.UnitAt(t.zero);
    } else {
      EvalAdd(t, p[1..], q[1..], x);
      assert Add(t, p, q)[1..] == Add(t, p[1..], q[1..]);
      var a, b := Eval(t, p[1..], x), Eval(t, q[1..], x);
      MulDistrib(t, a, b, x);
      AddSwap(t, t.Mul(a, x), t.Mul(b, x), p[0], q[0]);
    }
  }

  lemma {:induction false} EvalScale<E(!new)>(t: Tables<E>, c: E, p: seq<E>, x: E)
    requires t.Valid()
    ensures Eval(t, Scale(t, c, p), x) == t.Mul(c, Eval(t, p, x))
  {
    if |p| > 0 {
      EvalScale(t, c, p[1..], x);
      assert Scale(t, c, p)[1..] == Scale(t, c, p[1..]);
      var a := Eval(t, p[1..], x);
      MulAssoc(t, c, a, x);
      MulDistrib(t, t.Mul(a, x), p[0], c);
    }
  }

  lemma {:induction false} EvalZero<E(!new)>(t: Tables<E>, p: seq<E>, x: E)
    requires t.Valid() && IsZero(t, p)
    ensures Eval(t, p, x) == t.zero
  {
    if |p| > 0 {
      EvalZero(t, p[1..], x);
      assert t.UnitAt(t.zero);
    }
  }

  /** Coefficients beyond the last one count as zero. */
  lemma {:induction false} EvalPad<E(!new)>(t: Tables<E>, p: seq<E>, n: nat, x: E)
    requires t.Valid()
    ensures Eval(t, p + Zeros(t, n), x) == Eval(t, p, x)
  {
    if |p| == 0 {
      assert p + Zeros(t, n) == Zeros(t, n);
      EvalZero(t, Zeros(t, n), x);
    } else {
      EvalPad(t, p[1..], n, x);
      assert (p + Zeros(t, n))[1..] == p[1..] + Zeros(t, n);
    }
  }

  lemma EvalTimesRoot<E(!new)>(t: Tables<E>, p: seq<E>, r: E, x: E)
    requires t.Valid()
    ensures Eval(t, TimesRoot(t, p, r), x) == t.Mul(Eval(t, p, x), t.add(x, r))
  {
    var shifted, scaled := [t.zero] + p, Scale(t, r, p) + Zeros(t, 1);
    assert scaled == Scale(t, r, p) + [t.zero];
    EvalAdd(t, shifted, scaled, x);
    assert shifted[1..] == p && t.UnitAt(t.Mul(Eval(t, p, x), x));
    EvalPad(t, Scale(t, r, p), 1, x);
    EvalScale(t, r, p, x);
    MulComm(t, r, Eval(t, p, x));
    MulDistrib(t, x, r, Eval(t, p, x));
  }

  // ----- Roots -----

  /** Synthetic division of p by X + r. */
  function Quotient<E(==, !new)>(t: Tables<E>, p: seq<E>, r: E): (q: seq<E>)
    requires t.Valid() && |p| > 0
    ensures |q| == |p| - 1
  {
    if |p| == 1 then [] else [Eval(t, p[1..], r)] + Quotient(t, p[1..], r)
  }

  /** p = (X + r) * Quotient + p(r). */
  lemma {:induction false} Division<E(!new)>(t: Tables<E>, p: seq<E>, r: E, x: E)
    requires t.Valid() && |p| > 0
    ensures Eval(t, p, x) == t.add(t.Mul(Eval(t, Quotient(t, p, r), x), t.add(x, r)), Eval(t, p, r))
  {
    var rest := p[1..];
    if |p| == 1 {
      assert t.CommAt(t.zero, p[0]) && t.UnitAt(p[0]);
    } else {
      Division(t, rest, r, x);
      var q := Quotient(t, rest, r);
      assert Quotient(t, p, r)[1..] == q;
      DivisionStep(t, Eval(t, rest, x), Eval(t, rest, r), Eval(t, q, x), x, r, p[0]);
    }
  }

  lemma DivisionStep<E(!new)>(t: Tables<E>, atX: E, atR: E, q: E, x: E, r: E, c: E)
    requires t.Valid()
    requires atX == t.add(t.Mul(q, t.add(x, r)), atR)
    ensures t.add(t.Mul(atX, x), c)
         == t.add(t.Mul(t.add(t.Mul(q, x), atR), t.add(x, r)), t.add(t.Mul(atR, r), c))
  {
    var d := t.add(x, r);
    var qxd, rx, rr := t.Mul(t.Mul(q, d), x), t.Mul(atR, x), t.Mul(atR, r);
    // atX * x == q * d * x + atR * x
    MulDistrib(t, t.Mul(q, d), atR, x);
    // (q * x + atR) * d == q * x * d + atR * x + atR * r
    MulDistrib(t, t.Mul(q, x), atR, d);
    MulAssoc(t, q, x, d); MulComm(t, x, d); MulAssoc(t, q, d, x);
    MulDistrib(t, x, r, atR);
    // The two copies of atR * r cancel.
    var s := t.add(qxd, rx);
    assert t.AssocAt(qxd, rx, rr);
    assert t.AssocAt(t.add(s, rr), rr, c);
    AddCancel(t, s, rr);
  }

  lemma {:induction false} ZeroFromQuotient<E(!new)>(t: Tables<E>, p: seq<E>, r: E)
    requires t.Valid() && |p| > 0
    requires Eval(t, p, r) == t.zero && IsZero(t, Quotient(t, p, r))
    ensures IsZero(t, p)
  {
    var rest := p[1..];
    assert t.CommAt(t.zero, p[0]) && t.UnitAt(p[0]);
    if |p| > 1 {
      var q := Quotient(t, p, r);
      assert q[0] == Eval(t, rest, r) && q[1..] == Quotient(t, rest, r);
      ZeroFromQuotient(t, rest, r);
      assert p == [p[0]] + rest;
    }
  }

  /** A polynomial with n coefficients and n distinct roots is the zero polynomial. */
  lemma {:induction false} TooManyRoots<E(!new)>(t: Tables<E>, p: seq<E>, xs: seq<E>)
    requires t.Valid() && |xs| == |p| && Distinct(xs)
    requires forall i :: 0 <= i < |xs| ==> Eval(t, p, xs[i]) == t.zero
    ensures IsZero(t, p)
    decreases |p|
  {
    if |p| > 0 {
      var r, q := xs[0], Quotient(t, p, xs[0]);
      forall i | 0 <= i < |xs| - 1 ensures Eval(t, q, xs[1..][i]) == t.zero {
        var x := xs[i + 1];
        Division(t, p, r, x);
        assert t.UnitAt(t.Mul(Eval(t, q, x), t.add(x, r)));
        AddCancel(t, x, r);
        MulZero(t, Eval(t, q, x), t.add(x, r));
      }
      TooManyRoots(t, q, xs[1..]);
      ZeroFromQuotient(t, p, r);
    }
  }

  /** Two polynomials with n coefficients that agree on n distinct points are equal. */
  lemma SameOnPoints<E(!new)>(t: Tables<E>, p: seq<E>, q: seq<E>, xs: seq<E>)
    requires t.Valid() && |p| == |q| == |xs| && Distinct(xs)
    requires forall i :: 0 <= i < |xs| ==> Eval(t, p, xs[i]) == Eval(t, q, xs[i])
    ensures p == q
  {
    var d := Add(t, p, q);
    forall i | 0 <= i < |xs| ensures Eval(t, d, xs[i]) == t.zero {
      EvalAdd(t, p, q, xs[i]);
      assert t.UnitAt(Eval(t, p, xs[i]));
    }
    TooManyRoots(t, d, xs);
    forall i | 0 <= i < |p| ensures p[i] == q[i] {
      assert d[i] == t.zero;
      AddCancel(t, p[i], q[i]);
    }
  }

  // ----- Lagrange interpolation -----

  /** The product of (x + x_j) over the first n points other than point i. */
  function Others<E(==, !new)>(t: Tables<E>, xs: seq<E>, i: nat, x: E, n: nat): E
    requires t.Valid() && n <= |xs|
  {
    if n == 0 then t.one
    else if n - 1 == i then Others(t, xs, i, x, n - 1)
    else t.Mul(Others(t, xs, i, x, n - 1), t.add(x, xs[n - 1]))
  }

  /** The weight of point i in the value at x. */
  function Basis<E(==, !new)>(t: Tables<E>, xs: seq<E>, i: nat, x: E): E
    requires t.Valid() && i < |xs|
  {
    t.Mul(Others(t, xs, i, x, |xs|), t.Inv(Others(t, xs, i, xs[i], |xs|)))
  }

  /** The sum of y_i * Basis_i over the first n points. */
  function Interpolate<E(==, !new)>(t: Tables<E>, xs: seq<E>, ys: seq<E>, x: E, n: nat): E
    requires t.Valid() && |xs| == |ys| && n <= |xs|
  {
    if n == 0 then t.zero
    else t.add(Interpolate(t, xs, ys, x, n - 1), t.Mul(ys[n - 1], Basis(t, xs, n - 1, x)))
  }

  lemma {:induction false} OthersZero<E(!new)>(t: Tables<E>, xs: seq<E>, i: nat, x: E, n: nat)
    requires t.Valid() && n <= |xs|
    ensures Others(t, xs, i, x, n) == t.zero <==> exists j :: 0 <= j < n && j != i && xs[j] == x
  {
    if n == 0 {
    } else {
      OthersZero(t, xs, i, x, n - 1);
      if n - 1 != i {
        MulZero(t, Others(t, xs, i, x, n - 1), t.add(x, xs[n - 1]));
        AddCancel(t, x, xs[n - 1]);
      }
    }
  }

  /** Basis i is one at point i and zero at every other point. */
  lemma BasisAtPoint<E(!new)>(t: Tables<E>, xs: seq<E>, i: nat, k: nat)
    requires t.Valid() && Distinct(xs) && i < |xs| && k < |xs|
    ensures Basis(t, xs, i, xs[k]) == if i == k then t.one else t.zero
  {
    OthersZero(t, xs, i, xs[k], |xs|);
    if i == k {
      MulInv(t, Others(t, xs, i, xs[i], |xs|));
    }
  }

  lemma {:induction false} InterpolateAtPoint<E(!new)>(t: Tables<E>, xs: seq<E>, ys: seq<E>, k: nat, n: nat)
    requires t.Valid() && |xs| == |ys| && Distinct(xs) && k < |xs| && n <= |xs|
    ensures Interpolate(t, xs, ys, xs[k], n) == if k < n then ys[k] else t.zero
  {
    if n > 0 {
      InterpolateAtPoint(t, xs, ys, k, n - 1);
      BasisAtPoint(t, xs, n - 1, k);
      MulOne(t, ys[n - 1]);
      MulZero(t, ys[n - 1], t.zero);
      assert t.UnitAt(ys[k]) && t.UnitAt(t.zero) && t.CommAt(t.zero, ys[k]);
    }
  }

  /** The coefficients of Others. */
  function OthersPoly<E(==, !new)>(t: Tables<E>, xs: seq<E>, i: nat, n: nat): (p: seq<E>)
    requires t.Valid() && n <= |xs|
    ensures |p| == if i < n then n else n + 1
  {
    if n == 0 then [t.one]
    else if n - 1 == i then OthersPoly(t, xs, i, n - 1)
    else TimesRoot(t, OthersPoly(t, xs, i, n - 1), xs[n - 1])
  }

  lemma {:induction false} EvalOthersPoly<E(!new)>(t: Tables<E>, xs: seq<E>, i: nat, n: nat, x: E)
    requires t.Valid() && n <= |xs|
    ensures Eval(t, OthersPoly(t, xs, i, n), x) == Others(t, xs, i, x, n)
  {
    if n == 0 {
      assert t.CommAt(t.zero, t.one) && t.UnitAt(t.one);
    } else {
      EvalOthersPoly(t, xs, i, n - 1, x);
      if n - 1 != i { EvalTimesRoot(t, OthersPoly(t, xs, i, n - 1), xs[n - 1], x); }
    }
  }

  /** The coefficients of Interpolate. */
  function InterpolatePoly<E(==, !new)>(t: Tables<E>, xs: seq<E>, ys: seq<E>, n: nat): (p: seq<E>)
    requires t.Valid() && |xs| == |ys| && n <= |xs|
    ensures |p| == |xs|
  {
    if n == 0 then Zeros(t, |xs|)
    else
      var weight := t.Mul(ys[n - 1], t.Inv(Others(t, xs, n - 1, xs[n - 1], |xs|)));
      Add(t, InterpolatePoly(t, xs, ys, n - 1), Scale(t, weight, OthersPoly(t, xs, n - 1, |xs|)))
  }

  lemma EvalTerm<E(!new)>(t: Tables<E>, xs: seq<E>, i: nat, y: E, x: E)
    requires t.Valid() && i < |xs|
    ensures Eval(t, Scale(t, t.Mul(y, t.Inv(Others(t, xs, i, xs[i], |xs|))), OthersPoly(t, xs, i, |xs|)), x)
         == t.Mul(y, Basis(t, xs, i, x))
  {
    var inv, num := t.Inv(Others(t, xs, i, xs[i], |xs|)), Others(t, xs, i, x, |xs|);
    EvalScale(t, t.Mul(y, inv), OthersPoly(t, xs, i, |xs|), x);
    EvalOthersPoly(t, xs, i, |xs|, x);
    MulAssoc(t, y, inv, num);
    MulComm(t, inv, num);
  }

  lemma {:induction false} EvalInterpolatePoly<E(!new)>(t: Tables<E>, xs: seq<E>, ys: seq<E>, n: nat, x: E)
    requires t.Valid() && |xs| == |ys| && n <= |xs|
    ensures Eval(t, InterpolatePoly(t, xs, ys, n), x) == Interpolate(t, xs, ys, x, n)
  {
    if n == 0 {
      EvalZero(t, Zeros(t, |xs|), x);
    } else {
      var i := n - 1;
      EvalInterpolatePoly(t, xs, ys, i, x);
      EvalTerm(t, xs, i, ys[i], x);
      var weight := t.Mul(ys[i], t.Inv(Others(t, xs, i, xs[i], |xs|)));
      EvalAdd(t, InterpolatePoly(t, xs, ys, i), Scale(t, weight, OthersPoly(t, xs, i, |xs|)), x);
    }
  }

  /**
   Interpolation recovers the polynomial: from its values at at least as many
   distinct points as it has coefficients, it yields its value everywhere.
   */
  lemma InterpolationTheorem<E(!new)>(t: Tables<E>, p: seq<E>, xs: seq<E>, ys: seq<E>, x: E)
    requires t.Valid() && |p| <= |xs| == |ys| && Distinct(xs)
    requires forall i :: 0 <= i < |xs| ==> ys[i] == Eval(t, p, xs[i])
    ensures Interpolate(t, xs, ys, x, |xs|) == Eval(t, p, x)
  {
    var padded := p + Zeros(t, |xs| - |p|);
    var q := InterpolatePoly(t, xs, ys, |xs|);
    forall i | 0 <= i < |xs| ensures Eval(t, padded, xs[i]) == Eval(t, q, xs[i]) {
      AgreeAt(t, p, xs, ys, i);
    }
    SameOnPoints(t, padded, q, xs);
    EvalPad(t, p, |xs| - |p|, x);
    EvalInterpolatePoly(t, xs, ys, |xs|, x);
  }

  lemma AgreeAt<E(!new)>(t: Tables<E>, p: seq<E>, xs: seq<E>, ys: seq<E>, i: nat)
    requires t.Valid() && |p| <= |xs| == |ys| && Distinct(xs) && i < |xs| && ys[i] == Eval(t, p, xs[i])
    ensures Eval(t, p + Zeros(t, |xs| - |p|), xs[i]) == Eval(t, InterpolatePoly(t, xs, ys, |xs|), xs[i])
  {
    EvalPad(t, p, |xs| - |p|, xs[i]);
    EvalInterpolatePoly(t, xs, ys, |xs|, xs[i]);
    InterpolateAtPoint(t, xs, ys, i, |xs|);
  }

  /**
   Any values at n distinct points are taken by exactly one polynomial with n
   coefficients.
   */
  lemma UniquePolynomial<E(!new)>(t: Tables<E>, xs: seq<E>, ys: seq<E>)
    returns (p: seq<E>)
    requires t.Valid() && |xs| == |ys| && Distinct(xs)
    ensures |p| == |xs| && forall i :: 0 <= i < |xs| ==> Eval(t, p, xs[i]) == ys[i]
    ensures forall q :: |q| == |xs| && (forall i :: 0 <= i < |xs| ==> Eval(t, q, xs[i]) == ys[i]) ==> q == p
  {
    p := InterpolatePoly(t, xs, ys, |xs|);
    forall i | 0 <= i < |xs| ensures Eval(t, p, xs[i]) == ys[i] {
      EvalInterpolatePoly(t, xs, ys, |xs|, xs[i]);
      InterpolateAtPoint(t, xs, ys, i, |xs|);
    }
    forall q | |q| == |xs| && (forall i :: 0 <= i < |xs| ==> Eval(t, q, xs[i]) == ys[i]) ensures q == p {
      SameOnPoints(t, q, p, xs);
    }
  }
}
