/** What the secret sharing promises: round trip, secrecy below the threshold, and tamper evidence. */
module ShamirTheorems {
  import opened Gf256
  import opened Polynomial
  import opened Shamir

  /** The chosen shares, in the order chosen. */
  function Pick<T>(shares: seq<T>, picks: seq<nat>): (picked: seq<T>)
    requires forall i :: 0 <= i < |picks| ==> picks[i] < |shares|
    ensures |picked| == |picks|
  {
    seq(|picks|, i requires 0 <= i < |picks| => shares[picks[i]])
  }

  // ----- Round trip -----

  lemma PickedDistinct(t: Tables<Byte>, secret: seq<Byte>, k: nat, n: nat, rand: seq<seq<Byte>>,
                       shares: seq<Share>, picks: seq<nat>, used: nat)
    requires Field(t) && |rand| == |secret| && IsSplit(t, secret, k, n, rand, shares)
    requires used <= |picks| && Distinct(picks[..used])
    requires forall i :: 0 <= i < |picks| ==> picks[i] < n
    ensures Distinct(FirstBytes(Pick(shares, picks), used))
  {
    var picked := Pick(shares, picks);
    forall i, j | 0 <= i < j < used ensures picked[i][0] != picked[j][0] {
      assert IsShare(t, secret, k, rand, shares[picks[i]], picks[i], |secret|);
      assert IsShare(t, secret, k, rand, shares[picks[j]], picks[j], |secret|);
      assert picks[..used][i] != picks[..used][j];
      DistinctXs(picks[i], picks[j]);
    }
  }

  /** Byte b of the interpolation at 0 of the picked shares is byte b of the secret. */
  lemma ByteRecovered(t: Tables<Byte>, secret: seq<Byte>, k: nat, n: nat, rand: seq<seq<Byte>>,
                      shares: seq<Share>, picks: seq<nat>, used: nat, b: nat)
    requires Field(t) && Draws(secret, k, rand) && IsSplit(t, secret, k, n, rand, shares)
    requires k <= used <= |picks| && Distinct(picks[..used]) && b < |secret|
    requires forall i :: 0 <= i < |picks| ==> picks[i] < n
    ensures forall i :: 0 <= i < |picks| ==> |Pick(shares, picks)[i]| == |secret| + 2
    ensures ByteAt(t, Pick(shares, picks), used, b) == secret[b]
  {
    var picked := Pick(shares, picks);
    forall i | 0 <= i < |picks| ensures |picked[i]| == |secret| + 2 {
      assert IsShare(t, secret, k, rand, shares[picks[i]], picks[i], |secret|);
    }
    var p := [secret[b]] + rand[b];
    var points := Points(picked, used, b);
    var xs, ys := Xs(points), Ys(points);
    PickedDistinct(t, secret, k, n, rand, shares, picks, used);
    assert xs == FirstBytes(picked, used);
    forall i | 0 <= i < used ensures ys[i] == Eval(t, p, xs[i]) {
      assert IsShare(t, secret, k, rand, shares[picks[i]], picks[i], |secret|);
    }
    InterpolationTheorem(t, p, xs, ys, 0);
    EvalAtZero(t, p);
  }

  lemma EvalAtZero(t: Tables<Byte>, p: seq<Byte>)
    requires Field(t) && |p| > 0
    ensures Eval(t, p, 0) == p[0]
  {
    MulZero(t, Eval(t, p[1..], 0), 0);
    assert t.CommAt(t.zero, p[0]) && t.UnitAt(p[0]);
  }

  /**
   Any selection of at least k shares with distinct indices, in any order and
   with any randomness, reconstructs exactly the secret.
   */
  lemma RoundTrip(t: Tables<Byte>, secret: seq<Byte>, k: nat, n: nat, rand: seq<seq<Byte>>,
                  shares: seq<Share>, picks: seq<nat>, used: nat)
    requires Field(t) && Draws(secret, k, rand) && IsSplit(t, secret, k, n, rand, shares)
    requires secret != []
    requires k <= used <= |picks| && Distinct(picks[..used])
    requires forall i :: 0 <= i < |picks| ==> picks[i] < n
    ensures Reconstruct(t, Pick(shares, picks), used) == Ok(secret)
  {
    var picked := Pick(shares, picks);
    forall b | 0 <= b < |secret|
      ensures forall i :: 0 <= i < |picks| ==> |picked[i]| == |secret| + 2
      ensures ByteAt(t, picked, used, b) == secret[b]
    {
      ByteRecovered(t, secret, k, n, rand, shares, picks, used, b);
    }
    ByteRecovered(t, secret, k, n, rand, shares, picks, used, 0);
    PickedDistinct(t, secret, k, n, rand, shares, picks, used);
    assert Recovered(t, picked, used) == secret;
  }

  /** The round trip for the repository's own tables. */
  lemma RepositoryRoundTrip(secret: seq<Byte>, k: nat, n: nat, rand: seq<seq<Byte>>,
                            shares: seq<Share>, picks: seq<nat>, used: nat)
    requires Draws(secret, k, rand) && IsSplit(Repository(), secret, k, n, rand, shares) && secret != []
    requires k <= used <= |picks| && Distinct(picks[..used])
    requires forall i :: 0 <= i < |picks| ==> picks[i] < n
    ensures Reconstruct(Repository(), Pick(shares, picks), used) == Ok(secret)
  {
    RoundTrip(Repository(), secret, k, n, rand, shares, picks, used);
  }

  // ----- Secrecy below the threshold -----

  /** The k - 1 coefficients put these values at these points when the secret byte is s. */
  ghost predicate Fits(t: Tables<Byte>, s: Byte, rand: seq<Byte>, xs: seq<Byte>, ys: seq<Byte>)
    requires Field(t) && |xs| == |ys|
  {
    |rand| == |xs| && forall i :: 0 <= i < |xs| ==> Eval(t, [s] + rand, xs[i]) == ys[i]
  }

  /**
   Fewer than k shares fit every secret equally: for any k - 1 shares at distinct
   nonzero points and any candidate byte, exactly one choice of the k - 1 random
   coefficients produces them.
   */
  lemma ThresholdExact(t: Tables<Byte>, s: Byte, xs: seq<Byte>, ys: seq<Byte>) returns (rand: seq<Byte>)
    requires Field(t) && |xs| == |ys| && Distinct(xs)
    requires forall i :: 0 <= i < |xs| ==> xs[i] != 0
    ensures Fits(t, s, rand, xs, ys)
    ensures forall other :: Fits(t, s, other, xs, ys) ==> other == rand
  {
    var points, values := [0] + xs, [s] + ys;
    var p := UniquePolynomial(t, points, values);
    assert Eval(t, p, points[0]) == values[0];
    EvalAtZero(t, p);
    rand := p[1..];
    assert p == [s] + rand;
    forall i | 0 <= i < |xs| ensures Eval(t, [s] + rand, xs[i]) == ys[i] {
      assert Eval(t, p, points[i + 1]) == values[i + 1];
    }
    forall other | Fits(t, s, other, xs, ys) ensures other == rand {
      var q := [s] + other;
      EvalAtZero(t, q);
      forall i | 0 <= i < |points| ensures Eval(t, q, points[i]) == values[i] {
        assert i > 0 ==> points[i] == xs[i - 1] && values[i] == ys[i - 1];
      }
      assert q == p;
    }
  }

  // ----- Tamper evidence -----

  /** Changing one value shifts the interpolation by the change times that point's weight. */
  lemma {:induction false} InterpolateShift(t: Tables<Byte>, xs: seq<Byte>, ys: seq<Byte>, i: nat, y: Byte, x: Byte, n: nat)
    requires Field(t) && |xs| == |ys| && i < |xs| && n <= |xs|
    ensures Interpolate(t, xs, ys[i := y], x, n)
         == if i < n then t.add(Interpolate(t, xs, ys, x, n), t.Mul(t.add(ys[i], y), Basis(t, xs, i, x)))
            else Interpolate(t, xs, ys, x, n)
  {
    if n > 0 {
      InterpolateShift(t, xs, ys, i, y, x, n - 1);
      var a, w := Interpolate(t, xs, ys, x, n - 1), Basis(t, xs, i, x);
      var d := t.Mul(t.add(ys[i], y), w);
      MulDistrib(t, ys[i], y, w);
      var u, v := t.Mul(ys[i], w), t.Mul(y, w);
      if n - 1 == i {
        // a + v == (a + u) + (u + v)
        assert t.AssocAt(t.add(a, u), u, v);
        AddCancel(t, a, u);
      } else if i < n {
        var term := t.Mul(ys[n - 1], Basis(t, xs, n - 1, x));
        assert t.AssocAt(a, d, term) && t.CommAt(d, term) && t.AssocAt(a, term, d);
      }
    }
  }

  /**
   Changing the value of exactly one used share changes the recovered byte if and
   only if no other used share sits at coordinate 0.  Splits never issue
   coordinate 0, so for genuine coordinates every such change is visible.
   */
  lemma OneShareTampered(t: Tables<Byte>, xs: seq<Byte>, ys: seq<Byte>, i: nat, y: Byte)
    requires Field(t) && |xs| == |ys| && Distinct(xs) && i < |xs| && y != ys[i]
    ensures Interpolate(t, xs, ys[i := y], 0, |xs|) != Interpolate(t, xs, ys, 0, |xs|)
       <==> forall j :: 0 <= j < |xs| && j != i ==> xs[j] != 0
  {
    InterpolateShift(t, xs, ys, i, y, 0, |xs|);
    var before, w := Interpolate(t, xs, ys, 0, |xs|), Basis(t, xs, i, 0);
    var d := t.Mul(t.add(ys[i], y), w);
    AddCancel(t, ys[i], y);
    MulZero(t, t.add(ys[i], y), w);
    assert t.AssocAt(before, before, d) && t.UnitAt(before) && t.CommAt(t.zero, d) && t.UnitAt(d);
    assert t.add(before, d) == before <==> d == t.zero;
    var den := Others(t, xs, i, xs[i], |xs|);
    OthersZero(t, xs, i, xs[i], |xs|);
    MulInv(t, den);
    OthersZero(t, xs, i, 0, |xs|);
    MulZero(t, Others(t, xs, i, 0, |xs|), t.Inv(den));
  }

  /** Two of the shares used have one coordinate. */
  ghost predicate SharesClash(shares: seq<Share>, k: nat)
    requires k <= |shares| && forall i :: 0 <= i < k ==> shares[i] != []
  {
    exists i, j :: 0 <= i < j < k && shares[i][0] == shares[j][0]
  }

  /** On every input: when a secret comes back, and which complaint is made otherwise. */
  lemma ReconstructVerdict(t: Tables<Byte>, shares: seq<Share>, k: nat)
    requires Field(t)
    ensures var r := Reconstruct(t, shares, k);
            && (r == Err(Insufficient) <==> shares == [] || |shares| < k)
            && (r.Panic? <==> shares != [] && |shares| >= k && |shares[0]| < 2)
            && (shares != [] && |shares| >= k && |shares[0]| > 2 ==>
                  && (r == Err(LengthMismatch) <==> exists i :: 0 <= i < |shares| && |shares[i]| != |shares[0]|)
                  && (r != Err(LengthMismatch) ==> (r == Err(DuplicateX) <==> SharesClash(shares, k)))
                  && (r.Ok? ==> |r.value| == |shares[0]| - 2))
            && (r.Ok? <==> Reconstructible(shares, k))
  {
    if shares != [] && |shares| >= k && |shares[0]| > 2 && SameLengths(shares) {
      var xs := FirstBytes(shares, k);
      assert forall i, j :: 0 <= i < j < k ==> (xs[i] == xs[j] <==> shares[i][0] == shares[j][0]);
      assert Distinct(xs) <==> !SharesClash(shares, k);
    }
  }
}
