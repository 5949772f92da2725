/** k-of-n secret sharing over GF(2^8): splitting and reconstruction, with the errors of both the plain and the metadata-checked variant. */
module Shamir {
  import opened Gf256
  import Gf256Source
  import opened Polynomial

  type Byte = bv8
  type Share = seq<Byte>

  datatype Error =
    | BadThreshold | Insufficient | TooShort | LengthMismatch | DuplicateX
    | DifferentSplits | MetadataMismatch | IntegrityFailed | HashMismatch

  /** Panic stands for the unsigned underflow of a share shorter than its two header bytes. */
  datatype Outcome<T> = Ok(value: T) | Err(error: Error) | Panic

  /** Tables over bytes whose zero is the byte 0. */
  ghost predicate Field(t: Tables<Byte>) {
    t.Valid() && t.zero == 0
  }

  /** The field of the repository's own tables. */
  function Repository(): (t: Tables<Byte>)
    ensures Field(t)
  {
    Gf256Source.SourceValid();
    Gf256Source.Source()
  }

  // ----- Evaluation and interpolation loops -----

  method EvalLoop(t: Tables<Byte>, coeffs: seq<Byte>, x: Byte) returns (r: Byte)
    requires Field(t)
    ensures r == Eval(t, coeffs, x)
  {
    r := t.zero;
    var i := |coeffs|;
    assert coeffs[i..] == [];
    while i > 0
      invariant 0 <= i <= |coeffs|
      invariant r == Eval(t, coeffs[i..], x)
    {
      i := i - 1;
      assert coeffs[i..][1..] == coeffs[i + 1..];
      r := t.add(t.Mul(r, x), coeffs[i]);
    }
    assert coeffs[0..] == coeffs;
  }

  function Xs(points: seq<(Byte, Byte)>): (xs: seq<Byte>)
    ensures |xs| == |points|
  {
    seq(|points|, i requires 0 <= i < |points| => points[i].0)
  }

  function Ys(points: seq<(Byte, Byte)>): (ys: seq<Byte>)
    ensures |ys| == |points|
  {
    seq(|points|, i requires 0 <= i < |points| => points[i].1)
  }

  method InterpolateLoop(t: Tables<Byte>, points: seq<(Byte, Byte)>, x: Byte) returns (r: Byte)
    requires Field(t)
    ensures r == Interpolate(t, Xs(points), Ys(points), x, |points|)
  {
    ghost var xs, ys := Xs(points), Ys(points);
    r := t.zero;
    for i := 0 to |points|
      invariant r == Interpolate(t, xs, ys, x, i)
    {
      var (xi, yi) := points[i];
      var num, den := t.one, t.one;
      for j := 0 to |points|
        invariant num == Others(t, xs, i, x, j)
        invariant den == Others(t, xs, i, xs[i], j)
      {
        if i != j {
          num := t.Mul(num, t.add(x, points[j].0));
          den := t.Mul(den, t.add(xi, points[j].0));
        }
      }
      r := t.add(r, t.Mul(yi, t.Mul(num, t.Inv(den))));
    }
  }

  // ----- Splitting -----

  function X(i: nat): Byte
    requires i < 255
  {
    (i + 1) as Byte
  }

  lemma DistinctXs(i: nat, j: nat)
    requires i < 255 && j < 255
    ensures X(i) != 0
    ensures X(i) == X(j) ==> i == j
  {
    ByteOf(i + 1); ByteOf(j + 1);
  }

  lemma ByteOf(n: nat)
    requires n < 256
    ensures (n as Byte) as int == n
  {
    if n < 16 { return; }
    if n < 32 { return; }
    if n < 48 { return; }
    if n < 64 { return; }
    if n < 80 { return; }
    if n < 96 { return; }
    if n < 112 { return; }
    if n < 128 { return; }
    if n < 144 { return; }
    if n < 160 { return; }
    if n < 176 { return; }
    if n < 192 { return; }
    if n < 208 { return; }
    if n < 224 { return; }
    if n < 240 { return; }
  }

  /** Randomness of one split: k - 1 coefficients for each byte of the secret. */
  ghost predicate Draws(secret: seq<Byte>, k: nat, rand: seq<seq<Byte>>) {
    |rand| == |secret| && forall b :: 0 <= b < |rand| ==> |rand[b]| == if k == 0 then 0 else k - 1
  }

  /** Share i holds its coordinate, the threshold, and the value of every byte's polynomial there. */
  ghost predicate IsShare(t: Tables<Byte>, secret: seq<Byte>, k: nat, rand: seq<seq<Byte>>, share: Share, i: nat, len: nat)
    requires Field(t) && |rand| == |secret| && len <= |secret| && i < 255 && k < 256
  {
    && |share| == len + 2 && share[0] == X(i) && share[1] == k as Byte
    && forall b :: 0 <= b < len ==> share[b + 2] == Eval(t, [secret[b]] + rand[b], X(i))
  }

  ghost predicate IsSplit(t: Tables<Byte>, secret: seq<Byte>, k: nat, n: nat, rand: seq<seq<Byte>>, shares: seq<Share>)
    requires Field(t) && |rand| == |secret|
  {
    && 1 <= k <= n <= 255 && |shares| == n
    && forall i :: 0 <= i < n ==> IsShare(t, secret, k, rand, shares[i], i, |secret|)
  }

  method SplitSecret(t: Tables<Byte>, secret: seq<Byte>, k: nat, n: nat, rand: seq<seq<Byte>>)
    returns (r: Outcome<seq<Share>>)
    requires Field(t) && Draws(secret, k, rand)
    ensures r == Err(BadThreshold) || r.Ok?
    ensures r.Ok? <==> 1 <= k <= n <= 255
    ensures r.Ok? ==> IsSplit(t, secret, k, n, rand, r.value)
  {
    if k == 0 || n == 0 || k > n || k > 255 || n > 255 {
      return Err(BadThreshold);
    }
    var shares: seq<Share> := [];
    for i := 0 to n
      invariant |shares| == i
      invariant forall s :: 0 <= s < i ==> IsShare(t, secret, k, rand, shares[s], s, 0)
    {
      shares := shares + [[X(i), k as Byte]];
    }
    for b := 0 to |secret|
      invariant |shares| == n
      invariant forall s :: 0 <= s < n ==> IsShare(t, secret, k, rand, shares[s], s, b)
    {
      var coeffs := [secret[b]] + rand[b];
      for i := 0 to n
        invariant |shares| == n
        invariant forall s :: 0 <= s < i ==> IsShare(t, secret, k, rand, shares[s], s, b + 1)
        invariant forall s :: i <= s < n ==> IsShare(t, secret, k, rand, shares[s], s, b)
      {
        var y := EvalLoop(t, coeffs, X(i));
        shares := shares[i := shares[i] + [y]];
      }
    }
    r := Ok(shares);
  }

  // ----- Reconstruction -----

  /** The points that byte b of the first k shares contributes. */
  function Points(shares: seq<Share>, k: nat, b: nat): (points: seq<(Byte, Byte)>)
    requires k <= |shares| && forall i :: 0 <= i < k ==> |shares[i]| > b + 2
    ensures |points| == k
  {
    seq(k, i requires 0 <= i < k => (shares[i][0], shares[i][b + 2]))
  }

  function FirstBytes(shares: seq<Share>, k: nat): (xs: seq<Byte>)
    requires k <= |shares| && forall i :: 0 <= i < k ==> |shares[i]| > 0
    ensures |xs| == k
  {
    seq(k, i requires 0 <= i < k => shares[i][0])
  }

  ghost predicate SameLengths(shares: seq<Share>) {
    forall i :: 0 <= i < |shares| ==> |shares[i]| == |shares[0]|
  }

  ghost predicate Reconstructible(shares: seq<Share>, k: nat) {
    && k <= |shares| && |shares| > 0 && |shares[0]| > 2
    && SameLengths(shares) && Distinct(FirstBytes(shares, k))
  }

  method ReconstructSecret(t: Tables<Byte>, shares: seq<Share>, k: nat) returns (r: Outcome<seq<Byte>>)
    requires Field(t)
    ensures r == Reconstruct(t, shares, k)
  {
    if |shares| < k || |shares| == 0 {
      return Err(Insufficient);
    }
    if |shares[0]| < 2 {
      return Panic;
    }
    var secretLen := |shares[0]| - 2;
    if secretLen == 0 {
      return Err(TooShort);
    }
    for i := 0 to |shares|
      invariant forall s :: 0 <= s < i ==> |shares[s]| == |shares[0]|
    {
      if |shares[i]| != |shares[0]| {
        return Err(LengthMismatch);
      }
    }
    var coords := Values(FirstBytes(shares, k));
    var sorted := Sort(coords);
    SameCountsDistinct(coords, sorted);
    DistinctValues(FirstBytes(shares, k));
    var i := 1;
    while i < |sorted|
      invariant 1 <= i
      invariant forall s :: 1 <= s < i && s < |sorted| ==> sorted[s - 1] != sorted[s]
    {
      if sorted[i] == sorted[i - 1] {
        return Err(DuplicateX);
      }
      i := i + 1;
    }
    AdjacentDistinct(sorted);
    var secret: seq<Byte> := [];
    for b := 0 to secretLen
      invariant |secret| == b
      invariant forall s :: 0 <= s < b ==> secret[s] == ByteAt(t, shares, k, s)
    {
      var points := Points(shares, k, b);
      var y := InterpolateLoop(t, points, 0);
      secret := secret + [y];
    }
    r := Ok(secret);
    assert secret == Recovered(t, shares, k);
  }

  /** Byte b of the interpolated secret. */
  ghost function ByteAt(t: Tables<Byte>, shares: seq<Share>, k: nat, b: nat): Byte
    requires Field(t) && k <= |shares| && forall i :: 0 <= i < k ==> |shares[i]| > b + 2
  {
    var points := Points(shares, k, b);
    Interpolate(t, Xs(points), Ys(points), 0, k)
  }

  ghost function Recovered(t: Tables<Byte>, shares: seq<Share>, k: nat): (secret: seq<Byte>)
    requires Field(t) && Reconstructible(shares, k)
  {
    seq(|shares[0]| - 2, b requires 0 <= b < |shares[0]| - 2 => ByteAt(t, shares, k, b))
  }

  /** What reconstruction returns on every input, malformed ones included. */
  ghost function Reconstruct(t: Tables<Byte>, shares: seq<Share>, k: nat): Outcome<seq<Byte>>
    requires Field(t)
  {
    if |shares| < k || |shares| == 0 then Err(Insufficient)
    else if |shares[0]| < 2 then Panic
    else if |shares[0]| == 2 then Err(TooShort)
    else if !SameLengths(shares) then Err(LengthMismatch)
    else if !Distinct(FirstBytes(shares, k)) then Err(DuplicateX)
    else Ok(Recovered(t, shares, k))
  }

  // ----- Sorting the coordinates -----

  function Values(xs: seq<Byte>): (ns: seq<int>)
    ensures |ns| == |xs|
  {
    seq(|xs|, i requires 0 <= i < |xs| => xs[i] as int)
  }

  lemma SameByte(a: Byte, b: Byte)
    ensures a as int == b as int <==> a == b
  {}

  lemma DistinctValues(xs: seq<Byte>)
    ensures Distinct(Values(xs)) <==> Distinct(xs)
  {
    forall i, j | 0 <= i < j < |xs| ensures Values(xs)[i] == Values(xs)[j] <==> xs[i] == xs[j] {
      SameByte(xs[i], xs[j]);
    }
  }

  ghost predicate Sorted(ns: seq<int>) {
    forall i, j :: 0 <= i < j < |ns| ==> ns[i] <= ns[j]
  }

  method Sort(ns: seq<int>) returns (ms: seq<int>)
    ensures Sorted(ms) && multiset(ms) == multiset(ns)
  {
    ms := [];
    for i := 0 to |ns|
      invariant Sorted(ms) && multiset(ms) == multiset(ns[..i])
    {
      ms := Insert(ms, ns[i]);
      assert ns[..i + 1] == ns[..i] + [ns[i]];
    }
    assert ns[..|ns|] == ns;
  }

  method Insert(ms: seq<int>, v: int) returns (r: seq<int>)
    requires Sorted(ms)
    ensures Sorted(r) && multiset(r) == multiset(ms) + multiset{v}
  {
    var p := |ms|;
    while p > 0 && ms[p - 1] > v
      invariant 0 <= p <= |ms|
      invariant p < |ms| ==> ms[p] > v
    {
      p := p - 1;
    }
    r := ms[..p] + [v] + ms[p..];
    SortedInsert(ms, p, v);
    assert ms == ms[..p] + ms[p..];
  }

  lemma SortedInsert(ms: seq<int>, p: nat, v: int)
    requires Sorted(ms) && p <= |ms|
    requires p > 0 ==> ms[p - 1] <= v
    requires p < |ms| ==> v <= ms[p]
    ensures Sorted(ms[..p] + [v] + ms[p..])
  {
    var r := ms[..p] + [v] + ms[p..];
    forall i, j | 0 <= i < j < |r| ensures r[i] <= r[j] {
      assert i < p ==> r[i] == ms[i] && ms[i] <= ms[p - 1];
      assert j > p ==> r[j] == ms[j - 1] && ms[p] <= ms[j - 1];
    }
  }

  lemma AdjacentDistinct(ms: seq<int>)
    requires Sorted(ms)
    requires forall s :: 1 <= s < |ms| ==> ms[s - 1] != ms[s]
    ensures Distinct(ms)
  {
    forall i, j | 0 <= i < j < |ms| ensures ms[i] != ms[j] {
      assert ms[i] <= ms[j - 1] <= ms[j] && ms[j - 1] != ms[j];
    }
  }

  lemma {:induction false} DistinctCounts(ns: seq<int>)
    ensures Distinct(ns) <==> forall v :: multiset(ns)[v] <= 1
  {
    if |ns| > 0 {
      var rest, last := ns[..|ns| - 1], ns[|ns| - 1];
      DistinctCounts(rest);
      assert ns == rest + [last];
      assert multiset(ns) == multiset(rest) + multiset{last};
      assert Distinct(ns) <==> Distinct(rest) && last !in rest;
      assert last in rest <==> multiset(rest)[last] > 0;
      assert multiset(ns)[last] == multiset(rest)[last] + 1;
      assert forall v :: v != last ==> multiset(ns)[v] == multiset(rest)[v];
    }
  }

  lemma SameCountsDistinct(ns: seq<int>, ms: seq<int>)
    requires multiset(ns) == multiset(ms)
    ensures |ns| == |ms| && (Distinct(ns) <==> Distinct(ms))
  {
    DistinctCounts(ns);
    DistinctCounts(ms);
    assert |ns| == |multiset(ns)| == |multiset(ms)| == |ms|;
  }
}
