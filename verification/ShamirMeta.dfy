/** Shares with metadata: a public per-split MAC on every share and a public hash of the secret. */
module ShamirMeta {
  import opened Gf256
  import opened Polynomial
  import opened Shamir
  import opened ShamirTheorems

  /** Keys, tags and hashes are opaque numbers; 0 stands for the all-zero array of legacy shares. */
  datatype MetaShare = MetaShare(
    index: Byte, threshold: Byte, total: Byte, timestamp: nat, data: Share,
    mac: nat, verifyKey: nat, secretHash: nat)

  /** The hash of a secret, and the MAC of a share under a split's public key. */
  datatype Crypto = Crypto(hash: seq<Byte> -> nat, mac: (nat, Byte, Byte, Byte, nat, Share) -> nat)

  function Tag(c: Crypto, s: MetaShare): nat {
    c.mac(s.verifyKey, s.index, s.threshold, s.total, s.timestamp, s.data)
  }

  function SaturatingNext(b: Byte): Byte {
    if b == 255 then 255 else b + 1
  }

  predicate VerifySharePublic(c: Crypto, s: MetaShare) {
    && (if |s.data| == 0 then 0 else s.data[0]) == SaturatingNext(s.index)
    && s.secretHash != 0 && s.verifyKey != 0
    && Tag(c, s) == s.mac
  }

  // ----- Splitting -----

  ghost predicate IsMetaShare(c: Crypto, s: MetaShare, i: nat, k: nat, n: nat, timestamp: nat, key: nat, hash: nat, data: Share)
    requires i < 256 && k < 256 && n < 256
  {
    && s.index == i as Byte && s.threshold == k as Byte && s.total == n as Byte
    && s.timestamp == timestamp && s.verifyKey == key && s.secretHash == hash
    && s.data == data && s.mac == Tag(c, s)
  }

  ghost predicate IsMetaSplit(t: Tables<Byte>, c: Crypto, secret: seq<Byte>, k: nat, n: nat, rand: seq<seq<Byte>>,
                              timestamp: nat, key: nat, shares: seq<MetaShare>, raw: seq<Share>)
    requires Field(t) && |rand| == |secret|
  {
    && IsSplit(t, secret, k, n, rand, raw) && |shares| == n
    && forall i :: 0 <= i < n ==> IsMetaShare(c, shares[i], i, k, n, timestamp, key, c.hash(secret), raw[i])
  }

  method SplitWithMeta(t: Tables<Byte>, c: Crypto, secret: seq<Byte>, k: nat, n: nat, rand: seq<seq<Byte>>,
                       timestamp: nat, key: nat)
    returns (r: Outcome<seq<MetaShare>>, ghost raw: seq<Share>)
    requires Field(t) && Draws(secret, k, rand)
    ensures r.Ok? <==> 1 <= k <= n <= 255
    ensures !r.Ok? ==> r == Err(BadThreshold)
    ensures r.Ok? ==> IsMetaSplit(t, c, secret, k, n, rand, timestamp, key, r.value, raw)
  {
    raw := [];
    var split := SplitSecret(t, secret, k, n, rand);
    if split.Err? {
      return Err(split.error), [];
    }
    raw := split.value;
    var hash := c.hash(secret);
    var result: seq<MetaShare> := [];
    for i := 0 to n
      invariant |result| == i
      invariant forall j :: 0 <= j < i ==> IsMetaShare(c, result[j], j, k, n, timestamp, key, hash, raw[j])
    {
      var s := MetaShare(i as Byte, k as Byte, n as Byte, timestamp, split.value[i], 0, key, hash);
      result := result + [s.(mac := Tag(c, s))];
    }
    r := Ok(result);
  }

  // ----- Reconstruction -----

  /** The complaint about one share of the subset, if any. */
  function Complaint(c: Crypto, first: MetaShare, s: MetaShare): Outcome<()> {
    if s.secretHash != first.secretHash || s.verifyKey != first.verifyKey then Err(DifferentSplits)
    else if s.threshold != first.threshold || s.total != first.total then Err(MetadataMismatch)
    else if !VerifySharePublic(c, s) then Err(IntegrityFailed)
    else Ok(())
  }

  function Datas(shares: seq<MetaShare>): (raw: seq<Share>)
    ensures |raw| == |shares|
  {
    seq(|shares|, i requires 0 <= i < |shares| => shares[i].data)
  }

  /** The first k shares belong together and carry valid tags. */
  ghost predicate Consistent(c: Crypto, shares: seq<MetaShare>, k: nat) {
    1 <= k <= |shares| && forall i :: 0 <= i < k ==> Complaint(c, shares[0], shares[i]).Ok?
  }

  /** The complaint about the first of these shares that gives rise to one. */
  function FirstComplaint(c: Crypto, first: MetaShare, shares: seq<MetaShare>): Outcome<()> {
    if shares == [] then Ok(())
    else if Complaint(c, first, shares[0]).Err? then Complaint(c, first, shares[0])
    else FirstComplaint(c, first, shares[1..])
  }

  /** What the metadata-checked reconstruction returns. */
  ghost function MetaReconstruct(t: Tables<Byte>, c: Crypto, shares: seq<MetaShare>, k: nat): Outcome<seq<Byte>>
    requires Field(t)
  {
    if k == 0 || |shares| < k then Err(Insufficient)
    else
      var complaint := FirstComplaint(c, shares[0], shares[..k]);
      if complaint.Err? then Err(complaint.error)
      else Backstop(c, shares[0].secretHash, Reconstruct(t, Datas(shares[..k]), k))
  }

  lemma {:induction false} ComplaintAt(c: Crypto, first: MetaShare, shares: seq<MetaShare>, i: nat)
    requires i <= |shares| && forall j :: 0 <= j < i ==> Complaint(c, first, shares[j]).Ok?
    ensures i == |shares| ==> FirstComplaint(c, first, shares) == Ok(())
    ensures i < |shares| && Complaint(c, first, shares[i]).Err? ==> FirstComplaint(c, first, shares) == Complaint(c, first, shares[i])
    decreases i
  {
    if i > 0 {
      assert forall j :: 0 <= j < |shares| - 1 ==> shares[1..][j] == shares[j + 1];
      ComplaintAt(c, first, shares[1..], i - 1);
    }
  }

  method ReconstructWithMeta(t: Tables<Byte>, c: Crypto, shares: seq<MetaShare>, k: nat) returns (r: Outcome<seq<Byte>>)
    requires Field(t)
    ensures r == MetaReconstruct(t, c, shares, k)
    ensures k == 0 || |shares| < k ==> r == Err(Insufficient)
    ensures 1 <= k <= |shares| && !Consistent(c, shares, k) ==>
              exists i :: 0 <= i < k && r.Err? && Complaint(c, shares[0], shares[i]) == Err(r.error)
                       && forall j :: 0 <= j < i ==> Complaint(c, shares[0], shares[j]).Ok?
    ensures Consistent(c, shares, k) ==>
              r == Backstop(c, shares[0].secretHash, Reconstruct(t, Datas(shares[..k]), k))
  {
    if k == 0 || |shares| < k {
      return Err(Insufficient);
    }
    var subset := shares[..k];
    for i := 0 to k
      invariant forall j :: 0 <= j < i ==> Complaint(c, shares[0], shares[j]).Ok?
    {
      var complaint := Complaint(c, subset[0], subset[i]);
      if complaint.Err? {
        ComplaintAt(c, shares[0], subset, i);
        assert Complaint(c, shares[0], shares[i]) == Err(complaint.error);
        return Err(complaint.error);
      }
    }
    ComplaintAt(c, shares[0], subset, k);
    var recovered := ReconstructSecret(t, Datas(subset), k);
    if recovered.Ok? && c.hash(recovered.value) != subset[0].secretHash {
      return Err(HashMismatch);
    }
    r := recovered;
  }

  /** Only a secret that hashes to the public reference is let through. */
  ghost function Backstop(c: Crypto, hash: nat, recovered: Outcome<seq<Byte>>): Outcome<seq<Byte>> {
    if recovered.Ok? && c.hash(recovered.value) != hash then Err(HashMismatch) else recovered
  }

  /** What the metadata-checked reconstruction returns once the shares agree. */
  ghost function MetaResult(t: Tables<Byte>, c: Crypto, shares: seq<MetaShare>, k: nat): Outcome<seq<Byte>>
    requires Field(t) && Consistent(c, shares, k)
  {
    Backstop(c, shares[0].secretHash, Reconstruct(t, Datas(shares[..k]), k))
  }

  lemma ConsistentResult(t: Tables<Byte>, c: Crypto, shares: seq<MetaShare>, k: nat)
    requires Field(t) && Consistent(c, shares, k)
    ensures MetaReconstruct(t, c, shares, k) == MetaResult(t, c, shares, k)
  {
    ComplaintAt(c, shares[0], shares[..k], k);
  }

  // ----- What makes shares consistent -----

  /** The x coordinate a share must start with. */
  predicate StartsRight(s: MetaShare) {
    s.data != [] && s.data[0] == if s.index == 255 then 255 else s.index + 1
  }

  predicate TagRight(c: Crypto, s: MetaShare) {
    s.mac == c.mac(s.verifyKey, s.index, s.threshold, s.total, s.timestamp, s.data)
  }

  predicate SameSplit(s: MetaShare, u: MetaShare) {
    s.secretHash == u.secretHash && s.verifyKey == u.verifyKey && s.threshold == u.threshold && s.total == u.total
  }

  /**
   The shares are accepted exactly when all of them name one split, its hash and key are
   not the legacy zeros, each starts with the coordinate of its index, and each tag is
   the MAC of the share's own fields; otherwise the answer is an error.
   */
  lemma ConsistentExactly(t: Tables<Byte>, c: Crypto, shares: seq<MetaShare>, k: nat)
    requires Field(t) && 1 <= k <= |shares|
    ensures Consistent(c, shares, k) <==>
            && shares[0].secretHash != 0 && shares[0].verifyKey != 0
            && forall i :: 0 <= i < k ==> SameSplit(shares[i], shares[0]) && StartsRight(shares[i]) && TagRight(c, shares[i])
    ensures !Consistent(c, shares, k) ==> MetaReconstruct(t, c, shares, k).Err?
  {
    assert forall i :: 0 <= i < k ==>
      (Complaint(c, shares[0], shares[i]).Ok? <==>
         && SameSplit(shares[i], shares[0]) && StartsRight(shares[i]) && TagRight(c, shares[i])
         && shares[i].secretHash != 0 && shares[i].verifyKey != 0);
    if !Consistent(c, shares, k) {
      var i := FirstBad(c, shares, k);
      ComplaintAt(c, shares[0], shares[..k], i);
    }
  }

  lemma FirstBad(c: Crypto, shares: seq<MetaShare>, k: nat) returns (i: nat)
    requires 1 <= k <= |shares| && !Consistent(c, shares, k)
    ensures i < k && Complaint(c, shares[0], shares[i]).Err? && forall j :: 0 <= j < i ==> Complaint(c, shares[0], shares[j]).Ok?
  {
    i := 0;
    while Complaint(c, shares[0], shares[i]).Ok?
      invariant i < k && forall j :: 0 <= j < i ==> Complaint(c, shares[0], shares[j]).Ok?
      decreases k - i
    {
      assert i + 1 < k;
      i := i + 1;
    }
  }

  // ----- Theorems -----

  ghost predicate Injective(h: seq<Byte> -> nat) {
    forall a, b :: h(a) == h(b) ==> a == b
  }

  lemma IndexedByte(i: nat)
    requires i < 255
    ensures SaturatingNext(i as Byte) == X(i)
  {
    ByteOf(i);
    ByteOf(i + 1);
    assert ((i as Byte) + 1) as int == i + 1;
  }

  /**
   Genuine shares, any k or more of them in any order, pass every check and give
   the secret back, if and only if neither the split's key nor the secret's hash
   is the all-zero value reserved for legacy shares.
   */
  lemma MetaRoundTrip(t: Tables<Byte>, c: Crypto, secret: seq<Byte>, k: nat, n: nat, rand: seq<seq<Byte>>,
                      timestamp: nat, key: nat, shares: seq<MetaShare>, raw: seq<Share>, picks: seq<nat>)
    requires Field(t) && Draws(secret, k, rand) && secret != []
    requires IsMetaSplit(t, c, secret, k, n, rand, timestamp, key, shares, raw)
    requires k <= |picks| && Distinct(picks) && forall i :: 0 <= i < |picks| ==> picks[i] < n
    ensures Consistent(c, Pick(shares, picks), |picks|) <==> key != 0 && c.hash(secret) != 0
    ensures key != 0 && c.hash(secret) != 0 ==> MetaResult(t, c, Pick(shares, picks), |picks|) == Ok(secret)
  {
    var picked := Pick(shares, picks);
    forall i | 0 <= i < |picks|
      ensures Complaint(c, picked[0], picked[i]).Ok? <==> key != 0 && c.hash(secret) != 0
    {
      var p := picks[i];
      assert IsMetaShare(c, shares[p], p, k, n, timestamp, key, c.hash(secret), raw[p]);
      assert IsMetaShare(c, shares[picks[0]], picks[0], k, n, timestamp, key, c.hash(secret), raw[picks[0]]);
      assert IsShare(t, secret, k, rand, raw[p], p, |secret|);
      IndexedByte(p);
    }
    assert Complaint(c, picked[0], picked[0]).Ok? <==> key != 0 && c.hash(secret) != 0;
    assert picked[..|picks|] == picked;
    DataOfPicked(t, c, secret, k, n, rand, timestamp, key, shares, raw, picks);
    assert picks[..|picks|] == picks;
    RoundTrip(t, secret, k, n, rand, raw, picks, |picks|);
    assert picked[0].secretHash == c.hash(secret) by {
      assert IsMetaShare(c, shares[picks[0]], picks[0], k, n, timestamp, key, c.hash(secret), raw[picks[0]]);
    }
  }

  lemma DataOfPicked(t: Tables<Byte>, c: Crypto, secret: seq<Byte>, k: nat, n: nat, rand: seq<seq<Byte>>,
                     timestamp: nat, key: nat, shares: seq<MetaShare>, raw: seq<Share>, picks: seq<nat>)
    requires Field(t) && |rand| == |secret|
    requires IsMetaSplit(t, c, secret, k, n, rand, timestamp, key, shares, raw)
    requires forall i :: 0 <= i < |picks| ==> picks[i] < n
    ensures Datas(Pick(shares, picks)) == Pick(raw, picks)
  {
    forall i | 0 <= i < |picks| ensures shares[picks[i]].data == raw[picks[i]] {
      assert IsMetaShare(c, shares[picks[i]], picks[i], k, n, timestamp, key, c.hash(secret), raw[picks[i]]);
    }
  }

  /**
   No forgery, adaptive or not, makes reconstruction return a wrong secret: with
   an injective hash, shares that carry the hash of `secret` give `secret` or fail.
   */
  lemma NeverWrongSecret(t: Tables<Byte>, c: Crypto, shares: seq<MetaShare>, k: nat, secret: seq<Byte>)
    requires Field(t) && Consistent(c, shares, k) && Injective(c.hash)
    requires shares[0].secretHash == c.hash(secret)
    ensures MetaResult(t, c, shares, k) == Ok(secret) || !MetaResult(t, c, shares, k).Ok?
  {
    var r := Reconstruct(t, Datas(shares[..k]), k);
    assert r.Ok? && c.hash(r.value) == c.hash(secret) ==> r.value == secret;
  }

  /**
   One share of an otherwise genuine set has any of its values changed (its tag
   may be recomputed): the recovered secret is a different one.
   */
  lemma TamperedValueVisible(t: Tables<Byte>, raw: seq<Share>, k: nat, i: nat, data: Share)
    requires Field(t) && Reconstructible(raw, k) && i < k
    requires forall j :: 0 <= j < k ==> raw[j][0] != 0
    requires |data| == |raw[i]| && data[..2] == raw[i][..2] && data != raw[i]
    ensures Reconstructible(raw[i := data], k)
    ensures Recovered(t, raw[i := data], k) != Recovered(t, raw, k)
  {
    var forged := raw[i := data];
    assert data[0] == data[..2][0] == raw[i][..2][0] == raw[i][0];
    assert FirstBytes(forged, k) == FirstBytes(raw, k);
    var at :| 0 <= at < |data| && data[at] != raw[i][at];
    assert data[1] == data[..2][1] == raw[i][..2][1] == raw[i][1];
    assert at >= 2;
    var b := at - 2;
    var points := Points(raw, k, b);
    var xs, ys := Xs(points), Ys(points);
    assert xs == FirstBytes(raw, k) == Xs(Points(forged, k, b));
    assert Ys(Points(forged, k, b)) == ys[i := data[at]];
    OneShareTampered(t, xs, ys, i, data[at]);
    assert Recovered(t, forged, k)[b] != Recovered(t, raw, k)[b];
  }

  /** The hash reference turns that difference into a refusal. */
  lemma TamperedShareRefused(t: Tables<Byte>, c: Crypto, genuine: seq<MetaShare>, k: nat, secret: seq<Byte>,
                             i: nat, forged: MetaShare)
    requires Field(t) && Injective(c.hash) && Consistent(c, genuine, k) && |genuine| == k
    requires genuine[0].secretHash == c.hash(secret) && MetaResult(t, c, genuine, k) == Ok(secret)
    requires forall j :: 0 <= j < k ==> genuine[j].data != [] && genuine[j].data[0] != 0
    requires i < k && Consistent(c, genuine[i := forged], k) && forged.secretHash == c.hash(secret)
    requires |forged.data| == |genuine[i].data| >= 2 && forged.data[..2] == genuine[i].data[..2]
    requires forged.data != genuine[i].data
    ensures MetaResult(t, c, genuine[i := forged], k) == Err(HashMismatch)
  {
    var raw, tampered := Datas(genuine), genuine[i := forged];
    assert genuine[..k] == genuine && tampered[..k] == tampered;
    assert Datas(tampered) == raw[i := forged.data];
    TamperedValueVisible(t, raw, k, i, forged.data);
    assert Reconstruct(t, raw, k) == Ok(secret);
    assert c.hash(Recovered(t, Datas(tampered), k)) != c.hash(secret);
  }

  /** A changed tag, and nothing else, on one of the shares used: the integrity error. */
  lemma ChangedTagRefused(t: Tables<Byte>, c: Crypto, genuine: seq<MetaShare>, k: nat, i: nat, mac: nat)
    requires Field(t) && Consistent(c, genuine, k) && i < k && mac != genuine[i].mac
    ensures MetaReconstruct(t, c, genuine[i := genuine[i].(mac := mac)], k) == Err(IntegrityFailed)
  {
    var shares := genuine[i := genuine[i].(mac := mac)];
    ConsistentExactly(t, c, genuine, k);
    assert forall j :: 0 <= j < k && j != i ==> Complaint(c, shares[0], shares[j]).Ok?;
    assert Complaint(c, shares[0], shares[i]) == Err(IntegrityFailed);
    ComplaintAt(c, shares[0], shares[..k], i);
  }

  /** No two different contents have one tag. */
  ghost predicate TagsBind(c: Crypto) {
    forall s: MetaShare, u: MetaShare :: Tag(c, s) == Tag(c, u) ==>
      s.verifyKey == u.verifyKey && s.index == u.index && s.threshold == u.threshold && s.total == u.total
      && s.timestamp == u.timestamp && s.data == u.data
  }

  /** Whatever else is changed in one of the shares used, under its old tag: reconstruction fails. */
  lemma ChangedShareRefused(t: Tables<Byte>, c: Crypto, genuine: seq<MetaShare>, k: nat, secret: seq<Byte>, i: nat, forged: MetaShare)
    requires Field(t) && TagsBind(c) && MetaReconstruct(t, c, genuine, k) == Ok(secret)
    requires i < k && forged.mac == genuine[i].mac && forged != genuine[i]
    ensures MetaReconstruct(t, c, genuine[i := forged], k).Err?
  {
    var shares := genuine[i := forged];
    ConsistentExactly(t, c, genuine, k);
    ConsistentResult(t, c, genuine, k);
    ConsistentExactly(t, c, shares, k);
    if Consistent(c, shares, k) {
      assert TagRight(c, shares[i]) && TagRight(c, genuine[i]) && Tag(c, forged) == Tag(c, genuine[i]);
      assert forged.data == genuine[i].data && forged.secretHash != genuine[i].secretHash;
      ConsistentResult(t, c, shares, k);
      assert Datas(shares[..k]) == Datas(genuine[..k]);
      assert shares[0].secretHash == forged.secretHash && genuine[0].secretHash == genuine[i].secretHash;
    }
  }

  /** Shares of two splits, told apart by their keys or hashes, are refused as such; so is one that disagrees on the parameters. */
  lemma MixedSharesRefused(t: Tables<Byte>, c: Crypto, shares: seq<MetaShare>, k: nat, i: nat)
    requires Field(t) && 0 < i < k <= |shares| && Consistent(c, shares[..i], i)
    ensures shares[i].secretHash != shares[0].secretHash || shares[i].verifyKey != shares[0].verifyKey ==>
              MetaReconstruct(t, c, shares, k) == Err(DifferentSplits)
    ensures shares[i].secretHash == shares[0].secretHash && shares[i].verifyKey == shares[0].verifyKey
            && (shares[i].threshold != shares[0].threshold || shares[i].total != shares[0].total) ==>
              MetaReconstruct(t, c, shares, k) == Err(MetadataMismatch)
  {
    assert forall j :: 0 <= j < i ==> shares[..i][j] == shares[j];
    if !SameSplit(shares[i], shares[0]) { ComplaintAt(c, shares[0], shares[..k], i); }
  }

  /** In a genuine split the two header bytes of the raw share and its metadata say the same: coordinate and threshold. */
  lemma HeadersAgree(t: Tables<Byte>, c: Crypto, secret: seq<Byte>, k: nat, n: nat, rand: seq<seq<Byte>>,
                     timestamp: nat, key: nat, shares: seq<MetaShare>, raw: seq<Share>, i: nat)
    requires Field(t) && |rand| == |secret| && i < n
    requires IsMetaSplit(t, c, secret, k, n, rand, timestamp, key, shares, raw)
    ensures |shares[i].data| == |secret| + 2 && shares[i].data[1] == shares[i].threshold && StartsRight(shares[i])
    ensures 1 <= shares[i].threshold <= shares[i].total
  {
    assert IsMetaShare(c, shares[i], i, k, n, timestamp, key, c.hash(secret), raw[i]);
    assert IsShare(t, secret, k, rand, raw[i], i, |secret|);
    IndexedByte(i);
    ByteOf(i);
    ByteOf(k);
    ByteOf(n);
    AsBytes(k, n);
  }

  lemma AsBytes(k: nat, n: nat)
    requires 1 <= k <= n <= 255 && (k as Byte) as int == k && (n as Byte) as int == n
    ensures 1 <= k as Byte <= n as Byte
  {}
}
