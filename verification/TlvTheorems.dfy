/** The framing loses nothing and its messages are prefix free. */
module TlvTheorems {
  import opened Symbolic
  import opened TlvSpec

  // ----- One field -----

  /** The bytes are read at this place exactly when their length fits the prefix. */
  predicate ReadsBack(data: seq<byte>, at: nat, bytes: seq<byte>) {
    var r := ReadField(data, at);
    && (|bytes| < Limit(4) ==> r == Good(bytes, at + 4 + |bytes|))
    && (r.Good? && r.value == bytes ==> |bytes| < Limit(4))
  }

  lemma FieldReadBack(before: seq<byte>, bytes: seq<byte>, after: seq<byte>)
    ensures ReadsBack(before + Field(bytes) + after, |before|, bytes)
  {
    var data := before + Field(bytes) + after;
    assert data[|before|..|before| + 4] == BigEndian(|bytes|, 4);
    NumberExact(BigEndian(|bytes|, 4));
    if |bytes| < Limit(4) {
      NumberReadBack(|bytes|, 4);
      assert data[|before| + 4..|before| + 4 + |bytes|] == bytes;
    }
  }

  /** Cutting the input: a field is read from the rest exactly when it lies within it, and then it is the same field. */
  lemma FieldCut(data: seq<byte>, n: nat, at: nat)
    requires n <= |data|
    ensures var whole := ReadField(data, at); var cut := ReadField(data[..n], at);
            && (cut.Good? <==> whole.Good? && whole.next <= n)
            && (cut.Good? ==> cut == whole)
  {
    if at + 4 <= n {
      assert data[..n][at..at + 4] == data[at..at + 4];
      var len := Number(data[at..at + 4]);
      if at + 4 + len <= n {
        assert data[..n][at + 4..at + 4 + len] == data[at + 4..at + 4 + len];
      }
    }
  }

  /** A field that was read is, prefix and all, the bytes it was read from. */
  lemma FieldIsSlice(data: seq<byte>, at: nat)
    requires ReadField(data, at).Good?
    ensures var r := ReadField(data, at); |r.value| < Limit(4) && Field(r.value) == data[at..r.next]
  {
    var r := ReadField(data, at);
    NumberExact(data[at..at + 4]);
    assert data[at..r.next] == data[at..at + 4] + data[at + 4..r.next];
  }

  // ----- Messages -----

  predicate Fits(w: Wire) {
    && |w.nonce| < Limit(4) && |w.ciphertext| < Limit(4)
    && (HasRekey(w) ==> 0 < |w.x.value| < Limit(4) && 0 < |w.m.value| < Limit(4) && 0 < |w.ct.value| < Limit(4))
  }

  function Head(w: Wire): seq<byte> {
    [VERSION, if HasRekey(w) then 1 else 0] + Field(w.nonce) + Field(w.ciphertext)
  }

  function Rekey(w: Wire): seq<byte>
    requires HasRekey(w)
  {
    Field(w.x.value) + Field(w.m.value) + Field(w.ct.value)
  }

  lemma EncodeParts(w: Wire)
    requires Encode(w).Ok?
    ensures Encode(w).value == if HasRekey(w) then Head(w) + Rekey(w) else Head(w)
  {}

  lemma HeadReadBack(w: Wire, after: seq<byte>)
    ensures ReadsBack(Head(w) + after, 2, w.nonce) && ReadsBack(Head(w) + after, 6 + |w.nonce|, w.ciphertext)
  {
    var start: seq<byte> := [VERSION, if HasRekey(w) then 1 else 0];
    var data := Head(w) + after;
    assert data == start + Field(w.nonce) + (Field(w.ciphertext) + after);
    FieldReadBack(start, w.nonce, Field(w.ciphertext) + after);
    assert data == (start + Field(w.nonce)) + Field(w.ciphertext) + after;
    FieldReadBack(start + Field(w.nonce), w.ciphertext, after);
  }

  lemma RekeyReadBack(w: Wire, before: seq<byte>)
    requires HasRekey(w)
    ensures var data := before + Rekey(w);
            var r := DecodeRekey(data, w.nonce, w.ciphertext, |before|);
            && (0 < |w.x.value| < Limit(4) && 0 < |w.m.value| < Limit(4) && 0 < |w.ct.value| < Limit(4) ==> r == Good(w, |data|))
            && (r.Good? && r.value == w ==>
                  0 < |w.x.value| < Limit(4) && 0 < |w.m.value| < Limit(4) && 0 < |w.ct.value| < Limit(4))
  {
    ThreeFields(before, w.x.value, w.m.value, w.ct.value);
    RekeyFromFields(before + Rekey(w), w, |before|);
  }

  lemma RekeyFromFields(data: seq<byte>, w: Wire, at: nat)
    requires HasRekey(w) && |data| == at + 12 + |w.x.value| + |w.m.value| + |w.ct.value|
    requires ReadsBack(data, at, w.x.value) && ReadsBack(data, at + 4 + |w.x.value|, w.m.value)
    requires ReadsBack(data, at + 8 + |w.x.value| + |w.m.value|, w.ct.value)
    ensures var r := DecodeRekey(data, w.nonce, w.ciphertext, at);
            && (0 < |w.x.value| < Limit(4) && 0 < |w.m.value| < Limit(4) && 0 < |w.ct.value| < Limit(4) ==> r == Good(w, |data|))
            && (r.Good? && r.value == w ==>
                  0 < |w.x.value| < Limit(4) && 0 < |w.m.value| < Limit(4) && 0 < |w.ct.value| < Limit(4))
  {}

  /** Three fields in a row; each is found where the one before it ended. */
  lemma ThreeFields(before: seq<byte>, a: seq<byte>, b: seq<byte>, c: seq<byte>)
    ensures var data := before + (Field(a) + Field(b) + Field(c));
            ReadsBack(data, |before|, a) && ReadsBack(data, |before| + 4 + |a|, b) && ReadsBack(data, |before| + 8 + |a| + |b|, c)
  {
    Regroup(before, Field(a), Field(b), Field(c));
    FieldReadBack(before, a, Field(b) + Field(c));
    FieldReadBack(before + Field(a), b, Field(c));
    FieldReadBack(before + Field(a) + Field(b), c, []);
  }

  lemma Regroup(a: seq<byte>, b: seq<byte>, c: seq<byte>, d: seq<byte>)
    ensures a + (b + c + d) == a + b + (c + d) == (a + b) + c + d == (a + b + c) + d + []
  {}

  predicate HeadFits(w: Wire) {
    |w.nonce| < Limit(4) && |w.ciphertext| < Limit(4)
  }

  lemma DecodeHead(w: Wire, after: seq<byte>)
    ensures var data := Head(w) + after;
            var r := Decode(data);
            && (HeadFits(w) ==>
                  r == if HasRekey(w) then DecodeRekey(data, w.nonce, w.ciphertext, |Head(w)|)
                       else Good(Wire(w.nonce, w.ciphertext, None, None, None), |Head(w)|))
            && (r.Good? && r.value.nonce == w.nonce && r.value.ciphertext == w.ciphertext ==> HeadFits(w))
  {
    HeadReadBack(w, after);
    var data := Head(w) + after;
    assert data[0] == VERSION && data[1] == if HasRekey(w) then 1 else 0;
    HeadFromFields(data, w);
  }

  lemma HeadFromFields(data: seq<byte>, w: Wire)
    requires |data| >= 2 && data[0] == VERSION && data[1] == if HasRekey(w) then 1 else 0
    requires ReadsBack(data, 2, w.nonce) && ReadsBack(data, 6 + |w.nonce|, w.ciphertext)
    ensures var r, at := Decode(data), 10 + |w.nonce| + |w.ciphertext|;
            && (HeadFits(w) ==>
                  r == if HasRekey(w) then DecodeRekey(data, w.nonce, w.ciphertext, at)
                       else Good(Wire(w.nonce, w.ciphertext, None, None, None), at))
            && (r.Good? && r.value.nonce == w.nonce && r.value.ciphertext == w.ciphertext ==> HeadFits(w))
  {}

  /** Decoding inverts encoding exactly for messages whose lengths fit and whose rekey fields are not empty. */
  lemma RoundTripExactly(w: Wire)
    requires Encode(w).Ok?
    ensures var r := Decode(Encode(w).value);
            && (Fits(w) ==> r == Good(w, |Encode(w).value|))
            && (r.Good? && r.value == w ==> Fits(w))
  {
    EncodeParts(w);
    var data := Encode(w).value;
    if HasRekey(w) {
      DecodeHead(w, Rekey(w));
      RekeyReadBack(w, Head(w));
    } else {
      assert data == Head(w) + [];
      DecodeHead(w, []);
    }
  }

  lemma RekeyCut(data: seq<byte>, n: nat, nonce: seq<byte>, ciphertext: seq<byte>, at: nat)
    requires n <= |data| && DecodeRekey(data, nonce, ciphertext, at).Good?
    ensures var whole := DecodeRekey(data, nonce, ciphertext, at);
            var cut := DecodeRekey(data[..n], nonce, ciphertext, at);
            (cut.Good? <==> n >= whole.next) && (cut.Good? ==> cut == whole) && (cut.Bad? ==> cut == Bad(Truncated))
  {
    var x := ReadField(data, at);
    var m := ReadField(data, x.next);
    FieldCut(data, n, at);
    FieldCut(data, n, x.next);
    FieldCut(data, n, m.next);
  }

  /** A message is read from a beginning of the input exactly when that beginning holds all its bytes. */
  lemma CutExactly(data: seq<byte>, n: nat)
    requires n <= |data| && Decode(data).Good?
    ensures Decode(data[..n]).Good? <==> n >= Decode(data).next
    ensures Decode(data[..n]).Good? ==> Decode(data[..n]) == Decode(data)
    ensures Decode(data[..n]).Bad? ==> Decode(data[..n]) == Bad(Truncated)
  {
    if n >= 2 {
      var nonce := ReadField(data, 2);
      var body := ReadField(data, nonce.next);
      FieldCut(data, n, 2);
      FieldCut(data, n, nonce.next);
      if data[1] != 0 { RekeyCut(data, n, nonce.value, body.value, body.next); }
    }
  }

  /** No encoding is a proper beginning of what decodes: every proper prefix of an encoded message is refused as truncated. */
  lemma PrefixFree(w: Wire, n: nat)
    requires Encode(w).Ok? && Fits(w) && n < |Encode(w).value|
    ensures Decode(Encode(w).value[..n]) == Bad(Truncated)
  {
    RoundTripExactly(w);
    CutExactly(Encode(w).value, n);
  }

  /** Another version is named as such, however the rest looks; an empty rekey field is named once everything is there. */
  lemma RefusalNamed(data: seq<byte>)
    ensures Decode(data) == Bad(BadVersion) <==> data != [] && data[0] != 1
    ensures Decode(data) == Bad(EmptyField) ==> |data| >= 22 && data[0] == 1 && data[1] != 0
  {}

  lemma RekeySlice(data: seq<byte>, nonce: seq<byte>, ciphertext: seq<byte>, at: nat)
    requires at <= |data| && DecodeRekey(data, nonce, ciphertext, at).Good?
    ensures var r := DecodeRekey(data, nonce, ciphertext, at);
            HasRekey(r.value) && Rekey(r.value) == data[at..r.next]
  {
    var x := ReadField(data, at);
    var m := ReadField(data, x.next);
    FieldIsSlice(data, at);
    FieldIsSlice(data, x.next);
    FieldIsSlice(data, m.next);
  }

  /** What decodes re-encodes to the bytes it was read from exactly when its rekey flag is 0 or 1. */
  lemma ReencodeExactly(data: seq<byte>)
    requires Decode(data).Good?
    ensures var r := Decode(data);
            Encode(r.value).Ok? && (Encode(r.value).value == data[..r.next] <==> data[1] <= 1)
  {
    var r := Decode(data);
    var w := r.value;
    var nonce := ReadField(data, 2);
    var body := ReadField(data, nonce.next);
    FieldIsSlice(data, 2);
    FieldIsSlice(data, nonce.next);
    if data[1] != 0 { RekeySlice(data, nonce.value, body.value, body.next); }
    EncodeParts(w);
    var flag: byte := if HasRekey(w) then 1 else 0;
    assert Head(w) == [VERSION, flag] + data[2..nonce.next] + data[nonce.next..body.next];
    assert Encode(w).value == Head(w) + data[body.next..r.next];
    Reassemble(data, flag, nonce.next, body.next, r.next);
  }

  lemma Reassemble(data: seq<byte>, flag: byte, i: nat, j: nat, k: nat)
    requires 2 <= i <= j <= k <= |data| && data[0] == VERSION
    ensures [VERSION, flag] + data[2..i] + data[i..j] + data[j..k] == data[..k] <==> flag == data[1]
  {
    var built := [VERSION, flag] + data[2..i] + data[i..j] + data[j..k];
    assert built[1] == flag && data[..k][1] == data[1];
    assert built[2..] == data[2..k] && data[..k] == [VERSION, data[1]] + data[2..k];
  }

  // ----- Nonces -----

  /** Every generation and message number the widths admit comes back, so distinct pairs give distinct nonces. */
  lemma NonceRoundTrip(gen: nat, num: nat)
    requires gen < Limit(4) && num < Limit(8)
    ensures |NonceBytes(gen, num)| == 12 && ParseNonce(NonceBytes(gen, num)) == Nonce(gen, num)
  {
    NumberReadBack(gen, 4);
    NumberReadBack(num, 8);
    var b := NonceBytes(gen, num);
    assert b[..4] == BigEndian(gen, 4) && b[4..] == BigEndian(num, 8);
  }

  /** The byte of weight 256^k stands k places before the end. */
  lemma {:induction false} MostSignificantFirst(n: nat, width: nat, k: nat)
    requires k < width
    ensures Limit(k) > 0
    ensures BigEndian(n, width)[width - 1 - k] == n / Limit(k) % 256
  {
    if k > 0 {
      LimitPositive(k - 1);
      MostSignificantFirst(n / 256, width - 1, k - 1);
      DivTwice(n, Limit(k - 1));
    }
  }

  lemma {:induction false} LimitPositive(width: nat)
    ensures Limit(width) > 0
  {
    if width > 0 { LimitPositive(width - 1); }
  }

  lemma DivTwice(n: nat, d: nat)
    requires d > 0
    ensures n / 256 / d == n / (256 * d)
  {
    var q := n / 256 / d;
    var r := n / 256 % d;
    assert n == 256 * (n / 256) + n % 256 && n / 256 == d * q + r;
    assert 256 * (d * q) == (256 * d) * q;
    assert n == (256 * d) * q + (256 * r + n % 256) && 256 * r + n % 256 < 256 * d;
    DivUnique(n, 256 * d, q, 256 * r + n % 256);
  }

  lemma DivUnique(n: nat, d: nat, q: nat, r: nat)
    requires d > 0 && n == d * q + r && r < d
    ensures n / d == q
  {
    var p, s := n / d, n % d;
    assert d * (p - q) == d * p - d * q == r - s;
    AtLeastOne(d, p - q);
  }

  lemma AtLeastOne(d: nat, x: int)
    ensures x >= 1 ==> d * x >= d
    ensures x <= -1 ==> d * x + d <= 0
  {}

  /** Nonces of one key, read as numbers, grow with the generation first and the message number second. */
  lemma NonceOrder(gen: nat, num: nat)
    requires gen < Limit(4) && num < Limit(8)
    ensures Number(NonceBytes(gen, num)) == gen * Limit(8) + num
  {
    NumberReadBack(gen, 4);
    NumberReadBack(num, 8);
    NumberAppend(BigEndian(gen, 4), BigEndian(num, 8));
  }

  lemma {:induction false} NumberAppend(a: seq<byte>, b: seq<byte>)
    ensures Number(a + b) == Number(a) * Limit(|b|) + Number(b)
    decreases |b|
  {
    if b == [] {
      assert a + b == a;
    } else {
      var front := b[..|b| - 1];
      assert (a + b)[..|a + b| - 1] == a + front;
      NumberAppend(a, front);
      Spread(Number(a), Limit(|front|), Number(front));
    }
  }

  lemma Spread(x: nat, l: nat, y: nat)
    ensures (x * l + y) * 256 == x * (256 * l) + y * 256
  {}

  // ----- Associated data -----

  /** The tag covers the three rekey fields, each behind a letter of its own; without them it covers nothing. */
  function RekeyAad(x: seq<byte>, m: seq<byte>, ct: seq<byte>): seq<byte> {
    [114] + x + [109] + m + [99] + ct
  }

  /** Offers whose public keys have the same lengths are bound by the same associated data only if they are the same. */
  lemma AadBindsOffer(x: seq<byte>, m: seq<byte>, ct: seq<byte>, x': seq<byte>, m': seq<byte>, ct': seq<byte>)
    requires |x| == |x'| && |m| == |m'| && RekeyAad(x, m, ct) == RekeyAad(x', m', ct')
    ensures x == x' && m == m' && ct == ct'
  {
    var a, b := RekeyAad(x, m, ct), RekeyAad(x', m', ct');
    assert x == a[1..1 + |x|] && x' == b[1..1 + |x'|];
    assert m == a[2 + |x|..2 + |x| + |m|] && m' == b[2 + |x'|..2 + |x'| + |m'|];
    assert ct == a[3 + |x| + |m|..] && ct' == b[3 + |x'| + |m'|..];
  }
}
