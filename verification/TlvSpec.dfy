/** The binary framing of ratchet messages and of nonces, as functions on byte strings. */
module TlvSpec {
  import opened Symbolic

  const VERSION: byte := 1

  datatype Wire = Wire(nonce: seq<byte>, ciphertext: seq<byte>, x: Option<seq<byte>>, m: Option<seq<byte>>, ct: Option<seq<byte>>)

  datatype TlvError = Truncated | BadVersion | EmptyField

  datatype Parsed<+T> = Good(value: T, next: nat) | Bad(error: TlvError)

  // ----- Big-endian numbers -----

  /** The lowest bytes of a number, most significant first; what does not fit the width is cut off. */
  function BigEndian(n: nat, width: nat): (b: seq<byte>)
    ensures |b| == width
  {
    if width == 0 then [] else BigEndian(n / 256, width - 1) + [n % 256]
  }

  function Number(b: seq<byte>): nat {
    if b == [] then 0 else Number(b[..|b| - 1]) * 256 + b[|b| - 1] as int
  }

  /** The first number that does not fit the width. */
  function Limit(width: nat): nat {
    if width == 0 then 1 else 256 * Limit(width - 1)
  }

  lemma {:induction false} NumberReadBack(n: nat, width: nat)
    requires n < Limit(width)
    ensures Number(BigEndian(n, width)) == n
  {
    if width > 0 {
      NumberReadBack(n / 256, width - 1);
      var b := BigEndian(n, width);
      assert b[..width - 1] == BigEndian(n / 256, width - 1);
    }
  }

  lemma {:induction false} NumberExact(b: seq<byte>)
    ensures Number(b) < Limit(|b|) && BigEndian(Number(b), |b|) == b
  {
    if b != [] {
      var front, last := b[..|b| - 1], b[|b| - 1];
      NumberExact(front);
      assert Number(b) / 256 == Number(front) && Number(b) % 256 == last as int;
      assert b == front + [last];
    }
  }

  // ----- Messages -----

  /** A length prefix, cut to 32 bits, and the bytes. */
  function Field(bytes: seq<byte>): seq<byte> {
    BigEndian(|bytes|, 4) + bytes
  }

  predicate HasRekey(w: Wire) {
    w.x.Some? && w.m.Some? && w.ct.Some?
  }

  predicate NoRekey(w: Wire) {
    w.x.None? && w.m.None? && w.ct.None?
  }

  function Encode(w: Wire): Result<seq<byte>> {
    if HasRekey(w) then
      Ok([VERSION, 1] + Field(w.nonce) + Field(w.ciphertext) + Field(w.x.value) + Field(w.m.value) + Field(w.ct.value))
    else if NoRekey(w) then
      Ok([VERSION, 0] + Field(w.nonce) + Field(w.ciphertext))
    else
      Err(PartialRekey)
  }

  function ReadField(data: seq<byte>, at: nat): (r: Parsed<seq<byte>>)
    ensures r.Good? ==> at + 4 <= r.next <= |data| && r.next == at + 4 + |r.value|
  {
    if |data| < at + 4 then Bad(Truncated)
    else
      var len := Number(data[at..at + 4]);
      if |data| < at + 4 + len then Bad(Truncated) else Good(data[at + 4..at + 4 + len], at + 4 + len)
  }

  /** The message read and the number of bytes it took; what follows is not looked at. */
  function Decode(data: seq<byte>): (r: Parsed<Wire>)
    ensures r.Good? ==> 2 <= r.next <= |data| && data[0] == VERSION
  {
    if |data| < 1 then Bad(Truncated)
    else if data[0] != VERSION then Bad(BadVersion)
    else if |data| < 2 then Bad(Truncated)
    else
      var nonce := ReadField(data, 2);
      if nonce.Bad? then Bad(nonce.error) else
      var ciphertext := ReadField(data, nonce.next);
      if ciphertext.Bad? then Bad(ciphertext.error)
      else if data[1] == 0 then Good(Wire(nonce.value, ciphertext.value, None, None, None), ciphertext.next)
      else DecodeRekey(data, nonce.value, ciphertext.value, ciphertext.next)
  }

  function DecodeRekey(data: seq<byte>, nonce: seq<byte>, ciphertext: seq<byte>, at: nat): (r: Parsed<Wire>)
    ensures r.Good? ==> at <= r.next <= |data|
  {
    var x := ReadField(data, at);
    if x.Bad? then Bad(x.error) else
    var m := ReadField(data, x.next);
    if m.Bad? then Bad(m.error) else
    var ct := ReadField(data, m.next);
    if ct.Bad? then Bad(ct.error)
    else if x.value == [] || m.value == [] || ct.value == [] then Bad(EmptyField)
    else Good(Wire(nonce, ciphertext, Some(x.value), Some(m.value), Some(ct.value)), ct.next)
  }

  // ----- Nonces -----

  /** Four bytes of generation, eight of message number. */
  function NonceBytes(gen: nat, num: nat): seq<byte> {
    BigEndian(gen, 4) + BigEndian(num, 8)
  }

  function ParseNonce(b: seq<byte>): Nonce
    requires |b| == 12
  {
    Nonce(Number(b[..4]), Number(b[4..]))
  }
}
