/**
 The short authentication string.  A 64-bit register is topped up byte by byte and
 gives up five bits at a time; bits already used are never cleared and eventually fall
 off its upper end.
 */
module Sas {

  import opened Symbolic

  const CODE_LEN := 7
  const TWO64 := 0x1_0000_0000_0000_0000

  // ----- Bit streams -----

  type BitStream = nat -> bool

  /** The first n bits as a number. */
  function Bits(f: BitStream, n: nat): nat {
    if n == 0 then 0 else 2 * Bits(f, n - 1) + if f(n - 1) then 1 else 0
  }

  /** Five consecutive bits, from position j on. */
  function Window(f: BitStream, j: nat): (w: nat)
    ensures w < 32
  {
    (if f(j) then 16 else 0) + (if f(j + 1) then 8 else 0) + (if f(j + 2) then 4 else 0)
    + (if f(j + 3) then 2 else 0) + if f(j + 4) then 1 else 0
  }

  lemma BitsWindow(f: BitStream, j: nat)
    ensures Bits(f, j + 5) == 32 * Bits(f, j) + Window(f, j)
  {
    assert Bits(f, j + 2) == 2 * Bits(f, j + 1) + if f(j + 1) then 1 else 0;
    assert Bits(f, j + 4) == 2 * Bits(f, j + 3) + if f(j + 3) then 1 else 0;
  }

  /** A right shift. */
  function Shr(x: nat, k: nat): nat {
    if k == 0 then x else Shr(x, k - 1) / 2
  }

  /** Shifting the lowest bits out leaves the stream before them. */
  lemma {:induction false} DropBits(f: BitStream, n: nat, k: nat)
    ensures Shr(Bits(f, n + k), k) == Bits(f, n)
    decreases k
  {
    if k > 0 { DropBits(f, n + 1, k - 1); }
  }

  // ----- The stream of a key -----

  /** Byte k of the derived key, which continues with zeros. */
  function ByteAt(okm: seq<byte>, k: nat): nat {
    if k < |okm| then okm[k] as int else 0
  }

  /** The bits of the derived key, most significant bit of a byte first. */
  function BitsOf(okm: seq<byte>): BitStream {
    (j: nat) => Shr(ByteAt(okm, j / 8), 7 - j % 8) % 2 == 1
  }

  /** One more bit, the lowest one of y, behind the bits of y above it. */
  lemma OneBit(f: BitStream, j: nat, p: nat, y: nat)
    requires f(j) == (y % 2 == 1) && Bits(f, j) == p + y / 2
    ensures Bits(f, j + 1) == 2 * p + y
  {}

  /** Bit i of the byte b, counted from its most significant bit, stands at position j + i. */
  predicate ByteBit(f: BitStream, j: nat, b: nat, i: nat)
    requires i < 8
  {
    f(j + i) == (Shr(b, 7 - i) % 2 == 1)
  }

  lemma EightBits(f: BitStream, j: nat, b: nat)
    requires b < 256 && Spelled(f, j, b)
    ensures Bits(f, j + 8) == 256 * Bits(f, j) + b
  {
    assert ByteBit(f, j, b, 0) && ByteBit(f, j, b, 1) && ByteBit(f, j, b, 2) && ByteBit(f, j, b, 3);
    assert ByteBit(f, j, b, 4) && ByteBit(f, j, b, 5) && ByteBit(f, j, b, 6) && ByteBit(f, j, b, 7);
    var p := Bits(f, j);
    ByteGone(b);
    OneBit(f, j, p, Shr(b, 7));
    OneBit(f, j + 1, 2 * p, Shr(b, 6));
    OneBit(f, j + 2, 4 * p, Shr(b, 5));
    OneBit(f, j + 3, 8 * p, Shr(b, 4));
    OneBit(f, j + 4, 16 * p, Shr(b, 3));
    OneBit(f, j + 5, 32 * p, Shr(b, 2));
    OneBit(f, j + 6, 64 * p, Shr(b, 1));
    OneBit(f, j + 7, 128 * p, b);
  }

  lemma ByteGone(b: nat)
    requires b < 256
    ensures Shr(b, 7) / 2 == 0
  {
    assert Shr(b, 1) < 128;
    assert Shr(b, 2) < 64;
    assert Shr(b, 3) < 32;
    assert Shr(b, 4) < 16;
    assert Shr(b, 5) < 8;
    assert Shr(b, 6) < 4;
  }

  lemma BitAt(okm: seq<byte>, k: nat, i: nat)
    requires i < 8
    ensures ByteBit(BitsOf(okm), 8 * k, ByteAt(okm, k), i)
  {
    assert (8 * k + i) / 8 == k && (8 * k + i) % 8 == i;
  }

  /** The stream has the eight bits of the byte b from position j on. */
  ghost predicate Spelled(f: BitStream, j: nat, b: nat) {
    forall i: nat :: i < 8 ==> ByteBit(f, j, b, i)
  }

  /** The stream is that of the derived key, byte after byte, with zeros behind it. */
  ghost predicate Spells(f: BitStream, okm: seq<byte>) {
    forall k: nat :: Spelled(f, 8 * k, ByteAt(okm, k))
  }

  lemma BitsOfSpells(okm: seq<byte>)
    ensures Spells(BitsOf(okm), okm)
  {
    forall k: nat, i: nat | i < 8 ensures ByteBit(BitsOf(okm), 8 * k, ByteAt(okm, k), i) {
      BitAt(okm, k, i);
    }
  }

  // ----- The register -----

  function Scale(n: nat): nat {
    if n == 0 then 1 else 2 * Scale(n - 1)
  }

  lemma Doubled(s: nat, x: nat)
    ensures 2 * s * x == 2 * (s * x)
  {}

  /** A shift of a number with an upper part shifts both parts. */
  lemma {:induction false} ShiftParts(low: nat, high: nat, m: nat, k: nat)
    requires k <= m
    ensures Shr(low + high * Scale(m), k) == Shr(low, k) + high * Scale(m - k)
  {
    if k > 0 {
      ShiftParts(low, high, m, k - 1);
      var part := high * Scale(m - k);
      assert high * Scale(m - (k - 1)) == 2 * part by { Doubled(Scale(m - k), high); }
    }
  }

  lemma {:induction false} ScaleAdd(a: nat, b: nat)
    ensures Scale(a + b) == Scale(a) * Scale(b)
  {
    if a > 0 {
      ScaleAdd(a - 1, b);
      Doubled(Scale(a - 1), Scale(b));
    }
  }

  lemma ScaleFive(n: nat)
    ensures Scale(n + 5) == 32 * Scale(n)
  {
    assert Scale(n + 2) == 4 * Scale(n);
    assert Scale(n + 4) == 4 * Scale(n + 2);
  }

  lemma RegisterSize()
    ensures Scale(64) == TWO64
  {
    assert Scale(4) == 16;
    assert Scale(6) == 64;
    ScaleAdd(8, 8);
    ScaleAdd(16, 16);
    ScaleAdd(32, 32);
  }

  lemma LowBits(a: nat, high: nat, s: nat)
    ensures (a + high * (32 * s)) % 32 == a % 32
  {
    var z := high * s;
    assert high * (32 * s) == 32 * z;
  }

  /** Whatever has fallen off the upper end of the register does not reach a window at most seven bits up. */
  lemma RegisterWindow(low: nat, high: nat, k: nat)
    requires k <= 7
    ensures Shr(low + high * Scale(64), k) % 32 == Shr(low, k) % 32
  {
    ShiftParts(low, high, 64, k);
    ScaleFive(59 - k);
    LowBits(Shr(low, k), high, Scale(59 - k));
  }

  lemma ModUnique(x: nat, q: nat, r: nat)
    requires x == q * TWO64 + r && r < TWO64
    ensures x % TWO64 == r
  {}

  /** Shifting a byte into the register keeps the low 64 bits of the stream. */
  lemma ShiftIn(n: nat, b: nat)
    requires b < 256
    ensures n % TWO64 * 256 % TWO64 + b == (256 * n + b) % TWO64
  {
    var low, high := n % TWO64, n / TWO64;
    var top, rest := low / 0x100_0000_0000_0000, low % 0x100_0000_0000_0000;
    assert n == high * TWO64 + low && low == top * 0x100_0000_0000_0000 + rest;
    ModUnique(low * 256, top, rest * 256);
    ModUnique(256 * n + b, 256 * high + top, rest * 256 + b);
  }

  /** The register holds the low 64 bits of what was read of the stream. */
  ghost predicate Holds(accum: nat, f: BitStream, read: nat) {
    accum == Bits(f, 8 * read) % TWO64
  }

  lemma TopUp(accum: nat, okm: seq<byte>, f: BitStream, read: nat)
    requires Holds(accum, f, read) && Spells(f, okm)
    ensures Holds(accum * 256 % TWO64 + ByteAt(okm, read), f, read + 1)
  {
    var b := ByteAt(okm, read);
    EightBits(f, 8 * read, b);
    ShiftIn(Bits(f, 8 * read), b);
    assert 8 * read + 8 == 8 * (read + 1);
  }

  lemma WindowAt(f: BitStream, accum: nat, high: nat, j: nat, shift: nat)
    requires Bits(f, j + 5 + shift) == accum + high * Scale(64) && shift <= 7
    ensures Shr(accum, shift) % 32 == Window(f, j)
  {
    RegisterWindow(accum, high, shift);
    LastWindow(f, j, shift);
  }

  lemma LastWindow(f: BitStream, j: nat, shift: nat)
    ensures Shr(Bits(f, j + 5 + shift), shift) % 32 == Window(f, j)
  {
    DropBits(f, j + 5, shift);
    BitsWindow(f, j);
    Remainder(Bits(f, j), Window(f, j));
  }

  lemma Remainder(x: nat, w: nat)
    requires w < 32
    ensures (32 * x + w) % 32 == w
  {}

  lemma TakeWindow(accum: nat, f: BitStream, read: nat, j: nat, shift: nat)
    requires Holds(accum, f, read) && shift <= 7 && j + 5 + shift == 8 * read
    ensures Shr(accum, shift) % 32 == Window(f, j)
  {
    var n := Bits(f, 8 * read);
    RegisterSize();
    assert n == accum + n / TWO64 * TWO64;
    WindowAt(f, accum, n / TWO64, j, shift);
  }

  // ----- The loops -----

  /**
   Index i is bits 5i to 5i + 4 of the zero-padded stream, for every key and every
   code length; each is taken with at most twelve bits buffered.
   */
  method ExtractIndices(okm: seq<byte>, len: nat, ghost f: BitStream) returns (code: seq<nat>, ghost buffered: seq<nat>)
    requires Spells(f, okm)
    ensures |code| == len && forall i :: 0 <= i < len ==> code[i] == Window(f, 5 * i)
    ensures |buffered| == len && forall i :: 0 <= i < len ==> 5 <= buffered[i] <= 12
  {
    code, buffered := [], [];
    var accum: nat, bits, at := 0, 0, 0;
    ghost var read := 0;
    for i := 0 to len
      invariant |code| == i && forall k :: 0 <= k < i ==> code[k] == Window(f, 5 * k)
      invariant |buffered| == i && forall k :: 0 <= k < i ==> 5 <= buffered[k] <= 12
      invariant bits == 8 * read - 5 * i && 0 <= bits <= 12
      invariant at == (if read < |okm| then read else |okm|)
      invariant Holds(accum, f, read)
    {
      while bits < 5
        invariant bits == 8 * read - 5 * i && 0 <= bits <= 12
        invariant at == (if read < |okm| then read else |okm|)
        invariant Holds(accum, f, read)
        decreases 5 - bits
      {
        TopUp(accum, okm, f, read);
        if at < |okm| {
          accum := accum * 256 % TWO64 + okm[at] as int;
          at := at + 1;
        } else {
          accum := accum * 256 % TWO64;
        }
        bits, read := bits + 8, read + 1;
      }
      var shift := bits - 5;
      TakeWindow(accum, f, read, 5 * i, shift);
      code, buffered := code + [Shr(accum, shift) % 32], buffered + [bits];
      bits := bits - 5;
    }
  }

  ghost predicate Alphabet(charset: string) {
    |charset| == 32 && forall i, j :: 0 <= i < j < 32 ==> charset[i] != charset[j]
  }

  /** The code shown to the user. */
  function CodeOf(charset: string, f: BitStream, len: nat): (code: string)
    requires |charset| == 32
    ensures |code| == len
  {
    if len == 0 then "" else CodeOf(charset, f, len - 1) + [charset[Window(f, 5 * (len - 1))]]
  }

  /** The code is made of the letters of the key's own bits. */
  method GenerateCode(charset: string, okm: seq<byte>) returns (code: string)
    requires |charset| == 32
    ensures code == CodeOf(charset, BitsOf(okm), CODE_LEN)
  {
    BitsOfSpells(okm);
    code := CodeFrom(charset, okm, BitsOf(okm));
  }

  method CodeFrom(charset: string, okm: seq<byte>, ghost f: BitStream) returns (code: string)
    requires |charset| == 32 && Spells(f, okm)
    ensures code == CodeOf(charset, f, CODE_LEN)
  {
    var indices, _ := ExtractIndices(okm, CODE_LEN, f);
    code := "";
    for i := 0 to CODE_LEN
      invariant code == CodeOf(charset, f, i)
    {
      code := code + [charset[indices[i]]];
    }
  }

  /** The character set of the repository has no letter twice. */
  lemma RepositoryAlphabet()
    ensures Alphabet("ABCDEFGHJKLMNPQRSTUVWXYZ23456789")
  {}

  /** Two streams show the same code exactly when they agree on all the bits it is made of. */
  lemma {:induction false} SameCodeExactly(charset: string, f: BitStream, g: BitStream, len: nat)
    requires Alphabet(charset)
    ensures CodeOf(charset, f, len) == CodeOf(charset, g, len) <==> Bits(f, 5 * len) == Bits(g, 5 * len)
  {
    if len > 0 {
      var j := 5 * (len - 1);
      SameCodeExactly(charset, f, g, len - 1);
      BitsWindow(f, j);
      BitsWindow(g, j);
      LastLetter(CodeOf(charset, f, len - 1), CodeOf(charset, g, len - 1), charset[Window(f, j)], charset[Window(g, j)]);
    }
  }

  lemma LastLetter(s: string, t: string, x: char, y: char)
    requires |s| == |t|
    ensures s + [x] == t + [y] <==> s == t && x == y
  {
    if s + [x] == t + [y] {
      assert s == (s + [x])[..|s|] && t == (t + [y])[..|t|];
      assert (s + [x])[|s|] == x && (t + [y])[|t|] == y;
    }
  }
}
