/** The two 256-entry tables of the repository, and the check that they are valid. */
module Gf256Source {
  import opened Gf256

  function Xor(a: bv8, b: bv8): bv8 { a ^ b }

  /** Multiplication by x modulo x^8 + x^4 + x^3 + x + 1. */
  function Times2(a: bv8): bv8 {
    (a << 1) ^ (if a & 0x80 != 0 then 0x1b else 0)
  }

  /** Multiplication by x + 1, the generator the tables are built on. */
  function Times3(a: bv8): bv8 {
    a ^ Times2(a)
  }

  // ----- The tables -----

  /** Column c of a row of sixteen entries. */
  function Pick<T>(c: int, v0: T, v1: T, v2: T, v3: T, v4: T, v5: T, v6: T, v7: T,
                  v8: T, v9: T, vA: T, vB: T, vC: T, vD: T, vE: T, vF: T): T
  {
    if c < 8 then
      if c < 4 then (if c < 2 then (if c < 1 then v0 else v1) else (if c < 3 then v2 else v3)) else (if c < 6 then (if c < 5 then v4 else v5) else (if c < 7 then v6 else v7))
    else
      if c < 12 then (if c < 10 then (if c < 9 then v8 else v9) else (if c < 11 then vA else vB)) else (if c < 14 then (if c < 13 then vC else vD) else (if c < 15 then vE else vF))
  }

  /** Entry i of the antilogarithm table, row by row. */
  function ExpEntry(i: int): bv8
  {
    if i < 0x10 then Pick(i - 0x00, 0x01, 0x03, 0x05, 0x0f, 0x11, 0x33, 0x55, 0xff, 0x1a, 0x2e, 0x72, 0x96, 0xa1, 0xf8, 0x13, 0x35)
    else if i < 0x20 then Pick(i - 0x10, 0x5f, 0xe1, 0x38, 0x48, 0xd8, 0x73, 0x95, 0xa4, 0xf7, 0x02, 0x06, 0x0a, 0x1e, 0x22, 0x66, 0xaa)
    else if i < 0x30 then Pick(i - 0x20, 0xe5, 0x34, 0x5c, 0xe4, 0x37, 0x59, 0xeb, 0x26, 0x6a, 0xbe, 0xd9, 0x70, 0x90, 0xab, 0xe6, 0x31)
    else if i < 0x40 then Pick(i - 0x30, 0x53, 0xf5, 0x04, 0x0c, 0x14, 0x3c, 0x44, 0xcc, 0x4f, 0xd1, 0x68, 0xb8, 0xd3, 0x6e, 0xb2, 0xcd)
    else if i < 0x50 then Pick(i - 0x40, 0x4c, 0xd4, 0x67, 0xa9, 0xe0, 0x3b, 0x4d, 0xd7, 0x62, 0xa6, 0xf1, 0x08, 0x18, 0x28, 0x78, 0x88)
    else if i < 0x60 then Pick(i - 0x50, 0x83, 0x9e, 0xb9, 0xd0, 0x6b, 0xbd, 0xdc, 0x7f, 0x81, 0x98, 0xb3, 0xce, 0x49, 0xdb, 0x76, 0x9a)
    else if i < 0x70 then Pick(i - 0x60, 0xb5, 0xc4, 0x57, 0xf9, 0x10, 0x30, 0x50, 0xf0, 0x0b, 0x1d, 0x27, 0x69, 0xbb, 0xd6, 0x61, 0xa3)
    else if i < 0x80 then Pick(i - 0x70, 0xfe, 0x19, 0x2b, 0x7d, 0x87, 0x92, 0xad, 0xec, 0x2f, 0x71, 0x93, 0xae, 0xe9, 0x20, 0x60, 0xa0)
    else if i < 0x90 then Pick(i - 0x80, 0xfb, 0x16, 0x3a, 0x4e, 0xd2, 0x6d, 0xb7, 0xc2, 0x5d, 0xe7, 0x32, 0x56, 0xfa, 0x15, 0x3f, 0x41)
    else if i < 0xa0 then Pick(i - 0x90, 0xc3, 0x5e, 0xe2, 0x3d, 0x47, 0xc9, 0x40, 0xc0, 0x5b, 0xed, 0x2c, 0x74, 0x9c, 0xbf, 0xda, 0x75)
    else if i < 0xb0 then Pick(i - 0xa0, 0x9f, 0xba, 0xd5, 0x64, 0xac, 0xef, 0x2a, 0x7e, 0x82, 0x9d, 0xbc, 0xdf, 0x7a, 0x8e, 0x89, 0x80)
    else if i < 0xc0 then Pick(i - 0xb0, 0x9b, 0xb6, 0xc1, 0x58, 0xe8, 0x23, 0x65, 0xaf, 0xea, 0x25, 0x6f, 0xb1, 0xc8, 0x43, 0xc5, 0x54)
    else if i < 0xd0 then Pick(i - 0xc0, 0xfc, 0x1f, 0x21, 0x63, 0xa5, 0xf4, 0x07, 0x09, 0x1b, 0x2d, 0x77, 0x99, 0xb0, 0xcb, 0x46, 0xca)
    else if i < 0xe0 then Pick(i - 0xd0, 0x45, 0xcf, 0x4a, 0xde, 0x79, 0x8b, 0x86, 0x91, 0xa8, 0xe3, 0x3e, 0x42, 0xc6, 0x51, 0xf3, 0x0e)
    else if i < 0xf0 then Pick(i - 0xe0, 0x12, 0x36, 0x5a, 0xee, 0x29, 0x7b, 0x8d, 0x8c, 0x8f, 0x8a, 0x85, 0x94, 0xa7, 0xf2, 0x0d, 0x17)
    else Pick(i - 0xf0, 0x39, 0x4b, 0xdd, 0x7c, 0x84, 0x97, 0xa2, 0xfd, 0x1c, 0x24, 0x6c, 0xb4, 0xc7, 0x52, 0xf6, 0x01)
  }

  /** Entry i of the logarithm table, row by row. */
  function LogEntry(i: int): int
  {
    if i < 0x10 then Pick(i - 0x00, 0x00, 0x00, 0x19, 0x01, 0x32, 0x02, 0x1a, 0xc6, 0x4b, 0xc7, 0x1b, 0x68, 0x33, 0xee, 0xdf, 0x03)
    else if i < 0x20 then Pick(i - 0x10, 0x64, 0x04, 0xe0, 0x0e, 0x34, 0x8d, 0x81, 0xef, 0x4c, 0x71, 0x08, 0xc8, 0xf8, 0x69, 0x1c, 0xc1)
    else if i < 0x30 then Pick(i - 0x20, 0x7d, 0xc2, 0x1d, 0xb5, 0xf9, 0xb9, 0x27, 0x6a, 0x4d, 0xe4, 0xa6, 0x72, 0x9a, 0xc9, 0x09, 0x78)
    else if i < 0x40 then Pick(i - 0x30, 0x65, 0x2f, 0x8a, 0x05, 0x21, 0x0f, 0xe1, 0x24, 0x12, 0xf0, 0x82, 0x45, 0x35, 0x93, 0xda, 0x8e)
    else if i < 0x50 then Pick(i - 0x40, 0x96, 0x8f, 0xdb, 0xbd, 0x36, 0xd0, 0xce, 0x94, 0x13, 0x5c, 0xd2, 0xf1, 0x40, 0x46, 0x83, 0x38)
    else if i < 0x60 then Pick(i - 0x50, 0x66, 0xdd, 0xfd, 0x30, 0xbf, 0x06, 0x8b, 0x62, 0xb3, 0x25, 0xe2, 0x98, 0x22, 0x88, 0x91, 0x10)
    else if i < 0x70 then Pick(i - 0x60, 0x7e, 0x6e, 0x48, 0xc3, 0xa3, 0xb6, 0x1e, 0x42, 0x3a, 0x6b, 0x28, 0x54, 0xfa, 0x85, 0x3d, 0xba)
    else if i < 0x80 then Pick(i - 0x70, 0x2b, 0x79, 0x0a, 0x15, 0x9b, 0x9f, 0x5e, 0xca, 0x4e, 0xd4, 0xac, 0xe5, 0xf3, 0x73, 0xa7, 0x57)
    else if i < 0x90 then Pick(i - 0x80, 0xaf, 0x58, 0xa8, 0x50, 0xf4, 0xea, 0xd6, 0x74, 0x4f, 0xae, 0xe9, 0xd5, 0xe7, 0xe6, 0xad, 0xe8)
    else if i < 0xa0 then Pick(i - 0x90, 0x2c, 0xd7, 0x75, 0x7a, 0xeb, 0x16, 0x0b, 0xf5, 0x59, 0xcb, 0x5f, 0xb0, 0x9c, 0xa9, 0x51, 0xa0)
    else if i < 0xb0 then Pick(i - 0xa0, 0x7f, 0x0c, 0xf6, 0x6f, 0x17, 0xc4, 0x49, 0xec, 0xd8, 0x43, 0x1f, 0x2d, 0xa4, 0x76, 0x7b, 0xb7)
    else if i < 0xc0 then Pick(i - 0xb0, 0xcc, 0xbb, 0x3e, 0x5a, 0xfb, 0x60, 0xb1, 0x86, 0x3b, 0x52, 0xa1, 0x6c, 0xaa, 0x55, 0x29, 0x9d)
    else if i < 0xd0 then Pick(i - 0xc0, 0x97, 0xb2, 0x87, 0x90, 0x61, 0xbe, 0xdc, 0xfc, 0xbc, 0x95, 0xcf, 0xcd, 0x37, 0x3f, 0x5b, 0xd1)
    else if i < 0xe0 then Pick(i - 0xd0, 0x53, 0x39, 0x84, 0x3c, 0x41, 0xa2, 0x6d, 0x47, 0x14, 0x2a, 0x9e, 0x5d, 0x56, 0xf2, 0xd3, 0xab)
    else if i < 0xf0 then Pick(i - 0xe0, 0x44, 0x11, 0x92, 0xd9, 0x23, 0x20, 0x2e, 0x89, 0xb4, 0x7c, 0xb8, 0x26, 0x77, 0x99, 0xe3, 0xa5)
    else Pick(i - 0xf0, 0x67, 0x4a, 0xed, 0xde, 0xc5, 0x31, 0xfe, 0x18, 0x0d, 0x63, 0x8c, 0x80, 0xc0, 0xf7, 0x70, 0x07)
  }

  /** The field built from an antilogarithm table and a logarithm table over bytes. */
  function FromTables(exp: int -> bv8, log: int -> int): Tables<bv8> {
    Tables(0, 1, Xor, Times3, seq(256, exp), (a: bv8) => log(a as int))
  }

  /** The repository's field. */
  function Source(): Tables<bv8> {
    FromTables(ExpEntry, LogEntry)
  }

  /** Entry i + 1 is the generator times entry i, and the logarithm of i leads back to i. */
  ghost predicate EntryOk(exp: int -> bv8, log: int -> int, i: int) {
    && (0 <= i < 255 ==> exp(i + 1) == Times3(exp(i)))
    && (0 < i < 256 ==> 0 <= log(i) < 255 && exp(log(i)) == i as bv8)
  }

  ghost predicate SourceOk(i: int) { EntryOk(ExpEntry, LogEntry, i) }

  /** Hides the row facts below until an index asks for them. */
  predicate InTable(i: int) { true }

  lemma WholeRow(p: int -> bool, lo: int)
    requires p(lo) && p(lo + 1) && p(lo + 2) && p(lo + 3) && p(lo + 4) && p(lo + 5) && p(lo + 6) && p(lo + 7) && p(lo + 8) && p(lo + 9) && p(lo + 10) && p(lo + 11) && p(lo + 12) && p(lo + 13) && p(lo + 14) && p(lo + 15)
    ensures forall i {:trigger InTable(i)} :: lo <= i < lo + 16 ==> p(i)
  {
    forall i {:trigger InTable(i)} | lo <= i < lo + 16 ensures p(i) {
      var c := i - lo;
      assert c == 0 || c == 1 || c == 2 || c == 3 || c == 4 || c == 5 || c == 6 || c == 7 || c == 8 || c == 9 || c == 10 || c == 11 || c == 12 || c == 13 || c == 14 || c == 15;
    }
  }

  lemma LowHalf0()
    ensures SourceOk(0x00) && SourceOk(0x01) && SourceOk(0x02) && SourceOk(0x03)
    ensures SourceOk(0x04) && SourceOk(0x05) && SourceOk(0x06) && SourceOk(0x07)
  {}

  lemma HighHalf0()
    ensures SourceOk(0x08) && SourceOk(0x09) && SourceOk(0x0a) && SourceOk(0x0b)
    ensures SourceOk(0x0c) && SourceOk(0x0d) && SourceOk(0x0e) && SourceOk(0x0f)
  {}

  lemma Row0()
    ensures forall i {:trigger InTable(i)} :: 0x00 <= i <= 0x0f ==> SourceOk(i)
  {
    LowHalf0(); HighHalf0();
    WholeRow(SourceOk, 0x00);
  }

  lemma LowHalf1()
    ensures SourceOk(0x10) && SourceOk(0x11) && SourceOk(0x12) && SourceOk(0x13)
    ensures SourceOk(0x14) && SourceOk(0x15) && SourceOk(0x16) && SourceOk(0x17)
  {}

  lemma HighHalf1()
    ensures SourceOk(0x18) && SourceOk(0x19) && SourceOk(0x1a) && SourceOk(0x1b)
    ensures SourceOk(0x1c) && SourceOk(0x1d) && SourceOk(0x1e) && SourceOk(0x1f)
  {}

  lemma Row1()
    ensures forall i {:trigger InTable(i)} :: 0x10 <= i <= 0x1f ==> SourceOk(i)
  {
    LowHalf1(); HighHalf1();
    WholeRow(SourceOk, 0x10);
  }

  lemma LowHalf2()
    ensures SourceOk(0x20) && SourceOk(0x21) && SourceOk(0x22) && SourceOk(0x23)
    ensures SourceOk(0x24) && SourceOk(0x25) && SourceOk(0x26) && SourceOk(0x27)
  {}

  lemma HighHalf2()
    ensures SourceOk(0x28) && SourceOk(0x29) && SourceOk(0x2a) && SourceOk(0x2b)
    ensures SourceOk(0x2c) && SourceOk(0x2d) && SourceOk(0x2e) && SourceOk(0x2f)
  {}

  lemma Row2()
    ensures forall i {:trigger InTable(i)} :: 0x20 <= i <= 0x2f ==> SourceOk(i)
  {
    LowHalf2(); HighHalf2();
    WholeRow(SourceOk, 0x20);
  }

  lemma LowHalf3()
    ensures SourceOk(0x30) && SourceOk(0x31) && SourceOk(0x32) && SourceOk(0x33)
    ensures SourceOk(0x34) && SourceOk(0x35) && SourceOk(0x36) && SourceOk(0x37)
  {}

  lemma HighHalf3()
    ensures SourceOk(0x38) && SourceOk(0x39) && SourceOk(0x3a) && SourceOk(0x3b)
    ensures SourceOk(0x3c) && SourceOk(0x3d) && SourceOk(0x3e) && SourceOk(0x3f)
  {}

  lemma Row3()
    ensures forall i {:trigger InTable(i)} :: 0x30 <= i <= 0x3f ==> SourceOk(i)
  {
    LowHalf3(); HighHalf3();
    WholeRow(SourceOk, 0x30);
  }

  lemma LowHalf4()
    ensures SourceOk(0x40) && SourceOk(0x41) && SourceOk(0x42) && SourceOk(0x43)
    ensures SourceOk(0x44) && SourceOk(0x45) && SourceOk(0x46) && SourceOk(0x47)
  {}

  lemma HighHalf4()
    ensures SourceOk(0x48) && SourceOk(0x49) && SourceOk(0x4a) && SourceOk(0x4b)
    ensures SourceOk(0x4c) && SourceOk(0x4d) && SourceOk(0x4e) && SourceOk(0x4f)
  {}

  lemma Row4()
    ensures forall i {:trigger InTable(i)} :: 0x40 <= i <= 0x4f ==> SourceOk(i)
  {
    LowHalf4(); HighHalf4();
    WholeRow(SourceOk, 0x40);
  }

  lemma LowHalf5()
    ensures SourceOk(0x50) && SourceOk(0x51) && SourceOk(0x52) && SourceOk(0x53)
    ensures SourceOk(0x54) && SourceOk(0x55) && SourceOk(0x56) && SourceOk(0x57)
  {}

  lemma HighHalf5()
    ensures SourceOk(0x58) && SourceOk(0x59) && SourceOk(0x5a) && SourceOk(0x5b)
    ensures SourceOk(0x5c) && SourceOk(0x5d) && SourceOk(0x5e) && SourceOk(0x5f)
  {}

  lemma Row5()
    ensures forall i {:trigger InTable(i)} :: 0x50 <= i <= 0x5f ==> SourceOk(i)
  {
    LowHalf5(); HighHalf5();
    WholeRow(SourceOk, 0x50);
  }

  lemma LowHalf6()
    ensures SourceOk(0x60) && SourceOk(0x61) && SourceOk(0x62) && SourceOk(0x63)
    ensures SourceOk(0x64) && SourceOk(0x65) && SourceOk(0x66) && SourceOk(0x67)
  {}

  lemma HighHalf6()
    ensures SourceOk(0x68) && SourceOk(0x69) && SourceOk(0x6a) && SourceOk(0x6b)
    ensures SourceOk(0x6c) && SourceOk(0x6d) && SourceOk(0x6e) && SourceOk(0x6f)
  {}

  lemma Row6()
    ensures forall i {:trigger InTable(i)} :: 0x60 <= i <= 0x6f ==> SourceOk(i)
  {
    LowHalf6(); HighHalf6();
    WholeRow(SourceOk, 0x60);
  }

  lemma LowHalf7()
    ensures SourceOk(0x70) && SourceOk(0x71) && SourceOk(0x72) && SourceOk(0x73)
    ensures SourceOk(0x74) && SourceOk(0x75) && SourceOk(0x76) && SourceOk(0x77)
  {}

  lemma HighHalf7()
    ensures SourceOk(0x78) && SourceOk(0x79) && SourceOk(0x7a) && SourceOk(0x7b)
    ensures SourceOk(0x7c) && SourceOk(0x7d) && SourceOk(0x7e) && SourceOk(0x7f)
  {}

  lemma Row7()
    ensures forall i {:trigger InTable(i)} :: 0x70 <= i <= 0x7f ==> SourceOk(i)
  {
    LowHalf7(); HighHalf7();
    WholeRow(SourceOk, 0x70);
  }

  lemma LowHalf8()
    ensures SourceOk(0x80) && SourceOk(0x81) && SourceOk(0x82) && SourceOk(0x83)
    ensures SourceOk(0x84) && SourceOk(0x85) && SourceOk(0x86) && SourceOk(0x87)
  {}

  lemma HighHalf8()
    ensures SourceOk(0x88) && SourceOk(0x89) && SourceOk(0x8a) && SourceOk(0x8b)
    ensures SourceOk(0x8c) && SourceOk(0x8d) && SourceOk(0x8e) && SourceOk(0x8f)
  {}

  lemma Row8()
    ensures forall i {:trigger InTable(i)} :: 0x80 <= i <= 0x8f ==> SourceOk(i)
  {
    LowHalf8(); HighHalf8();
    WholeRow(SourceOk, 0x80);
  }

  lemma LowHalf9()
    ensures SourceOk(0x90) && SourceOk(0x91) && SourceOk(0x92) && SourceOk(0x93)
    ensures SourceOk(0x94) && SourceOk(0x95) && SourceOk(0x96) && SourceOk(0x97)
  {}

  lemma HighHalf9()
    ensures SourceOk(0x98) && SourceOk(0x99) && SourceOk(0x9a) && SourceOk(0x9b)
    ensures SourceOk(0x9c) && SourceOk(0x9d) && SourceOk(0x9e) && SourceOk(0x9f)
  {}

  lemma Row9()
    ensures forall i {:trigger InTable(i)} :: 0x90 <= i <= 0x9f ==> SourceOk(i)
  {
    LowHalf9(); HighHalf9();
    WholeRow(SourceOk, 0x90);
  }

  lemma LowHalfA()
    ensures SourceOk(0xa0) && SourceOk(0xa1) && SourceOk(0xa2) && SourceOk(0xa3)
    ensures SourceOk(0xa4) && SourceOk(0xa5) && SourceOk(0xa6) && SourceOk(0xa7)
  {}

  lemma HighHalfA()
    ensures SourceOk(0xa8) && SourceOk(0xa9) && SourceOk(0xaa) && SourceOk(0xab)
    ensures SourceOk(0xac) && SourceOk(0xad) && SourceOk(0xae) && SourceOk(0xaf)
  {}

  lemma RowA()
    ensures forall i {:trigger InTable(i)} :: 0xA0 <= i <= 0xAf ==> SourceOk(i)
  {
    LowHalfA(); HighHalfA();
    WholeRow(SourceOk, 0xA0);
  }

  lemma LowHalfB()
    ensures SourceOk(0xb0) && SourceOk(0xb1) && SourceOk(0xb2) && SourceOk(0xb3)
    ensures SourceOk(0xb4) && SourceOk(0xb5) && SourceOk(0xb6) && SourceOk(0xb7)
  {}

  lemma HighHalfB()
    ensures SourceOk(0xb8) && SourceOk(0xb9) && SourceOk(0xba) && SourceOk(0xbb)
    ensures SourceOk(0xbc) && SourceOk(0xbd) && SourceOk(0xbe) && SourceOk(0xbf)
  {}

  lemma RowB()
    ensures forall i {:trigger InTable(i)} :: 0xB0 <= i <= 0xBf ==> SourceOk(i)
  {
    LowHalfB(); HighHalfB();
    WholeRow(SourceOk, 0xB0);
  }

  lemma LowHalfC()
    ensures SourceOk(0xc0) && SourceOk(0xc1) && SourceOk(0xc2) && SourceOk(0xc3)
    ensures SourceOk(0xc4) && SourceOk(0xc5) && SourceOk(0xc6) && SourceOk(0xc7)
  {}

  lemma HighHalfC()
    ensures SourceOk(0xc8) && SourceOk(0xc9) && SourceOk(0xca) && SourceOk(0xcb)
    ensures SourceOk(0xcc) && SourceOk(0xcd) && SourceOk(0xce) && SourceOk(0xcf)
  {}

  lemma RowC()
    ensures forall i {:trigger InTable(i)} :: 0xC0 <= i <= 0xCf ==> SourceOk(i)
  {
    LowHalfC(); HighHalfC();
    WholeRow(SourceOk, 0xC0);
  }

  lemma LowHalfD()
    ensures SourceOk(0xd0) && SourceOk(0xd1) && SourceOk(0xd2) && SourceOk(0xd3)
    ensures SourceOk(0xd4) && SourceOk(0xd5) && SourceOk(0xd6) && SourceOk(0xd7)
  {}

  lemma HighHalfD()
    ensures SourceOk(0xd8) && SourceOk(0xd9) && SourceOk(0xda) && SourceOk(0xdb)
    ensures SourceOk(0xdc) && SourceOk(0xdd) && SourceOk(0xde) && SourceOk(0xdf)
  {}

  lemma RowD()
    ensures forall i {:trigger InTable(i)} :: 0xD0 <= i <= 0xDf ==> SourceOk(i)
  {
    LowHalfD(); HighHalfD();
    WholeRow(SourceOk, 0xD0);
  }

  lemma LowHalfE()
    ensures SourceOk(0xe0) && SourceOk(0xe1) && SourceOk(0xe2) && SourceOk(0xe3)
    ensures SourceOk(0xe4) && SourceOk(0xe5) && SourceOk(0xe6) && SourceOk(0xe7)
  {}

  lemma HighHalfE()
    ensures SourceOk(0xe8) && SourceOk(0xe9) && SourceOk(0xea) && SourceOk(0xeb)
    ensures SourceOk(0xec) && SourceOk(0xed) && SourceOk(0xee) && SourceOk(0xef)
  {}

  lemma RowE()
    ensures forall i {:trigger InTable(i)} :: 0xE0 <= i <= 0xEf ==> SourceOk(i)
  {
    LowHalfE(); HighHalfE();
    WholeRow(SourceOk, 0xE0);
  }

  lemma LowHalfF()
    ensures SourceOk(0xf0) && SourceOk(0xf1) && SourceOk(0xf2) && SourceOk(0xf3)
    ensures SourceOk(0xf4) && SourceOk(0xf5) && SourceOk(0xf6) && SourceOk(0xf7)
  {}

  lemma HighHalfF()
    ensures SourceOk(0xf8) && SourceOk(0xf9) && SourceOk(0xfa) && SourceOk(0xfb)
    ensures SourceOk(0xfc) && SourceOk(0xfd) && SourceOk(0xfe) && SourceOk(0xff)
  {}

  lemma RowF()
    ensures forall i {:trigger InTable(i)} :: 0xF0 <= i <= 0xFf ==> SourceOk(i)
  {
    LowHalfF(); HighHalfF();
    WholeRow(SourceOk, 0xF0);
  }

  lemma EntryAt(i: int)
    requires 0 <= i < 256
    ensures SourceOk(i)
  {
    Row0(); Row1(); Row2(); Row3(); Row4(); Row5(); Row6(); Row7();
    Row8(); Row9(); RowA(); RowB(); RowC(); RowD(); RowE(); RowF();
    assert InTable(i);
  }

  // ----- Bit-level facts -----

  lemma ShiftLinear(a: bv8, b: bv8)
    ensures (a ^ b) << 1 == (a << 1) ^ (b << 1)
  {}

  lemma TopBitLinear(a: bv8, b: bv8)
    ensures (a ^ b) & 0x80 == (a & 0x80) ^ (b & 0x80)
  {}

  lemma TopBit(a: bv8)
    ensures a & 0x80 == 0 || a & 0x80 == 0x80
  {}

  lemma XorSwap(a: bv8, b: bv8, c: bv8, d: bv8)
    ensures (a ^ b) ^ (c ^ d) == (a ^ c) ^ (b ^ d)
  {}

  lemma Times2Linear(a: bv8, b: bv8)
    ensures Times2(a ^ b) == Times2(a) ^ Times2(b)
  {
    ShiftLinear(a, b); TopBitLinear(a, b); TopBit(a); TopBit(b);
  }

  lemma Times3Linear(a: bv8, b: bv8)
    ensures Times3(Xor(a, b)) == Xor(Times3(a), Times3(b))
  {
    Times2Linear(a, b);
    var c, d := Times2(a), Times2(b);
    XorSwap(a, b, c, d);
  }

  lemma XorLaws(a: bv8, b: bv8, c: bv8)
    ensures Xor(a, b) == Xor(b, a)
    ensures Xor(Xor(a, b), c) == Xor(a, Xor(b, c))
    ensures Xor(a, 0) == a && Xor(a, a) == 0
  {}

  lemma ValidFromEntries(exp: int -> bv8, log: int -> int)
    requires exp(0) == 1 && exp(255) == 1
    requires forall i :: 0 <= i < 256 ==> EntryOk(exp, log, i)
    ensures FromTables(exp, log).Valid()
  {
    var t := FromTables(exp, log);
    forall i ensures t.StepAt(i) { assert 0 <= i < 256 ==> EntryOk(exp, log, i); }
    forall a ensures t.LogAt(a) { assert EntryOk(exp, log, a as int); }
    forall a, b, c ensures t.CommAt(a, b) && t.AssocAt(a, b, c) && t.UnitAt(a) { XorLaws(a, b, c); }
    forall a, b ensures t.LinearAt(a, b) { Times3Linear(a, b); }
  }

  /** All 510 relations between the repository's table entries hold, over bytes under xor. */
  lemma SourceValid()
    ensures Source().Valid()
  {
    forall i | 0 <= i < 256 ensures EntryOk(ExpEntry, LogEntry, i) {
      EntryAt(i);
    }
    assert ExpEntry(0) == 1 && ExpEntry(255) == 1;
    ValidFromEntries(ExpEntry, LogEntry);
  }

  // ----- Agreement with polynomial multiplication -----

  /** Shift-and-add multiplication of polynomials: the reference the tables are measured against. */
  function MulRef(a: bv8, b: bv8, bits: nat): bv8
    requires bits <= 8
    decreases bits
  {
    if bits == 0 then 0
    else Xor(if b & 1 != 0 then a else 0, MulRef(Times2(a), b >> 1, bits - 1))
  }

  ghost predicate OverBytes(t: Tables<bv8>) {
    t.Valid() && t.zero == 0 && t.one == 1 && t.add == Xor && t.step == Times3
  }

  lemma XorCancel(a: bv8, b: bv8)
    ensures Xor(Xor(a, b), a) == b
  {}

  lemma MulTimes2(t: Tables<bv8>, a: bv8)
    requires OverBytes(t)
    ensures t.Mul(a, 2) == Times2(a)
  {
    MulGenerator(t, a);
    assert Times3(1) == 3 && Xor(3, 1) == 2;
    MulDistrib(t, 3, 1, a);
    MulOne(t, a);
    XorCancel(a, Times2(a));
  }

  lemma SplitLow(b: bv8)
    ensures b == Xor(b & 1, Times2(b >> 1))
    ensures b & 1 == 0 || b & 1 == 1
  {}

  lemma ShiftDown(b: bv8, bits: nat)
    requires 0 < bits <= 8 && b >> bits == 0
    ensures (b >> 1) >> (bits - 1) == 0
  {
    assert bits == 1 || bits == 2 || bits == 3 || bits == 4 || bits == 5 || bits == 6 || bits == 7 || bits == 8;
  }

  lemma {:induction false} MulRefCorrect(t: Tables<bv8>, a: bv8, b: bv8, bits: nat)
    requires OverBytes(t)
    requires bits <= 8 && b >> bits == 0
    ensures t.Mul(a, b) == MulRef(a, b, bits)
    decreases bits
  {
    if bits == 0 {
      assert b == 0;
    } else {
      ShiftDown(b, bits);
      MulRefCorrect(t, Times2(a), b >> 1, bits - 1);
      MulSplit(t, a, b, b & 1, b >> 1);
    }
  }

  lemma MulSplit(t: Tables<bv8>, a: bv8, b: bv8, low: bv8, high: bv8)
    requires OverBytes(t)
    requires low == b & 1 && high == b >> 1
    ensures t.Mul(a, b) == Xor(if low != 0 then a else 0, t.Mul(Times2(a), high))
  {
    SplitLow(b);
    MulTimes2(t, a); MulTimes2(t, high);
    MulDistrib(t, low, t.Mul(high, 2), a);
    MulComm(t, high, 2);
    MulAssoc(t, a, 2, high);
    MulOne(t, a);
  }

  /** The repository's tables multiply modulo x^8 + x^4 + x^3 + x + 1. */
  lemma SourceMulIsPolynomialProduct(a: bv8, b: bv8)
    ensures Source().Valid() && Source().Mul(a, b) == MulRef(a, b, 8)
  {
    SourceValid();
    assert b >> 8 == 0;
    MulRefCorrect(Source(), a, b, 8);
  }
}
