// The tables of AES as the program has them, against what section 5.1.1 and section 5.2 of FIPS 197 say
// of them: the S-box inverts in the field of 256 elements and applies an affine map, and each round
// constant is the double of the one before it.
module AesTables {
  import opened KeySchedule
  import opened Rows
  import opened KeyFinder

  // ---------- the field ----------

  // Times x, modulo x^8 + x^4 + x^3 + x + 1.
  function Double(a: bv8): bv8 { if a & 0x80 != 0 then (a << 1) ^ 0x1b else a << 1 }

  function Part(a: bv8, b: bv8): bv8 { if b & 1 != 0 then a else 0 }

  // The product of a with the lowest n bits of b.
  function Low2(a: bv8, b: bv8): bv8 { Part(a, b) ^ Part(Double(a), b >> 1) }

  function Low4(a: bv8, b: bv8): bv8 { Low2(a, b) ^ Low2(Double(Double(a)), b >> 2) }

  function Times(a: bv8, b: bv8): bv8 {
    Low4(a, b) ^ Low4(Double(Double(Double(Double(a)))), b >> 4)
  }

  // ---------- the S-box of the standard ----------

  function RotateLeft1(a: bv8): bv8 { (a << 1) | (a >> 7) }

  function RotateLeft2(a: bv8): bv8 { (a << 2) | (a >> 6) }

  function RotateLeft3(a: bv8): bv8 { (a << 3) | (a >> 5) }

  function RotateLeft4(a: bv8): bv8 { (a << 4) | (a >> 4) }

  function RotateLeft6(a: bv8): bv8 { (a << 6) | (a >> 2) }

  function Affine(a: bv8): bv8 {
    a ^ RotateLeft1(a) ^ RotateLeft2(a) ^ RotateLeft3(a) ^ RotateLeft4(a) ^ 0x63
  }

  function Back(s: bv8): bv8 { RotateLeft1(s) ^ RotateLeft3(s) ^ RotateLeft6(s) ^ 0x05 }

  lemma AffineBack(s: bv8, a: bv8)
    ensures Affine(Back(s)) == s && Back(Affine(a)) == a
  {
  }

  // a is the inverse of b, or both are zero.
  predicate Inverse(b: bv8, a: bv8) { if b == 0 then a == 0 else Times(b, a) == 1 }

  // s is what the standard substitutes for b.
  predicate Substitutes(b: bv8, s: bv8) { Inverse(b, Back(s)) }

  // ---------- the table, row by row ----------

  function Row0(low: bv8): bv8 {
    if low == 0 then 0x63 else if low == 1 then 0x7c else if low == 2 then 0x77 else if low == 3 then 0x7b else
    if low == 4 then 0xf2 else if low == 5 then 0x6b else if low == 6 then 0x6f else if low == 7 then 0xc5 else
    if low == 8 then 0x30 else if low == 9 then 0x01 else if low == 10 then 0x67 else if low == 11 then 0x2b else
    if low == 12 then 0xfe else if low == 13 then 0xd7 else if low == 14 then 0xab else 0x76
  }

  function Row1(low: bv8): bv8 {
    if low == 0 then 0xca else if low == 1 then 0x82 else if low == 2 then 0xc9 else if low == 3 then 0x7d else
    if low == 4 then 0xfa else if low == 5 then 0x59 else if low == 6 then 0x47 else if low == 7 then 0xf0 else
    if low == 8 then 0xad else if low == 9 then 0xd4 else if low == 10 then 0xa2 else if low == 11 then 0xaf else
    if low == 12 then 0x9c else if low == 13 then 0xa4 else if low == 14 then 0x72 else 0xc0
  }

  function Row2(low: bv8): bv8 {
    if low == 0 then 0xb7 else if low == 1 then 0xfd else if low == 2 then 0x93 else if low == 3 then 0x26 else
    if low == 4 then 0x36 else if low == 5 then 0x3f else if low == 6 then 0xf7 else if low == 7 then 0xcc else
    if low == 8 then 0x34 else if low == 9 then 0xa5 else if low == 10 then 0xe5 else if low == 11 then 0xf1 else
    if low == 12 then 0x71 else if low == 13 then 0xd8 else if low == 14 then 0x31 else 0x15
  }

  function Row3(low: bv8): bv8 {
    if low == 0 then 0x04 else if low == 1 then 0xc7 else if low == 2 then 0x23 else if low == 3 then 0xc3 else
    if low == 4 then 0x18 else if low == 5 then 0x96 else if low == 6 then 0x05 else if low == 7 then 0x9a else
    if low == 8 then 0x07 else if low == 9 then 0x12 else if low == 10 then 0x80 else if low == 11 then 0xe2 else
    if low == 12 then 0xeb else if low == 13 then 0x27 else if low == 14 then 0xb2 else 0x75
  }

  function Row4(low: bv8): bv8 {
    if low == 0 then 0x09 else if low == 1 then 0x83 else if low == 2 then 0x2c else if low == 3 then 0x1a else
    if low == 4 then 0x1b else if low == 5 then 0x6e else if low == 6 then 0x5a else if low == 7 then 0xa0 else
    if low == 8 then 0x52 else if low == 9 then 0x3b else if low == 10 then 0xd6 else if low == 11 then 0xb3 else
    if low == 12 then 0x29 else if low == 13 then 0xe3 else if low == 14 then 0x2f else 0x84
  }

  function Row5(low: bv8): bv8 {
    if low == 0 then 0x53 else if low == 1 then 0xd1 else if low == 2 then 0x00 else if low == 3 then 0xed else
    if low == 4 then 0x20 else if low == 5 then 0xfc else if low == 6 then 0xb1 else if low == 7 then 0x5b else
    if low == 8 then 0x6a else if low == 9 then 0xcb else if low == 10 then 0xbe else if low == 11 then 0x39 else
    if low == 12 then 0x4a else if low == 13 then 0x4c else if low == 14 then 0x58 else 0xcf
  }

  function Row6(low: bv8): bv8 {
    if low == 0 then 0xd0 else if low == 1 then 0xef else if low == 2 then 0xaa else if low == 3 then 0xfb else
    if low == 4 then 0x43 else if low == 5 then 0x4d else if low == 6 then 0x33 else if low == 7 then 0x85 else
    if low == 8 then 0x45 else if low == 9 then 0xf9 else if low == 10 then 0x02 else if low == 11 then 0x7f else
    if low == 12 then 0x50 else if low == 13 then 0x3c else if low == 14 then 0x9f else 0xa8
  }

  function Row7(low: bv8): bv8 {
    if low == 0 then 0x51 else if low == 1 then 0xa3 else if low == 2 then 0x40 else if low == 3 then 0x8f else
    if low == 4 then 0x92 else if low == 5 then 0x9d else if low == 6 then 0x38 else if low == 7 then 0xf5 else
    if low == 8 then 0xbc else if low == 9 then 0xb6 else if low == 10 then 0xda else if low == 11 then 0x21 else
    if low == 12 then 0x10 else if low == 13 then 0xff else if low == 14 then 0xf3 else 0xd2
  }

  function Row8(low: bv8): bv8 {
    if low == 0 then 0xcd else if low == 1 then 0x0c else if low == 2 then 0x13 else if low == 3 then 0xec else
    if low == 4 then 0x5f else if low == 5 then 0x97 else if low == 6 then 0x44 else if low == 7 then 0x17 else
    if low == 8 then 0xc4 else if low == 9 then 0xa7 else if low == 10 then 0x7e else if low == 11 then 0x3d else
    if low == 12 then 0x64 else if low == 13 then 0x5d else if low == 14 then 0x19 else 0x73
  }

  function Row9(low: bv8): bv8 {
    if low == 0 then 0x60 else if low == 1 then 0x81 else if low == 2 then 0x4f else if low == 3 then 0xdc else
    if low == 4 then 0x22 else if low == 5 then 0x2a else if low == 6 then 0x90 else if low == 7 then 0x88 else
    if low == 8 then 0x46 else if low == 9 then 0xee else if low == 10 then 0xb8 else if low == 11 then 0x14 else
    if low == 12 then 0xde else if low == 13 then 0x5e else if low == 14 then 0x0b else 0xdb
  }

  function RowA(low: bv8): bv8 {
    if low == 0 then 0xe0 else if low == 1 then 0x32 else if low == 2 then 0x3a else if low == 3 then 0x0a else
    if low == 4 then 0x49 else if low == 5 then 0x06 else if low == 6 then 0x24 else if low == 7 then 0x5c else
    if low == 8 then 0xc2 else if low == 9 then 0xd3 else if low == 10 then 0xac else if low == 11 then 0x62 else
    if low == 12 then 0x91 else if low == 13 then 0x95 else if low == 14 then 0xe4 else 0x79
  }

  function RowB(low: bv8): bv8 {
    if low == 0 then 0xe7 else if low == 1 then 0xc8 else if low == 2 then 0x37 else if low == 3 then 0x6d else
    if low == 4 then 0x8d else if low == 5 then 0xd5 else if low == 6 then 0x4e else if low == 7 then 0xa9 else
    if low == 8 then 0x6c else if low == 9 then 0x56 else if low == 10 then 0xf4 else if low == 11 then 0xea else
    if low == 12 then 0x65 else if low == 13 then 0x7a else if low == 14 then 0xae else 0x08
  }

  function RowC(low: bv8): bv8 {
    if low == 0 then 0xba else if low == 1 then 0x78 else if low == 2 then 0x25 else if low == 3 then 0x2e else
    if low == 4 then 0x1c else if low == 5 then 0xa6 else if low == 6 then 0xb4 else if low == 7 then 0xc6 else
    if low == 8 then 0xe8 else if low == 9 then 0xdd else if low == 10 then 0x74 else if low == 11 then 0x1f else
    if low == 12 then 0x4b else if low == 13 then 0xbd else if low == 14 then 0x8b else 0x8a
  }

  function RowD(low: bv8): bv8 {
    if low == 0 then 0x70 else if low == 1 then 0x3e else if low == 2 then 0xb5 else if low == 3 then 0x66 else
    if low == 4 then 0x48 else if low == 5 then 0x03 else if low == 6 then 0xf6 else if low == 7 then 0x0e else
    if low == 8 then 0x61 else if low == 9 then 0x35 else if low == 10 then 0x57 else if low == 11 then 0xb9 else
    if low == 12 then 0x86 else if low == 13 then 0xc1 else if low == 14 then 0x1d else 0x9e
  }

  function RowE(low: bv8): bv8 {
    if low == 0 then 0xe1 else if low == 1 then 0xf8 else if low == 2 then 0x98 else if low == 3 then 0x11 else
    if low == 4 then 0x69 else if low == 5 then 0xd9 else if low == 6 then 0x8e else if low == 7 then 0x94 else
    if low == 8 then 0x9b else if low == 9 then 0x1e else if low == 10 then 0x87 else if low == 11 then 0xe9 else
    if low == 12 then 0xce else if low == 13 then 0x55 else if low == 14 then 0x28 else 0xdf
  }

  function RowF(low: bv8): bv8 {
    if low == 0 then 0x8c else if low == 1 then 0xa1 else if low == 2 then 0x89 else if low == 3 then 0x0d else
    if low == 4 then 0xbf else if low == 5 then 0xe6 else if low == 6 then 0x42 else if low == 7 then 0x68 else
    if low == 8 then 0x41 else if low == 9 then 0x99 else if low == 10 then 0x2d else if low == 11 then 0x0f else
    if low == 12 then 0xb0 else if low == 13 then 0x54 else if low == 14 then 0xbb else 0x16
  }

  function UpperHalf(high: bv8, low: bv8): bv8 {
    if high == 0 then Row0(low) else
    if high == 1 then Row1(low) else
    if high == 2 then Row2(low) else
    if high == 3 then Row3(low) else
    if high == 4 then Row4(low) else
    if high == 5 then Row5(low) else
    if high == 6 then Row6(low) else
    Row7(low)
  }

  function LowerHalf(high: bv8, low: bv8): bv8 {
    if high == 8 then Row8(low) else
    if high == 9 then Row9(low) else
    if high == 10 then RowA(low) else
    if high == 11 then RowB(low) else
    if high == 12 then RowC(low) else
    if high == 13 then RowD(low) else
    if high == 14 then RowE(low) else
    RowF(low)
  }

  function Sbox(b: bv8): bv8 {
    if b < 0x80 then UpperHalf(b >> 4, b & 0xF) else LowerHalf(b >> 4, b & 0xF)
  }

  // What the standard substitutes, and what undoes it: the inverse of the inverse.
  function Invert(b: bv8): bv8 { Back(Sbox(b)) }

  predicate Right(b: bv8, s: bv8) { Substitutes(b, s) && Invert(Back(s)) == b }

  lemma Row0Substitutes(low: bv8)
    requires low <= 15
    ensures Substitutes(0x00 | low, Row0(low))
  {
  }

  lemma Row0Undone(low: bv8)
    requires low <= 15
    ensures Invert(Back(Row0(low))) == 0x00 | low
  {
    assert low < 8 ==> Invert(Back(Row0(low))) == 0x00 | low;
  }

  lemma Row1Substitutes(low: bv8)
    requires low <= 15
    ensures Substitutes(0x10 | low, Row1(low))
  {
  }

  lemma Row1Undone(low: bv8)
    requires low <= 15
    ensures Invert(Back(Row1(low))) == 0x10 | low
  {
    assert low < 8 ==> Invert(Back(Row1(low))) == 0x10 | low;
  }

  lemma Row2Substitutes(low: bv8)
    requires low <= 15
    ensures Substitutes(0x20 | low, Row2(low))
  {
  }

  lemma Row2Undone(low: bv8)
    requires low <= 15
    ensures Invert(Back(Row2(low))) == 0x20 | low
  {
    assert low < 8 ==> Invert(Back(Row2(low))) == 0x20 | low;
  }

  lemma Row3Substitutes(low: bv8)
    requires low <= 15
    ensures Substitutes(0x30 | low, Row3(low))
  {
  }

  lemma Row3Undone(low: bv8)
    requires low <= 15
    ensures Invert(Back(Row3(low))) == 0x30 | low
  {
    assert low < 8 ==> Invert(Back(Row3(low))) == 0x30 | low;
  }

  lemma Row4Substitutes(low: bv8)
    requires low <= 15
    ensures Substitutes(0x40 | low, Row4(low))
  {
  }

  lemma Row4Undone(low: bv8)
    requires low <= 15
    ensures Invert(Back(Row4(low))) == 0x40 | low
  {
    assert low < 8 ==> Invert(Back(Row4(low))) == 0x40 | low;
  }

  lemma Row5Substitutes(low: bv8)
    requires low <= 15
    ensures Substitutes(0x50 | low, Row5(low))
  {
  }

  lemma Row5Undone(low: bv8)
    requires low <= 15
    ensures Invert(Back(Row5(low))) == 0x50 | low
  {
    assert low < 8 ==> Invert(Back(Row5(low))) == 0x50 | low;
  }

  lemma Row6Substitutes(low: bv8)
    requires low <= 15
    ensures Substitutes(0x60 | low, Row6(low))
  {
  }

  lemma Row6Undone(low: bv8)
    requires low <= 15
    ensures Invert(Back(Row6(low))) == 0x60 | low
  {
    assert low < 8 ==> Invert(Back(Row6(low))) == 0x60 | low;
  }

  lemma Row7Substitutes(low: bv8)
    requires low <= 15
    ensures Substitutes(0x70 | low, Row7(low))
  {
  }

  lemma Row7Undone(low: bv8)
    requires low <= 15
    ensures Invert(Back(Row7(low))) == 0x70 | low
  {
    assert low < 8 ==> Invert(Back(Row7(low))) == 0x70 | low;
  }

  lemma Row8Substitutes(low: bv8)
    requires low <= 15
    ensures Substitutes(0x80 | low, Row8(low))
  {
  }

  lemma Row8Undone(low: bv8)
    requires low <= 15
    ensures Invert(Back(Row8(low))) == 0x80 | low
  {
    assert low < 8 ==> Invert(Back(Row8(low))) == 0x80 | low;
  }

  lemma Row9Substitutes(low: bv8)
    requires low <= 15
    ensures Substitutes(0x90 | low, Row9(low))
  {
  }

  lemma Row9Undone(low: bv8)
    requires low <= 15
    ensures Invert(Back(Row9(low))) == 0x90 | low
  {
    assert low < 8 ==> Invert(Back(Row9(low))) == 0x90 | low;
  }

  lemma RowASubstitutes(low: bv8)
    requires low <= 15
    ensures Substitutes(0xA0 | low, RowA(low))
  {
  }

  lemma RowAUndone(low: bv8)
    requires low <= 15
    ensures Invert(Back(RowA(low))) == 0xA0 | low
  {
    assert low < 8 ==> Invert(Back(RowA(low))) == 0xA0 | low;
  }

  lemma RowBSubstitutes(low: bv8)
    requires low <= 15
    ensures Substitutes(0xB0 | low, RowB(low))
  {
  }

  lemma RowBUndone(low: bv8)
    requires low <= 15
    ensures Invert(Back(RowB(low))) == 0xB0 | low
  {
    assert low < 8 ==> Invert(Back(RowB(low))) == 0xB0 | low;
  }

  lemma RowCSubstitutes(low: bv8)
    requires low <= 15
    ensures Substitutes(0xC0 | low, RowC(low))
  {
  }

  lemma RowCUndone(low: bv8)
    requires low <= 15
    ensures Invert(Back(RowC(low))) == 0xC0 | low
  {
    assert low < 8 ==> Invert(Back(RowC(low))) == 0xC0 | low;
  }

  lemma RowDSubstitutes(low: bv8)
    requires low <= 15
    ensures Substitutes(0xD0 | low, RowD(low))
  {
  }

  lemma RowDUndone(low: bv8)
    requires low <= 15
    ensures Invert(Back(RowD(low))) == 0xD0 | low
  {
    assert low < 8 ==> Invert(Back(RowD(low))) == 0xD0 | low;
  }

  lemma RowESubstitutes(low: bv8)
    requires low <= 15
    ensures Substitutes(0xE0 | low, RowE(low))
  {
  }

  lemma RowEUndone(low: bv8)
    requires low <= 15
    ensures Invert(Back(RowE(low))) == 0xE0 | low
  {
    assert low < 8 ==> Invert(Back(RowE(low))) == 0xE0 | low;
  }

  lemma RowFSubstitutes(low: bv8)
    requires low <= 15
    ensures Substitutes(0xF0 | low, RowF(low))
  {
  }

  lemma RowFUndone(low: bv8)
    requires low <= 15
    ensures Invert(Back(RowF(low))) == 0xF0 | low
  {
    assert low < 8 ==> Invert(Back(RowF(low))) == 0xF0 | low;
  }

  lemma Nibbles(b: bv8)
    ensures ((b >> 4) << 4) | (b & 0xF) == b && b >> 4 <= 15 && b & 0xF <= 15 && (b < 0x80 <==> b >> 4 < 8)
  {
  }

  lemma UpperRight(high: bv8, low: bv8)
    requires high < 8 && low <= 15
    ensures Right((high << 4) | low, UpperHalf(high, low))
  {
    if high == 0 {
      Row0Substitutes(low);
      Row0Undone(low);
    } else if high == 1 {
      Row1Substitutes(low);
      Row1Undone(low);
    } else if high == 2 {
      Row2Substitutes(low);
      Row2Undone(low);
    } else if high == 3 {
      Row3Substitutes(low);
      Row3Undone(low);
    } else if high == 4 {
      Row4Substitutes(low);
      Row4Undone(low);
    } else if high == 5 {
      Row5Substitutes(low);
      Row5Undone(low);
    } else if high == 6 {
      Row6Substitutes(low);
      Row6Undone(low);
    } else {
      Row7Substitutes(low);
      Row7Undone(low);
    }
  }

  lemma LowerRight(high: bv8, low: bv8)
    requires 8 <= high <= 15 && low <= 15
    ensures Right((high << 4) | low, LowerHalf(high, low))
  {
    if high == 8 {
      Row8Substitutes(low);
      Row8Undone(low);
    } else if high == 9 {
      Row9Substitutes(low);
      Row9Undone(low);
    } else if high == 10 {
      RowASubstitutes(low);
      RowAUndone(low);
    } else if high == 11 {
      RowBSubstitutes(low);
      RowBUndone(low);
    } else if high == 12 {
      RowCSubstitutes(low);
      RowCUndone(low);
    } else if high == 13 {
      RowDSubstitutes(low);
      RowDUndone(low);
    } else if high == 14 {
      RowESubstitutes(low);
      RowEUndone(low);
    } else {
      RowFSubstitutes(low);
      RowFUndone(low);
    }
  }

  lemma SboxRight(b: bv8)
    ensures Right(b, Sbox(b))
  {
    Nibbles(b);
    if b < 0x80 {
      UpperRight(b >> 4, b & 0xF);
    } else {
      LowerRight(b >> 4, b & 0xF);
    }
  }

  // ---------- a permutation of the bytes ----------

  // The table has what the standard substitutes, and every byte s is substituted for exactly one byte.
  lemma SboxIsPermutation(b: bv8, s: bv8)
    ensures Substitutes(b, Sbox(b))
    ensures Sbox(b) == s <==> b == Invert(Back(s))
  {
    SboxRight(b);
    SboxRight(Back(s));
    AffineBack(s, 0);
    if b == Invert(Back(s)) {
      AffineBack(Sbox(b), 0);
    }
  }

  // ---------- the round constants ----------

  // Those that a key expansion reads are entries 1 to 10.
  const RCON: seq<bv8> := [0x8d, 0x01, 0x02, 0x04, 0x08, 0x10, 0x20, 0x40, 0x80, 0x1b, 0x36]

  // The first is one, and each is the double of the one before it.
  lemma RconDoubles(i: nat)
    requires 1 <= i < 10
    ensures RCON[1] == 1 && RCON[i + 1] == Double(RCON[i])
  {
  }

  const AES: Tables := Tables(Sbox, RCON)

  // With these tables: no wrong bit exactly if the words are the key expansion of section 5.2.
  lemma PerfectAesSchedule(nk: nat, words: seq<Word>, n: nat)
    requires (nk == 4 || nk == 8) && nk <= n <= |words|
    ensures Complete(AES)
    ensures ScheduleDistance(AES, nk, words, n) == 0 <==> words[..n] == Expand(KeyExpansion(AES, nk), words[..nk], n)
  {
    PerfectSchedule(AES, nk, words, n);
  }
}
