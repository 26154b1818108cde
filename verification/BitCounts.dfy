// Counting the set bits of a 64-bit word in parallel.
module BitCounts {

  // The masks m1, m2 and m4 keep every other bit, pair of bits and four bits; h01 is the sum of the
  // powers of 256. They are written out where they are used.

  // The counts of pairs, of fours, of bytes.
  function Pairs(x: bv64): bv64 { x - ((x >> 1) & 0x5555_5555_5555_5555) }

  function Fours(x: bv64): bv64 { (x & 0x3333_3333_3333_3333) + ((x >> 2) & 0x3333_3333_3333_3333) }

  function Bytes(x: bv64): bv64 { (x + (x >> 4)) & 0x0f0f_0f0f_0f0f_0f0f }

  function ByteCounts(x: bv64): bv64 { Bytes(Fours(Pairs(x))) }

  // The highest byte of the product is the sum of all bytes.
  function ByteTotal(x: bv64): bv64 { (x * 0x0101_0101_0101_0101) >> 56 }

  function Popcount(x: bv64): bv64 {
    ByteTotal(ByteCounts(x))
  }

  // The number of set bits.
  function Ones(x: bv64): nat
    decreases x
  {
    if x == 0 then 0
    else
      assert (x >> 1) < x;
      (if x & 1 == 1 then 1 else 0) + Ones(x >> 1)
  }

  function Bit(x: bv64): nat { if x & 1 == 1 then 1 else 0 }

  // ---------- counts of bytes ----------

  function ByteSum(v: bv64): bv64 {
    (v & 1) + ((v >> 1) & 1) + ((v >> 2) & 1) + ((v >> 3) & 1) + ((v >> 4) & 1) + ((v >> 5) & 1) + ((v >> 6) & 1) + ((v >> 7) & 1)
  }

  lemma Count0(x: bv64)
    ensures ByteCounts(x) & 0xFF == ByteSum(x & 0xFF)
  {
  }

  lemma Count1(x: bv64)
    ensures (ByteCounts(x) >> 8) & 0xFF == ByteSum((x >> 8) & 0xFF)
  {
  }

  lemma Count2(x: bv64)
    ensures (ByteCounts(x) >> 16) & 0xFF == ByteSum((x >> 16) & 0xFF)
  {
  }

  lemma Count3(x: bv64)
    ensures (ByteCounts(x) >> 24) & 0xFF == ByteSum((x >> 24) & 0xFF)
  {
  }

  lemma Count4(x: bv64)
    ensures (ByteCounts(x) >> 32) & 0xFF == ByteSum((x >> 32) & 0xFF)
  {
  }

  lemma Count5(x: bv64)
    ensures (ByteCounts(x) >> 40) & 0xFF == ByteSum((x >> 40) & 0xFF)
  {
  }

  lemma Count6(x: bv64)
    ensures (ByteCounts(x) >> 48) & 0xFF == ByteSum((x >> 48) & 0xFF)
  {
  }

  lemma Count7(x: bv64)
    ensures (ByteCounts(x) >> 56) & 0xFF == ByteSum((x >> 56) & 0xFF)
  {
  }

  lemma SmallCounts(x: bv64)
    ensures ByteCounts(x) & 0xF0F0_F0F0_F0F0_F0F0 == 0
  {
  }

  // ---------- the multiplication adds the bytes up ----------

  lemma DoubledBytes(c: bv64)
    requires c & 0xF0F0_F0F0_F0F0_F0F0 == 0
    ensures var a := c * 0x101;
            && a & 0xE0E0_E0E0_E0E0_E0E0 == 0
            && (a >> 56) & 0xFF == ((c >> 56) & 0xFF) + ((c >> 48) & 0xFF) && (a >> 40) & 0xFF == ((c >> 40) & 0xFF) + ((c >> 32) & 0xFF)
            && (a >> 24) & 0xFF == ((c >> 24) & 0xFF) + ((c >> 16) & 0xFF) && (a >> 8) & 0xFF == ((c >> 8) & 0xFF) + (c & 0xFF)
  {
  }

  lemma QuadrupledBytes(c: bv64)
    requires c & 0xF0F0_F0F0_F0F0_F0F0 == 0
    ensures var a, b := c * 0x101, c * 0x0101_0101;
            && (b >> 56) & 0xFF == ((a >> 56) & 0xFF) + ((a >> 40) & 0xFF) && (b >> 24) & 0xFF == ((a >> 24) & 0xFF) + ((a >> 8) & 0xFF)
  {
  }

  lemma TopOfProduct(c: bv64)
    ensures TopOf(c * 0x0101_0101) == (c * 0x0101_0101_0101_0101) >> 56
  {
  }

  function TopOf(b: bv64): bv64 { (b * 0x1_0000_0001) >> 56 }

  lemma QuadrupledSmall(c: bv64)
    requires c & 0xF0F0_F0F0_F0F0_F0F0 == 0
    ensures (c * 0x0101_0101) & 0xC0C0_C0C0_C0C0_C0C0 == 0
  {
  }

  lemma TopOfSum(b: bv64)
    requires b & 0xC0C0_C0C0_C0C0_C0C0 == 0
    ensures TopOf(b) == ((b >> 56) & 0xFF) + ((b >> 24) & 0xFF)
  {
  }

  // ---------- small words as numbers ----------

  // The number a word stands for, counted down.
  function Number(x: bv64): nat
    decreases x
  {
    if x == 0 then 0
    else
      assert x - 1 < x;
      Number(x - 1) + 1
  }

  lemma Predecessors(a: bv64, b: bv64)
    requires a <= 63 && 0 < b <= 63
    ensures (a + b) - 1 == a + (b - 1) && a + b != 0 && b - 1 < b
  {
  }

  lemma {:induction false} AddSmall(a: bv64, b: bv64, s: bv64)
    requires a <= 63 && b <= 63 && s == a + b
    ensures Number(s) == Number(a) + Number(b)
    decreases b
  {
    if b == 0 {
      assert a + 0 == a;
    } else {
      Predecessors(a, b);
      AddSmall(a, b - 1, a + (b - 1));
    }
  }

  // ---------- the product's highest byte is the sum of the bytes ----------

  function B0(x: bv64): nat { Number((x >> 0) & 0xFF) }

  function B1(x: bv64): nat { Number((x >> 8) & 0xFF) }

  function B2(x: bv64): nat { Number((x >> 16) & 0xFF) }

  function B3(x: bv64): nat { Number((x >> 24) & 0xFF) }

  function B4(x: bv64): nat { Number((x >> 32) & 0xFF) }

  function B5(x: bv64): nat { Number((x >> 40) & 0xFF) }

  function B6(x: bv64): nat { Number((x >> 48) & 0xFF) }

  function B7(x: bv64): nat { Number((x >> 56) & 0xFF) }

  ghost predicate Small(c: bv64, top: bv64) {
    && c & 0xFF <= top && (c >> 8) & 0xFF <= top && (c >> 16) & 0xFF <= top && (c >> 24) & 0xFF <= top
    && (c >> 32) & 0xFF <= top && (c >> 40) & 0xFF <= top && (c >> 48) & 0xFF <= top && (c >> 56) & 0xFF <= top
  }

  lemma BytesSmall(c: bv64)
    ensures c & 0xF0F0_F0F0_F0F0_F0F0 == 0 ==> Small(c, 15)
    ensures c & 0xE0E0_E0E0_E0E0_E0E0 == 0 ==> Small(c, 31)
  {
  }

  // Lemmas without products in them: a and c are any words so related.
  lemma DoubledHigh(a: bv64, c: bv64)
    requires Small(c, 15)
    requires (a >> 56) & 0xFF == ((c >> 56) & 0xFF) + ((c >> 48) & 0xFF) && (a >> 40) & 0xFF == ((c >> 40) & 0xFF) + ((c >> 32) & 0xFF)
    ensures B7(a) == B7(c) + B6(c) && B5(a) == B5(c) + B4(c)
  {
    assert B7(a) == B7(c) + B6(c) by { AddSmall((c >> 56) & 0xFF, (c >> 48) & 0xFF, (a >> 56) & 0xFF); }
    assert B5(a) == B5(c) + B4(c) by { AddSmall((c >> 40) & 0xFF, (c >> 32) & 0xFF, (a >> 40) & 0xFF); }
  }

  lemma DoubledLow(a: bv64, c: bv64)
    requires Small(c, 15)
    requires (a >> 24) & 0xFF == ((c >> 24) & 0xFF) + ((c >> 16) & 0xFF) && (a >> 8) & 0xFF == ((c >> 8) & 0xFF) + (c & 0xFF)
    ensures B3(a) == B3(c) + B2(c) && B1(a) == B1(c) + B0(c)
  {
    assert B3(a) == B3(c) + B2(c) by { AddSmall((c >> 24) & 0xFF, (c >> 16) & 0xFF, (a >> 24) & 0xFF); }
    assert B1(a) == B1(c) + B0(c) by { AddSmall((c >> 8) & 0xFF, (c >> 0) & 0xFF, (a >> 8) & 0xFF); }
  }

  lemma QuadrupledSums(b: bv64, a: bv64)
    requires Small(a, 31)
    requires (b >> 56) & 0xFF == ((a >> 56) & 0xFF) + ((a >> 40) & 0xFF) && (b >> 24) & 0xFF == ((a >> 24) & 0xFF) + ((a >> 8) & 0xFF)
    ensures B7(b) == B7(a) + B5(a) && B3(b) == B3(a) + B1(a)
  {
    assert B7(b) == B7(a) + B5(a) by { AddSmall((a >> 56) & 0xFF, (a >> 40) & 0xFF, (b >> 56) & 0xFF); }
    assert B3(b) == B3(a) + B1(a) by { AddSmall((a >> 24) & 0xFF, (a >> 8) & 0xFF, (b >> 24) & 0xFF); }
  }

  // c's bytes added up in pairs make a, a's make b, b's make p.
  lemma SumsAddUp(c: bv64, a: bv64, b: bv64, p: bv64)
    requires B7(a) == B7(c) + B6(c) && B5(a) == B5(c) + B4(c) && B3(a) == B3(c) + B2(c) && B1(a) == B1(c) + B0(c)
    requires B7(b) == B7(a) + B5(a) && B3(b) == B3(a) + B1(a)
    requires Number(p) == B7(b) + B3(b)
    ensures Number(p) == B0(c) + B1(c) + B2(c) + B3(c) + B4(c) + B5(c) + B6(c) + B7(c)
  {
  }

  lemma DoubledNumbers(c: bv64)
    requires c & 0xF0F0_F0F0_F0F0_F0F0 == 0
    ensures var a := c * 0x101;
            && a & 0xE0E0_E0E0_E0E0_E0E0 == 0
            && B7(a) == B7(c) + B6(c) && B5(a) == B5(c) + B4(c) && B3(a) == B3(c) + B2(c) && B1(a) == B1(c) + B0(c)
  {
    DoubledBytes(c);
    BytesSmall(c);
    DoubledHigh(c * 0x101, c);
    DoubledLow(c * 0x101, c);
  }

  lemma QuadrupledNumbers(c: bv64)
    requires c & 0xF0F0_F0F0_F0F0_F0F0 == 0
    ensures var a, b := c * 0x101, c * 0x0101_0101; B7(b) == B7(a) + B5(a) && B3(b) == B3(a) + B1(a)
  {
    DoubledBytes(c);
    BytesSmall(c * 0x101);
    QuadrupledBytes(c);
    QuadrupledSums(c * 0x0101_0101, c * 0x101);
  }

  lemma TopSum(b: bv64)
    requires b & 0xC0C0_C0C0_C0C0_C0C0 == 0
    ensures Number(TopOf(b)) == B7(b) + B3(b)
  {
    TopOfSum(b);
    AddSmall((b >> 56) & 0xFF, (b >> 24) & 0xFF, TopOf(b));
  }

  lemma TopNumber(c: bv64)
    requires c & 0xF0F0_F0F0_F0F0_F0F0 == 0
    ensures var b := c * 0x0101_0101; Number((c * 0x0101_0101_0101_0101) >> 56) == B7(b) + B3(b)
  {
    TopOfProduct(c);
    QuadrupledSmall(c);
    TopSum(c * 0x0101_0101);
  }

  lemma BytesAddUp(c: bv64)
    requires c & 0xF0F0_F0F0_F0F0_F0F0 == 0
    ensures Number((c * 0x0101_0101_0101_0101) >> 56) == B0(c) + B1(c) + B2(c) + B3(c) + B4(c) + B5(c) + B6(c) + B7(c)
  {
    DoubledNumbers(c);
    QuadrupledNumbers(c);
    TopNumber(c);
    SumsAddUp(c, c * 0x101, c * 0x0101_0101, (c * 0x0101_0101_0101_0101) >> 56);
  }

  // With all bytes below 16 the product's highest byte is their sum.
  lemma TotalIsSum(c: bv64)
    requires c & 0xF0F0_F0F0_F0F0_F0F0 == 0
    ensures Number(ByteTotal(c)) == B0(c) + B1(c) + B2(c) + B3(c) + B4(c) + B5(c) + B6(c) + B7(c)
  {
    BytesAddUp(c);
  }

  // ---------- every byte counts its bits ----------

  lemma AddBit(a: bv64, v: bv64, s: bv64)
    requires a <= 62 && s == a + (v & 1)
    ensures Number(s) == Number(a) + Bit(v) && s <= a + 1
  {
    BitNumber(v);
    AddSmall(a, v & 1, s);
  }

  lemma BitNumber(v: bv64)
    ensures Number(v & 1) == Bit(v) && v & 1 <= 1 && (v & 1) & 1 == v & 1
  {
    if v & 1 == 1 {
      assert Number(1) == Number(1 - 1) + 1;
    }
  }

  function OnesOfByte(v: bv64): nat {
    Bit(v) + Bit(v >> 1) + Bit(v >> 2) + Bit(v >> 3) + Bit(v >> 4) + Bit(v >> 5) + Bit(v >> 6) + Bit(v >> 7)
  }

  lemma HalfSum(v: bv64, s: bv64)
    requires s == (v & 1) + ((v >> 1) & 1) + ((v >> 2) & 1) + ((v >> 3) & 1)
    ensures Number(s) == Bit(v) + Bit(v >> 1) + Bit(v >> 2) + Bit(v >> 3) && s <= 4
  {
    var s1 := v & 1;
    BitNumber(v);
    var s2 := s1 + ((v >> 1) & 1);
    AddBit(s1, v >> 1, s2);
    var s3 := s2 + ((v >> 2) & 1);
    AddBit(s2, v >> 2, s3);
    AddBit(s3, v >> 3, s);
  }

  lemma TwoBits(p: bv64, q: bv64, a: bv64, s: bv64)
    requires a <= 6 && s == a + (p & 1) + (q & 1)
    ensures Number(s) == Number(a) + Bit(p) + Bit(q) && s <= a + 2
  {
    var s1 := a + (p & 1);
    AddBit(a, p, s1);
    AddBit(s1, q, s);
  }

  lemma ByteSumOnes(v: bv64)
    ensures Number(ByteSum(v)) == OnesOfByte(v)
  {
    var s4 := (v & 1) + ((v >> 1) & 1) + ((v >> 2) & 1) + ((v >> 3) & 1);
    HalfSum(v, s4);
    var s6 := s4 + ((v >> 4) & 1) + ((v >> 5) & 1);
    TwoBits(v >> 4, v >> 5, s4, s6);
    TwoBits(v >> 6, v >> 7, s6, s6 + ((v >> 6) & 1) + ((v >> 7) & 1));
  }

  lemma Step0(x: bv64)
    ensures Ones(x) == Bit(x) + Ones(x >> 1)
  {
  }

  lemma Step1(x: bv64)
    ensures Ones(x >> 1) == Bit(x >> 1) + Ones(x >> 2)
  {
  }

  lemma Step2(x: bv64)
    ensures Ones(x >> 2) == Bit(x >> 2) + Ones(x >> 3)
  {
  }

  lemma Step3(x: bv64)
    ensures Ones(x >> 3) == Bit(x >> 3) + Ones(x >> 4)
  {
  }

  lemma Step4(x: bv64)
    ensures Ones(x >> 4) == Bit(x >> 4) + Ones(x >> 5)
  {
  }

  lemma Step5(x: bv64)
    ensures Ones(x >> 5) == Bit(x >> 5) + Ones(x >> 6)
  {
  }

  lemma Step6(x: bv64)
    ensures Ones(x >> 6) == Bit(x >> 6) + Ones(x >> 7)
  {
  }

  lemma Step7(x: bv64)
    ensures Ones(x >> 7) == Bit(x >> 7) + Ones(x >> 8)
  {
  }

  lemma LowBits(x: bv64)
    ensures OnesOfByte(x & 0xFF) == OnesOfByte(x)
  {
  }

  lemma OnesOfFour(x: bv64)
    ensures Ones(x) == Bit(x) + Bit(x >> 1) + Bit(x >> 2) + Bit(x >> 3) + Ones(x >> 4)
  {
    Step0(x);
    Step1(x);
    Step2(x);
    Step3(x);
  }

  lemma OnesOfNextFour(x: bv64)
    ensures Ones(x >> 4) == Bit(x >> 4) + Bit(x >> 5) + Bit(x >> 6) + Bit(x >> 7) + Ones(x >> 8)
  {
    Step4(x);
    Step5(x);
    Step6(x);
    Step7(x);
  }

  lemma OnesOfEight(x: bv64, y: bv64)
    requires y == x >> 8
    ensures Ones(x) == OnesOfByte(x) + Ones(y)
  {
    OnesOfFour(x);
    OnesOfNextFour(x);
  }

  // The lowest byte's bits and the others.
  lemma OnesOfBytes(x: bv64, y: bv64)
    requires y == x >> 8
    ensures OnesOfByte(x & 0xFF) == Ones(x & 0xFF) && Ones(x) == Ones(x & 0xFF) + Ones(y)
  {
    OnesOfEight(x, y);
    OnesOfEight(x & 0xFF, 0);
    LowBits(x);
  }

  lemma OnesAt0(x: bv64)
    ensures Ones(x) == Ones(x & 0xFF) + Ones(x >> 8)
  {
    OnesOfBytes(x, x >> 8);
  }

  lemma OnesAt1(x: bv64)
    ensures Ones(x >> 8) == Ones((x >> 8) & 0xFF) + Ones(x >> 16)
  {
    OnesOfBytes(x >> 8, x >> 16);
  }

  lemma OnesAt2(x: bv64)
    ensures Ones(x >> 16) == Ones((x >> 16) & 0xFF) + Ones(x >> 24)
  {
    OnesOfBytes(x >> 16, x >> 24);
  }

  lemma OnesAt3(x: bv64)
    ensures Ones(x >> 24) == Ones((x >> 24) & 0xFF) + Ones(x >> 32)
  {
    OnesOfBytes(x >> 24, x >> 32);
  }

  lemma OnesAt4(x: bv64)
    ensures Ones(x >> 32) == Ones((x >> 32) & 0xFF) + Ones(x >> 40)
  {
    OnesOfBytes(x >> 32, x >> 40);
  }

  lemma OnesAt5(x: bv64)
    ensures Ones(x >> 40) == Ones((x >> 40) & 0xFF) + Ones(x >> 48)
  {
    OnesOfBytes(x >> 40, x >> 48);
  }

  lemma OnesAt6(x: bv64)
    ensures Ones(x >> 48) == Ones((x >> 48) & 0xFF) + Ones(x >> 56)
  {
    OnesOfBytes(x >> 48, x >> 56);
  }

  lemma OnesAt7(x: bv64)
    ensures Ones(x >> 56) == Ones((x >> 56) & 0xFF) + Ones(0)
  {
    OnesOfBytes(x >> 56, 0);
  }

  lemma OnesOfWord(x: bv64)
    ensures Ones(x) ==
            Ones(x & 0xFF) + Ones((x >> 8) & 0xFF) + Ones((x >> 16) & 0xFF) + Ones((x >> 24) & 0xFF)
            + Ones((x >> 32) & 0xFF) + Ones((x >> 40) & 0xFF) + Ones((x >> 48) & 0xFF) + Ones((x >> 56) & 0xFF)
  {
    OnesAt0(x);
    OnesAt1(x);
    OnesAt2(x);
    OnesAt3(x);
    OnesAt4(x);
    OnesAt5(x);
    OnesAt6(x);
    OnesAt7(x);
  }

  lemma CountNumber0(x: bv64)
    ensures B0(ByteCounts(x)) == Ones(x & 0xFF)
  {
    Count0(x);
    ByteSumOnes(x & 0xFF);
    OnesOfBytes(x, x >> 8);
  }

  lemma CountNumber1(x: bv64)
    ensures B1(ByteCounts(x)) == Ones((x >> 8) & 0xFF)
  {
    Count1(x);
    ByteSumOnes((x >> 8) & 0xFF);
    OnesOfBytes(x >> 8, x >> 16);
  }

  lemma CountNumber2(x: bv64)
    ensures B2(ByteCounts(x)) == Ones((x >> 16) & 0xFF)
  {
    Count2(x);
    ByteSumOnes((x >> 16) & 0xFF);
    OnesOfBytes(x >> 16, x >> 24);
  }

  lemma CountNumber3(x: bv64)
    ensures B3(ByteCounts(x)) == Ones((x >> 24) & 0xFF)
  {
    Count3(x);
    ByteSumOnes((x >> 24) & 0xFF);
    OnesOfBytes(x >> 24, x >> 32);
  }

  lemma CountNumber4(x: bv64)
    ensures B4(ByteCounts(x)) == Ones((x >> 32) & 0xFF)
  {
    Count4(x);
    ByteSumOnes((x >> 32) & 0xFF);
    OnesOfBytes(x >> 32, x >> 40);
  }

  lemma CountNumber5(x: bv64)
    ensures B5(ByteCounts(x)) == Ones((x >> 40) & 0xFF)
  {
    Count5(x);
    ByteSumOnes((x >> 40) & 0xFF);
    OnesOfBytes(x >> 40, x >> 48);
  }

  lemma CountNumber6(x: bv64)
    ensures B6(ByteCounts(x)) == Ones((x >> 48) & 0xFF)
  {
    Count6(x);
    ByteSumOnes((x >> 48) & 0xFF);
    OnesOfBytes(x >> 48, x >> 56);
  }

  lemma CountNumber7(x: bv64)
    ensures B7(ByteCounts(x)) == Ones((x >> 56) & 0xFF)
  {
    Count7(x);
    ByteSumOnes((x >> 56) & 0xFF);
    OnesOfBytes(x >> 56, 0);
  }

  lemma {:induction false} NumberIsValue(x: bv64)
    requires x <= 127
    ensures Number(x) == x as nat
    decreases x
  {
    if x != 0 {
      NumberIsValue(x - 1);
      Increment(x - 1, x);
    }
  }

  lemma Increment(b: bv64, b1: bv64)
    requires b < 127 && b1 == b + 1
    ensures b1 as nat == b as nat + 1
  {
  }

  // c's bytes count the bits of x's bytes, and p is their sum.
  lemma CountsAddUp(x: bv64, c: bv64, p: bv64)
    requires Number(p) == B0(c) + B1(c) + B2(c) + B3(c) + B4(c) + B5(c) + B6(c) + B7(c)
    requires B0(c) == Ones(x & 0xFF) && B1(c) == Ones((x >> 8) & 0xFF) && B2(c) == Ones((x >> 16) & 0xFF) && B3(c) == Ones((x >> 24) & 0xFF)
    requires B4(c) == Ones((x >> 32) & 0xFF) && B5(c) == Ones((x >> 40) & 0xFF) && B6(c) == Ones((x >> 48) & 0xFF) && B7(c) == Ones((x >> 56) & 0xFF)
    ensures Number(p) == Ones(x)
  {
    OnesOfWord(x);
  }

  lemma PopcountNumber(x: bv64)
    ensures Number(Popcount(x)) == Ones(x)
  {
    SmallCounts(x);
    TotalIsSum(ByteCounts(x));
    CountNumber0(x);
    CountNumber1(x);
    CountNumber2(x);
    CountNumber3(x);
    CountNumber4(x);
    CountNumber5(x);
    CountNumber6(x);
    CountNumber7(x);
    CountsAddUp(x, ByteCounts(x), Popcount(x));
  }

  // The parallel count is the number of set bits, for every word.
  lemma PopcountCounts(x: bv64)
    ensures Popcount(x) as nat == Ones(x)
  {
    PopcountNumber(x);
    PopcountSmall(x);
    NumberIsValue(Popcount(x));
  }

  lemma PopcountSmall(x: bv64)
    ensures Popcount(x) <= 127
  {
    SmallCounts(x);
  }

  // Only the zero word has no set bit.
  lemma {:induction false} NoOnes(x: bv64)
    ensures Ones(x) == 0 <==> x == 0
    decreases x
  {
    if x != 0 && x & 1 != 1 {
      assert x >> 1 < x && x >> 1 != 0;
      NoOnes(x >> 1);
    }
  }
}
