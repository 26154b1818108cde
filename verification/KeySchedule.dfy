// Words of an AES key schedule: bytes, rotation, S-box and round constants as in section 5.2 of
// FIPS 197, in words whose first byte is the lowest, and the program's versions of them.
module KeySchedule {
  type Word = bv32

  // The tables of the S-box, with an entry for every byte, and of the round constants.
  datatype Tables = Tables(sbox: bv8 -> bv8, rcon: seq<bv8>)

  ghost predicate Complete(t: Tables) {
    |t.rcon| >= 11
  }

  // ---------- bytes of a word ----------

  function Get0(w: Word): bv8 { (w & 0xFF) as bv8 }

  function Get1(w: Word): bv8 { ((w >> 8) & 0xFF) as bv8 }

  function Get2(w: Word): bv8 { ((w >> 16) & 0xFF) as bv8 }

  function Get3(w: Word): bv8 { ((w >> 24) & 0xFF) as bv8 }

  function Set0(w: Word, val: bv8): Word { (w & 0xFFFF_FF00) | (val as Word) }

  function Set1(w: Word, val: bv8): Word { (w & 0xFFFF_00FF) | ((val as Word) << 8) }

  function Set2(w: Word, val: bv8): Word { (w & 0xFF00_FFFF) | ((val as Word) << 16) }

  function Set3(w: Word, val: bv8): Word { (w & 0x00FF_FFFF) | ((val as Word) << 24) }

  // Byte n, the lowest being byte 0.
  function GetByte(w: Word, n: nat): bv8
    requires n < 4
  {
    if n == 0 then Get0(w) else if n == 1 then Get1(w) else if n == 2 then Get2(w) else Get3(w)
  }

  function SetByte(w: Word, n: nat, val: bv8): Word
    requires n < 4
  {
    if n == 0 then Set0(w, val) else if n == 1 then Set1(w, val) else if n == 2 then Set2(w, val) else Set3(w, val)
  }

  lemma GetSet0(w: Word, val: bv8)
    ensures Get0(Set0(w, val)) == val && Get1(Set0(w, val)) == Get1(w) && Get2(Set0(w, val)) == Get2(w) && Get3(Set0(w, val)) == Get3(w)
  {
  }

  lemma GetSet1(w: Word, val: bv8)
    ensures Get0(Set1(w, val)) == Get0(w) && Get1(Set1(w, val)) == val && Get2(Set1(w, val)) == Get2(w) && Get3(Set1(w, val)) == Get3(w)
  {
  }

  lemma GetSet2(w: Word, val: bv8)
    ensures Get0(Set2(w, val)) == Get0(w) && Get1(Set2(w, val)) == Get1(w) && Get2(Set2(w, val)) == val && Get3(Set2(w, val)) == Get3(w)
  {
  }

  lemma GetSet3(w: Word, val: bv8)
    ensures Get0(Set3(w, val)) == Get0(w) && Get1(Set3(w, val)) == Get1(w) && Get2(Set3(w, val)) == Get2(w) && Get3(Set3(w, val)) == val
  {
  }

  // A byte that was set is there, and the others are as before.
  lemma GetSet(w: Word, n: nat, val: bv8, m: nat)
    requires n < 4 && m < 4
    ensures GetByte(SetByte(w, n, val), m) == if m == n then val else GetByte(w, m)
  {
    if n == 0 {
      GetSet0(w, val);
    } else if n == 1 {
      GetSet1(w, val);
    } else if n == 2 {
      GetSet2(w, val);
    } else {
      GetSet3(w, val);
    }
  }

  lemma WordIsBytes(v: Word, w: Word)
    ensures Get0(v) == Get0(w) && Get1(v) == Get1(w) && Get2(v) == Get2(w) && Get3(v) == Get3(w) ==> v == w
  {
  }

  function FromBytes(b0: bv8, b1: bv8, b2: bv8, b3: bv8): Word {
    Set3(Set2(Set1(Set0(0, b0), b1), b2), b3)
  }

  lemma FromBytesGet(b0: bv8, b1: bv8, b2: bv8, b3: bv8)
    ensures Get0(FromBytes(b0, b1, b2, b3)) == b0 && Get1(FromBytes(b0, b1, b2, b3)) == b1
    ensures Get2(FromBytes(b0, b1, b2, b3)) == b2 && Get3(FromBytes(b0, b1, b2, b3)) == b3
  {
    GetSet0(0, b0);
    GetSet1(Set0(0, b0), b1);
    GetSet2(Set1(Set0(0, b0), b1), b2);
    GetSet3(Set2(Set1(Set0(0, b0), b1), b2), b3);
  }

  // ---------- the functions of the standard ----------

  function Sub(t: Tables, b: bv8): bv8
  {
    t.sbox(b)
  }

  function SubWord(t: Tables, w: Word): Word
  {
    FromBytes(Sub(t, Get0(w)), Sub(t, Get1(w)), Sub(t, Get2(w)), Sub(t, Get3(w)))
  }

  // The first byte goes last.
  function RotWord(w: Word): Word {
    FromBytes(Get1(w), Get2(w), Get3(w), Get0(w))
  }

  function Rcon(t: Tables, i: nat): Word
    requires i < |t.rcon|
  {
    FromBytes(t.rcon[i], 0, 0, 0)
  }

  // What the standard does to the word before the first of a row.
  function Core(t: Tables, k: Word, i: nat): Word
    requires i < |t.rcon|
  {
    SubWord(t, RotWord(k)) ^ Rcon(t, i)
  }

  function Xor(v: Word, w: Word): Word { v ^ w }

  lemma XorLow(w: Word, r: bv8)
    ensures w ^ FromBytes(r, 0, 0, 0) == Set0(w, Get0(w) ^ r)
  {
  }

  // ---------- the program's versions ----------

  // Rotation, S-box and round constant on one word. Byte -1 of a word is its byte 3.
  method KeyCore(t: Tables, k: Word, i: nat) returns (r: Word)
    requires i < |t.rcon|
    ensures r == Core(t, k, i)
  {
    r := RotateBytes(t, k);
    CoreIs(t, k, i);
    r := SetByte(r, 0, GetByte(r, 0) ^ t.rcon[i]);
  }

  lemma CoreIs(t: Tables, k: Word, i: nat)
    requires i < |t.rcon|
    ensures var w := SubWord(t, RotWord(k)); SetByte(w, 0, GetByte(w, 0) ^ t.rcon[i]) == Core(t, k, i)
  {
    XorLow(SubWord(t, RotWord(k)), t.rcon[i]);
  }

  method RotateBytes(t: Tables, k: Word) returns (r: Word)
    ensures r == SubWord(t, RotWord(k))
  {
    r := 0;
    for j := 0 to 4
      invariant forall m :: 0 <= m < j ==> GetByte(r, (m + 3) % 4) == Sub(t, GetByte(k, m))
    {
      var val := t.sbox(GetByte(k, j));
      ghost var r0 := r;
      r := SetByte(r, (j + 3) % 4, val);
      RotateStep(t, k, j, r0, val);
    }
    Rotated(t, k, r);
  }

  lemma RotateStep(t: Tables, k: Word, j: nat, r: Word, val: bv8)
    requires j < 4 && val == Sub(t, GetByte(k, j))
    requires forall m :: 0 <= m < j ==> GetByte(r, (m + 3) % 4) == Sub(t, GetByte(k, m))
    ensures forall m :: 0 <= m <= j ==> GetByte(SetByte(r, (j + 3) % 4, val), (m + 3) % 4) == Sub(t, GetByte(k, m))
  {
    forall m | 0 <= m <= j
      ensures GetByte(SetByte(r, (j + 3) % 4, val), (m + 3) % 4) == Sub(t, GetByte(k, m))
    {
      GetSet(r, (j + 3) % 4, val, (m + 3) % 4);
    }
  }

  lemma SubStep(t: Tables, k: Word, j: nat, r: Word, val: bv8)
    requires j < 4 && val == Sub(t, GetByte(k, j))
    requires forall m :: 0 <= m < j ==> GetByte(r, m) == Sub(t, GetByte(k, m))
    ensures forall m :: 0 <= m <= j ==> GetByte(SetByte(r, j, val), m) == Sub(t, GetByte(k, m))
  {
    forall m | 0 <= m <= j ensures GetByte(SetByte(r, j, val), m) == Sub(t, GetByte(k, m)) {
      GetSet(r, j, val, m);
    }
  }

  lemma Rotated(t: Tables, k: Word, r: Word)
    requires forall m :: 0 <= m < 4 ==> GetByte(r, (m + 3) % 4) == Sub(t, GetByte(k, m))
    ensures r == SubWord(t, RotWord(k))
  {
    assert GetByte(r, (0 + 3) % 4) == Sub(t, GetByte(k, 0)) && GetByte(r, (1 + 3) % 4) == Sub(t, GetByte(k, 1));
    assert GetByte(r, (2 + 3) % 4) == Sub(t, GetByte(k, 2)) && GetByte(r, (3 + 3) % 4) == Sub(t, GetByte(k, 3));
    RotatedBytes(t, k, r);
  }

  lemma RotatedBytes(t: Tables, k: Word, r: Word)
    requires Get3(r) == Sub(t, Get0(k)) && Get0(r) == Sub(t, Get1(k)) && Get1(r) == Sub(t, Get2(k)) && Get2(r) == Sub(t, Get3(k))
    ensures r == SubWord(t, RotWord(k))
  {
    FromBytesGet(Get1(k), Get2(k), Get3(k), Get0(k));
    SubWordGet(t, RotWord(k));
    WordIsBytes(r, SubWord(t, RotWord(k)));
  }

  lemma SubWordGet(t: Tables, w: Word)
    ensures var v := SubWord(t, w);
            && Get0(v) == Sub(t, Get0(w)) && Get1(v) == Sub(t, Get1(w)) && Get2(v) == Sub(t, Get2(w)) && Get3(v) == Sub(t, Get3(w))
  {
    FromBytesGet(Sub(t, Get0(w)), Sub(t, Get1(w)), Sub(t, Get2(w)), Sub(t, Get3(w)));
  }

  // The S-box on every byte of a word.
  method SboxBytes(t: Tables, k: Word) returns (r: Word)
    requires Complete(t)
    ensures r == SubWord(t, k)
  {
    r := 0;
    for j := 0 to 4
      invariant forall m :: 0 <= m < j ==> GetByte(r, m) == Sub(t, GetByte(k, m))
    {
      var val := t.sbox(GetByte(k, j));
      ghost var r0 := r;
      r := SetByte(r, j, val);
      SubStep(t, k, j, r0, val);
    }
    SubWordGet(t, k);
    assert GetByte(r, 0) == Sub(t, GetByte(k, 0)) && GetByte(r, 1) == Sub(t, GetByte(k, 1));
    assert GetByte(r, 2) == Sub(t, GetByte(k, 2)) && GetByte(r, 3) == Sub(t, GetByte(k, 3));
    WordIsBytes(r, SubWord(t, k));
  }
}
