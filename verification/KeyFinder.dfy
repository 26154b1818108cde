// The key expansion of AES as a rule for rows of words, and how many bits of a row break it.
module KeyFinder {
  import opened BitCounts
  import opened KeySchedule
  import opened Rows

  // The number of bits in which two words differ.
  function WrongBits(v: Word, w: Word): nat {
    Ones(Xor(v, w) as bv64)
  }

  lemma Widened(w: Word)
    ensures w as bv64 == 0 <==> w == 0
  {
  }

  lemma NoBits(d: Word)
    ensures Ones(d as bv64) == 0 <==> d == 0
  {
    NoOnes(d as bv64);
    Widened(d);
  }

  lemma WrongBitsIs(v: Word, w: Word, d: Word, n: nat)
    requires d == Xor(v, w) && n == WrongBits(v, w)
    ensures n == Ones(d as bv64)
  {
  }

  lemma XorZero(v: Word, w: Word)
    ensures v ^ w == 0 <==> v == w
  {
  }

  lemma Differing(v: Word, w: Word) returns (d: Word)
    ensures d == Xor(v, w) && (d == 0 <==> v == w)
  {
    d := Xor(v, w);
    XorZero(v, w);
  }

  lemma BitsDiffering(v: Word, w: Word) returns (d: Word)
    ensures WrongBits(v, w) == Ones(d as bv64) && (d == 0 <==> v == w)
  {
    d := Differing(v, w);
    var n := WrongBits(v, w);
    WrongBitsIs(v, w, d, n);
  }

  lemma NoneWrong(v: Word, w: Word)
    ensures WrongBits(v, w) == 0 <==> v == w
  {
    var d := BitsDiffering(v, w);
    NoBits(d);
  }

  lemma WrongBitsTellApart()
    ensures TellsApart(WrongBits)
  {
    forall v, w ensures WrongBits(v, w) == 0 <==> v == w {
      NoneWrong(v, w);
    }
  }

  // ---------- the key expansion ----------

  // What is done to the word before the first, the fifth and any other word of a row.
  function Mixed(t: Tables, nk: nat, row: nat, column: nat, temp: Word): Word
    requires row < |t.rcon|
  {
    if column == 0 then Core(t, temp, row)
    else if nk > 6 && column == 4 then SubWord(t, temp)
    else temp
  }

  // Word i of a schedule with keys of nk words, from the word before it and the one nk before it
  // (section 5.2 of FIPS 197).
  function NextWord(t: Tables, nk: nat, i: nat, temp: Word, before: Word): Word
    requires Complete(t) && (nk == 4 || nk == 8) && i < 11 * nk
  {
    Xor(before, Mixed(t, nk, i / nk, i % nk, temp))
  }

  function Scheduled(t: Tables, nk: nat, words: seq<Word>, i: nat): Word
    requires Complete(t) && (nk == 4 || nk == 8)
  {
    if nk <= i <= |words| && i < 11 * nk then NextWord(t, nk, i, words[i - 1], words[i - nk]) else 0
  }

  function KeyExpansion(t: Tables, nk: nat): Rule<Word>
    requires Complete(t) && (nk == 4 || nk == 8)
  {
    (words: seq<Word>, i: nat) => Scheduled(t, nk, words, i)
  }

  lemma ScheduledBack(t: Tables, nk: nat, words: seq<Word>, i: nat)
    requires Complete(t) && (nk == 4 || nk == 8) && i <= |words|
    ensures Scheduled(t, nk, words[..i], i) == Scheduled(t, nk, words, i)
  {
    if nk <= i && i < 11 * nk {
      assert words[..i][i - 1] == words[i - 1] && words[..i][i - nk] == words[i - nk];
    }
  }

  lemma ExpansionLooksBack(t: Tables, nk: nat)
    requires Complete(t) && (nk == 4 || nk == 8)
    ensures LooksBack(KeyExpansion(t, nk))
  {
    var rule := KeyExpansion(t, nk);
    forall words: seq<Word>, i: nat ensures BackAt(rule, words, i) {
      if i <= |words| {
        ScheduledBack(t, nk, words, i);
      }
    }
  }

  // Wrong bits of a whole schedule: 60 words with keys of 8, 44 with keys of 4.
  function ScheduleDistance(t: Tables, nk: nat, words: seq<Word>, n: nat): nat
    requires Complete(t) && (nk == 4 || nk == 8) && nk <= n <= |words|
  {
    Distance(KeyExpansion(t, nk), WrongBits, nk, words, n)
  }

  // No wrong bit: exactly the key expansion of the first words.
  lemma PerfectSchedule(t: Tables, nk: nat, words: seq<Word>, n: nat)
    requires Complete(t) && (nk == 4 || nk == 8) && nk <= n <= |words|
    ensures ScheduleDistance(t, nk, words, n) == 0 <==> words[..n] == Expand(KeyExpansion(t, nk), words[..nk], n)
  {
    ExpansionLooksBack(t, nk);
    WrongBitsTellApart();
    ZeroIsExpansion(KeyExpansion(t, nk), WrongBits, nk, words, n);
  }
}
