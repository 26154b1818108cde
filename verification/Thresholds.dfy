// How far 44 words can be from an AES-128 key schedule, and for which thresholds the strict comparison
// of the 128-bit check therefore decides otherwise than "at most the threshold".
module Thresholds {
  import opened BitCounts
  import opened KeySchedule
  import opened Rows
  import opened KeyFinder

  // ---------- words with so many bits ----------

  // The lowest bits of a word, k fewer than 32.
  function LowBitsLess(k: nat): (m: bv64)
    ensures m <= 0xFFFF_FFFF && m & (m + 1) == 0
  {
    if k == 0 then 0xFFFF_FFFF else LowBitsLess(k - 1) >> 1
  }

  lemma NoneLess()
    ensures LowBitsLess(31) == 1
  {
    assert LowBitsLess(10) == 0x3F_FFFF;
    assert LowBitsLess(20) == 0xFFF;
  }

  lemma {:induction false} OnesOfLowBits(k: nat)
    requires k <= 32
    ensures Ones(LowBitsLess(k)) == 32 - k && (k < 32 ==> LowBitsLess(k) & 1 == 1)
    decreases 32 - k
  {
    if k >= 31 {
      NoneLess();
      assert (1 as bv64) >> 1 == 0;
      assert Ones(1) == 1;
    } else {
      OnesOfLowBits(k + 1);
      assert LowBitsLess(k + 1) == LowBitsLess(k) >> 1;
    }
  }

  lemma {:induction false} OnesAtMost(x: bv64, k: nat)
    requires k <= 32 && x <= LowBitsLess(k)
    ensures Ones(x) <= 32 - k
    decreases 32 - k
  {
    if k == 32 {
      OnesOfLowBits(k);
      NoOnes(LowBitsLess(k));
    } else {
      assert x >> 1 <= LowBitsLess(k) >> 1;
      OnesAtMost(x >> 1, k + 1);
    }
  }

  lemma WordBits(v: Word, w: Word)
    ensures WrongBits(v, w) <= 32
  {
    assert LowBitsLess(0) == 0xFFFF_FFFF;
    OnesAtMost(Xor(v, w) as bv64, 0);
  }

  lemma XorBack(v: Word, m: bv64)
    requires m <= 0xFFFF_FFFF
    ensures (v ^ (v ^ (m as Word))) as bv64 == m
  {
  }

  // A word that is wrong in any number of bits from 0 to 32.
  lemma Bent(v: Word, bits: nat) returns (w: Word)
    requires bits <= 32
    ensures WrongBits(v, w) == bits
  {
    var m := LowBitsLess(32 - bits);
    w := v ^ (m as Word);
    XorBack(v, m);
    OnesOfLowBits(32 - bits);
  }

  // ---------- how far words can be from a schedule ----------

  lemma {:induction false} DistanceAtMost(t: Tables, words: seq<Word>, n: nat)
    requires Complete(t) && 4 <= n <= |words|
    ensures ScheduleDistance(t, 4, words, n) <= 32 * (n - 4)
  {
    if n > 4 {
      DistanceAtMost(t, words, n - 1);
      WordBits(KeyExpansion(t, 4)(words, n - 1), words[n - 1]);
    }
  }

  lemma DistanceOfMore(t: Tables, words: seq<Word>, w: Word)
    requires Complete(t) && 4 <= |words|
    ensures ScheduleDistance(t, 4, words + [w], |words| + 1) ==
            ScheduleDistance(t, 4, words, |words|) + WrongBits(Scheduled(t, 4, words, |words|), w)
  {
    var n, more := |words|, words + [w];
    ExpansionLooksBack(t, 4);
    assert more[..n] == words;
    DistanceOfPrefix(KeyExpansion(t, 4), WrongBits, 4, more, n, n);
    ScheduledBack(t, 4, more, n);
  }

  // Every distance up to 32 bits for each of the words that should follow from the key is taken.
  lemma {:induction false} SomeWordsAt(t: Tables, n: nat, distance: nat) returns (words: seq<Word>)
    requires Complete(t) && 4 <= n && distance <= 32 * (n - 4)
    ensures |words| == n && ScheduleDistance(t, 4, words, n) == distance
  {
    if n == 4 {
      words := [0, 0, 0, 0];
    } else {
      var bits := if distance <= 32 then distance else 32;
      words := SomeWordsAt(t, n - 1, distance - bits);
      var w := Bent(Scheduled(t, 4, words, n - 1), bits);
      DistanceOfMore(t, words, w);
      words := words + [w];
    }
  }

  // ---------- the strict comparison ----------

  // The strict comparison decides on every memory image as "at most the threshold" would.
  ghost predicate StrictSuffices(t: Tables, threshold: int)
    requires Complete(t)
  {
    forall words: seq<Word> :: |words| >= 44 ==>
      (ScheduleDistance(t, 4, words, 44) < threshold <==> ScheduleDistance(t, 4, words, 44) <= threshold)
  }

  // It does for thresholds that no distance can equal, and for no other.
  lemma StrictSufficesIff(t: Tables, threshold: int)
    requires Complete(t)
    ensures StrictSuffices(t, threshold) <==> threshold < 0 || threshold > 1280
  {
    if 0 <= threshold <= 1280 {
      var words := SomeWordsAt(t, 44, threshold);
      assert ScheduleDistance(t, 4, words, 44) == threshold;
    } else {
      forall words: seq<Word> | |words| >= 44 ensures ScheduleDistance(t, 4, words, 44) != threshold {
        DistanceAtMost(t, words, 44);
      }
    }
  }

  // A perfect schedule is accepted for positive thresholds; "at most" would accept it for 0 too.
  lemma PerfectIsRejectedAtZero(t: Tables, words: seq<Word>, threshold: int)
    requires Complete(t) && |words| >= 44 && words[..44] == Expand(KeyExpansion(t, 4), words[..4], 44)
    ensures ScheduleDistance(t, 4, words, 44) < threshold <==> 0 < threshold
    ensures ScheduleDistance(t, 4, words, 44) <= threshold <==> 0 <= threshold
  {
    PerfectSchedule(t, 4, words, 44);
  }
}
