// The search for AES keys over a memory image: distances with early exit, sliding byte counts.
module KeySearch {
  import opened BitCounts
  import opened KeySchedule
  import opened Rows
  import opened KeyFinder

  // ---------- one candidate schedule ----------

  lemma XorOrder(a: Word, b: Word, c: Word)
    ensures (a ^ b) ^ c == (b ^ a) ^ c
  {
  }

  // The bits in which a word differs from what the two words before it call for.
  method CountWrong(mixed: Word, before: Word, word: Word) returns (c: nat)
    ensures c == WrongBits(Xor(before, mixed), word)
  {
    c := Popcount((mixed ^ before ^ word) as bv64) as nat;
    PopcountCounts((mixed ^ before ^ word) as bv64);
    XorOrder(mixed, before, word);
  }

  lemma RowAndColumn(nk: nat, row: nat, column: nat)
    requires (nk == 4 || nk == 8) && column < nk
    ensures (nk * row + column) / nk == row && (nk * row + column) % nk == column
  {
  }

  lemma ScheduledAt(t: Tables, nk: nat, words: seq<Word>, row: nat, column: nat)
    requires Complete(t) && (nk == 4 || nk == 8) && 1 <= row < 11 && column < nk && nk * row + column < |words|
    ensures nk * row + column >= nk && nk * (row - 1) + column == nk * row + column - nk
    ensures Scheduled(t, nk, words, nk * row + column) ==
            Xor(words[nk * (row - 1) + column], Mixed(t, nk, row, column, words[nk * row + column - 1]))
  {
    RowAndColumn(nk, row, column);
  }

  // What the 256-bit check makes of the word before.
  method Mix256(t: Tables, words: seq<Word>, row: nat, column: nat) returns (mixed: Word)
    requires Complete(t) && 1 <= row < 8 && column < 8 && 8 * row + column < |words|
    ensures mixed == Mixed(t, 8, row, column, words[8 * row + column - 1])
  {
    if column == 0 {
      mixed := KeyCore(t, words[8 * row - 1], row);
    } else if column == 4 {
      mixed := SboxBytes(t, words[8 * row + 3]);
    } else {
      mixed := words[8 * row + column - 1];
    }
  }

  method Mix128(t: Tables, words: seq<Word>, row: nat, column: nat) returns (mixed: Word)
    requires Complete(t) && 1 <= row < 11 && column < 4 && 4 * row + column < |words|
    ensures mixed == Mixed(t, 4, row, column, words[4 * row + column - 1])
  {
    if column == 0 {
      mixed := KeyCore(t, words[4 * row - 1], row);
    } else {
      mixed := words[4 * row + column - 1];
    }
  }

  method Column256(t: Tables, words: seq<Word>, row: nat, column: nat) returns (c: nat)
    requires Complete(t) && 1 <= row < 8 && column < 8 && 8 * row + column < |words|
    ensures c == WrongBits(Scheduled(t, 8, words, 8 * row + column), words[8 * row + column])
  {
    ScheduledAt(t, 8, words, row, column);
    var mixed := Mix256(t, words, row, column);
    c := CountWrong(mixed, words[8 * (row - 1) + column], words[8 * row + column]);
  }

  method Column128(t: Tables, words: seq<Word>, row: nat, column: nat) returns (c: nat)
    requires Complete(t) && 1 <= row < 11 && column < 4 && 4 * row + column < |words|
    ensures c == WrongBits(Scheduled(t, 4, words, 4 * row + column), words[4 * row + column])
  {
    ScheduledAt(t, 4, words, row, column);
    var mixed := Mix128(t, words, row, column);
    c := CountWrong(mixed, words[4 * (row - 1) + column], words[4 * row + column]);
  }

  // One row of the 256-bit check; the last row has four columns.
  method Row256(t: Tables, words: seq<Word>, row: nat, count0: nat) returns (count: nat)
    requires Complete(t) && 1 <= row < 8 && |words| >= 60 && count0 == ScheduleDistance(t, 8, words, 8 * row)
    ensures count == ScheduleDistance(t, 8, words, if row == 7 then 60 else 8 * (row + 1))
  {
    count := count0;
    for column := 0 to 8
      invariant row == 7 ==> column <= 4
      invariant count == ScheduleDistance(t, 8, words, 8 * row + column)
    {
      if row == 7 && column == 4 {
        break;
      }
      var c := Column256(t, words, row, column);
      count := count + c;
    }
  }

  // The 256-bit check: rows are added up until there are too many wrong bits.
  method Accepts256(t: Tables, words: seq<Word>, threshold: int) returns (ok: bool)
    requires Complete(t) && |words| >= 60
    ensures ok <==> ScheduleDistance(t, 8, words, 60) <= threshold
  {
    var count := 0;
    for row := 1 to 8
      invariant count == ScheduleDistance(t, 8, words, if row == 8 then 60 else 8 * row)
    {
      count := Row256(t, words, row, count);
      if count > threshold {
        DistanceGrows(KeyExpansion(t, 8), WrongBits, 8, words, if row == 7 then 60 else 8 * (row + 1), 60);
        break;
      }
    }
    ok := count <= threshold;
  }

  method Row128(t: Tables, words: seq<Word>, row: nat, count0: nat) returns (count: nat)
    requires Complete(t) && 1 <= row < 11 && |words| >= 44 && count0 == ScheduleDistance(t, 4, words, 4 * row)
    ensures count == ScheduleDistance(t, 4, words, 4 * (row + 1))
  {
    count := count0;
    for column := 0 to 4
      invariant count == ScheduleDistance(t, 4, words, 4 * row + column)
    {
      var c := Column128(t, words, row, column);
      count := count + c;
    }
  }

  // The 128-bit check is strict: as many wrong bits as the threshold allows are one too many.
  method Accepts128(t: Tables, words: seq<Word>, threshold: int) returns (ok: bool)
    requires Complete(t) && |words| >= 44
    ensures ok <==> ScheduleDistance(t, 4, words, 44) < threshold
  {
    var count := 0;
    for row := 1 to 11
      invariant count == ScheduleDistance(t, 4, words, 4 * row)
    {
      count := Row128(t, words, row, count);
      if count > threshold {
        DistanceGrows(KeyExpansion(t, 4), WrongBits, 4, words, 4 * (row + 1), 44);
        break;
      }
    }
    ok := count < threshold;
  }

  // ---------- the sliding window ----------

  const WINDOW := 176

  // How often a byte occurs among image[from..upto].
  function Occurs(image: seq<bv8>, from: nat, upto: nat, b: nat): nat
    requires from <= upto <= |image|
    decreases upto - from
  {
    if from == upto then 0 else Occurs(image, from, upto - 1, b) + if image[upto - 1] as nat == b then 1 else 0
  }

  function Values(image: seq<bv8>): seq<nat> {
    seq(|image|, i requires 0 <= i < |image| => image[i] as nat)
  }

  lemma OneMoreOf(s: seq<nat>, x: nat, b: nat)
    ensures multiset(s + [x])[b] == multiset(s)[b] + if x == b then 1 else 0
  {
  }

  // The count is that of the bag of bytes.
  lemma {:induction false} OccursIsCount(image: seq<bv8>, from: nat, upto: nat, b: nat)
    requires from <= upto <= |image|
    ensures Occurs(image, from, upto, b) == multiset(Values(image)[from..upto])[b]
    decreases upto - from
  {
    var s := Values(image);
    if from == upto {
      assert s[from..upto] == [];
    } else {
      OccursIsCount(image, from, upto - 1, b);
      assert s[from..upto] == s[from..upto - 1] + [s[upto - 1]];
      OneMoreOf(s[from..upto - 1], s[upto - 1], b);
    }
  }

  lemma {:induction false} WithoutFirst(image: seq<bv8>, from: nat, upto: nat, b: nat)
    requires from < upto <= |image|
    ensures Occurs(image, from, upto, b) == (if image[from] as nat == b then 1 else 0) + Occurs(image, from + 1, upto, b)
    decreases upto
  {
    if from + 1 < upto {
      WithoutFirst(image, from, upto - 1, b);
    }
  }

  lemma Slides(image: seq<bv8>, i: nat, b: nat, gone: nat, come: nat)
    requires i + WINDOW < |image| && gone == image[i] as nat && come == image[i + WINDOW] as nat
    ensures Occurs(image, i + 1, i + 1 + WINDOW, b) ==
            Occurs(image, i, i + WINDOW, b) - (if gone == b then 1 else 0) + (if come == b then 1 else 0)
  {
    WithoutFirst(image, i, i + WINDOW, b);
  }

  ghost predicate TooOften(image: seq<bv8>, i: nat, b: nat)
    requires i + WINDOW <= |image|
  {
    Occurs(image, i, i + WINDOW, b) > 8
  }

  // Some byte occurs more than eight times in the window at i.
  ghost predicate Repetitive(image: seq<bv8>, i: nat)
    requires i + WINDOW <= |image|
  {
    exists b :: 0 <= b < 256 && TooOften(image, i, b)
  }

  // The bag of the 176 bytes from i on holds more than eight of b.
  ghost predicate MoreThanEight(image: seq<bv8>, i: nat, b: nat) {
    i + 176 <= |image| && multiset(Values(image)[i..i + 176])[b] > 8
  }

  lemma RepetitiveIs(image: seq<bv8>, i: nat)
    requires i + WINDOW <= |image|
    ensures Repetitive(image, i) <==> exists b: nat :: b < 256 && MoreThanEight(image, i, b)
  {
    if Repetitive(image, i) {
      var b: nat :| b < 256 && TooOften(image, i, b);
      OccursIsCount(image, i, i + 176, b);
      assert MoreThanEight(image, i, b);
    }
    if b: nat :| b < 256 && MoreThanEight(image, i, b) {
      OccursIsCount(image, i, i + 176, b);
      assert TooOften(image, i, b);
    }
  }

  // The counts kept from call to call.
  class Entropy {
    var newCall: bool
    const byteFreq: array<int>

    constructor ()
      ensures newCall && byteFreq.Length == 256 && (forall b :: 0 <= b < 256 ==> byteFreq[b] == 0) && fresh(byteFreq)
    {
      newCall := true;
      byteFreq := new int[256](_ => 0);
    }

    ghost predicate Counts(image: seq<bv8>, from: nat, upto: nat)
      requires from <= upto <= |image|
      reads byteFreq
    {
      byteFreq.Length == 256 && forall b :: 0 <= b < 256 ==> byteFreq[b] == Occurs(image, from, upto, b)
    }

    // Ready for the window at i: the first call counts it, later ones find it counted.
    ghost predicate Ready(image: seq<bv8>, i: nat)
      requires i + WINDOW <= |image|
      reads this, byteFreq
    {
      && byteFreq.Length == 256
      && if newCall then i == 0 && Counts(image, 0, 0) else Counts(image, i, i + WINDOW)
    }

    method CountFirst(image: seq<bv8>)
      requires WINDOW <= |image| && Counts(image, 0, 0)
      modifies byteFreq
      ensures Counts(image, 0, WINDOW)
    {
      for i := 0 to WINDOW
        invariant Counts(image, 0, i)
      {
        byteFreq[image[i] as nat] := byteFreq[image[i] as nat] + 1;
      }
    }

    // Tests the window at i and moves on to the next.
    method Test(image: seq<bv8>, i: nat) returns (test: bool)
      requires i + WINDOW < |image| && Ready(image, i)
      modifies this, byteFreq
      ensures Ready(image, i + 1) && !newCall && (test <==> Repetitive(image, i))
    {
      if newCall {
        CountFirst(image);
        newCall := false;
      }
      test := false;
      for b := 0 to 256
        invariant !test && forall a :: 0 <= a < b ==> !TooOften(image, i, a)
        modifies {}
      {
        if byteFreq[b] > 8 {
          test := true;
          assert TooOften(image, i, b);
          break;
        }
      }
      Slide(image, i);
    }

    method Slide(image: seq<bv8>, i: nat)
      requires i + WINDOW < |image| && Counts(image, i, i + WINDOW)
      modifies byteFreq
      ensures Counts(image, i + 1, i + 1 + WINDOW)
    {
      var gone, come := image[i] as nat, image[i + WINDOW] as nat;
      Replace(gone, come);
      forall b | 0 <= b < 256 ensures byteFreq[b] == Occurs(image, i + 1, i + 1 + WINDOW, b) {
        Slides(image, i, b, gone, come);
      }
    }

    method Replace(gone: nat, come: nat)
      requires byteFreq.Length == 256 && gone < 256 && come < 256
      modifies byteFreq
      ensures forall b :: 0 <= b < 256 ==>
                byteFreq[b] == old(byteFreq[b]) - (if gone == b then 1 else 0) + (if come == b then 1 else 0)
    {
      byteFreq[gone] := byteFreq[gone] - 1;
      byteFreq[come] := byteFreq[come] + 1;
    }
  }

  // ---------- the whole search ----------

  // A key of so many bits whose schedule starts at a byte of the image.
  datatype Found = Found(bits: nat, at: nat)

  const SCHEDULE_WORDS := 60

  function WordAt(image: seq<bv8>, i: nat): Word
    requires i + 4 <= |image|
  {
    FromBytes(image[i], image[i + 1], image[i + 2], image[i + 3])
  }

  // The image from byte i on as words.
  function WordsAt(image: seq<bv8>, i: nat): seq<Word>
    requires i + 4 * SCHEDULE_WORDS <= |image|
  {
    seq(SCHEDULE_WORDS, k requires 0 <= k < SCHEDULE_WORDS => WordAt(image, i + 4 * k))
  }

  // Byte b of word k is byte 4 * k + b from there on.
  lemma WordsAtBytes(image: seq<bv8>, i: nat, k: nat, b: nat)
    requires i + 4 * SCHEDULE_WORDS <= |image| && k < SCHEDULE_WORDS && b < 4
    ensures |WordsAt(image, i)| == 60 && GetByte(WordsAt(image, i)[k], b) == image[i + 4 * k + b]
  {
    var j := i + 4 * k;
    FromBytesGet(image[j], image[j + 1], image[j + 2], image[j + 3]);
  }

  // The keys that start at byte i.
  ghost function KeysAt(t: Tables, image: seq<bv8>, i: nat, threshold: int): seq<Found>
    requires Complete(t) && i + 4 * SCHEDULE_WORDS <= |image|
  {
    if Repetitive(image, i) then []
    else
      (if ScheduleDistance(t, 8, WordsAt(image, i), 60) <= threshold then [Found(256, i)] else [])
      + (if ScheduleDistance(t, 4, WordsAt(image, i), 44) < threshold then [Found(128, i)] else [])
  }

  ghost function Keys(t: Tables, image: seq<bv8>, last: nat, threshold: int): seq<Found>
    requires Complete(t) && (last == 0 || last - 1 + 4 * SCHEDULE_WORDS <= |image|)
  {
    if last == 0 then [] else Keys(t, image, last - 1, threshold) + KeysAt(t, image, last - 1, threshold)
  }

  ghost predicate IsKey(t: Tables, image: seq<bv8>, k: Found, threshold: int)
    requires Complete(t) && k.at + 4 * SCHEDULE_WORDS <= |image|
  {
    && !Repetitive(image, k.at)
    && if k.bits == 256 then ScheduleDistance(t, 8, WordsAt(image, k.at), 60) <= threshold
       else k.bits == 128 && ScheduleDistance(t, 4, WordsAt(image, k.at), 44) < threshold
  }

  lemma KeyHere(t: Tables, image: seq<bv8>, i: nat, threshold: int, here: seq<Found>, k: Found)
    requires Complete(t) && i + 4 * SCHEDULE_WORDS <= |image| && here == KeysAt(t, image, i, threshold)
    ensures k in here <==> k.at == i && IsKey(t, image, k, threshold)
  {
  }

  lemma InBoth<T>(x: T, a: seq<T>, b: seq<T>)
    ensures x in a + b <==> x in a || x in b
  {
  }

  // A key is listed exactly if it starts below last and its check passes.
  lemma {:induction false} KeyListed(t: Tables, image: seq<bv8>, last: nat, threshold: int, keys: seq<Found>, k: Found)
    requires Complete(t) && (last == 0 || last - 1 + 4 * SCHEDULE_WORDS <= |image|)
    requires keys == Keys(t, image, last, threshold)
    ensures k in keys <==> k.at < last && IsKey(t, image, k, threshold)
    decreases last
  {
    if last > 0 {
      var before, here := Keys(t, image, last - 1, threshold), KeysAt(t, image, last - 1, threshold);
      KeyListed(t, image, last - 1, threshold, before, k);
      KeyHere(t, image, last - 1, threshold, here, k);
      InBoth(k, before, here);
    }
  }

  predicate Precedes(k: Found, l: Found) {
    k.at < l.at || (k.at == l.at && k.bits == 256 && l.bits == 128)
  }

  ghost predicate Ordered(keys: seq<Found>, last: nat) {
    && (forall i :: 0 <= i < |keys| ==> keys[i].at < last)
    && forall i, j :: 0 <= i < j < |keys| ==> Precedes(keys[i], keys[j])
  }

  lemma OrderedHere(t: Tables, image: seq<bv8>, i: nat, threshold: int, here: seq<Found>)
    requires Complete(t) && i + 4 * SCHEDULE_WORDS <= |image| && here == KeysAt(t, image, i, threshold)
    ensures Ordered(here, i + 1) && forall j :: 0 <= j < |here| ==> here[j].at == i
  {
  }

  lemma OneAfterOther(before: seq<Found>, here: seq<Found>, at: nat)
    requires Ordered(before, at) && Ordered(here, at + 1)
    requires forall j :: 0 <= j < |here| ==> here[j].at == at
    ensures Ordered(before + here, at + 1)
  {
  }

  lemma OneMoreOrdered(t: Tables, image: seq<bv8>, at: nat, threshold: int, before: seq<Found>)
    requires Complete(t) && at + 4 * SCHEDULE_WORDS <= |image| && Ordered(before, at)
    ensures Ordered(before + KeysAt(t, image, at, threshold), at + 1)
  {
    var here := KeysAt(t, image, at, threshold);
    OrderedHere(t, image, at, threshold, here);
    OneAfterOther(before, here, at);
  }

  // The list goes by place, and at one place the long key comes first.
  lemma {:induction false} KeysInOrder(t: Tables, image: seq<bv8>, last: nat, threshold: int, keys: seq<Found>)
    requires Complete(t) && (last == 0 || last - 1 + 4 * SCHEDULE_WORDS <= |image|)
    requires keys == Keys(t, image, last, threshold)
    ensures Ordered(keys, last)
    decreases last
  {
    if last > 0 {
      var before := Keys(t, image, last - 1, threshold);
      KeysInOrder(t, image, last - 1, threshold, before);
      OneMoreOrdered(t, image, last - 1, threshold, before);
    }
  }

  // The checks of both key lengths at byte i.
  method Check(t: Tables, image: seq<bv8>, i: nat, threshold: int) returns (found: seq<Found>)
    requires Complete(t) && i + 4 * SCHEDULE_WORDS <= |image| && !Repetitive(image, i)
    ensures found == KeysAt(t, image, i, threshold)
  {
    found := [];
    var ok256 := Accepts256(t, WordsAt(image, i), threshold);
    if ok256 {
      found := found + [Found(256, i)];
    }
    var ok128 := Accepts128(t, WordsAt(image, i), threshold);
    if ok128 {
      found := found + [Found(128, i)];
    }
  }

  // All keys at offsets below last, in the order they are printed.
  method FindKeys(t: Tables, image: seq<bv8>, last: nat, threshold: int) returns (found: seq<Found>)
    requires Complete(t) && (last == 0 || last - 1 + 4 * SCHEDULE_WORDS <= |image|)
    ensures found == Keys(t, image, last, threshold)
  {
    found := [];
    if last == 0 {
      return;
    }
    var entropy := new Entropy();
    for i := 0 to last
      invariant entropy.Ready(image, i) && fresh(entropy) && fresh(entropy.byteFreq)
      invariant found == Keys(t, image, i, threshold)
    {
      var repetitive := entropy.Test(image, i);
      if repetitive {
        continue;
      }
      var here := Check(t, image, i, threshold);
      found := found + here;
    }
  }
}
