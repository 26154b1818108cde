// The recurrence of section 5.2 of FIPS 197 written out for both key lengths, the program's distances
// against it, and the two key expansions that appendix A of the standard prints.
module AesStandard {
  import opened KeySchedule
  import opened Rows
  import opened KeyFinder
  import opened AesTables

  // ---------- rotation and S-box, byte by byte ----------

  lemma RotWordBytes(w: Word, n: nat)
    requires n < 4
    ensures GetByte(RotWord(w), n) == GetByte(w, (n + 1) % 4)
  {
    FromBytesGet(Get1(w), Get2(w), Get3(w), Get0(w));
  }

  lemma SubWordBytes(t: Tables, w: Word, n: nat)
    requires n < 4
    ensures GetByte(SubWord(t, w), n) == t.sbox(GetByte(w, n))
  {
    SubWordGet(t, w);
  }

  // ---------- distance zero ----------

  lemma EachScheduled(t: Tables, nk: nat, words: seq<Word>, n: nat)
    requires Complete(t) && (nk == 4 || nk == 8) && nk <= n <= |words|
    ensures ScheduleDistance(t, nk, words, n) == 0 <==>
            forall i :: nk <= i < n ==> words[i] == Scheduled(t, nk, words, i)
  {
    WrongBitsTellApart();
    ZeroIsEach(KeyExpansion(t, nk), WrongBits, nk, words, n);
    if ScheduleDistance(t, nk, words, n) == 0 {
      forall i | nk <= i < n ensures words[i] == Scheduled(t, nk, words, i) {
        assert RightAt(KeyExpansion(t, nk), WrongBits, words, i);
      }
    }
    if forall i :: nk <= i < n ==> words[i] == Scheduled(t, nk, words, i) {
      forall i | nk <= i < n ensures RightAt(KeyExpansion(t, nk), WrongBits, words, i) {
      }
    }
  }

  // Word i for keys of four words: the first of each row of four takes rotation, S-box and round
  // constant, the others none.
  function Due128(t: Tables, words: seq<Word>, i: nat): Word
    requires Complete(t) && 4 <= i < 44 && i <= |words|
  {
    words[i - 4] ^ (if i % 4 == 0 then SubWord(t, RotWord(words[i - 1])) ^ FromBytes(t.rcon[i / 4], 0, 0, 0)
                    else words[i - 1])
  }

  // Word i for keys of eight words: the first of each row of eight takes all three, the fifth the S-box.
  function Due256(t: Tables, words: seq<Word>, i: nat): Word
    requires Complete(t) && 8 <= i < 60 && i <= |words|
  {
    words[i - 8] ^ (if i % 8 == 0 then SubWord(t, RotWord(words[i - 1])) ^ FromBytes(t.rcon[i / 8], 0, 0, 0)
                    else if i % 8 == 4 then SubWord(t, words[i - 1])
                    else words[i - 1])
  }

  lemma Scheduled128(t: Tables, words: seq<Word>, i: nat)
    requires Complete(t) && 4 <= i < 44 && i <= |words|
    ensures Scheduled(t, 4, words, i) == Due128(t, words, i)
  {
  }

  lemma Scheduled256(t: Tables, words: seq<Word>, i: nat)
    requires Complete(t) && 8 <= i < 60 && i <= |words|
    ensures Scheduled(t, 8, words, i) == Due256(t, words, i)
  {
  }

  // Each word adds the bits in which it differs from what the recurrence asks for.
  lemma Counted128(t: Tables, words: seq<Word>, n: nat)
    requires Complete(t) && 4 <= n < 44 && n < |words|
    ensures ScheduleDistance(t, 4, words, 4) == 0
    ensures ScheduleDistance(t, 4, words, n + 1) == ScheduleDistance(t, 4, words, n) + WrongBits(Due128(t, words, n), words[n])
  {
    Scheduled128(t, words, n);
  }

  lemma Counted256(t: Tables, words: seq<Word>, n: nat)
    requires Complete(t) && 8 <= n < 60 && n < |words|
    ensures ScheduleDistance(t, 8, words, 8) == 0
    ensures ScheduleDistance(t, 8, words, n + 1) == ScheduleDistance(t, 8, words, n) + WrongBits(Due256(t, words, n), words[n])
  {
    Scheduled256(t, words, n);
  }

  // No wrong bit in 44 words: exactly the recurrence for keys of four words.
  lemma Standard128(t: Tables, words: seq<Word>)
    requires Complete(t) && |words| >= 44
    ensures ScheduleDistance(t, 4, words, 44) == 0 <==> forall i :: 4 <= i < 44 ==> words[i] == Due128(t, words, i)
  {
    EachScheduled(t, 4, words, 44);
    forall i | 4 <= i < 44 ensures Scheduled(t, 4, words, i) == Due128(t, words, i) {
      Scheduled128(t, words, i);
    }
  }

  // No wrong bit in 60 words: exactly the recurrence for keys of eight words.
  lemma Standard256(t: Tables, words: seq<Word>)
    requires Complete(t) && |words| >= 60
    ensures ScheduleDistance(t, 8, words, 60) == 0 <==> forall i :: 8 <= i < 60 ==> words[i] == Due256(t, words, i)
  {
    EachScheduled(t, 8, words, 60);
    forall i | 8 <= i < 60 ensures Scheduled(t, 8, words, i) == Due256(t, words, i) {
      Scheduled256(t, words, i);
    }
  }

  // ---------- the vectors of appendix A ----------

  // Four words, each with its first byte lowest.
  datatype Quad = Quad(w0: Word, w1: Word, w2: Word, w3: Word)

  ghost predicate At(words: seq<Word>, n: nat, q: Quad) {
    n + 4 <= |words| && words[n] == q.w0 && words[n + 1] == q.w1 && words[n + 2] == q.w2 && words[n + 3] == q.w3
  }

  // q' is what follows: core is added to the first word of q, and each word to the next.
  predicate Chains(q: Quad, core: Word, q': Quad) {
    q'.w0 == Xor(q.w0, core) && q'.w1 == Xor(q.w1, q'.w0) && q'.w2 == Xor(q.w2, q'.w1) && q'.w3 == Xor(q.w3, q'.w2)
  }

  lemma NextIs(t: Tables, nk: nat, words: seq<Word>, n: nat, before: Word, temp: Word, mixed: Word)
    requires Complete(t) && (nk == 4 || nk == 8) && nk <= n == |words| < 11 * nk
    requires before == words[n - nk] && temp == words[n - 1] && mixed == Mixed(t, nk, n / nk, n % nk, temp)
    ensures KeyExpansion(t, nk)(words, n) == Xor(before, mixed)
  {
  }

  lemma Plain(t: Tables, nk: nat, words: seq<Word>, n: nat, before: Word, temp: Word)
    requires Complete(t) && (nk == 4 || nk == 8) && nk <= n == |words| < 11 * nk && n % 4 != 0
    requires before == words[n - nk] && temp == words[n - 1]
    ensures KeyExpansion(t, nk)(words, n) == Xor(before, temp)
  {
    assert n % nk != 0 && n % nk != 4;
    NextIs(t, nk, words, n, before, temp, temp);
  }

  // The words of one more quad, one at a time.
  lemma Plains(t: Tables, nk: nat, words: seq<Word>, n: nat, q: Quad, q': Quad)
    requires Complete(t) && (nk == 4 || nk == 8) && nk <= n == |words| && n + 4 <= 11 * nk && n % 4 == 0 && At(words, n - nk, q)
    ensures KeyExpansion(t, nk)(words + [q'.w0], n + 1) == Xor(q.w1, q'.w0)
    ensures KeyExpansion(t, nk)(words + [q'.w0, q'.w1], n + 2) == Xor(q.w2, q'.w1)
    ensures KeyExpansion(t, nk)(words + [q'.w0, q'.w1, q'.w2], n + 3) == Xor(q.w3, q'.w2)
  {
    Plain(t, nk, words + [q'.w0], n + 1, q.w1, q'.w0);
    Plain(t, nk, words + [q'.w0, q'.w1], n + 2, q.w2, q'.w1);
    Plain(t, nk, words + [q'.w0, q'.w1, q'.w2], n + 3, q.w3, q'.w2);
  }

  lemma AtEnd(words: seq<Word>, n: nat, q: Quad, q': Quad)
    requires |words| == n
    ensures At(words + [q'.w0, q'.w1, q'.w2, q'.w3], n, q')
    ensures 4 <= n && At(words, n - 4, q) ==> At(words + [q'.w0, q'.w1, q'.w2, q'.w3], n - 4, q)
  {
  }

  // Four more words of an expansion.
  lemma MoreWords(t: Tables, nk: nat, key: seq<Word>, n: nat, words: seq<Word>, q: Quad, temp: Word, core: Word, q': Quad)
    requires Complete(t) && (nk == 4 || nk == 8) && |key| == nk <= n && n + 4 <= 11 * nk && n % 4 == 0
    requires words == Expand(KeyExpansion(t, nk), key, n) && At(words, n - nk, q) && temp == words[n - 1]
    requires core == Mixed(t, nk, n / nk, n % nk, temp) && Chains(q, core, q')
    ensures Expand(KeyExpansion(t, nk), key, n + 4) == words + [q'.w0, q'.w1, q'.w2, q'.w3]
  {
    NextIs(t, nk, words, n, q.w0, temp, core);
    Plains(t, nk, words, n, q, q');
    ExpandFour(KeyExpansion(t, nk), key, n, words, q'.w0, q'.w1, q'.w2, q'.w3);
  }

  // The expansion to n words ends in the quad q.
  ghost predicate Ends128(t: Tables, key: seq<Word>, n: nat, q: Quad)
    requires Complete(t) && |key| == 4 <= n
  {
    At(Expand(KeyExpansion(t, 4), key, n), n - 4, q)
  }

  lemma GoesOn128(t: Tables, key: seq<Word>, r: nat, q: Quad, core: Word, q': Quad)
    requires Complete(t) && |key| == 4 && 1 <= r <= 10 && Ends128(t, key, 4 * r, q)
    requires core == Mixed(t, 4, r, 0, q.w3) && Chains(q, core, q')
    ensures Ends128(t, key, 4 * r + 4, q')
  {
    var words := Expand(KeyExpansion(t, 4), key, 4 * r);
    MoreWords(t, 4, key, 4 * r, words, q, q.w3, core, q');
    AtEnd(words, 4 * r, q, q');
  }

  // It ends in p and q.
  ghost predicate Ends256(t: Tables, key: seq<Word>, n: nat, p: Quad, q: Quad)
    requires Complete(t) && |key| == 8 <= n
  {
    At(Expand(KeyExpansion(t, 8), key, n), n - 8, p) && At(Expand(KeyExpansion(t, 8), key, n), n - 4, q)
  }

  lemma GoesOn256(t: Tables, key: seq<Word>, h: nat, p: Quad, q: Quad, core: Word, q': Quad)
    requires Complete(t) && |key| == 8 && 2 <= h <= 14 && Ends256(t, key, 4 * h, p, q)
    requires core == Mixed(t, 8, h / 2, 4 * (h % 2), q.w3) && Chains(p, core, q')
    ensures Ends256(t, key, 4 * h + 4, q, q')
  {
    assert 4 * h / 8 == h / 2 && 4 * h % 8 == 4 * (h % 2);
    var words := Expand(KeyExpansion(t, 8), key, 4 * h);
    MoreWords(t, 8, key, 4 * h, words, p, q.w3, core, q');
    AtEnd(words, 4 * h, q, q');
  }
}
