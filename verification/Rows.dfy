// Rows in which every element past the first few should follow from those before it, and their
// distance from that.
module Rows {

  // What element i has to be, given the elements before it.
  type Rule<!T> = (seq<T>, nat) -> T

  // The rule for an element looks at earlier ones only.
  ghost predicate LooksBack<T(!new)>(rule: Rule<T>) {
    forall row: seq<T>, i: nat {:trigger BackAt(rule, row, i)} :: BackAt(rule, row, i)
  }

  ghost predicate BackAt<T>(rule: Rule<T>, row: seq<T>, i: nat) {
    i <= |row| ==> rule(row[..i], i) == rule(row, i)
  }

  // The first elements carried on to n elements by the rule.
  function Expand<T>(rule: Rule<T>, start: seq<T>, n: nat): (row: seq<T>)
    requires |start| <= n
    ensures |row| == n
  {
    if n == |start| then start
    else
      var before := Expand(rule, start, n - 1);
      before + [rule(before, n - 1)]
  }

  lemma ExpandNext<T>(rule: Rule<T>, start: seq<T>, n: nat, x: T)
    requires |start| <= n && x == rule(Expand(rule, start, n), n)
    ensures Expand(rule, start, n + 1) == Expand(rule, start, n) + [x]
  {
  }

  lemma ExpandFour<T>(rule: Rule<T>, start: seq<T>, n: nat, row: seq<T>, x0: T, x1: T, x2: T, x3: T)
    requires |start| <= n && row == Expand(rule, start, n)
    requires rule(row, n) == x0 && rule(row + [x0], n + 1) == x1
    requires rule(row + [x0, x1], n + 2) == x2 && rule(row + [x0, x1, x2], n + 3) == x3
    ensures Expand(rule, start, n + 4) == row + [x0, x1, x2, x3]
  {
    ExpandNext(rule, start, n, x0);
    assert row + [x0] + [x1] == row + [x0, x1];
    ExpandNext(rule, start, n + 1, x1);
    assert row + [x0, x1] + [x2] == row + [x0, x1, x2];
    ExpandNext(rule, start, n + 2, x2);
    assert row + [x0, x1, x2] + [x3] == row + [x0, x1, x2, x3];
    ExpandNext(rule, start, n + 3, x3);
  }

  // How far elements k..n-1 are from what they have to be, in all.
  function Distance<T>(rule: Rule<T>, diff: (T, T) -> nat, k: nat, row: seq<T>, n: nat): nat
    requires k <= n <= |row|
  {
    if n == k then 0 else Distance(rule, diff, k, row, n - 1) + diff(rule(row, n - 1), row[n - 1])
  }

  lemma {:induction false} DistanceGrows<T>(rule: Rule<T>, diff: (T, T) -> nat, k: nat, row: seq<T>, n: nat, m: nat)
    requires k <= n <= m <= |row|
    ensures Distance(rule, diff, k, row, n) <= Distance(rule, diff, k, row, m)
  {
    if n < m {
      DistanceGrows(rule, diff, k, row, n, m - 1);
    }
  }

  ghost predicate TellsApart<T(!new)>(diff: (T, T) -> nat) {
    forall v, w :: diff(v, w) == 0 <==> v == w
  }

  lemma LastAgrees<T>(row: seq<T>, n: nat, before: seq<T>, x: T)
    requires 0 < n <= |row| && |before| == n - 1
    ensures row[..n] == before + [x] <==> row[..n - 1] == before && row[n - 1] == x
  {
    assert row[..n] == row[..n - 1] + [row[n - 1]];
    assert (before + [x])[..n - 1] == before && (before + [x])[n - 1] == x;
  }

  // Distance zero: exactly what the first elements expand to.
  lemma {:induction false} ZeroIsExpansion<T(!new)>(rule: Rule<T>, diff: (T, T) -> nat, k: nat, row: seq<T>, n: nat)
    requires LooksBack(rule) && TellsApart(diff) && k <= n <= |row|
    ensures Distance(rule, diff, k, row, n) == 0 <==> row[..n] == Expand(rule, row[..k], n)
  {
    if n > k {
      ZeroIsExpansion(rule, diff, k, row, n - 1);
      var before := Expand(rule, row[..k], n - 1);
      LastAgrees(row, n, before, rule(before, n - 1));
      assert BackAt(rule, row, n - 1);
    }
  }

  // The distance of the first elements does not depend on what follows them.
  lemma {:induction false} DistanceOfPrefix<T(!new)>(rule: Rule<T>, diff: (T, T) -> nat, k: nat, row: seq<T>, n: nat, m: nat)
    requires LooksBack(rule) && k <= n <= m <= |row|
    ensures Distance(rule, diff, k, row[..m], n) == Distance(rule, diff, k, row, n)
  {
    if n > k {
      DistanceOfPrefix(rule, diff, k, row, n - 1, m);
      assert row[..m][..n - 1] == row[..n - 1];
      assert BackAt(rule, row, n - 1) && BackAt(rule, row[..m], n - 1);
    }
  }

  ghost predicate RightAt<T>(rule: Rule<T>, diff: (T, T) -> nat, row: seq<T>, i: nat)
    requires i < |row|
  {
    diff(rule(row, i), row[i]) == 0
  }

  // Distance zero: every element is at distance zero from what it has to be.
  lemma {:induction false} ZeroIsEach<T>(rule: Rule<T>, diff: (T, T) -> nat, k: nat, row: seq<T>, n: nat)
    requires k <= n <= |row|
    ensures Distance(rule, diff, k, row, n) == 0 <==> forall i :: k <= i < n ==> RightAt(rule, diff, row, i)
  {
    if n > k {
      ZeroIsEach(rule, diff, k, row, n - 1);
      assert Distance(rule, diff, k, row, n) == 0 <==>
             Distance(rule, diff, k, row, n - 1) == 0 && RightAt(rule, diff, row, n - 1);
    }
  }
}
