// The equivalence closure of a finite relation: being joined by a walk along its pairs, in either
// direction.
module Reach {

  ghost predicate Joined<T>(e: set<(T, T)>, a: T, b: T) {
    (a, b) in e || (b, a) in e
  }

  ghost predicate Walk<T>(e: set<(T, T)>, p: seq<T>) {
    p != [] && forall i :: 0 <= i < |p| - 1 ==> Joined(e, p[i], p[i + 1])
  }

  ghost predicate WalkFrom<T>(e: set<(T, T)>, p: seq<T>, a: T, b: T) {
    Walk(e, p) && p[0] == a && p[|p| - 1] == b
  }

  ghost predicate Linked<T(!new)>(e: set<(T, T)>, a: T, b: T) {
    exists p: seq<T> :: WalkFrom(e, p, a, b)
  }

  lemma LinkedSelf<T(!new)>(e: set<(T, T)>, a: T)
    ensures Linked(e, a, a)
  {
    assert WalkFrom(e, [a], a, a);
  }

  lemma LinkedStep<T(!new)>(e: set<(T, T)>, a: T, b: T)
    requires Joined(e, a, b)
    ensures Linked(e, a, b) && Linked(e, b, a)
  {
    assert WalkFrom(e, [a, b], a, b);
    assert WalkFrom(e, [b, a], b, a);
  }

  lemma LinkedTrans<T(!new)>(e: set<(T, T)>, a: T, b: T, c: T)
    requires Linked(e, a, b) && Linked(e, b, c)
    ensures Linked(e, a, c)
  {
    var p :| WalkFrom(e, p, a, b);
    var q :| WalkFrom(e, q, b, c);
    var r := p + q[1..];
    forall i | 0 <= i < |r| - 1 ensures Joined(e, r[i], r[i + 1]) {
      if i >= |p| - 1 {
        assert r[i] == q[i - |p| + 1] && r[i + 1] == q[i - |p| + 2];
      }
    }
    assert WalkFrom(e, r, a, c);
  }

  lemma LinkedMono<T(!new)>(e: set<(T, T)>, e': set<(T, T)>, a: T, b: T)
    requires Linked(e, a, b) && e <= e'
    ensures Linked(e', a, b)
  {
    var p :| WalkFrom(e, p, a, b);
    assert WalkFrom(e', p, a, b);
  }

  // A walk along pairs that a function maps together stays in one class of that function.
  lemma {:induction false} WalkInClass<T(!new), C>(e: set<(T, T)>, p: seq<T>, f: T -> C)
    requires Walk(e, p) && forall x, y :: (x, y) in e ==> f(x) == f(y)
    ensures f(p[0]) == f(p[|p| - 1])
  {
    if |p| > 1 {
      assert Joined(e, p[0], p[1]);
      forall i | 0 <= i < |p[1..]| - 1 ensures Joined(e, p[1..][i], p[1..][i + 1]) {
        assert Joined(e, p[i + 1], p[i + 2]);
      }
      WalkInClass(e, p[1..], f);
    }
  }

  lemma LinkedInClass<T(!new), C>(e: set<(T, T)>, a: T, b: T, f: T -> C)
    requires Linked(e, a, b) && forall x, y :: (x, y) in e ==> f(x) == f(y)
    ensures f(a) == f(b)
  {
    var p :| WalkFrom(e, p, a, b);
    WalkInClass(e, p, f);
  }

  lemma LinkedSym<T(!new)>(e: set<(T, T)>, a: T, b: T)
    requires Linked(e, a, b)
    ensures Linked(e, b, a)
  {
    var p :| WalkFrom(e, p, a, b);
    var r := seq(|p|, i requires 0 <= i < |p| => p[|p| - 1 - i]);
    forall i | 0 <= i < |r| - 1 ensures Joined(e, r[i], r[i + 1]) {
      assert Joined(e, p[|p| - 2 - i], p[|p| - 1 - i]);
    }
    assert WalkFrom(e, r, b, a);
  }
}
