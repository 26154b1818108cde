// The binary search tree as a value: what each operation of the pointer-based tree does to the
// tree of keys, and the ordering and content laws that follow.  BinaryTree.dfy proves that the
// pointer code computes exactly these functions.
module SearchTree {

  datatype Tree = Leaf | Branch(left: Tree, el: int, right: Tree)

  function Inorder(t: Tree): seq<int> {
    match t
    case Leaf => []
    case Branch(l, e, r) => Inorder(l) + [e] + Inorder(r)
  }

  ghost predicate Sorted(s: seq<int>) {
    forall i, j :: 0 <= i < j < |s| ==> s[i] <= s[j]
  }

  // ---------- what the operations compute ----------

  // Equal keys go to the right.
  function Insert(t: Tree, v: int): Tree {
    match t
    case Leaf => Branch(Leaf, v, Leaf)
    case Branch(l, e, r) => if v < e then Branch(Insert(l, v), e, r) else Branch(l, e, Insert(r, v))
  }

  predicate Search(t: Tree, v: int) {
    match t
    case Leaf => false
    case Branch(l, e, r) => v == e || (if v < e then Search(l, v) else Search(r, v))
  }

  // Largest-position (rightmost) key, and the tree without its node.
  function Last(t: Tree): int
    requires t.Branch?
  {
    if t.right.Leaf? then t.el else Last(t.right)
  }

  function DropLast(t: Tree): Tree
    requires t.Branch?
  {
    if t.right.Leaf? then t.left else Branch(t.left, t.el, DropLast(t.right))
  }

  function AttachRight(t: Tree, r: Tree): Tree
    requires t.Branch?
  {
    Branch(t.left, t.el, if t.right.Leaf? then r else AttachRight(t.right, r))
  }

  function RemoveRootByCopying(t: Tree): Tree
    requires t.Branch?
  {
    if t.right.Leaf? then t.left
    else if t.left.Leaf? then t.right
    else Branch(DropLast(t.left), Last(t.left), t.right)
  }

  function RemoveRootByMerging(t: Tree): Tree
    requires t.Branch?
  {
    if t.right.Leaf? then t.left
    else if t.left.Leaf? then t.right
    else AttachRight(t.left, t.right)
  }

  function DeleteByCopying(t: Tree, v: int): Tree {
    match t
    case Leaf => Leaf
    case Branch(l, e, r) =>
      if e == v then RemoveRootByCopying(t)
      else if v < e then Branch(DeleteByCopying(l, v), e, r)
      else Branch(l, e, DeleteByCopying(r, v))
  }

  function DeleteByMerging(t: Tree, v: int): Tree {
    match t
    case Leaf => Leaf
    case Branch(l, e, r) =>
      if e == v then RemoveRootByMerging(t)
      else if v < e then Branch(DeleteByMerging(l, v), e, r)
      else Branch(l, e, DeleteByMerging(r, v))
  }

  function Mirror(t: Tree): Tree {
    match t
    case Leaf => Leaf
    case Branch(l, e, r) => Branch(Mirror(r), e, Mirror(l))
  }

  // ---------- what they mean for the sequence of keys ----------

  ghost predicate InsertedAt(s: seq<int>, v: int, s': seq<int>, i: nat) {
    i <= |s| && s' == s[..i] + [v] + s[i..]
  }

  ghost predicate RemovedAt(s: seq<int>, v: int, s': seq<int>, i: nat) {
    i < |s| && s[i] == v && s' == s[..i] + s[i + 1..]
  }

  lemma SortedSplit(a: seq<int>, e: int, b: seq<int>)
    ensures Sorted(a + [e] + b) <==>
            Sorted(a) && Sorted(b) && (forall x :: x in a ==> x <= e) && (forall x :: x in b ==> e <= x)
  {
    var s := a + [e] + b;
    if Sorted(s) {
      forall i, j | 0 <= i < j < |a| ensures a[i] <= a[j] { assert s[i] <= s[j]; }
      forall i, j | 0 <= i < j < |b| ensures b[i] <= b[j] {
        assert s[|a| + 1 + i] <= s[|a| + 1 + j];
      }
      forall x | x in a ensures x <= e { var i :| 0 <= i < |a| && a[i] == x; assert s[i] <= s[|a|]; }
      forall x | x in b ensures e <= x {
        var i :| 0 <= i < |b| && b[i] == x;
        assert s[|a|] <= s[|a| + 1 + i];
      }
    }
    if Sorted(a) && Sorted(b) && (forall x :: x in a ==> x <= e) && (forall x :: x in b ==> e <= x) {
      forall i, j | 0 <= i < j < |s| ensures s[i] <= s[j] {
        assert i < |a| ==> s[i] == a[i];
        assert i > |a| ==> s[i] == b[i - |a| - 1];
        assert j < |a| ==> s[j] == a[j];
        assert j > |a| ==> s[j] == b[j - |a| - 1];
        if i < |a| { assert s[i] in a; }
        if j > |a| { assert s[j] in b; }
      }
    }
  }

  lemma InsertedInLeft(a: seq<int>, i: nat, v: int, e: int, b: seq<int>)
    requires i <= |a|
    ensures InsertedAt(a + [e] + b, v, a[..i] + [v] + a[i..] + [e] + b, i)
    ensures (a + [e] + b)[..i] == a[..i] && (a + [e] + b)[i..] == a[i..] + [e] + b
  {
    assert (a + [e] + b)[..i] == a[..i] && (a + [e] + b)[i..] == a[i..] + [e] + b;
    assert a[..i] + [v] + a[i..] + [e] + b == a[..i] + [v] + (a[i..] + [e] + b);
  }

  lemma InsertedInRight(a: seq<int>, e: int, b: seq<int>, j: nat, v: int)
    requires j <= |b|
    ensures InsertedAt(a + [e] + b, v, a + [e] + (b[..j] + [v] + b[j..]), |a| + 1 + j)
    ensures (a + [e] + b)[..|a| + 1 + j] == a + [e] + b[..j] && (a + [e] + b)[|a| + 1 + j..] == b[j..]
  {
    var i := |a| + 1 + j;
    assert (a + [e] + b)[..i] == a + [e] + b[..j] && (a + [e] + b)[i..] == b[j..];
    assert a + [e] + (b[..j] + [v] + b[j..]) == a + [e] + b[..j] + [v] + b[j..];
  }

  // A key reaches its sorted place, after every equal key.
  lemma {:induction false} InsertInorder(t: Tree, v: int) returns (i: nat)
    requires Sorted(Inorder(t))
    ensures InsertedAt(Inorder(t), v, Inorder(Insert(t, v)), i)
    ensures forall x :: x in Inorder(t)[..i] ==> x <= v
    ensures forall x :: x in Inorder(t)[i..] ==> v < x
  {
    match t
    case Leaf => i := 0;
    case Branch(l, e, r) =>
      var a, b := Inorder(l), Inorder(r);
      SortedSplit(a, e, b);
      if v < e {
        i := InsertInorder(l, v);
        InsertedInLeft(a, i, v, e, b);
      } else {
        var j := InsertInorder(r, v);
        i := |a| + 1 + j;
        InsertedInRight(a, e, b, j, v);
      }
  }

  lemma {:induction false} InsertKeepsOrder(t: Tree, v: int)
    requires Sorted(Inorder(t))
    ensures Sorted(Inorder(Insert(t, v)))
  {
    var s := Inorder(t);
    var i := InsertInorder(t, v);
    SortedSplit(s[..i], v, s[i..]);
  }

  // On an ordered tree the search path finds a key iff the tree holds it.
  lemma {:induction false} SearchIffMember(t: Tree, v: int)
    requires Sorted(Inorder(t))
    ensures Search(t, v) <==> v in Inorder(t)
  {
    match t
    case Leaf =>
    case Branch(l, e, r) =>
      SortedSplit(Inorder(l), e, Inorder(r));
      SearchIffMember(l, v);
      SearchIffMember(r, v);
  }

  lemma {:induction false} LastInorder(t: Tree)
    requires t.Branch?
    ensures Inorder(t) == Inorder(DropLast(t)) + [Last(t)]
  {
    if t.right.Branch? {
      LastInorder(t.right);
    }
  }

  lemma {:induction false} AttachInorder(t: Tree, r: Tree)
    requires t.Branch?
    ensures Inorder(AttachRight(t, r)) == Inorder(t) + Inorder(r)
  {
    if t.right.Branch? {
      AttachInorder(t.right, r);
    }
  }

  lemma RemoveRootInorder(t: Tree)
    requires t.Branch?
    ensures Inorder(RemoveRootByCopying(t)) == Inorder(t.left) + Inorder(t.right)
    ensures Inorder(RemoveRootByMerging(t)) == Inorder(t.left) + Inorder(t.right)
  {
    if t.left.Branch? {
      LastInorder(t.left);
      AttachInorder(t.left, t.right);
    }
  }

  // Both deletions, on any tree ordered or not: if the search path meets the key, exactly one
  // occurrence leaves the in-order sequence; otherwise the tree is untouched.
  lemma {:induction false} DeleteInorder(t: Tree, v: int) returns (i: nat)
    ensures Search(t, v) ==> RemovedAt(Inorder(t), v, Inorder(DeleteByCopying(t, v)), i)
    ensures Search(t, v) ==> RemovedAt(Inorder(t), v, Inorder(DeleteByMerging(t, v)), i)
    ensures !Search(t, v) ==> DeleteByCopying(t, v) == t == DeleteByMerging(t, v)
  {
    match t
    case Leaf => i := 0;
    case Branch(l, e, r) =>
      var a, b := Inorder(l), Inorder(r);
      if e == v {
        i := |a|;
        RemoveRootInorder(t);
      } else if v < e {
        i := DeleteInorder(l, v);
        if Search(l, v) {
          assert a[..i] + a[i + 1..] + [e] + b == (a + [e] + b)[..i] + (a + [e] + b)[i + 1..];
        }
      } else {
        var j := DeleteInorder(r, v);
        i := |a| + 1 + j;
        if Search(r, v) {
          assert a + [e] + (b[..j] + b[j + 1..]) == (a + [e] + b)[..i] + (a + [e] + b)[i + 1..];
        }
      }
  }

  lemma RemovedFacts(s: seq<int>, v: int, s': seq<int>, i: nat)
    requires RemovedAt(s, v, s', i)
    ensures multiset(s') == multiset(s) - multiset{v}
    ensures Sorted(s) ==> Sorted(s')
  {
    assert s == s[..i] + [v] + s[i + 1..];
    if Sorted(s) {
      SortedSplit(s[..i], v, s[i + 1..]);
      SortedSplice(s[..i], v, s[i + 1..]);
    }
  }

  lemma SortedSplice(a: seq<int>, v: int, b: seq<int>)
    requires Sorted(a) && Sorted(b) && (forall x :: x in a ==> x <= v) && (forall x :: x in b ==> v <= x)
    ensures Sorted(a + b)
  {
    var s := a + b;
    forall i, j | 0 <= i < j < |s| ensures s[i] <= s[j] {
      if i < |a| <= j {
        assert a[i] in a && b[j - |a|] in b;
      }
    }
  }

  lemma InsertedFacts(s: seq<int>, v: int, s': seq<int>, i: nat)
    requires InsertedAt(s, v, s', i)
    ensures multiset(s') == multiset(s) + multiset{v}
  {
    assert s == s[..i] + s[i..];
  }

  // ---------- every history of operations ----------

  datatype Op = Add(v: int) | RemoveByCopying(v: int) | RemoveByMerging(v: int)

  function Apply(t: Tree, op: Op): Tree {
    match op
    case Add(v) => Insert(t, v)
    case RemoveByCopying(v) => DeleteByCopying(t, v)
    case RemoveByMerging(v) => DeleteByMerging(t, v)
  }

  function Run(ops: seq<Op>): Tree {
    if ops == [] then Leaf else Apply(Run(ops[..|ops| - 1]), ops[|ops| - 1])
  }

  // The bag of keys a history leaves behind; no trees involved.
  function Bag(ops: seq<Op>): multiset<int> {
    if ops == [] then multiset{}
    else
      var b := Bag(ops[..|ops| - 1]);
      match ops[|ops| - 1]
      case Add(v) => b + multiset{v}
      case RemoveByCopying(v) => b - multiset{v}
      case RemoveByMerging(v) => b - multiset{v}
  }

  lemma AddKeepsOrder(t: Tree, v: int)
    requires Sorted(Inorder(t))
    ensures Sorted(Inorder(Insert(t, v))) && multiset(Inorder(Insert(t, v))) == multiset(Inorder(t)) + multiset{v}
  {
    var i := InsertInorder(t, v);
    InsertKeepsOrder(t, v);
    InsertedFacts(Inorder(t), v, Inorder(Insert(t, v)), i);
  }

  lemma RemoveKeepsOrder(t: Tree, op: Op)
    requires Sorted(Inorder(t)) && !op.Add?
    ensures Sorted(Inorder(Apply(t, op))) && multiset(Inorder(Apply(t, op))) == multiset(Inorder(t)) - multiset{op.v}
  {
    var i := DeleteInorder(t, op.v);
    SearchIffMember(t, op.v);
    if Search(t, op.v) {
      RemovedFacts(Inorder(t), op.v, Inorder(Apply(t, op)), i);
    }
  }

  lemma ApplyKeepsOrder(t: Tree, op: Op)
    requires Sorted(Inorder(t))
    ensures Sorted(Inorder(Apply(t, op)))
    ensures op.Add? ==> multiset(Inorder(Apply(t, op))) == multiset(Inorder(t)) + multiset{op.v}
    ensures !op.Add? ==> multiset(Inorder(Apply(t, op))) == multiset(Inorder(t)) - multiset{op.v}
  {
    if op.Add? {
      AddKeepsOrder(t, op.v);
    } else {
      RemoveKeepsOrder(t, op);
    }
  }

  // After any mix of insertions and both kinds of deletion: the tree is ordered, it holds exactly
  // the bag of keys the history describes, and searching is sound and complete for that bag.
  lemma {:induction false} EveryHistory(ops: seq<Op>, v: int)
    ensures Sorted(Inorder(Run(ops)))
    ensures multiset(Inorder(Run(ops))) == Bag(ops)
    ensures Search(Run(ops), v) <==> v in Bag(ops)
  {
    if ops != [] {
      EveryHistory(ops[..|ops| - 1], v);
      ApplyKeepsOrder(Run(ops[..|ops| - 1]), ops[|ops| - 1]);
    }
    SearchIffMember(Run(ops), v);
    assert v in Inorder(Run(ops)) <==> v in multiset(Inorder(Run(ops)));
  }

  // ---------- what they do to the shape ----------

  // One empty place of t has become a node that holds v.
  ghost predicate Grown(t: Tree, v: int, t': Tree) {
    match t
    case Leaf => t' == Branch(Leaf, v, Leaf)
    case Branch(l, e, r) =>
      t'.Branch? && t'.el == e && ((Grown(l, v, t'.left) && t'.right == r) || (t'.left == l && Grown(r, v, t'.right)))
  }

  // A new key is a new leaf, every other node stays where it is.
  lemma {:induction false} InsertGrows(t: Tree, v: int)
    ensures Grown(t, v, Insert(t, v))
  {
    match t
    case Leaf =>
    case Branch(l, e, r) =>
      if v < e {
        InsertGrows(l, v);
      } else {
        InsertGrows(r, v);
      }
  }

  // The keys from the root along the right links.
  function RightKeys(t: Tree): seq<int> {
    match t
    case Leaf => []
    case Branch(_, e, r) => [e] + RightKeys(r)
  }

  // The left parts of the same nodes.
  function LeftParts(t: Tree): seq<Tree> {
    match t
    case Leaf => []
    case Branch(l, _, r) => [l] + LeftParts(r)
  }

  lemma {:induction false} AttachedRight(t: Tree, r: Tree)
    requires t.Branch?
    ensures RightKeys(AttachRight(t, r)) == RightKeys(t) + RightKeys(r)
    ensures LeftParts(AttachRight(t, r)) == LeftParts(t) + LeftParts(r)
  {
    if t.right.Branch? {
      AttachedRight(t.right, r);
    }
  }

  lemma {:induction false} DroppedLast(t: Tree) returns (keys: seq<int>, parts: seq<Tree>, left: Tree)
    requires t.Branch?
    ensures RightKeys(t) == keys + [Last(t)] && LeftParts(t) == parts + [left] && |keys| == |parts|
    ensures RightKeys(DropLast(t)) == keys + RightKeys(left) && LeftParts(DropLast(t)) == parts + LeftParts(left)
  {
    if t.right.Leaf? {
      keys, parts, left := [], [], t.left;
    } else {
      keys, parts, left := DroppedLast(t.right);
      Prepended(t.el, keys, [Last(t)], RightKeys(left));
      Prepended(t.left, parts, [left], LeftParts(left));
      keys, parts := [t.el] + keys, [t.left] + parts;
    }
  }

  lemma Prepended<T>(x: T, a: seq<T>, b: seq<T>, c: seq<T>)
    ensures [x] + (a + b) == ([x] + a) + b && [x] + (a + c) == ([x] + a) + c
  {
  }

  // Merging hangs the right part under the end of the right links of the left part; copying keeps
  // the right part, and its new root key is the last of the left part.
  lemma RemovedShapes(t: Tree)
    requires t.Branch? && t.left.Branch? && t.right.Branch?
    ensures var merged := RemoveRootByMerging(t);
            && RightKeys(merged) == RightKeys(t.left) + RightKeys(t.right)
            && LeftParts(merged) == LeftParts(t.left) + LeftParts(t.right)
    ensures var copied := RemoveRootByCopying(t); var n := |RightKeys(t.left)| - 1;
            && n >= 0 && |LeftParts(t.left)| == n + 1 && copied.Branch? && copied.right == t.right
            && copied.el == RightKeys(t.left)[n]
            && RightKeys(copied.left) == RightKeys(t.left)[..n] + RightKeys(LeftParts(t.left)[n])
            && LeftParts(copied.left) == LeftParts(t.left)[..n] + LeftParts(LeftParts(t.left)[n])
  {
    AttachedRight(t.left, t.right);
    var keys, parts, left := DroppedLast(t.left);
    assert RightKeys(t.left)[..|keys|] == keys && LeftParts(t.left)[..|keys|] == parts;
  }

  // ---------- balance ----------

  // What balance does to a tree: the middle key of data[first..last], then the keys before it, then
  // the keys after it, each inserted from the root.
  function Balanced(t: Tree, data: seq<int>, first: int, last: int): Tree
    requires 0 <= first <= last + 1 <= |data|
    decreases last + 1 - first
  {
    if first > last then t
    else
      var middle := (first + last) / 2;
      Balanced(Balanced(Insert(t, data[middle]), data, first, middle - 1), data, middle + 1, last)
  }

  // The tree one would build bottom-up from the middle out.
  function Halved(data: seq<int>, first: int, last: int): Tree
    requires 0 <= first <= last + 1 <= |data|
    decreases last + 1 - first
  {
    if first > last then Leaf
    else
      var middle := (first + last) / 2;
      Branch(Halved(data, first, middle - 1), data[middle], Halved(data, middle + 1, last))
  }

  function Preorder(t: Tree): seq<int> {
    match t
    case Leaf => []
    case Branch(l, e, r) => [e] + Preorder(l) + Preorder(r)
  }

  function InsertAll(t: Tree, s: seq<int>): Tree
    decreases |s|
  {
    if s == [] then t else InsertAll(Insert(t, s[0]), s[1..])
  }

  lemma {:induction false} InsertBoth(t: Tree, a: seq<int>, b: seq<int>)
    ensures InsertAll(t, a + b) == InsertAll(InsertAll(t, a), b)
    decreases |a|
  {
    if a == [] {
      assert a + b == b;
    } else {
      assert (a + b)[1..] == a[1..] + b;
      InsertBoth(Insert(t, a[0]), a[1..], b);
    }
  }

  // Whatever the data, sorted or not: the keys are inserted in the pre-order of the halved tree.
  lemma {:induction false} BalanceInserts(t: Tree, data: seq<int>, first: int, last: int, h: Tree)
    requires 0 <= first <= last + 1 <= |data| && h == Halved(data, first, last)
    ensures Balanced(t, data, first, last) == InsertAll(t, Preorder(h))
    decreases last + 1 - first
  {
    if first <= last {
      var middle := (first + last) / 2;
      var t1 := Insert(t, data[middle]);
      BalanceInserts(t1, data, first, middle - 1, h.left);
      BalanceInserts(Balanced(t1, data, first, middle - 1), data, middle + 1, last, h.right);
      InsertBoth(t1, Preorder(h.left), Preorder(h.right));
      assert Preorder(h) == [h.el] + (Preorder(h.left) + Preorder(h.right));
    }
  }

  function Height(t: Tree): nat {
    match t
    case Leaf => 0
    case Branch(l, _, r) => 1 + if Height(l) < Height(r) then Height(r) else Height(l)
  }

  function Pow2(n: nat): nat { if n == 0 then 1 else 2 * Pow2(n - 1) }

  ghost predicate StrictlyIncreasing(s: seq<int>) {
    forall i, j :: 0 <= i < j < |s| ==> s[i] < s[j]
  }

  lemma {:induction false} BalancedBelow(l: Tree, e: int, r: Tree, data: seq<int>, first: int, last: int)
    requires 0 <= first <= last + 1 <= |data|
    requires forall i :: first <= i <= last ==> data[i] < e
    ensures Balanced(Branch(l, e, r), data, first, last) == Branch(Balanced(l, data, first, last), e, r)
    decreases last + 1 - first
  {
    if first <= last {
      var middle := (first + last) / 2;
      var l1 := Insert(l, data[middle]);
      BalancedBelow(l1, e, r, data, first, middle - 1);
      BalancedBelow(Balanced(l1, data, first, middle - 1), e, r, data, middle + 1, last);
    }
  }

  lemma {:induction false} BalancedAbove(l: Tree, e: int, r: Tree, data: seq<int>, first: int, last: int)
    requires 0 <= first <= last + 1 <= |data|
    requires forall i :: first <= i <= last ==> e <= data[i]
    ensures Balanced(Branch(l, e, r), data, first, last) == Branch(l, e, Balanced(r, data, first, last))
    decreases last + 1 - first
  {
    if first <= last {
      var middle := (first + last) / 2;
      var r1 := Insert(r, data[middle]);
      BalancedAbove(l, e, r1, data, first, middle - 1);
      BalancedAbove(l, e, Balanced(r1, data, first, middle - 1), data, middle + 1, last);
    }
  }

  // Inserting from the root each time still builds the halved tree.
  lemma {:induction false} BalancedIsHalved(data: seq<int>, first: int, last: int)
    requires 0 <= first <= last + 1 <= |data| && StrictlyIncreasing(data)
    ensures Balanced(Leaf, data, first, last) == Halved(data, first, last)
    decreases last + 1 - first
  {
    if first <= last {
      var middle := (first + last) / 2;
      var e := data[middle];
      BalancedIsHalved(data, first, middle - 1);
      BalancedIsHalved(data, middle + 1, last);
      BalancedBelow(Leaf, e, Leaf, data, first, middle - 1);
      BalancedAbove(Halved(data, first, middle - 1), e, Leaf, data, middle + 1, last);
    }
  }

  lemma {:induction false} Pow2Monotone(a: nat, b: nat)
    requires a <= b
    ensures Pow2(a) <= Pow2(b)
    decreases b
  {
    if a < b {
      Pow2Monotone(a, b - 1);
    }
  }

  // Two trees, each of minimal height, whose sizes differ by at most one.
  lemma HeightsOfHalves(lo: nat, hl: nat, hi: nat, hr: nat)
    requires lo <= hi <= lo + 1 && 0 < hi
    requires lo < Pow2(hl) && hi < Pow2(hr)
    requires 0 < lo ==> 0 < hl && Pow2(hl - 1) <= lo
    requires lo == 0 ==> hl == 0
    requires 0 < hr && Pow2(hr - 1) <= hi
    ensures hl <= hr <= hl + 1
    ensures lo < Pow2(hr)
    ensures Pow2(hr) <= lo + hi + 1
  {
    if hl > hr {
      Pow2Monotone(hr, hl - 1);
    }
    if hr > hl + 1 {
      Pow2Monotone(hl + 1, hr - 1);
    }
  }

  // A tree of minimal height for its size.
  ghost predicate Compact(t: Tree, size: nat) {
    && size < Pow2(Height(t))
    && (0 < size ==> 0 < Height(t) && Pow2(Height(t) - 1) <= size)
    && (size == 0 ==> Height(t) == 0)
  }

  lemma CompactBranch(l: Tree, e: int, r: Tree, lo: nat, hi: nat)
    requires Compact(l, lo) && Compact(r, hi) && lo <= hi <= lo + 1
    ensures Compact(Branch(l, e, r), lo + hi + 1)
  {
    if 0 < hi {
      HeightsOfHalves(lo, Height(l), hi, Height(r));
    }
  }

  lemma Halves(data: seq<int>, first: int, middle: int, last: int)
    requires 0 <= first <= middle <= last < |data|
    ensures data[first..last + 1] == data[first..middle] + [data[middle]] + data[middle + 1..last + 1]
  {
  }

  lemma {:induction false} HalvedInorder(data: seq<int>, first: int, last: int, t: Tree)
    requires 0 <= first <= last + 1 <= |data| && t == Halved(data, first, last)
    ensures Inorder(t) == data[first..last + 1]
    decreases last + 1 - first
  {
    if first <= last {
      var middle := (first + last) / 2;
      Halves(data, first, middle, last);
      HalvedInorder(data, first, middle - 1, t.left);
      HalvedInorder(data, middle + 1, last, t.right);
    }
  }

  lemma {:induction false} HalvedIsCompact(data: seq<int>, first: int, last: int, t: Tree)
    requires 0 <= first <= last + 1 <= |data| && t == Halved(data, first, last)
    ensures Compact(t, last + 1 - first)
    decreases last + 1 - first
  {
    if first <= last {
      var middle := (first + last) / 2;
      HalvedIsCompact(data, first, middle - 1, t.left);
      HalvedIsCompact(data, middle + 1, last, t.right);
      CompactBranch(t.left, t.el, t.right, middle - first, last - middle);
    }
  }

  // Any tree of n keys needs at least the height the halved tree has.
  lemma {:induction false} HeightBound(t: Tree)
    ensures |Inorder(t)| < Pow2(Height(t))
  {
    match t
    case Leaf =>
    case Branch(l, _, r) =>
      HeightBound(l);
      HeightBound(r);
      Pow2Monotone(Height(l), Height(t) - 1);
      Pow2Monotone(Height(r), Height(t) - 1);
  }

  // No tree with as many keys is lower than a compact one.
  lemma CompactIsLowest(t: Tree, size: nat, other: Tree)
    requires Compact(t, size) && |Inorder(other)| == size
    ensures Height(t) <= Height(other)
  {
    HeightBound(other);
    if Height(other) < Height(t) {
      Pow2Monotone(Height(other), Height(t) - 1);
    }
  }

  // balance on a strictly increasing array, from the empty tree: in-order gives the array back and
  // no tree with as many keys is lower.
  lemma BalanceIsOptimal(data: seq<int>, t: Tree, other: Tree)
    requires StrictlyIncreasing(data) && t == Balanced(Leaf, data, 0, |data| - 1)
    requires |Inorder(other)| == |data|
    ensures Inorder(t) == data
    ensures Compact(t, |data|)
    ensures Height(t) <= Height(other)
  {
    BalanceFacts(data, t);
    CompactIsLowest(t, |data|, other);
  }

  lemma BalanceFacts(data: seq<int>, t: Tree)
    requires StrictlyIncreasing(data) && t == Balanced(Leaf, data, 0, |data| - 1)
    ensures Inorder(t) == data && Compact(t, |data|)
  {
    BalancedIsHalved(data, 0, |data| - 1);
    HalvedFacts(data, |data| - 1, t);
  }

  lemma HalvedFacts(data: seq<int>, last: int, t: Tree)
    requires last == |data| - 1 && t == Halved(data, 0, last)
    ensures Inorder(t) == data && Compact(t, |data|)
  {
    HalvedInorder(data, 0, last, t);
    HalvedIsCompact(data, 0, last, t);
    assert data[0..last + 1] == data;
  }

  // ---------- reverseTree ----------

  function Reversed(s: seq<int>): seq<int> {
    if s == [] then [] else Reversed(s[1..]) + [s[0]]
  }

  lemma {:induction false} ReversedConcat(a: seq<int>, b: seq<int>)
    ensures Reversed(a + b) == Reversed(b) + Reversed(a)
  {
    if a == [] {
      assert a + b == b;
    } else {
      assert (a + b)[1..] == a[1..] + b;
      ReversedConcat(a[1..], b);
    }
  }

  lemma ReversedAround(a: seq<int>, e: int, b: seq<int>)
    ensures Reversed(a + [e] + b) == Reversed(b) + [e] + Reversed(a)
  {
    ReversedConcat(a + [e], b);
    ReversedConcat(a, [e]);
    assert Reversed([e]) == [e];
    assert Reversed(b) + ([e] + Reversed(a)) == Reversed(b) + [e] + Reversed(a);
  }

  lemma {:induction false} MirrorReverses(t: Tree)
    ensures Inorder(Mirror(t)) == Reversed(Inorder(t))
  {
    if t.Branch? {
      MirrorReverses(t.left);
      MirrorReverses(t.right);
      ReversedAround(Inorder(t.left), t.el, Inorder(t.right));
    }
  }

  lemma {:induction false} MirrorTwice(t: Tree)
    ensures Mirror(Mirror(t)) == t
  {
    if t.Branch? {
      MirrorTwice(t.left);
      MirrorTwice(t.right);
    }
  }
}
