// Morris traversal without a tree in sight: which right pointers are borrowed as threads while the
// traversal is under way, and why every borrowed pointer is found and given back.
module Threads {
  import opened TreeNodes

  // The nodes whose left subtree is being traversed, innermost first, each with its own subtree.
  datatype Stack = Bottom | Push(top: Shape, rest: Stack)

  // The heap with one thread per pending node: from the last node of its left subtree back to it.
  ghost function Threaded(h: Heap, st: Stack): Heap
    requires Pending(h, st)
  {
    match st
    case Bottom => h
    case Push(f, rest) => Written(Threaded(h, rest), RightOf(Last(f.l)), f.n)
  }

  ghost predicate Pending(h: Heap, st: Stack) {
    st.Push? ==> st.top.Node? && st.top.l.Node? && Rep(h, st.top) && Distinct(st.top) && Pending(h, st.rest)
  }

  // cur is what is left of the innermost pending left subtree: either it still ends where that
  // subtree ends, or nothing of it is left.
  ghost predicate Nested(h: Heap, cur: Shape, st: Stack)
    decreases st
  {
    && Rep(h, cur) && Distinct(cur)
    && (st.Push? ==>
          && st.top.Node? && st.top.l.Node?
          && Nodes(cur) <= Nodes(st.top.l)
          && (cur.Node? ==> Last(cur) == Last(st.top.l))
          && Nested(h, st.top, st.rest))
  }

  ghost function Sources(st: Stack): set<BSTNode> {
    if st.Push? && st.top.Node? && st.top.l.Node? then {Last(st.top.l)} + Sources(st.rest) else {}
  }

  // Where the traversal stands: at the entry of cur, or back at the innermost pending node.
  ghost function Position(cur: Shape, st: Stack): BSTNode? {
    if cur.Node? then cur.n else if st.Push? then Entry(st.top) else null
  }

  lemma {:induction false} NestedIsPending(h: Heap, cur: Shape, st: Stack)
    requires Nested(h, cur, st)
    ensures Pending(h, st)
    decreases st
  {
    if st.Push? {
      NestedIsPending(h, st.top, st.rest);
    }
  }

  lemma {:induction false} LastIsLast(s: Shape)
    requires s.Node? && Distinct(s)
    ensures Last(s) in Nodes(s) && Last(s) !in Nodes(s.l)
  {
    if s.r.Node? {
      LastIsLast(s.r);
    }
  }

  // No thread starts inside cur, except perhaps at its last node.
  lemma {:induction false} SourcesOutside(h: Heap, cur: Shape, st: Stack, x: BSTNode)
    requires Nested(h, cur, st) && cur.Node? && x in Nodes(cur) && x in Sources(st)
    ensures x == Last(cur)
    decreases st
  {
    if st.Push? && x != Last(st.top.l) {
      LastIsLast(st.top);
      SourcesOutside(h, st.top, st.rest, x);
      assert false;
    }
  }

  lemma {:induction false} ThreadedCells(h: Heap, cur: Shape, st: Stack)
    requires Nested(h, cur, st)
    ensures Pending(h, st) && Threaded(h, st).Keys == h.Keys
    ensures forall x :: x in h ==> Threaded(h, st)[x].left == h[x].left && Threaded(h, st)[x].el == h[x].el
    ensures forall x :: x in h && x !in Sources(st) ==> Threaded(h, st)[x] == h[x]
    ensures forall x :: x in Sources(st) ==> x in h && h[x].right == null
    decreases st
  {
    NestedIsPending(h, cur, st);
    if st.Push? {
      LastFacts(h, st.top.l);
      ThreadedCells(h, st.top, st.rest);
    }
  }

  // Following the right pointer of cur's root: into its right subtree, or along the thread.
  lemma StepRight(h: Heap, cur: Shape, st: Stack)
    requires Nested(h, cur, st) && cur.Node?
    ensures Pending(h, st) && cur.n in Threaded(h, st)
    ensures Threaded(h, st)[cur.n].right == Position(cur.r, st)
    ensures Nested(h, cur.r, st)
  {
    ThreadedCells(h, cur, st);
    if cur.r.Node? {
      assert h[cur.n].right == cur.r.n;
    } else if st.Push? {
      assert cur.n == Last(st.top.l);
      ThreadedCells(h, st.top, st.rest);
    }
  }

  // Entering cur's left subtree after tying its last node back to cur's root.
  lemma TieThread(h: Heap, cur: Shape, st: Stack)
    requires Nested(h, cur, st) && cur.Node? && cur.l.Node?
    ensures Pending(h, st) && Pending(h, Push(cur, st)) && Last(cur.l) in Threaded(h, st)
    ensures Threaded(h, st)[Last(cur.l)].right == null
    ensures Threaded(h, Push(cur, st)) == Written(Threaded(h, st), RightOf(Last(cur.l)), cur.n)
    ensures Nested(h, cur.l, Push(cur, st))
  {
    ThreadedCells(h, cur, st);
    LastFacts(h, cur.l);
    LastIsLast(cur);
    if Last(cur.l) in Sources(st) {
      SourcesOutside(h, cur, st, Last(cur.l));
    }
  }

  // Back at the pending node: cutting its thread restores the heap of the outer traversal.
  lemma CutThread(h: Heap, st: Stack)
    requires st.Push? && Nested(h, Nil, st)
    ensures Pending(h, st) && Last(st.top.l) in Threaded(h, st)
    ensures Threaded(h, st)[Last(st.top.l)].right == st.top.n
    ensures Written(Threaded(h, st), RightOf(Last(st.top.l)), null) == Threaded(h, st.rest)
    ensures st.top.n in Threaded(h, st.rest)
    ensures Threaded(h, st.rest)[st.top.n].right == Position(st.top.r, st.rest)
    ensures Nested(h, st.top.r, st.rest)
  {
    var f, rest := st.top, st.rest;
    ThreadedCells(h, Nil, st);
    ThreadedCells(h, f, rest);
    LastFacts(h, f.l);
    LastIsLast(f);
    if Last(f.l) in Sources(rest) {
      SourcesOutside(h, f, rest, Last(f.l));
    }
    StepRight(h, f, rest);
  }

  // One step of the walk down the right side of a subtree l of the original tree.
  lemma SpineStep(h: Heap, cur: Shape, st: Stack, l: Shape, sub: Shape)
    requires Nested(h, cur, st) && l.Node?
    requires sub.Node? && Rep(h, sub) && Last(sub) == Last(l)
    ensures Pending(h, st) && sub.n in Threaded(h, st)
    ensures if sub.r.Node? then Threaded(h, st)[sub.n].right == sub.r.n && Last(sub.r) == Last(l) else sub.n == Last(l)
  {
    ThreadedCells(h, cur, st);
  }

  // ---------- the state of a traversal and its three moves ----------

  // now is the heap at a moment of the traversal of the tree that h spells out; p is the cursor.
  ghost predicate At(h: Heap, cur: Shape, st: Stack, now: Heap, p: BSTNode?) {
    Nested(h, cur, st) && Pending(h, st) && now == Threaded(h, st) && p == Position(cur, st)
  }

  // The left subtree whose end the walk looks for, on the way down and on the way back.
  ghost function LeftPart(cur: Shape, st: Stack): Shape {
    if cur.Node? then cur.l else if st.Push? && st.top.Node? then st.top.l else Nil
  }

  lemma CursorInHeap(h: Heap, cur: Shape, st: Stack, now: Heap, p: BSTNode)
    requires At(h, cur, st, now, p)
    ensures p in now && now.Keys == h.Keys
  {
    ThreadedCells(h, cur, st);
    if cur.Nil? {
      assert Rep(h, st.top);
    }
  }

  // What a node with a left child finds there.
  lemma AtLeftChild(h: Heap, cur: Shape, st: Stack, now: Heap, p: BSTNode)
    requires At(h, cur, st, now, p) && p in now && now[p].left != null
    ensures var l := LeftPart(cur, st);
            && l.Node? && Rep(h, l) && Distinct(l) && p !in Nodes(l) && now[p].left == l.n
            && Last(l) in now && now[Last(l)].right == if cur.Node? then null else p
  {
    ThreadedCells(h, cur, st);
    if cur.Node? {
      TieThread(h, cur, st);
    } else {
      CutThread(h, st);
    }
  }

  lemma MoveRight(h: Heap, cur: Shape, st: Stack, now: Heap, p: BSTNode)
    requires At(h, cur, st, now, p) && p in now && now[p].left == null
    ensures cur.Node? && cur.n == p && cur.l.Nil?
    ensures At(h, cur.r, st, now, now[p].right)
  {
    ThreadedCells(h, cur, st);
    if cur.Node? {
      StepRight(h, cur, st);
    }
  }

  lemma MoveDown(h: Heap, cur: Shape, st: Stack, now: Heap, p: BSTNode, tmp: BSTNode)
    requires At(h, cur, st, now, p) && p in now && now[p].left != null
    requires LeftPart(cur, st).Node? && tmp == Last(LeftPart(cur, st)) && tmp in now && now[tmp].right == null
    ensures cur.Node? && cur.n == p && cur.l.Node?
    ensures At(h, cur.l, Push(cur, st), now[tmp := now[tmp].(right := p)], now[p].left)
  {
    AtLeftChild(h, cur, st, now, p);
    TieThread(h, cur, st);
  }

  lemma MoveUp(h: Heap, cur: Shape, st: Stack, now: Heap, p: BSTNode, tmp: BSTNode)
    requires At(h, cur, st, now, p) && p in now && now[p].left != null
    requires LeftPart(cur, st).Node? && tmp == Last(LeftPart(cur, st)) && tmp in now && now[tmp].right != null
    ensures cur.Nil? && st.Push? && st.top.Node? && st.top.n == p && tmp != p && now[tmp].right == p
    ensures At(h, st.top.r, st.rest, now[tmp := now[tmp].(right := null)], now[p].right)
  {
    AtLeftChild(h, cur, st, now, p);
    LastIsLast(LeftPart(cur, st));
    CutThread(h, st);
  }

  // ---------- what is still to be visited ----------

  ghost function InTodo(cur: Shape, st: Stack): seq<BSTNode>
    decreases st, 1
  {
    Inorder(cur) + InAfter(st)
  }

  ghost function PreTodo(cur: Shape, st: Stack): seq<BSTNode>
    decreases st, 1
  {
    Preorder(cur) + PreAfter(st)
  }

  // A subtree's postorder falls into two parts: its right spine, bottom up, and all before it.
  // The spine is visited only on the way back to the node above.
  ghost function Spine(s: Shape): seq<BSTNode> {
    if s.Nil? then [] else [s.n] + Spine(s.r)
  }

  ghost function Backwards(s: seq<BSTNode>): seq<BSTNode> {
    if s == [] then [] else Backwards(s[1..]) + [s[0]]
  }

  ghost function OffSpine(s: Shape): seq<BSTNode> {
    if s.Nil? then [] else Postorder(s.l) + OffSpine(s.r)
  }

  ghost function PostTodo(cur: Shape, st: Stack): seq<BSTNode>
    decreases st, 1
  {
    OffSpine(cur) + PostAfter(st)
  }

  lemma {:induction false} PostorderSplits(s: Shape)
    ensures Postorder(s) == OffSpine(s) + Backwards(Spine(s))
  {
    if s.Node? {
      PostorderSplits(s.r);
      assert Spine(s)[1..] == Spine(s.r);
    }
  }

  ghost function InAfter(st: Stack): seq<BSTNode>
    decreases st, 0
  {
    if st.Push? && st.top.Node? then [st.top.n] + InTodo(st.top.r, st.rest) else []
  }

  ghost function PreAfter(st: Stack): seq<BSTNode>
    decreases st, 0
  {
    if st.Push? && st.top.Node? then PreTodo(st.top.r, st.rest) else []
  }

  ghost function PostAfter(st: Stack): seq<BSTNode>
    decreases st, 0
  {
    if st.Push? && st.top.Node? then Backwards(Spine(st.top.l)) + PostTodo(st.top.r, st.rest) else []
  }

  lemma TodoNoLeft(cur: Shape, st: Stack)
    requires cur.Node? && cur.l.Nil?
    ensures InTodo(cur, st) == [cur.n] + InTodo(cur.r, st)
    ensures PreTodo(cur, st) == [cur.n] + PreTodo(cur.r, st)
    ensures PostTodo(cur, st) == PostTodo(cur.r, st)
  {
    assert Inorder(cur) == [cur.n] + Inorder(cur.r);
    assert Preorder(cur) == [cur.n] + Preorder(cur.r);
    assert OffSpine(cur) == OffSpine(cur.r);
  }

  lemma TodoDown(cur: Shape, st: Stack)
    requires cur.Node? && cur.l.Node?
    ensures InTodo(cur, st) == InTodo(cur.l, Push(cur, st))
    ensures PreTodo(cur, st) == [cur.n] + PreTodo(cur.l, Push(cur, st))
    ensures PostTodo(cur, st) == PostTodo(cur.l, Push(cur, st))
  {
    var below := Push(cur, st);
    assert InTodo(cur.l, below) == Inorder(cur.l) + InAfter(below) && InAfter(below) == [cur.n] + InTodo(cur.r, st);
    assert PreTodo(cur.l, below) == Preorder(cur.l) + PreAfter(below) && PreAfter(below) == PreTodo(cur.r, st);
    assert PostTodo(cur.l, below) == OffSpine(cur.l) + PostAfter(below);
    assert PostAfter(below) == Backwards(Spine(cur.l)) + PostTodo(cur.r, st);
    Regroup(Inorder(cur.l), [cur.n], Inorder(cur.r), InAfter(st));
    Regroup([cur.n], Preorder(cur.l), Preorder(cur.r), PreAfter(st));
    PostorderSplits(cur.l);
    Regroup(OffSpine(cur.l), Backwards(Spine(cur.l)), OffSpine(cur.r), PostAfter(st));
    assert OffSpine(cur) == OffSpine(cur.l) + Backwards(Spine(cur.l)) + OffSpine(cur.r);
  }

  lemma Regroup(a: seq<BSTNode>, b: seq<BSTNode>, c: seq<BSTNode>, d: seq<BSTNode>)
    ensures (a + b + c) + d == a + (b + (c + d))
  {
  }

  lemma TodoUp(st: Stack)
    requires st.Push? && st.top.Node?
    ensures InTodo(Nil, st) == [st.top.n] + InTodo(st.top.r, st.rest)
    ensures PreTodo(Nil, st) == PreTodo(st.top.r, st.rest)
    ensures PostTodo(Nil, st) == Backwards(Spine(st.top.l)) + PostTodo(st.top.r, st.rest)
  {
  }

  // Moving the next part of the agenda to the visited nodes.
  lemma Advance(visited: seq<BSTNode>, part: seq<BSTNode>, todo: seq<BSTNode>, total: seq<BSTNode>)
    requires visited + (part + todo) == total
    ensures (visited + part) + todo == total
  {
    assert visited + (part + todo) == visited + part + todo;
  }

  // Twice the nodes to enter plus the nodes to come back to.
  ghost function Work(s: Shape): nat {
    if s.Nil? then 0 else 2 + Work(s.l) + Work(s.r)
  }

  ghost function WorkRest(st: Stack): nat {
    if st.Push? && st.top.Node? then 1 + Work(st.top.r) + WorkRest(st.rest) else 0
  }

  // The right spine of a subtree of the original tree, as the threaded heap links it.
  lemma {:induction false} SpineChain(h: Heap, cur: Shape, st: Stack, l: Shape)
    requires Nested(h, cur, st) && Pending(h, st) && l.Node? && Rep(h, l) && Distinct(l)
    ensures var sp, t := Spine(l), Threaded(h, st);
            && 0 < |sp| && sp[0] == l.n && sp[|sp| - 1] == Last(l)
            && (forall i :: 0 <= i < |sp| ==> sp[i] in Nodes(l) && sp[i] in t)
            && (forall i :: 0 <= i < |sp| - 1 ==> t[sp[i]].right == sp[i + 1])
            && (forall i, j :: 0 <= i < j < |sp| ==> sp[i] != sp[j])
  {
    ThreadedCells(h, cur, st);
    if l.r.Node? {
      SpineChain(h, cur, st, l.r);
      var sp := Spine(l);
      assert sp == [l.n] + Spine(l.r);
      forall i | 0 <= i < |sp| - 1 ensures Threaded(h, st)[sp[i]].right == sp[i + 1] {
        if i > 0 {
          assert sp[i] == Spine(l.r)[i - 1] && sp[i + 1] == Spine(l.r)[i];
        }
      }
    } else {
      assert Spine(l) == [l.n];
    }
  }
}
