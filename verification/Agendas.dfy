// What the explicit-stack and queue traversals still have to visit, told from the contents of their
// stack or queue.
module Agendas {
  import opened TreeNodes
  import opened Threads

  // ---------- preorder: a stack of whole subtrees, the next one last ----------

  ghost function PreAgenda(todo: seq<Shape>): seq<BSTNode> {
    if todo == [] then [] else Preorder(todo[|todo| - 1]) + PreAgenda(todo[..|todo| - 1])
  }

  ghost function SizeAll(todo: seq<Shape>): nat {
    if todo == [] then 0 else Work(todo[|todo| - 1]) + SizeAll(todo[..|todo| - 1])
  }

  // The stack or queue holds the entries of represented, non-empty subtrees.
  ghost predicate Holds(h: Heap, held: seq<BSTNode>, todo: seq<Shape>) {
    |held| == |todo| && forall i :: 0 <= i < |todo| ==> todo[i].Node? && todo[i].n == held[i] && Rep(h, todo[i])
  }

  ghost function OneOrNone(s: Shape): seq<Shape> { if s.Nil? then [] else [s] }

  ghost function EntryOf(s: Shape): seq<BSTNode> { if s.Nil? then [] else [s.n] }

  // A child, if there is one, goes to the end of the stack or queue.
  function Pushed(held: seq<BSTNode>, child: BSTNode?): (r: seq<BSTNode>)
    ensures child == null ==> r == held
  {
    if child != null then
      var c: BSTNode := child;
      held + [c]
    else held
  }

  lemma HoldsPush(h: Heap, held: seq<BSTNode>, todo: seq<Shape>, s: Shape)
    requires Holds(h, held, todo) && Rep(h, s)
    ensures Holds(h, Pushed(held, Entry(s)), todo + OneOrNone(s))
  {
  }

  // Taking one element off the end and adding its children at the end.
  lemma HoldsPop(h: Heap, held: seq<BSTNode>, rest: seq<Shape>, s: Shape)
    requires Holds(h, held, rest + [s])
    ensures s.Node? && held != [] && s.n == held[|held| - 1] && s.n in h
    ensures h[s.n].left == Entry(s.l) && h[s.n].right == Entry(s.r)
    ensures Holds(h, Pushed(Pushed(held[..|held| - 1], Entry(s.r)), Entry(s.l)), rest + OneOrNone(s.r) + OneOrNone(s.l))
  {
    assert (rest + [s])[|rest|] == s && Rep(h, s);
    assert Holds(h, held[..|held| - 1], rest) by {
      assert forall i :: 0 <= i < |rest| ==> rest[i] == (rest + [s])[i];
    }
    HoldsPush(h, held[..|held| - 1], rest, s.r);
    HoldsPush(h, Pushed(held[..|held| - 1], Entry(s.r)), rest + OneOrNone(s.r), s.l);
  }

  // Taking one element off the front and adding its children at the end.
  lemma HoldsDequeue(h: Heap, held: seq<BSTNode>, s: Shape, rest: seq<Shape>)
    requires Holds(h, held, [s] + rest)
    ensures s.Node? && held != [] && s.n == held[0] && s.n in h
    ensures h[s.n].left == Entry(s.l) && h[s.n].right == Entry(s.r)
    ensures Holds(h, Pushed(Pushed(held[1..], Entry(s.l)), Entry(s.r)), rest + OneOrNone(s.l) + OneOrNone(s.r))
  {
    assert ([s] + rest)[0] == s && Rep(h, s);
    assert Holds(h, held[1..], rest) by {
      assert forall i :: 0 <= i < |rest| ==> rest[i] == ([s] + rest)[i + 1];
    }
    HoldsPush(h, held[1..], rest, s.l);
    HoldsPush(h, Pushed(held[1..], Entry(s.l)), rest + OneOrNone(s.l), s.r);
  }

  lemma PreAgendaPush(rest: seq<Shape>, s: Shape)
    ensures PreAgenda(rest + OneOrNone(s)) == Preorder(s) + PreAgenda(rest)
    ensures SizeAll(rest + OneOrNone(s)) == Work(s) + SizeAll(rest)
  {
    if s.Nil? {
      assert rest + OneOrNone(s) == rest;
    } else {
      assert (rest + OneOrNone(s))[..|rest|] == rest;
    }
  }

  lemma PreAgendaPop(rest: seq<Shape>, s: Shape)
    requires s.Node?
    ensures var next := rest + OneOrNone(s.r) + OneOrNone(s.l);
            && PreAgenda(rest + [s]) == [s.n] + PreAgenda(next)
            && SizeAll(next) < SizeAll(rest + [s])
  {
    assert (rest + [s])[..|rest|] == rest;
    PreAgendaPush(rest, s.r);
    PreAgendaPush(rest + OneOrNone(s.r), s.l);
    Regroup([s.n], Preorder(s.l), Preorder(s.r), PreAgenda(rest));
  }

  // ---------- inorder: pending nodes, each above its right child ----------

  // The concrete stack for a list of pending nodes: under each node its right child, if any.
  ghost function Stacked(st: Stack): seq<BSTNode> {
    if st.Push? && st.top.Node? then Stacked(st.rest) + EntryOf(st.top.r) + [st.top.n] else []
  }

  ghost predicate AllRep(h: Heap, st: Stack) {
    st.Push? ==> st.top.Node? && Rep(h, st.top) && AllRep(h, st.rest)
  }

  lemma InGoLeft(cur: Shape, st: Stack)
    requires cur.Node?
    ensures InTodo(cur, st) == InTodo(cur.l, Push(cur, st))
  {
    Regroup(Inorder(cur.l), [cur.n], Inorder(cur.r), InAfter(st));
    var below := Push(cur, st);
    assert InTodo(cur.l, below) == Inorder(cur.l) + InAfter(below) && InAfter(below) == [cur.n] + InTodo(cur.r, st);
  }

  // ---------- postorder: the path from the root, and whether each node was left leftwards ----------

  ghost function PathStack(c: Ctx): seq<BSTNode> {
    if c.Top? then [] else PathStack(c.up) + [c.n]
  }

  // What follows the subtree at the end of the path.
  ghost function PostAfterPath(c: Ctx): seq<BSTNode> {
    match c
    case Top => []
    case InLeft(up, n, r) => Postorder(r) + ([n] + PostAfterPath(up))
    case InRight(up, l, n) => [n] + PostAfterPath(up)
  }

  lemma PostGoLeft(c: Ctx, s: Shape)
    requires s.Node?
    ensures Postorder(s) + PostAfterPath(c) == Postorder(s.l) + PostAfterPath(InLeft(c, s.n, s.r))
  {
    Regroup(Postorder(s.l), Postorder(s.r), [s.n], PostAfterPath(c));
  }

  // At a node p whose left subtree is done, and its right one too if done holds.
  ghost function AtNode(c: Ctx, s: Shape, done: bool): seq<BSTNode>
    requires s.Node?
  {
    (if done then [] else Postorder(s.r)) + ([s.n] + PostAfterPath(c))
  }

  lemma PostAtNode(c: Ctx, s: Shape)
    requires s.Node?
    ensures s.l.Nil? ==> Postorder(s) + PostAfterPath(c) == AtNode(c, s, false)
    ensures AtNode(c, s, false) == Postorder(s.r) + PostAfterPath(InRight(c, s.l, s.n))
    ensures c.InLeft? ==> PostAfterPath(c) == AtNode(c.up, Node(s, c.n, c.r), false)
    ensures c.InRight? ==> PostAfterPath(c) == AtNode(c.up, Node(c.l, c.n, s), true)
  {
    if s.l.Nil? {
      Regroup([], Postorder(s.r), [s.n], PostAfterPath(c));
      assert Postorder(s) == [] + Postorder(s.r) + [s.n];
    }
  }

  // ---------- breadth first ----------

  // The nodes of the roots' level, left to right, and their children.
  ghost function Roots(forest: seq<Shape>): seq<BSTNode> {
    if forest == [] then [] else EntryOf(forest[0]) + Roots(forest[1..])
  }

  ghost function Kids(forest: seq<Shape>): seq<Shape> {
    if forest == [] then [] else KidsOf(forest[0]) + Kids(forest[1..])
  }

  ghost function KidsOf(s: Shape): seq<Shape> {
    if s.Node? then OneOrNone(s.l) + OneOrNone(s.r) else []
  }

  ghost function Weight(forest: seq<Shape>): nat {
    if forest == [] then 0 else Work(forest[0]) + Weight(forest[1..])
  }

  lemma {:induction false} KidsAreLighter(forest: seq<Shape>)
    ensures Weight(Kids(forest)) <= Weight(forest)
    ensures forest != [] && forest[0].Node? ==> Weight(Kids(forest)) < Weight(forest)
  {
    if forest != [] {
      KidsAreLighter(forest[1..]);
      var s := forest[0];
      if s.Node? {
        WeightConcat(OneOrNone(s.l) + OneOrNone(s.r), Kids(forest[1..]));
        WeightConcat(OneOrNone(s.l), OneOrNone(s.r));
        assert Weight(OneOrNone(s.l)) == Work(s.l) && Weight(OneOrNone(s.r)) == Work(s.r);
      } else {
        assert Kids(forest) == Kids(forest[1..]);
      }
    }
  }

  lemma {:induction false} WeightConcat(a: seq<Shape>, b: seq<Shape>)
    ensures Weight(a + b) == Weight(a) + Weight(b)
  {
    if a == [] {
      assert a + b == b;
    } else {
      assert (a + b)[1..] == a[1..] + b;
      WeightConcat(a[1..], b);
    }
  }

  ghost predicate AllNodes(forest: seq<Shape>) {
    forest == [] || (forest[0].Node? && AllNodes(forest[1..]))
  }

  lemma {:induction false} NodesConcat(a: seq<Shape>, b: seq<Shape>)
    requires AllNodes(a) && AllNodes(b)
    ensures AllNodes(a + b)
  {
    if a == [] {
      assert a + b == b;
    } else {
      assert (a + b)[1..] == a[1..] + b;
      NodesConcat(a[1..], b);
    }
  }

  // Level after level.
  ghost function LevelOrder(forest: seq<Shape>): seq<BSTNode>
    requires AllNodes(forest)
    decreases Weight(forest)
  {
    if forest == [] then []
    else
      KidsAreLighter(forest);
      KidsAreNodes(forest);
      Roots(forest) + LevelOrder(Kids(forest))
  }

  lemma KidsOfNodes(s: Shape)
    ensures AllNodes(KidsOf(s))
  {
    if s.Node? {
      OneNode(s.l);
      OneNode(s.r);
      NodesConcat(OneOrNone(s.l), OneOrNone(s.r));
    }
  }

  lemma OneNode(s: Shape)
    ensures AllNodes(OneOrNone(s))
  {
    assert OneOrNone(s) == [] || OneOrNone(s)[1..] == [];
  }

  lemma {:induction false} KidsAreNodes(forest: seq<Shape>)
    ensures AllNodes(Kids(forest))
  {
    if forest != [] {
      KidsAreNodes(forest[1..]);
      KidsOfNodes(forest[0]);
      NodesConcat(KidsOf(forest[0]), Kids(forest[1..]));
    }
  }

  // The nodes at depth k, left to right.
  ghost function AtDepth(s: Shape, k: nat): seq<BSTNode> {
    if s.Nil? then [] else if k == 0 then [s.n] else AtDepth(s.l, k - 1) + AtDepth(s.r, k - 1)
  }

  ghost function ForestAtDepth(forest: seq<Shape>, k: nat): seq<BSTNode> {
    if forest == [] then [] else AtDepth(forest[0], k) + ForestAtDepth(forest[1..], k)
  }

  ghost function Depth(s: Shape): nat {
    if s.Nil? then 0 else 1 + if Depth(s.l) < Depth(s.r) then Depth(s.r) else Depth(s.l)
  }

  // Depths from..upto - 1, one after the other.
  ghost function Levels(forest: seq<Shape>, from: nat, upto: nat): seq<BSTNode>
    decreases upto - from
  {
    if from >= upto then [] else ForestAtDepth(forest, from) + Levels(forest, from + 1, upto)
  }

  lemma {:induction false} ForestConcat(a: seq<Shape>, b: seq<Shape>, k: nat)
    ensures ForestAtDepth(a + b, k) == ForestAtDepth(a, k) + ForestAtDepth(b, k)
  {
    if a == [] {
      assert a + b == b;
    } else {
      assert (a + b)[1..] == a[1..] + b;
      ForestConcat(a[1..], b, k);
    }
  }

  lemma KidDepth(s: Shape, k: nat)
    ensures ForestAtDepth(KidsOf(s), k) == AtDepth(s, k + 1)
  {
    if s.Node? {
      ForestConcat(OneOrNone(s.l), OneOrNone(s.r), k);
      assert ForestAtDepth(OneOrNone(s.l), k) == AtDepth(s.l, k);
      assert ForestAtDepth(OneOrNone(s.r), k) == AtDepth(s.r, k);
    }
  }

  lemma {:induction false} KidsDepth(forest: seq<Shape>, k: nat)
    ensures ForestAtDepth(Kids(forest), k) == ForestAtDepth(forest, k + 1)
  {
    if forest != [] {
      KidsDepth(forest[1..], k);
      KidDepth(forest[0], k);
      ForestConcat(KidsOf(forest[0]), Kids(forest[1..]), k);
    }
  }

  lemma {:induction false} KidsLevels(forest: seq<Shape>, from: nat, upto: nat)
    ensures Levels(Kids(forest), from, upto) == Levels(forest, from + 1, upto + 1)
    decreases upto - from
  {
    if from < upto {
      KidsDepth(forest, from);
      KidsLevels(forest, from + 1, upto);
    }
  }

  lemma {:induction false} RootsAreTop(forest: seq<Shape>)
    ensures Roots(forest) == ForestAtDepth(forest, 0)
  {
    if forest != [] {
      RootsAreTop(forest[1..]);
    }
  }

  ghost predicate Below(forest: seq<Shape>, d: nat) {
    forall i :: 0 <= i < |forest| ==> Depth(forest[i]) <= d
  }

  lemma {:induction false} KidsBelow(forest: seq<Shape>, d: nat)
    requires 0 < d && Below(forest, d)
    ensures Below(Kids(forest), d - 1)
  {
    if forest != [] {
      assert Depth(forest[0]) <= d;
      assert forall i :: 0 <= i < |forest[1..]| ==> forest[1..][i] == forest[i + 1];
      KidsBelow(forest[1..], d);
    }
  }

  // Level order is the levels from the top down to the depth of the forest.
  lemma {:induction false} LevelOrderIsLevels(forest: seq<Shape>, d: nat)
    requires AllNodes(forest)
    requires Below(forest, d)
    ensures LevelOrder(forest) == Levels(forest, 0, d)
    decreases d
  {
    if forest == [] {
      NoLevels(0, d);
    } else {
      assert Depth(forest[0]) <= d;
      KidsAreNodes(forest);
      KidsBelow(forest, d);
      LevelOrderIsLevels(Kids(forest), d - 1);
      LevelOrderNext(forest, d, Kids(forest));
    }
  }

  lemma LevelOrderNext(forest: seq<Shape>, d: nat, kids: seq<Shape>)
    requires forest != [] && AllNodes(forest) && 0 < d && kids == Kids(forest) && AllNodes(kids)
    requires LevelOrder(kids) == Levels(kids, 0, d - 1)
    ensures LevelOrder(forest) == Levels(forest, 0, d)
  {
    KidsLevels(forest, 0, d - 1);
    RootsAreTop(forest);
  }

  lemma {:induction false} NoLevels(from: nat, upto: nat)
    ensures Levels([], from, upto) == []
    decreases upto - from
  {
    if from < upto {
      NoLevels(from + 1, upto);
    }
  }

  lemma RootsAndKids(s: Shape, level: seq<Shape>)
    requires s.Node?
    ensures Kids([s] + level) == OneOrNone(s.l) + OneOrNone(s.r) + Kids(level)
    ensures Roots([s] + level) == [s.n] + Roots(level)
  {
    assert ([s] + level)[1..] == level;
  }

  lemma QueueLighter(s: Shape, level: seq<Shape>, below: seq<Shape>)
    requires s.Node?
    ensures Weight(level) + Weight(below + OneOrNone(s.l) + OneOrNone(s.r)) < Weight([s] + level) + Weight(below)
  {
    assert ([s] + level)[1..] == level;
    WeightConcat(below + OneOrNone(s.l), OneOrNone(s.r));
    WeightConcat(below, OneOrNone(s.l));
    assert Weight(OneOrNone(s.l)) == Work(s.l) && Weight(OneOrNone(s.r)) == Work(s.r);
  }

  // The level below, as far as it is known once s has been dequeued.
  lemma EnqueueKids(s: Shape, level: seq<Shape>, below: seq<Shape>) returns (below': seq<Shape>)
    requires s.Node? && AllNodes(below)
    ensures AllNodes(below') && below' + Kids(level) == below + Kids([s] + level)
    ensures Roots([s] + level) == [s.n] + Roots(level)
    ensures level + below + OneOrNone(s.l) + OneOrNone(s.r) == level + below'
    ensures Weight(level) + Weight(below') < Weight([s] + level) + Weight(below)
  {
    below' := below + OneOrNone(s.l) + OneOrNone(s.r);
    RootsAndKids(s, level);
    MoreNodes(s, below);
    Regroup4(below, OneOrNone(s.l), OneOrNone(s.r), Kids(level));
    Regroup4(level, below, OneOrNone(s.l), OneOrNone(s.r));
    QueueLighter(s, level, below);
  }

  lemma MoreNodes(s: Shape, below: seq<Shape>)
    requires s.Node? && AllNodes(below)
    ensures AllNodes(below + OneOrNone(s.l) + OneOrNone(s.r))
  {
    OneNode(s.l);
    OneNode(s.r);
    NodesConcat(below, OneOrNone(s.l));
    NodesConcat(below + OneOrNone(s.l), OneOrNone(s.r));
  }

  lemma Regroup4(a: seq<Shape>, b: seq<Shape>, c: seq<Shape>, d: seq<Shape>)
    ensures (a + b + c) + d == a + (b + c + d) == a + ((b + c) + d)
  {
  }

  // A level is visited before the one below it.
  lemma NextLevel(level: seq<Shape>) returns (next: seq<Shape>, later: seq<BSTNode>)
    requires AllNodes(level)
    ensures next == Kids(level) && AllNodes(next) && later == LevelOrder(next)
    ensures LevelOrder(level) == Roots(level) + later
  {
    KidsAreNodes(level);
    next := Kids(level);
    later := LevelOrder(next);
  }

  lemma VisitFirst(visited: seq<BSTNode>, x: BSTNode, rest: seq<BSTNode>, later: seq<BSTNode>, total: seq<BSTNode>)
    requires visited + (([x] + rest) + later) == total
    ensures (visited + [x]) + (rest + later) == total
  {
  }

  lemma FirstOfLevel(level: seq<Shape>, below: seq<Shape>)
    requires level != []
    ensures level == [level[0]] + level[1..] && level + below == [level[0]] + (level[1..] + below)
  {
  }

  // What the queue of a breadth-first traversal holds: the rest of one level and the level below it
  // as far as it is known; next is that level in full, later what comes after the rest of this one.
  ghost predicate Frontier(h: Heap, queue: seq<BSTNode>, level: seq<Shape>, below: seq<Shape>,
                           next: seq<Shape>, later: seq<BSTNode>)
  {
    && Holds(h, queue, level + below) && AllNodes(level) && AllNodes(below)
    && next == below + Kids(level) && AllNodes(next) && later == LevelOrder(next)
  }

  lemma StartLevel(h: Heap, queue: seq<BSTNode>, level: seq<Shape>, below: seq<Shape>, next: seq<Shape>, later: seq<BSTNode>)
    returns (level': seq<Shape>, below': seq<Shape>, next': seq<Shape>, later': seq<BSTNode>)
    requires queue != [] && Frontier(h, queue, level, below, next, later)
    ensures level' != [] && Frontier(h, queue, level', below', next', later')
    ensures Roots(level') + later' == Roots(level) + later
    ensures Weight(level') + Weight(below') == Weight(level) + Weight(below)
  {
    level', below', next', later' := level, below, next, later;
    if level == [] {
      assert next == below && level + below == below + [];
      next', later' := NextLevel(below);
      level', below' := below, [];
    }
  }

  lemma Dequeue(h: Heap, queue: seq<BSTNode>, level: seq<Shape>, below: seq<Shape>, next: seq<Shape>, later: seq<BSTNode>)
    returns (s: Shape, rest: seq<Shape>, below': seq<Shape>)
    requires level != [] && Frontier(h, queue, level, below, next, later)
    ensures s.Node? && queue != [] && s.n == queue[0] && s.n in h
    ensures h[s.n].left == Entry(s.l) && h[s.n].right == Entry(s.r)
    ensures Frontier(h, Pushed(Pushed(queue[1..], Entry(s.l)), Entry(s.r)), rest, below', next, later)
    ensures Roots(level) == [s.n] + Roots(rest)
    ensures Weight(rest) + Weight(below') < Weight(level) + Weight(below)
  {
    s, rest := level[0], level[1..];
    FirstOfLevel(level, below);
    HoldsDequeue(h, queue, s, rest + below);
    below' := EnqueueKids(s, rest, below);
  }

  // Before the first round: the root alone is queued, and everything is still to be visited.
  lemma BreadthStart(h: Heap, s: Shape, total: seq<BSTNode>)
    returns (level: seq<Shape>, below: seq<Shape>, next: seq<Shape>, later: seq<BSTNode>)
    requires s.Node? && Rep(h, s) && total == Levels([s], 0, Depth(s))
    ensures Frontier(h, [s.n], level, below, next, later)
    ensures Roots(level) + later == total
  {
    LevelOrderIsLevels([s], Depth(s));
    level, below := [s], [];
    next, later := NextLevel(level);
  }

  // After the last one: nothing is left to visit.
  lemma BreadthEnd(h: Heap, level: seq<Shape>, below: seq<Shape>, next: seq<Shape>, later: seq<BSTNode>)
    requires Frontier(h, [], level, below, next, later)
    ensures Roots(level) + later == []
  {
  }

  // One round of breadth-first search: the first queued node is visited and its children queued.
  lemma BreadthStep(h: Heap, queue: seq<BSTNode>, visited: seq<BSTNode>, level: seq<Shape>, below: seq<Shape>,
                    next: seq<Shape>, later: seq<BSTNode>, total: seq<BSTNode>)
    returns (level': seq<Shape>, below': seq<Shape>, next': seq<Shape>, later': seq<BSTNode>)
    requires queue != [] && Frontier(h, queue, level, below, next, later)
    requires visited + (Roots(level) + later) == total
    ensures queue[0] in h
    ensures var q := Pushed(Pushed(queue[1..], h[queue[0]].left), h[queue[0]].right);
            Frontier(h, q, level', below', next', later')
    ensures (visited + [queue[0]]) + (Roots(level') + later') == total
    ensures Weight(level') + Weight(below') < Weight(level) + Weight(below)
  {
    var s: Shape;
    level', below', next', later' := StartLevel(h, queue, level, below, next, later);
    s, level', below' := Dequeue(h, queue, level', below', next', later');
    VisitFirst(visited, queue[0], Roots(level'), later', total);
  }
}
