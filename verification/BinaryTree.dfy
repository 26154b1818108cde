// The binary search tree on nodes: search, insertion, both deletions, balancing, mirroring, and the
// traversals by Morris, by stack and by queue.
module BinaryTree {
  import V = SearchTree
  import opened TreeNodes
  import opened Threads
  import opened Agendas

  datatype Outcome = Deleted | NotInTree | TreeIsEmpty

  class BST {
    var root: BSTNode?
    ghost var shape: Shape
    ghost var cells: Heap

    // cells pictures the nodes, and from root their pointers spell out shape, no node twice.
    ghost predicate Valid()
      reads this, cells.Keys
    {
      Mirrors(cells) && Represents(cells, root, shape)
    }

    ghost function Value(): V.Tree
      reads this
    {
      Values(cells, shape)
    }

    constructor ()
      ensures Valid() && Value() == V.Leaf && fresh(cells.Keys)
    {
      root, shape, cells := null, Nil, map[];
    }

    method Search(v: int) returns (found: BSTNode?)
      requires Valid()
      ensures found != null <==> V.Search(Value(), v)
      ensures found != null ==> found in cells && found.el == v
    {
      var p := root;
      ghost var s := shape;
      while p != null
        invariant p == Entry(s) && Rep(cells, s)
        invariant V.Search(Value(), v) <==> V.Search(Values(cells, s), v)
        decreases s
      {
        if v == p.el {
          return p;
        } else if v < p.el {
          p, s := p.left, s.l;
        } else {
          p, s := p.right, s.r;
        }
      }
      return null;
    }

    // What a slot holds, and assignment to it.
    function Target(slot: Slot): BSTNode?
      reads this, if slot.AtRoot? then {} else {slot.n}
    {
      match slot
      case AtRoot => root
      case LeftOf(n) => n.left
      case RightOf(n) => n.right
    }

    method Assign(slot: Slot, q: BSTNode?)
      requires Mirrors(cells) && (slot.AtRoot? || slot.n in cells)
      modifies this`root, this`cells, if slot.AtRoot? then {} else {slot.n}
      ensures Mirrors(cells) && cells == Written(old(cells), slot, q)
      ensures root == if slot.AtRoot? then q else old(root)
    {
      match slot
      case AtRoot => root := q;
      case LeftOf(n) => cells := n.SetLeft(q, cells);
      case RightOf(n) => cells := n.SetRight(q, cells);
    }

    // ---------- insertion ----------

    // A new node for v, stored in the null pointer that v's path ends in.
    method HangLeaf(slot: Slot, v: int, ghost c: Ctx)
      requires Valid() && shape == Plug(c, Nil) && slot == SlotOf(c) && Follows(cells, c, v)
      requires slot.AtRoot? || slot.n in cells
      modifies this, cells.Keys
      ensures Valid() && fresh(cells.Keys - old(cells.Keys))
      ensures Value() == V.Insert(old(Value()), v)
    {
      var x := new BSTNode(v);
      Plant(cells, root, c, x, v);
      shape, cells := Plug(c, LeafOf(x)), cells[x := Cell(v, null, null)];
      Assign(slot, x);
    }

    method Insert(v: int)
      requires Valid()
      modifies this, cells.Keys
      ensures Valid() && fresh(cells.Keys - old(cells.Keys))
      ensures Value() == V.Insert(old(Value()), v)
    {
      var p, prev: BSTNode? := root, null;
      ghost var c, s := Top, shape;
      while p != null
        invariant Plug(c, s) == shape && p == Entry(s) && Follows(cells, c, v)
        invariant prev == if c.Top? then null else c.n
        modifies {}
        decreases s
      {
        Unplug(cells, root, c, s);
        prev := p;
        if v < p.el {
          p, c, s := p.left, InLeft(c, s.n, s.r), s.l;
        } else {
          p, c, s := p.right, InRight(c, s.l, s.n), s.r;
        }
      }
      Unplug(cells, root, c, s);
      if root == null {
        HangLeaf(AtRoot, v, c);
      } else if v < prev.el {
        HangLeaf(LeftOf(prev), v, c);
      } else {
        HangLeaf(RightOf(prev), v, c);
      }
    }

    // ---------- deletion by copying ----------

    // slot refers to the pointer to the subtree s at the end of the path c; t is what replaces it.
    method DeleteByCopying(slot: Slot, ghost c: Ctx, ghost s: Shape) returns (ghost t: Shape)
      requires Valid() && shape == Plug(c, s) && s.Node? && slot == SlotOf(c)
      requires slot.AtRoot? || slot.n in cells
      modifies this, cells.Keys
      ensures Valid() && cells.Keys == old(cells.Keys) && shape == Plug(c, t)
      ensures Values(cells, t) == V.RemoveRootByCopying(old(Values(cells, s)))
      ensures SameEls(old(cells), cells, PathNodes(c))
    {
      Unplug(cells, root, c, s);
      var node: BSTNode := Target(slot);
      if node.right == null {
        t := Splice(slot, node.left, c, s, s.l);
      } else if node.left == null {
        t := Splice(slot, node.right, c, s, s.r);
      } else {
        t := UnlinkPredecessor(node, c, s);
      }
    }

    // Redirecting a pointer to one of the children of the node it points to.
    method Splice(slot: Slot, q: BSTNode?, ghost c: Ctx, ghost s: Shape, ghost child: Shape) returns (ghost t: Shape)
      requires Valid() && shape == Plug(c, s) && s.Node? && slot == SlotOf(c)
      requires slot.AtRoot? || slot.n in cells
      requires (child == s.l || child == s.r) && q == Entry(child)
      modifies this, cells.Keys
      ensures Valid() && cells.Keys == old(cells.Keys) && t == child && shape == Plug(c, t)
      ensures Values(cells, t) == old(Values(cells, child))
      ensures SameEls(old(cells), cells, PathNodes(c))
    {
      t := child;
      SpliceOut(cells, root, c, s, t);
      shape := Plug(c, t);
      Assign(slot, q);
    }

    // Both subtrees present: the rightmost node of the left one gives up its key and its place.
    method UnlinkPredecessor(node: BSTNode, ghost c: Ctx, ghost s: Shape) returns (ghost t: Shape)
      requires Valid() && shape == Plug(c, s) && s.Node? && s.n == node && node in cells
      requires node.left != null && node.right != null
      modifies this, cells.Keys
      ensures Valid() && cells.Keys == old(cells.Keys) && shape == Plug(c, t)
      ensures Values(cells, t) == V.RemoveRootByCopying(old(Values(cells, s)))
      ensures SameEls(old(cells), cells, PathNodes(c))
    {
      Unplug(cells, root, c, s);
      var tmp: BSTNode, previous: BSTNode := node.left, node;
      ghost var c2, s2 := InLeft(c, node, s.r), s.l;
      while tmp.right != null
        invariant Plug(c2, s2) == shape && s2.Node? && s2.n == tmp && tmp in cells && previous in cells
        invariant Plug(c2, DropLast(s2)) == Plug(c, Node(DropLast(s.l), node, s.r)) && Last(s2) == Last(s.l)
        invariant node !in Nodes(s2) && !c2.Top? && c2.n == previous && (c2.InLeft? <==> previous == node)
        modifies {}
        decreases s2
      {
        Unplug(cells, root, c2, s2);
        previous := tmp;
        tmp := tmp.right;
        c2, s2 := InRight(c2, s2.l, s2.n), s2.r;
        Unplug(cells, root, c2, s2);
      }
      Unplug(cells, root, c2, s2);
      t := Node(DropLast(s.l), node, s.r);
      CopyOver(node, tmp, if previous == node then LeftOf(previous) else RightOf(previous),
               c, s, t, c2, s2, Plug(c, t));
    }

    // Steps 3 and 4: node takes tmp's key, and the slot leading to tmp is given tmp's left subtree.
    method CopyOver(node: BSTNode, tmp: BSTNode, slot: Slot,
                    ghost c: Ctx, ghost s: Shape, ghost t: Shape, ghost c2: Ctx, ghost s2: Shape, ghost after: Shape)
      requires Valid() && shape == Plug(c, s) == Plug(c2, s2) && node in cells && tmp in cells
      requires s.Node? && s.l.Node? && s.r.Node? && s.n == node
      requires s2.Node? && s2.r.Nil? && s2.n == tmp == Last(s.l)
      requires !c2.Top? && slot == SlotOf(c2) && slot.n in cells
      requires t == Node(DropLast(s.l), node, s.r) && after == Plug(c, t) == Plug(c2, s2.l)
      modifies this, cells.Keys
      ensures Valid() && cells.Keys == old(cells.Keys) && shape == Plug(c, t)
      ensures Values(cells, t) == V.RemoveRootByCopying(old(Values(cells, s)))
      ensures SameEls(old(cells), cells, PathNodes(c))
    {
      ghost var h, root0 := cells, root;
      shape := after;
      var q := tmp.left;
      cells := node.SetEl(tmp.el, cells);
      Assign(slot, q);
      CopyAndUnlink(h, cells, root0, c, s, t, c2, s2, after);
    }

    method FindAndDeleteByCopying(v: int) returns (outcome: Outcome)
      requires Valid()
      modifies this, cells.Keys
      ensures Valid() && cells.Keys == old(cells.Keys)
      ensures Value() == V.DeleteByCopying(old(Value()), v)
      ensures outcome == if V.Search(old(Value()), v) then Deleted
                         else if old(Value()).Leaf? then TreeIsEmpty else NotInTree
    {
      var p, prev: BSTNode? := root, null;
      ghost var h, c, s := cells, Top, shape;
      while p != null && p.el != v
        invariant Plug(c, s) == shape && p == Entry(s) && Follows(h, c, v) && Avoids(h, c, v)
        invariant prev == if c.Top? then null else c.n
        modifies {}
        decreases s
      {
        Unplug(h, root, c, s);
        prev := p;
        if v < p.el {
          p, c, s := p.left, InLeft(c, s.n, s.r), s.l;
        } else {
          p, c, s := p.right, InRight(c, s.l, s.n), s.r;
        }
      }
      Unplug(h, root, c, s);
      SearchOnPath(h, c, s, v);
      if p != null {
        WhichSlot(h, c, s);
        var slot := if p == root then AtRoot else if prev.left == p then LeftOf(prev) else RightOf(prev);
        ghost var t := DeleteByCopying(slot, c, s);
        DeleteOnPath(h, cells, c, s, t, v);
        outcome := Deleted;
      } else {
        DeleteOnPath(h, h, c, s, s, v);
        outcome := if root != null then NotInTree else TreeIsEmpty;
      }
    }

    // ---------- deletion by merging ----------

    // A null pointer is left alone.
    method DeleteByMerging(slot: Slot, ghost c: Ctx, ghost s: Shape) returns (ghost t: Shape)
      requires Valid() && shape == Plug(c, s) && slot == SlotOf(c)
      requires slot.AtRoot? || slot.n in cells
      modifies this, cells.Keys
      ensures Valid() && cells.Keys == old(cells.Keys) && shape == Plug(c, t)
      ensures Values(cells, t) == if s.Nil? then V.Leaf else V.RemoveRootByMerging(old(Values(cells, s)))
      ensures s.Nil? ==> t == s && cells == old(cells) && root == old(root)
      ensures SameEls(old(cells), cells, PathNodes(c))
    {
      Unplug(cells, root, c, s);
      var target := Target(slot);
      t := s;
      if target != null {
        t := Promote(slot, target, c, s);
      }
    }

    method Promote(slot: Slot, node: BSTNode, ghost c: Ctx, ghost s: Shape) returns (ghost t: Shape)
      requires Valid() && shape == Plug(c, s) && s.Node? && slot == SlotOf(c) && s.n == node
      requires (slot.AtRoot? || slot.n in cells) && node in cells
      modifies this, cells.Keys
      ensures Valid() && cells.Keys == old(cells.Keys) && shape == Plug(c, t)
      ensures Values(cells, t) == V.RemoveRootByMerging(old(Values(cells, s)))
      ensures SameEls(old(cells), cells, PathNodes(c))
    {
      Unplug(cells, root, c, s);
      if node.right == null {
        t := Splice(slot, node.left, c, s, s.l);
      } else if node.left == null {
        t := Splice(slot, node.right, c, s, s.r);
      } else {
        t := MergeSubtrees(slot, node, c, s);
      }
    }

    static method Rightmost(start: BSTNode, ghost h: Heap, ghost s: Shape) returns (tmp: BSTNode)
      requires Mirrors(h) && Rep(h, s) && start == Entry(s)
      ensures tmp == Last(s)
    {
      tmp := start;
      ghost var sub := s;
      while tmp.right != null
        invariant sub.Node? && sub.n == tmp && Rep(h, sub) && Last(sub) == Last(s)
        decreases sub
      {
        tmp, sub := tmp.right, sub.r;
      }
    }

    // Both subtrees present: the right one is hung off the last node of the left one, which moves up.
    method MergeSubtrees(slot: Slot, node: BSTNode, ghost c: Ctx, ghost s: Shape) returns (ghost t: Shape)
      requires Valid() && shape == Plug(c, s) && s.Node? && slot == SlotOf(c) && s.n == node
      requires (slot.AtRoot? || slot.n in cells) && node in cells
      requires node.left != null && node.right != null
      modifies this, cells.Keys
      ensures Valid() && cells.Keys == old(cells.Keys) && shape == Plug(c, t)
      ensures Values(cells, t) == V.RemoveRootByMerging(old(Values(cells, s)))
      ensures SameEls(old(cells), cells, PathNodes(c))
    {
      Unplug(cells, root, c, s);
      LastFacts(cells, s.l);
      var tmp := Rightmost(node.left, cells, s.l);
      t := AttachRight(s.l, s.r);
      Relink(slot, node, tmp, c, s, t);
    }

    method Relink(slot: Slot, node: BSTNode, tmp: BSTNode, ghost c: Ctx, ghost s: Shape, ghost t: Shape)
      requires Valid() && shape == Plug(c, s) && s.Node? && s.l.Node? && s.r.Node? && slot == SlotOf(c) && s.n == node
      requires (slot.AtRoot? || slot.n in cells) && node in cells && tmp in cells
      requires tmp == Last(s.l) && t == AttachRight(s.l, s.r) && node.left == s.l.n && node.right == s.r.n && tmp != node
      modifies this, cells.Keys
      ensures Valid() && cells.Keys == old(cells.Keys) && shape == Plug(c, t)
      ensures Values(cells, t) == V.RemoveRootByMerging(old(Values(cells, s)))
      ensures SameEls(old(cells), cells, PathNodes(c))
    {
      var q := node.left;
      MergeAndUnlink(cells, root, c, s, t);
      shape := Plug(c, t);
      cells := tmp.SetRight(node.right, cells);
      Assign(slot, q);
    }

    method FindAndDeleteByMerging(v: int) returns (outcome: Outcome)
      requires Valid()
      modifies this, cells.Keys
      ensures Valid() && cells.Keys == old(cells.Keys)
      ensures Value() == V.DeleteByMerging(old(Value()), v)
      ensures outcome == if V.Search(old(Value()), v) then Deleted
                         else if old(Value()).Leaf? then TreeIsEmpty else NotInTree
    {
      var node, prev: BSTNode? := root, null;
      ghost var h, c, s := cells, Top, shape;
      while node != null
        invariant Plug(c, s) == shape && node == Entry(s) && Follows(h, c, v) && Avoids(h, c, v)
        invariant prev == if c.Top? then null else c.n
        modifies {}
        decreases s
      {
        Unplug(h, root, c, s);
        if node.el == v {
          break;
        }
        prev := node;
        if v < node.el {
          node, c, s := node.left, InLeft(c, s.n, s.r), s.l;
        } else {
          node, c, s := node.right, InRight(c, s.l, s.n), s.r;
        }
      }
      Unplug(h, root, c, s);
      SearchOnPath(h, c, s, v);
      if node != null && node.el == v {
        WhichSlot(h, c, s);
        var slot := if node == root then AtRoot else if prev.left == node then LeftOf(prev) else RightOf(prev);
        ghost var t := DeleteByMerging(slot, c, s);
        DeleteOnPath(h, cells, c, s, t, v);
        outcome := Deleted;
      } else {
        DeleteOnPath(h, h, c, s, s, v);
        outcome := if root != null then NotInTree else TreeIsEmpty;
      }
    }

    // ---------- balance, mirror image ----------

    method Balance(data: seq<int>, first: int, last: int)
      requires Valid() && 0 <= first <= last + 1 <= |data|
      modifies this, cells.Keys
      ensures Valid() && fresh(cells.Keys - old(cells.Keys))
      ensures Value() == V.Balanced(old(Value()), data, first, last)
      decreases last + 1 - first
    {
      if first <= last {
        var middle := (first + last) / 2;
        Insert(data[middle]);
        Balance(data, first, middle - 1);
        Balance(data, middle + 1, last);
      }
    }

    method ReverseTree()
      requires Valid()
      modifies this, cells.Keys
      ensures Valid() && cells.Keys == old(cells.Keys)
      ensures Value() == V.Mirror(old(Value()))
    {
      MirroredRep(cells, shape);
      RepNodes(cells, shape);
      shape := Mirrored(shape);
      cells := ReverseTreeHelper(root, cells, old(shape));
    }

    static method ReverseTreeHelper(p: BSTNode?, ghost h: Heap, ghost s: Shape) returns (ghost h': Heap)
      requires Mirrors(h) && Rep(h, s) && Distinct(s) && p == Entry(s) && Nodes(s) <= h.Keys
      modifies Nodes(s)
      ensures h' == Flipped(h, Nodes(s)) && Mirrors(h')
      decreases s
    {
      if p == null {
        return h;
      }
      ghost var h1 := p.SwapChildren(h);
      RepFrame(h, h1, s.l);
      RepFrame(h, h1, s.r);
      ghost var h2 := ReverseTreeHelper(p.left, h1, s.r);
      RepFrame(h1, h2, s.l);
      h' := ReverseTreeHelper(p.right, h2, s.l);
      FlippedStep(h, h1, h2, h', s);
    }

    // ---------- Morris traversals ----------

    // Down the right side of p's left subtree, to its last node or to the thread back to p.
    static method EndOfLeftChain(p: BSTNode, ghost h: Heap, ghost cur: Shape, ghost st: Stack, ghost now: Heap)
      returns (tmp: BSTNode)
      requires Mirrors(now) && At(h, cur, st, now, p) && p in now && p.left != null
      ensures LeftPart(cur, st).Node? && tmp == Last(LeftPart(cur, st)) && tmp in now
    {
      AtLeftChild(h, cur, st, now, p);
      tmp := p.left;
      ghost var l := LeftPart(cur, st);
      ghost var sub := l;
      SpineStep(h, cur, st, l, sub);
      while tmp.right != null && tmp.right != p
        invariant sub.Node? && sub.n == tmp && tmp in now && Rep(h, sub) && Nodes(sub) <= Nodes(l)
        invariant Last(sub) == Last(l)
        decreases sub
      {
        SpineStep(h, cur, st, l, sub);
        tmp := tmp.right;
        sub := sub.r;
        SpineStep(h, cur, st, l, sub);
      }
      SpineStep(h, cur, st, l, sub);
    }

    method MorrisInorder() returns (visited: seq<BSTNode>)
      requires Valid()
      modifies cells.Keys
      ensures visited == Inorder(shape)
      ensures Valid()
    {
      visited := [];
      var p := root;
      ghost var h, cur, st, now := cells, shape, Bottom, cells;
      while p != null
        invariant Mirrors(now) && At(h, cur, st, now, p)
        invariant visited + InTodo(cur, st) == Inorder(shape)
        decreases Work(cur) + WorkRest(st)
      {
        CursorInHeap(h, cur, st, now, p);
        if p.left == null {
          MoveRight(h, cur, st, now, p);
          TodoNoLeft(cur, st);
          Advance(visited, [p], InTodo(cur.r, st), Inorder(shape));
          visited := visited + [p];
          p := p.right;
          cur := cur.r;
        } else {
          var tmp := EndOfLeftChain(p, h, cur, st, now);
          if tmp.right == null {
            MoveDown(h, cur, st, now, p, tmp);
            TodoDown(cur, st);
            now := tmp.SetRight(p, now);
            p := p.left;
            cur, st := cur.l, Push(cur, st);
          } else {
            MoveUp(h, cur, st, now, p, tmp);
            TodoUp(st);
            Advance(visited, [p], InTodo(st.top.r, st.rest), Inorder(shape));
            visited := visited + [p];
            now := tmp.SetRight(null, now);
            p := p.right;
            cur, st := st.top.r, st.rest;
          }
        }
      }
    }

    method MorrisPreorder() returns (visited: seq<BSTNode>)
      requires Valid()
      modifies cells.Keys
      ensures visited == Preorder(shape)
      ensures Valid()
    {
      visited := [];
      var p := root;
      ghost var h, cur, st, now := cells, shape, Bottom, cells;
      while p != null
        invariant Mirrors(now) && At(h, cur, st, now, p)
        invariant visited + PreTodo(cur, st) == Preorder(shape)
        decreases Work(cur) + WorkRest(st)
      {
        CursorInHeap(h, cur, st, now, p);
        if p.left == null {
          MoveRight(h, cur, st, now, p);
          TodoNoLeft(cur, st);
          Advance(visited, [p], PreTodo(cur.r, st), Preorder(shape));
          visited := visited + [p];
          p := p.right;
          cur := cur.r;
        } else {
          var tmp := EndOfLeftChain(p, h, cur, st, now);
          if tmp.right == null {
            MoveDown(h, cur, st, now, p, tmp);
            TodoDown(cur, st);
            Advance(visited, [p], PreTodo(cur.l, Push(cur, st)), Preorder(shape));
            visited := visited + [p];
            now := tmp.SetRight(p, now);
            p := p.left;
            cur, st := cur.l, Push(cur, st);
          } else {
            MoveUp(h, cur, st, now, p, tmp);
            TodoUp(st);
            now := tmp.SetRight(null, now);
            p := p.right;
            cur, st := st.top.r, st.rest;
          }
        }
      }
    }

    // Of the ring chain + [p], the right pointers at positions 1 to i point backwards.
    static ghost predicate Turned(chain: seq<BSTNode>, ring: seq<BSTNode>, i: int)
      requires |ring| == |chain| + 1
      reads chain
    {
      forall j :: 0 <= j < |chain| ==> chain[j].right == if 1 <= j <= i then ring[j - 1] else ring[j + 1]
    }

    // A ring: the chain's right pointers lead from each node to the next and from the last to p.
    static ghost predicate Ring(h: Heap, chain: seq<BSTNode>, ring: seq<BSTNode>, p: BSTNode) {
      && p in h && 0 < |chain| && ring == chain + [p]
      && (forall j :: 0 <= j < |chain| ==> chain[j] in h && h[chain[j]].right == ring[j + 1])
      && (forall i, j :: 0 <= i < j < |ring| ==> ring[i] != ring[j])
    }

    // The first loop turns the chain's pointers round.
    static method TurnChain(p: BSTNode, ghost h: Heap, ghost chain: seq<BSTNode>, ghost ring: seq<BSTNode>)
      returns (q: BSTNode)
      requires Mirrors(h) && Ring(h, chain, ring, p) && p.left == chain[0]
      modifies chain`right
      ensures q == chain[|chain| - 1] && Turned(chain, ring, |chain| - 1)
    {
      q := p.left;
      var r: BSTNode := q.right;
      var s := r.right;
      ghost var i := 0;
      while r != p
        invariant 0 <= i < |chain| && q == ring[i] && r == ring[i + 1] && s == r.right
        invariant Turned(chain, ring, i)
        decreases |chain| - i
      {
        assert r == chain[i + 1] && s == ring[i + 2];
        r.right := q;
        q, r := r, s;
        s := s.right;
        i := i + 1;
      }
    }

    // The second loop walks back along the turned pointers, visits, and turns each of them again.
    static method WalkBack(p: BSTNode, q0: BSTNode, ghost h: Heap, ghost chain: seq<BSTNode>, ghost ring: seq<BSTNode>)
      returns (visited: seq<BSTNode>)
      requires Ring(h, chain, ring, p) && p.left == chain[0] && q0 == chain[|chain| - 1]
      requires Turned(chain, ring, |chain| - 1)
      modifies chain`right
      ensures visited == Backwards(chain[1..]) && Turned(chain, ring, 0)
    {
      var q: BSTNode, r: BSTNode := q0, p;
      var s := q.right;
      visited := [];
      ghost var i := |chain| - 1;
      while q != p.left
        invariant 0 <= i < |chain| && q == chain[i] && r == ring[i + 1] && s == q.right
        invariant Turned(chain, ring, i)
        invariant visited == Backwards(chain[i + 1..])
        decreases i
      {
        assert chain[i..][1..] == chain[i + 1..];
        visited := visited + [q];
        s := TurnBack(q, r, chain, ring, i);
        r, q := q, s;
        s := s.right;
        i := i - 1;
      }
    }

    // One turned pointer is set forwards again; what it held is the next node to visit.
    static method TurnBack(q: BSTNode, r: BSTNode, ghost chain: seq<BSTNode>, ghost ring: seq<BSTNode>, ghost i: int)
      returns (s: BSTNode)
      requires |ring| == |chain| + 1 && ring[..|chain|] == chain && 1 <= i < |chain| && q == chain[i] && r == ring[i + 1]
      requires Turned(chain, ring, i) && forall a, b :: 0 <= a < b < |ring| ==> ring[a] != ring[b]
      modifies q`right
      ensures s == chain[i - 1] && Turned(chain, ring, i - 1)
    {
      s := q.right;
      q.right := r;
    }

    // The chain from p.left along right pointers back to p, visited last node first.
    static method VisitChainBackwards(p: BSTNode, ghost h: Heap, ghost chain: seq<BSTNode>, ghost ring: seq<BSTNode>)
      returns (visited: seq<BSTNode>)
      requires Mirrors(h) && Ring(h, chain, ring, p) && p.left == chain[0]
      modifies chain`right
      ensures visited == Backwards(chain)
      ensures Mirrors(h)
    {
      var q := TurnChain(p, h, chain, ring);
      visited := WalkBack(p, q, h, chain, ring);
      visited := visited + [p.left];
      Restored(h, chain, ring, p);
    }

    static lemma Restored(h: Heap, chain: seq<BSTNode>, ring: seq<BSTNode>, p: BSTNode)
      requires Ring(h, chain, ring, p) && Turned(chain, ring, 0)
      requires forall x :: x in h ==> x.el == h[x].el && x.left == h[x].left && (x in chain || x.right == h[x].right)
      ensures Mirrors(h)
    {
      forall x | x in h ensures x.right == h[x].right {
        if x in chain {
          var j :| 0 <= j < |chain| && chain[j] == x;
        }
      }
    }

    // At a node whose left subtree is done: what is visited on the way back to it.
    static method VisitSpine(p: BSTNode, ghost h: Heap, ghost cur: Shape, ghost st: Stack, ghost now: Heap)
      returns (visited: seq<BSTNode>)
      requires Mirrors(now) && At(h, cur, st, now, p) && p in now && p.left != null
      requires cur.Nil? && st.Push? && st.top.Node? && st.top.l.Node?
      modifies now.Keys`right
      ensures visited == Backwards(Spine(st.top.l)) && Mirrors(now)
    {
      ghost var sp := Spine(st.top.l);
      ghost var ring := sp + [p];
      AtLeftChild(h, cur, st, now, p);
      SpineChain(h, cur, st, st.top.l);
      visited := VisitChainBackwards(p, now, sp, ring);
    }

    // From a node dummy whose left subtree is the tree to visit.
    static method PostorderFrom(dummy: BSTNode, ghost h: Heap, ghost whole: Shape) returns (visited: seq<BSTNode>)
      requires Mirrors(h) && Rep(h, whole) && Distinct(whole) && whole.Node? && whole.n == dummy
      modifies h.Keys
      ensures visited == OffSpine(whole)
      ensures Mirrors(h)
    {
      visited := [];
      var p: BSTNode? := dummy;
      ghost var cur, st, now := whole, Bottom, h;
      while p != null
        invariant Mirrors(now) && At(h, cur, st, now, p)
        invariant visited + PostTodo(cur, st) == OffSpine(whole)
        decreases Work(cur) + WorkRest(st)
      {
        CursorInHeap(h, cur, st, now, p);
        if p.left == null {
          MoveRight(h, cur, st, now, p);
          TodoNoLeft(cur, st);
          p := p.right;
          cur := cur.r;
        } else {
          var tmp := EndOfLeftChain(p, h, cur, st, now);
          if tmp.right == null {
            MoveDown(h, cur, st, now, p, tmp);
            TodoDown(cur, st);
            now := tmp.SetRight(p, now);
            p := p.left;
            cur, st := cur.l, Push(cur, st);
          } else {
            MoveUp(h, cur, st, now, p, tmp);
            TodoUp(st);
            Advance(visited, Backwards(Spine(st.top.l)), PostTodo(st.top.r, st.rest), OffSpine(whole));
            var part := VisitSpine(p, h, cur, st, now);
            visited := visited + part;
            now := tmp.SetRight(null, now);
            p := p.right;
            cur, st := st.top.r, st.rest;
          }
        }
      }
    }

    method MorrisPostorder() returns (visited: seq<BSTNode>)
      requires Valid()
      modifies cells.Keys
      ensures visited == Postorder(shape)
      ensures Valid()
    {
      var dummy := new BSTNode(0);
      dummy.left := root;
      ghost var h, whole := cells[dummy := Cell(0, root, null)], Node(shape, dummy, Nil);
      RepNodes(cells, shape);
      RepFrame(cells, h, shape);
      visited := PostorderFrom(dummy, h, whole);
      assert OffSpine(whole) == Postorder(shape);
      assert forall x :: x in cells ==> cells[x] == h[x];
    }

    // ---------- traversals with an explicit stack or queue ----------

    method IterativePreorder() returns (visited: seq<BSTNode>)
      requires Valid()
      ensures visited == Preorder(shape)
    {
      visited := [];
      if root != null {
        var travStack: seq<BSTNode> := [root];
        ghost var todo := [shape];
        assert PreAgenda(todo) == Preorder(shape) + PreAgenda([]);
        while travStack != []
          invariant Holds(cells, travStack, todo)
          invariant visited + PreAgenda(todo) == Preorder(shape)
          decreases SizeAll(todo)
        {
          ghost var s, rest := todo[|todo| - 1], todo[..|todo| - 1];
          assert todo == rest + [s];
          HoldsPop(cells, travStack, rest, s);
          PreAgendaPop(rest, s);
          todo := rest + OneOrNone(s.r) + OneOrNone(s.l);
          var p := travStack[|travStack| - 1];
          travStack := travStack[..|travStack| - 1];
          Advance(visited, [p], PreAgenda(todo), Preorder(shape));
          visited := visited + [p];
          travStack := Pushed(travStack, p.right);
          travStack := Pushed(travStack, p.left);
        }
      }
    }

    method IterativeInorder() returns (visited: seq<BSTNode>)
      requires Valid()
      ensures visited == Inorder(shape)
    {
      visited := [];
      var travStack: seq<BSTNode> := [];
      var p := root;
      ghost var cur, st := shape, Bottom;
      while p != null
        invariant p == Entry(cur) && Rep(cells, cur) && AllRep(cells, st) && travStack == Stacked(st)
        invariant visited + InTodo(cur, st) == Inorder(shape)
        invariant cur.Nil? ==> st.Bottom?
        decreases |Inorder(shape)| - |visited|
      {
        ghost var before := |visited|;
        while p != null
          invariant p == Entry(cur) && Rep(cells, cur) && AllRep(cells, st) && travStack == Stacked(st)
          invariant visited + InTodo(cur, st) == Inorder(shape) && |visited| == before
          invariant cur.Node? || st.Push?
          decreases cur
        {
          InGoLeft(cur, st);
          travStack := Pushed(travStack, p.right);
          travStack := Pushed(travStack, p);
          p := p.left;
          cur, st := cur.l, Push(cur, st);
        }
        TodoUp(st);
        p := travStack[|travStack| - 1];
        travStack := travStack[..|travStack| - 1];
        while travStack != [] && p.right == null
          invariant st.Push? && AllRep(cells, st) && p == st.top.n
          invariant travStack == Stacked(st.rest) + EntryOf(st.top.r)
          invariant visited + ([p] + InTodo(st.top.r, st.rest)) == Inorder(shape) && |visited| >= before
          decreases st
        {
          Advance(visited, [p], InTodo(st.top.r, st.rest), Inorder(shape));
          visited := visited + [p];
          st := st.rest;
          TodoUp(st);
          p := travStack[|travStack| - 1];
          travStack := travStack[..|travStack| - 1];
        }
        Advance(visited, [p], InTodo(st.top.r, st.rest), Inorder(shape));
        visited := visited + [p];
        cur, st := st.top.r, st.rest;
        if travStack != [] {
          p := travStack[|travStack| - 1];
          travStack := travStack[..|travStack| - 1];
        } else {
          p := null;
        }
      }
    }

    // The leftmost descent at the start of each round of the postorder traversal.
    method DescendLeft(p0: BSTNode, stack0: seq<BSTNode>, ghost c0: Ctx, ghost s0: Shape)
      returns (p: BSTNode, travStack: seq<BSTNode>, ghost c: Ctx, ghost s: Shape)
      requires Valid() && p0 == Entry(s0) && Plug(c0, s0) == shape && stack0 == PathStack(c0)
      ensures s.Node? && s.n == p && s.l.Nil? && p in cells && Plug(c, s) == shape && travStack == PathStack(c)
      ensures Postorder(s) + PostAfterPath(c) == Postorder(s0) + PostAfterPath(c0)
      ensures Work(s) <= Work(s0) && Nodes(s.r) <= Nodes(s0.l) + Nodes(s0.r)
    {
      p, travStack, c, s := p0, stack0, c0, s0;
      Unplug(cells, root, c, s);
      while p.left != null
        invariant s.Node? && s.n == p && Rep(cells, s) && Plug(c, s) == shape && travStack == PathStack(c)
        invariant Postorder(s) + PostAfterPath(c) == Postorder(s0) + PostAfterPath(c0)
        invariant Work(s) <= Work(s0) && Nodes(s.l) + Nodes(s.r) <= Nodes(s0.l) + Nodes(s0.r)
        decreases s
      {
        PostGoLeft(c, s);
        travStack := travStack + [p];
        p := p.left;
        c, s := InLeft(c, s.n, s.r), s.l;
      }
    }

    // Visits p and the nodes above it for as long as their right subtrees are done.  q is the node
    // visited last; comparing it with p.right tells whether p's right subtree is done.
    method VisitUpwards(p0: BSTNode, q0: BSTNode?, stack0: seq<BSTNode>, visited0: seq<BSTNode>, ghost c0: Ctx, ghost s0: Shape)
      returns (finished: bool, p: BSTNode, q: BSTNode?, travStack: seq<BSTNode>, visited: seq<BSTNode>, ghost c: Ctx, ghost s: Shape)
      requires Valid() && s0.Node? && s0.n == p0 && Plug(c0, s0) == shape && stack0 == PathStack(c0)
      requires visited0 + AtNode(c0, s0, false) == Postorder(shape) && q0 !in Nodes(s0.r)
      ensures finished ==> visited == Postorder(shape)
      ensures !finished ==>
        && s.Node? && s.n == p && Plug(c, s) == shape && travStack == PathStack(c) && p in cells
        && p.right != null && q !in Nodes(s.r)
        && visited + AtNode(c, s, false) == Postorder(shape)
        && (|visited| > |visited0| || (visited == visited0 && s == s0))
    {
      finished, p, q, travStack, visited, c, s := false, p0, q0, stack0, visited0, c0, s0;
      ghost var done := false;
      Unplug(cells, root, c, s);
      while p.right == null || p.right == q
        invariant !finished && s.Node? && s.n == p && p in cells && Rep(cells, s)
        invariant Plug(c, s) == shape && travStack == PathStack(c)
        invariant visited + AtNode(c, s, done) == Postorder(shape)
        invariant if done then s.r.Node? && p.right == q else q !in Nodes(s.r)
        invariant |visited| > |visited0| || (visited == visited0 && s == s0)
        decreases |Postorder(shape)| - |visited|
      {
        assert AtNode(c, s, done) == [p] + PostAfterPath(c);
        Advance(visited, [p], PostAfterPath(c), Postorder(shape));
        visited := visited + [p];
        q := p;
        if travStack == [] {
          finished := true;
          return;
        }
        Unplug(cells, root, c, s);
        PostAtNode(c, s);
        p := travStack[|travStack| - 1];
        travStack := travStack[..|travStack| - 1];
        done := c.InRight?;
        c, s := c.up, Extended(c, s);
        Unplug(cells, root, c, s);
      }
    }

    method IterativePostorder() returns (visited: seq<BSTNode>)
      requires Valid()
      ensures visited == Postorder(shape)
    {
      visited := [];
      var travStack: seq<BSTNode> := [];
      var p, q := root, root;
      ghost var c, cur := Top, shape;
      Unplug(cells, root, c, cur);
      while p != null
        invariant p == Entry(cur) && Plug(c, cur) == shape && travStack == PathStack(c)
        invariant visited + (Postorder(cur) + PostAfterPath(c)) == Postorder(shape)
        invariant cur.Node? ==> q !in Nodes(cur.l) && q !in Nodes(cur.r)
        invariant cur.Nil? ==> shape.Nil?
        decreases |Postorder(shape)| - |visited|, Work(cur)
      {
        var finished: bool;
        p, travStack, c, cur := DescendLeft(p, travStack, c, cur);
        PostAtNode(c, cur);
        finished, p, q, travStack, visited, c, cur := VisitUpwards(p, q, travStack, visited, c, cur);
        if finished {
          return;
        }
        Unplug(cells, root, c, cur);
        PostAtNode(c, cur);
        travStack := Pushed(travStack, p);
        p := p.right;
        c, cur := InRight(c, cur.l, cur.n), cur.r;
      }
    }

    method BreadthFirst() returns (visited: seq<BSTNode>)
      requires Valid()
      ensures visited == Levels([shape], 0, Depth(shape))
    {
      visited := [];
      ghost var total := Levels([shape], 0, Depth(shape));
      if root != null {
        var queue: seq<BSTNode> := [root];
        ghost var level, below, next, later := BreadthStart(cells, shape, total);
        while queue != []
          invariant Frontier(cells, queue, level, below, next, later)
          invariant visited + (Roots(level) + later) == total
          decreases Weight(level) + Weight(below)
        {
          level, below, next, later := BreadthStep(cells, queue, visited, level, below, next, later, total);
          var p := queue[0];
          queue := queue[1..];
          visited := visited + [p];
          queue := Pushed(queue, p.left);
          queue := Pushed(queue, p.right);
        }
        BreadthEnd(cells, level, below, next, later);
      } else {
        assert Levels([shape], 0, 0) == [];
      }
    }
  }
}
