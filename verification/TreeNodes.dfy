// The pointer representation of a binary tree, seen through pictures of the heap.  A Shape is the
// ghost arrangement of node objects; Rep says that a picture's left and right pointers spell it out.
module TreeNodes {
  import V = SearchTree

  class BSTNode {
    var el: int
    var left: BSTNode?
    var right: BSTNode?

    constructor (e: int)
      ensures el == e && left == null && right == null
    {
      el, left, right := e, null, null;
    }

    // Assignments to one field; h' is what a picture h of the heap becomes.
    method SetEl(e: int, ghost h: Heap) returns (ghost h': Heap)
      requires Mirrors(h) && this in h
      modifies this`el
      ensures el == e && h' == h[this := h[this].(el := e)] && Mirrors(h')
    {
      el := e;
      h' := h[this := h[this].(el := e)];
    }

    method SetLeft(q: BSTNode?, ghost h: Heap) returns (ghost h': Heap)
      requires Mirrors(h) && this in h
      modifies this`left
      ensures left == q && h' == h[this := h[this].(left := q)] && Mirrors(h')
    {
      left := q;
      h' := h[this := h[this].(left := q)];
    }

    method SetRight(q: BSTNode?, ghost h: Heap) returns (ghost h': Heap)
      requires Mirrors(h) && this in h
      modifies this`right
      ensures right == q && h' == h[this := h[this].(right := q)] && Mirrors(h')
    {
      right := q;
      h' := h[this := h[this].(right := q)];
    }

    method SwapChildren(ghost h: Heap) returns (ghost h': Heap)
      requires Mirrors(h) && this in h
      modifies this`left, this`right
      ensures left == old(right) && right == old(left)
      ensures h' == h[this := Cell(el, left, right)] && Mirrors(h')
    {
      var temp := left;
      left := right;
      right := temp;
      h' := h[this := Cell(el, left, right)];
    }
  }

  datatype Shape = Nil | Node(l: Shape, n: BSTNode, r: Shape)

  datatype Cell = Cell(el: int, left: BSTNode?, right: BSTNode?)

  type Heap = map<BSTNode, Cell>

  // h pictures the current contents of the nodes it holds.
  ghost predicate Mirrors(h: Heap)
    reads h.Keys
  {
    forall x :: x in h ==> h[x] == Cell(x.el, x.left, x.right)
  }

  // ---------- traversal orders of the node objects ----------

  ghost function Inorder(s: Shape): seq<BSTNode> {
    match s
    case Nil => []
    case Node(l, n, r) => Inorder(l) + [n] + Inorder(r)
  }

  ghost function Preorder(s: Shape): seq<BSTNode> {
    match s
    case Nil => []
    case Node(l, n, r) => [n] + Preorder(l) + Preorder(r)
  }

  ghost function Postorder(s: Shape): seq<BSTNode> {
    match s
    case Nil => []
    case Node(l, n, r) => Postorder(l) + Postorder(r) + [n]
  }

  // ---------- the nodes of a shape, each occurring once ----------

  ghost function Nodes(s: Shape): set<BSTNode> {
    match s
    case Nil => {}
    case Node(l, n, r) => Nodes(l) + {n} + Nodes(r)
  }

  ghost predicate Distinct(s: Shape) {
    match s
    case Nil => true
    case Node(l, n, r) =>
      Distinct(l) && Distinct(r) && n !in Nodes(l) && n !in Nodes(r) && Nodes(l) !! Nodes(r)
  }

  // ---------- representation ----------

  ghost function Entry(s: Shape): BSTNode? {
    if s.Nil? then null else s.n
  }

  ghost predicate Rep(h: Heap, s: Shape) {
    match s
    case Nil => true
    case Node(l, n, r) =>
      n in h && h[n].left == Entry(l) && h[n].right == Entry(r) && Rep(h, l) && Rep(h, r)
  }

  // The picture spells out s from root, no node twice.
  ghost predicate Represents(h: Heap, root: BSTNode?, s: Shape) {
    root == Entry(s) && Distinct(s) && Rep(h, s)
  }

  // The tree of keys a represented shape stands for.
  ghost function Values(h: Heap, s: Shape): V.Tree {
    match s
    case Nil => V.Leaf
    case Node(l, n, r) => V.Branch(Values(h, l), if n in h then h[n].el else 0, Values(h, r))
  }

  ghost predicate SameLinks(h: Heap, h': Heap, ns: set<BSTNode>) {
    forall n :: n in ns && n in h ==> n in h' && h'[n].left == h[n].left && h'[n].right == h[n].right
  }

  ghost predicate SameEls(h: Heap, h': Heap, ns: set<BSTNode>) {
    forall n :: n in ns ==> n in h && n in h' && h'[n].el == h[n].el
  }

  lemma {:induction false} RepFrame(h: Heap, h': Heap, s: Shape)
    requires Rep(h, s) && SameLinks(h, h', Nodes(s))
    ensures Rep(h', s)
  {
    if s.Node? {
      RepFrame(h, h', s.l);
      RepFrame(h, h', s.r);
    }
  }

  lemma {:induction false} RepNodes(h: Heap, s: Shape)
    requires Rep(h, s)
    ensures Nodes(s) <= h.Keys
  {
    if s.Node? {
      RepNodes(h, s.l);
      RepNodes(h, s.r);
    }
  }

  lemma {:induction false} ValuesFrame(h: Heap, h': Heap, s: Shape)
    requires SameEls(h, h', Nodes(s))
    ensures Values(h', s) == Values(h, s)
  {
    if s.Node? {
      ValuesFrame(h, h', s.l);
      ValuesFrame(h, h', s.r);
    }
  }

  // ---------- a path from the root to a pointer ----------

  // The way down to a subtree: Top is the root pointer itself; the last step comes first.
  datatype Ctx =
    | Top
    | InLeft(up: Ctx, n: BSTNode, r: Shape)
    | InRight(up: Ctx, l: Shape, n: BSTNode)

  ghost function Plug(c: Ctx, s: Shape): Shape {
    match c
    case Top => s
    case InLeft(up, n, r) => Plug(up, Node(s, n, r))
    case InRight(up, l, n) => Plug(up, Node(l, n, s))
  }

  ghost function Side(c: Ctx): Shape
    requires !c.Top?
  {
    if c.InLeft? then c.r else c.l
  }

  ghost function PathNodes(c: Ctx): set<BSTNode> {
    if c.Top? then {} else {c.n} + Nodes(Side(c)) + PathNodes(c.up)
  }

  ghost predicate DistinctPath(c: Ctx) {
    c.Top? ||
    (Distinct(Side(c)) && c.n !in Nodes(Side(c)) && DistinctPath(c.up) &&
     c.n !in PathNodes(c.up) && Nodes(Side(c)) !! PathNodes(c.up))
  }

  // The path is spelled out by the picture, ending in a pointer to hole.
  ghost predicate RepPath(h: Heap, c: Ctx, hole: BSTNode?) {
    match c
    case Top => true
    case InLeft(up, n, r) =>
      n in h && h[n].left == hole && h[n].right == Entry(r) && Rep(h, r) && RepPath(h, up, n)
    case InRight(up, l, n) =>
      n in h && h[n].right == hole && h[n].left == Entry(l) && Rep(h, l) && RepPath(h, up, n)
  }

  ghost function Extended(c: Ctx, s: Shape): Shape
    requires !c.Top?
  {
    if c.InLeft? then Node(s, c.n, c.r) else Node(c.l, c.n, s)
  }

  lemma {:induction false} PlugDistinct(c: Ctx, s: Shape)
    ensures Distinct(Plug(c, s)) <==> Distinct(s) && DistinctPath(c) && Nodes(s) !! PathNodes(c)
  {
    if !c.Top? {
      PlugDistinct(c.up, Extended(c, s));
    }
  }

  lemma {:induction false} PlugNodes(c: Ctx, s: Shape)
    ensures Nodes(Plug(c, s)) == Nodes(s) + PathNodes(c)
  {
    if !c.Top? {
      PlugNodes(c.up, Extended(c, s));
    }
  }

  lemma {:induction false} PlugRep(h: Heap, c: Ctx, s: Shape)
    ensures Rep(h, Plug(c, s)) <==> Rep(h, s) && RepPath(h, c, Entry(s))
    ensures !c.Top? ==> Entry(Plug(c, s)) == Entry(Plug(c, Nil)) != null
  {
    if !c.Top? {
      PlugRep(h, c.up, Extended(c, s));
      PlugRep(h, c.up, Extended(c, Nil));
    }
  }

  lemma {:induction false} PathFrame(h: Heap, h': Heap, c: Ctx, hole: BSTNode?)
    requires RepPath(h, c, hole) && SameLinks(h, h', PathNodes(c))
    ensures RepPath(h', c, hole)
  {
    if !c.Top? {
      RepFrame(h, h', Side(c));
      PathFrame(h, h', c.up, c.n);
    }
  }

  // ---------- writing through a pointer ----------

  // A reference to a pointer, as the deletion routines receive it.
  datatype Slot = AtRoot | LeftOf(n: BSTNode) | RightOf(n: BSTNode)

  ghost function SlotOf(c: Ctx): Slot {
    match c
    case Top => AtRoot
    case InLeft(_, n, _) => LeftOf(n)
    case InRight(_, _, n) => RightOf(n)
  }

  ghost function Written(h: Heap, slot: Slot, q: BSTNode?): Heap {
    match slot
    case AtRoot => h
    case LeftOf(n) => if n in h then h[n := h[n].(left := q)] else h
    case RightOf(n) => if n in h then h[n := h[n].(right := q)] else h
  }

  // Redirecting the pointer at the end of a represented path to a shape away from the path.
  lemma WriteSlot(h: Heap, root: BSTNode?, c: Ctx, hole: BSTNode?, s: Shape)
    requires RepPath(h, c, hole) && DistinctPath(c) && (c.Top? || root == Entry(Plug(c, Nil)))
    requires Rep(h, s) && Distinct(s) && Nodes(s) !! PathNodes(c)
    ensures Represents(Written(h, SlotOf(c), Entry(s)), if c.Top? then Entry(s) else root, Plug(c, s))
  {
    var h' := Written(h, SlotOf(c), Entry(s));
    PlugDistinct(c, s);
    PlugRep(h', c, s);
    RepFrame(h, h', s);
    if !c.Top? {
      RepFrame(h, h', Side(c));
      PathFrame(h, h', c.up, c.n);
    }
  }

  // A represented tree, taken apart at the end of a path.
  lemma Unplug(h: Heap, root: BSTNode?, c: Ctx, s: Shape)
    requires Represents(h, root, Plug(c, s))
    ensures Rep(h, s) && Distinct(s) && RepPath(h, c, Entry(s)) && DistinctPath(c)
    ensures Nodes(s) !! PathNodes(c) && Nodes(s) <= h.Keys && PathNodes(c) <= h.Keys
    ensures c.Top? || root == Entry(Plug(c, Nil)) != null
    ensures c.Top? ==> root == Entry(s)
  {
    PlugDistinct(c, s);
    PlugRep(h, c, s);
    PlugNodes(c, s);
    RepNodes(h, Plug(c, s));
  }

  // Which pointer leads to a node: the tests on pointer identity find the end of the path.
  lemma WhichSlot(h: Heap, c: Ctx, s: Shape)
    requires s.Node? && Rep(h, Plug(c, s)) && Distinct(Plug(c, s))
    ensures c.Top? <==> s.n == Entry(Plug(c, s))
    ensures !c.Top? ==> c.n in h && (c.InLeft? <==> h[c.n].left == s.n) && (c.InRight? ==> h[c.n].right == s.n)
  {
    PlugDistinct(c, s);
    PlugRep(h, c, s);
    if !c.Top? {
      PlugDistinct(c.up, Extended(c, s));
      EntryOnPath(c, s);
    }
  }

  lemma {:induction false} EntryOnPath(c: Ctx, s: Shape)
    requires !c.Top?
    ensures Entry(Plug(c, s)) in PathNodes(c)
  {
    if !c.up.Top? {
      EntryOnPath(c.up, Extended(c, s));
    }
  }

  // ---------- the path a key takes ----------

  ghost predicate Follows(h: Heap, c: Ctx, v: int) {
    match c
    case Top => true
    case InLeft(up, n, _) => n in h && v < h[n].el && Follows(h, up, v)
    case InRight(up, _, n) => n in h && v >= h[n].el && Follows(h, up, v)
  }

  ghost predicate Avoids(h: Heap, c: Ctx, v: int) {
    c.Top? || (c.n in h && v != h[c.n].el && Avoids(h, c.up, v))
  }

  // A tree function that follows the key's path commutes with the path.
  lemma {:induction false} InsertOnPath(h: Heap, h': Heap, c: Ctx, s: Shape, s': Shape, v: int)
    requires SameEls(h, h', PathNodes(c)) && Follows(h, c, v)
    requires Values(h', s') == V.Insert(Values(h, s), v)
    ensures Values(h', Plug(c, s')) == V.Insert(Values(h, Plug(c, s)), v)
  {
    if !c.Top? {
      ValuesFrame(h, h', Side(c));
      InsertOnPath(h, h', c.up, Extended(c, s), Extended(c, s'), v);
    }
  }

  lemma {:induction false} DeleteOnPath(h: Heap, h': Heap, c: Ctx, s: Shape, s': Shape, v: int)
    requires SameEls(h, h', PathNodes(c)) && Follows(h, c, v) && Avoids(h, c, v)
    ensures Values(h', s') == V.DeleteByCopying(Values(h, s), v) ==>
      Values(h', Plug(c, s')) == V.DeleteByCopying(Values(h, Plug(c, s)), v)
    ensures Values(h', s') == V.DeleteByMerging(Values(h, s), v) ==>
      Values(h', Plug(c, s')) == V.DeleteByMerging(Values(h, Plug(c, s)), v)
  {
    if !c.Top? {
      ValuesFrame(h, h', Side(c));
      DeleteOnPath(h, h', c.up, Extended(c, s), Extended(c, s'), v);
    }
  }

  lemma {:induction false} SearchOnPath(h: Heap, c: Ctx, s: Shape, v: int)
    requires Follows(h, c, v) && Avoids(h, c, v)
    ensures V.Search(Values(h, Plug(c, s)), v) <==> V.Search(Values(h, s), v)
  {
    if !c.Top? {
      SearchOnPath(h, c.up, Extended(c, s), v);
    }
  }

  // ---------- inserting ----------

  ghost function LeafOf(x: BSTNode): Shape { Node(Nil, x, Nil) }

  // A new leaf hung where the key's path ends.
  ghost function Planted(h: Heap, c: Ctx, x: BSTNode, v: int): Heap {
    Written(h[x := Cell(v, null, null)], SlotOf(c), x)
  }

  lemma Plant(h: Heap, root: BSTNode?, c: Ctx, x: BSTNode, v: int)
    requires Represents(h, root, Plug(c, Nil)) && x !in h && Follows(h, c, v)
    ensures Represents(Planted(h, c, x, v), if c.Top? then x else root, Plug(c, LeafOf(x)))
    ensures Values(Planted(h, c, x, v), Plug(c, LeafOf(x))) == V.Insert(Values(h, Plug(c, Nil)), v)
  {
    var h1 := h[x := Cell(v, null, null)];
    Unplug(h, root, c, Nil);
    PathFrame(h, h1, c, null);
    WriteSlot(h1, root, c, null, LeafOf(x));
    InsertOnPath(h, Planted(h, c, x, v), c, Nil, LeafOf(x), v);
  }

  // ---------- right spines ----------

  ghost function Last(s: Shape): BSTNode
    requires s.Node?
  {
    if s.r.Nil? then s.n else Last(s.r)
  }

  ghost function DropLast(s: Shape): Shape
    requires s.Node?
  {
    if s.r.Nil? then s.l else Node(s.l, s.n, DropLast(s.r))
  }

  ghost function AttachRight(s: Shape, t: Shape): Shape
    requires s.Node?
  {
    Node(s.l, s.n, if s.r.Nil? then t else AttachRight(s.r, t))
  }

  lemma {:induction false} LastFacts(h: Heap, s: Shape)
    requires s.Node? && Rep(h, s) && Distinct(s)
    ensures Last(s) in Nodes(s) && Nodes(DropLast(s)) == Nodes(s) - {Last(s)} && Distinct(DropLast(s))
    ensures Last(s) in h && h[Last(s)].right == null && h[Last(s)].el == V.Last(Values(h, s))
    ensures Values(h, DropLast(s)) == V.DropLast(Values(h, s))
  {
    if s.r.Node? {
      LastFacts(h, s.r);
    }
  }

  lemma {:induction false} AttachFacts(h: Heap, s: Shape, t: Shape)
    requires s.Node? && Distinct(s) && Distinct(t) && Nodes(s) !! Nodes(t)
    ensures Nodes(AttachRight(s, t)) == Nodes(s) + Nodes(t) && Distinct(AttachRight(s, t))
    ensures Values(h, AttachRight(s, t)) == V.AttachRight(Values(h, s), Values(h, t))
  {
    if s.r.Node? {
      AttachFacts(h, s.r, t);
    }
  }

  // Hanging t off the rightmost node of s.
  lemma {:induction false} AttachRep(h: Heap, s: Shape, t: Shape)
    requires s.Node? && Rep(h, s) && Rep(h, t) && Distinct(s) && Last(s) !in Nodes(t)
    ensures Rep(Written(h, RightOf(Last(s)), Entry(t)), AttachRight(s, t))
  {
    LastFacts(h, s);
    var h' := Written(h, RightOf(Last(s)), Entry(t));
    RepFrame(h, h', s.l);
    if s.r.Nil? {
      RepFrame(h, h', t);
    } else {
      LastFacts(h, s.r);
      AttachRep(h, s.r, t);
    }
  }

  // ---------- removing a node ----------

  // Redirecting the pointer to a represented part of what it pointed to.
  lemma Replace(h: Heap, root: BSTNode?, c: Ctx, s: Shape, s': Shape)
    requires Represents(h, root, Plug(c, s))
    requires Rep(h, s') && Distinct(s') && Nodes(s') <= Nodes(s)
    ensures Represents(Written(h, SlotOf(c), Entry(s')), if c.Top? then Entry(s') else root, Plug(c, s'))
  {
    Unplug(h, root, c, s);
    assert Nodes(s') !! PathNodes(c);
    WriteSlot(h, root, c, Entry(s), s');
  }

  lemma SpliceOut(h: Heap, root: BSTNode?, c: Ctx, s: Shape, t: Shape)
    requires s.Node? && (t == s.l || t == s.r) && Represents(h, root, Plug(c, s))
    ensures var h' := Written(h, SlotOf(c), Entry(t));
            && Represents(h', if c.Top? then Entry(t) else root, Plug(c, t))
            && Values(h', t) == Values(h, t)
            && SameEls(h, h', PathNodes(c))
  {
    Unplug(h, root, c, s);
    Replace(h, root, c, s, t);
    ValuesFrame(h, Written(h, SlotOf(c), Entry(t)), t);
  }

  lemma CopyValues(h: Heap, h': Heap, s: Shape)
    requires s.Node? && s.l.Node? && s.r.Node? && Rep(h, s) && Distinct(s)
    requires s.n in h' && Last(s.l) in h && h'[s.n].el == h[Last(s.l)].el && SameEls(h, h', Nodes(s) - {s.n})
    ensures Values(h', Node(DropLast(s.l), s.n, s.r)) == V.RemoveRootByCopying(Values(h, s))
  {
    LastFacts(h, s.l);
    ValuesFrame(h, h', DropLast(s.l));
    ValuesFrame(h, h', s.r);
  }

  lemma ElsAfterCopy(h: Heap, h': Heap, n: BSTNode, e: int, slot: Slot, q: BSTNode?)
    requires n in h && h' == Written(h[n := h[n].(el := e)], slot, q)
    ensures h'.Keys == h.Keys && h'[n].el == e && SameEls(h, h', h.Keys - {n})
  {
  }

  // Deleting by copying, both subtrees present: (c2, s2) is where the walk to the rightmost node of
  // the left subtree ends, h' the heap after copying its key and unlinking it.
  lemma CopyAndUnlink(h: Heap, h': Heap, root: BSTNode?, c: Ctx, s: Shape, t: Shape, c2: Ctx, s2: Shape, after: Shape)
    requires s.Node? && s.l.Node? && s.r.Node? && s2.Node? && s2.r.Nil? && !c2.Top?
    requires Represents(h, root, Plug(c, s)) && Represents(h, root, Plug(c2, s2))
    requires t == Node(DropLast(s.l), s.n, s.r) && s2.n == Last(s.l)
    requires s2.n in h && s.n in h
    requires h' == Written(h[s.n := h[s.n].(el := h[s2.n].el)], SlotOf(c2), h[s2.n].left)
    requires after == Plug(c2, s2.l)
    ensures h'.Keys == h.Keys && Represents(h', root, after)
    ensures Values(h', t) == V.RemoveRootByCopying(Values(h, s))
    ensures SameEls(h, h', PathNodes(c))
  {
    assert Represents(h', root, after) by {
      var h1 := h[s.n := h[s.n].(el := h[s2.n].el)];
      Unplug(h, root, c2, s2);
      RepFrame(h, h1, Plug(c2, s2));
      RepFrame(h, h1, s2.l);
      Replace(h1, root, c2, s2, s2.l);
    }
    ElsAfterCopy(h, h', s.n, h[s2.n].el, SlotOf(c2), h[s2.n].left);
    Unplug(h, root, c, s);
    CopyValues(h, h', s);
  }

  // Deleting by merging, both subtrees present.
  lemma MergeAndUnlink(h: Heap, root: BSTNode?, c: Ctx, s: Shape, t: Shape)
    requires s.Node? && s.l.Node? && s.r.Node? && Represents(h, root, Plug(c, s))
    requires t == AttachRight(s.l, s.r)
    ensures var h' := Written(Written(h, RightOf(Last(s.l)), Entry(s.r)), SlotOf(c), Entry(s.l));
            && Represents(h', if c.Top? then Entry(s.l) else root, Plug(c, t))
            && Values(h', t) == V.RemoveRootByMerging(Values(h, s))
            && SameEls(h, h', PathNodes(c))
  {
    var h1 := Written(h, RightOf(Last(s.l)), Entry(s.r));
    Unplug(h, root, c, s);
    LastFacts(h, s.l);
    AttachRep(h, s.l, s.r);
    AttachFacts(h, s.l, s.r);
    PathFrame(h, h1, c, s.n);
    WriteSlot(h1, root, c, s.n, t);
    ValuesFrame(h, Written(h1, SlotOf(c), Entry(s.l)), t);
  }

  // ---------- mirror images ----------

  ghost function Mirrored(s: Shape): Shape {
    if s.Nil? then Nil else Node(Mirrored(s.r), s.n, Mirrored(s.l))
  }

  // Left and right exchanged in some of the nodes.
  ghost function Flipped(h: Heap, ns: set<BSTNode>): Heap {
    map x | x in h :: if x in ns then Cell(h[x].el, h[x].right, h[x].left) else h[x]
  }

  lemma {:induction false} MirroredNodes(s: Shape)
    ensures Nodes(Mirrored(s)) == Nodes(s)
    ensures Distinct(s) ==> Distinct(Mirrored(s))
  {
    if s.Node? {
      MirroredNodes(s.l);
      MirroredNodes(s.r);
    }
  }

  lemma {:induction false} FlippedRep(h: Heap, s: Shape, ns: set<BSTNode>)
    requires Rep(h, s) && Nodes(s) <= ns
    ensures Rep(Flipped(h, ns), Mirrored(s))
    ensures Values(Flipped(h, ns), Mirrored(s)) == V.Mirror(Values(h, s))
  {
    if s.Node? {
      FlippedRep(h, s.l, ns);
      FlippedRep(h, s.r, ns);
    }
  }

  // Exchanging a node's pointers, then those of its right and of its left subtree.
  lemma FlippedStep(h: Heap, h1: Heap, h2: Heap, h3: Heap, s: Shape)
    requires s.Node? && Distinct(s) && s.n in h
    requires h1 == h[s.n := Cell(h[s.n].el, h[s.n].right, h[s.n].left)]
    requires h2 == Flipped(h1, Nodes(s.r)) && h3 == Flipped(h2, Nodes(s.l))
    ensures h3 == Flipped(h, Nodes(s))
  {
  }

  lemma MirroredRep(h: Heap, s: Shape)
    requires Rep(h, s) && Distinct(s)
    ensures Represents(Flipped(h, Nodes(s)), Entry(s), Mirrored(s))
    ensures Values(Flipped(h, Nodes(s)), Mirrored(s)) == V.Mirror(Values(h, s))
  {
    MirroredNodes(s);
    FlippedRep(h, s, Nodes(s));
  }
}
