// The union-find of labels: nodes with parent pointers, a map from keys to nodes and the vector of
// roots, proved against the forest of Forests.dfy.
module UnionFinds {
  import opened Lists
  import opened Forests

  class Node {
    var value: int
    var prev: Node?
    var next: seq<Node>
    ghost const key: int

    constructor (v: int)
      ensures value == v && prev == null && next == [] && key == v
    {
      value, prev, next, key := v, null, [], v;
    }
  }

  // Where the nodes of the keys are, each under its own key.
  ghost predicate Located(locs: map<int, Node>) {
    forall k {:trigger locs[k]} :: k in locs ==> locs[k].key == k
  }

  // The node of key k points to the node of k's parent, or nowhere if k is a root.
  ghost predicate LinkAt(locs: map<int, Node>, parent: map<int, int>, k: int)
    reads locs.Values
  {
    && k in locs && k in parent && parent[k] in locs
    && locs[k].prev == if parent[k] == k then null else locs[parent[k]]
  }

  ghost predicate AllLinked(locs: map<int, Node>, parent: map<int, int>)
    reads locs.Values
  {
    forall k {:trigger LinkAt(locs, parent, k)} :: k in locs ==> LinkAt(locs, parent, k)
  }

  ghost predicate Collects(collection: seq<Node>, locs: map<int, Node>, roots: seq<int>) {
    && |collection| == |roots|
    && forall i :: 0 <= i < |roots| ==> roots[i] in locs && collection[i] == locs[roots[i]]
  }

  lemma LinkedNewRoot(locs: map<int, Node>, parent: map<int, int>, num: int, node: Node)
    requires AllLinked(locs, parent) && num !in locs && node.prev == null
    ensures AllLinked(locs[num := node], parent[num := num])
  {
    var locs', parent' := locs[num := node], parent[num := num];
    forall k | k in locs' ensures LinkAt(locs', parent', k) {
      assert k != num ==> LinkAt(locs, parent, k);
    }
  }

  lemma CollectedNewRoot(collection: seq<Node>, locs: map<int, Node>, roots: seq<int>, num: int, node: Node)
    requires Collects(collection, locs, roots) && Located(locs) && num !in locs && node.key == num
    ensures Collects(collection + [node], locs[num := node], roots + [num]) && Located(locs[num := node])
  {
  }

  class UnionFind {
    var collection: seq<Node>       // the roots
    var nodeLocs: map<int, Node>    // where the node of each key is
    ghost var f: Forest
    ghost var nodes: set<Node>

    // The pointers, whatever the classes are.
    ghost predicate Wired(parent: map<int, int>, roots: seq<int>)
      reads this, nodeLocs.Values
    {
      && Located(nodeLocs) && (forall k {:trigger nodeLocs[k]} :: k in nodeLocs ==> nodeLocs[k] in nodes)
      && AllLinked(nodeLocs, parent) && Collects(collection, nodeLocs, roots)
    }

    ghost predicate Valid()
      reads this, nodeLocs.Values
    {
      Forests.Valid(f) && nodeLocs.Keys == f.root.Keys && Wired(f.parent, f.roots)
    }

    // Until the roots are renumbered, every node's value is its key.
    ghost predicate Keyed()
      reads this, nodeLocs.Values
    {
      forall k {:trigger nodeLocs[k]} :: k in nodeLocs ==> nodeLocs[k].value == k
    }

    constructor ()
      ensures Valid() && Keyed() && f == EMPTY && nodes == {}
    {
      collection, nodeLocs, f, nodes := [], map[], EMPTY, {};
    }

    method Add(num: int) returns (node: Node)
      requires Valid() && num !in nodeLocs
      modifies this
      ensures Valid() && fresh(node) && nodes == old(nodes) + {node} && node.value == num
      ensures f == Added(old(f), num) && nodeLocs == old(nodeLocs)[num := node]
    {
      node := new Node(num);
      AddedValid(f, num);
      LinkedNewRoot(nodeLocs, f.parent, num, node);
      CollectedNewRoot(collection, nodeLocs, f.roots, num, node);
      collection := collection + [node];
      nodeLocs := nodeLocs[num := node];
      f := Added(f, num);
      nodes := nodes + {node};
    }

    // The walk to the root ends because ranks fall along the way.
    method RootOf(start: Node, ghost num: int) returns (temp: Node)
      requires Valid() && num in nodeLocs && start == nodeLocs[num]
      ensures f.root[num] in nodeLocs && temp == nodeLocs[f.root[num]]
    {
      temp := start;
      ghost var k := num;
      assert RankedAt(f, k) && LinkAt(nodeLocs, f.parent, k);
      while temp.prev != null
        invariant k in nodeLocs && temp == nodeLocs[k] && f.root[k] == f.root[num]
        invariant RankedAt(f, k) && LinkAt(nodeLocs, f.parent, k)
        decreases f.rank[k]
      {
        k := f.parent[k];
        assert RankedAt(f, k) && LinkAt(nodeLocs, f.parent, k);
        temp := temp.prev;
      }
    }

    // Points the node of key k at the node of key p.
    method Redirect(node: Node, target: Node, ghost parent: map<int, int>, ghost roots: seq<int>, ghost k: int, ghost p: int)
      requires Wired(parent, roots)
      requires k in nodeLocs && p in nodeLocs && k != p && node == nodeLocs[k] && target == nodeLocs[p]
      modifies node`prev
      ensures Wired(parent[k := p], roots) && node.prev == target
    {
      node.prev := target;
      forall j | j in nodeLocs ensures LinkAt(nodeLocs, parent[k := p], j) {
        assert old(LinkAt(nodeLocs, parent, j));
      }
    }

    method PushNext(node: Node, child: Node, ghost parent: map<int, int>, ghost roots: seq<int>)
      requires Wired(parent, roots)
      modifies node`next
      ensures Wired(parent, roots) && node.next == old(node.next) + [child]
    {
      node.next := node.next + [child];
      forall j | j in nodeLocs ensures LinkAt(nodeLocs, parent, j) {
        assert old(LinkAt(nodeLocs, parent, j));
      }
    }

    // One node is hung directly under its root.
    method Compress(start: Node, temp: Node, ghost num: int)
      requires Valid() && num in nodeLocs && start == nodeLocs[num] && start.prev != null
      requires f.root[num] in nodeLocs && temp == nodeLocs[f.root[num]]
      modifies this`f, start`prev
      ensures Valid() && f == Compressed(old(f), num) && start.prev == temp
    {
      CompressedValid(f, num);
      assert LinkAt(nodeLocs, f.parent, num) && RankedAt(f, num);
      Redirect(start, temp, f.parent, f.roots, num, f.root[num]);
      f := Compressed(f, num);
    }

    // The node of the root of num's class; a new node if num has none.
    method Find(num: int) returns (node: Node)
      requires Valid()
      modifies this, nodes
      ensures Valid() && fresh(nodes - old(nodes)) && (old(Keyed()) ==> Keyed())
      ensures SameClasses(f, WithKey(old(f), num))
      ensures num in f.root && f.root[num] in nodeLocs && node == nodeLocs[f.root[num]]
      ensures if num in old(nodeLocs) then nodeLocs == old(nodeLocs) else fresh(node) && nodeLocs == old(nodeLocs)[num := node] && node.value == num
      ensures forall k {:trigger nodeLocs[k]} :: k in old(nodeLocs) ==> nodeLocs[k].value == old(nodeLocs[k].value)
      ensures num in old(nodeLocs) ==> nodeLocs[num] == node || nodeLocs[num].prev == node
      ensures forall k {:trigger nodeLocs[k]} :: k in old(nodeLocs) && k != num ==> nodeLocs[k].prev == old(nodeLocs[k].prev)
      ensures forall k {:trigger nodeLocs[k]} :: k in old(nodeLocs) ==>
                nodeLocs[k].next == old(nodeLocs[k].next) +
                  if num in old(nodeLocs) && nodeLocs[k] == node && old(nodeLocs[num].prev) != null && old(nodeLocs[num].prev) != node
                  then [nodeLocs[num]] else []
    {
      if num !in nodeLocs {
        node := Add(num);
        return;
      }
      node := nodeLocs[num];
      if node.prev == null {
        assert LinkAt(nodeLocs, f.parent, num) && RankedAt(f, num);
        return;
      }
      var temp := RootOf(node, num);
      if node.prev == temp {
        return temp;
      }
      PushNext(temp, node, f.parent, f.roots);
      // The program also erases the node from a copy of its old parent's list, which changes nothing.
      Compress(node, temp, num);
      return temp;
    }

    // Erases the first root whose value is v.
    method EraseRoot(v: int, ghost roots: seq<int>)
      requires Collects(collection, nodeLocs, roots) && NoRepeats(roots) && v in roots
      requires forall i :: 0 <= i < |collection| ==> collection[i].value == roots[i]
      modifies this`collection
      ensures Collects(collection, nodeLocs, Without(roots, v))
    {
      ghost var i0 :| 0 <= i0 < |roots| && roots[i0] == v;
      for i := 0 to |collection|
        invariant collection == old(collection) && i <= i0
      {
        if collection[i].value == v {
          assert i == i0;
          collection := collection[..i] + collection[i + 1..];
          break;
        }
      }
      WithoutAt(roots, v, i0);
    }

    // The root of b's class is hung under the root of a's class and leaves the collection.
    method Rewire(aRoot: Node, bRoot: Node, ghost parent: map<int, int>, ghost roots: seq<int>, ghost ra: int, ghost rb: int)
      requires Wired(parent, roots) && Keyed() && NoRepeats(roots) && rb in roots && ra != rb
      requires ra in nodeLocs && aRoot == nodeLocs[ra] && rb in nodeLocs && bRoot == nodeLocs[rb]
      modifies this`collection, bRoot`prev
      ensures Wired(parent[rb := ra], Without(roots, rb)) && Keyed() && bRoot.prev == aRoot
    {
      EraseRoot(bRoot.value, roots);
      assert Wired(parent, Without(roots, rb));
      Redirect(bRoot, aRoot, parent, Without(roots, rb), rb, ra);
    }

    // The pointers already are those of the forest g.
    ghost method Represent(g: Forest)
      requires Forests.Valid(g) && nodeLocs.Keys == g.root.Keys && Wired(g.parent, g.roots) && Keyed()
      modifies this`f
      ensures Valid() && Keyed() && f == g
    {
      f := g;
    }

    method Join(aRoot: Node, bRoot: Node, ghost a: int, ghost b: int)
      requires Valid() && Keyed() && a in f.root && b in f.root && f.root[a] != f.root[b]
      requires f.root[a] in nodeLocs && aRoot == nodeLocs[f.root[a]]
      requires f.root[b] in nodeLocs && bRoot == nodeLocs[f.root[b]]
      modifies this`collection, this`f, aRoot`next, bRoot`prev
      ensures Valid() && Keyed() && f == Merged(old(f), a, b) && bRoot.prev == aRoot && aRoot.next == old(aRoot.next) + [bRoot]
    {
      MergedValid(f, a, b);
      RootsListed(f, b);
      MergedShape(f, a, b);
      ghost var g := Merged(f, a, b);
      PushNext(aRoot, bRoot, f.parent, f.roots);
      Rewire(aRoot, bRoot, f.parent, f.roots, f.root[a], f.root[b]);
      Represent(g);
    }

    // Uniting two keys of one class is recorded, and changes nothing else.
    ghost method Record(a: int, b: int)
      requires Valid() && a in f.root && b in f.root && f.root[a] == f.root[b]
      modifies this`f
      ensures Valid() && f == Merged(old(f), a, b)
    {
      MergedValid(f, a, b);
      f := Merged(f, a, b);
    }

    method Unite(aRoot: Node, bRoot: Node, ghost a: int, ghost b: int)
      requires Valid() && Keyed() && a in f.root && b in f.root
      requires f.root[a] in nodeLocs && aRoot == nodeLocs[f.root[a]]
      requires f.root[b] in nodeLocs && bRoot == nodeLocs[f.root[b]]
      modifies this`collection, this`f, aRoot`next, bRoot`prev
      ensures Valid() && Keyed() && f == Merged(old(f), a, b)
      ensures if aRoot == bRoot then aRoot.next == old(aRoot.next) else bRoot.prev == aRoot && aRoot.next == old(aRoot.next) + [bRoot]
    {
      if aRoot == bRoot {
        Record(a, b);
      } else {
        Join(aRoot, bRoot, a, b);
      }
    }

    method FindBoth(a: int, b: int) returns (aRoot: Node, bRoot: Node)
      requires Valid() && Keyed()
      modifies this, nodes
      ensures Valid() && Keyed() && fresh(nodes - old(nodes))
      ensures a in f.root && f.root[a] in nodeLocs && aRoot == nodeLocs[f.root[a]]
      ensures b in f.root && f.root[b] in nodeLocs && bRoot == nodeLocs[f.root[b]]
      ensures SameClasses(f, WithKey(WithKey(old(f), a), b))
    {
      aRoot := Find(a);
      ghost var g := f;
      bRoot := Find(b);
      WithKeyAlike(g, WithKey(old(f), a), b);
    }

    method Union(a: int, b: int) returns (ok: bool)
      requires Valid() && Keyed()
      modifies this, nodes
      ensures Valid() && Keyed() && ok && fresh(nodes - old(nodes))
      ensures var g := WithKey(WithKey(old(f), a), b);
              Ranked(g) && a in g.root && b in g.root && SameClasses(f, Merged(g, a, b))
    {
      var aRoot, bRoot := FindBoth(a, b);
      UnionAlike(old(f), f, a, b);
      Unite(aRoot, bRoot, a, b);
      return true;
    }

    // Overwrites a node's value; the links stay as they are.
    method ChangeValue(a: Node, num: int)
      requires Valid()
      modifies a`value
      ensures Valid() && a.value == num
    {
      a.value := num;
      forall j | j in nodeLocs ensures LinkAt(nodeLocs, f.parent, j) {
        assert old(LinkAt(nodeLocs, f.parent, j));
      }
    }
  }
}
