// A disjoint-set forest as a value: keys with their parents, the root each key leads to, and the
// pairs that were united.
module Forests {
  import opened Lists
  import opened Reach

  datatype Forest = Forest(
    parent: map<int, int>,   // a root is its own parent
    root: map<int, int>,
    rank: map<int, nat>,     // falls along every parent pointer: there are no cycles
    roots: seq<int>,         // each root once
    edges: set<(int, int)>)  // the pairs united so far

  const EMPTY := Forest(map[], map[], map[], [], {})

  ghost predicate RankedAt(f: Forest, k: int) {
    && k in f.root && k in f.parent && k in f.rank
    && f.parent[k] in f.root && f.parent[k] in f.rank && f.root[k] in f.root
    && f.root[f.parent[k]] == f.root[k] && f.root[f.root[k]] == f.root[k]
    && (f.parent[k] == k <==> f.root[k] == k)
    && (f.parent[k] != k ==> f.rank[f.parent[k]] < f.rank[k])
  }

  ghost predicate Ranked(f: Forest) {
    && f.parent.Keys == f.root.Keys == f.rank.Keys
    && forall k {:trigger RankedAt(f, k)} :: k in f.root ==> RankedAt(f, k)
  }

  ghost predicate ListsRoots(f: Forest) {
    && NoRepeats(f.roots)
    && (forall k :: k in f.roots <==> k in f.root && f.root[k] == k)
  }

  // Same root exactly for keys in one class of the equivalence closure.
  ghost predicate ClosureAt(f: Forest, a: int, b: int) {
    a in f.root && b in f.root ==> (f.root[a] == f.root[b] <==> Linked(f.edges, a, b))
  }

  ghost predicate IsClosure(f: Forest) {
    && (forall e :: e in f.edges ==> e.0 in f.root && e.1 in f.root)
    && (forall a, b {:trigger ClosureAt(f, a, b)} :: ClosureAt(f, a, b))
  }

  ghost predicate Valid(f: Forest) {
    Ranked(f) && ListsRoots(f) && IsClosure(f)
  }

  // ---------- the operations ----------

  ghost function Added(f: Forest, k: int): Forest {
    Forest(f.parent[k := k], f.root[k := k], f.rank[k := 0], f.roots + [k], f.edges)
  }

  // Compressing one node's path.
  ghost function Compressed(f: Forest, k: int): Forest
    requires k in f.root
  {
    f.(parent := f.parent[k := f.root[k]])
  }

  // The root of b's class becomes a child of the root of a's class.
  ghost function Merged(f: Forest, a: int, b: int): Forest
    requires Ranked(f) && a in f.root && b in f.root
  {
    assert RankedAt(f, a) && RankedAt(f, b);
    var ra, rb := f.root[a], f.root[b];
    if ra == rb then f.(edges := f.edges + {(a, b)})
    else
      Forest(f.parent[rb := ra],
             map k | k in f.root :: if f.root[k] == rb then ra else f.root[k],
             map k | k in f.root :: if f.root[k] == rb then f.rank[k] + f.rank[ra] + 1 else f.rank[k],
             Without(f.roots, rb),
             f.edges + {(a, b)})
  }

  ghost function WithKey(f: Forest, k: int): Forest {
    if k in f.root then f else Added(f, k)
  }

  // Equal in everything but the shape of the paths.
  ghost predicate SameClasses(f: Forest, g: Forest) {
    f.root == g.root && f.roots == g.roots && f.edges == g.edges
  }

  // ---------- each operation keeps the forest valid ----------

  lemma AddedClosure(f: Forest, k: int, a: int, b: int)
    requires Valid(f) && k !in f.root
    ensures ClosureAt(Added(f, k), a, b)
  {
    var g := Added(f, k);
    if a in g.root && b in g.root {
      if a == b {
        LinkedSelf(g.edges, a);
      } else if a == k || b == k {
        var other := if a == k then b else a;
        assert RankedAt(f, other);
        if Linked(g.edges, a, b) {
          LinkedInClass(g.edges, a, b, (x: int) => x == k);
        }
      } else {
        assert ClosureAt(f, a, b);
      }
    }
  }

  lemma AddedValid(f: Forest, k: int)
    requires Valid(f) && k !in f.root
    ensures Valid(Added(f, k))
  {
    var g := Added(f, k);
    forall x | x in g.root ensures RankedAt(g, x) {
      if x != k {
        assert RankedAt(f, x);
      }
    }
    assert forall x :: x in g.roots <==> x in f.roots || x == k;
    assert k !in f.roots;
    forall a, b ensures ClosureAt(g, a, b) {
      AddedClosure(f, k, a, b);
    }
  }

  // A root is the lowest node of its class.
  lemma {:induction false} RootIsLowest(f: Forest, k: int)
    requires Ranked(f) && k in f.root
    ensures f.root[k] in f.rank && k in f.rank
    ensures f.root[k] != k ==> f.rank[f.root[k]] < f.rank[k]
    decreases if k in f.rank then f.rank[k] else 0
  {
    assert RankedAt(f, k);
    if f.parent[k] != k {
      RootIsLowest(f, f.parent[k]);
    }
  }

  lemma CompressedValid(f: Forest, k: int)
    requires Valid(f) && k in f.root
    ensures Valid(Compressed(f, k))
  {
    var g := Compressed(f, k);
    RootIsLowest(f, k);
    forall x | x in g.root ensures RankedAt(g, x) {
      assert RankedAt(f, x);
    }
    forall a, b ensures ClosureAt(g, a, b) {
      assert ClosureAt(f, a, b);
    }
  }

  lemma MergedRanked(f: Forest, a: int, b: int)
    requires Valid(f) && a in f.root && b in f.root
    ensures Ranked(Merged(f, a, b))
  {
    var g, ra, rb := Merged(f, a, b), f.root[a], f.root[b];
    assert RankedAt(f, a) && RankedAt(f, b) && RankedAt(f, ra) && RankedAt(f, rb);
    forall k | k in g.root ensures RankedAt(g, k) {
      assert RankedAt(f, k);
    }
  }

  lemma MergedRoots(f: Forest, a: int, b: int)
    requires Valid(f) && a in f.root && b in f.root
    ensures ListsRoots(Merged(f, a, b))
  {
    var ra, rb := f.root[a], f.root[b];
    assert RankedAt(f, a) && RankedAt(f, b);
    if ra != rb {
      WithoutMembers(f.roots, rb);
    }
  }

  // Uniting two classes links whatever is now in one class.
  lemma MergedLinks(f: Forest, a: int, b: int, x: int, y: int)
    requires Valid(f) && a in f.root && b in f.root && x in f.root && y in f.root
    requires f.root[x] == f.root[y] || (f.root[x] == f.root[a] && f.root[y] == f.root[b])
    ensures Linked(f.edges + {(a, b)}, x, y)
  {
    var e := f.edges + {(a, b)};
    if f.root[x] == f.root[y] {
      assert ClosureAt(f, x, y);
      LinkedMono(f.edges, e, x, y);
    } else {
      assert ClosureAt(f, x, a) && ClosureAt(f, b, y);
      LinkedMono(f.edges, e, x, a);
      LinkedStep(e, a, b);
      LinkedMono(f.edges, e, b, y);
      LinkedTrans(e, x, a, b);
      LinkedTrans(e, x, b, y);
    }
  }

  // Which keys share a root after uniting a and b.
  lemma MergedClasses(f: Forest, a: int, b: int, x: int, y: int)
    requires Valid(f) && a in f.root && b in f.root && x in f.root && y in f.root
    ensures var g := Merged(f, a, b);
            g.root.Keys == f.root.Keys &&
            (g.root[x] == g.root[y] <==>
             f.root[x] == f.root[y]
             || (f.root[x] == f.root[a] && f.root[y] == f.root[b])
             || (f.root[x] == f.root[b] && f.root[y] == f.root[a]))
  {
  }

  lemma MergedEdgesInClass(f: Forest, a: int, b: int, u: int, v: int)
    requires Valid(f) && a in f.root && b in f.root && (u, v) in Merged(f, a, b).edges
    ensures var g := Merged(f, a, b); u in g.root && v in g.root && g.root[u] == g.root[v]
  {
    if (u, v) in f.edges {
      assert (u, v).0 in f.root && (u, v).1 in f.root;
      LinkedStep(f.edges, u, v);
      assert ClosureAt(f, u, v);
    }
  }

  lemma MergedClosure(f: Forest, a: int, b: int, x: int, y: int)
    requires Valid(f) && a in f.root && b in f.root
    ensures ClosureAt(Merged(f, a, b), x, y)
  {
    var g := Merged(f, a, b);
    if x in g.root && y in g.root {
      MergedClasses(f, a, b, x, y);
      if g.root[x] == g.root[y] {
        if f.root[x] == f.root[b] && f.root[y] == f.root[a] {
          MergedLinks(f, a, b, y, x);
          LinkedSym(g.edges, y, x);
        } else {
          MergedLinks(f, a, b, x, y);
        }
      }
      if Linked(g.edges, x, y) {
        var cls := (k: int) => if k in g.root then g.root[k] else 0;
        forall u, v | (u, v) in g.edges ensures cls(u) == cls(v) {
          MergedEdgesInClass(f, a, b, u, v);
        }
        LinkedInClass(g.edges, x, y, cls);
      }
    }
  }

  lemma MergedValid(f: Forest, a: int, b: int)
    requires Valid(f) && a in f.root && b in f.root
    ensures Valid(Merged(f, a, b))
  {
    MergedRanked(f, a, b);
    MergedRoots(f, a, b);
    var g := Merged(f, a, b);
    forall x, y ensures ClosureAt(g, x, y) {
      MergedClosure(f, a, b, x, y);
    }
    forall e | e in g.edges ensures e.0 in g.root && e.1 in g.root {
      MergedEdgesInClass(f, a, b, e.0, e.1);
    }
  }

  lemma RootsListed(f: Forest, k: int)
    requires Valid(f) && k in f.root
    ensures f.root[k] in f.root && f.root[k] in f.roots
  {
    assert RankedAt(f, k);
  }

  lemma WithKeyValid(f: Forest, k: int)
    requires Valid(f)
    ensures Valid(WithKey(f, k)) && k in WithKey(f, k).root
  {
    if k !in f.root {
      AddedValid(f, k);
    }
  }

  // Uniting the same keys in forests with the same classes gives the same classes.
  lemma MergedAlike(f: Forest, g: Forest, a: int, b: int)
    requires Ranked(f) && Ranked(g) && SameClasses(f, g) && a in f.root && b in f.root
    ensures SameClasses(Merged(f, a, b), Merged(g, a, b))
  {
  }

  lemma WithKeyAlike(f: Forest, g: Forest, k: int)
    requires SameClasses(f, g)
    ensures SameClasses(WithKey(f, k), WithKey(g, k))
  {
  }

  lemma MergedShape(f: Forest, a: int, b: int)
    requires Ranked(f) && a in f.root && b in f.root && f.root[a] != f.root[b]
    ensures Merged(f, a, b).parent == f.parent[f.root[b] := f.root[a]]
    ensures Merged(f, a, b).roots == Without(f.roots, f.root[b])
    ensures Merged(f, a, b).root.Keys == f.root.Keys
  {
  }

  lemma UnionAlike(f0: Forest, f2: Forest, a: int, b: int)
    requires Valid(f0) && Valid(f2) && SameClasses(f2, WithKey(WithKey(f0, a), b))
    ensures var g := WithKey(WithKey(f0, a), b);
            && Ranked(g) && a in g.root && b in g.root && a in f2.root && b in f2.root
            && SameClasses(Merged(f2, a, b), Merged(g, a, b))
  {
    WithKeyValid(f0, a);
    WithKeyValid(WithKey(f0, a), b);
    MergedAlike(f2, WithKey(WithKey(f0, a), b), a, b);
  }
}
