// First-pass labelling as a function of the image, and why its labels together with the recorded
// equivalences describe 6-connectivity exactly.
module PixelLabels {
  import opened Lists
  import opened Reach
  import opened Forests

  type Pixel = (int, int)
  type Labels = map<Pixel, int>
  type Gray = seq<seq<int>>

  const FOREGROUND := 255

  function Top(p: Pixel): Pixel { (p.0 - 1, p.1) }
  function Left(p: Pixel): Pixel { (p.0, p.1 - 1) }
  function TopLeft(p: Pixel): Pixel { (p.0 - 1, p.1 - 1) }

  // q is one of the three neighbours of p that come before it in raster order.
  predicate Behind(p: Pixel, q: Pixel) {
    q == Top(p) || q == Left(p) || q == TopLeft(p)
  }

  predicate Before(p: Pixel, q: Pixel) {
    p.0 < q.0 || (p.0 == q.0 && p.1 < q.1)
  }

  ghost function Edges(s: set<Pixel>): set<(Pixel, Pixel)> {
    set p, q | p in s && q in s && Behind(p, q) :: (p, q)
  }

  // 6-connected within s.
  ghost predicate Connected(s: set<Pixel>, p: Pixel, q: Pixel) {
    p in s && q in s && Linked(Edges(s), p, q)
  }

  // ---------- one pixel ----------

  datatype Choice = Background | NewLabel | Copy(from: Pixel) | Unite | Dropped

  // repaired stands for the variant that also labels a pixel whose left and top neighbours carry one
  // and the same label; the program as written has repaired == false and drops that pixel.
  function Choose(lab: Labels, p: Pixel, gray: int, repaired: bool): Choice {
    if gray != FOREGROUND then Background
    else if Top(p) !in lab && Left(p) !in lab && TopLeft(p) !in lab then NewLabel
    else if TopLeft(p) in lab then Copy(TopLeft(p))
    else if Top(p) !in lab then Copy(Left(p))
    else if Left(p) !in lab then Copy(Top(p))
    else if lab[Left(p)] != lab[Top(p)] then Unite
    else if repaired then Copy(Left(p))
    else Dropped
  }

  // The condition under which the program as written leaves a foreground pixel without a label.
  predicate Gap(lab: Labels, p: Pixel) {
    TopLeft(p) !in lab && Left(p) in lab && Top(p) in lab && lab[Left(p)] == lab[Top(p)]
  }

  function StartCount(count: int, p: Pixel, gray: int): int {
    if p == (0, 0) && gray == FOREGROUND then count + 1 else count
  }

  function NextCount(lab: Labels, count: int, p: Pixel, gray: int, repaired: bool): int {
    StartCount(count, p, gray) + if Choose(lab, p, gray, repaired).NewLabel? then 1 else 0
  }

  function NextLabels(lab: Labels, count: int, p: Pixel, gray: int, repaired: bool): Labels {
    match Choose(lab, p, gray, repaired)
    case Background => lab
    case NewLabel => lab[p := StartCount(count, p, gray) + 1]
    case Copy(q) => if q in lab then lab[p := lab[q]] else lab
    case Unite => if Left(p) in lab then lab[p := lab[Left(p)]] else lab
    case Dropped => lab
  }

  // ---------- labels and classes agree with connectivity ----------

  ghost predicate ExactAt(lab: Labels, f: Forest, p: Pixel, q: Pixel) {
    p in lab && q in lab && lab[p] in f.root && lab[q] in f.root ==>
      (f.root[lab[p]] == f.root[lab[q]] <==> Linked(Edges(lab.Keys), p, q))
  }

  ghost predicate Exact(lab: Labels, f: Forest) {
    && (forall p :: p in lab ==> lab[p] in f.root)
    && (forall p, q {:trigger ExactAt(lab, f, p, q)} :: ExactAt(lab, f, p, q))
  }

  // Every key of the forest is the label of some pixel.
  ghost predicate Covered(lab: Labels, f: Forest) {
    forall k {:trigger k in f.root} :: k in f.root ==> exists p :: p in lab && lab[p] == k
  }

  ghost predicate AllBefore(lab: Labels, x: Pixel) {
    forall p :: p in lab ==> Before(p, x)
  }

  lemma EdgesGrow(lab: Labels, x: Pixel, v: int)
    requires AllBefore(lab, x)
    ensures Edges(lab.Keys) <= Edges(lab[x := v].Keys)
    ensures forall u, w :: (u, w) in Edges(lab[x := v].Keys) ==> (u, w) in Edges(lab.Keys) || (u == x && w in lab && Behind(x, w))
  {
  }

  // A new pixel with the label of a neighbour, all its neighbours being in one class already.
  lemma CopyStep(lab: Labels, f: Forest, x: Pixel, y: Pixel)
    requires Exact(lab, f) && AllBefore(lab, x) && y in lab && Behind(x, y)
    requires forall z :: z in lab && Behind(x, z) ==> f.root[lab[z]] == f.root[lab[y]]
    ensures Exact(lab[x := lab[y]], f)
  {
    var lab' := lab[x := lab[y]];
    var e, e' := Edges(lab.Keys), Edges(lab'.Keys);
    EdgesGrow(lab, x, lab[y]);
    forall p, q ensures ExactAt(lab', f, p, q) {
      if p in lab' && q in lab' {
        var p0, q0 := if p == x then y else p, if q == x then y else q;
        assert ExactAt(lab, f, p0, q0);
        if f.root[lab'[p]] == f.root[lab'[q]] {
          LinkedMono(e, e', p0, q0);
          ToNeighbour(lab', x, y, p, p0);
          ToNeighbour(lab', x, y, q, q0);
          LinkedSym(e', q, q0);
          LinkedTrans(e', p, p0, q0);
          LinkedTrans(e', p, q0, q);
        }
        if Linked(e', p, q) {
          var cls := (k: Pixel) => if k in lab' && lab'[k] in f.root then f.root[lab'[k]] else 0;
          forall u, w | (u, w) in e' ensures cls(u) == cls(w) {
            if (u, w) in e {
              EdgeInClass(lab, f, u, w);
            }
          }
          LinkedInClass(e', p, q, cls);
        }
      }
    }
  }

  lemma ToNeighbour(lab': Labels, x: Pixel, y: Pixel, p: Pixel, p0: Pixel)
    requires x in lab' && y in lab' && Behind(x, y) && p0 == (if p == x then y else p)
    ensures Linked(Edges(lab'.Keys), p, p0)
  {
    if p == x {
      assert (x, y) in Edges(lab'.Keys);
      LinkedStep(Edges(lab'.Keys), x, y);
    } else {
      LinkedSelf(Edges(lab'.Keys), p);
    }
  }

  lemma EdgeInClass(lab: Labels, f: Forest, u: Pixel, w: Pixel)
    requires Exact(lab, f) && (u, w) in Edges(lab.Keys)
    ensures u in lab && w in lab && f.root[lab[u]] == f.root[lab[w]]
  {
    LinkedStep(Edges(lab.Keys), u, w);
    assert ExactAt(lab, f, u, w);
  }

  // A new pixel without labelled neighbours, under a new label.
  lemma NewStep(lab: Labels, f: Forest, x: Pixel, k: int)
    requires Forests.Valid(f) && Exact(lab, f) && AllBefore(lab, x) && k !in f.root
    requires forall z :: z in lab ==> !Behind(x, z)
    ensures Exact(lab[x := k], Added(f, k))
  {
    var lab', g := lab[x := k], Added(f, k);
    EdgesGrow(lab, x, k);
    assert Edges(lab'.Keys) == Edges(lab.Keys);
    forall p, q ensures ExactAt(lab', g, p, q) {
      if p in lab' && q in lab' {
        assert ExactAt(lab, f, p, q);
        if p == q {
          LinkedSelf(Edges(lab.Keys), p);
        } else if p == x || q == x {
          var other := if p == x then q else p;
          assert RankedAt(f, lab[other]);
          if Linked(Edges(lab.Keys), p, q) {
            LinkedInClass(Edges(lab.Keys), p, q, (z: Pixel) => z == x);
          }
        }
      }
    }
  }

  // A new pixel between two classes, which are united.
  lemma UniteStep(lab: Labels, f: Forest, x: Pixel, l: Pixel, t: Pixel)
    requires Forests.Valid(f) && Exact(lab, f) && AllBefore(lab, x)
    requires l in lab && t in lab && Behind(x, l) && Behind(x, t)
    requires forall z :: z in lab && Behind(x, z) ==> z == l || z == t
    ensures Exact(lab[x := lab[l]], Merged(f, lab[l], lab[t]))
  {
    var lab', g := lab[x := lab[l]], Merged(f, lab[l], lab[t]);
    forall p, q ensures ExactAt(lab', g, p, q) {
      if p in lab' && q in lab' {
        if g.root[lab'[p]] == g.root[lab'[q]] {
          UniteLinks(lab, f, x, l, t, p, q);
        }
        if Linked(Edges(lab'.Keys), p, q) {
          UniteClass(lab, f, x, l, t, p, q);
        }
      }
    }
  }

  lemma UniteLinks(lab: Labels, f: Forest, x: Pixel, l: Pixel, t: Pixel, p: Pixel, q: Pixel)
    requires Forests.Valid(f) && Exact(lab, f) && AllBefore(lab, x)
    requires l in lab && t in lab && Behind(x, l) && Behind(x, t)
    requires var lab', g := lab[x := lab[l]], Merged(f, lab[l], lab[t]);
             p in lab' && q in lab' && g.root[lab'[p]] == g.root[lab'[q]]
    ensures Linked(Edges(lab[x := lab[l]].Keys), p, q)
  {
    var lab' := lab[x := lab[l]];
    var e, e' := Edges(lab.Keys), Edges(lab'.Keys);
    EdgesGrow(lab, x, lab[l]);
    var p0, q0 := if p == x then l else p, if q == x then l else q;
    MergedClasses(f, lab[l], lab[t], lab[p0], lab[q0]);
    ToNeighbour(lab', x, l, p, p0);
    ToNeighbour(lab', x, l, q, q0);
    LinkedSym(e', q, q0);
    ToNeighbour(lab', x, l, x, l);
    ToNeighbour(lab', x, t, x, t);
    LinkedSym(e', x, l);
    LinkedTrans(e', l, x, t);
    LinkedSym(e', l, t);
    assert ExactAt(lab, f, p0, q0) && ExactAt(lab, f, p0, l) && ExactAt(lab, f, p0, t);
    assert ExactAt(lab, f, t, q0) && ExactAt(lab, f, l, q0);
    if f.root[lab[p0]] == f.root[lab[q0]] {
      LinkedMono(e, e', p0, q0);
    } else if f.root[lab[p0]] == f.root[lab[l]] {
      LinkedMono(e, e', p0, l);
      LinkedMono(e, e', t, q0);
      LinkedTrans(e', p0, l, t);
      LinkedTrans(e', p0, t, q0);
    } else {
      LinkedMono(e, e', p0, t);
      LinkedMono(e, e', l, q0);
      LinkedTrans(e', p0, t, l);
      LinkedTrans(e', p0, l, q0);
    }
    LinkedTrans(e', p, p0, q0);
    LinkedTrans(e', p, q0, q);
  }

  lemma UniteClass(lab: Labels, f: Forest, x: Pixel, l: Pixel, t: Pixel, p: Pixel, q: Pixel)
    requires Forests.Valid(f) && Exact(lab, f) && AllBefore(lab, x)
    requires l in lab && t in lab && Behind(x, l) && Behind(x, t)
    requires forall z :: z in lab && Behind(x, z) ==> z == l || z == t
    requires p in lab[x := lab[l]] && q in lab[x := lab[l]] && Linked(Edges(lab[x := lab[l]].Keys), p, q)
    ensures var lab', g := lab[x := lab[l]], Merged(f, lab[l], lab[t]);
            lab'[p] in g.root && lab'[q] in g.root && g.root[lab'[p]] == g.root[lab'[q]]
  {
    var lab', g := lab[x := lab[l]], Merged(f, lab[l], lab[t]);
    EdgesGrow(lab, x, lab[l]);
    MergedClasses(f, lab[l], lab[t], lab[l], lab[t]);
    var cls := (k: Pixel) => if k in lab' && lab'[k] in g.root then g.root[lab'[k]] else 0;
    forall u, w | (u, w) in Edges(lab'.Keys) ensures cls(u) == cls(w) {
      if (u, w) in Edges(lab.Keys) {
        EdgeInClass(lab, f, u, w);
        MergedClasses(f, lab[l], lab[t], lab[u], lab[w]);
      }
    }
    LinkedInClass(Edges(lab'.Keys), p, q, cls);
  }

  // ---------- one step of the first pass keeps everything exact ----------

  ghost predicate Invariant(lab: Labels, count: int, f: Forest) {
    && Forests.Valid(f) && Exact(lab, f) && Covered(lab, f)
    && 0 <= count && forall k :: k in f.root ==> 1 <= k <= count
  }

  // What the step does to the forest.
  ghost function NextForest(lab: Labels, count: int, f: Forest, x: Pixel, gray: int): Forest {
    match Choose(lab, x, gray, false)
    case NewLabel => Added(f, StartCount(count, x, gray) + 1)
    case Unite =>
      if Ranked(f) && lab[Left(x)] in f.root && lab[Top(x)] in f.root then Merged(f, lab[Left(x)], lab[Top(x)]) else f
    case _ => f
  }

  // What a pixel shows: its label, or -1.
  function Shown(lab: Labels, p: Pixel): int {
    if p in lab then lab[p] else -1
  }

  lemma NeighboursAgree(lab: Labels, f: Forest, x: Pixel, gray: int, repaired: bool)
    requires Exact(lab, f) && Choose(lab, x, gray, repaired).Copy?
    ensures var y := Choose(lab, x, gray, repaired).from;
            y in lab && Behind(x, y) && forall z :: z in lab && Behind(x, z) ==> f.root[lab[z]] == f.root[lab[y]]
  {
    if TopLeft(x) in lab {
      if Top(x) in lab {
        assert (Top(x), TopLeft(x)) in Edges(lab.Keys);
        EdgeInClass(lab, f, Top(x), TopLeft(x));
      }
      if Left(x) in lab {
        assert (Left(x), TopLeft(x)) in Edges(lab.Keys);
        EdgeInClass(lab, f, Left(x), TopLeft(x));
      }
    }
  }

  lemma StepNew(lab: Labels, count: int, f: Forest, x: Pixel, k: int)
    requires Invariant(lab, count, f) && AllBefore(lab, x) && k > count
    requires forall z :: z in lab ==> !Behind(x, z)
    ensures Forests.Valid(Added(f, k)) && Exact(lab[x := k], Added(f, k))
  {
    AddedValid(f, k);
    NewStep(lab, f, x, k);
  }

  lemma StepUnite(lab: Labels, count: int, f: Forest, x: Pixel)
    requires Invariant(lab, count, f) && AllBefore(lab, x)
    requires Left(x) in lab && Top(x) in lab && TopLeft(x) !in lab && lab[Left(x)] != lab[Top(x)]
    ensures var g := Merged(f, lab[Left(x)], lab[Top(x)]); Forests.Valid(g) && Exact(lab[x := lab[Left(x)]], g)
  {
    MergedValid(f, lab[Left(x)], lab[Top(x)]);
    UniteStep(lab, f, x, Left(x), Top(x));
  }

  lemma StepExact(lab: Labels, count: int, f: Forest, x: Pixel, gray: int, repaired: bool)
    requires Invariant(lab, count, f) && AllBefore(lab, x)
    ensures Forests.Valid(NextForest(lab, count, f, x, gray))
    ensures Exact(NextLabels(lab, count, x, gray, repaired), NextForest(lab, count, f, x, gray))
  {
    match Choose(lab, x, gray, repaired)
    case Background =>
    case Dropped =>
    case NewLabel =>
      StepNew(lab, count, f, x, StartCount(count, x, gray) + 1);
    case Copy(y) =>
      NeighboursAgree(lab, f, x, gray, repaired);
      CopyStep(lab, f, x, y);
    case Unite =>
      StepUnite(lab, count, f, x);
  }

  lemma StepCovered(lab: Labels, count: int, f: Forest, x: Pixel, gray: int, repaired: bool)
    requires Invariant(lab, count, f) && AllBefore(lab, x)
    ensures Covered(NextLabels(lab, count, x, gray, repaired), NextForest(lab, count, f, x, gray))
    ensures forall k :: k in NextForest(lab, count, f, x, gray).root ==> 1 <= k <= NextCount(lab, count, x, gray, repaired)
  {
    var lab', g := NextLabels(lab, count, x, gray, repaired), NextForest(lab, count, f, x, gray);
    if Choose(lab, x, gray, repaired).Unite? {
      MergedClasses(f, lab[Left(x)], lab[Top(x)], lab[Left(x)], lab[Top(x)]);
    }
    assert x !in lab;
    forall k | k in g.root ensures exists p :: p in lab' && lab'[p] == k {
      if k in f.root {
        var p :| p in lab && lab[p] == k;
        assert p in lab' && lab'[p] == k;
      } else {
        assert x in lab' && lab'[x] == k;
      }
    }
  }

  // Forests with the same classes stay so.
  lemma NextForestAlike(lab: Labels, count: int, f: Forest, g: Forest, x: Pixel, gray: int)
    requires Ranked(f) && Ranked(g) && SameClasses(f, g)
    ensures SameClasses(NextForest(lab, count, f, x, gray), NextForest(lab, count, g, x, gray))
  {
    if Choose(lab, x, gray, false).Unite? && lab[Left(x)] in f.root && lab[Top(x)] in f.root {
      MergedAlike(f, g, lab[Left(x)], lab[Top(x)]);
    }
  }

  // The invariant speaks of classes only, so a forest that differs by compressed paths will do.
  lemma InvariantAlike(lab: Labels, count: int, f: Forest, g: Forest)
    requires Forests.Valid(f) && Exact(lab, f) && Covered(lab, f)
    requires 0 <= count && forall k :: k in f.root ==> 1 <= k <= count
    requires Forests.Valid(g) && SameClasses(f, g)
    ensures Invariant(lab, count, g)
  {
    forall p, q ensures ExactAt(lab, g, p, q) {
      assert ExactAt(lab, f, p, q);
    }
  }

  // ---------- the whole pass ----------

  predicate Rectangular(img: Gray, cols: nat) {
    forall i :: 0 <= i < |img| ==> |img[i]| == cols
  }

  // Labels and label count after the pixels before (i, j), and the labels of the whole image.
  function RawUpTo(img: Gray, cols: nat, repaired: bool, i: nat, j: nat): (Labels, int)
    requires Rectangular(img, cols) && i <= |img| && j <= cols && (i == |img| ==> j == 0)
    decreases i, j
  {
    if j > 0 then
      var (lab, count) := RawUpTo(img, cols, repaired, i, j - 1);
      (NextLabels(lab, count, (i, j - 1), img[i][j - 1], repaired), NextCount(lab, count, (i, j - 1), img[i][j - 1], repaired))
    else if i > 0 && cols > 0 then
      var (lab, count) := RawUpTo(img, cols, repaired, i - 1, cols - 1);
      (NextLabels(lab, count, (i - 1, cols - 1), img[i - 1][cols - 1], repaired),
       NextCount(lab, count, (i - 1, cols - 1), img[i - 1][cols - 1], repaired))
    else (map[], 0)
  }

  function Raw(img: Gray, cols: nat, repaired: bool): Labels
    requires Rectangular(img, cols)
  {
    RawUpTo(img, cols, repaired, |img|, 0).0
  }

  // The equivalences recorded by then.
  ghost function ForestUpTo(img: Gray, cols: nat, repaired: bool, i: nat, j: nat): Forest
    requires Rectangular(img, cols) && i <= |img| && j <= cols && (i == |img| ==> j == 0)
    decreases i, j
  {
    if j > 0 then
      var (lab, count) := RawUpTo(img, cols, repaired, i, j - 1);
      NextForest(lab, count, ForestUpTo(img, cols, repaired, i, j - 1), (i, j - 1), img[i][j - 1])
    else if i > 0 && cols > 0 then
      var (lab, count) := RawUpTo(img, cols, repaired, i - 1, cols - 1);
      NextForest(lab, count, ForestUpTo(img, cols, repaired, i - 1, cols - 1), (i - 1, cols - 1), img[i - 1][cols - 1])
    else EMPTY
  }

  predicate InImage(img: Gray, cols: nat, p: Pixel) {
    0 <= p.0 < |img| && 0 <= p.1 < cols
  }

  predicate IsForeground(img: Gray, cols: nat, p: Pixel)
    requires Rectangular(img, cols)
  {
    InImage(img, cols, p) && img[p.0][p.1] == FOREGROUND
  }

  ghost function Foreground(img: Gray, cols: nat): set<Pixel>
    requires Rectangular(img, cols)
  {
    set i, j | 0 <= i < |img| && 0 <= j < cols && img[i][j] == FOREGROUND :: (i, j)
  }

  // Which pixels the pass has labelled: every foreground pixel but those in a gap.
  lemma {:induction false} RawDomain(img: Gray, cols: nat, repaired: bool, i: nat, j: nat, p: Pixel)
    requires Rectangular(img, cols) && i <= |img| && j <= cols && (i == |img| ==> j == 0)
    ensures var lab := RawUpTo(img, cols, repaired, i, j).0;
            p in lab <==> IsForeground(img, cols, p) && Before(p, (i, j)) && (repaired || !Gap(lab, p))
    decreases i, j, 0
  {
    if j > 0 {
      RawDomainStep(img, cols, repaired, i, j - 1, p);
    } else if i > 0 && cols > 0 {
      RawDomainStep(img, cols, repaired, i - 1, cols - 1, p);
    }
  }

  lemma {:induction false} RawDomainStep(img: Gray, cols: nat, repaired: bool, i: nat, j: nat, p: Pixel)
    requires Rectangular(img, cols) && i < |img| && j < cols
    ensures var (lab0, count) := RawUpTo(img, cols, repaired, i, j);
            var lab := NextLabels(lab0, count, (i, j), img[i][j], repaired);
            p in lab <==>
              IsForeground(img, cols, p) && (Before(p, (i, j)) || p == (i, j)) && (repaired || !Gap(lab, p))
    decreases i, j, 1
  {
    var (lab0, count) := RawUpTo(img, cols, repaired, i, j);
    var lab := NextLabels(lab0, count, (i, j), img[i][j], repaired);
    RawDomain(img, cols, repaired, i, j, p);
    RawDomain(img, cols, repaired, i, j, (i, j));
    RawDomain(img, cols, repaired, i, j, Left(p));
    RawDomain(img, cols, repaired, i, j, Top(p));
    RawDomain(img, cols, repaired, i, j, TopLeft(p));
  }

  // The labels seen so far lie in the image, before the next pixel.
  lemma SeenBefore(img: Gray, cols: nat, repaired: bool, i: nat, j: nat)
    requires Rectangular(img, cols) && i <= |img| && j <= cols && (i == |img| ==> j == 0)
    ensures forall p :: p in RawUpTo(img, cols, repaired, i, j).0 ==> Before(p, (i, j)) && InImage(img, cols, p)
  {
    forall p {
      RawDomain(img, cols, repaired, i, j, p);
    }
  }

  // All along the pass, two labelled pixels are 6-connected exactly when their labels are in one class.
  lemma {:induction false} PassInvariant(img: Gray, cols: nat, repaired: bool, i: nat, j: nat)
    requires Rectangular(img, cols) && i <= |img| && j <= cols && (i == |img| ==> j == 0)
    ensures var (lab, count) := RawUpTo(img, cols, repaired, i, j);
            Invariant(lab, count, ForestUpTo(img, cols, repaired, i, j))
    decreases i, j, 0
  {
    if j > 0 {
      PassStep(img, cols, repaired, i, j - 1);
    } else if i > 0 && cols > 0 {
      PassStep(img, cols, repaired, i - 1, cols - 1);
    }
  }

  lemma {:induction false} PassStep(img: Gray, cols: nat, repaired: bool, i: nat, j: nat)
    requires Rectangular(img, cols) && i < |img| && j < cols
    ensures var (lab, count) := RawUpTo(img, cols, repaired, i, j);
            Invariant(NextLabels(lab, count, (i, j), img[i][j], repaired), NextCount(lab, count, (i, j), img[i][j], repaired),
                      NextForest(lab, count, ForestUpTo(img, cols, repaired, i, j), (i, j), img[i][j]))
    decreases i, j, 1
  {
    var (lab, count) := RawUpTo(img, cols, repaired, i, j);
    PassInvariant(img, cols, repaired, i, j);
    SeenBefore(img, cols, repaired, i, j);
    StepExact(lab, count, ForestUpTo(img, cols, repaired, i, j), (i, j), img[i][j], repaired);
    StepCovered(lab, count, ForestUpTo(img, cols, repaired, i, j), (i, j), img[i][j], repaired);
  }

  // ---------- counting the values of a map ----------

  ghost predicate Uses<A(!new)>(num: map<A, int>, c: int) {
    exists p :: p in num && num[p] == c
  }

  ghost function UpTo<A, B>(num: map<A, int>, g: map<A, B>, k: int): map<A, B>
    requires g.Keys == num.Keys
  {
    map p | p in num && num[p] <= k :: g[p]
  }

  lemma UpToNext<A(!new), B(!new)>(num: map<A, int>, g: map<A, B>, k: int, r: A)
    requires g.Keys == num.Keys && r in num && num[r] == k
    requires forall p, q :: p in num && q in num ==> (num[p] == num[q] <==> g[p] == g[q])
    ensures UpTo(num, g, k).Values == UpTo(num, g, k - 1).Values + {g[r]}
    ensures g[r] !in UpTo(num, g, k - 1).Values
  {
    var gk, gl := UpTo(num, g, k), UpTo(num, g, k - 1);
    forall v | v in gk.Values ensures v in gl.Values + {g[r]} {
      var p :| p in gk && gk[p] == v;
      if num[p] <= k - 1 {
        assert p in gl && gl[p] == v;
      }
    }
    forall v | v in gl.Values ensures v in gk.Values {
      var p :| p in gl && gl[p] == v;
      assert p in gk && gk[p] == v;
    }
    assert r in gk && gk[r] == g[r];
  }

  // A numbering that is onto 1..k and separates what g separates.
  lemma {:induction false} CountClasses<A(!new), B(!new)>(num: map<A, int>, g: map<A, B>, k: nat)
    requires g.Keys == num.Keys && (forall p :: p in num ==> num[p] >= 1)
    requires forall c {:trigger Uses(num, c)} :: 1 <= c <= k ==> Uses(num, c)
    requires forall p, q :: p in num && q in num ==> (num[p] == num[q] <==> g[p] == g[q])
    ensures |UpTo(num, g, k).Values| == k
  {
    if k == 0 {
      assert UpTo(num, g, k) == map[];
      assert UpTo(num, g, k).Values == {};
    } else {
      CountClasses(num, g, k - 1);
      assert Uses(num, k);
      var r :| r in num && num[r] == k;
      UpToNext(num, g, k, r);
    }
  }

  lemma CountAll<A(!new), B(!new)>(num: map<A, int>, g: map<A, B>, k: nat)
    requires g.Keys == num.Keys && (forall p :: p in num ==> 1 <= num[p] <= k)
    requires forall c {:trigger Uses(num, c)} :: 1 <= c <= k ==> Uses(num, c)
    requires forall p, q :: p in num && q in num ==> (num[p] == num[q] <==> g[p] == g[q])
    ensures |g.Values| == k
  {
    CountClasses(num, g, k);
    assert UpTo(num, g, k) == g;
  }

  // What g does not separate, h does not separate: h has no more values.
  lemma {:induction false} CoarserValues<A(!new), B(!new)>(g: map<A, B>, h: map<A, B>)
    requires g.Keys == h.Keys
    requires forall p, q :: p in g && q in g && g[p] == g[q] ==> h[p] == h[q]
    ensures |h.Values| <= |g.Values|
    decreases g.Keys
  {
    if g.Keys == {} {
      assert h.Values == {};
    } else {
      var r :| r in g;
      var g1, h1 := map p | p in g && g[p] != g[r] :: g[p], map p | p in g && g[p] != g[r] :: h[p];
      assert r !in g1.Keys && g1.Keys <= g.Keys;
      CoarserValues(g1, h1);
      assert g[r] !in g1.Values;
      assert g.Values == g1.Values + {g[r]} by {
        forall v | v in g.Values ensures v in g1.Values + {g[r]} {
          var p :| p in g && g[p] == v;
          if v != g[r] {
            assert p in g1 && g1[p] == v;
          }
        }
      }
      assert h.Values <= h1.Values + {h[r]} by {
        forall v | v in h.Values ensures v in h1.Values + {h[r]} {
          var p :| p in h && h[p] == v;
          if g[p] != g[r] {
            assert p in h1 && h1[p] == v;
          }
        }
      }
      SubsetCount(h.Values, h1.Values + {h[r]});
    }
  }

  // ---------- components ----------

  // A numbering of pixels 1..k that separates exactly the 6-connected parts of s.
  ghost predicate Separates(s: set<Pixel>, num: map<Pixel, int>, k: nat) {
    && num.Keys == s
    && (forall p :: p in s ==> 1 <= num[p] <= k)
    && (forall p, q {:trigger num[p], num[q]} :: p in s && q in s ==> (num[p] == num[q] <==> Connected(s, p, q)))
    && (forall c {:trigger Uses(num, c)} :: 1 <= c <= k ==> Uses(num, c))
  }

  ghost function Component(s: set<Pixel>, p: Pixel): set<Pixel> {
    set q | q in s && Connected(s, p, q)
  }

  ghost function Components(s: set<Pixel>): set<set<Pixel>> {
    ComponentMap(s).Values
  }

  ghost function ComponentMap(s: set<Pixel>): map<Pixel, set<Pixel>> {
    map p | p in s :: Component(s, p)
  }

  lemma ConnectedSelf(s: set<Pixel>, p: Pixel)
    requires p in s
    ensures Connected(s, p, p) && p in Component(s, p)
  {
    LinkedSelf(Edges(s), p);
  }

  lemma SameComponent(s: set<Pixel>, p: Pixel, q: Pixel)
    requires p in s && q in s
    ensures Component(s, p) == Component(s, q) <==> Connected(s, p, q)
  {
    ConnectedSelf(s, q);
    if Connected(s, p, q) {
      LinkedSym(Edges(s), p, q);
      forall r | r in s ensures Connected(s, p, r) <==> Connected(s, q, r) {
        if Connected(s, p, r) {
          LinkedTrans(Edges(s), q, p, r);
        }
        if Connected(s, q, r) {
          LinkedTrans(Edges(s), p, q, r);
        }
      }
    }
  }

  // As many numbers as components.
  lemma SeparatesCounts(s: set<Pixel>, num: map<Pixel, int>, k: nat)
    requires Separates(s, num, k)
    ensures |Components(s)| == k
  {
    var g := ComponentMap(s);
    forall p, q | p in s && q in s ensures num[p] == num[q] <==> g[p] == g[q] {
      SameComponent(s, p, q);
    }
    CountAll(num, g, k);
  }

  lemma ConnectedMono(s: set<Pixel>, t: set<Pixel>, p: Pixel, q: Pixel)
    requires Connected(s, p, q) && s <= t
    ensures Connected(t, p, q)
  {
    assert Edges(s) <= Edges(t);
    LinkedMono(Edges(s), Edges(t), p, q);
  }

  ghost function ComponentMapIn(s: set<Pixel>, t: set<Pixel>): map<Pixel, set<Pixel>> {
    map p | p in s :: Component(t, p)
  }

  lemma ComponentsMet(s: set<Pixel>, t: set<Pixel>)
    requires s <= t
    requires forall p :: p in t ==> exists q :: q in s && Connected(t, p, q)
    ensures Components(t) <= ComponentMapIn(s, t).Values
  {
    var h := ComponentMapIn(s, t);
    forall c | c in Components(t) ensures c in h.Values {
      var p :| p in ComponentMap(t) && ComponentMap(t)[p] == c;
      var q :| q in s && Connected(t, p, q);
      SameComponent(t, p, q);
      assert q in h && h[q] == c;
    }
  }

  lemma CoarserComponent(s: set<Pixel>, t: set<Pixel>, p: Pixel, q: Pixel)
    requires s <= t && p in s && q in s && Component(s, p) == Component(s, q)
    ensures Component(t, p) == Component(t, q)
  {
    SameComponent(s, p, q);
    ConnectedMono(s, t, p, q);
    SameComponent(t, p, q);
  }

  lemma CoarserAt(s: set<Pixel>, t: set<Pixel>, p: Pixel, q: Pixel)
    requires s <= t && p in s && q in s && ComponentMap(s)[p] == ComponentMap(s)[q]
    ensures ComponentMapIn(s, t)[p] == ComponentMapIn(s, t)[q]
  {
    CoarserComponent(s, t, p, q);
  }

  lemma FewerComponents(s: set<Pixel>, t: set<Pixel>, g: map<Pixel, set<Pixel>>, h: map<Pixel, set<Pixel>>)
    requires s <= t && g == ComponentMap(s) && h == ComponentMapIn(s, t)
    ensures |h.Values| <= |g.Values|
  {
    assert g.Keys == s && h.Keys == s;
    forall p, q | p in g && q in g && g[p] == g[q] ensures h[p] == h[q] {
      CoarserAt(s, t, p, q);
    }
    CoarserValues(g, h);
  }

  // A smaller set of pixels that still meets every component has at least as many components.
  lemma MeetsEveryComponent(s: set<Pixel>, t: set<Pixel>)
    requires s <= t
    requires forall p :: p in t ==> exists q :: q in s && Connected(t, p, q)
    ensures |Components(t)| <= |Components(s)|
  {
    FewerComponents(s, t, ComponentMap(s), ComponentMapIn(s, t));
    ComponentsMet(s, t);
    SubsetCount(Components(t), ComponentMapIn(s, t).Values);
  }

  // ---------- what the labels mean ----------

  // num is the final numbering, 0 for pixels that carry none.
  ghost function Numbering(lab: Labels, final: map<Pixel, int>): map<Pixel, int>
    requires lab.Keys <= final.Keys
  {
    map p | p in lab :: final[p]
  }

  // The foreground in full is numbered by its components.
  ghost predicate LabelsComponents(img: Gray, cols: nat, final: map<Pixel, int>)
    requires Rectangular(img, cols)
  {
    && (forall p :: p in Foreground(img, cols) ==> p in final && final[p] > 0)
    && (forall p, q :: p in Foreground(img, cols) && q in Foreground(img, cols) ==>
          p in final && q in final && (final[p] == final[q] <==> Connected(Foreground(img, cols), p, q)))
  }

  lemma FirstPassDomain(img: Gray, cols: nat, repaired: bool)
    requires Rectangular(img, cols)
    ensures var lab, fg := Raw(img, cols, repaired), Foreground(img, cols);
            forall p :: p in lab <==> p in fg && (repaired || !Gap(lab, p))
  {
    forall p {
      RawDomain(img, cols, repaired, |img|, 0, p);
    }
  }

  // A dropped pixel still lies next to a labelled one.
  lemma ReachesLabelled(img: Gray, cols: nat, repaired: bool, p: Pixel)
    requires Rectangular(img, cols) && p in Foreground(img, cols)
    ensures exists q :: q in Raw(img, cols, repaired) && Connected(Foreground(img, cols), p, q)
  {
    var lab, fg := Raw(img, cols, repaired), Foreground(img, cols);
    FirstPassDomain(img, cols, repaired);
    if p in lab {
      ConnectedSelf(fg, p);
    } else {
      assert (p, Left(p)) in Edges(fg);
      LinkedStep(Edges(fg), p, Left(p));
      assert Connected(fg, p, Left(p));
    }
  }

  // What the two passes leave: labelled pixels numbered by their components, the rest at zero.
  ghost predicate Outcome(img: Gray, cols: nat, repaired: bool, final: map<Pixel, int>, k: nat)
    requires Rectangular(img, cols)
  {
    var lab := Raw(img, cols, repaired);
    && lab.Keys <= final.Keys && Separates(lab.Keys, Numbering(lab, final), k)
    && forall p :: p in final && p !in lab ==> final[p] == 0
  }

  // Foreground and labelled pixels being the same, the labels number the foreground.
  lemma AllLabelled(img: Gray, cols: nat, repaired: bool, final: map<Pixel, int>, k: nat)
    requires Rectangular(img, cols) && Outcome(img, cols, repaired, final, k)
    requires Raw(img, cols, repaired).Keys == Foreground(img, cols)
    ensures LabelsComponents(img, cols, final)
  {
    var num, fg := Numbering(Raw(img, cols, repaired), final), Foreground(img, cols);
    assert forall p :: p in fg ==> num[p] == final[p];
  }

  // The passes number the foreground by its components exactly when the first one labels all of it.
  lemma ExactlyTheLabelled(img: Gray, cols: nat, repaired: bool, final: map<Pixel, int>, k: nat)
    requires Rectangular(img, cols) && Outcome(img, cols, repaired, final, k)
    requires Foreground(img, cols) <= final.Keys
    ensures LabelsComponents(img, cols, final) <==> Foreground(img, cols) == Raw(img, cols, repaired).Keys
  {
    var lab, fg := Raw(img, cols, repaired), Foreground(img, cols);
    FirstPassDomain(img, cols, repaired);
    assert lab.Keys <= fg;
    if fg == lab.Keys {
      AllLabelled(img, cols, repaired, final, k);
    } else {
      var p :| p in fg && p !in lab;
      assert final[p] == 0;
    }
  }

  lemma CountAtLeast(s: set<Pixel>, t: set<Pixel>, num: map<Pixel, int>, k: nat)
    requires s <= t && Separates(s, num, k)
    requires forall p :: p in t ==> exists q :: q in s && Connected(t, p, q)
    ensures |Components(t)| <= k == |Components(s)|
  {
    SeparatesCounts(s, num, k);
    MeetsEveryComponent(s, t);
  }

  // The number of objects is never below the number of components, and equals it without gaps.
  lemma ObjectCount(img: Gray, cols: nat, repaired: bool, final: map<Pixel, int>, k: nat)
    requires Rectangular(img, cols) && Outcome(img, cols, repaired, final, k)
    ensures |Components(Foreground(img, cols))| <= k == |Components(Raw(img, cols, repaired).Keys)|
    ensures repaired || (forall p :: p in Foreground(img, cols) ==> !Gap(Raw(img, cols, repaired), p)) ==>
              Raw(img, cols, repaired).Keys == Foreground(img, cols)
  {
    var lab, fg := Raw(img, cols, repaired), Foreground(img, cols);
    FirstPassDomain(img, cols, repaired);
    forall p | p in fg ensures exists q :: q in lab.Keys && Connected(fg, p, q) {
      ReachesLabelled(img, cols, repaired, p);
      var q :| q in lab && Connected(fg, p, q);
      assert q in lab.Keys;
    }
    CountAtLeast(lab.Keys, fg, Numbering(lab, final), k);
  }

  lemma RawNext(img: Gray, cols: nat, i: nat, j: nat, lab: Labels, count: int)
    requires Rectangular(img, cols) && i < |img| && j < cols && RawUpTo(img, cols, false, i, j) == (lab, count)
    ensures var next := (NextLabels(lab, count, (i, j), img[i][j], false), NextCount(lab, count, (i, j), img[i][j], false));
            RawUpTo(img, cols, false, if j + 1 < cols then i else i + 1, if j + 1 < cols then j + 1 else 0) == next
  {
  }

  const RING: Gray := [[255, 255, 255], [255, 0, 255], [255, 255, 255]]

  const RING1: Labels := map[(0, 0) := 2, (0, 1) := 2, (0, 2) := 2]
  const RING2: Labels := RING1[(1, 0) := 2][(1, 2) := 2]
  const RING3: Labels := RING2[(2, 0) := 2][(2, 1) := 2]

  lemma RingTop(img: Gray, cols: nat, i: nat)
    requires img == RING && cols == 3 && i == 0 && Rectangular(img, cols)
    ensures RawUpTo(img, cols, false, i + 1, 0) == (RING1, 2)
  {
    RawNext(img, cols, i, 0, map[], 0);
    RawNext(img, cols, i, 1, map[(0, 0) := 2], 2);
    RawNext(img, cols, i, 2, map[(0, 0) := 2, (0, 1) := 2], 2);
  }

  lemma RingMiddle(img: Gray, cols: nat, i: nat)
    requires img == RING && cols == 3 && i == 1 && Rectangular(img, cols) && RawUpTo(img, cols, false, i, 0) == (RING1, 2)
    ensures RawUpTo(img, cols, false, i + 1, 0) == (RING2, 2)
  {
    RawNext(img, cols, i, 0, RING1, 2);
    RawNext(img, cols, i, 1, RING1[(1, 0) := 2], 2);
    RawNext(img, cols, i, 2, RING1[(1, 0) := 2], 2);
  }

  lemma RingBottom(img: Gray, cols: nat, i: nat, lab: Labels)
    requires img == RING && cols == 3 && i == 2 && Rectangular(img, cols) && RawUpTo(img, cols, false, i, 0) == (lab, 2)
    requires (1, -1) !in lab && (2, -1) !in lab && (1, 0) in lab && lab[(1, 0)] == 2
    ensures RawUpTo(img, cols, false, i, 2) == (lab[(2, 0) := 2][(2, 1) := 2], 2)
  {
    RawNext(img, cols, i, 0, lab, 2);
    RawNext(img, cols, i, 1, lab[(2, 0) := 2], 2);
  }

  lemma RingCorner(img: Gray, cols: nat, i: nat, lab: Labels)
    requires img == RING && cols == 3 && i == 2 && Rectangular(img, cols) && RawUpTo(img, cols, false, i, 2) == (lab, 2)
    requires Gap(lab, (2, 2))
    ensures RawUpTo(img, cols, false, i + 1, 0) == (lab, 2)
  {
    RawNext(img, cols, i, 2, lab, 2);
  }

  lemma RingGap()
    ensures (2, 2) !in RING3 && Gap(RING3, (2, 2))
  {
  }

  lemma RingShape()
    ensures Rectangular(RING, 3) && (2, 2) in Foreground(RING, 3)
  {
    assert RING[2][2] == 255;
  }

  // A ring of eight pixels: the last one is dropped although it is connected to all the others.
  lemma RingIsDropped()
    ensures Rectangular(RING, 3) && (2, 2) in Foreground(RING, 3)
    ensures (2, 2) !in Raw(RING, 3, false) && Gap(Raw(RING, 3, false), (2, 2))
  {
    RingShape();
    RingTop(RING, 3, 0);
    RingMiddle(RING, 3, 1);
    RingBottom(RING, 3, 2, RING2);
    RingGap();
    RingCorner(RING, 3, 2, RING3);
  }
}
