// The two passes of the labelling over an image's array, with the union-find that records which
// labels are equivalent, proved against the steps of PixelLabels.dfy.
module Labelling {
  import opened Lists
  import opened Forests
  import opened PixelLabels
  import opened UnionFinds
  import opened ObjectOrder

  // What a choice does: the label of the pixel, the label count and the chart afterwards.
  ghost predicate Chosen(lab: Labels, x: Pixel, choice: Choice, count: int, f0: Forest, chosen: int, count1: int, f1: Forest) {
    match choice
    case NewLabel => count1 == count + 1 && chosen == count1 && SameClasses(f1, Added(f0, count1))
    case Copy(q) => count1 == count && chosen == Shown(lab, q) && f1 == f0
    case Unite =>
      && count1 == count && chosen == Shown(lab, Left(x)) && Ranked(f0)
      && Shown(lab, Left(x)) in f0.root && Shown(lab, Top(x)) in f0.root
      && SameClasses(f1, Merged(f0, Shown(lab, Left(x)), Shown(lab, Top(x))))
    case _ => count1 == count && chosen == -1 && f1 == f0
  }

  // The same, told by the step function of the first pass.
  ghost predicate Stepped(lab: Labels, count: int, f0: Forest, x: Pixel, gray: int, repaired: bool, chosen: int, count1: int, f1: Forest) {
    && Ranked(f0)
    && chosen == Shown(NextLabels(lab, count, x, gray, repaired), x)
    && count1 == NextCount(lab, count, x, gray, repaired)
    && SameClasses(NextForest(lab, count, f0, x, gray), f1)
  }

  lemma ChosenSteps(lab: Labels, count: int, f0: Forest, x: Pixel, gray: int, repaired: bool, chosen: int, count1: int, f1: Forest)
    requires Ranked(f0) && x !in lab
    requires Chosen(lab, x, Choose(lab, x, gray, repaired), StartCount(count, x, gray), f0, chosen, count1, f1)
    ensures Stepped(lab, count, f0, x, gray, repaired, chosen, count1, f1)
  {
  }

  // Besides x itself, the pixels before the one after x are those before x; their labels stay.
  lemma StepShows(lab: Labels, count: int, x: Pixel, gray: int, repaired: bool, p: Pixel)
    requires Before(p, (x.0, x.1 + 1))
    ensures p != x ==> Before(p, x) && Shown(NextLabels(lab, count, x, gray, repaired), p) == Shown(lab, p)
    ensures p == x ==> p.0 == x.0 && p.1 == x.1
  {
  }

  lemma RowEnds(img: Gray, cols: nat, repaired: bool, i: nat)
    requires Rectangular(img, cols) && i < |img|
    ensures RawUpTo(img, cols, repaired, i, cols) == RawUpTo(img, cols, repaired, i + 1, 0)
    ensures ForestUpTo(img, cols, repaired, i, cols) == ForestUpTo(img, cols, repaired, i + 1, 0)
  {
    if cols == 0 {
    }
  }

  // The chart follows the forest of the pass.
  lemma PassForest(img: Gray, cols: nat, repaired: bool, i: nat, j: nat, f: Forest)
    requires Rectangular(img, cols) && i < |img| && j < cols && Ranked(f)
    requires SameClasses(ForestUpTo(img, cols, repaired, i, j), f)
    ensures var (lab, count) := RawUpTo(img, cols, repaired, i, j);
            SameClasses(ForestUpTo(img, cols, repaired, i, j + 1), NextForest(lab, count, f, (i, j), img[i][j]))
  {
    PassInvariant(img, cols, repaired, i, j);
    var (lab, count) := RawUpTo(img, cols, repaired, i, j);
    NextForestAlike(lab, count, ForestUpTo(img, cols, repaired, i, j), f, (i, j), img[i][j]);
  }

  ghost function Position(s: seq<int>, x: int): (i: nat)
    requires x in s
    ensures i < |s| && s[i] == x && x !in s[..i]
  {
    if s[0] == x then 0 else 1 + Position(s[1..], x)
  }

  // The number given to the object of a label.
  ghost function ObjectNumber(f: Forest, l: int): int {
    if l in f.root && f.root[l] in f.roots then Position(f.roots, f.root[l]) + 1 else 0
  }

  ghost function ObjectMap(rows: nat, cols: nat, f: Forest, lab: Labels): (m: map<Pixel, int>)
    ensures forall p: Pixel :: p in m <==> 0 <= p.0 < rows && 0 <= p.1 < cols
    ensures forall p: Pixel :: p in m ==> m[p] == ObjectNumber(f, Shown(lab, p))
  {
    map i, j | 0 <= i < rows && 0 <= j < cols :: (i, j) := ObjectNumber(f, Shown(lab, (i, j)))
  }

  lemma PositionUnique(s: seq<int>, i: nat)
    requires NoRepeats(s) && i < |s|
    ensures Position(s, s[i]) == i
  {
  }

  lemma ObjectNumbers(lab: Labels, count: int, f: Forest, p: Pixel)
    requires Invariant(lab, count, f) && p in lab
    ensures lab[p] in f.root && f.root[lab[p]] in f.roots && 1 <= ObjectNumber(f, lab[p]) <= |f.roots|
    ensures f.roots[ObjectNumber(f, lab[p]) - 1] == f.root[lab[p]]
  {
    RootsListed(f, lab[p]);
  }

  lemma NumbersUsed(lab: Labels, count: int, f: Forest, num: map<Pixel, int>, c: int)
    requires Invariant(lab, count, f) && num.Keys == lab.Keys && 1 <= c <= |f.roots|
    requires forall p :: p in lab ==> num[p] == ObjectNumber(f, lab[p])
    ensures Uses(num, c)
  {
    var r := f.roots[c - 1];
    assert r in f.root && f.root[r] == r;
    var p :| p in lab && lab[p] == r;
    PositionUnique(f.roots, c - 1);
    assert num[p] == c;
  }

  // Two labels have one number exactly when their classes are one.
  lemma NumbersApart(lab: Labels, count: int, f: Forest, p: Pixel, q: Pixel)
    requires Invariant(lab, count, f) && p in lab && q in lab
    ensures ObjectNumber(f, lab[p]) == ObjectNumber(f, lab[q]) <==> Connected(lab.Keys, p, q)
  {
    ObjectNumbers(lab, count, f, p);
    ObjectNumbers(lab, count, f, q);
    assert ExactAt(lab, f, p, q);
  }

  lemma NumbersSeparate(lab: Labels, count: int, f: Forest, num: map<Pixel, int>)
    requires Invariant(lab, count, f) && num.Keys == lab.Keys
    requires forall p :: p in lab ==> num[p] == ObjectNumber(f, lab[p])
    ensures Separates(lab.Keys, num, |f.roots|)
  {
    forall p | p in lab ensures 1 <= num[p] <= |f.roots| {
      ObjectNumbers(lab, count, f, p);
    }
    forall c | 1 <= c <= |f.roots| ensures Uses(num, c) {
      NumbersUsed(lab, count, f, num, c);
    }
    forall p, q | p in lab && q in lab ensures num[p] == num[q] <==> Connected(lab.Keys, p, q) {
      NumbersApart(lab, count, f, p, q);
    }
  }

  // The pass's own forest and the chart have the same classes, so the chart numbers the components.
  lemma PassOutcome(img: Gray, cols: nat, repaired: bool, f: Forest, final: map<Pixel, int>, k: nat)
    requires Rectangular(img, cols) && Forests.Valid(f) && k == |f.roots|
    requires SameClasses(ForestUpTo(img, cols, repaired, |img|, 0), f)
    requires forall p :: p in final <==> InImage(img, cols, p)
    requires forall p :: p in final ==> final[p] == ObjectNumber(f, Shown(Raw(img, cols, repaired), p))
    ensures Outcome(img, cols, repaired, final, k)
  {
    var (lab, count) := RawUpTo(img, cols, repaired, |img|, 0);
    PassInvariant(img, cols, repaired, |img|, 0);
    SeenBefore(img, cols, repaired, |img|, 0);
    InvariantAlike(lab, count, ForestUpTo(img, cols, repaired, |img|, 0), f);
    LabelledNumbers(lab, count, f, final);
  }

  lemma LabelledNumbers(lab: Labels, count: int, f: Forest, final: map<Pixel, int>)
    requires Invariant(lab, count, f) && lab.Keys <= final.Keys
    requires forall p :: p in final ==> final[p] == ObjectNumber(f, Shown(lab, p))
    ensures Separates(lab.Keys, Numbering(lab, final), |f.roots|)
    ensures forall p :: p in final && p !in lab ==> final[p] == 0
  {
    NumbersSeparate(lab, count, f, Numbering(lab, final));
    assert -1 !in f.root;
  }

  // A root's place in the vector of roots is its place among the labels that survive.
  lemma NumberIsPlace(f: Forest, sv: map<int, int>, l: int)
    requires Forests.Valid(f) && Tells(f, sv) && l in f.root
    ensures sv[l] in Surviving(sv) && ObjectNumber(f, l) == Place(Surviving(sv), sv[l])
  {
    RootsListed(f, l);
    PlaceOf(f.roots, Surviving(sv), Position(f.roots, f.root[l]));
  }

  // The chart has the roots in the order of the pass.
  lemma PassOrder(img: Gray, cols: nat, repaired: bool, f: Forest, final: map<Pixel, int>)
    requires Rectangular(img, cols) && Forests.Valid(f)
    requires SameClasses(ForestUpTo(img, cols, repaired, |img|, 0), f)
    requires forall p :: p in final <==> InImage(img, cols, p)
    requires forall p :: p in final ==> final[p] == ObjectNumber(f, Shown(Raw(img, cols, repaired), p))
    ensures InOrder(img, cols, repaired, final)
  {
    var lab, sv := Raw(img, cols, repaired), Survivors(img, cols, repaired);
    PassTells(img, cols, repaired, |img|, 0);
    SeenBefore(img, cols, repaired, |img|, 0);
    PassInvariant(img, cols, repaired, |img|, 0);
    forall p | p in lab
      ensures p in final && lab[p] in sv && sv[lab[p]] in Surviving(sv) && final[p] == Place(Surviving(sv), sv[lab[p]])
    {
      NumberIsPlace(f, sv, lab[p]);
    }
  }

  class Image {
    const rows: nat
    const cols: nat
    const repaired: bool        // false for the program as written
    var labels: array2<int>
    var labelCount: int
    const labelChart: UnionFind
    ghost var lab: Labels       // the labels given in the first pass

    constructor (rows: nat, cols: nat, repaired: bool)
      ensures this.rows == rows && this.cols == cols && this.repaired == repaired
      ensures Shaped() && Charted() && lab == map[] && labelCount == 0 && labelChart.f == EMPTY
      ensures fresh(labels) && fresh(labelChart) && fresh(labelChart.nodes)
    {
      this.rows, this.cols, this.repaired := rows, cols, repaired;
      labels := new int[rows, cols];
      labelCount := 0;
      labelChart := new UnionFind();
      lab := map[];
    }

    ghost predicate Shaped()
      reads this
    {
      labels.Length0 == rows && labels.Length1 == cols
    }

    // The labels given so far are keys of the chart, and the chart knows no label above labelCount.
    ghost predicate Charted()
      reads this, labelChart, labelChart.nodeLocs.Values
    {
      && labelChart.Valid() && labelChart.Keyed()
      && (forall p :: p in lab ==> 1 <= lab[p] && lab[p] in labelChart.f.root && 0 <= p.0 < rows && 0 <= p.1 < cols)
      && (forall k :: k in labelChart.f.root ==> 1 <= k <= labelCount)
      && 0 <= labelCount
    }

    // The pixels before x carry their labels, or -1.
    ghost predicate Shows(x: Pixel)
      requires Shaped()
      reads this, labels
    {
      forall p: Pixel :: 0 <= p.0 < rows && 0 <= p.1 < cols && Before(p, x) ==> labels[p.0, p.1] == Shown(lab, p)
    }

    // A new label enters the chart as a class of its own.
    method Chart(k: int)
      requires labelChart.Valid() && labelChart.Keyed() && k !in labelChart.f.root
      modifies labelChart, labelChart.nodes
      ensures labelChart.Valid() && labelChart.Keyed() && fresh(labelChart.nodes - old(labelChart.nodes))
      ensures SameClasses(labelChart.f, Added(old(labelChart.f), k))
    {
      var _ := labelChart.Find(k);
    }

    // Two charted labels become equivalent.
    method Equate(a: int, b: int)
      requires labelChart.Valid() && labelChart.Keyed() && a in labelChart.f.root && b in labelChart.f.root
      modifies labelChart, labelChart.nodes
      ensures labelChart.Valid() && labelChart.Keyed() && fresh(labelChart.nodes - old(labelChart.nodes))
      ensures Ranked(old(labelChart.f)) && SameClasses(labelChart.f, Merged(old(labelChart.f), a, b))
    {
      var _ := labelChart.Union(a, b);
    }

    // The labels of the three neighbours already visited, -1 outside the image.
    method NeighbourLabels(i: nat, j: nat) returns (labelTop: int, labelLeft: int, labelTopLeft: int)
      requires Shaped() && i < rows && j < cols
      requires forall p: Pixel :: 0 <= p.0 < rows && 0 <= p.1 < cols && Behind((i, j), p) ==> labels[p.0, p.1] == Shown(lab, p)
      requires forall p :: p in lab ==> 0 <= p.0 < rows && 0 <= p.1 < cols && lab[p] >= 1
      ensures labelTop == Shown(lab, Top((i, j))) && labelLeft == Shown(lab, Left((i, j)))
      ensures labelTopLeft == Shown(lab, TopLeft((i, j)))
    {
      labelTop, labelLeft, labelTopLeft := -2, -2, -2;
      if i == 0 {
        labelTop := -1;
        labelTopLeft := -1;
      } else {
        labelTop := labels[i - 1, j];
      }
      if j == 0 {
        labelLeft := -1;
        labelTopLeft := -1;
      } else {
        labelLeft := labels[i, j - 1];
      }
      if labelTopLeft == -2 {
        labelTopLeft := labels[i - 1, j - 1];
      }
    }

    // The choice among the cases, from the neighbours' labels.
    method ChooseLabel(x: Pixel, grayLevel: int, labelTop: int, labelLeft: int, labelTopLeft: int)
      returns (chosen: int)
      requires labelChart.Valid() && labelChart.Keyed() && labelCount + 1 !in labelChart.f.root
      requires labelTop == Shown(lab, Top(x)) && labelLeft == Shown(lab, Left(x))
      requires labelTopLeft == Shown(lab, TopLeft(x))
      requires forall p :: p in lab ==> lab[p] >= 1 && lab[p] in labelChart.f.root
      modifies this`labelCount, labelChart, labelChart.nodes
      ensures labelChart.Valid() && labelChart.Keyed() && fresh(labelChart.nodes - old(labelChart.nodes))
      ensures Chosen(lab, x, Choose(lab, x, grayLevel, repaired), old(labelCount), old(labelChart.f), chosen, labelCount, labelChart.f)
    {
      chosen := -1;
      if grayLevel == 255 {
        if labelTop + labelLeft + labelTopLeft == -3 {
          labelCount := labelCount + 1;
          chosen := labelCount;
          Chart(labelCount);
        } else if labelTopLeft > 0 {
          chosen := labelTopLeft;
        } else if labelTop + labelTopLeft == -2 {
          chosen := labelLeft;
        } else if labelLeft + labelTopLeft == -2 {
          chosen := labelTop;
        } else if labelLeft != labelTop {
          Equate(labelLeft, labelTop);
          chosen := labelLeft;
        } else if repaired {
          chosen := labelLeft;
        }
      }
    }

    // The count that a foreground pixel in the corner adds, besides the one for its own label.
    method Corner(i: nat, j: nat, grayLevel: int)
      requires Shaped() && i < rows && j < cols
      modifies this`labelCount, labels
      ensures labelCount == StartCount(old(labelCount), (i, j), grayLevel)
      ensures labels[i, j] == if i == 0 && j == 0 && grayLevel == 255 then labelCount else -1
      ensures forall a, b :: 0 <= a < rows && 0 <= b < cols && (a, b) != (i, j) ==> labels[a, b] == old(labels[a, b])
    {
      labels[i, j] := -1;
      if i == 0 && j == 0 {
        if grayLevel == 255 {
          labelCount := labelCount + 1;
          labels[i, j] := labelCount;
        } else {
          labels[i, j] := -1;
        }
      }
    }

    // The neighbours' labels, the choice, and what the chart makes of it.
    method Choice(i: nat, j: nat, grayLevel: int, ghost count: int) returns (chosen: int)
      requires Shaped() && Charted() && i < rows && j < cols && (i, j) !in lab && labelCount == StartCount(count, (i, j), grayLevel)
      requires forall p: Pixel :: 0 <= p.0 < rows && 0 <= p.1 < cols && Behind((i, j), p) ==> labels[p.0, p.1] == Shown(lab, p)
      modifies this`labelCount, labelChart, labelChart.nodes
      ensures labelChart.Valid() && labelChart.Keyed() && fresh(labelChart.nodes - old(labelChart.nodes))
      ensures Stepped(lab, count, old(labelChart.f), (i, j), grayLevel, repaired, chosen, labelCount, labelChart.f)
    {
      var labelTop, labelLeft, labelTopLeft := NeighbourLabels(i, j);
      ghost var f0, count0 := labelChart.f, labelCount;
      chosen := ChooseLabel((i, j), grayLevel, labelTop, labelLeft, labelTopLeft);
      ChosenSteps(lab, count, f0, (i, j), grayLevel, repaired, chosen, labelCount, labelChart.f);
    }

    // Writes a pixel's label, in the array and in the record of labels.
    method Put(i: nat, j: nat, chosen: int, ghost lab1: Labels)
      requires Shaped() && i < rows && j < cols && labelChart.Valid() && labelChart.Keyed()
      modifies this`lab, labels
      ensures labelChart.Valid() && labelChart.Keyed() && lab == lab1 && labels[i, j] == chosen
      ensures forall a, b :: 0 <= a < rows && 0 <= b < cols && (a, b) != (i, j) ==> labels[a, b] == old(labels[a, b])
    {
      lab := lab1;
      labels[i, j] := chosen;
    }

    // One pixel of the first pass.
    method SetLabel(i: nat, j: nat, grayLevel: int)
      requires Shaped() && Charted() && i < rows && j < cols && (i, j) !in lab
      requires forall p: Pixel :: 0 <= p.0 < rows && 0 <= p.1 < cols && Behind((i, j), p) ==> labels[p.0, p.1] == Shown(lab, p)
      modifies this`labelCount, this`lab, labels, labelChart, labelChart.nodes
      ensures labelChart.Valid() && labelChart.Keyed() && fresh(labelChart.nodes - old(labelChart.nodes))
      ensures lab == NextLabels(old(lab), old(labelCount), (i, j), grayLevel, repaired)
      ensures Stepped(old(lab), old(labelCount), old(labelChart.f), (i, j), grayLevel, repaired, labels[i, j], labelCount, labelChart.f)
      ensures forall a, b :: 0 <= a < rows && 0 <= b < cols && (a, b) != (i, j) ==> labels[a, b] == old(labels[a, b])
    {
      ghost var count := labelCount;
      Corner(i, j, grayLevel);
      var chosen := Choice(i, j, grayLevel, count);
      Put(i, j, chosen, NextLabels(lab, count, (i, j), grayLevel, repaired));
    }

    // The state of the first pass before the pixel (i, j).
    ghost predicate At(img: Gray, i: nat, j: nat)
      requires |img| == rows && Rectangular(img, cols)
      reads this, labels, labelChart, labelChart.nodeLocs.Values
    {
      && i <= rows && j <= cols && (i == rows ==> j == 0)
      && Shaped() && Charted() && (lab, labelCount) == RawUpTo(img, cols, repaired, i, j)
      && SameClasses(ForestUpTo(img, cols, repaired, i, j), labelChart.f)
      && Shows((i, j))
    }

    // What the pass has recorded keeps the chart's invariant.
    lemma Charts(img: Gray, i: nat, j: nat)
      requires |img| == rows && Rectangular(img, cols) && i <= rows && j <= cols && (i == rows ==> j == 0)
      requires labelChart.Valid() && labelChart.Keyed() && (lab, labelCount) == RawUpTo(img, cols, repaired, i, j)
      requires SameClasses(ForestUpTo(img, cols, repaired, i, j), labelChart.f)
      ensures Charted()
    {
      PassInvariant(img, cols, repaired, i, j);
      SeenBefore(img, cols, repaired, i, j);
    }

    // Labels the pixel and leaves every pixel so far showing its label.
    method Label(img: Gray, i: nat, j: nat)
      requires |img| == rows && Rectangular(img, cols) && i < rows && j < cols
      requires Shaped() && Charted() && Shows((i, j)) && (i, j) !in lab
      modifies this`labelCount, this`lab, labels, labelChart, labelChart.nodes
      ensures labelChart.Valid() && labelChart.Keyed() && fresh(labelChart.nodes - old(labelChart.nodes))
      ensures lab == NextLabels(old(lab), old(labelCount), (i, j), img[i][j], repaired)
      ensures Stepped(old(lab), old(labelCount), old(labelChart.f), (i, j), img[i][j], repaired, labels[i, j], labelCount, labelChart.f)
      ensures Shows((i, j + 1))
    {
      ghost var lab0, count0 := lab, labelCount;
      SetLabel(i, j, img[i][j]);
      forall p: Pixel | 0 <= p.0 < rows && 0 <= p.1 < cols && Before(p, (i, j + 1)) ensures labels[p.0, p.1] == Shown(lab, p) {
        StepShows(lab0, count0, (i, j), img[i][j], repaired, p);
      }
    }

    method Visit(img: Gray, i: nat, j: nat)
      requires |img| == rows && Rectangular(img, cols) && i < rows && j < cols && At(img, i, j)
      modifies this`labelCount, this`lab, labels, labelChart, labelChart.nodes
      ensures At(img, i, j + 1)
      ensures fresh(labelChart.nodes - old(labelChart.nodes))
    {
      ghost var lab0, count0, f0 := lab, labelCount, labelChart.f;
      SeenBefore(img, cols, repaired, i, j);
      Label(img, i, j);
      PassForest(img, cols, repaired, i, j, f0);
      Charts(img, i, j + 1);
    }

    lemma NextRow(img: Gray, i: nat)
      requires |img| == rows && Rectangular(img, cols) && i < rows && At(img, i, cols)
      ensures At(img, i + 1, 0)
    {
      RowEnds(img, cols, repaired, i);
    }

    method RowOf(img: Gray, i: nat)
      requires |img| == rows && Rectangular(img, cols) && i < rows && At(img, i, 0)
      modifies this`labelCount, this`lab, labels, labelChart, labelChart.nodes
      ensures At(img, i + 1, 0) && fresh(labelChart.nodes - old(labelChart.nodes))
    {
      VisitRow(img, i);
      NextRow(img, i);
    }

    method VisitRow(img: Gray, i: nat)
      requires |img| == rows && Rectangular(img, cols) && i < rows && At(img, i, 0)
      modifies this`labelCount, this`lab, labels, labelChart, labelChart.nodes
      ensures At(img, i, cols) && fresh(labelChart.nodes - old(labelChart.nodes))
    {
      for j := 0 to cols
        invariant At(img, i, j) && fresh(labelChart.nodes - old(labelChart.nodes))
      {
        Visit(img, i, j);
      }
    }

    // The whole first pass, in raster order.
    method FirstPass(img: Gray)
      requires |img| == rows && Rectangular(img, cols) && Shaped()
      requires labelChart.Valid() && labelChart.f == EMPTY && lab == map[] && labelCount == 0
      modifies this`labelCount, this`lab, labels, labelChart, labelChart.nodes
      ensures At(img, rows, 0) && fresh(labelChart.nodes - old(labelChart.nodes))
    {
      for i := 0 to rows
        invariant At(img, i, 0) && fresh(labelChart.nodes - old(labelChart.nodes))
      {
        RowOf(img, i);
      }
    }

    // ---------- the second pass ----------

    // Each root's value is its place in the collection, counted from 1; a node for -1 keeps -1.
    ghost predicate Renumbered(f1: Forest)
      reads labelChart, labelChart.nodeLocs.Values
    {
      && (SameClasses(labelChart.f, f1) || SameClasses(labelChart.f, WithKey(f1, -1)))
      && (forall i :: 0 <= i < |f1.roots| ==>
            f1.roots[i] in labelChart.nodeLocs && labelChart.nodeLocs[f1.roots[i]].value == i + 1)
      && (-1 in labelChart.nodeLocs ==> labelChart.nodeLocs[-1].value == -1)
    }

    method Renumber()
      requires labelChart.Valid() && -1 !in labelChart.f.root
      modifies labelChart.nodes
      ensures labelChart.Valid() && Renumbered(labelChart.f)
    {
      for i := 0 to |labelChart.collection|
        invariant labelChart.Valid() && labelChart.collection == old(labelChart.collection)
        invariant labelChart.f == old(labelChart.f) && labelChart.nodes == old(labelChart.nodes)
        invariant forall k :: 0 <= k < i ==> labelChart.collection[k].value == k + 1
      {
        ghost var r := labelChart.f.roots[i];
        assert labelChart.collection[i] == labelChart.nodeLocs[r] && labelChart.nodeLocs[r] in labelChart.nodes;
        assert forall k :: 0 <= k < i ==> labelChart.f.roots[k] != r && labelChart.collection[k] == labelChart.nodeLocs[labelChart.f.roots[k]];
        labelChart.ChangeValue(labelChart.collection[i], i + 1);
      }
    }

    // Finding a label keeps the numbers.
    method FindRenumbered(l: int, ghost f1: Forest) returns (node: Node)
      requires labelChart.Valid() && Renumbered(f1) && -1 !in f1.root && (l in f1.root || l == -1)
      modifies labelChart, labelChart.nodes
      ensures labelChart.Valid() && Renumbered(f1) && fresh(labelChart.nodes - old(labelChart.nodes))
      ensures l in labelChart.f.root && labelChart.f.root[l] in labelChart.nodeLocs
      ensures node == labelChart.nodeLocs[labelChart.f.root[l]]
    {
      node := labelChart.Find(l);
      forall i | 0 <= i < |f1.roots|
        ensures f1.roots[i] in labelChart.nodeLocs && labelChart.nodeLocs[f1.roots[i]].value == i + 1
      {
        var r := f1.roots[i];
        assert r in old(labelChart.nodeLocs);
        assert old(labelChart.nodeLocs[r].value) == i + 1;
        assert r in labelChart.nodeLocs;
        assert labelChart.nodeLocs[r].value == old(labelChart.nodeLocs[r].value);
      }
    }

    lemma NumberFound(l: int, f1: Forest)
      requires labelChart.Valid() && Renumbered(f1) && Forests.Valid(f1) && -1 !in f1.root && (l in f1.root || l == -1)
      requires l in labelChart.f.root && labelChart.f.root[l] in labelChart.nodeLocs
      ensures var val := labelChart.nodeLocs[labelChart.f.root[l]].value;
              ObjectNumber(f1, l) == if val < 0 then 0 else val
    {
      if l in f1.root {
        RootsListed(f1, l);
        assert f1.roots[Position(f1.roots, f1.root[l])] == f1.root[l];
      }
    }

    // The number of the object a label belongs to; 0 for the background.
    method ObjectOf(l: int, ghost f1: Forest) returns (val: int)
      requires labelChart.Valid() && Renumbered(f1) && Forests.Valid(f1) && -1 !in f1.root
      requires l in f1.root || l == -1
      modifies labelChart, labelChart.nodes
      ensures labelChart.Valid() && Renumbered(f1) && fresh(labelChart.nodes - old(labelChart.nodes))
      ensures val == ObjectNumber(f1, l)
    {
      var node := FindRenumbered(l, f1);
      NumberFound(l, f1);
      val := node.value;
      if val < 0 {
        val := 0;
      }
    }

    // The pixels before x carry the numbers of their objects, the others still their labels.
    ghost predicate ShowsObjects(f1: Forest, x: Pixel)
      requires Shaped()
      reads this, labels
    {
      forall p: Pixel :: 0 <= p.0 < rows && 0 <= p.1 < cols ==>
        labels[p.0, p.1] == if Before(p, x) then ObjectNumber(f1, Shown(lab, p)) else Shown(lab, p)
    }

    method RenumberPixel(i: nat, j: nat, ghost f1: Forest)
      requires Shaped() && i < rows && j < cols && ShowsObjects(f1, (i, j))
      requires labelChart.Valid() && Renumbered(f1) && Forests.Valid(f1) && -1 !in f1.root
      requires forall p :: p in lab ==> lab[p] in f1.root
      modifies labels, labelChart, labelChart.nodes
      ensures labelChart.Valid() && Renumbered(f1) && fresh(labelChart.nodes - old(labelChart.nodes))
      ensures ShowsObjects(f1, (i, j + 1))
    {
      var val := ObjectOf(labels[i, j], f1);
      PutObject(i, j, val, f1);
    }

    method PutObject(i: nat, j: nat, val: int, ghost f1: Forest)
      requires Shaped() && i < rows && j < cols && ShowsObjects(f1, (i, j))
      requires labelChart.Valid() && Renumbered(f1) && val == ObjectNumber(f1, Shown(lab, (i, j)))
      modifies labels
      ensures labelChart.Valid() && Renumbered(f1) && ShowsObjects(f1, (i, j + 1))
    {
      labels[i, j] := val;
    }

    // Merges connected objects: every pixel gets the number of its object.
    method SecondPass() returns (objects: nat)
      requires Shaped() && Charted() && (forall p: Pixel :: 0 <= p.0 < rows && 0 <= p.1 < cols ==> labels[p.0, p.1] == Shown(lab, p))
      modifies labels, labelChart, labelChart.nodes
      ensures objects == |old(labelChart.f.roots)|
      ensures ShowsObjects(old(labelChart.f), (rows, 0))
    {
      ghost var f1 := labelChart.f;
      objects := |labelChart.collection|;
      Renumber();
      for i := 0 to rows
        invariant ShowsObjects(f1, (i, 0))
        invariant labelChart.Valid() && Renumbered(f1) && fresh(labelChart.nodes - old(labelChart.nodes))
      {
        for j := 0 to cols
          invariant ShowsObjects(f1, (i, j))
          invariant labelChart.Valid() && Renumbered(f1) && fresh(labelChart.nodes - old(labelChart.nodes))
        {
          RenumberPixel(i, j, f1);
        }
      }
    }

    // Both passes over an image, in terms of the chart after the first.
    method Passes(img: Gray) returns (objects: nat, ghost f1: Forest)
      requires |img| == rows && Rectangular(img, cols) && Shaped()
      requires labelChart.Valid() && labelChart.f == EMPTY && lab == map[] && labelCount == 0
      modifies this`labelCount, this`lab, labels, labelChart, labelChart.nodes
      ensures Forests.Valid(f1) && objects == |f1.roots| && SameClasses(ForestUpTo(img, cols, repaired, |img|, 0), f1)
      ensures lab == Raw(img, cols, repaired) && Shaped() && ShowsObjects(f1, (rows, 0))
    {
      FirstPass(img);
      f1 := labelChart.f;
      objects := SecondPass();
    }

    // Both passes number the labelled pixels by their 6-connected components, in the order of the
    // labels that survive.
    method LabelObjects(img: Gray) returns (objects: nat, ghost final: map<Pixel, int>)
      requires |img| == rows && Rectangular(img, cols) && Shaped()
      requires labelChart.Valid() && labelChart.f == EMPTY && lab == map[] && labelCount == 0
      modifies this`labelCount, this`lab, labels, labelChart, labelChart.nodes
      ensures Shaped() && forall p: Pixel :: p in final <==> InImage(img, cols, p)
      ensures forall p: Pixel :: 0 <= p.0 < rows && 0 <= p.1 < cols ==> p in final && final[p] == labels[p.0, p.1]
      ensures Outcome(img, cols, repaired, final, objects) && InOrder(img, cols, repaired, final)
    {
      ghost var f1;
      objects, f1 := Passes(img);
      final := ObjectMap(rows, cols, f1, lab);
      PassOutcome(img, cols, repaired, f1, final, objects);
      PassOrder(img, cols, repaired, f1, final);
    }
  }
}
