// In what order the objects are numbered: which label of an object survives the unions, and the place of
// that label among all that survive.
module ObjectOrder {
  import opened Lists
  import opened Forests
  import opened PixelLabels

  // The surviving label of each label. A new label survives; where two labels meet, those that had the
  // survivor of the top neighbour's get the survivor of the left neighbour's.
  function NextSurvivors(lab: Labels, count: int, sv: map<int, int>, x: Pixel, gray: int): map<int, int> {
    match Choose(lab, x, gray, false)
    case NewLabel => sv[StartCount(count, x, gray) + 1 := StartCount(count, x, gray) + 1]
    case Unite =>
      if Left(x) in lab && Top(x) in lab && lab[Left(x)] in sv && lab[Top(x)] in sv then
        map l | l in sv :: if sv[l] == sv[lab[Top(x)]] then sv[lab[Left(x)]] else sv[l]
      else sv
    case _ => sv
  }

  function SurvivorsUpTo(img: Gray, cols: nat, repaired: bool, i: nat, j: nat): map<int, int>
    requires Rectangular(img, cols) && i <= |img| && j <= cols && (i == |img| ==> j == 0)
    decreases i, j
  {
    if j > 0 then
      var (lab, count) := RawUpTo(img, cols, repaired, i, j - 1);
      NextSurvivors(lab, count, SurvivorsUpTo(img, cols, repaired, i, j - 1), (i, j - 1), img[i][j - 1])
    else if i > 0 && cols > 0 then
      var (lab, count) := RawUpTo(img, cols, repaired, i - 1, cols - 1);
      NextSurvivors(lab, count, SurvivorsUpTo(img, cols, repaired, i - 1, cols - 1), (i - 1, cols - 1), img[i - 1][cols - 1])
    else map[]
  }

  function Survivors(img: Gray, cols: nat, repaired: bool): map<int, int>
    requires Rectangular(img, cols)
  {
    SurvivorsUpTo(img, cols, repaired, |img|, 0)
  }

  ghost predicate Rising(s: seq<int>) {
    forall i, j :: 0 <= i < j < |s| ==> s[i] < s[j]
  }

  // ---------- along the pass ----------

  // The roots are the survivors, and they stand in rising order.
  ghost predicate Tells(f: Forest, sv: map<int, int>) {
    f.root == sv && Rising(f.roots)
  }

  ghost predicate Above(lo: int, s: seq<int>) {
    forall i :: 0 <= i < |s| ==> lo < s[i]
  }

  lemma RisesFrom(x: int, s: seq<int>)
    requires Rising(s) && Above(x, s)
    ensures Rising([x] + s)
  {
  }

  lemma {:induction false} WithoutAbove(s: seq<int>, x: int, lo: int)
    requires Above(lo, s)
    ensures Above(lo, Without(s, x))
  {
    if s != [] {
      assert Above(lo, s[1..]);
      WithoutAbove(s[1..], x, lo);
    }
  }

  lemma {:induction false} WithoutRises(s: seq<int>, x: int)
    requires Rising(s)
    ensures Rising(Without(s, x))
  {
    if s != [] && s[0] != x {
      WithoutRises(s[1..], x);
      assert Above(s[0], s[1..]);
      WithoutAbove(s[1..], x, s[0]);
      RisesFrom(s[0], Without(s[1..], x));
    }
  }

  lemma UniteTells(f: Forest, sv: map<int, int>, a: int, b: int)
    requires Ranked(f) && Tells(f, sv) && a in sv && b in sv
    ensures Rising(Merged(f, a, b).roots)
    ensures Merged(f, a, b).root == map l | l in sv :: if sv[l] == sv[b] then sv[a] else sv[l]
  {
    assert RankedAt(f, b);
    WithoutRises(f.roots, f.root[b]);
  }

  lemma NextTells(lab: Labels, count: int, f: Forest, sv: map<int, int>, x: Pixel, gray: int)
    requires Invariant(lab, count, f) && Tells(f, sv)
    ensures Tells(NextForest(lab, count, f, x, gray), NextSurvivors(lab, count, sv, x, gray))
  {
    if Choose(lab, x, gray, false).Unite? {
      UniteTells(f, sv, lab[Left(x)], lab[Top(x)]);
    } else if Choose(lab, x, gray, false).NewLabel? {
      forall i | 0 <= i < |f.roots| ensures f.roots[i] <= count {
        assert f.roots[i] in f.roots;
      }
    }
  }

  lemma {:induction false} PassTells(img: Gray, cols: nat, repaired: bool, i: nat, j: nat)
    requires Rectangular(img, cols) && i <= |img| && j <= cols && (i == |img| ==> j == 0)
    ensures Tells(ForestUpTo(img, cols, repaired, i, j), SurvivorsUpTo(img, cols, repaired, i, j))
    decreases i, j
  {
    if j > 0 {
      PassTells(img, cols, repaired, i, j - 1);
      PassInvariant(img, cols, repaired, i, j - 1);
      var (lab, count) := RawUpTo(img, cols, repaired, i, j - 1);
      NextTells(lab, count, ForestUpTo(img, cols, repaired, i, j - 1), SurvivorsUpTo(img, cols, repaired, i, j - 1),
                (i, j - 1), img[i][j - 1]);
    } else if i > 0 && cols > 0 {
      PassTells(img, cols, repaired, i - 1, cols - 1);
      PassInvariant(img, cols, repaired, i - 1, cols - 1);
      var (lab, count) := RawUpTo(img, cols, repaired, i - 1, cols - 1);
      NextTells(lab, count, ForestUpTo(img, cols, repaired, i - 1, cols - 1),
                SurvivorsUpTo(img, cols, repaired, i - 1, cols - 1), (i - 1, cols - 1), img[i - 1][cols - 1]);
    }
  }

  // ---------- the numbers ----------

  // The labels that survive.
  ghost function Surviving(sv: map<int, int>): set<int> {
    set l | l in sv && sv[l] == l
  }

  // How many of the labels are not above v.
  ghost function Place(labels: set<int>, v: int): nat {
    |set s | s in labels && s <= v|
  }

  lemma {:induction false} PlaceOf(s: seq<int>, labels: set<int>, i: nat)
    requires Rising(s) && i < |s| && forall x :: x in labels <==> x in s
    ensures Place(labels, s[i]) == i + 1
  {
    Counted(s[..i + 1], set x | x in labels && x <= s[i]);
  }

  lemma {:induction false} Counted(s: seq<int>, m: set<int>)
    requires Rising(s) && forall x :: x in m <==> x in s
    ensures |m| == |s|
  {
    if s == [] {
      assert forall x :: x !in m;
    } else {
      var last := s[|s| - 1];
      Counted(s[..|s| - 1], m - {last});
    }
  }

  // Each labelled pixel has the place of its surviving label among those that survive.
  ghost predicate InOrder(img: Gray, cols: nat, repaired: bool, final: map<Pixel, int>)
    requires Rectangular(img, cols)
  {
    var lab, sv := Raw(img, cols, repaired), Survivors(img, cols, repaired);
    forall p :: p in lab ==> p in final && lab[p] in sv && sv[lab[p]] in Surviving(sv) && final[p] == Place(Surviving(sv), sv[lab[p]])
  }

  // Of two objects the one with the smaller surviving label has the smaller number.
  lemma SmallerFirst(img: Gray, cols: nat, repaired: bool, final: map<Pixel, int>, p: Pixel, q: Pixel)
    requires Rectangular(img, cols) && InOrder(img, cols, repaired, final)
    requires p in Raw(img, cols, repaired) && q in Raw(img, cols, repaired)
    ensures var lab, sv := Raw(img, cols, repaired), Survivors(img, cols, repaired);
            final[p] < final[q] <==> sv[lab[p]] < sv[lab[q]]
  {
    var lab, sv := Raw(img, cols, repaired), Survivors(img, cols, repaired);
    PlaceGrows(Surviving(sv), sv[lab[p]], sv[lab[q]]);
    PlaceGrows(Surviving(sv), sv[lab[q]], sv[lab[p]]);
  }

  lemma PlaceGrows(labels: set<int>, v: int, w: int)
    requires v in labels && w in labels
    ensures v < w ==> Place(labels, v) < Place(labels, w)
  {
    if v < w {
      var a, b := set s | s in labels && s <= v, set s | s in labels && s <= w;
      assert w in b && w !in a && a <= b;
      SubsetCount(a, b - {w});
    }
  }
}
