// When the first pass drops a pixel, said of the image alone: where the label of each foreground pixel
// comes from, and the pixels whose left and top neighbours have labels from one and the same place.
module Closing {
  import opened PixelLabels

  // The pixel whose fresh label p would carry if no pixel were dropped.
  function Origin(img: Gray, cols: nat, p: Pixel): Pixel
    requires Rectangular(img, cols)
    decreases p.0 + p.1 + 2
  {
    if !IsForeground(img, cols, p) then p
    else if IsForeground(img, cols, TopLeft(p)) then Origin(img, cols, TopLeft(p))
    else if IsForeground(img, cols, Left(p)) then Origin(img, cols, Left(p))
    else if IsForeground(img, cols, Top(p)) then Origin(img, cols, Top(p))
    else p
  }

  // p closes a loop of foreground around a background pixel: the labels of its left and top
  // neighbours have one origin.
  predicate Closes(img: Gray, cols: nat, p: Pixel)
    requires Rectangular(img, cols)
  {
    && IsForeground(img, cols, p) && !IsForeground(img, cols, TopLeft(p))
    && IsForeground(img, cols, Left(p)) && IsForeground(img, cols, Top(p))
    && Origin(img, cols, Left(p)) == Origin(img, cols, Top(p))
  }

  predicate UpTo(p: Pixel, q: Pixel) { p == q || Before(p, q) }

  lemma {:induction false} OriginUpTo(img: Gray, cols: nat, p: Pixel)
    requires Rectangular(img, cols)
    ensures UpTo(Origin(img, cols, p), p)
    decreases p.0 + p.1 + 2
  {
    if IsForeground(img, cols, p) {
      if IsForeground(img, cols, TopLeft(p)) {
        OriginUpTo(img, cols, TopLeft(p));
      } else if IsForeground(img, cols, Left(p)) {
        OriginUpTo(img, cols, Left(p));
      } else if IsForeground(img, cols, Top(p)) {
        OriginUpTo(img, cols, Top(p));
      }
    }
  }

  // ---------- along the pass ----------

  // The labelled pixels are the foreground before x, and two labels are one exactly when their
  // origins are.
  ghost predicate ByOrigin(img: Gray, cols: nat, lab: Labels, x: Pixel)
    requires Rectangular(img, cols)
  {
    && (forall p :: p in lab <==> IsForeground(img, cols, p) && Before(p, x))
    && (forall p, q :: p in lab && q in lab ==>
          (lab[p] == lab[q] <==> Origin(img, cols, p) == Origin(img, cols, q)))
    && (forall p :: Before(p, x) ==> !Closes(img, cols, p))
  }

  // Some closing pixel before x has been passed over.
  ghost predicate Missed(img: Gray, cols: nat, lab: Labels, x: Pixel)
    requires Rectangular(img, cols)
  {
    exists p :: Closes(img, cols, p) && Before(p, x) && p !in lab
  }

  // At a closing pixel the program as written takes no branch; at any other it goes on by origin.
  lemma StepByOrigin(img: Gray, cols: nat, lab: Labels, count: int, i: nat, j: nat)
    requires Rectangular(img, cols) && i < |img| && j < cols && ByOrigin(img, cols, lab, (i, j))
    requires forall p :: p in lab ==> lab[p] <= count
    ensures var lab' := NextLabels(lab, count, (i, j), img[i][j], false);
            if Closes(img, cols, (i, j)) then (i, j) !in lab'
            else lab'.Keys == lab.Keys + (if img[i][j] == FOREGROUND then {(i, j)} else {})
                 && forall p, q :: p in lab' && q in lab' ==>
                      (lab'[p] == lab'[q] <==> Origin(img, cols, p) == Origin(img, cols, q))
  {
    var x := (i, j);
    forall p | p in lab ensures Origin(img, cols, p) != x {
      OriginUpTo(img, cols, p);
    }
    assert Before(Left(x), x) && Before(Top(x), x) && Before(TopLeft(x), x);
  }

  // All along the pass of the program as written: labels follow origins until a pixel closes, and
  // then there is a pixel passed over.
  ghost predicate Tracked(img: Gray, cols: nat, lab: Labels, x: Pixel)
    requires Rectangular(img, cols)
  {
    ByOrigin(img, cols, lab, x) || Missed(img, cols, lab, x)
  }

  // A pixel that was passed over gets no label later.
  lemma StillMissed(img: Gray, cols: nat, lab: Labels, count: int, i: nat, j: nat, y: Pixel)
    requires Rectangular(img, cols) && i < |img| && j < cols && Missed(img, cols, lab, (i, j))
    requires forall p :: UpTo(p, (i, j)) ==> Before(p, y)
    ensures Missed(img, cols, NextLabels(lab, count, (i, j), img[i][j], false), y)
  {
    var p :| Closes(img, cols, p) && Before(p, (i, j)) && p !in lab;
    assert Closes(img, cols, p) && Before(p, y);
  }

  lemma Goes(img: Gray, cols: nat, lab: Labels, count: int, i: nat, j: nat, y: Pixel)
    requires Rectangular(img, cols) && i < |img| && j < cols && Tracked(img, cols, lab, (i, j))
    requires forall p :: p in lab ==> lab[p] <= count
    requires forall p :: InImage(img, cols, p) ==> (UpTo(p, (i, j)) <==> Before(p, y))
    requires forall p :: UpTo(p, (i, j)) ==> Before(p, y)
    ensures Tracked(img, cols, NextLabels(lab, count, (i, j), img[i][j], false), y)
  {
    var lab' := NextLabels(lab, count, (i, j), img[i][j], false);
    if ByOrigin(img, cols, lab, (i, j)) {
      StepByOrigin(img, cols, lab, count, i, j);
      if Closes(img, cols, (i, j)) {
        assert Missed(img, cols, lab', y);
      } else {
        assert ByOrigin(img, cols, lab', y);
      }
    } else {
      StillMissed(img, cols, lab, count, i, j, y);
    }
  }

  lemma LabelsWithinCount(img: Gray, cols: nat, i: nat, j: nat, lab: Labels, count: int)
    requires Rectangular(img, cols) && i < |img| && j < cols && (lab, count) == RawUpTo(img, cols, false, i, j)
    ensures forall p :: p in lab ==> lab[p] <= count
  {
    PassInvariant(img, cols, false, i, j);
  }

  lemma {:induction false} PassTracked(img: Gray, cols: nat, i: nat, j: nat)
    requires Rectangular(img, cols) && i <= |img| && j <= cols && (i == |img| ==> j == 0)
    ensures Tracked(img, cols, RawUpTo(img, cols, false, i, j).0, (i, j))
    decreases i, j
  {
    if j > 0 {
      PassTracked(img, cols, i, j - 1);
      var (lab, count) := RawUpTo(img, cols, false, i, j - 1);
      LabelsWithinCount(img, cols, i, j - 1, lab, count);
      Goes(img, cols, lab, count, i, j - 1, (i, j));
    } else if i > 0 && cols > 0 {
      PassTracked(img, cols, i - 1, cols - 1);
      var (lab, count) := RawUpTo(img, cols, false, i - 1, cols - 1);
      LabelsWithinCount(img, cols, i - 1, cols - 1, lab, count);
      Goes(img, cols, lab, count, i - 1, cols - 1, (i, j));
    }
  }

  // ---------- the exact condition, on the image ----------

  lemma OnlyInImage(img: Gray, cols: nat, p: Pixel)
    requires Rectangular(img, cols) && IsForeground(img, cols, p)
    ensures p in Foreground(img, cols) && Before(p, (|img|, 0))
  {
    assert p == (p.0, p.1) && img[p.0][p.1] == FOREGROUND;
  }

  // The first pass of the program as written labels the whole foreground exactly when no pixel of
  // the image closes.
  lemma LabelledIffNoneCloses(img: Gray, cols: nat)
    requires Rectangular(img, cols)
    ensures Raw(img, cols, false).Keys == Foreground(img, cols) <==> forall p :: !Closes(img, cols, p)
  {
    var lab, fg, end := Raw(img, cols, false), Foreground(img, cols), (|img|, 0);
    PassTracked(img, cols, |img|, 0);
    if ByOrigin(img, cols, lab, end) {
      forall p ensures p in lab <==> p in fg {
        if IsForeground(img, cols, p) {
          OnlyInImage(img, cols, p);
        }
      }
      assert lab.Keys == fg;
      forall p ensures !Closes(img, cols, p) {
        if Closes(img, cols, p) {
          OnlyInImage(img, cols, p);
        }
      }
    } else {
      var p :| Closes(img, cols, p) && Before(p, end) && p !in lab;
      OnlyInImage(img, cols, p);
    }
  }

  // The guard of the missing case is met somewhere exactly when some pixel of the image closes.
  lemma GapIffCloses(img: Gray, cols: nat)
    requires Rectangular(img, cols)
    ensures (forall p :: p in Foreground(img, cols) ==> !Gap(Raw(img, cols, false), p)) <==>
            (forall p :: !Closes(img, cols, p))
  {
    FirstPassDomain(img, cols, false);
    LabelledIffNoneCloses(img, cols);
    var lab, fg := Raw(img, cols, false), Foreground(img, cols);
    assert lab.Keys == fg <==> forall p :: p in fg ==> !Gap(lab, p);
  }

  // The two passes number the foreground by its components exactly when no pixel of the image closes,
  // or the missing case is supplied.
  lemma ExactlyWithoutClosing(img: Gray, cols: nat, repaired: bool, final: map<Pixel, int>, k: nat)
    requires Rectangular(img, cols) && Outcome(img, cols, repaired, final, k)
    requires Foreground(img, cols) <= final.Keys
    ensures LabelsComponents(img, cols, final) <==> repaired || forall p :: !Closes(img, cols, p)
    ensures LabelsComponents(img, cols, final) ==> k == |Components(Foreground(img, cols))|
  {
    ExactlyTheLabelled(img, cols, repaired, final, k);
    ObjectCount(img, cols, repaired, final, k);
    if repaired {
      FirstPassDomain(img, cols, repaired);
      assert Raw(img, cols, repaired).Keys == Foreground(img, cols);
    } else {
      LabelledIffNoneCloses(img, cols);
    }
  }
}
