// The incremental midpoint line: the pixels it sets are those nearest to the ideal line.
module MidpointLine {

  type Point = (int, int)

  // A line from its lower end: D steps along the axis it covers most, s along the other in all.
  datatype Span = Span(steep: bool, xs: int, ys: int, D: int, s: int)

  function Normal(x0: int, y0: int, x1: int, y1: int): (f: Span)
    ensures 0 <= f.D && -f.D <= f.s <= f.D
  {
    var dx, dy := x1 - x0, y1 - y0;
    SquaresCompare(dx, dy);
    if dx * dx > dy * dy then
      if x1 < x0 then Span(false, x1, y1, x0 - x1, y0 - y1) else Span(false, x0, y0, dx, dy)
    else
      if y1 < y0 then Span(true, x1, y1, y0 - y1, x0 - x1) else Span(true, x0, y0, dy, dx)
  }

  function Abs(a: int): nat { if a < 0 then -a else a }

  lemma MulGrows(a: nat, b: nat, c: nat)
    requires b <= c
    ensures a * b <= a * c && b * a <= c * a && a * b == b * a
  {
    assert a * c == a * b + a * (c - b);
  }

  lemma SquaresCompare(a: int, b: int)
    ensures a * a > b * b <==> Abs(a) > Abs(b)
  {
    var u, v := Abs(a), Abs(b);
    assert a * a == u * u && b * b == v * v;
    if u > v {
      MulGrows(u, v, u);
      MulGrows(v, v, u);
      assert u * u == u * (u - 1) + u;
      MulGrows(u, v, u - 1);
    } else {
      MulGrows(v, u, v);
      MulGrows(u, u, v);
    }
  }

  function Along(f: Span, p: Point): int { if f.steep then p.1 - f.ys else p.0 - f.xs }

  function Across(f: Span, p: Point): int { if f.steep then p.0 - f.xs else p.1 - f.ys }

  // How far the ideal line runs above the point at k along and j across, in units of 1 / (2 * D).
  ghost function Offset(D: int, s: int, k: int, j: int): int {
    2 * (s * k - D * j)
  }

  // j is s * k / D to the nearest integer, halves rounded down: the point is at most half a pixel
  // from the ideal line.
  ghost predicate Nearest(D: int, s: int, k: int, j: int) {
    if D == 0 then j == 0 else -D < Offset(D, s, k, j) <= D
  }

  ghost predicate OnLine(f: Span, p: Point) {
    0 <= Along(f, p) <= f.D && Nearest(f.D, f.s, Along(f, p), Across(f, p))
  }

  // ---------- what the nearest points are like ----------

  // With D > 0, going n or more across changes D * j by D * n or more.
  lemma Apart(D: int, j: int, j': int, n: int)
    requires D >= 0 && j' - j >= n
    ensures D * j' >= D * j + D * n
  {
    assert D * j' == D * j + D * n + D * (j' - j - n);
    assert D * (j' - j - n) >= 0;
  }

  lemma NearestUnique(D: int, s: int, k: int, j: int, j': int)
    requires D >= 0 && Nearest(D, s, k, j) && Nearest(D, s, k, j')
    ensures j == j'
  {
    if j < j' {
      Apart(D, j, j', 1);
    } else if j' < j {
      Apart(D, j', j, 1);
    }
  }

  // Both ends are on the line.
  lemma EndsNearest(D: int, s: int)
    requires 0 <= D && -D <= s <= D
    ensures Nearest(D, s, 0, 0) && Nearest(D, s, D, s)
  {
  }

  lemma NearestBetween(D: int, s: int, k: nat, j: int)
    requires 0 <= D && -D <= s <= D && k <= D && Nearest(D, s, k, j)
    ensures if s >= 0 then 0 <= j <= s else s <= j <= 0
  {
    if s >= 0 {
      MulGrows(s, k, D);
      MulGrows(s, 0, k);
    } else {
      MulGrows(-s, k, D);
      MulGrows(-s, 0, k);
      assert (-s) * k == -(s * k) && (-s) * D == -(s * D);
    }
    assert D * s == s * D && D * 0 == 0;
    if D > 0 {
      if j <= -1 {
        Apart(D, j, 0, 1);
      }
      if j >= 1 {
        Apart(D, 0, j, 1);
      }
      if j >= s + 1 {
        Apart(D, s, j, 1);
      }
      if j <= s - 1 {
        Apart(D, j, s, 1);
      }
    }
  }

  // ---------- the line as a set of pixels ----------

  // Swapping the ends draws the same pixels.
  lemma SwapSame(x0: int, y0: int, x1: int, y1: int, p: Point)
    ensures OnLine(Normal(x0, y0, x1, y1), p) <==> OnLine(Normal(x1, y1, x0, y0), p)
  {
    SquaresCompare(x1 - x0, y1 - y0);
    SquaresCompare(x0 - x1, y0 - y1);
  }

  lemma EndsOnLine(x0: int, y0: int, x1: int, y1: int)
    ensures OnLine(Normal(x0, y0, x1, y1), (x0, y0)) && OnLine(Normal(x0, y0, x1, y1), (x1, y1))
  {
    var f := Normal(x0, y0, x1, y1);
    SquaresCompare(x1 - x0, y1 - y0);
    EndsNearest(f.D, f.s);
  }

  // As many steps as the longer side of the rectangle of the two ends.
  lemma SpanLength(x0: int, y0: int, x1: int, y1: int)
    ensures Normal(x0, y0, x1, y1).D == if Abs(x1 - x0) > Abs(y1 - y0) then Abs(x1 - x0) else Abs(y1 - y0)
  {
    SquaresCompare(x1 - x0, y1 - y0);
  }

  lemma Shift(a: int, b: int, u: int, v: int)
    ensures a * (v + b) - b * (u + a) == a * v - b * u
  {
    assert a * (v + b) == a * v + a * b && b * (u + a) == b * u + b * a && a * b == b * a;
  }

  // Every pixel of the line is within half a pixel of the ideal line through the two ends, measured
  // along the axis the line covers least.
  lemma HalfPixel(x0: int, y0: int, x1: int, y1: int, p: Point)
    requires OnLine(Normal(x0, y0, x1, y1), p)
    ensures 2 * Abs((x1 - x0) * (p.1 - y0) - (y1 - y0) * (p.0 - x0)) <= Normal(x0, y0, x1, y1).D
  {
    var f, dx, dy := Normal(x0, y0, x1, y1), x1 - x0, y1 - y0;
    var u, v := p.0 - f.xs, p.1 - f.ys;
    OffsetSmall(f.D, f.s, Along(f, p), Across(f, p));
    Signs(f.s, f.D, u, v);
    Signs(f.D, f.s, u, v);
    if (f.xs, f.ys) == (x1, y1) {
      Shift(dx, dy, u, v);
    }
  }

  lemma Signs(a: int, b: int, u: int, v: int)
    ensures (-a) * v - (-b) * u == -(a * v - b * u)
    ensures a * v - b * u == -(b * u - a * v)
  {
  }

  lemma OffsetSmall(D: int, s: int, k: int, j: int)
    requires 0 <= D && -D <= s <= D && Nearest(D, s, k, j)
    ensures -D <= 2 * (s * k - D * j) <= D
  {
  }

  predicate Between(a: int, c: int, b: int) { a <= c <= b || b <= c <= a }

  // The line in the coordinates of the two ends as given: a pixel in every column (in every row if
  // the line is steep), at most half a pixel off, and of two that are half a pixel off the one with
  // the smaller other coordinate.
  ghost predicate InCoordinates(dx: int, dy: int, u: int, v: int) {
    var above := 2 * (dy * u - dx * v);
    if Abs(dx) > Abs(dy) then
      Between(0, u, dx) && if dx > 0 then -dx < above <= dx else dx < -above <= -dx
    else if dy == 0 then u == 0 && v == 0
    else Between(0, v, dy) && if dy > 0 then -dy < -above <= dy else dy < above <= -dy
  }

  lemma LineInCoordinates(x0: int, y0: int, x1: int, y1: int, p: Point)
    ensures OnLine(Normal(x0, y0, x1, y1), p) <==> InCoordinates(x1 - x0, y1 - y0, p.0 - x0, p.1 - y0)
  {
    var f, dx, dy := Normal(x0, y0, x1, y1), x1 - x0, y1 - y0;
    SquaresCompare(dx, dy);
    var u, v := p.0 - f.xs, p.1 - f.ys;
    Signs(f.s, f.D, u, v);
    Signs(f.D, f.s, u, v);
    if (f.xs, f.ys) == (x1, y1) {
      Shift(dx, dy, u, v);
    }
  }

  predicate InBox(x0: int, y0: int, x1: int, y1: int, p: Point) {
    && (x0 <= p.0 <= x1 || x1 <= p.0 <= x0) && (y0 <= p.1 <= y1 || y1 <= p.1 <= y0)
  }

  // No pixel lies outside the rectangle of the two ends.
  lemma InsideBox(x0: int, y0: int, x1: int, y1: int, p: Point)
    requires OnLine(Normal(x0, y0, x1, y1), p)
    ensures InBox(x0, y0, x1, y1, p)
  {
    var f := Normal(x0, y0, x1, y1);
    NearestBetween(f.D, f.s, Along(f, p), Across(f, p));
  }

  // ---------- drawing ----------

  predicate Touch(p: Point, q: Point) {
    p != q && Abs(p.0 - q.0) <= 1 && Abs(p.1 - q.1) <= 1
  }

  // e is how far the ideal line runs above the point.
  ghost predicate Within(D: int, e: int) {
    if D == 0 then e == 0 else -D < e <= D
  }

  // From p to the next point q, one step along, and what becomes of e.
  ghost predicate Follows(f: Span, p: Point, e: int, q: Point, e': int) {
    var c := Across(f, q) - Across(f, p);
    && Along(f, q) == Along(f, p) + 1 && -1 <= c <= 1
    && e' == e + 2 * f.s - (if c == 1 then 2 * f.D else if c == -1 then -2 * f.D else 0)
  }

  // The points so far, with their distances.
  ghost predicate Trail(f: Span, points: seq<Point>, es: seq<int>) {
    && |es| == |points| && (points != [] ==> points[0] == (f.xs, f.ys) && es[0] == 0)
    && (forall i :: 0 <= i < |es| ==> Within(f.D, es[i]))
    && forall i :: 0 <= i < |points| - 1 ==> Follows(f, points[i], es[i], points[i + 1], es[i + 1])
  }

  // The point p comes next.
  ghost predicate Next(f: Span, points: seq<Point>, es: seq<int>, p: Point, e: int) {
    && |es| == |points| && Within(f.D, e) && Along(f, p) == |points|
    && if points == [] then p == (f.xs, f.ys) && e == 0 else Follows(f, points[|points| - 1], es[|es| - 1], p, e)
  }

  // The decision variable at a point.
  ghost predicate Decides(f: Span, mpCase: int, e: int, d: int) {
    d == e + 2 * f.s + if mpCase == 1 then -f.D else f.D
  }

  // One step along, c across.
  lemma OffsetStep(D: int, s: int, i: int, j: int, c: int)
    requires -1 <= c <= 1
    ensures Offset(D, s, i + 1, j + c) ==
            Offset(D, s, i, j) + 2 * s - (if c == 1 then 2 * D else if c == -1 then -2 * D else 0)
  {
    assert s * (i + 1) == s * i + s;
    assert D * (j + 1) == D * j + D && D * (j - 1) == D * j - D;
  }

  lemma {:induction false} TrailOffset(f: Span, points: seq<Point>, es: seq<int>, i: nat)
    requires Trail(f, points, es) && i < |points|
    ensures Along(f, points[i]) == i && es[i] == Offset(f.D, f.s, i, Across(f, points[i]))
  {
    if i > 0 {
      TrailOffset(f, points, es, i - 1);
      var j, c := Across(f, points[i - 1]), Across(f, points[i]) - Across(f, points[i - 1]);
      assert Follows(f, points[i - 1], es[i - 1], points[i], es[i]);
      OffsetStep(f.D, f.s, i - 1, j, c);
    }
  }

  lemma TrailOnLine(f: Span, points: seq<Point>, es: seq<int>)
    requires 0 <= f.D && -f.D <= f.s <= f.D && Trail(f, points, es) && |points| <= f.D + 1
    ensures forall i :: 0 <= i < |points| ==> Along(f, points[i]) == i && OnLine(f, points[i])
  {
    forall i | 0 <= i < |points| ensures Along(f, points[i]) == i && OnLine(f, points[i]) {
      TrailOffset(f, points, es, i);
      if f.D == 0 {
        assert points[i] == (f.xs, f.ys);
      }
    }
  }

  // The next point of the trail is on the line.
  lemma NextOnLine(f: Span, points: seq<Point>, es: seq<int>, p: Point, e: int)
    requires 0 <= f.D && -f.D <= f.s <= f.D && Trail(f, points, es) && Next(f, points, es, p, e) && |points| <= f.D
    ensures Trail(f, points + [p], es + [e]) && OnLine(f, p)
  {
    assert Trail(f, points + [p], es + [e]);
    TrailOnLine(f, points + [p], es + [e]);
    assert (points + [p])[|points|] == p;
  }

  // A trail to the upper end is every pixel of the line, each touching the next.
  lemma AllDrawn(f: Span, points: seq<Point>, es: seq<int>)
    requires 0 <= f.D && -f.D <= f.s <= f.D && Trail(f, points, es) && |points| == f.D + 1
    ensures forall p :: p in points <==> OnLine(f, p)
    ensures forall i :: 0 <= i < |points| - 1 ==> Touch(points[i], points[i + 1])
    ensures forall i, j :: 0 <= i < j < |points| ==> points[i] != points[j]
  {
    TrailOnLine(f, points, es);
    forall p ensures p in points <==> OnLine(f, p) {
      if OnLine(f, p) {
        var k := Along(f, p);
        NearestUnique(f.D, f.s, k, Across(f, p), Across(f, points[k]));
        assert p == points[k];
      }
    }
    forall i | 0 <= i < |points| - 1 ensures Touch(points[i], points[i + 1]) {
      assert Follows(f, points[i], es[i], points[i + 1], es[i + 1]);
    }
  }

  // Moves to the next point; at the upper end the scan is done.
  method Advance(x0: int, y0: int, d0: int, xmax: int, ymax: int, dir: int, mpCase: int, incrE: int, incrNE: int, incrSE: int,
                 ghost f: Span, ghost e0: int)
    returns (x: int, y: int, d: int, done: bool, ghost e: int)
    requires 0 <= f.D && -f.D <= f.s <= f.D && f.steep == (dir == 1) && 0 <= dir <= 1
    requires if dir == 0 then xmax == f.xs + f.D else ymax == f.ys + f.D
    requires mpCase == (if f.s >= 0 then 1 else 2) && incrE == 2 * f.s && incrNE == 2 * (f.s - f.D) && incrSE == 2 * (f.s + f.D)
    requires 0 <= Along(f, (x0, y0)) <= f.D && Within(f.D, e0) && Decides(f, mpCase, e0, d0)
    ensures done <==> Along(f, (x0, y0)) == f.D
    ensures !done ==> Follows(f, (x0, y0), e0, (x, y), e) && Within(f.D, e) && Decides(f, mpCase, e, d)
  {
    x, y, d, done, e := x0, y0, d0, false, e0 + 2 * f.s;
    if dir == 0 {
      if x < xmax {
        if mpCase == 1 {
          if d <= 0 {
            d := d + incrE;
            x := x + 1;
          } else {
            d := d + incrNE;
            x := x + 1;
            y := y + 1;
            e := e - 2 * f.D;
          }
        } else {
          if d <= 0 {
            d := d + incrSE;
            x := x + 1;
            y := y - 1;
            e := e + 2 * f.D;
          } else {
            d := d + incrE;
            x := x + 1;
          }
        }
      } else {
        done := true;
      }
    } else {
      if y < ymax {
        if mpCase == 1 {
          if d <= 0 {
            d := d + incrE;
            y := y + 1;
          } else {
            d := d + incrNE;
            y := y + 1;
            x := x + 1;
            e := e - 2 * f.D;
          }
        } else {
          if d <= 0 {
            d := d + incrSE;
            y := y + 1;
            x := x - 1;
            e := e + 2 * f.D;
          } else {
            d := d + incrE;
            y := y + 1;
          }
        }
      } else {
        done := true;
      }
    }
  }

  // An image of pixels; setting one outside it ends the program.
  class Image {
    const pixels: array2<int>

    constructor (rows: nat, cols: nat)
      ensures pixels.Length0 == rows && pixels.Length1 == cols && fresh(pixels)
    {
      pixels := new int[rows, cols];
    }

    predicate Inside(p: Point) {
      0 <= p.0 < pixels.Length0 && 0 <= p.1 < pixels.Length1
    }

    // Sets the pixel, which comes last of the points so far.
    method Plot(x: int, y: int, color: int, ghost points: seq<Point>, ghost before: map<Point, int>)
      requires Inside((x, y))
      requires forall p: Point :: Inside(p) ==> p in before && pixels[p.0, p.1] == if p in points then color else before[p]
      modifies pixels
      ensures forall p: Point :: Inside(p) ==> pixels[p.0, p.1] == if p in points + [(x, y)] then color else before[p]
    {
      pixels[x, y] := color;
    }

    // The points of a line whose ends are inside are inside.
    lemma LineInside(x0: int, y0: int, x1: int, y1: int, p: Point)
      requires Inside((x0, y0)) && Inside((x1, y1)) && OnLine(Normal(x0, y0, x1, y1), p)
      ensures Inside(p)
    {
      InsideBox(x0, y0, x1, y1, p);
    }

    // The scan from the lower end.
    method Scan(xmin: int, ymin: int, xmax: int, ymax: int, dir: int, mpCase: int, d0: int, incrE: int, incrNE: int, incrSE: int,
                color: int, ghost f: Span) returns (ghost points: seq<Point>, ghost es: seq<int>)
      requires 0 <= f.D && -f.D <= f.s <= f.D && f.steep == (dir == 1) && 0 <= dir <= 1 && (xmin, ymin) == (f.xs, f.ys)
      requires if dir == 0 then xmax == f.xs + f.D else ymax == f.ys + f.D
      requires mpCase == (if f.s >= 0 then 1 else 2) && incrE == 2 * f.s && incrNE == 2 * (f.s - f.D) && incrSE == 2 * (f.s + f.D)
      requires Decides(f, mpCase, 0, d0) && forall p :: OnLine(f, p) ==> Inside(p)
      modifies pixels
      ensures |points| == f.D + 1 && Trail(f, points, es)
      ensures forall p: Point :: Inside(p) ==> pixels[p.0, p.1] == if p in points then color else old(pixels[p.0, p.1])
    {
      var x, y, d, done := xmin, ymin, d0, false;
      ghost var e := 0;
      ghost var before: map<Point, int> := map a, b | 0 <= a < pixels.Length0 && 0 <= b < pixels.Length1 :: (a, b) := pixels[a, b];
      points, es := [], [];
      while !done
        invariant Trail(f, points, es) && |points| <= f.D + 1
        invariant if done then |points| == f.D + 1 else |points| <= f.D && Next(f, points, es, (x, y), e) && Decides(f, mpCase, e, d)
        invariant forall p: Point :: Inside(p) ==> p in before && pixels[p.0, p.1] == if p in points then color else before[p]
        decreases f.D + 1 - |points|
      {
        NextOnLine(f, points, es, (x, y), e);
        Plot(x, y, color, points, before);
        points, es := points + [(x, y)], es + [e];
        x, y, d, done, e := Advance(x, y, d, xmax, ymax, dir, mpCase, incrE, incrNE, incrSE, f, e);
      }
    }

    // A line with both ends inside the image.
    method DrawLine(x0: int, y0: int, x1: int, y1: int, color: int) returns (ghost points: seq<Point>)
      requires Inside((x0, y0)) && Inside((x1, y1))
      modifies pixels
      ensures var f := Normal(x0, y0, x1, y1); |points| == f.D + 1 && forall p :: p in points <==> OnLine(f, p)
      ensures forall i, j :: 0 <= i < j < |points| ==> points[i] != points[j]
      ensures forall k :: 0 <= k < |points| - 1 ==> Touch(points[k], points[k + 1])
      ensures forall p: Point :: Inside(p) ==>
                pixels[p.0, p.1] == if OnLine(Normal(x0, y0, x1, y1), p) then color else old(pixels[p.0, p.1])
    {
      var DIR_X, DIR_Y := 0, 1;
      var xmin, xmax, ymin, ymax := x0, x1, y0, y1;
      var dx, dy := xmax - xmin, ymax - ymin;
      var dir, mpCase, d, incrE, incrNE, incrSE;
      ghost var f := Normal(x0, y0, x1, y1);
      if dx * dx > dy * dy {
        dir := DIR_X;
        if xmax < xmin {
          xmin, xmax := xmax, xmin;
          ymin, ymax := ymax, ymin;
        }
        dx := xmax - xmin;
        dy := ymax - ymin;
        if dy >= 0 {
          mpCase := 1;
          d := 2 * dy - dx;
        } else {
          mpCase := 2;
          d := 2 * dy + dx;
        }
        incrNE := 2 * (dy - dx);
        incrE := 2 * dy;
        incrSE := 2 * (dy + dx);
      } else {
        dir := DIR_Y;
        if ymax < ymin {
          xmin, xmax := xmax, xmin;
          ymin, ymax := ymax, ymin;
        }
        dx := xmax - xmin;
        dy := ymax - ymin;
        if dx >= 0 {
          mpCase := 1;
          d := 2 * dx - dy;
        } else {
          mpCase := 2;
          d := 2 * dx + dy;
        }
        incrNE := 2 * (dx - dy);
        incrE := 2 * dx;
        incrSE := 2 * (dx + dy);
      }
      forall p | OnLine(f, p) ensures Inside(p) {
        LineInside(x0, y0, x1, y1, p);
      }
      ghost var es;
      points, es := Scan(xmin, ymin, xmax, ymax, dir, mpCase, d, incrE, incrNE, incrSE, color, f);
      AllDrawn(f, points, es);
    }
  }
}
