/// A clamped, half-open square window of points around a centre.
module Grids {
  import opened Numeric
  import opened Pixels

  const MinWidth: int := 0
  const MinHeight: int := 0

  /** `num::clamp`: v pulled into [lo, hi]. */
  function Clamp(v: int, lo: int, hi: int): (c: int)
    requires lo <= hi
    ensures lo <= c <= hi
    ensures lo <= v <= hi ==> c == v
    ensures v < lo ==> c == lo
    ensures hi < v ==> c == hi
  {
    if v < lo then lo else if hi < v then hi else v
  }

  /** The stored point list (`Grid { points }`). */
  datatype Grid = Grid(points: seq<Point>)
  {
    /** `Grid::points`. */
    function Points(): seq<Point> { points }
  }

  /** The half-open bounds [minX, maxX) x [minY, maxY) of the window. */
  datatype Window = Window(minX: nat, maxX: nat, minY: nat, maxY: nat)

  /** The arguments for which the `i16` casts in `Grid::new` do not wrap, the `u16` sums do
      not overflow, and the bounds handed to `clamp` are ordered. */
  predicate GridArgsInRange(center: Point, ringCount: nat, maxWidth: nat, maxHeight: nat)
  {
    center.x < 0x8000 && center.y < 0x8000 && ringCount < 0x100
    && maxWidth < 0x8000 && maxHeight < 0x8000
  }

  /** The bounds `Grid::new` computes: the centre plus and minus the ring count, clamped. */
  function WindowOf(center: Point, ringCount: nat, maxWidth: nat, maxHeight: nat): (w: Window)
    ensures w.minX == (if center.x < ringCount then 0 else if center.x - ringCount > maxWidth then maxWidth else center.x - ringCount)
    ensures w.maxX == (if center.x + ringCount > maxWidth then maxWidth else center.x + ringCount)
    ensures w.minY == (if center.y < ringCount then 0 else if center.y - ringCount > maxHeight then maxHeight else center.y - ringCount)
    ensures w.maxY == (if center.y + ringCount > maxHeight then maxHeight else center.y + ringCount)
    ensures w.minX <= w.maxX <= maxWidth && w.minY <= w.maxY <= maxHeight
  {
    Window(
      Clamp(center.x - ringCount, MinWidth, maxWidth),
      Clamp(center.x + ringCount, MinWidth, maxWidth),
      Clamp(center.y - ringCount, MinHeight, maxHeight),
      Clamp(center.y + ringCount, MinHeight, maxHeight))
  }

  /** The points (x, y) for y in [minY, maxY). */
  function Row(x: nat, minY: nat, maxY: nat): seq<Point>
    requires minY <= maxY
  {
    seq(maxY - minY, j requires 0 <= j < maxY - minY => Point(x, minY + j))
  }

  /** The points of the columns minX .. x - 1, x-major with y inner. */
  function WindowPoints(minX: nat, x: nat, minY: nat, maxY: nat): seq<Point>
    requires minY <= maxY
    decreases x
  {
    if x <= minX then [] else WindowPoints(minX, x - 1, minY, maxY) + Row(x - 1, minY, maxY)
  }

  /** What `Grid::new` stores. */
  function GridPoints(center: Point, ringCount: nat, maxWidth: nat, maxHeight: nat): seq<Point>
  {
    var w := WindowOf(center, ringCount, maxWidth, maxHeight);
    WindowPoints(w.minX, w.maxX, w.minY, w.maxY)
  }

  /** `Grid::new`. */
  method NewGrid(center: Point, ringCount: nat, maxWidth: nat, maxHeight: nat) returns (g: Grid)
    requires GridArgsInRange(center, ringCount, maxWidth, maxHeight)
    ensures g.Points() == GridPoints(center, ringCount, maxWidth, maxHeight)
  {
    var minX: nat := Clamp(center.x - ringCount, MinWidth, maxWidth);
    var minY: nat := Clamp(center.y - ringCount, MinHeight, maxHeight);
    var maxX: nat := Clamp(center.x + ringCount, MinWidth, maxWidth);
    var maxY: nat := Clamp(center.y + ringCount, MinHeight, maxHeight);

    var points: seq<Point> := [];
    for x := minX to maxX
      invariant points == WindowPoints(minX, x, minY, maxY)
    {
      for y := minY to maxY
        invariant points == WindowPoints(minX, x, minY, maxY) + Row(x, minY, y)
      {
        points := points + [Point(x, y)];
      }
    }
    g := Grid(points);
  }

  lemma {:induction false} WindowPointsLength(minX: nat, x: nat, minY: nat, maxY: nat)
    requires minY <= maxY && minX <= x
    ensures |WindowPoints(minX, x, minY, maxY)| == (x - minX) * (maxY - minY)
    decreases x
  {
    if x > minX {
      WindowPointsLength(minX, x - 1, minY, maxY);
      assert (x - minX) * (maxY - minY) == (x - 1 - minX) * (maxY - minY) + (maxY - minY);
    }
  }

  /** A point is in the window list exactly when it lies in [minX, x) x [minY, maxY). */
  lemma {:induction false} WindowPointsMembership(minX: nat, x: nat, minY: nat, maxY: nat, p: Point)
    requires minY <= maxY
    ensures p in WindowPoints(minX, x, minY, maxY) <==> minX <= p.x < x && minY <= p.y < maxY
    decreases x
  {
    if x > minX {
      WindowPointsMembership(minX, x - 1, minY, maxY, p);
      if p.x == x - 1 && minY <= p.y < maxY {
        assert Row(x - 1, minY, maxY)[p.y - minY] == p;
      }
    }
  }

  /** x-major order with y inner. */
  predicate Before(p: Point, q: Point)
  {
    p.x < q.x || (p.x == q.x && p.y < q.y)
  }

  /** The window list is strictly increasing in (x, y) order, so it has no duplicates. */
  lemma {:induction false} WindowPointsOrdered(minX: nat, x: nat, minY: nat, maxY: nat)
    requires minY <= maxY
    ensures forall i, j :: 0 <= i < j < |WindowPoints(minX, x, minY, maxY)| ==>
              Before(WindowPoints(minX, x, minY, maxY)[i], WindowPoints(minX, x, minY, maxY)[j])
    decreases x
  {
    if x > minX {
      var prefix := WindowPoints(minX, x - 1, minY, maxY);
      var row := Row(x - 1, minY, maxY);
      WindowPointsOrdered(minX, x - 1, minY, maxY);
      forall i | 0 <= i < |prefix|
        ensures prefix[i].x < x - 1
      {
        WindowPointsMembership(minX, x - 1, minY, maxY, prefix[i]);
      }
      assert WindowPoints(minX, x, minY, maxY) == prefix + row;
    }
  }

  /** Every grid point lies in [max(cx - r, 0), min(cx + r, maxWidth)) horizontally and
      likewise vertically; in particular below maxWidth and maxHeight. */
  lemma GridPointsInWindow(center: Point, ringCount: nat, maxWidth: nat, maxHeight: nat, p: Point)
    requires p in GridPoints(center, ringCount, maxWidth, maxHeight)
    ensures center.x - ringCount <= p.x < center.x + ringCount && p.x < maxWidth
    ensures center.y - ringCount <= p.y < center.y + ringCount && p.y < maxHeight
  {
    var w := WindowOf(center, ringCount, maxWidth, maxHeight);
    WindowPointsMembership(w.minX, w.maxX, w.minY, w.maxY, p);
  }

  /** The grid holds (maxX - minX) * (maxY - minY) points, at most (2r)^2. */
  lemma GridPointsCount(center: Point, ringCount: nat, maxWidth: nat, maxHeight: nat)
    ensures var w := WindowOf(center, ringCount, maxWidth, maxHeight);
            |GridPoints(center, ringCount, maxWidth, maxHeight)| == (w.maxX - w.minX) * (w.maxY - w.minY)
    ensures |GridPoints(center, ringCount, maxWidth, maxHeight)| <= (2 * ringCount) * (2 * ringCount)
  {
    var w := WindowOf(center, ringCount, maxWidth, maxHeight);
    WindowPointsLength(w.minX, w.maxX, w.minY, w.maxY);
    ProductBound(w.maxX - w.minX, w.maxY - w.minY, 2 * ringCount);
  }

  /** The window is half-open: column cx + r never appears, column cx - r does when it is
      on the image and the window is not empty. */
  lemma GridHalfOpen(center: Point, ringCount: nat, maxWidth: nat, maxHeight: nat, y: nat)
    ensures forall p :: p in GridPoints(center, ringCount, maxWidth, maxHeight) ==> p.x != center.x + ringCount
    ensures var w := WindowOf(center, ringCount, maxWidth, maxHeight);
            ringCount > 0 && ringCount <= center.x < maxWidth + ringCount && w.minY <= y < w.maxY ==>
              Point(center.x - ringCount, y) in GridPoints(center, ringCount, maxWidth, maxHeight)
  {
    var w := WindowOf(center, ringCount, maxWidth, maxHeight);
    forall p | p in GridPoints(center, ringCount, maxWidth, maxHeight)
      ensures p.x != center.x + ringCount
    {
      GridPointsInWindow(center, ringCount, maxWidth, maxHeight, p);
    }
    if ringCount <= center.x {
      WindowPointsMembership(w.minX, w.maxX, w.minY, w.maxY, Point(center.x - ringCount, y));
    }
  }

  /** The grid around (0, 0) with ring 2 in a 4 x 4 image has four points. */
  lemma SimpleGridHasFourPoints()
    ensures |GridPoints(Point(0, 0), 2, 4, 4)| == 4
  {
    GridPointsCount(Point(0, 0), 2, 4, 4);
  }
}
