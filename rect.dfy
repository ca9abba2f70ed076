/// The deterministic seed sampler: a near-regular grid of `n` cell centres
/// laid over a `width x height` rectangle.
module Rectangles {
  import opened Numeric
  import opened Pixels

  const U32Max: nat := 0xFFFF_FFFF

  datatype Rectangle = Rectangle(width: nat, height: nat)

  /** `Rectangle::new`. */
  function NewRectangle(width: nat, height: nat): (r: Rectangle)
    ensures r.width == width && r.height == height
  {
    Rectangle(width, height)
  }

  /** `(cell as f32 * (i as f32 + 0.5)) as u32`, i.e. floor(cell * (i + 1/2)), written exactly. */
  function CellCentre(cell: nat, i: nat): nat
  {
    cell * (2 * i + 1) / 2
  }

  /** The column count before the "nice" test: width * floor(sqrt n) / height. */
  function XCountInitial(r: Rectangle, n: nat): nat
    requires r.height > 0
  {
    DivFacts(r.width * IntSqrt(n), r.height);
    r.width * IntSqrt(n) / r.height
  }

  /** Inputs for which `sample_positions` neither divides by zero nor overflows `u32`. */
  predicate SampleDefined(r: Rectangle, n: nat)
  {
    && r.width <= U32Max && r.height <= U32Max && n <= U32Max
    && r.height > 0
    && r.width * IntSqrt(n) <= U32Max
    && XCountInitial(r, n) > 0
    && n / XCountInitial(r, n) > 0
  }

  /** The quantities `sample_positions` derives from the rectangle and n before it lays out seeds. */
  datatype Plan = Plan(
    xCountInitial: nat,   // width * floor(sqrt n) / height
    yCount: nat,          // n / xCountInitial
    cellWidth: nat,       // width / xCountInitial
    cellHeight: nat,      // height / yCount
    nice: bool,           // xCountInitial * yCount == n
    xCount: nat,          // full columns laid out: one fewer when not nice
    remainder: nat,       // seeds left for the extra column
    remainderHeight: nat) // row height of the extra column

  /** The facts that make a plan fit n seeds into a width x height rectangle: the
      derived quantities are the integer quotients `sample_positions` computes, the full
      columns and the extra column together hold n seeds, and no cell sticks out. */
  ghost predicate Fits(p: Plan, n: nat, width: nat, height: nat)
  {
    && p.xCountInitial > 0 && p.yCount > 0
    && p.yCount == n / p.xCountInitial
    && p.cellWidth == width / p.xCountInitial && p.cellHeight == height / p.yCount
    && (p.nice <==> p.xCountInitial * p.yCount == n)
    && p.xCount == (if p.nice then p.xCountInitial else p.xCountInitial - 1)
    && p.xCount * p.yCount + p.remainder == n
    && (!p.nice ==> p.remainder >= p.yCount && p.remainderHeight == height / p.remainder)
    && p.cellWidth * p.xCountInitial <= width
    && p.cellHeight * p.yCount <= height
    && (!p.nice ==> p.remainderHeight * p.remainder <= height)
  }

  /** The plan for n seeds in a width x height rectangle, starting from x0 columns. */
  function PlanFor(n: nat, width: nat, height: nat, x0: nat): Plan
    requires x0 > 0 && n / x0 > 0
  {
    var y := n / x0;
    DivFacts(n, x0);
    var nice := x0 * y == n;
    var xCount := if nice then x0 else x0 - 1;
    ColumnsBelow(x0, y, n, nice);
    var remainder := n - xCount * y;
    Plan(x0, y, width / x0, height / y, nice, xCount, remainder,
         if nice then 0 else height / remainder)
  }

  /** Dropping one column when x0 * y misses n leaves at least y seeds over. */
  lemma ColumnsBelow(x0: nat, y: nat, n: nat, nice: bool)
    requires x0 > 0 && y > 0 && x0 * y <= n && (nice <==> x0 * y == n)
    ensures var xCount := if nice then x0 else x0 - 1;
            xCount * y <= n && (!nice ==> n - xCount * y >= y)
  {
    if !nice {
      assert (x0 - 1) * y == x0 * y - y;
    }
  }

  /** The quotient bounds that close Fits once the counts are known. */
  lemma FitsFromCounts(p: Plan, n: nat, width: nat, height: nat)
    requires p.xCountInitial > 0 && p.yCount == n / p.xCountInitial && p.yCount > 0
    requires p.cellWidth == width / p.xCountInitial && p.cellHeight == height / p.yCount
    requires p.nice <==> p.xCountInitial * p.yCount == n
    requires p.xCount == (if p.nice then p.xCountInitial else p.xCountInitial - 1)
    requires p.xCount * p.yCount <= n && p.remainder == n - p.xCount * p.yCount
    requires !p.nice ==> p.remainder >= p.yCount && p.remainderHeight == height / p.remainder
    ensures Fits(p, n, width, height)
  {
    DivFacts(width, p.xCountInitial);
    DivFacts(height, p.yCount);
    if !p.nice {
      DivFacts(height, p.remainder);
    }
  }

  /** Every plan PlanFor builds fits. */
  lemma PlanForFits(n: nat, width: nat, height: nat, x0: nat)
    requires x0 > 0 && n / x0 > 0
    ensures PlanFor(n, width, height, x0).xCountInitial == x0
    ensures Fits(PlanFor(n, width, height, x0), n, width, height)
  {
    var y := n / x0;
    DivFacts(n, x0);
    ColumnsBelow(x0, y, n, x0 * y == n);
    FitsFromCounts(PlanFor(n, width, height, x0), n, width, height);
  }

  /** The plan `sample_positions` follows on this rectangle. */
  function PlanOf(r: Rectangle, n: nat): Plan
    requires SampleDefined(r, n)
  {
    PlanFor(n, r.width, r.height, XCountInitial(r, n))
  }

  /** The plan of a defined sampling fits n seeds into the rectangle. */
  lemma PlanOfFits(r: Rectangle, n: nat)
    requires SampleDefined(r, n)
    ensures PlanOf(r, n).xCountInitial == XCountInitial(r, n)
    ensures Fits(PlanOf(r, n), n, r.width, r.height)
  {
    PlanForFits(n, r.width, r.height, XCountInitial(r, n));
  }

  /** `(x + 1) * y - y`, the seeds of the full columns before the last one was dropped. */
  lemma RemoveOneColumn(x: nat, y: nat)
    ensures (x + 1) * y - y == x * y
  {
  }

  /** One column at abscissa x: `count` rows centred in cells of height `cellHeight`. */
  function Column(x: nat, cellHeight: nat, count: nat): seq<Point>
  {
    seq(count, j requires 0 <= j < count => Point(x, CellCentre(cellHeight, j)))
  }

  /** The first `xCount` columns of the grid, column by column. */
  function GridColumns(cellWidth: nat, cellHeight: nat, xCount: nat, yCount: nat): seq<Point>
    decreases xCount
  {
    if xCount == 0 then []
    else GridColumns(cellWidth, cellHeight, xCount - 1, yCount)
         + Column(CellCentre(cellWidth, xCount - 1), cellHeight, yCount)
  }

  /** The positions a plan lays out: the full columns, then the extra column when not nice. */
  function Layout(p: Plan): seq<Point>
  {
    var grid := GridColumns(p.cellWidth, p.cellHeight, p.xCount, p.yCount);
    if p.nice then grid
    else grid + Column(p.cellWidth * p.xCount, p.remainderHeight, p.remainder)
  }

  /** What `sample_positions(n)` returns on this rectangle. */
  function SampledGrid(r: Rectangle, n: nat): seq<Point>
    requires SampleDefined(r, n)
  {
    Layout(PlanOf(r, n))
  }

  /** `Rectangle::sample_positions`. */
  method SamplePositions(r: Rectangle, n: nat) returns (positions: seq<Point>)
    requires SampleDefined(r, n)
    ensures positions == SampledGrid(r, n)
  {
    PlanOfFits(r, n);
    positions := [];
    var nSquared := IntSqrt(n);
    var xCount := r.width * nSquared / r.height;
    var yCount := n / xCount;
    var cellWidth := r.width / xCount;
    var cellHeight := r.height / yCount;
    var xPosition: nat;
    var yPosition: nat;

    var isNice := xCount * yCount == n;
    if !isNice {
      xCount := xCount - 1;
    }

    for i := 0 to xCount
      invariant positions == GridColumns(cellWidth, cellHeight, i, yCount)
    {
      xPosition := CellCentre(cellWidth, i);
      for j := 0 to yCount
        invariant positions == GridColumns(cellWidth, cellHeight, i, yCount) + Column(xPosition, cellHeight, j)
      {
        yPosition := CellCentre(cellHeight, j);
        positions := positions + [Point(xPosition, yPosition)];
      }
    }

    if !isNice {
      ghost var grid := positions;
      xPosition := cellWidth * xCount;
      RemoveOneColumn(xCount, yCount);
      var remainder := n - ((xCount + 1) * yCount - yCount);
      var remainderHeight := r.height / remainder;
      for i := 0 to remainder
        invariant positions == grid + Column(xPosition, remainderHeight, i)
      {
        yPosition := CellCentre(remainderHeight, i);
        positions := positions + [Point(xPosition, yPosition)];
      }
    }
  }

  lemma {:induction false} GridColumnsLength(cellWidth: nat, cellHeight: nat, xCount: nat, yCount: nat)
    ensures |GridColumns(cellWidth, cellHeight, xCount, yCount)| == xCount * yCount
    decreases xCount
  {
    if xCount > 0 {
      GridColumnsLength(cellWidth, cellHeight, xCount - 1, yCount);
      assert xCount * yCount == (xCount - 1) * yCount + yCount;
    }
  }

  /** Column by column: position i * yCount + j is the centre of cell (i, j). */
  lemma {:induction false} GridColumnsAt(cellWidth: nat, cellHeight: nat, xCount: nat, yCount: nat, i: nat, j: nat)
    requires i < xCount && j < yCount
    ensures i * yCount + j < |GridColumns(cellWidth, cellHeight, xCount, yCount)|
    ensures GridColumns(cellWidth, cellHeight, xCount, yCount)[i * yCount + j]
            == Point(CellCentre(cellWidth, i), CellCentre(cellHeight, j))
    decreases xCount
  {
    GridColumnsLength(cellWidth, cellHeight, xCount, yCount);
    GridColumnsLength(cellWidth, cellHeight, xCount - 1, yCount);
    assert xCount * yCount == (xCount - 1) * yCount + yCount;
    if i < xCount - 1 {
      GridColumnsAt(cellWidth, cellHeight, xCount - 1, yCount, i, j);
    } else {
      assert i * yCount == (xCount - 1) * yCount;
    }
  }

  /** A cell centre of one of `count` cells of size `cell` lies before `cell * count`. */
  lemma CellCentreBelow(cell: nat, i: nat, count: nat, limit: nat)
    requires i < count && cell * count <= limit && limit > 0
    ensures CellCentre(cell, i) < limit
  {
    if cell > 0 {
      assert cell * (2 * i + 1) < 2 * (cell * (i + 1));
      assert cell * (i + 1) <= cell * count;
    }
  }

  lemma {:induction false} GridColumnsInBounds(cellWidth: nat, cellHeight: nat, xCount: nat, yCount: nat, width: nat, height: nat)
    requires cellWidth * xCount <= width && cellHeight * yCount <= height
    requires width > 0 && height > 0
    ensures forall p :: p in GridColumns(cellWidth, cellHeight, xCount, yCount) ==> p.x < width && p.y < height
    decreases xCount
  {
    if xCount > 0 {
      assert cellWidth * (xCount - 1) <= cellWidth * xCount;
      GridColumnsInBounds(cellWidth, cellHeight, xCount - 1, yCount, width, height);
      CellCentreBelow(cellWidth, xCount - 1, xCount, width);
      forall j | 0 <= j < yCount
        ensures CellCentre(cellHeight, j) < height
      {
        CellCentreBelow(cellHeight, j, yCount, height);
      }
    }
  }

  /** `sample_positions(n)` yields exactly n positions. */
  lemma SampledGridCount(r: Rectangle, n: nat)
    requires SampleDefined(r, n)
    ensures |SampledGrid(r, n)| == n
  {
    PlanOfFits(r, n);
    LayoutCount(PlanOf(r, n), n, r.width, r.height);
  }

  /** A fitting plan lays out exactly n seeds. */
  lemma LayoutCount(p: Plan, n: nat, width: nat, height: nat)
    requires Fits(p, n, width, height)
    ensures |Layout(p)| == n
  {
    GridColumnsLength(p.cellWidth, p.cellHeight, p.xCount, p.yCount);
  }

  /** The seeds of a plan whose cells fit the rectangle lie inside it. */
  lemma LayoutInBounds(p: Plan, n: nat, width: nat, height: nat)
    requires width > 0 && height > 0
    requires Fits(p, n, width, height)
    ensures forall q :: q in Layout(p) ==> q.x < width && q.y < height
  {
    MulLeftMono(p.xCount, p.xCountInitial, p.cellWidth);
    GridColumnsInBounds(p.cellWidth, p.cellHeight, p.xCount, p.yCount, width, height);
    if !p.nice {
      assert p.cellWidth * p.xCount < width by {
        assert p.cellWidth * p.xCount == p.cellWidth * p.xCountInitial - p.cellWidth;
      }
      forall i | 0 <= i < p.remainder
        ensures CellCentre(p.remainderHeight, i) < height
      {
        CellCentreBelow(p.remainderHeight, i, p.remainder, height);
      }
    }
  }

  /** A defined sampling has a non-empty rectangle. */
  lemma SampleDefinedPositive(r: Rectangle, n: nat)
    requires SampleDefined(r, n)
    ensures r.width > 0 && r.height > 0
  {
    if r.width == 0 {
      assert r.width * IntSqrt(n) == 0;
    }
  }

  /** Every sampled position lies inside the rectangle. */
  lemma SampledGridInBounds(r: Rectangle, n: nat)
    requires SampleDefined(r, n)
    ensures forall q :: q in SampledGrid(r, n) ==> q.x < r.width && q.y < r.height
  {
    SampleDefinedPositive(r, n);
    PlanOfFits(r, n);
    LayoutInBounds(PlanOf(r, n), n, r.width, r.height);
  }

  /** Column by column, position i * yCount + j of a layout is the centre of cell (i, j). */
  lemma LayoutAt(p: Plan, i: nat, j: nat)
    requires i < p.xCount && j < p.yCount
    ensures i * p.yCount + j < |Layout(p)|
    ensures Layout(p)[i * p.yCount + j] == Point(CellCentre(p.cellWidth, i), CellCentre(p.cellHeight, j))
  {
    GridColumnsAt(p.cellWidth, p.cellHeight, p.xCount, p.yCount, i, j);
  }

  /** When not nice, the last `remainder` positions sit at x = cellWidth * xCount,
      centred in rows of height remainderHeight. */
  lemma LayoutExtraAt(p: Plan, i: nat)
    requires !p.nice && i < p.remainder
    ensures p.xCount * p.yCount + i < |Layout(p)|
    ensures Layout(p)[p.xCount * p.yCount + i] == Point(p.cellWidth * p.xCount, CellCentre(p.remainderHeight, i))
  {
    GridColumnsLength(p.cellWidth, p.cellHeight, p.xCount, p.yCount);
  }

  /** The full columns of `sample_positions(n)`: seed (i, j) is the centre of cell (i, j). */
  lemma SampledColumnsLayout(r: Rectangle, n: nat, i: nat, j: nat)
    requires SampleDefined(r, n)
    requires i < PlanOf(r, n).xCount && j < PlanOf(r, n).yCount
    ensures var p := PlanOf(r, n);
            && i * p.yCount + j < |SampledGrid(r, n)|
            && SampledGrid(r, n)[i * p.yCount + j] == Point(CellCentre(p.cellWidth, i), CellCentre(p.cellHeight, j))
  {
    LayoutAt(PlanOf(r, n), i, j);
  }

  /** The extra column of `sample_positions(n)` when x * y misses n. */
  lemma SampledExtraColumn(r: Rectangle, n: nat, i: nat)
    requires SampleDefined(r, n) && !PlanOf(r, n).nice
    requires i < PlanOf(r, n).remainder
    ensures var p := PlanOf(r, n);
            && p.xCount * p.yCount + i < |SampledGrid(r, n)|
            && SampledGrid(r, n)[p.xCount * p.yCount + i] == Point(p.cellWidth * p.xCount, CellCentre(p.remainderHeight, i))
  {
    LayoutExtraAt(PlanOf(r, n), i);
  }

  /** The 20 x 30 rectangle with n = 10 gives ten seeds. */
  lemma SampleTwentyByThirty()
    ensures SampleDefined(Rectangle(20, 30), 10)
    ensures |SampledGrid(Rectangle(20, 30), 10)| == 10
  {
    assert IntSqrt(10) == 3;
    SampledGridCount(Rectangle(20, 30), 10);
  }
}
