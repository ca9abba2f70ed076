/// The clustering engine: labelled pixels, k centroid indices into them, and the
/// assign / update steps of one tick.
module KMeans {
  import opened Numeric
  import opened Pixels
  import opened Rectangles

  /** `std::f32::MAX`, the "no distance yet" sentinel. */
  const F32Max: real := 340282346638528859811704183484516925440.0
  /** `std::usize::MAX` on a 64-bit target, the "unassigned" sentinel. */
  const UsizeMax: nat := 0xFFFF_FFFF_FFFF_FFFF
  /** 2^16: `as u16` keeps the value modulo this. */
  const U16Bound: nat := 0x1_0000

  /** A pixel with its current label: the distance to, and the index of, its centroid. */
  datatype LabelPixel = LabelPixel(pixel: PixelCieLab, centroidDistance: real, centroidIndex: nat)

  /** `LabelPixel::new`: the pixel with both sentinels. */
  function NewLabelPixel(p: PixelCieLab): (l: LabelPixel)
    ensures l.pixel == p && l.centroidDistance == F32Max && l.centroidIndex == UsizeMax
  {
    LabelPixel(p, F32Max, UsizeMax)
  }

  // ---------------------------------------------------------------------------
  // Integer helpers

  /** `get_index`: the flat index of (x, y) in a column-major image of the given height. */
  function GetIndex(x: nat, y: nat, height: nat): nat
  {
    height * x + y
  }

  /** Within a column the index decodes back to (x, y), so GetIndex is injective there. */
  lemma GetIndexRoundTrip(x: nat, y: nat, height: nat)
    requires y < height
    ensures GetIndex(x, y, height) / height == x
    ensures GetIndex(x, y, height) % height == y
  {
    DivUnique(GetIndex(x, y, height), height, x, y);
  }

  /** Euclidean division has one quotient and remainder. */
  lemma DivUnique(i: nat, h: nat, q: nat, r: nat)
    requires r < h && i == h * q + r
    ensures i / h == q && i % h == r
  {
    var q', r' := i / h, i % h;
    assert i == h * q' + r';
    if q' > q {
      MulLeftMono(q + 1, q', h);
    } else if q' < q {
      MulLeftMono(q' + 1, q, h);
    }
  }

  lemma GetIndexInjective(x1: nat, y1: nat, x2: nat, y2: nat, height: nat)
    requires y1 < height && y2 < height
    requires GetIndex(x1, y1, height) == GetIndex(x2, y2, height)
    ensures x1 == x2 && y1 == y2
  {
    GetIndexRoundTrip(x1, y1, height);
    GetIndexRoundTrip(x2, y2, height);
  }

  /** Every in-image position indexes inside the width * height pixels. */
  lemma GetIndexBound(x: nat, y: nat, width: nat, height: nat)
    requires x < width && y < height
    ensures GetIndex(x, y, height) < width * height
  {
    MulLeftMono(x + 1, width, height);
    assert height * x + height == (x + 1) * height;
  }

  /** `calculate_superpixel_size`: the floor square root of pixelCount / superpixelCount,
      rounded up to an odd number and cast to `u16` (which wraps); SuperpixelSizeBracket
      says what it is. */
  function CalculateSuperpixelSize(pixelCount: nat, superpixelCount: nat): (s: nat)
    requires superpixelCount > 0
    ensures s < U16Bound
  {
    var result := IntSqrt(pixelCount / superpixelCount);
    (if result % 2 == 1 then result else result + 1) % U16Bound
  }

  /** The spacing is odd, whatever the cast to `u16` cut off, so it is never zero. */
  lemma SuperpixelSizeOdd(pixelCount: nat, superpixelCount: nat)
    requires superpixelCount > 0
    ensures CalculateSuperpixelSize(pixelCount, superpixelCount) % 2 == 1
  {
    var result := IntSqrt(pixelCount / superpixelCount);
    var odd := if result % 2 == 1 then result else result + 1;
    OddModulus(odd, U16Bound / 2);
  }

  /** An odd number stays odd modulo an even number. */
  lemma OddModulus(a: nat, h: nat)
    requires a % 2 == 1 && h > 0
    ensures (a % (2 * h)) % 2 == 1
  {
    var q := a / (2 * h);
    assert a == 2 * h * q + a % (2 * h);
    assert a % (2 * h) == a - 2 * (h * q);
  }

  /** Whenever pixelCount / superpixelCount is below 2^32 the cast is exact and the spacing is
      the odd number s with sqrt(pixelCount / superpixelCount) in [s - 1, s + 1). */
  lemma SuperpixelSizeBracket(pixelCount: nat, superpixelCount: nat)
    requires superpixelCount > 0
    requires pixelCount / superpixelCount < U16Bound * U16Bound
    ensures OddRoot(CalculateSuperpixelSize(pixelCount, superpixelCount), pixelCount / superpixelCount)
  {
    var q := pixelCount / superpixelCount;
    var r := IntSqrt(q);
    var odd := if r % 2 == 1 then r else r + 1;
    SizeBracket(q);
    SmallModulus(odd, U16Bound);
    assert CalculateSuperpixelSize(pixelCount, superpixelCount) == odd;
  }

  lemma SmallModulus(a: nat, b: nat)
    requires a < b
    ensures a % b == a
  {
  }

  /** s is odd and sqrt(q) lies in [s - 1, s + 1). */
  ghost predicate OddRoot(s: nat, q: nat)
  {
    s % 2 == 1 && IntSquare(s - 1) <= q < IntSquare(s + 1)
  }

  /** Rounding the floor square root of q up to the next odd number keeps sqrt(q) within
      one, and fits `u16` while q does not reach 2^32. */
  lemma SizeBracket(q: nat)
    ensures var r := IntSqrt(q);
            var s := if r % 2 == 1 then r else r + 1;
            q < U16Bound * U16Bound ==> s < U16Bound && OddRoot(s, q)
  {
    if q < U16Bound * U16Bound {
      IntSqrtBracket(q);
      OddBracket(q, IntSqrt(q));
    }
  }

  lemma OddBracket(q: nat, r: nat)
    requires IsRoot(r, q)
    requires q < U16Bound * U16Bound
    ensures var s := if r % 2 == 1 then r else r + 1;
            s < U16Bound && OddRoot(s, q)
  {
    if r >= U16Bound {
      IntSquareMono(U16Bound, r);
      IntSquareIsProduct(U16Bound);
    }
    if r % 2 == 1 {
      IntSquareMono(r - 1, r);
    } else {
      IntSquareMono(r + 1, r + 2);
    }
  }

  /** Only one odd number has sqrt(q) in [s - 1, s + 1): the spacing is determined by q. */
  lemma SuperpixelSizeUnique(pixelCount: nat, superpixelCount: nat, t: nat)
    requires superpixelCount > 0
    requires pixelCount / superpixelCount < U16Bound * U16Bound
    requires OddRoot(t, pixelCount / superpixelCount)
    ensures t == CalculateSuperpixelSize(pixelCount, superpixelCount)
  {
    SuperpixelSizeBracket(pixelCount, superpixelCount);
    OddRootUnique(pixelCount / superpixelCount, CalculateSuperpixelSize(pixelCount, superpixelCount), t);
  }

  lemma OddRootUnique(q: nat, s: nat, t: nat)
    requires OddRoot(s, q) && OddRoot(t, q)
    ensures s == t
  {
    if t + 1 <= s - 1 {
      IntSquareMono(t + 1, s - 1);
    } else if s + 1 <= t - 1 {
      IntSquareMono(s + 1, t - 1);
    }
  }

  // ---------------------------------------------------------------------------
  // The assignment scan of one pixel

  /** One iteration of the inner loop, given the distance to centroid j: keep the label when
      the held distance is strictly smaller, otherwise take centroid j and that distance. */
  function Step(l: LabelPixel, distance: real, j: nat): LabelPixel
  {
    if l.centroidDistance < distance then l
    else l.(centroidDistance := distance, centroidIndex := j)
  }

  /** The label after the inner loop has looked at the first j distances ds[0 .. j - 1]. */
  function Scan(l: LabelPixel, ds: seq<real>, j: nat): LabelPixel
    requires j <= |ds|
    decreases j
  {
    if j == 0 then l else Step(Scan(l, ds, j - 1), ds[j - 1], j - 1)
  }

  /** The distances from one pixel to each centroid, in centroid order. */
  function Distances(p: PixelCieLab, cs: seq<PixelCieLab>, m: nat, s: real): (ds: seq<real>)
    requires s != 0.0
    ensures |ds| == |cs|
  {
    seq(|cs|, t requires 0 <= t < |cs| => Distance(p, cs[t], m, s))
  }

  /** The label after a full scan of all centroids. */
  function AssignLabel(l: LabelPixel, cs: seq<PixelCieLab>, m: nat, s: real): LabelPixel
    requires s != 0.0
  {
    Scan(l, Distances(l.pixel, cs, m, s), |cs|)
  }

  /** Only the label changes; the pixel itself is kept. */
  lemma {:induction false} ScanKeepsPixel(l: LabelPixel, ds: seq<real>, j: nat)
    requires j <= |ds|
    ensures Scan(l, ds, j).pixel == l.pixel
    decreases j
  {
    if j > 0 {
      ScanKeepsPixel(l, ds, j - 1);
    }
  }

  /** The held distance never grows, ends at or below every distance looked at, and either
      the label is untouched or it names a scanned centroid whose distance it stores. */
  lemma {:induction false} ScanMinimum(l: LabelPixel, ds: seq<real>, j: nat)
    requires j <= |ds|
    ensures var r := Scan(l, ds, j);
            && r.centroidDistance <= l.centroidDistance
            && (forall t :: 0 <= t < j ==> r.centroidDistance <= ds[t])
            && (r == l || (r.centroidIndex < j && r.centroidDistance == ds[r.centroidIndex]))
    decreases j
  {
    if j > 0 {
      ScanMinimum(l, ds, j - 1);
    }
  }

  /** A held distance below every distance looked at blocks reassignment. */
  lemma {:induction false} ScanBlockedByStale(l: LabelPixel, ds: seq<real>, j: nat)
    requires j <= |ds|
    requires forall t :: 0 <= t < j ==> l.centroidDistance < ds[t]
    ensures Scan(l, ds, j) == l
    decreases j
  {
    if j > 0 {
      ScanBlockedByStale(l, ds, j - 1);
    }
  }

  /** Once some distance is at most the held one, the label names a scanned centroid at the
      stored distance, and every later centroid is strictly farther: among equally near
      centroids the highest index wins. */
  lemma {:induction false} ScanTieHighest(l: LabelPixel, ds: seq<real>, j: nat)
    requires j <= |ds|
    requires exists t :: 0 <= t < j && ds[t] <= l.centroidDistance
    ensures var r := Scan(l, ds, j);
            && r.centroidIndex < j
            && r.centroidDistance == ds[r.centroidIndex]
            && (forall t :: r.centroidIndex < t < j ==> ds[t] > r.centroidDistance)
    decreases j
  {
    if exists t :: 0 <= t < j - 1 && ds[t] <= l.centroidDistance {
      ScanTieHighest(l, ds, j - 1);
    } else {
      ScanBlockedByStale(l, ds, j - 1);
    }
  }

  /** A full scan from a label that some centroid can beat: the pixel ends on a nearest
      centroid, the one with the highest index among the nearest. */
  lemma AssignLabelNearest(l: LabelPixel, cs: seq<PixelCieLab>, m: nat, s: real)
    requires s != 0.0
    requires exists t :: 0 <= t < |cs| && Distance(l.pixel, cs[t], m, s) <= l.centroidDistance
    ensures var r := AssignLabel(l, cs, m, s);
            && r.pixel == l.pixel
            && r.centroidIndex < |cs|
            && r.centroidDistance == Distance(l.pixel, cs[r.centroidIndex], m, s)
            && (forall t :: 0 <= t < |cs| ==> r.centroidDistance <= Distance(l.pixel, cs[t], m, s))
            && (forall t :: r.centroidIndex < t < |cs| ==> r.centroidDistance < Distance(l.pixel, cs[t], m, s))
  {
    var ds := Distances(l.pixel, cs, m, s);
    var t0 :| 0 <= t0 < |cs| && Distance(l.pixel, cs[t0], m, s) <= l.centroidDistance;
    assert ds[t0] <= l.centroidDistance;
    ScanKeepsPixel(l, ds, |cs|);
    ScanMinimum(l, ds, |cs|);
    ScanTieHighest(l, ds, |cs|);
    assert forall t :: 0 <= t < |cs| ==> ds[t] == Distance(l.pixel, cs[t], m, s);
  }

  /** A full scan either leaves the label alone or sets it to a centroid index. */
  lemma AssignLabelKeepsRange(l: LabelPixel, cs: seq<PixelCieLab>, m: nat, s: real)
    requires s != 0.0
    ensures var r := AssignLabel(l, cs, m, s);
            && r.pixel == l.pixel
            && (r == l || r.centroidIndex < |cs|)
  {
    var ds := Distances(l.pixel, cs, m, s);
    ScanKeepsPixel(l, ds, |cs|);
    ScanMinimum(l, ds, |cs|);
  }

  /** The closure run on each pixel by `assign_pixels_to_superpixels`: scan all centroids
      of the snapshot, keeping the nearest so far. */
  method AssignPixel(p: LabelPixel, centroids: seq<PixelCieLab>, m: nat, s: real) returns (r: LabelPixel)
    requires s != 0.0
    ensures r == AssignLabel(p, centroids, m, s)
  {
    ghost var ds := Distances(p.pixel, centroids, m, s);
    r := p;
    for j := 0 to |centroids|
      invariant r == Scan(p, ds, j)
      invariant r.pixel == p.pixel
    {
      var centroid := centroids[j];
      var distance := Distance(r.pixel, centroid, m, s);
      if r.centroidDistance < distance {
        continue;
      }
      r := r.(centroidDistance := distance, centroidIndex := j);
    }
  }

  /** Every label after one assignment pass over the whole pixel list. */
  function AssignAll(ls: seq<LabelPixel>, cs: seq<PixelCieLab>, m: nat, s: real): (r: seq<LabelPixel>)
    requires s != 0.0
  {
    seq(|ls|, i requires 0 <= i < |ls| => AssignLabel(ls[i], cs, m, s))
  }

  // ---------------------------------------------------------------------------
  // Grouping pixels by label

  /** The labels with centroid index j, in input order (the bucket `clusters` builds). */
  function Members(ls: seq<LabelPixel>, j: nat): seq<LabelPixel>
    decreases |ls|
  {
    if ls == [] then []
    else Members(ls[..|ls| - 1], j) + (if ls[|ls| - 1].centroidIndex == j then [ls[|ls| - 1]] else [])
  }

  /** Each label occurs in bucket j exactly as often as in the input when its index is j,
      and not at all otherwise. */
  lemma {:induction false} MembersMultiset(ls: seq<LabelPixel>, j: nat)
    ensures forall x :: multiset(Members(ls, j))[x] == if x.centroidIndex == j then multiset(ls)[x] else 0
    decreases |ls|
  {
    if ls != [] {
      var init, last := ls[..|ls| - 1], ls[|ls| - 1];
      MembersMultiset(init, j);
      assert ls == init + [last];
    }
  }

  /** A label is in bucket j exactly when it is in the input with index j. */
  lemma MembersMembership(ls: seq<LabelPixel>, j: nat, x: LabelPixel)
    ensures x in Members(ls, j) <==> x in ls && x.centroidIndex == j
  {
    MembersMultiset(ls, j);
    assert x in Members(ls, j) <==> multiset(Members(ls, j))[x] > 0;
    assert x in ls <==> multiset(ls)[x] > 0;
  }

  /** How many labels have an index below k. */
  function CountBelow(ls: seq<LabelPixel>, k: nat): nat
    decreases |ls|
  {
    if ls == [] then 0
    else CountBelow(ls[..|ls| - 1], k) + (if ls[|ls| - 1].centroidIndex < k then 1 else 0)
  }

  /** The sizes of buckets 0 .. k - 1 added up. */
  function SumSizes(ls: seq<LabelPixel>, k: nat): nat
    decreases k
  {
    if k == 0 then 0 else SumSizes(ls, k - 1) + |Members(ls, k - 1)|
  }

  lemma {:induction false} CountBelowStep(ls: seq<LabelPixel>, k: nat)
    ensures CountBelow(ls, k + 1) == CountBelow(ls, k) + |Members(ls, k)|
    decreases |ls|
  {
    if ls != [] {
      CountBelowStep(ls[..|ls| - 1], k);
    }
  }

  lemma {:induction false} SumSizesIsCountBelow(ls: seq<LabelPixel>, k: nat)
    ensures SumSizes(ls, k) == CountBelow(ls, k)
    decreases k
  {
    if k == 0 {
      CountBelowNone(ls);
    } else {
      SumSizesIsCountBelow(ls, k - 1);
      CountBelowStep(ls, k - 1);
    }
  }

  lemma {:induction false} CountBelowNone(ls: seq<LabelPixel>)
    ensures CountBelow(ls, 0) == 0
    decreases |ls|
  {
    if ls != [] {
      CountBelowNone(ls[..|ls| - 1]);
    }
  }

  lemma {:induction false} CountBelowAll(ls: seq<LabelPixel>, k: nat)
    requires forall i :: 0 <= i < |ls| ==> ls[i].centroidIndex < k
    ensures CountBelow(ls, k) == |ls|
    decreases |ls|
  {
    if ls != [] {
      CountBelowAll(ls[..|ls| - 1], k);
    }
  }

  /** Conservation: when every index is below k, the k bucket sizes add up to the pixel count. */
  lemma BucketSizesSum(ls: seq<LabelPixel>, k: nat)
    requires forall i :: 0 <= i < |ls| ==> ls[i].centroidIndex < k
    ensures SumSizes(ls, k) == |ls|
  {
    SumSizesIsCountBelow(ls, k);
    CountBelowAll(ls, k);
  }

  /** The positions of a list of labels. */
  function Positions(ls: seq<LabelPixel>): (ps: seq<Point>)
    ensures |ps| == |ls|
  {
    seq(|ls|, i requires 0 <= i < |ls| => ls[i].pixel.values)
  }

  // ---------------------------------------------------------------------------
  // Centroid positions

  function SumX(ps: seq<Point>): nat
    decreases |ps|
  {
    if ps == [] then 0 else SumX(ps[..|ps| - 1]) + ps[|ps| - 1].x
  }

  function SumY(ps: seq<Point>): nat
    decreases |ps|
  {
    if ps == [] then 0 else SumY(ps[..|ps| - 1]) + ps[|ps| - 1].y
  }

  /** `position_centroid`: (0, 0) for no points, otherwise the per-coordinate mean
      rounded down (cgmath's `centroid` on `u32`). */
  function PositionCentroid(ps: seq<Point>): (c: Point)
    ensures |ps| == 0 ==> c == Point(0, 0)
    ensures |ps| > 0 ==> FloorOf(c.x, SumX(ps), |ps|) && FloorOf(c.y, SumY(ps), |ps|)
  {
    if |ps| == 0 then Point(0, 0)
    else
      var count, sumX, sumY := |ps|, SumX(ps), SumY(ps);
      FloorDivBracket(sumX, count);
      FloorDivBracket(sumY, count);
      Point(sumX / count, sumY / count)
  }

  /** q is a rounded down: q * b <= a < (q + 1) * b. */
  ghost predicate FloorOf(q: nat, a: nat, b: nat)
  {
    q * b <= a < (q + 1) * b
  }

  lemma FloorDivBracket(a: nat, b: nat)
    requires b > 0
    ensures FloorOf(a / b, a, b)
  {
    assert a == b * (a / b) + a % b;
  }

  lemma {:induction false} SumBelow(ps: seq<Point>, width: nat, height: nat)
    requires forall i :: 0 <= i < |ps| ==> ps[i].x < width && ps[i].y < height
    ensures SumX(ps) + |ps| <= width * |ps|
    ensures SumY(ps) + |ps| <= height * |ps|
    decreases |ps|
  {
    if ps != [] {
      SumBelow(ps[..|ps| - 1], width, height);
      assert width * |ps| == width * (|ps| - 1) + width;
      assert height * |ps| == height * (|ps| - 1) + height;
    }
  }

  /** The centroid of in-image positions is in the image (and so is (0, 0)). */
  lemma PositionCentroidInBounds(ps: seq<Point>, width: nat, height: nat)
    requires width > 0 && height > 0
    requires forall i :: 0 <= i < |ps| ==> ps[i].x < width && ps[i].y < height
    ensures PositionCentroid(ps).x < width && PositionCentroid(ps).y < height
  {
    if |ps| > 0 {
      var c := PositionCentroid(ps);
      SumBelow(ps, width, height);
      if c.x >= width {
        MulLeftMono(width, c.x, |ps|);
      }
      if c.y >= height {
        MulLeftMono(height, c.y, |ps|);
      }
    }
  }

  /** The flat index of the centroid of every bucket: the new `centroid_indices`. */
  function NextCentroidIndices(ls: seq<LabelPixel>, k: nat, height: nat): (r: seq<nat>)
    ensures |r| == k
  {
    seq(k, j requires 0 <= j < k =>
      var c := PositionCentroid(Positions(Members(ls, j)));
      GetIndex(c.x, c.y, height))
  }

  /** The seeds' flat indices: `calculate_initial_centroids`. */
  function InitialCentroidIndices(width: nat, height: nat, k: nat): (r: seq<nat>)
    requires SampleDefined(Rectangle(width, height), k)
  {
    var ps := SampledGrid(Rectangle(width, height), k);
    seq(|ps|, j requires 0 <= j < |ps| => GetIndex(ps[j].x, ps[j].y, height))
  }

  /** The pixels at the given indices (the centroid snapshot of one assignment pass). */
  function PixelsAt(ps: seq<PixelCieLab>, indices: seq<nat>): (r: seq<PixelCieLab>)
    requires forall j :: 0 <= j < |indices| ==> indices[j] < |ps|
    ensures |r| == |indices|
  {
    seq(|indices|, j requires 0 <= j < |indices| => ps[indices[j]])
  }

  /** Every label carries an index below k. */
  ghost predicate AllBelow(ls: seq<LabelPixel>, k: nat)
  {
    forall i :: 0 <= i < |ls| ==> ls[i].centroidIndex < k
  }

  /** The labels `new` starts from: every pixel unassigned. */
  function FreshLabels(ps: seq<PixelCieLab>): (ls: seq<LabelPixel>)
    ensures |ls| == |ps|
  {
    seq(|ps|, i requires 0 <= i < |ps| => NewLabelPixel(ps[i]))
  }

  /** When no two pixels are farther apart than the sentinel, the first assignment pass
      gives every pixel a centroid index. */
  lemma FreshLabelsAssigned(ps: seq<PixelCieLab>, indices: seq<nat>, m: nat, s: nat)
    requires s > 0 && |indices| > 0
    requires forall j :: 0 <= j < |indices| ==> indices[j] < |ps|
    requires FiniteDistances(ps, m, s)
    ensures AllBelow(AssignAll(FreshLabels(ps), PixelsAt(ps, indices), m, s as real), |indices|)
  {
    var cs := PixelsAt(ps, indices);
    forall i | 0 <= i < |ps|
      ensures AssignLabel(FreshLabels(ps)[i], cs, m, s as real).centroidIndex < |indices|
    {
      var l := FreshLabels(ps)[i];
      assert Distance(l.pixel, cs[0], m, s as real) <= l.centroidDistance;
      AssignLabelNearest(l, cs, m, s as real);
    }
  }

  /** No two pixels are farther apart than the f32::MAX sentinel. */
  ghost predicate FiniteDistances(ps: seq<PixelCieLab>, m: nat, s: nat)
    requires s > 0
  {
    forall i, j :: 0 <= i < |ps| && 0 <= j < |ps| ==> Distance(ps[i], ps[j], m, s as real) <= F32Max
  }

  // ---------------------------------------------------------------------------
  // The solver

  class KMeansSuperPixelSolver {
    /** The labelled pixels; their number never changes, only their labels. */
    const flatPixels: array<LabelPixel>
    /** One flat pixel index per cluster: the current centroids. */
    var centroidIndices: seq<nat>

    const height: nat
    const width: nat
    /** Compactness. */
    const m: nat
    /** Expected spacing between centroids. */
    const s: nat
    /** width * height. */
    const n: nat
    /** Number of clusters. */
    const k: nat

    function PixelValues(): (ps: seq<PixelCieLab>)
      reads this, flatPixels
      ensures |ps| == flatPixels.Length
    {
      var labels := flatPixels[..];
      seq(|labels|, i requires 0 <= i < |labels| => labels[i].pixel)
    }

    /** Everything fixed at construction: the parameters and the pixel count. */
    ghost predicate Configured()
      reads this, flatPixels
    {
      && k >= 1
      && n == width * height && n <= flatPixels.Length
      && SampleDefined(Rectangle(width, height), k)
      && s % 2 == 1
    }

    /** Every pixel lies in the width x height image. Nothing checks this; without it a
        bucket centroid can index past the pixels. */
    ghost predicate InImage()
      reads this, flatPixels
    {
      forall i :: 0 <= i < flatPixels.Length ==>
        flatPixels[i].pixel.X() < width && flatPixels[i].pixel.Y() < height
    }

    /** k centroids, each indexing a pixel. */
    ghost predicate Valid()
      reads this, flatPixels
    {
      && Configured()
      && |centroidIndices| == k
      && (forall j :: 0 <= j < k ==> centroidIndices[j] < flatPixels.Length)
    }

    /** Every pixel carries a cluster index below k (no sentinel left), which bucketing needs. */
    ghost predicate Labelled()
      reads this, flatPixels
    {
      forall i :: 0 <= i < flatPixels.Length ==> flatPixels[i].centroidIndex < k
    }

    /** `KMeansSuperPixelSolver::new`: label every pixel, seed the centroids on the sampled
        grid, and run one assignment pass. */
    constructor (pixels: seq<PixelCieLab>, compactness: nat, superpixelCount: nat, imageWidth: nat, imageHeight: nat)
      requires superpixelCount >= 1
      requires SampleDefined(Rectangle(imageWidth, imageHeight), superpixelCount)
      requires imageWidth * imageHeight <= |pixels|
      ensures Valid()
      ensures width == imageWidth && height == imageHeight && m == compactness && k == superpixelCount
      ensures n == imageWidth * imageHeight && s == CalculateSuperpixelSize(n, k)
      ensures centroidIndices == InitialCentroidIndices(imageWidth, imageHeight, superpixelCount)
      ensures fresh(flatPixels) && PixelValues() == pixels
      ensures InImage() <==> forall i :: 0 <= i < |pixels| ==> pixels[i].X() < imageWidth && pixels[i].Y() < imageHeight
      ensures flatPixels[..] == AssignAll(FreshLabels(pixels), PixelsAt(pixels, centroidIndices), m, s as real)
      ensures FiniteDistances(pixels, m, s) ==> Labelled()
    {
      var labelPixels := new LabelPixel[|pixels|](i requires 0 <= i < |pixels| => NewLabelPixel(pixels[i]));
      var pixelCount := imageWidth * imageHeight;
      var pixelSize := CalculateSuperpixelSize(pixelCount, superpixelCount);
      SuperpixelSizeOdd(pixelCount, superpixelCount);
      flatPixels := labelPixels;
      centroidIndices := [];
      height := imageHeight;
      width := imageWidth;
      m := compactness;
      s := pixelSize;
      n := pixelCount;
      k := superpixelCount;
      new;
      assert s > 0;
      assert flatPixels[..] == FreshLabels(pixels);
      assert PixelValues() == pixels;
      CalculateInitialCentroids();
      AssignPixelsToSuperpixels();
      if FiniteDistances(pixels, m, s) {
        FreshLabelsAssigned(pixels, centroidIndices, m, s);
      }
    }

    /** `calculate_initial_centroids`: one centroid per sampled seed position. */
    method CalculateInitialCentroids()
      requires Configured()
      modifies this`centroidIndices
      ensures Valid()
      ensures centroidIndices == InitialCentroidIndices(width, height, k)
    {
      var rect := NewRectangle(width, height);
      var positions := SamplePositions(rect, k);
      centroidIndices := seq(|positions|, j requires 0 <= j < |positions| => GetIndex(positions[j].x, positions[j].y, height));
      SampledGridCount(rect, k);
      SampledGridInBounds(rect, k);
      forall j | 0 <= j < k
        ensures centroidIndices[j] < flatPixels.Length
      {
        assert positions[j] in positions;
        GetIndexBound(positions[j].x, positions[j].y, width, height);
      }
    }

    /** `centroids`: the labelled pixel each centroid index points at. */
    function Centroids(): (cs: seq<LabelPixel>)
      reads this, flatPixels
      requires forall j :: 0 <= j < |centroidIndices| ==> centroidIndices[j] < flatPixels.Length
      ensures |cs| == |centroidIndices|
      ensures forall j :: 0 <= j < |cs| ==> cs[j] in flatPixels[..]
    {
      var labels, indices := flatPixels[..], centroidIndices;
      seq(|indices|, j requires 0 <= j < |indices| => labels[indices[j]])
    }

    /** The centroids as plain pixels: the snapshot an assignment pass reads. */
    function CentroidPixels(): (cs: seq<PixelCieLab>)
      reads this, flatPixels
      requires forall j :: 0 <= j < |centroidIndices| ==> centroidIndices[j] < flatPixels.Length
      ensures cs == PixelsAt(PixelValues(), centroidIndices)
    {
      var centroids := Centroids();
      seq(|centroids|, j requires 0 <= j < |centroids| => NewPixel(centroids[j].pixel.X(), centroids[j].pixel.Y(), centroids[j].pixel.Color()))
    }

    /** `assign_pixels_to_superpixels`: every pixel scans every centroid of a snapshot taken
        before the pass, in place on its own label. */
    method AssignPixelsToSuperpixels()
      requires Valid()
      modifies flatPixels
      ensures Valid()
      ensures PixelValues() == old(PixelValues())
      ensures flatPixels[..] == AssignAll(old(flatPixels[..]), old(CentroidPixels()), m, s as real)
      ensures old(Labelled()) ==> Labelled()
      ensures old(InImage()) ==> InImage()
    {
      ghost var before := flatPixels[..];
      var centroids := CentroidPixels();
      var weight := s as real;
      for i := 0 to flatPixels.Length
        invariant forall t :: 0 <= t < i ==> flatPixels[t] == AssignLabel(before[t], centroids, m, weight)
        invariant forall t :: i <= t < flatPixels.Length ==> flatPixels[t] == before[t]
      {
        flatPixels[i] := AssignPixel(flatPixels[i], centroids, m, weight);
      }
      forall t | 0 <= t < flatPixels.Length
        ensures flatPixels[t].pixel == before[t].pixel
        ensures before[t].centroidIndex < k ==> flatPixels[t].centroidIndex < k
      {
        AssignLabelKeepsRange(before[t], centroids, m, weight);
      }
    }

    /** `clusters`: k buckets, bucket j holding (in input order) the pixels labelled j,
        paired with centroid j. */
    method Clusters() returns (clusters: seq<(LabelPixel, seq<LabelPixel>)>)
      requires Valid() && Labelled()
      ensures |clusters| == k
      ensures forall j :: 0 <= j < k ==> clusters[j].0 == Centroids()[j] && clusters[j].1 == Members(flatPixels[..], j)
    {
      var buckets: seq<seq<LabelPixel>> := seq(k, _ => []);
      for i := 0 to flatPixels.Length
        invariant |buckets| == k
        invariant forall j :: 0 <= j < k ==> buckets[j] == Members(flatPixels[..i], j)
      {
        var pixel := flatPixels[i];
        assert flatPixels[..i + 1][..i] == flatPixels[..i];
        buckets := buckets[pixel.centroidIndex := buckets[pixel.centroidIndex] + [pixel]];
      }
      assert flatPixels[..flatPixels.Length] == flatPixels[..];
      var centroids := Centroids();
      clusters := seq(k, j requires 0 <= j < k => (centroids[j], buckets[j]));
    }

    /** `position_clusters`: the same buckets, holding positions only. */
    method PositionClusters() returns (clusters: seq<seq<Point>>)
      requires Valid() && Labelled()
      ensures |clusters| == k
      ensures forall j :: 0 <= j < k ==> clusters[j] == Positions(Members(flatPixels[..], j))
    {
      clusters := seq(k, _ => []);
      for i := 0 to flatPixels.Length
        invariant |clusters| == k
        invariant forall j :: 0 <= j < k ==> clusters[j] == Positions(Members(flatPixels[..i], j))
      {
        var pixel := flatPixels[i];
        assert flatPixels[..i + 1][..i] == flatPixels[..i];
        PositionsAppend(Members(flatPixels[..i], pixel.centroidIndex), pixel);
        clusters := clusters[pixel.centroidIndex := clusters[pixel.centroidIndex] + [pixel.pixel.Values()]];
      }
      assert flatPixels[..flatPixels.Length] == flatPixels[..];
    }

    /** `position_centroids`: the centroid position of every bucket; inside the image when
        the pixels are. */
    method PositionCentroids() returns (centroids: seq<Point>)
      requires Valid() && Labelled()
      ensures |centroids| == k
      ensures forall j :: 0 <= j < k ==> centroids[j] == PositionCentroid(Positions(Members(flatPixels[..], j)))
      ensures InImage() ==> forall j :: 0 <= j < k ==> centroids[j].x < width && centroids[j].y < height
    {
      var clusters := Clusters();
      centroids := seq(|clusters|, j requires 0 <= j < |clusters| => PositionCentroid(Positions(clusters[j].1)));
      forall j | 0 <= j < k && InImage()
        ensures centroids[j].x < width && centroids[j].y < height
      {
        MembersInImage(j);
        SampleDefinedPositive(Rectangle(width, height), k);
        PositionCentroidInBounds(Positions(Members(flatPixels[..], j)), width, height);
      }
    }

    /** Bucket members are pixels of the image, so their positions lie in it. */
    lemma MembersInImage(j: nat)
      requires InImage()
      ensures forall t :: 0 <= t < |Positions(Members(flatPixels[..], j))| ==>
                Positions(Members(flatPixels[..], j))[t].x < width && Positions(Members(flatPixels[..], j))[t].y < height
    {
      var ms := Members(flatPixels[..], j);
      forall t | 0 <= t < |ms|
        ensures ms[t].pixel.values.x < width && ms[t].pixel.values.y < height
      {
        MembersMembership(flatPixels[..], j, ms[t]);
      }
    }

    /** `update_centroids`: replace all k centroid indices at once by the indices of the
        bucket centroids. */
    method UpdateCentroids()
      requires Valid() && Labelled()
      modifies this`centroidIndices
      ensures Configured() && Labelled() && |centroidIndices| == k
      ensures centroidIndices == NextCentroidIndices(flatPixels[..], k, height)
      ensures InImage() ==> Valid()
    {
      var positions := PositionCentroids();
      centroidIndices := seq(|positions|, j requires 0 <= j < |positions| => GetIndex(positions[j].x, positions[j].y, height));
      forall j | 0 <= j < k && InImage()
        ensures centroidIndices[j] < flatPixels.Length
      {
        GetIndexBound(positions[j].x, positions[j].y, width, height);
      }
    }

    /** `solve_tick`: one assignment pass, then one centroid update. */
    method SolveTick()
      requires Valid() && Labelled()
      modifies this, flatPixels
      ensures Configured() && Labelled() && |centroidIndices| == k
      ensures old(InImage()) ==> Valid() && InImage()
      ensures PixelValues() == old(PixelValues())
      ensures flatPixels[..] == AssignAll(old(flatPixels[..]), old(CentroidPixels()), m, s as real)
      ensures centroidIndices == NextCentroidIndices(flatPixels[..], k, height)
    {
      AssignPixelsToSuperpixels();
      UpdateCentroids();
    }

    /** `current_superpixels`: for every cluster, its members' positions, each paired with
        the display colour of the cluster's centroid. */
    method CurrentSuperpixels<C>(displayColor: Lab -> C) returns (result: seq<seq<(nat, nat, C)>>)
      requires Valid() && Labelled()
      ensures |result| == k
      ensures forall j :: 0 <= j < k ==> |result[j]| == |Members(flatPixels[..], j)|
      ensures forall j, t :: 0 <= j < k && 0 <= t < |result[j]| ==>
                result[j][t] == (Members(flatPixels[..], j)[t].pixel.X(), Members(flatPixels[..], j)[t].pixel.Y(),
                                 displayColor(Centroids()[j].pixel.Color()))
    {
      result := [];
      var clusters := Clusters();
      for j := 0 to |clusters|
        invariant |result| == j
        invariant forall u, t :: 0 <= u < j && 0 <= t < |result[u]| ==>
                    |result[u]| == |clusters[u].1| &&
                    result[u][t] == (clusters[u].1[t].pixel.X(), clusters[u].1[t].pixel.Y(), displayColor(clusters[u].0.pixel.Color()))
        invariant forall u :: 0 <= u < j ==> |result[u]| == |clusters[u].1|
      {
        var (centroid, cluster) := clusters[j];
        var color := displayColor(centroid.pixel.Color());
        result := result + [seq(|cluster|, t requires 0 <= t < |cluster| => (cluster[t].pixel.X(), cluster[t].pixel.Y(), color))];
      }
    }
  }

  lemma PositionsAppend(ls: seq<LabelPixel>, x: LabelPixel)
    ensures Positions(ls + [x]) == Positions(ls) + [x.pixel.values]
  {
  }
}
