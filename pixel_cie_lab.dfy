/// The (position, colour) record shared by sample pixels and centroids,
/// and the weighted colour/space distance between two of them.
module Pixels {

  /** An integer image position (`Point2<u32>`; the grid uses `Point2<u16>`). */
  datatype Point = Point(x: nat, y: nat)

  /** A CIE-Lab colour, kept as three reals; the conversions that produce it are not modelled. */
  datatype Lab = Lab(l: real, a: real, b: real)

  /** A pixel (or a centroid): where it is and what colour it has. */
  datatype PixelCieLab = PixelCieLab(values: Point, color: Lab)
  {
    function X(): nat { values.x }
    function Y(): nat { values.y }
    function Color(): Lab { color }
    function Values(): Point { values }
  }

  /** `PixelCieLab::new`: every accessor gives back what the constructor was given. */
  function NewPixel(x: nat, y: nat, color: Lab): (p: PixelCieLab)
    ensures p.X() == x && p.Y() == y && p.Color() == color
    ensures p.Values() == Point(x, y)
  {
    PixelCieLab(Point(x, y), color)
  }

  function Square(v: real): real { v * v }

  /** Squared Euclidean distance between two colours (`distance2` on the Lab vectors). */
  function ColorDistance2(a: Lab, b: Lab): real
  {
    Square(a.l - b.l) + Square(a.a - b.a) + Square(a.b - b.b)
  }

  /** Squared Euclidean distance between two positions, taken as reals (`values_as_float`). */
  function SpatialDistance2(p: Point, q: Point): real
  {
    Square(p.x as real - q.x as real) + Square(p.y as real - q.y as real)
  }

  /** `PixelCieLab::distance`: colour term plus the spatial term weighted by m / s. */
  function Distance(a: PixelCieLab, b: PixelCieLab, m: nat, s: real): real
    requires s != 0.0
  {
    ColorDistance2(a.color, b.color) + (m as real / s) * SpatialDistance2(a.values, b.values)
  }

  lemma DistanceToSelfIsZero(a: PixelCieLab, m: nat, s: real)
    requires s != 0.0
    ensures Distance(a, a, m, s) == 0.0
  {
  }

  lemma DistanceSymmetric(a: PixelCieLab, b: PixelCieLab, m: nat, s: real)
    requires s != 0.0
    ensures Distance(a, b, m, s) == Distance(b, a, m, s)
  {
    assert Square(a.color.l - b.color.l) == Square(b.color.l - a.color.l);
    assert Square(a.color.a - b.color.a) == Square(b.color.a - a.color.a);
    assert Square(a.color.b - b.color.b) == Square(b.color.b - a.color.b);
    assert Square(a.values.x as real - b.values.x as real) == Square(b.values.x as real - a.values.x as real);
    assert Square(a.values.y as real - b.values.y as real) == Square(b.values.y as real - a.values.y as real);
  }

  lemma SquareNonNegative(v: real)
    ensures Square(v) >= 0.0
  {
    if v < 0.0 {
      assert Square(v) == (-v) * (-v);
    }
  }

  /** With a non-negative compactness and a positive spacing the distance is never negative. */
  lemma DistanceNonNegative(a: PixelCieLab, b: PixelCieLab, m: nat, s: real)
    requires s > 0.0
    ensures Distance(a, b, m, s) >= 0.0
  {
    SquareNonNegative(a.color.l - b.color.l);
    SquareNonNegative(a.color.a - b.color.a);
    SquareNonNegative(a.color.b - b.color.b);
    SquareNonNegative(a.values.x as real - b.values.x as real);
    SquareNonNegative(a.values.y as real - b.values.y as real);
    var w := m as real / s;
    assert w >= 0.0;
    var sp := SpatialDistance2(a.values, b.values);
    assert sp >= 0.0;
    assert w * sp >= 0.0;
  }

  /** Two pixels at the same position differ by their colour term alone. */
  lemma DistanceSamePosition(a: PixelCieLab, b: PixelCieLab, m: nat, s: real)
    requires s != 0.0 && a.values == b.values
    ensures Distance(a, b, m, s) == ColorDistance2(a.color, b.color)
  {
  }

  /** Two pixels of the same colour differ by (m / s) times their squared spatial distance. */
  lemma DistanceSameColor(a: PixelCieLab, b: PixelCieLab, m: nat, s: real)
    requires s != 0.0 && a.color == b.color
    ensures Distance(a, b, m, s) == (m as real / s) * SpatialDistance2(a.values, b.values)
  {
  }
}
