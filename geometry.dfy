/**
 * Integer plane geometry shared by the containment test, the segment
 * extension and the overlay: points in frame pixel coordinates, vector
 * arithmetic, the edge cross value, and the range of a 32-bit C++ `int`.
 */
module Geometry {

  /** A pixel position; OpenCV's `Point(x, y)` and one half of a `Vec4i`. */
  datatype Point = Point(x: int, y: int)

  function Add(a: Point, b: Point): Point
  {
    Point(a.x + b.x, a.y + b.y)
  }

  function Sub(a: Point, b: Point): Point
  {
    Point(a.x - b.x, a.y - b.y)
  }

  function Scale(k: int, a: Point): Point
  {
    Point(k * a.x, k * a.y)
  }

  /**
   * The value the containment test computes for the directed edge a -> b
   * and the point p. It is positive when p lies strictly to the right of
   * the edge in a y-up frame, that is, outside a counter-clockwise polygon.
   */
  function Cross(a: Point, b: Point, p: Point): int
  {
    (b.y - a.y) * (p.x - a.x) - (b.x - a.x) * (p.y - a.y)
  }

  /** Both ends of an edge lie on its own line. */
  lemma CrossAtEdgeEnds(a: Point, b: Point)
    ensures Cross(a, b, a) == 0
    ensures Cross(a, b, b) == 0
  {
  }

  /** The cross value only depends on relative positions. */
  lemma CrossTranslation(a: Point, b: Point, p: Point, t: Point)
    ensures Cross(Add(a, t), Add(b, t), Add(p, t)) == Cross(a, b, p)
  {
  }

  // ---------------------------------------------------------------------
  // 32-bit signed integers, as used by the source's `int` coordinates

  const Int32Min: int := -0x8000_0000
  const Int32Max: int := 0x7fff_ffff

  predicate IsInt32(v: int)
  {
    Int32Min <= v <= Int32Max
  }

  /** A coordinate magnitude for which every intermediate value of the
      containment test and of the extension fits in a 32-bit `int`. */
  const CoordLimit: int := 16383

  predicate SmallPoint(p: Point)
  {
    -CoordLimit <= p.x <= CoordLimit && -CoordLimit <= p.y <= CoordLimit
  }

  lemma {:induction false} MulBounded(a: int, b: int, m: int)
    requires 0 <= m
    requires -m <= a <= m && -m <= b <= m
    ensures -(m * m) <= a * b <= m * m
  {
    if a >= 0 && b >= 0 {
      assert a * b <= m * b by { MulMono(a, m, b); }
      assert m * b <= m * m by { MulMono(b, m, m); }
    } else if a < 0 && b < 0 {
      assert a * b == (-a) * (-b);
      assert (-a) * (-b) <= m * (-b) by { MulMono(-a, m, -b); }
      assert m * (-b) <= m * m by { MulMono(-b, m, m); }
    } else if a < 0 {
      assert a * b == -((-a) * b);
      assert (-a) * b <= m * b by { MulMono(-a, m, b); }
      assert m * b <= m * m by { MulMono(b, m, m); }
    } else {
      assert a * b == -(a * (-b));
      assert a * (-b) <= m * (-b) by { MulMono(a, m, -b); }
      assert m * (-b) <= m * m by { MulMono(-b, m, m); }
    }
  }

  lemma MulMono(a: int, b: int, c: nat)
    requires a <= b
    ensures a * c <= b * c
  {
  }

  /**
   * For coordinates of magnitude at most CoordLimit, each difference, each
   * product and the cross value itself stay inside the 32-bit range, so the
   * C++ expression cannot overflow.
   */
  lemma CrossFitsInt32(a: Point, b: Point, p: Point)
    requires SmallPoint(a) && SmallPoint(b) && SmallPoint(p)
    ensures IsInt32(b.y - a.y) && IsInt32(p.x - a.x) && IsInt32(b.x - a.x) && IsInt32(p.y - a.y)
    ensures IsInt32((b.y - a.y) * (p.x - a.x)) && IsInt32((b.x - a.x) * (p.y - a.y))
    ensures IsInt32(Cross(a, b, p))
  {
    var m := 2 * CoordLimit;
    MulBounded(b.y - a.y, p.x - a.x, m);
    MulBounded(b.x - a.x, p.y - a.y, m);
    assert m * m == 1073610756;
  }
}
