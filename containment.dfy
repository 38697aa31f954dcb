/**
 * The point-in-convex-polygon test `point_in_region`: a point is inside
 * when no edge of the closed vertex loop has it strictly on its outer side.
 */
module Containment {
  import opened Options
  import opened Geometry

  /** Index of the vertex that ends edge i of an n-vertex closed loop. */
  function Next(i: nat, n: nat): (j: nat)
    requires i < n
    ensures j < n
    ensures j == if i + 1 < n then i + 1 else 0
  {
    (i + 1) % n
  }

  /** The cross value of edge i, from poly[i] to poly[(i+1) % n], against p. */
  function EdgeCross(poly: seq<Point>, i: nat, p: Point): int
    requires i < |poly|
  {
    Cross(poly[i], poly[Next(i, |poly|)], p)
  }

  /** Reference definition: no edge has p strictly on its outer side. */
  predicate Inside(poly: seq<Point>, p: Point)
  {
    forall i :: 0 <= i < |poly| ==> EdgeCross(poly, i, p) <= 0
  }

  /**
   * The edge at which the source's loop, started at edge `from`, returns
   * false: the first edge whose cross value is positive, or None when the
   * loop runs to the end.
   */
  function FirstOutward(poly: seq<Point>, p: Point, from: nat): (r: Option<nat>)
    ensures r.Some? ==> from <= r.value < |poly| && EdgeCross(poly, r.value, p) > 0
    ensures r.Some? ==> forall j :: from <= j < r.value ==> EdgeCross(poly, j, p) <= 0
    ensures r.None? <==> forall j :: from <= j < |poly| ==> EdgeCross(poly, j, p) <= 0
    decreases |poly| - from
  {
    if from >= |poly| then None
    else if EdgeCross(poly, from, p) > 0 then Some(from)
    else FirstOutward(poly, p, from + 1)
  }

  /**
   * `point_in_region`: scans the edges in order and returns false at the
   * first one that has (x, y) strictly outside; boundary points pass.
   */
  method PointInRegion(poly: seq<Point>, x: int, y: int) returns (inside: bool)
    ensures inside == Inside(poly, Point(x, y))
    ensures inside == FirstOutward(poly, Point(x, y), 0).None?
  {
    var n := |poly|;
    for i := 0 to n
      invariant forall j :: 0 <= j < i ==> EdgeCross(poly, j, Point(x, y)) <= 0
      invariant FirstOutward(poly, Point(x, y), 0) == FirstOutward(poly, Point(x, y), i)
    {
      var a, b := poly[i], poly[(i + 1) % n];
      if (b.y - a.y) * (x - a.x) - (b.x - a.x) * (y - a.y) > 0 {
        return false;
      }
    }
    return true;
  }

  /** The loop's answer and the universal statement agree on every input. */
  lemma {:induction false} InsideIffNoOutwardEdge(poly: seq<Point>, p: Point)
    ensures Inside(poly, p) <==> FirstOutward(poly, p, 0).None?
    ensures !Inside(poly, p) ==> EdgeCross(poly, FirstOutward(poly, p, 0).value, p) > 0
  {
  }

  /** Edges wrap around: edge i joins vertex i to vertex i+1, and the last
      edge joins vertex n-1 back to vertex 0. */
  lemma EdgesWrap(poly: seq<Point>, p: Point)
    requires |poly| >= 1
    ensures forall i :: 0 <= i < |poly| - 1 ==> EdgeCross(poly, i, p) == Cross(poly[i], poly[i + 1], p)
    ensures EdgeCross(poly, |poly| - 1, p) == Cross(poly[|poly| - 1], poly[0], p)
  {
  }

  /** Every vertex passes both edges that meet at it (it lies on them). */
  lemma VertexOnOwnEdges(poly: seq<Point>, i: nat)
    requires i < |poly|
    ensures EdgeCross(poly, i, poly[i]) == 0
    ensures EdgeCross(poly, if i == 0 then |poly| - 1 else i - 1, poly[i]) == 0
  {
    CrossAtEdgeEnds(poly[i], poly[Next(i, |poly|)]);
    var k := if i == 0 then |poly| - 1 else i - 1;
    CrossAtEdgeEnds(poly[k], poly[Next(k, |poly|)]);
  }

  /** With no vertices the loop never runs and every point is inside. */
  lemma EmptyPolygonContainsAll(p: Point)
    ensures Inside([], p)
  {
  }

  /** Shifting the polygon and the point together does not change the answer. */
  lemma {:induction false} InsideTranslation(poly: seq<Point>, p: Point, t: Point)
    ensures Inside(seq(|poly|, i requires 0 <= i < |poly| => Add(poly[i], t)), Add(p, t)) == Inside(poly, p)
  {
    var moved := seq(|poly|, i requires 0 <= i < |poly| => Add(poly[i], t));
    forall i | 0 <= i < |poly|
      ensures EdgeCross(moved, i, Add(p, t)) == EdgeCross(poly, i, p)
    {
      CrossTranslation(poly[i], poly[Next(i, |poly|)], p, t);
    }
  }

  /** For pixel coordinates of magnitude at most CoordLimit the C++ test
      cannot overflow a 32-bit `int`. */
  lemma EdgeCrossFitsInt32(poly: seq<Point>, i: nat, p: Point)
    requires i < |poly|
    requires forall k :: 0 <= k < |poly| ==> SmallPoint(poly[k])
    requires SmallPoint(p)
    ensures IsInt32(EdgeCross(poly, i, p))
  {
    CrossFitsInt32(poly[i], poly[Next(i, |poly|)], p);
  }

  // ---------------------------------------------------------------------
  // A 10 x 10 square, counter-clockwise in a y-up frame

  function Square(): seq<Point>
  {
    [Point(0, 0), Point(10, 0), Point(10, 10), Point(0, 10)]
  }

  /** A point on the left side is on the boundary and counts as inside:
      the edge from (0,10) to (0,0) gives it cross value 0. */
  lemma SquareBoundaryIsInside()
    ensures EdgeCross(Square(), 3, Point(0, 5)) == 0
    ensures Inside(Square(), Point(0, 5))
  {
    SquareEdges(Point(0, 5));
  }

  lemma SquareCentreIsInside()
    ensures Inside(Square(), Point(5, 5))
  {
    SquareEdges(Point(5, 5));
  }

  /** The four edge values of the square, written out. */
  lemma SquareEdges(p: Point)
    ensures EdgeCross(Square(), 0, p) == -10 * p.y
    ensures EdgeCross(Square(), 1, p) == 10 * (p.x - 10)
    ensures EdgeCross(Square(), 2, p) == 10 * (p.y - 10)
    ensures EdgeCross(Square(), 3, p) == -10 * p.x
    ensures Inside(Square(), p) <==> 0 <= p.x <= 10 && 0 <= p.y <= 10
  {
    var sq := Square();
    if 0 <= p.x <= 10 && 0 <= p.y <= 10 {
      forall i | 0 <= i < 4 ensures EdgeCross(sq, i, p) <= 0 {
        if i == 0 {} else if i == 1 {} else if i == 2 {} else {}
      }
    }
  }

  lemma SquareCornerOutsideIsRejected()
    ensures !Inside(Square(), Point(-1, -1))
    ensures FirstOutward(Square(), Point(-1, -1), 0) == Some(0)
  {
    assert EdgeCross(Square(), 0, Point(-1, -1)) > 0;
  }

  /** The same square listed the other way round is rejected by the formula
      even at its centre: edge 0 gives 10 * 5 = 50 > 0. */
  lemma ClockwiseSquareRejectsCentre()
    ensures !Inside([Point(0, 0), Point(0, 10), Point(10, 10), Point(10, 0)], Point(5, 5))
    ensures !Inside([Point(0, 0), Point(0, 10), Point(10, 10), Point(10, 0)], Point(0, 5))
  {
    var cw := [Point(0, 0), Point(0, 10), Point(10, 10), Point(10, 0)];
    assert EdgeCross(cw, 0, Point(5, 5)) == 50;
    assert EdgeCross(cw, 1, Point(0, 5)) == 50;
  }
}
