/**
 * Detected segments, the keep rule (both endpoints in the evidence
 * region) and the extension drawn to show convergence toward a vanishing
 * point.
 */
module Segments {
  import opened Geometry
  import opened Containment

  /** A `Vec4i` from the line detector: (l[0], l[1]) is p, (l[2], l[3]) is q. */
  datatype Segment = Segment(p: Point, q: Point)

  /** How many segment lengths the extension reaches past each endpoint. */
  const Reach: int := 64

  function Direction(s: Segment): Point
  {
    Sub(s.q, s.p)
  }

  /** The extended line: from p - 64 d to q + 64 d, where d = q - p. */
  function Extend(s: Segment): Segment
  {
    Segment(Point(s.p.x - 64 * (s.q.x - s.p.x), s.p.y - 64 * (s.q.y - s.p.y)),
            Point(s.q.x + 64 * (s.q.x - s.p.x), s.q.y + 64 * (s.q.y - s.p.y)))
  }

  /** A segment is kept iff both of its endpoints pass the containment test. */
  predicate Kept(roi: seq<Point>, s: Segment)
  {
    Inside(roi, s.p) && Inside(roi, s.q)
  }

  /**
   * The extension reaches 64 segment lengths behind p and 64 beyond q, so
   * it spans 129 times the original, in the same direction.
   */
  lemma ExtendSpan(s: Segment)
    ensures Sub(s.p, Extend(s).p) == Scale(Reach, Direction(s))
    ensures Sub(Extend(s).q, s.q) == Scale(Reach, Direction(s))
    ensures Direction(Extend(s)) == Scale(2 * Reach + 1, Direction(s))
  {
  }

  /** Both ends of the extension lie on the line through the original. */
  lemma ExtendCollinear(s: Segment)
    ensures Cross(s.p, s.q, Extend(s).p) == 0
    ensures Cross(s.p, s.q, Extend(s).q) == 0
  {
    var d := Direction(s);
    assert d.y * (-64 * d.x) == d.x * (-64 * d.y);
    assert d.y * (65 * d.x) == d.x * (65 * d.y);
  }

  /** A zero-length segment is extended to itself. */
  lemma ExtendDegenerate(s: Segment)
    requires s.p == s.q
    ensures Extend(s) == s
  {
  }

  /** The worked example: (0,0)-(1,0) becomes (-64,0)-(65,0). */
  lemma ExtendExample()
    ensures Extend(Segment(Point(0, 0), Point(1, 0))) == Segment(Point(-64, 0), Point(65, 0))
  {
  }

  /**
   * Recovers the detected segment from its extension: the direction is the
   * extension's span divided by 129, and the endpoints sit 64 steps inside.
   */
  function Retract(e: Segment): (s: Segment)
  {
    var d := Point((e.q.x - e.p.x) / (2 * Reach + 1), (e.q.y - e.p.y) / (2 * Reach + 1));
    Segment(Add(e.p, Scale(Reach, d)), Sub(e.q, Scale(Reach, d)))
  }

  /** Extension loses nothing: retracting it gives back the detected segment. */
  lemma {:induction false} RetractExtend(s: Segment)
    ensures Retract(Extend(s)) == s
  {
    var d := Direction(s);
    var e := Extend(s);
    ExtendSpan(s);
    DivExact(d.x);
    DivExact(d.y);
  }

  lemma DivExact(a: int)
    ensures (129 * a) / 129 == a
  {
  }

  /** Two segments with the same extension are the same segment. */
  lemma ExtendInjective(s: Segment, t: Segment)
    requires Extend(s) == Extend(t)
    ensures s == t
  {
    RetractExtend(s);
    RetractExtend(t);
  }

  /** For endpoints of magnitude at most CoordLimit the C++ arithmetic of
      the extension cannot overflow a 32-bit `int`. */
  lemma ExtendFitsInt32(s: Segment)
    requires SmallPoint(s.p) && SmallPoint(s.q)
    ensures IsInt32(Reach * (s.q.x - s.p.x)) && IsInt32(Reach * (s.q.y - s.p.y))
    ensures IsInt32(Extend(s).p.x) && IsInt32(Extend(s).p.y)
    ensures IsInt32(Extend(s).q.x) && IsInt32(Extend(s).q.y)
  {
  }

  /** One endpoint inside and one outside: the segment is discarded. */
  lemma StraddlingSegmentDiscarded()
    ensures !Kept(Square(), Segment(Point(5, 5), Point(20, 20)))
    ensures Kept(Square(), Segment(Point(5, 5), Point(6, 6)))
  {
    SquareEdges(Point(5, 5));
    SquareEdges(Point(20, 20));
    SquareEdges(Point(6, 6));
  }
}
