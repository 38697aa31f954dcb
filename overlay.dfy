/**
 * The per-frame overlay: the ordered list of `line()` calls the program
 * makes on the edge image. Each call is a record of its two endpoints and
 * its pen; the rasterisation itself belongs to OpenCV.
 */
module Overlay {
  import opened Options
  import opened Geometry
  import opened Containment
  import opened Segments
  import opened Region

  /** Line type 4 (4-connected) or CV_AA (anti-aliased). */
  datatype LineType = FourConnected | AntiAliased

  /** A `Scalar(b, g, r)` colour with a thickness and a line type. */
  datatype Pen = Pen(blue: int, green: int, red: int, thickness: nat, lineType: LineType)

  const ExtendedPen: Pen := Pen(255, 255, 255, 3, FourConnected)
  const DetectedPen: Pen := Pen(0, 0, 255, 3, AntiAliased)
  const EvidencePen: Pen := Pen(0, 255, 255, 3, AntiAliased)
  const VanishPen: Pen := Pen(0, 255, 0, 3, AntiAliased)

  /** One `line(cdst, from, to, colour, thickness, lineType)` call. */
  datatype Draw = DrawLine(from: Point, to: Point, pen: Pen)

  // ---------------------------------------------------------------------
  // Specification of the overlay

  /** What a kept segment draws: its extension, then the segment itself. */
  function PairFor(s: Segment): seq<Draw>
  {
    [DrawLine(Extend(s).p, Extend(s).q, ExtendedPen), DrawLine(s.p, s.q, DetectedPen)]
  }

  /** The draws of the detected-segment loop, segment by segment in input order. */
  function SegmentDraws(roi: seq<Point>, lines: seq<Segment>): seq<Draw>
    decreases |lines|
  {
    if lines == [] then []
    else
      var last := lines[|lines| - 1];
      SegmentDraws(roi, lines[..|lines| - 1]) + (if Kept(roi, last) then PairFor(last) else [])
  }

  /** The kept segments, in input order. */
  function KeptSegments(roi: seq<Point>, lines: seq<Segment>): seq<Segment>
    decreases |lines|
  {
    if lines == [] then []
    else
      var last := lines[|lines| - 1];
      KeptSegments(roi, lines[..|lines| - 1]) + (if Kept(roi, last) then [last] else [])
  }

  /** Two draws per segment, in order. */
  function PairDraws(segments: seq<Segment>): seq<Draw>
    decreases |segments|
  {
    if segments == [] then []
    else PairDraws(segments[..|segments| - 1]) + PairFor(segments[|segments| - 1])
  }

  /** The evidence polygon outline: edge i from roi[i] to roi[(i+1) % n]. */
  function RoiOutline(roi: seq<Point>): seq<Draw>
  {
    seq(|roi|, i requires 0 <= i < |roi| => DrawLine(roi[i], roi[Next(i, |roi|)], EvidencePen))
  }

  /** The vanishing-point box outline, four edges. */
  function BoxOutline(b: VanishBox): seq<Draw>
  {
    [ DrawLine(Point(b.x0, b.y0), Point(b.x0, b.y1), VanishPen),
      DrawLine(Point(b.x0, b.y1), Point(b.x1, b.y1), VanishPen),
      DrawLine(Point(b.x1, b.y1), Point(b.x1, b.y0), VanishPen),
      DrawLine(Point(b.x1, b.y0), Point(b.x0, b.y0), VanishPen) ]
  }

  /** Everything one frame draws, in z-order. */
  function FrameOverlay(region: Region, lines: seq<Segment>): seq<Draw>
  {
    SegmentDraws(region.roi, lines) + RoiOutline(region.roi) + BoxOutline(region.box)
  }

  // ---------------------------------------------------------------------
  // The drawing code

  /**
   * The frame's drawing code: the detected-segment loop (each segment
   * checked endpoint by endpoint, kept ones drawn extended and then as
   * detected), then the evidence outline, then the box.
   */
  method RenderOverlay(region: Region, lines: seq<Segment>) returns (draws: seq<Draw>)
    ensures draws == FrameOverlay(region, lines)
  {
    var roi := region.roi;
    draws := [];
    for i := 0 to |lines|
      invariant draws == SegmentDraws(roi, lines[..i])
    {
      var l := lines[i];
      var keep := PointInRegion(roi, l.p.x, l.p.y);
      if keep {
        keep := PointInRegion(roi, l.q.x, l.q.y);
      }
      assert lines[..i + 1][..i] == lines[..i];
      if keep {
        var ext1 := Point(l.p.x - 64 * (l.q.x - l.p.x), l.p.y - 64 * (l.q.y - l.p.y));
        var ext2 := Point(l.q.x + 64 * (l.q.x - l.p.x), l.q.y + 64 * (l.q.y - l.p.y));
        draws := draws + [DrawLine(ext1, ext2, ExtendedPen)];
        draws := draws + [DrawLine(l.p, l.q, DetectedPen)];
      }
    }
    assert lines[..|lines|] == lines;

    var n := |roi|;
    for i := 0 to n
      invariant draws == SegmentDraws(roi, lines) + RoiOutline(roi)[..i]
    {
      draws := draws + [DrawLine(roi[i], roi[(i + 1) % n], EvidencePen)];
    }

    var b := region.box;
    draws := draws + [DrawLine(Point(b.x0, b.y0), Point(b.x0, b.y1), VanishPen)];
    draws := draws + [DrawLine(Point(b.x0, b.y1), Point(b.x1, b.y1), VanishPen)];
    draws := draws + [DrawLine(Point(b.x1, b.y1), Point(b.x1, b.y0), VanishPen)];
    draws := draws + [DrawLine(Point(b.x1, b.y0), Point(b.x0, b.y0), VanishPen)];
  }

  // ---------------------------------------------------------------------
  // Properties of the overlay

  /** Filtering respects concatenation, so kept segments keep their input order. */
  lemma {:induction false} KeptSegmentsAppend(roi: seq<Point>, a: seq<Segment>, b: seq<Segment>)
    ensures KeptSegments(roi, a + b) == KeptSegments(roi, a) + KeptSegments(roi, b)
    decreases |b|
  {
    if b != [] {
      var b' := b[..|b| - 1];
      assert (a + b)[..|a + b| - 1] == a + b';
      KeptSegmentsAppend(roi, a, b');
    } else {
      assert a + b == a;
    }
  }

  /** The kept segments are exactly the input segments that pass the keep rule. */
  lemma {:induction false} KeptSegmentsMembers(roi: seq<Point>, lines: seq<Segment>)
    ensures |KeptSegments(roi, lines)| <= |lines|
    ensures forall s :: s in KeptSegments(roi, lines) <==> s in lines && Kept(roi, s)
    decreases |lines|
  {
    if lines != [] {
      var init := lines[..|lines| - 1];
      KeptSegmentsMembers(roi, init);
      assert lines == init + [lines[|lines| - 1]];
    }
  }

  /** The segment loop draws exactly two primitives per kept segment, in
      input order, and nothing for a discarded one. */
  lemma {:induction false} SegmentDrawsArePairs(roi: seq<Point>, lines: seq<Segment>)
    ensures SegmentDraws(roi, lines) == PairDraws(KeptSegments(roi, lines))
    decreases |lines|
  {
    if lines != [] {
      var init := lines[..|lines| - 1];
      var last := lines[|lines| - 1];
      SegmentDrawsArePairs(roi, init);
      var ks := KeptSegments(roi, init);
      if Kept(roi, last) {
        assert KeptSegments(roi, lines) == ks + [last];
        assert (ks + [last])[..|ks + [last]| - 1] == ks;
        assert PairDraws(ks + [last]) == PairDraws(ks) + PairFor(last);
      } else {
        assert KeptSegments(roi, lines) == ks;
      }
    }
  }

  /** Draw 2k is the extension of the k-th kept segment and draw 2k+1 the
      segment itself. */
  lemma {:induction false} PairDrawsAt(segments: seq<Segment>, k: nat)
    requires k < |segments|
    ensures |PairDraws(segments)| == 2 * |segments|
    ensures PairDraws(segments)[2 * k] == DrawLine(Extend(segments[k]).p, Extend(segments[k]).q, ExtendedPen)
    ensures PairDraws(segments)[2 * k + 1] == DrawLine(segments[k].p, segments[k].q, DetectedPen)
    decreases |segments|
  {
    var init := segments[..|segments| - 1];
    if k < |init| {
      PairDrawsAt(init, k);
    } else {
      PairDrawsLength(init);
    }
  }

  lemma {:induction false} PairDrawsLength(segments: seq<Segment>)
    ensures |PairDraws(segments)| == 2 * |segments|
    decreases |segments|
  {
    if segments != [] {
      PairDrawsLength(segments[..|segments| - 1]);
    }
  }

  /** Every segment draw comes from a kept input segment: a detected line is
      drawn only when both of its endpoints are inside the evidence polygon. */
  lemma {:induction false} SegmentDrawsFromKept(roi: seq<Point>, lines: seq<Segment>)
    ensures forall d :: d in SegmentDraws(roi, lines) ==>
      exists s :: s in lines && Kept(roi, s) && d in PairFor(s)
    decreases |lines|
  {
    if lines != [] {
      var init := lines[..|lines| - 1];
      SegmentDrawsFromKept(roi, init);
      assert forall s :: s in init ==> s in lines;
    }
  }

  /** A frame in which no segment is kept draws no segment at all. */
  lemma {:induction false} NothingKeptNothingDrawn(roi: seq<Point>, lines: seq<Segment>)
    requires forall s :: s in lines ==> !Kept(roi, s)
    ensures SegmentDraws(roi, lines) == []
    decreases |lines|
  {
    if lines != [] {
      NothingKeptNothingDrawn(roi, lines[..|lines| - 1]);
    }
  }

  /** The evidence outline is a closed loop through the vertices in order. */
  lemma RoiOutlineClosed(roi: seq<Point>)
    requires |roi| >= 1
    ensures |RoiOutline(roi)| == |roi|
    ensures forall i :: 0 <= i < |roi| ==> RoiOutline(roi)[i].from == roi[i] && RoiOutline(roi)[i].pen == EvidencePen
    ensures forall i :: 0 <= i < |roi| - 1 ==> RoiOutline(roi)[i].to == RoiOutline(roi)[i + 1].from
    ensures RoiOutline(roi)[|roi| - 1].to == RoiOutline(roi)[0].from
  {
  }

  /** The box outline is a closed rectangle of axis-parallel edges through
      (x0,y0), (x0,y1), (x1,y1), (x1,y0). */
  lemma BoxOutlineClosed(b: VanishBox)
    ensures |BoxOutline(b)| == 4
    ensures forall i :: 0 <= i < 3 ==> BoxOutline(b)[i].to == BoxOutline(b)[i + 1].from
    ensures BoxOutline(b)[3].to == BoxOutline(b)[0].from
    ensures forall i :: 0 <= i < 4 ==>
      BoxOutline(b)[i].from.x == BoxOutline(b)[i].to.x || BoxOutline(b)[i].from.y == BoxOutline(b)[i].to.y
    ensures forall i :: 0 <= i < 4 ==> BoxOutline(b)[i].from.x in {b.x0, b.x1} && BoxOutline(b)[i].from.y in {b.y0, b.y1}
  {
  }

  /** The frame is: 2 draws per kept segment, then n polygon edges, then 4
      box edges. */
  lemma FrameOverlayLayout(region: Region, lines: seq<Segment>)
    ensures var k := |KeptSegments(region.roi, lines)|;
      var f := FrameOverlay(region, lines);
      var n := |region.roi|;
      && |f| == 2 * k + n + 4
      && f[..2 * k] == PairDraws(KeptSegments(region.roi, lines))
      && f[2 * k..2 * k + n] == RoiOutline(region.roi)
      && f[2 * k + n..] == BoxOutline(region.box)
  {
    SegmentDrawsArePairs(region.roi, lines);
    PairDrawsLength(KeptSegments(region.roi, lines));
  }

  /** Five detected segments against the square, three of them inside:
      three pairs, four polygon edges and four box edges, fourteen draws. */
  lemma FiveSegmentScenario(box: VanishBox)
    ensures var lines := [ Segment(Point(1, 1), Point(9, 9)), Segment(Point(5, 5), Point(20, 20)),
                           Segment(Point(0, 5), Point(10, 5)), Segment(Point(-3, 4), Point(-1, 8)),
                           Segment(Point(2, 8), Point(8, 2)) ];
      var region := Region(Square(), 4, box);
      && KeptSegments(Square(), lines) == [lines[0], lines[2], lines[4]]
      && |FrameOverlay(region, lines)| == 14
  {
    var lines := [ Segment(Point(1, 1), Point(9, 9)), Segment(Point(5, 5), Point(20, 20)),
                   Segment(Point(0, 5), Point(10, 5)), Segment(Point(-3, 4), Point(-1, 8)),
                   Segment(Point(2, 8), Point(8, 2)) ];
    var kept := [true, false, true, false, true];
    forall k | 0 <= k < 5 ensures Kept(Square(), lines[k]) == kept[k] {
      SquareEdges(lines[k].p);
      SquareEdges(lines[k].q);
    }
    assert KeptSegments(Square(), lines[..1]) == [lines[0]] by {
      assert lines[..1][..0] == [];
    }
    assert KeptSegments(Square(), lines[..2]) == [lines[0]] by {
      assert lines[..2][..1] == lines[..1];
    }
    assert KeptSegments(Square(), lines[..3]) == [lines[0], lines[2]] by {
      assert lines[..3][..2] == lines[..2];
    }
    assert KeptSegments(Square(), lines[..4]) == [lines[0], lines[2]] by {
      assert lines[..4][..3] == lines[..3];
    }
    assert lines[..5][..4] == lines[..4] && lines[..5] == lines;
    FrameOverlayLayout(Region(Square(), 4, box), lines);
  }

  // ---------------------------------------------------------------------
  // The outline loop as written: its bound is the configuration's vertex
  // count, while only four vertices were copied.

  /** Iteration i of an n-step outline loop reads a vertex index that is
      not among the copied vertices: roi[i] or roi[(i+1) % n]. */
  predicate ReadsPast(roi: seq<Point>, n: nat, i: nat)
  {
    i < n && (i >= |roi| || Next(i, n) >= |roi|)
  }

  /** The outline loop bounded by the configured count: None when some
      iteration would read past the copied vertices. */
  function OutlineAsWritten(roi: seq<Point>, numRoiVertices: nat): (r: Option<seq<Draw>>)
    ensures r.None? <==> exists i: nat :: ReadsPast(roi, numRoiVertices, i)
  {
    if numRoiVertices > |roi| then
      assert ReadsPast(roi, numRoiVertices, |roi|);
      None
    else
      assert forall i: nat :: !ReadsPast(roi, numRoiVertices, i);
      Some(seq(numRoiVertices, i requires 0 <= i < numRoiVertices =>
        DrawLine(roi[i], roi[Next(i, numRoiVertices)], EvidencePen)))
  }

  /** A configuration with more than four evidence vertices loads, and its
      outline loop then reads roi[4], past the end of the copied array,
      first at iteration 3 (the end of edge 3) and again at iteration 4. */
  lemma OutlineAsWrittenOverruns(evidence: seq<seq<int>>, xlim: seq<int>, ylim: seq<int>)
    requires EvidenceComplete(evidence) && LimitsComplete(xlim, ylim)
    requires |evidence| > RoiSize
    ensures LoadRegion(evidence, xlim, ylim).Ok?
    ensures var region := LoadRegion(evidence, xlim, ylim).value;
      && OutlineAsWritten(region.roi, region.numRoiVertices) == None
      && ReadsPast(region.roi, region.numRoiVertices, RoiSize - 1)
      && ReadsPast(region.roi, region.numRoiVertices, RoiSize)
  {
  }

  /** With exactly four configured vertices the loop as written and the
      corrected outline draw the same edges. */
  lemma OutlineAsWrittenAgrees(evidence: seq<seq<int>>, xlim: seq<int>, ylim: seq<int>)
    requires EvidenceComplete(evidence) && LimitsComplete(xlim, ylim)
    requires |evidence| == RoiSize
    ensures var region := LoadRegion(evidence, xlim, ylim).value;
      OutlineAsWritten(region.roi, region.numRoiVertices) == Some(RoiOutline(region.roi))
  {
  }
}
