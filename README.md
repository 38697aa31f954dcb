# Line fiducial: region filtering and overlay

A Dafny model of the geometric core of `LineDetection.cpp`. The program reads video frames and
extracts straight segments with OpenCV. It keeps the segments whose two endpoints lie inside a
convex "evidence" polygon. It then draws an overlay on the frame's edge image:

- each kept segment, stretched 64 segment lengths past both ends to show where lines converge;
- the segment itself;
- the evidence polygon outline;
- the vanishing-point box outline.

The model has these modules:

- `Geometry` (`geometry.dfy`): integer points and the edge cross value
  `(b.y - a.y)(p.x - a.x) - (b.x - a.x)(p.y - a.y)`, plus the 32-bit `int` range.
- `Containment` (`containment.dfy`): `point_in_region`.
  - `Inside` is the reference definition: no edge has the point strictly outside.
  - `FirstOutward` is the edge where the scan stops.
  - `PointInRegion` is the early-exit loop, proved equal to both.
- `Segments` (`segments.dfy`): the keep rule `Kept` (both endpoints inside) and the extension
  `Extend` (`p - 64d` to `q + 64d`, with `d = q - p`). `Retract` is its inverse.
- `Region` (`region.dfy`): the copy of the parsed configuration into the four-vertex `roi`
  array, the configured vertex count and the vanishing box. A missing entry becomes a
  `ConfigError`.
- `Overlay` (`overlay.dfy`): each `line()` call is a `DrawLine(from, to, pen)` record. The pen
  holds the BGR colour, the thickness and the line type from the source. `FrameOverlay`
  specifies a frame's draws in order. `RenderOverlay` is the drawing code with its loops, proved
  equal to `FrameOverlay`.
- `Options` (`options.dfy`): `Option` and `Result`.

Conventions:

- The polygon is a `seq<Point>` and the edge count is its length.
- An empty polygon contains every point, because the loop never runs.
- Coordinates are mathematical integers.
- `Segment(p, q)` stands for the detector's `Vec4i` `(l[0], l[1], l[2], l[3])`.

The winding convention is the code's. Interior points give cross values `<= 0` when the vertices
run counter-clockwise in a y-up frame, for example `[(0,0),(10,0),(10,10),(0,10)]`.
`SquareEdges` proves that this square contains exactly the points with `0 <= x, y <= 10`,
boundary included. The same square listed as `[(0,0),(0,10),(10,10),(10,0)]` runs the other way.
That order looks counter-clockwise only in the downward-y pixel frame. The code rejects its
centre (5,5) and its boundary point (0,5), as `ClockwiseSquareRejectsCentre` shows. Descriptions
that call that order counter-clockwise and expect (0,5) inside disagree with the code. The model
follows the code.

## Model

| member | source | states |
|---|---|---|
| `Containment.Next` | LineDetection.cpp:38-39 | the end vertex of edge i is i+1, or 0 for the last edge, and is a valid index |
| `Containment.FirstOutward` | LineDetection.cpp:36-44 | the scan stops at the least edge index with cross value > 0; it returns None exactly when every edge from the start on has cross value <= 0 |
| `Containment.PointInRegion` | LineDetection.cpp:32-45 | the early-exit loop returns true iff every edge's cross value is <= 0, returns false iff some edge's is > 0, and agrees with where the scan stops |
| `Containment.InsideIffNoOutwardEdge` | LineDetection.cpp:36-44 | "all edges non-positive" holds iff the scan finds no outward edge; otherwise the edge it stops at is outward |
| `Containment.EdgesWrap` | LineDetection.cpp:36-39 | edge i runs from vertex i to vertex i+1, and the last edge runs from vertex n-1 back to vertex 0 |
| `Containment.VertexOnOwnEdges` | LineDetection.cpp:36-40 | a vertex has cross value 0 on both edges that meet at it, so neither edge rejects it |
| `Containment.EmptyPolygonContainsAll` | LineDetection.cpp:36-44 | with zero vertices the loop never runs and every point is inside |
| `Containment.InsideTranslation` | LineDetection.cpp:38-39 | moving the polygon and the point by the same offset does not change the answer |
| `Containment.EdgeCrossFitsInt32` | LineDetection.cpp:32-40 | for coordinates of magnitude at most 16383, the cross value of any edge fits a 32-bit `int` |
| `Geometry.CrossFitsInt32` | LineDetection.cpp:38-39 | for coordinates of magnitude at most 16383, every difference, both products and the cross value fit a 32-bit `int` |
| `Containment.SquareEdges` | LineDetection.cpp:27-44 | for the counter-clockwise 10x10 square, the four edge values are as written out, and a point is inside iff 0 <= x <= 10 and 0 <= y <= 10 |
| `Containment.SquareBoundaryIsInside` | LineDetection.cpp:36-44 | (0,5) gets cross value 0 on the edge from (0,10) to (0,0) and is inside |
| `Containment.SquareCentreIsInside` | LineDetection.cpp:36-44 | (5,5) is inside the counter-clockwise square |
| `Containment.SquareCornerOutsideIsRejected` | LineDetection.cpp:36-44 | (-1,-1) is outside, rejected by edge 0 |
| `Containment.ClockwiseSquareRejectsCentre` | LineDetection.cpp:27-44 | with the square's vertices in the other order, (5,5) and (0,5) are both rejected |
| `Segments.ExtendSpan` | LineDetection.cpp:148-149 | the extension starts 64 d behind p and ends 64 d beyond q, so it spans 129 d in the same direction |
| `Segments.ExtendCollinear` | LineDetection.cpp:148-149 | both ends of the extension lie on the line through the detected segment |
| `Segments.ExtendDegenerate` | LineDetection.cpp:148-149 | a zero-length segment extends to itself |
| `Segments.ExtendExample` | LineDetection.cpp:148-149 | (0,0)-(1,0) extends to (-64,0)-(65,0) |
| `Segments.RetractExtend` | LineDetection.cpp:148-149 | the detected segment can be recovered from its extension |
| `Segments.ExtendInjective` | LineDetection.cpp:148-149 | different segments have different extensions |
| `Segments.ExtendFitsInt32` | LineDetection.cpp:148-149 | for endpoints of magnitude at most 16383, `64*(l[2]-l[0])` and all four extended coordinates fit a 32-bit `int` |
| `Segments.StraddlingSegmentDiscarded` | LineDetection.cpp:146-155 | (5,5)-(20,20) has one endpoint outside the square and is discarded; (5,5)-(6,6) is kept |
| `Region.LoadRegion` | LineDetection.cpp:67-84 | loading succeeds iff there are at least four evidence entries of two coordinates each and two entries in each limit. The evidence error comes first. On success `roi` holds exactly the first four vertices, the vertex count is the number of entries, and the box takes the first two limits |
| `Region.ExtraVerticesIgnored` | LineDetection.cpp:67-73 | evidence entries after the fourth do not change the copied polygon |
| `Overlay.RenderOverlay` | LineDetection.cpp:143-167 | the drawing loops emit exactly `FrameOverlay`: segment draws, then the polygon outline, then the box |
| `Overlay.KeptSegmentsAppend` | LineDetection.cpp:143-146 | the kept segments of a concatenation are the kept segments of each part, in order |
| `Overlay.KeptSegmentsMembers` | LineDetection.cpp:143-146 | a segment is among the kept ones iff it is an input segment with both endpoints inside; there are no more of them than inputs |
| `Overlay.SegmentDrawsArePairs` | LineDetection.cpp:143-156 | the segment loop draws one pair per kept segment in input order, and nothing for discarded segments |
| `Overlay.PairDrawsAt` | LineDetection.cpp:145-152 | draw 2k is the white 4-connected extension of the k-th kept segment; draw 2k+1 is that segment in red, anti-aliased |
| `Overlay.PairDrawsLength` | LineDetection.cpp:143-152 | there are exactly two draws per kept segment |
| `Overlay.SegmentDrawsFromKept` | LineDetection.cpp:146-155 | every segment draw belongs to an input segment whose two endpoints are inside the polygon |
| `Overlay.NothingKeptNothingDrawn` | LineDetection.cpp:153-155 | if no segment is kept, the segment loop draws nothing |
| `Overlay.RoiOutlineClosed` | LineDetection.cpp:158-161 | the polygon outline has one yellow edge per vertex, starting at that vertex; each edge ends where the next starts, and the last returns to the first vertex |
| `Overlay.BoxOutlineClosed` | LineDetection.cpp:163-167 | the box outline has four axis-parallel edges with corners drawn from the limits, forming a closed loop |
| `Overlay.FrameOverlayLayout` | LineDetection.cpp:143-167 | a frame has 2k + n + 4 draws, where k is the number of kept segments: the pairs, then the n polygon edges, then the 4 box edges |
| `Overlay.FiveSegmentScenario` | LineDetection.cpp:143-167 | five segments, three inside the square: exactly those three are kept and the frame has 14 draws |
| `Overlay.OutlineAsWritten` | LineDetection.cpp:159-161 | the loop bounded by the configured count fails (None) iff some iteration i < count reads `roi[i]` or `roi[(i+1) % count]` at an index past the copied vertices |
| `Overlay.OutlineAsWrittenOverruns` | LineDetection.cpp:159-161 | every well-formed configuration with more than four evidence vertices loads, and its outline loop as written reads `roi[4]`, past `roi[3]`, at iterations 3 and 4 |
| `Overlay.OutlineAsWrittenAgrees` | LineDetection.cpp:159-161 | with exactly four configured vertices, the loop as written draws the same edges as the corrected outline |

## Findings

| source | as written | input that shows it | evidently intended | confidence | as-written member | corrected member |
|---|---|---|---|---|---|---|
| LineDetection.cpp:67-73, 159-161 | The outline loop runs to `num_roi_vertices`, which is the configured entry count, but only four vertices are copied into `roi[4][2]`. | An `evidence_roi` with five well-formed vertices: loading succeeds, then the loop reads `roi[4]` out of bounds (undefined behaviour) | the outline closes over the same vertices the containment test uses | medium; not executed | `Overlay.OutlineAsWrittenOverruns` | `Overlay.RoiOutlineClosed` |

`RenderOverlay` and `FrameOverlay` draw the outline over the copied vertices (`region.roi`). The
containment test uses the same vertices.

## Left out

- Configuration parsing (`YAML::LoadFile`, `config[...]`) is a foreign library. The parsed
  entries are given as integer sequences. A missing or short entry is modelled as a
  `ConfigError` result, where the program instead ends with an uncaught exception. Entries that
  are not integers (a failing `.as<int>()`) cannot occur in this representation.
- The unused `num_vanish_vertices` (line 76) is not modelled.
- Video input and the stream loop are left out. This covers `VideoCapture`, `>>`, the
  empty-first-frame exit and the `while (!RawImage.empty())` loop (lines 97-110). Each pass reads
  the next frame into `src` (line 110), while the loop condition tests `RawImage`, which is read
  only once, at line 99. So the condition never becomes false: the loop ends only if an OpenCV
  call fails on an empty `src`. The first frame, read into `RawImage`, is never processed.
- The command-line check (`argc < 2`, exit code 1) and the default file names are not modelled.
- `Canny`, `cvtColor` and `HoughLinesP` are OpenCV algorithms. The detected segments are an
  input of `RenderOverlay`.
- The image buffer `cdst` and the pixel rasterisation inside `line()` are not modelled. A frame's
  overlay is the ordered list of `line()` calls with their arguments.
- The `#if 0` `HoughLines` branch (lines 124-139) is dead code over floating point.
- Window calls (`namedWindow`, `startWindowThread`, `imshow`) and console output (`help`,
  `cout`, `printf`) are not modelled.
- Integer width: coordinates are unbounded integers, so 32-bit signed overflow (undefined in C++)
  is not modelled. `EdgeCrossFitsInt32` and `ExtendFitsInt32` give a coordinate range in which
  the source's arithmetic cannot overflow.
