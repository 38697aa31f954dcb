/**
 * The region configuration: the evidence polygon copied from the
 * `evidence_roi` entries and the vanishing-point box from
 * `vanish_roi.xlim` / `vanish_roi.ylim`. The parsed configuration is given
 * as plain integer sequences; a missing entry is the error the YAML
 * library raises when the program reads it.
 */
module Region {
  import opened Options
  import opened Geometry

  /** The number of evidence vertices the program copies into `roi[4][2]`. */
  const RoiSize: nat := 4

  /** `vanish_xlim[0..1]` and `vanish_ylim[0..1]`, used only for drawing. */
  datatype VanishBox = VanishBox(x0: int, x1: int, y0: int, y1: int)

  /**
   * The loaded region: the copied vertices, the vertex count the program
   * reads from the configuration (`num_roi_vertices`), and the box.
   */
  datatype Region = Region(roi: seq<Point>, numRoiVertices: nat, box: VanishBox)

  datatype ConfigError = EvidenceRoiIncomplete | VanishRoiIncomplete

  /** The first four entries exist and each holds an x and a y. */
  predicate EvidenceComplete(evidence: seq<seq<int>>)
  {
    |evidence| >= RoiSize && forall i :: 0 <= i < RoiSize ==> |evidence[i]| >= 2
  }

  predicate LimitsComplete(xlim: seq<int>, ylim: seq<int>)
  {
    |xlim| >= 2 && |ylim| >= 2
  }

  /**
   * The configuration copy: the first four evidence entries become the
   * polygon, the count of entries is kept as given, and the box takes the
   * first two entries of each limit. Evidence is read before the limits,
   * so its error is the one reported when both are incomplete.
   */
  function LoadRegion(evidence: seq<seq<int>>, xlim: seq<int>, ylim: seq<int>): (r: Result<Region, ConfigError>)
    ensures r.Ok? <==> EvidenceComplete(evidence) && LimitsComplete(xlim, ylim)
    ensures r == Err(EvidenceRoiIncomplete) <==> !EvidenceComplete(evidence)
    ensures r.Ok? ==> |r.value.roi| == RoiSize && r.value.numRoiVertices == |evidence|
    ensures r.Ok? ==> forall i :: 0 <= i < RoiSize ==> r.value.roi[i] == Point(evidence[i][0], evidence[i][1])
    ensures r.Ok? ==> r.value.box == VanishBox(xlim[0], xlim[1], ylim[0], ylim[1])
  {
    if !EvidenceComplete(evidence) then Err(EvidenceRoiIncomplete)
    else if !LimitsComplete(xlim, ylim) then Err(VanishRoiIncomplete)
    else
      var roi := seq(RoiSize, i requires 0 <= i < RoiSize => Point(evidence[i][0], evidence[i][1]));
      Ok(Region(roi, |evidence|, VanishBox(xlim[0], xlim[1], ylim[0], ylim[1])))
  }

  /** Vertices past the fourth are not copied: they never reach the polygon. */
  lemma {:induction false} ExtraVerticesIgnored(evidence: seq<seq<int>>, extra: seq<seq<int>>, xlim: seq<int>, ylim: seq<int>)
    requires EvidenceComplete(evidence) && LimitsComplete(xlim, ylim)
    ensures LoadRegion(evidence + extra, xlim, ylim).Ok?
    ensures LoadRegion(evidence + extra, xlim, ylim).value.roi == LoadRegion(evidence, xlim, ylim).value.roi
  {
    var a := LoadRegion(evidence + extra, xlim, ylim).value.roi;
    var b := LoadRegion(evidence, xlim, ylim).value.roi;
    assert forall i :: 0 <= i < RoiSize ==> (evidence + extra)[i] == evidence[i];
    assert forall i :: 0 <= i < RoiSize ==> a[i] == b[i];
  }
}
