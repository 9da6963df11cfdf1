/** Areas of interest and the classification of a gaze point against them
    (`get_aoi_label` in add_aoi_labels.py).
 */
module Aoi {
  import opened Outcomes
  import opened Seqs
  import opened Gaze

  /** Display size in pixels; both bounds are inclusive. */
  const ScreenWidth: real := 1920.0
  const ScreenHeight: real := 1080.0

  /** The label of an on-screen point that lies in no region. */
  const OutsideLabel: string := "outside"

  /** One row of the region table: a rectangle of one stimulus version.
      `startX`/`startY`/`width`/`height` are the annotation's values as read;
      `endX`/`endY` are the truncated sums computed when the table is built. */
  datatype Region = Region(
    stimulusId: int,
    version: string,
    startX: real, startY: real,
    width: real, height: real,
    endX: int, endY: int,
    regionType: string)

  predicate OnScreen(x: real, y: real) {
    0.0 <= x <= ScreenWidth && 0.0 <= y <= ScreenHeight
  }

  /** The rectangle of `r` contains the point; every edge belongs to it. */
  predicate Contains(r: Region, x: real, y: real) {
    r.startX <= x <= r.endX as real && r.startY <= y <= r.endY as real
  }

  /** Labels the point (x, y): `None` off screen, "outside" when no region
      contains it, the region's label when exactly one does, and a failure
      when several do (pandas `.item()` on more than one label). */
  function ClassifyPoint(x: real, y: real, regions: seq<Region>): (r: Result<Option<string>>)
    ensures !OnScreen(x, y) ==> r == Success(None)
    ensures OnScreen(x, y) && (forall i :: 0 <= i < |regions| ==> !Contains(regions[i], x, y)) ==>
              r == Success(Some(OutsideLabel))
    ensures forall i :: 0 <= i < |regions| && OnScreen(x, y) && Contains(regions[i], x, y) &&
                        (forall j :: 0 <= j < |regions| && j != i ==> !Contains(regions[j], x, y)) ==>
              r == Success(Some(regions[i].regionType))
    ensures r.Failure? <==>
              OnScreen(x, y) &&
              exists i, j :: 0 <= i < j < |regions| && Contains(regions[i], x, y) && Contains(regions[j], x, y)
    ensures r.Failure? ==> r.error == OverlappingRegions
    ensures r.Success? && r.value.Some? ==>
              r.value.value == OutsideLabel ||
              exists i :: 0 <= i < |regions| && Contains(regions[i], x, y) && regions[i].regionType == r.value.value
  {
    if x < 0.0 || x > ScreenWidth then Success(None)
    else if y < 0.0 || y > ScreenHeight then Success(None)
    else
      var inside := (g: Region) => Contains(g, x, y);
      var hits := Select(regions, inside);
      SelectCases(regions, inside);
      if |hits| == 0 then Success(Some(OutsideLabel))
      else if |hits| == 1 then Success(Some(hits[0].regionType))
      else Failure(OverlappingRegions)
  }

  /** `get_aoi_label(row, regions)`: classifies the combined gaze point of a
      sample. A sample with no positive reading on either axis sits at -1 on
      that axis, off screen, and is never labelled. */
  function AoiLabel(s: Sample, regions: seq<Region>): (r: Result<Option<string>>)
    ensures (!Positive(s.leftX) && !Positive(s.rightX)) || (!Positive(s.leftY) && !Positive(s.rightY)) ==>
              r == Success(None)
    ensures !OnScreen(GazeX(s), GazeY(s)) ==> r == Success(None)
    ensures OnScreen(GazeX(s), GazeY(s)) && (forall i :: 0 <= i < |regions| ==> !Contains(regions[i], GazeX(s), GazeY(s))) ==>
              r == Success(Some(OutsideLabel))
    ensures forall i :: 0 <= i < |regions| && OnScreen(GazeX(s), GazeY(s)) && Contains(regions[i], GazeX(s), GazeY(s)) &&
                        (forall j :: 0 <= j < |regions| && j != i ==> !Contains(regions[j], GazeX(s), GazeY(s))) ==>
              r == Success(Some(regions[i].regionType))
    ensures r.Failure? <==>
              var (x, y) := (GazeX(s), GazeY(s));
              OnScreen(x, y) &&
              exists i, j :: 0 <= i < j < |regions| && Contains(regions[i], x, y) && Contains(regions[j], x, y)
    ensures r.Success? && r.value.Some? ==>
              && (Positive(s.leftX) || Positive(s.rightX))
              && (Positive(s.leftY) || Positive(s.rightY))
              && (r.value.value == OutsideLabel ||
                  exists i :: 0 <= i < |regions| && Contains(regions[i], GazeX(s), GazeY(s)) &&
                              regions[i].regionType == r.value.value)
  {
    ClassifyPoint(GazeX(s), GazeY(s), regions)
  }

  /** With no regions for the stimulus, every on-screen sample is labelled
      "outside" and never left unlabelled. */
  lemma NoRegionsOutside(s: Sample)
    ensures OnScreen(GazeX(s), GazeY(s)) <==> AoiLabel(s, []) == Success(Some(OutsideLabel))
    ensures !OnScreen(GazeX(s), GazeY(s)) <==> AoiLabel(s, []) == Success(None)
  {
  }

  /** Every point of a region's boundary, corners included, is labelled with
      that region when it is on screen and no other region contains it. */
  lemma EdgesInclusive(g: Region, x: real, y: real, others: seq<Region>)
    requires g.startX <= x <= g.endX as real && g.startY <= y <= g.endY as real
    requires x == g.startX || x == g.endX as real || y == g.startY || y == g.endY as real
    requires OnScreen(x, y)
    requires forall j :: 0 <= j < |others| ==> !Contains(others[j], x, y)
    ensures ClassifyPoint(x, y, [g] + others) == Success(Some(g.regionType))
  {
    var rs := [g] + others;
    assert forall j :: 0 <= j < |rs| && j != 0 ==> !Contains(rs[j], x, y) by {
      forall j | 0 <= j < |rs| && j != 0 ensures !Contains(rs[j], x, y) {
        assert rs[j] == others[j - 1];
      }
    }
  }

  /** The rectangles of `a` and `b` are separated along one of the axes. */
  predicate Disjoint(a: Region, b: Region) {
    || (a.endX as real) < b.startX || (b.endX as real) < a.startX
    || (a.endY as real) < b.startY || (b.endY as real) < a.startY
  }

  /** Pairwise disjoint rectangles never make the classification fail, at
      any point. */
  lemma DisjointRegionsNeverFail(x: real, y: real, regions: seq<Region>)
    requires forall i, j :: 0 <= i < j < |regions| ==> Disjoint(regions[i], regions[j])
    ensures ClassifyPoint(x, y, regions).Success?
  {
    forall i, j | 0 <= i < j < |regions|
      ensures !(Contains(regions[i], x, y) && Contains(regions[j], x, y))
    {
      assert Disjoint(regions[i], regions[j]);
    }
  }
}
