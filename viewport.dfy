/**
 * The map frame `plot_map_with_contextily` computes from the projected
 * points: main2.py squares the bounding box and pads it by a tenth of its
 * larger side; main.py pads each axis by a tenth of its own extent.
 */
module Viewport {
  import opened Wrappers

  /** A point already projected to planar (web-mercator) units. */
  datatype Point = Point(x: real, y: real)

  datatype Box = Box(minx: real, miny: real, maxx: real, maxy: real)

  /** The margin fraction both scripts use (`* 0.1`). */
  const BufferFraction: real := 0.1

  function Max(a: real, b: real): real {
    if a > b then a else b
  }

  function Width(b: Box): real { b.maxx - b.minx }
  function Height(b: Box): real { b.maxy - b.miny }

  predicate Ordered(b: Box) {
    b.minx <= b.maxx && b.miny <= b.maxy
  }

  predicate Contains(b: Box, p: Point) {
    b.minx <= p.x <= b.maxx && b.miny <= p.y <= b.maxy
  }

  predicate StrictlyContains(b: Box, p: Point) {
    b.minx < p.x < b.maxx && b.miny < p.y < b.maxy
  }

  /** `b` lies inside `v`, edges allowed to touch. */
  predicate Encloses(v: Box, b: Box) {
    v.minx <= b.minx && b.maxx <= v.maxx && v.miny <= b.miny && b.maxy <= v.maxy
  }

  predicate SameCentre(v: Box, b: Box) {
    v.minx + v.maxx == b.minx + b.maxx && v.miny + v.maxy == b.miny + b.maxy
  }

  /** `total_bounds`: the smallest box holding every point. */
  function TotalBounds(pts: seq<Point>): (b: Box)
    requires |pts| > 0
    ensures Ordered(b)
    ensures forall i :: 0 <= i < |pts| ==> Contains(b, pts[i])
    ensures exists i :: 0 <= i < |pts| && pts[i].x == b.minx
    ensures exists i :: 0 <= i < |pts| && pts[i].x == b.maxx
    ensures exists i :: 0 <= i < |pts| && pts[i].y == b.miny
    ensures exists i :: 0 <= i < |pts| && pts[i].y == b.maxy
  {
    var p := pts[|pts| - 1];
    if |pts| == 1 then Box(p.x, p.y, p.x, p.y)
    else
      var b := TotalBounds(pts[..|pts| - 1]);
      Box(if p.x < b.minx then p.x else b.minx,
          if p.y < b.miny then p.y else b.miny,
          if p.x > b.maxx then p.x else b.maxx,
          if p.y > b.maxy then p.y else b.maxy)
  }

  /**
   * main2.py:65-82: grow the shorter side symmetrically to the longer one,
   * then pad all four edges by a tenth of that side. No fallback for a
   * zero-size box.
   */
  function SquareViewport(b: Box): (v: Box)
    ensures Width(v) == Height(v)
    ensures Width(v) == Max(Width(b), Height(b)) * (1.0 + 2.0 * BufferFraction)
    ensures SameCentre(v, b)
    ensures Ordered(b) ==> Encloses(v, b)
    ensures Ordered(b) && Max(Width(b), Height(b)) > 0.0 ==>
              v.minx < b.minx && b.maxx < v.maxx && v.miny < b.miny && b.maxy < v.maxy
  {
    var width := b.maxx - b.minx;
    var height := b.maxy - b.miny;
    var sq :=
      if height > width then
        Box(b.minx - (height - width) / 2.0, b.miny, b.maxx + (height - width) / 2.0, b.maxy)
      else
        Box(b.minx, b.miny - (width - height) / 2.0, b.maxx, b.maxy + (width - height) / 2.0);
    var side := if height > width then height else width;
    var buffer := side * BufferFraction;
    Box(sq.minx - buffer, sq.miny - buffer, sq.maxx + buffer, sq.maxy + buffer)
  }

  /** main2.py:53-82: nothing to frame for no points, else the square viewport of the bounds. */
  function PlotViewport(pts: seq<Point>): (v: Option<Box>)
    ensures v.None? <==> |pts| == 0
    ensures v.Some? ==> Width(v.value) == Height(v.value)
    ensures v.Some? ==> forall i :: 0 <= i < |pts| ==> Contains(v.value, pts[i])
    ensures v.Some? && (exists i, j :: 0 <= i < |pts| && 0 <= j < |pts| && pts[i] != pts[j]) ==>
              forall i :: 0 <= i < |pts| ==> StrictlyContains(v.value, pts[i])
  {
    if |pts| == 0 then None
    else
      var b := TotalBounds(pts);
      var v := SquareViewport(b);
      assert (exists i, j :: 0 <= i < |pts| && 0 <= j < |pts| && pts[i] != pts[j]) ==>
               Max(Width(b), Height(b)) > 0.0 by {
        if exists i, j :: 0 <= i < |pts| && 0 <= j < |pts| && pts[i] != pts[j] {
          var i, j :| 0 <= i < |pts| && 0 <= j < |pts| && pts[i] != pts[j];
          assert Contains(b, pts[i]) && Contains(b, pts[j]);
        }
      }
      Some(v)
  }

  /** All points in one place: the frame has zero size, there being no fallback. */
  lemma {:induction false} CoincidentPointsCollapse(pts: seq<Point>, p: Point)
    requires |pts| > 0
    requires forall i :: 0 <= i < |pts| ==> pts[i] == p
    ensures PlotViewport(pts) == Some(Box(p.x, p.y, p.x, p.y))
  {
    var b := TotalBounds(pts);
    assert b == Box(p.x, p.y, p.x, p.y) by {
      var i :| 0 <= i < |pts| && pts[i].x == b.minx;
      var j :| 0 <= j < |pts| && pts[j].x == b.maxx;
      var k :| 0 <= k < |pts| && pts[k].y == b.miny;
      var l :| 0 <= l < |pts| && pts[l].y == b.maxy;
    }
  }

  /** main.py:96-104: each axis padded by a tenth of its own extent. */
  function PaddedBounds(b: Box): (v: Box)
    ensures Width(v) == Width(b) * (1.0 + 2.0 * BufferFraction)
    ensures Height(v) == Height(b) * (1.0 + 2.0 * BufferFraction)
    ensures SameCentre(v, b)
    ensures Ordered(b) ==> Encloses(v, b)
  {
    var width := b.maxx - b.minx;
    var height := b.maxy - b.miny;
    var bufferX := width * BufferFraction;
    var bufferY := height * BufferFraction;
    Box(b.minx - bufferX, b.miny - bufferY, b.maxx + bufferX, b.maxy + bufferY)
  }

  /** main.py:96-104 over the points: every point lies in the padded frame. */
  function PlotBounds(pts: seq<Point>): (v: Box)
    requires |pts| > 0
    ensures forall i :: 0 <= i < |pts| ==> Contains(v, pts[i])
    ensures SameCentre(v, TotalBounds(pts))
  {
    PaddedBounds(TotalBounds(pts))
  }
}
