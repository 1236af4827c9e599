/** `voronoi_partition_pts`: one region per point, each the point's Voronoi
    cell clipped to an outline. The Voronoi diagram itself is abstract
    (`VoronoiCell`); the orchestration around it is modelled exactly. */
module Voronoi {
  import opened Outcomes
  import opened Geometry

  datatype PartitionError =
    | NoPoints     // `np.amin` over an empty array of points raises
    | FlatSeeds    // Qhull cannot build a diagram of collinear seeds ("initial simplex is flat")

  function MinX(ps: seq<Point>): (r: real)
    requires |ps| > 0
    ensures forall i :: 0 <= i < |ps| ==> r <= ps[i].x
    ensures exists i :: 0 <= i < |ps| && r == ps[i].x
  {
    if |ps| == 1 then ps[0].x
    else
      var m := MinX(ps[1..]);
      assert forall i :: 1 <= i < |ps| ==> ps[i] == ps[1..][i - 1];
      if ps[0].x <= m then ps[0].x else m
  }

  function MaxX(ps: seq<Point>): (r: real)
    requires |ps| > 0
    ensures forall i :: 0 <= i < |ps| ==> ps[i].x <= r
    ensures exists i :: 0 <= i < |ps| && r == ps[i].x
  {
    if |ps| == 1 then ps[0].x
    else
      var m := MaxX(ps[1..]);
      assert forall i :: 1 <= i < |ps| ==> ps[i] == ps[1..][i - 1];
      if ps[0].x >= m then ps[0].x else m
  }

  function MinY(ps: seq<Point>): (r: real)
    requires |ps| > 0
    ensures forall i :: 0 <= i < |ps| ==> r <= ps[i].y
    ensures exists i :: 0 <= i < |ps| && r == ps[i].y
  {
    if |ps| == 1 then ps[0].y
    else
      var m := MinY(ps[1..]);
      assert forall i :: 1 <= i < |ps| ==> ps[i] == ps[1..][i - 1];
      if ps[0].y <= m then ps[0].y else m
  }

  function MaxY(ps: seq<Point>): (r: real)
    requires |ps| > 0
    ensures forall i :: 0 <= i < |ps| ==> ps[i].y <= r
    ensures exists i :: 0 <= i < |ps| && r == ps[i].y
  {
    if |ps| == 1 then ps[0].y
    else
      var m := MaxY(ps[1..]);
      assert forall i :: 1 <= i < |ps| ==> ps[i] == ps[1..][i - 1];
      if ps[0].y >= m then ps[0].y else m
  }

  /** The margin added on each side: three times the span of the points. */
  const GuardFactor: real := 3.0

  /** The four corners of the framing rectangle, in the order they are
      stacked under the points. */
  function GuardCorners(ps: seq<Point>): (r: seq<Point>)
    requires |ps| > 0
    ensures |r| == 4
    ensures var xspan, yspan := MaxX(ps) - MinX(ps), MaxY(ps) - MinY(ps);
      MinX(ps) - r[0].x == GuardFactor * xspan && r[3].x - MaxX(ps) == GuardFactor * xspan &&
      MinY(ps) - r[0].y == GuardFactor * yspan && r[3].y - MaxY(ps) == GuardFactor * yspan &&
      r[1] == Point(r[0].x, r[3].y) && r[2] == Point(r[3].x, r[0].y)
  {
    var xmin, xmax, ymin, ymax := MinX(ps), MaxX(ps), MinY(ps), MaxY(ps);
    var xspan, yspan := xmax - xmin, ymax - ymin;
    var left, right := xmin - GuardFactor * xspan, xmax + GuardFactor * xspan;
    var bottom, top := ymin - GuardFactor * yspan, ymax + GuardFactor * yspan;
    [Point(left, bottom), Point(left, top), Point(right, bottom), Point(right, top)]
  }

  /** Every input point lies in the closed rectangle framed by the guard
      corners, so none can fall outside all Voronoi cells. */
  lemma PointsInsideGuard(ps: seq<Point>)
    requires |ps| > 0
    ensures var g := GuardCorners(ps);
      forall i :: 0 <= i < |ps| ==>
        g[0].x <= ps[i].x <= g[3].x && g[0].y <= ps[i].y <= g[3].y
  {
    var xmin, xmax, ymin, ymax := MinX(ps), MaxX(ps), MinY(ps), MaxY(ps);
    var k :| 0 <= k < |ps| && xmin == ps[k].x;
    var l :| 0 <= l < |ps| && ymin == ps[l].y;
    assert xmin <= xmax && ymin <= ymax;
  }

  /** The seeds handed to the Voronoi construction. */
  function Augmented(ps: seq<Point>): (r: seq<Point>)
    requires |ps| > 0
    ensures |r| == |ps| + 4
    ensures forall i :: 0 <= i < |ps| ==> r[i] == ps[i]
    ensures r[|ps|..] == GuardCorners(ps)
  {
    ps + GuardCorners(ps)
  }

  /** `poly.buffer(0)` is applied only to an invalid polygon. */
  function Repair(poly: Geom, isValid: Geom -> bool): (r: Geom)
    ensures isValid(poly) ==> r == poly
    ensures !isValid(poly) ==> r == Buffered(poly, 0.0)
  {
    if isValid(poly) then poly else Buffered(poly, 0.0)
  }

  /** The clipped cell of point `i`. */
  function Cell(ps: seq<Point>, i: nat, outline: Geom, isValid: Geom -> bool): Geom
    requires |ps| > 0
  {
    Intersection(Repair(VoronoiCell(Augmented(ps), i), isValid), outline)
  }

  /** All points share one x or one y. The guard corners then lie on the
      same line, because a zero span adds no margin in that direction, so
      every seed of the diagram is collinear. */
  predicate Flat(ps: seq<Point>)
    requires |ps| > 0
  {
    MinX(ps) == MaxX(ps) || MinY(ps) == MaxY(ps)
  }

  /** A flat point set makes every seed, the guard corners included, share
      that coordinate. */
  lemma FlatSeedsCollinear(ps: seq<Point>)
    requires |ps| > 0 && Flat(ps)
    ensures var seeds := Augmented(ps);
      (forall k :: 0 <= k < |seeds| ==> seeds[k].x == MinX(ps)) ||
      (forall k :: 0 <= k < |seeds| ==> seeds[k].y == MinY(ps))
  {
    var seeds := Augmented(ps);
    if MinX(ps) == MaxX(ps) {
      forall k | 0 <= k < |seeds| ensures seeds[k].x == MinX(ps) {
        if k < |ps| {
          assert seeds[k] == ps[k];
        } else {
          assert seeds[k] == GuardCorners(ps)[k - |ps|];
        }
      }
    } else {
      forall k | 0 <= k < |seeds| ensures seeds[k].y == MinY(ps) {
        if k < |ps| {
          assert seeds[k] == ps[k];
        } else {
          assert seeds[k] == GuardCorners(ps)[k - |ps|];
        }
      }
    }
  }

  /** `voronoi_partition_pts`: no points raises, one point gets the whole
      outline, collinear seeds make Qhull raise, and otherwise every point
      gets its clipped cell. */
  function Partition(ps: seq<Point>, outline: Geom, isValid: Geom -> bool): (r: Result<seq<Geom>, PartitionError>)
    ensures r.Failure? <==> |ps| == 0 || (|ps| >= 2 && Flat(ps))
    ensures |ps| == 0 ==> r == Failure(NoPoints)
    ensures |ps| >= 2 && Flat(ps) ==> r == Failure(FlatSeeds)
    ensures r.Success? ==> |r.value| == |ps|
    ensures |ps| == 1 ==> r == Success([outline])
    ensures r.Success? && |ps| >= 2 ==> forall i :: 0 <= i < |ps| ==> r.value[i] == Cell(ps, i, outline, isValid)
  {
    if |ps| == 0 then Failure(NoPoints)
    else if |ps| == 1 then Success([outline])
    else if Flat(ps) then Failure(FlatSeeds)
    else Success(seq(|ps|, i requires 0 <= i < |ps| => Cell(ps, i, outline, isValid)))
  }

  /** Each region of the partition contains only points of the outline. */
  lemma {:induction false} PartitionWithinOutline(ps: seq<Point>, outline: Geom, o: Oracle, i: int, p: Point)
    requires Partition(ps, outline, o.isValid).Success?
    requires 0 <= i < |ps|
    ensures Contains(o, Partition(ps, outline, o.isValid).value[i], p) ==> Contains(o, outline, p)
  {
    if |ps| >= 2 {
      var c := Cell(ps, i, outline, o.isValid);
      assert Contains(o, c, p) == (Contains(o, Repair(VoronoiCell(Augmented(ps), i), o.isValid), p) && Contains(o, outline, p));
    }
  }

  /** Region `i` is built from the Voronoi cell of point `i` itself: the
      seed at position `i` of the augmented set is the `i`-th input point. */
  lemma CellOfOwnPoint(ps: seq<Point>, outline: Geom, isValid: Geom -> bool, i: int)
    requires |ps| >= 2 && !Flat(ps) && 0 <= i < |ps|
    ensures var c := Partition(ps, outline, isValid).value[i];
      c.Intersection? && c.right == outline &&
      var raw := if c.left.Buffered? then c.left.base else c.left;
      raw.VoronoiCell? && raw.index == i && raw.seeds[i] == ps[i] && |raw.seeds| == |ps| + 4
  {
  }
}
