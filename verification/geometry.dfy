/** Planar geometry kept abstract. A geometry is a term recording how it
    was built (a named input shape, a raw Voronoi cell, a `buffer`, an
    `intersection`); what a term covers, whether it is valid and its area
    are supplied by an oracle, so no computational geometry is assumed
    beyond the meaning of intersection. */
module Geometry {

  datatype Point = Point(x: real, y: real)

  datatype Geom =
    | Shape(name: string)                          // an input shape read from file
    | VoronoiCell(seeds: seq<Point>, index: nat)   // raw polygon of seed `index`
    | Buffered(base: Geom, distance: real)         // shapely `buffer(distance)`
    | Intersection(left: Geom, right: Geom)        // shapely `intersection`

  /** What shapely would answer for `is_valid`, `area` and `contains` on
      the geometries that are not intersections. */
  datatype Oracle = Oracle(
    isValid: Geom -> bool,
    area: Geom -> real,
    covers: (Geom, Point) -> bool)

  /** Point containment: an intersection contains exactly the points both
      operands contain; every other geometry is answered by the oracle. */
  predicate Contains(o: Oracle, g: Geom, p: Point)
  {
    match g
    case Intersection(l, r) => Contains(o, l, p) && Contains(o, r, p)
    case _ => o.covers(g, p)
  }
}
