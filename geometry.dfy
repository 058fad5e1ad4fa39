/** The position and polygon values shared by the zone service and the
    GeoJSON serializers: a point is a pair of doubles (x, y); a polygon has an
    exterior ring, an ordered list of points, and may have interior rings. */
module Geometry {

  datatype Point = Point(x: real, y: real)

  /** A polygon as the backend stores it: `points` is the exterior ring, in
      order, and `holes` the interior rings. Nothing forces a ring to be closed
      or to have a minimum length. */
  datatype Polygon = Polygon(points: seq<Point>, holes: seq<seq<Point>>)

  /** The polygon with its interior rings dropped. */
  function Exterior(p: Polygon): (r: Polygon)
    ensures r.points == p.points && r.holes == []
  {
    Polygon(p.points, [])
  }

  /** Every polygon of a list with its interior rings dropped, in order. */
  function Exteriors(ps: seq<Polygon>): (r: seq<Polygon>)
    ensures |r| == |ps|
    ensures forall k :: 0 <= k < |ps| ==> r[k] == Exterior(ps[k])
  {
    seq(|ps|, k requires 0 <= k < |ps| => Exterior(ps[k]))
  }

  /** A ring is closed when it is non-empty and its first point equals its last. */
  predicate IsClosed(points: seq<Point>)
  {
    |points| > 0 && points[0] == points[|points| - 1]
  }

  /** The total number of points over a list of polygons. */
  function TotalPoints(polygons: seq<Polygon>): nat
  {
    if polygons == [] then 0 else |polygons[0].points| + TotalPoints(polygons[1..])
  }
}
