/** `createConvexHullPhysicsShape`: the points of a convex-hull shape are
    fed one coordinate triple at a time from a geometry's position buffer. */
module Hull {
  import opened Types

  /** A position buffer: x, y, z of each vertex in turn (three.js position
      attributes hold three numbers per vertex). */
  type Coords = s: seq<real> | |s| % 3 == 0

  /** One `addPoint` call: the point and its `recalculateLocalAabb` flag. */
  datatype HullPoint = HullPoint(point: Vec3, lastOne: bool)

  /** The point coordinates written back as a flat buffer. */
  function Coordinates(ps: seq<HullPoint>): (r: seq<real>)
    ensures |r| == 3 * |ps|
  {
    if ps == [] then []
    else [ps[0].point.x, ps[0].point.y, ps[0].point.z] + Coordinates(ps[1..])
  }

  lemma {:induction false} CoordinatesAppend(ps: seq<HullPoint>, p: HullPoint)
    ensures Coordinates(ps + [p]) == Coordinates(ps) + [p.point.x, p.point.y, p.point.z]
  {
    if ps == [] {
      assert ps + [p] == [p];
    } else {
      assert (ps + [p])[1..] == ps[1..] + [p];
      CoordinatesAppend(ps[1..], p);
    }
  }

  /** One point per triple, in buffer order, so that flattening the points
      gives back the buffer; exactly the final point is flagged `lastOne`. */
  method CreateConvexHullPhysicsShape(coords: Coords) returns (points: seq<HullPoint>)
    ensures |points| == |coords| / 3
    ensures Coordinates(points) == coords
    ensures forall k :: 0 <= k < |points| ==>
      points[k].point == Vec3(coords[3 * k], coords[3 * k + 1], coords[3 * k + 2])
    ensures forall k :: 0 <= k < |points| ==> (points[k].lastOne <==> k == |points| - 1)
  {
    points := [];
    var i, il := 0, |coords|;
    while i < il
      invariant 0 <= i <= il && i % 3 == 0
      invariant |points| == i / 3
      invariant Coordinates(points) == coords[..i]
      invariant forall k :: 0 <= k < |points| ==>
        points[k].point == Vec3(coords[3 * k], coords[3 * k + 1], coords[3 * k + 2])
      invariant forall k :: 0 <= k < |points| ==> (points[k].lastOne <==> k == il / 3 - 1)
    {
      var p := Vec3(coords[i], coords[i + 1], coords[i + 2]);
      var lastOne := i >= il - 3;
      CoordinatesAppend(points, HullPoint(p, lastOne));
      assert coords[..i + 3] == coords[..i] + [coords[i], coords[i + 1], coords[i + 2]];
      points := points + [HullPoint(p, lastOne)];
      i := i + 3;
    }
    assert coords[..i] == coords;
  }
}
