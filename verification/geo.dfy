/**
 The planar part of the simulator's geometry: a position and the linear
 interpolation `interpolar` (backend/src/app.js). The haversine distance and
 the bearing are not modelled; the simulator receives distances as parameters.
 */
module Geo {

  /** A latitude/longitude pair, in degrees. */
  datatype Point = Point(lat: real, lon: real)

  /** `x` lies on the closed segment between `a` and `b`, in either order. */
  predicate Between(a: real, b: real, x: real)
  {
    (a <= x <= b) || (b <= x <= a)
  }

  /** Component-wise linear interpolation from `a` (t = 0) to `b` (t = 1). */
  function Interpolate(a: Point, b: Point, t: real): (p: Point)
    ensures t == 0.0 ==> p == a
    ensures t == 1.0 ==> p == b
    ensures a == b ==> p == a
  {
    Point(a.lat + (b.lat - a.lat) * t, a.lon + (b.lon - a.lon) * t)
  }

  /** For t in [0,1] both coordinates stay between those of the endpoints. */
  lemma InterpolateStaysOnSegment(a: Point, b: Point, t: real)
    requires 0.0 <= t <= 1.0
    ensures Between(a.lat, b.lat, Interpolate(a, b, t).lat)
    ensures Between(a.lon, b.lon, Interpolate(a, b, t).lon)
  {
    ScaledDifferenceBetween(a.lat, b.lat, t);
    ScaledDifferenceBetween(a.lon, b.lon, t);
  }

  lemma ScaledDifferenceBetween(x: real, y: real, t: real)
    requires 0.0 <= t <= 1.0
    ensures Between(x, y, x + (y - x) * t)
  {
    if x <= y {
      ProductNonNegative(y - x, t);
      ProductNonNegative(y - x, 1.0 - t);
      assert (y - x) * (1.0 - t) == (y - x) - (y - x) * t;
    } else {
      ProductNonNegative(x - y, t);
      ProductNonNegative(x - y, 1.0 - t);
      assert (x - y) * (1.0 - t) == (x - y) - (x - y) * t;
      assert (y - x) * t == -((x - y) * t);
    }
  }

  lemma ProductNonNegative(d: real, t: real)
    requires d >= 0.0 && t >= 0.0
    ensures d * t >= 0.0
  {
  }

  /** Interpolating backwards from `b` to `a` traces the same points. */
  lemma InterpolateReversed(a: Point, b: Point, t: real)
    ensures Interpolate(a, b, t) == Interpolate(b, a, 1.0 - t)
  {
  }
}
