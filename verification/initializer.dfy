/**
 `inicializarSimulador` of backend/src/app.js for one bus: snap the bus to
 its nearest stop and build its first simulator state. The distance function
 (haversine in the code) is a parameter.
 */
module Initializer {
  import opened Options
  import opened Geo
  import opened PingPong
  import opened Simulator

  /** `k` is the stop at least distance, and no earlier stop is as close. */
  predicate IsNearest(d: seq<real>, k: int)
  {
    && 0 <= k < |d|
    && (forall j :: 0 <= j < |d| ==> d[k] <= d[j])
    && (forall j :: 0 <= j < k ==> d[k] < d[j])
  }

  /** At most one index is the nearest stop in that sense. */
  lemma NearestIsUnique(d: seq<real>, a: int, b: int)
    requires IsNearest(d, a) && IsNearest(d, b)
    ensures a == b
  {
    assert d[a] == d[b];
  }

  /** Distance from `from` to every stop of the route, in route order. */
  function Distances(route: seq<Stop>, from: Point, dist: (Point, Point) -> real): (d: seq<real>)
    ensures |d| == |route|
    ensures forall i :: 0 <= i < |route| ==> d[i] == dist(from, route[i].position)
  {
    seq(|route|, i requires 0 <= i < |route| => dist(from, route[i].position))
  }

  /**
   The scan of the initialiser: the best distance starts at infinity (None
   here) and a stop replaces the best only when strictly closer, so the
   earliest of equally near stops wins. An empty list leaves index 0.
   */
  method NearestStop(d: seq<real>) returns (k: int)
    ensures |d| == 0 ==> k == 0
    ensures |d| > 0 ==> IsNearest(d, k)
  {
    k := 0;
    var least: Option<real> := None;
    var i := 0;
    while i < |d|
      invariant 0 <= i <= |d|
      invariant least.None? <==> i == 0
      invariant i == 0 ==> k == 0
      invariant i > 0 ==> 0 <= k < i && least == Some(d[k])
      invariant forall j :: 0 <= j < i ==> d[k] <= d[j]
      invariant forall j :: 0 <= j < k ==> d[k] < d[j]
    {
      if least.None? || d[i] < least.value {
        least := Some(d[i]);
        k := i;
      }
      i := i + 1;
    }
  }

  /** The state a bus starts from once snapped to stop `k` of a route of `n` stops. */
  function StartState(k: int, n: int, reported: Point): (s: BusState)
    requires 0 <= k < n
    ensures s.leg.current == k && s.leg.direction == Outbound
    ensures k < n - 1 ==> s.leg.next == k + 1
    ensures k == n - 1 ==> s.leg.next == 0
    ensures s.progress == 0.0 && s.speed == 0.0 && !s.stopped && s.dwell == 0
    ensures s.position == reported
  {
    BusState(Leg(k, (k + 1) % n, Outbound), 0.0, 0.0, false, 0, reported)
  }

  /**
   Initial state of one bus from its reported position. Every bus gets a
   state, even on a route without stops: there the code stores next index
   `(0 + 1) % 0`, which is NaN, and the model stores 0 in its place. Either
   index addresses no stop, so every tick of that bus faults.
   */
  method Initialise(route: seq<Stop>, reported: Point, dist: (Point, Point) -> real) returns (r: BusState)
    ensures r.leg.direction == Outbound
    ensures r.progress == 0.0 && r.speed == 0.0 && !r.stopped && r.dwell == 0
    ensures r.position == reported
    ensures |route| > 0 ==>
              && IsNearest(Distances(route, reported, dist), r.leg.current)
              && r.leg.next == (r.leg.current + 1) % |route|
    ensures |route| == 0 ==>
              forall draw: real, segment: real | 0.0 <= draw < 1.0 && segment >= 0.0 ::
                Tick(route, r, draw, segment).Fault? && Tick(route, Tick(route, r, draw, segment).left, draw, segment).Fault?
    ensures |route| >= 2 ==> Valid(route, r)
  {
    var d := Distances(route, reported, dist);
    var k := NearestStop(d);
    if |route| == 0 {
      r := BusState(Leg(k, 0, Outbound), 0.0, 0.0, false, 0, reported);
    } else {
      r := StartState(k, |route|, reported);
    }
  }
}
