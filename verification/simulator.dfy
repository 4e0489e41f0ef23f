/**
 The per-bus GPS simulator of backend/src/app.js: the state kept for each bus
 and the step `actualizarPosiciones` applies to it every two seconds.

 The two `Math.random()` draws become the parameter `draw` (one per tick: a
 stopped bus draws only when it departs, a moving bus once for its speed),
 and the haversine distance between the two stops of the current segment
 becomes the parameter `segment`. A step that would make the JavaScript throw
 (a stop index that addresses no stop) yields `Fault` with the state as the
 code leaves it at the throw.
 */
module Simulator {
  import opened Options
  import opened Geo
  import opened PingPong

  /** Seconds between two ticks; also the dwell added per stopped tick. */
  const TickSeconds: int := 2
  /** Dwell, in seconds, at a principal stop and at any other stop. */
  const PrincipalDwell: int := 10
  const RegularDwell: int := 5
  /** Cruising speed is BaseSpeed + (draw - 0.5) * SpeedJitter, clamped to [MinSpeed, MaxSpeed] (km/h). */
  const BaseSpeed: real := 25.0
  const SpeedJitter: real := 10.0
  const MinSpeed: real := 10.0
  const MaxSpeed: real := 40.0
  /** Speed on leaving a stop is DepartureBase + draw * DepartureJitter (km/h). */
  const DepartureBase: real := 15.0
  const DepartureJitter: real := 10.0

  /** A stop of a route, in route order. */
  datatype Stop = Stop(position: Point, principal: bool)

  /**
   What the simulator keeps per bus besides its identity and route:
   `leg` (paradaActual, siguienteParada, direccion), `progress` along the
   current segment, `speed` in km/h, `stopped`, `dwell` in seconds and the
   last written `position`.
   */
  datatype BusState = BusState(leg: Leg, progress: real, speed: real, stopped: bool, dwell: int, position: Point)

  /**
   The position record a moving tick writes and broadcasts: the position and
   speed after the tick, whether the bus now stands at a stop, and the two
   stops named as current and next (those the tick started with).
   */
  datatype Sample = Sample(position: Point, speed: real, atStop: bool, fromStop: int, toStop: int)

  datatype TickResult =
    | Stepped(state: BusState, sample: Option<Sample>)
    | Fault(left: BusState)

  /** Seconds a bus waits at `stop` before leaving. */
  function DwellFor(stop: Stop): (d: int)
    ensures d == PrincipalDwell || d == RegularDwell
    ensures d > 0
  {
    if stop.principal then PrincipalDwell else RegularDwell
  }

  /** Clamp `x` into [lo, hi], as `Math.max(lo, Math.min(hi, x))`. */
  function Clamp(x: real, lo: real, hi: real): (r: real)
    requires lo <= hi
    ensures lo <= r <= hi
    ensures lo <= x <= hi ==> r == x
    ensures x < lo ==> r == lo
    ensures x > hi ==> r == hi
  {
    var capped := if hi < x then hi else x;
    if lo < capped then capped else lo
  }

  /** Speed drawn on every moving tick. */
  function CruiseSpeed(draw: real): (v: real)
    requires 0.0 <= draw < 1.0
    ensures MinSpeed <= v <= MaxSpeed
    ensures BaseSpeed - SpeedJitter / 2.0 <= v < BaseSpeed + SpeedJitter / 2.0
  {
    Clamp(BaseSpeed + (draw - 0.5) * SpeedJitter, MinSpeed, MaxSpeed)
  }

  /** Speed drawn when a bus leaves a stop. */
  function DepartureSpeed(draw: real): (v: real)
    requires 0.0 <= draw < 1.0
    ensures DepartureBase <= v < DepartureBase + DepartureJitter
  {
    DepartureBase + draw * DepartureJitter
  }

  /** Fraction of a segment of `segment` km covered in one tick at `speed` km/h. */
  function Increment(speed: real, segment: real): (dp: real)
    requires speed > 0.0 && segment > 0.0
    ensures dp > 0.0
    ensures dp * segment == speed * (TickSeconds as real) / 3600.0
  {
    ProductPositive(speed, 1.0 / segment);
    speed / segment / 3600.0 * (TickSeconds as real)
  }

  lemma ProductPositive(a: real, b: real)
    requires a > 0.0 && b > 0.0
    ensures a * b > 0.0
  {
  }

  /**
   Whether a moving tick reaches the next stop. A zero-length segment counts
   as an arrival: the code divides by it and the progress becomes infinite.
   */
  predicate Arrives(progress: real, speed: real, segment: real)
    requires speed > 0.0 && segment >= 0.0
  {
    segment == 0.0 || progress + Increment(speed, segment) >= 1.0
  }

  /** The invariant every bus of a route with at least two stops keeps between ticks. */
  predicate Valid(route: seq<Stop>, s: BusState)
  {
    && OnRoute(s.leg, |route|)
    && 0.0 <= s.progress < 1.0
    && (s.stopped ==>
          && s.speed == 0.0
          && s.progress == 0.0
          && 0 <= s.dwell < DwellFor(route[s.leg.current])
          && s.dwell % TickSeconds == 0)
    && (!s.stopped ==> s.dwell == 0)
  }

  /** One tick of one bus. */
  function Tick(route: seq<Stop>, s: BusState, draw: real, segment: real): (r: TickResult)
    requires 0.0 <= draw < 1.0
    requires segment >= 0.0
    // the code throws exactly when it reads a stop that is not there
    ensures r.Fault? <==> !(0 <= s.leg.current < |route|) || (!s.stopped && !(0 <= s.leg.next < |route|))
    // a fault keeps what the code wrote before the throw: the dwell of a stopped bus, the speed of a moving one
    ensures r.Fault? ==>
              r.left == (if s.stopped then s.(dwell := s.dwell + TickSeconds) else s.(speed := CruiseSpeed(draw)))
    // the invariant is kept, and a bus that keeps it never faults
    ensures Valid(route, s) ==> r.Stepped? && Valid(route, r.state)
    // a stopped bus waits out its dwell in place, then leaves at a departure speed
    ensures r.Stepped? && s.stopped ==>
              && r.sample.None?
              && r.state.leg == s.leg
              && r.state.position == s.position
              && r.state.progress == s.progress
              && (r.state.stopped <==> s.dwell + TickSeconds < DwellFor(route[s.leg.current]))
              && (r.state.stopped ==> r.state.dwell == s.dwell + TickSeconds && r.state.speed == s.speed)
              && (!r.state.stopped ==>
                    r.state.dwell == 0 && r.state.speed == DepartureSpeed(draw))
    // a moving bus always emits a sample that reports the segment it started the tick on
    ensures r.Stepped? && !s.stopped ==>
              && r.sample == Some(Sample(r.state.position, r.state.speed, r.state.stopped, s.leg.current, s.leg.next))
              && r.state.dwell == s.dwell
              && (r.state.stopped <==> Arrives(s.progress, CruiseSpeed(draw), segment))
    // arrival: progress drops to exactly 0, the bus stops, the indices move on by the
    // ping-pong rule, and the written position is the stop the bus has just left
    ensures r.Stepped? && !s.stopped && r.state.stopped ==>
              && r.state.progress == 0.0
              && r.state.speed == 0.0
              && r.state.leg == Arrive(s.leg, |route|)
              && r.state.position == route[s.leg.current].position
    // otherwise the bus advances along the same segment at a cruising speed
    ensures r.Stepped? && !s.stopped && !r.state.stopped ==>
              && r.state.leg == s.leg
              && r.state.progress > s.progress
              && r.state.speed == CruiseSpeed(draw)
              && MinSpeed <= r.state.speed <= MaxSpeed
              && r.state.progress == s.progress + Increment(r.state.speed, segment)
              && r.state.position ==
                 Interpolate(route[s.leg.current].position, route[s.leg.next].position, r.state.progress)
  {
    if s.stopped then
      var dwell := s.dwell + TickSeconds;
      if !(0 <= s.leg.current < |route|) then Fault(s.(dwell := dwell))
      else if dwell >= DwellFor(route[s.leg.current]) then
        Stepped(s.(stopped := false, dwell := 0, speed := DepartureSpeed(draw)), None)
      else
        Stepped(s.(dwell := dwell), None)
    else
      var speed := CruiseSpeed(draw);
      if !(0 <= s.leg.current < |route|) || !(0 <= s.leg.next < |route|) then Fault(s.(speed := speed))
      else
        var from := route[s.leg.current].position;
        var to := route[s.leg.next].position;
        if Arrives(s.progress, speed, segment) then
          var t := s.(leg := Arrive(s.leg, |route|), progress := 0.0, stopped := true, speed := 0.0,
                      position := Interpolate(from, to, 0.0));
          Stepped(t, Some(Sample(t.position, t.speed, true, s.leg.current, s.leg.next)))
        else
          var progress := s.progress + Increment(speed, segment);
          var t := s.(progress := progress, speed := speed, position := Interpolate(from, to, progress));
          Stepped(t, Some(Sample(t.position, t.speed, false, s.leg.current, s.leg.next)))
  }

  /**
   A fault repeats: the state a faulting tick leaves faults again on the next
   tick, whatever its draw and segment, so such a bus throws on every tick.
   */
  lemma FaultPersists(route: seq<Stop>, s: BusState, draw1: real, segment1: real, draw2: real, segment2: real)
    requires 0.0 <= draw1 < 1.0 && segment1 >= 0.0
    requires 0.0 <= draw2 < 1.0 && segment2 >= 0.0
    requires Tick(route, s, draw1, segment1).Fault?
    ensures Tick(route, Tick(route, s, draw1, segment1).left, draw2, segment2).Fault?
  {
  }

  /** The random draw and segment distance one tick consumes. */
  datatype TickInput = TickInput(draw: real, segment: real)

  predicate WellFormed(inputs: seq<TickInput>)
  {
    forall i :: 0 <= i < |inputs| ==> 0.0 <= inputs[i].draw < 1.0 && inputs[i].segment >= 0.0
  }

  /** The state after a sequence of ticks, or None once a tick faults. */
  function Run(route: seq<Stop>, s: BusState, inputs: seq<TickInput>): (r: Option<BusState>)
    requires WellFormed(inputs)
    ensures Valid(route, s) ==> r.Some? && Valid(route, r.value)
    decreases |inputs|
  {
    if |inputs| == 0 then Some(s)
    else
      match Tick(route, s, inputs[0].draw, inputs[0].segment)
      case Fault(_) => None
      case Stepped(t, _) => Run(route, t, inputs[1..])
  }

  /** Number of stopped ticks a bus spends at `stop` after arriving there. */
  function TicksAt(stop: Stop): int
  {
    if stop.principal then 5 else 3
  }

  /** While the dwell stays short of the threshold a stopped bus only counts. */
  lemma {:induction false} Waiting(route: seq<Stop>, s: BusState, inputs: seq<TickInput>)
    requires WellFormed(inputs)
    requires 0 <= s.leg.current < |route| && s.stopped
    requires s.dwell + TickSeconds * |inputs| < DwellFor(route[s.leg.current])
    ensures Run(route, s, inputs) == Some(s.(dwell := s.dwell + TickSeconds * |inputs|))
    decreases |inputs|
  {
    if |inputs| > 0 {
      var t := s.(dwell := s.dwell + TickSeconds);
      assert Tick(route, s, inputs[0].draw, inputs[0].segment) == Stepped(t, None);
      Waiting(route, t, inputs[1..]);
      assert t.(dwell := t.dwell + TickSeconds * (|inputs| - 1)) == s.(dwell := s.dwell + TickSeconds * |inputs|);
    }
  }

  /** The tick on which the dwell reaches the threshold is the departure tick. */
  lemma {:induction false} WaitThenLeave(route: seq<Stop>, s: BusState, inputs: seq<TickInput>)
    requires WellFormed(inputs) && |inputs| >= 1
    requires 0 <= s.leg.current < |route| && s.stopped
    requires s.dwell + TickSeconds * (|inputs| - 1) < DwellFor(route[s.leg.current])
    requires DwellFor(route[s.leg.current]) <= s.dwell + TickSeconds * |inputs|
    ensures var r := Run(route, s, inputs);
            && r.Some?
            && !r.value.stopped
            && r.value.dwell == 0
            && r.value.leg == s.leg
            && r.value.position == s.position
            && r.value.progress == s.progress
            && DepartureBase <= r.value.speed < DepartureBase + DepartureJitter
    decreases |inputs|
  {
    var first := Tick(route, s, inputs[0].draw, inputs[0].segment);
    if |inputs| == 1 {
      assert Run(route, s, inputs) == Run(route, first.state, inputs[1..]);
      assert inputs[1..] == [];
    } else {
      var t := s.(dwell := s.dwell + TickSeconds);
      assert first == Stepped(t, None);
      WaitThenLeave(route, t, inputs[1..]);
    }
  }

  /**
   A bus that has just arrived (stopped, no dwell yet) stays for exactly
   TicksAt(stop) ticks, 5 at a principal stop and 3 at any other: it is still
   stopped, in place, after every shorter run of ticks, and has left after
   that many.
   */
  lemma {:induction false} StopDuration(route: seq<Stop>, s: BusState, inputs: seq<TickInput>)
    requires WellFormed(inputs)
    requires 0 <= s.leg.current < |route| && s.stopped && s.dwell == 0
    requires |inputs| == TicksAt(route[s.leg.current])
    ensures forall k :: 0 <= k < |inputs| ==>
              Run(route, s, inputs[..k]) == Some(s.(dwell := TickSeconds * k))
    ensures Run(route, s, inputs).Some?
    ensures !Run(route, s, inputs).value.stopped
    ensures Run(route, s, inputs).value.leg == s.leg
    ensures Run(route, s, inputs).value.position == s.position
  {
    forall k | 0 <= k < |inputs|
      ensures Run(route, s, inputs[..k]) == Some(s.(dwell := TickSeconds * k))
    {
      Waiting(route, s, inputs[..k]);
    }
    WaitThenLeave(route, s, inputs);
  }

  /**
   A route with a single stop is not refused: the bus starts with that stop as
   both current and next, arrives on its first moving tick (the segment has
   length 0), turns round to index -1, and the first moving tick after its
   dwell reads a stop that does not exist.
   */
  lemma SingleStopRouteFaults(route: seq<Stop>, s: BusState, inputs: seq<TickInput>)
    requires |route| == 1
    requires s.leg == Leg(0, 0, Outbound) && !s.stopped && s.dwell == 0
    requires WellFormed(inputs) && |inputs| == TicksAt(route[0]) + 2
    requires inputs[0].segment == 0.0
    ensures Tick(route, s, inputs[0].draw, inputs[0].segment).Stepped?
    ensures Tick(route, s, inputs[0].draw, inputs[0].segment).state.stopped
    ensures Tick(route, s, inputs[0].draw, inputs[0].segment).state.leg == Leg(0, -1, Inbound)
    ensures Run(route, s, inputs[..|inputs| - 1]).Some?
    ensures !Run(route, s, inputs[..|inputs| - 1]).value.stopped
    ensures Run(route, s, inputs).None?
  {
    var first := Tick(route, s, inputs[0].draw, inputs[0].segment);
    var t := first.state;
    assert t.stopped && t.leg == Leg(0, -1, Inbound) && t.dwell == 0;
    var rest := inputs[1..];
    var waiting := rest[..|rest| - 1];
    WaitThenLeave(route, t, waiting);
    var u := Run(route, t, waiting).value;
    RunSplit(route, t, waiting, [rest[|rest| - 1]]);
    assert waiting + [rest[|rest| - 1]] == rest;
    assert Tick(route, u, rest[|rest| - 1].draw, rest[|rest| - 1].segment).Fault?;
    assert inputs[..|inputs| - 1][1..] == waiting;
  }

  /** Number of ticks in a run on which the bus reaches a stop. */
  function ArrivalsIn(route: seq<Stop>, s: BusState, inputs: seq<TickInput>): nat
    requires WellFormed(inputs)
    decreases |inputs|
  {
    if |inputs| == 0 then 0
    else
      match Tick(route, s, inputs[0].draw, inputs[0].segment)
      case Fault(_) => 0
      case Stepped(t, _) => (if !s.stopped && t.stopped then 1 else 0) + ArrivalsIn(route, t, inputs[1..])
  }

  /**
   Across any run of ticks the stop indices and direction change only by
   arrivals: the final leg is the starting leg moved on by the ping-pong rule
   once per arrival in the run.
   */
  lemma {:induction false} RunFollowsArrivals(route: seq<Stop>, s: BusState, inputs: seq<TickInput>)
    requires WellFormed(inputs)
    requires Run(route, s, inputs).Some?
    ensures Run(route, s, inputs).value.leg == Arrivals(s.leg, |route|, ArrivalsIn(route, s, inputs))
    decreases |inputs|
  {
    if |inputs| > 0 {
      var first := Tick(route, s, inputs[0].draw, inputs[0].segment);
      var t := first.state;
      RunFollowsArrivals(route, t, inputs[1..]);
      var k := ArrivalsIn(route, t, inputs[1..]);
      if !s.stopped && t.stopped {
        assert Arrivals(s.leg, |route|, 1 + k) == Arrivals(t.leg, |route|, k);
      } else {
        assert t.leg == s.leg;
      }
    }
  }

  /** Running a + b ticks is running a ticks and then b more. */
  lemma {:induction false} RunSplit(route: seq<Stop>, s: BusState, a: seq<TickInput>, b: seq<TickInput>)
    requires WellFormed(a) && WellFormed(b)
    ensures WellFormed(a + b)
    ensures Run(route, s, a + b) ==
            match Run(route, s, a)
            case None => None
            case Some(t) => Run(route, t, b)
    decreases |a|
  {
    if |a| > 0 {
      assert (a + b)[1..] == a[1..] + b;
      match Tick(route, s, a[0].draw, a[0].segment)
      case Fault(_) =>
      case Stepped(t, _) =>
        RunSplit(route, t, a[1..], b);
    } else {
      assert a + b == b;
    }
  }
}
