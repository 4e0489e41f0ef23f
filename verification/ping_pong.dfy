/**
 The index part of a simulated bus: the stop it is at (or last left), the stop
 it is heading to, and the direction of travel along the route. On every
 arrival the bus moves on by the back-and-forth ("ping-pong") rule of
 `actualizarPosiciones` in backend/src/app.js: it never wraps from the last
 stop to the first, it turns round.
 */
module PingPong {

  /** `ida` (towards the last stop) and `vuelta` (towards the first stop). */
  datatype Direction = Outbound | Inbound

  datatype Leg = Leg(current: int, next: int, direction: Direction)

  /** Both indices address a stop of a route of `n` stops. */
  predicate InRange(leg: Leg, n: int)
  {
    0 <= leg.current < n && 0 <= leg.next < n
  }

  /** The next stop is the neighbour of the current one in the direction of travel. */
  predicate Adjacent(leg: Leg)
  {
    match leg.direction
    case Outbound => leg.next == leg.current + 1
    case Inbound => leg.next == leg.current - 1
  }

  /**
   The one non-adjacent leg the initialiser can produce: a bus snapped to the
   last stop gets `(last + 1) % n == 0` as its next stop while going outbound.
   */
  predicate WrapStart(leg: Leg, n: int)
  {
    leg == Leg(n - 1, 0, Outbound)
  }

  /** Every leg a bus on a route of `n >= 2` stops can be in. */
  predicate OnRoute(leg: Leg, n: int)
  {
    n >= 2 && InRange(leg, n) && (Adjacent(leg) || WrapStart(leg, n))
  }

  /** The index update performed when a bus reaches `leg.next`. */
  function Arrive(leg: Leg, n: int): (r: Leg)
    ensures r.current == leg.next
    ensures Adjacent(r)
    ensures r.direction != leg.direction <==>
              (leg.direction == Outbound && leg.next == n - 1) || (leg.direction == Inbound && leg.next == 0)
    ensures r.direction != leg.direction ==>
              (r.direction == Inbound && r.current == n - 1) || (r.direction == Outbound && r.current == 0)
    ensures OnRoute(leg, n) ==> OnRoute(r, n)
  {
    match leg.direction
    case Outbound =>
      if leg.next == n - 1 then Leg(leg.next, leg.next - 1, Inbound)
      else Leg(leg.next, leg.next + 1, Outbound)
    case Inbound =>
      if leg.next == 0 then Leg(leg.next, leg.next + 1, Outbound)
      else Leg(leg.next, leg.next - 1, Inbound)
  }

  /** The leg after `k` arrivals. */
  function Arrivals(leg: Leg, n: int, k: nat): Leg
    decreases k
  {
    if k == 0 then leg else Arrivals(Arrive(leg, n), n, k - 1)
  }

  /** Number of arrivals in one round trip over `n` stops. */
  function Period(n: int): int
  {
    2 * (n - 1)
  }

  /**
   The round trip laid out as phases 0 .. Period(n)-1: phases below n-1 go
   outbound from stop p, the others come back from stop Period(n) - p.
   */
  function LegAtPhase(p: int, n: int): (r: Leg)
    requires n >= 2 && 0 <= p < Period(n)
    ensures OnRoute(r, n) && Adjacent(r)
  {
    if p < n - 1 then Leg(p, p + 1, Outbound)
    else Leg(Period(n) - p, Period(n) - p - 1, Inbound)
  }

  /** The leg a bus starts from when it is snapped to the first stop. */
  function FirstLeg(): Leg
  {
    Leg(0, 1, Outbound)
  }

  /** One arrival moves a bus one phase further round the trip. */
  lemma ArriveAdvancesPhase(p: int, n: int)
    requires n >= 2 && 0 <= p < Period(n)
    ensures Arrive(LegAtPhase(p, n), n) == LegAtPhase(if p + 1 == Period(n) then 0 else p + 1, n)
  {
  }

  /** Within one round trip, k arrivals move the bus k phases on. */
  lemma {:induction false} ArrivalsWithinPeriod(p: int, n: int, k: nat)
    requires n >= 2 && 0 <= p && p + k < Period(n)
    ensures Arrivals(LegAtPhase(p, n), n, k) == LegAtPhase(p + k, n)
    decreases k
  {
    if k > 0 {
      ArriveAdvancesPhase(p, n);
      ArrivalsWithinPeriod(p + 1, n, k - 1);
    }
  }

  /** Every leg on the round trip sits at some phase of it. */
  lemma AdjacentLegHasPhase(leg: Leg, n: int) returns (p: int)
    requires OnRoute(leg, n) && Adjacent(leg)
    ensures 0 <= p < Period(n) && LegAtPhase(p, n) == leg
  {
    if leg.direction == Outbound {
      p := leg.current;
    } else {
      p := Period(n) - leg.current;
    }
  }

  /**
   Starting from the first stop outbound, the bus serves stops 0, 1, ..., n-1
   in order and, on reaching the last one, turns round heading for n-2.
   */
  lemma OutboundSweep(n: int, k: nat)
    requires n >= 2 && k <= n - 1
    ensures k < n - 1 ==> Arrivals(FirstLeg(), n, k) == Leg(k, k + 1, Outbound)
    ensures k == n - 1 ==> Arrivals(FirstLeg(), n, k) == Leg(n - 1, n - 2, Inbound)
  {
    assert FirstLeg() == LegAtPhase(0, n);
    ArrivalsWithinPeriod(0, n, k);
  }

  /** After one full round trip every adjacent leg is back where it started. */
  lemma RoundTrip(leg: Leg, n: int)
    requires OnRoute(leg, n) && Adjacent(leg)
    ensures Arrivals(leg, n, Period(n)) == leg
  {
    var p := AdjacentLegHasPhase(leg, n);
    var last := Period(n) - 1;
    var toLast := last - p;
    ArrivalsWithinPeriod(p, n, toLast);
    var atLast := Arrivals(leg, n, toLast);
    assert atLast == LegAtPhase(last, n);
    ArriveAdvancesPhase(last, n);
    assert Arrive(atLast, n) == LegAtPhase(0, n);
    assert Arrivals(atLast, n, p + 1) == Arrivals(LegAtPhase(0, n), n, p);
    ArrivalsWithinPeriod(0, n, p);
    ArrivalsSplit(leg, n, toLast, p + 1);
    assert toLast + (p + 1) == Period(n);
  }

  /** From the first stop outbound, 2(n-1) arrivals bring the bus back to the start. */
  lemma FirstLegReturns(n: int)
    requires n >= 2
    ensures Arrivals(FirstLeg(), n, Period(n)) == FirstLeg()
  {
    RoundTrip(FirstLeg(), n);
  }

  /** Arrivals compose: a + b arrivals are a arrivals followed by b more. */
  lemma {:induction false} ArrivalsSplit(leg: Leg, n: int, a: nat, b: nat)
    ensures Arrivals(leg, n, a + b) == Arrivals(Arrivals(leg, n, a), n, b)
    decreases a
  {
    if a > 0 {
      ArrivalsSplit(Arrive(leg, n), n, a - 1, b);
    }
  }
}
