/**
  Geographic arithmetic of the dispatcher. The great-circle distance itself
  (a haversine formula over floating point) is not modelled: every operation
  that needs it receives it as a parameter of type `DistanceFn`, so the
  properties below hold for whatever distance function is supplied.
 */
module Geo {

  /** `dist(lat1, lon1, lat2, lon2)` in kilometres. */
  type DistanceFn = (real, real, real, real) -> real

  /** Average speed, in km/h, assumed when no speed is given. */
  const DefaultAverageSpeed: real := 30.0

  /** `Math.ceil` on reals: the least integer not below `x`. */
  function Ceil(x: real): (n: int)
    ensures x <= n as real < x + 1.0
  {
    var f := x.Floor;
    if f as real == x then f else f + 1
  }

  /** Only one integer lies in `[x, x + 1)`, so `Ceil` is the least integer not below `x`. */
  lemma CeilIsLeast(x: real, m: int)
    requires x <= m as real
    ensures Ceil(x) <= m
  {
  }

  /**
    Estimated travel time in whole minutes: the distance divided by the
    speed, converted from hours to minutes and rounded up.
   */
  function CalculateEta(distance: real, averageSpeed: real): (minutes: int)
    requires averageSpeed != 0.0
    ensures distance / averageSpeed * 60.0 <= minutes as real < distance / averageSpeed * 60.0 + 1.0
  {
    Ceil(distance / averageSpeed * 60.0)
  }

  /** `CalculateEta` at the default average speed. */
  function Eta(distance: real): (minutes: int)
    ensures distance * 2.0 <= minutes as real < distance * 2.0 + 1.0
  {
    CalculateEta(distance, DefaultAverageSpeed)
  }

  /** A non-negative distance at a positive speed takes a non-negative time, zero only for zero distance. */
  lemma EtaNonNegative(distance: real, averageSpeed: real)
    requires averageSpeed > 0.0 && distance >= 0.0
    ensures CalculateEta(distance, averageSpeed) >= 0
    ensures CalculateEta(distance, averageSpeed) == 0 <==> distance == 0.0
  {
  }

  /** At a fixed positive speed a longer distance never takes less time. */
  lemma EtaMonotone(d1: real, d2: real, averageSpeed: real)
    requires averageSpeed > 0.0 && d1 <= d2
    ensures CalculateEta(d1, averageSpeed) <= CalculateEta(d2, averageSpeed)
  {
    assert d1 / averageSpeed <= d2 / averageSpeed by {
      assert d2 / averageSpeed - d1 / averageSpeed == (d2 - d1) / averageSpeed;
    }
    CeilIsLeast(d1 / averageSpeed * 60.0, CalculateEta(d2, averageSpeed));
  }
}
