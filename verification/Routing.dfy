/** Positions along a route: NewRoute and PointAt in internal/simulation/route.go, over the reals. */
module Routing {
  import opened Common

  datatype TrackPoint = TrackPoint(lat: real, lon: real)

  datatype RoutePoint = RoutePoint(lat: real, lon: real, bearing: int, speedMps: real)

  /** The great-circle distance is kept abstract: any non-negative function of two points. */
  type Distance = d: (TrackPoint, TrackPoint) -> real | forall a, b :: d(a, b) >= 0.0 witness (a, b) => 0.0

  type Bearing = (TrackPoint, TrackPoint) -> int

  /** Distance along the track from its start to point `i`. */
  function Cum(points: seq<TrackPoint>, dist: Distance, i: nat): real
    requires i < |points|
  {
    if i == 0 then 0.0 else Cum(points, dist, i - 1) + dist(points[i - 1], points[i])
  }

  function Total(points: seq<TrackPoint>, dist: Distance): real {
    if points == [] then 0.0 else Cum(points, dist, |points| - 1)
  }

  lemma {:induction false} CumGrows(points: seq<TrackPoint>, dist: Distance, i: nat, j: nat)
    requires i <= j < |points|
    ensures Cum(points, dist, i) <= Cum(points, dist, j)
    decreases j - i
  {
    if i < j {
      CumGrows(points, dist, i, j - 1);
    }
  }

  /** The reference search: the last index up to `i` whose distance is at most `d`, scanning down. */
  function LastAtMost(points: seq<TrackPoint>, dist: Distance, d: real, i: nat): (k: nat)
    requires i < |points|
    ensures k <= i
  {
    if i == 0 || Cum(points, dist, i) <= d then i else LastAtMost(points, dist, d, i - 1)
  }

  lemma {:induction false} LastAtMostIs(points: seq<TrackPoint>, dist: Distance, d: real, i: nat, k: nat)
    requires k <= i < |points| && Cum(points, dist, k) <= d
    requires forall j :: k < j <= i ==> Cum(points, dist, j) > d
    ensures LastAtMost(points, dist, d, i) == k
  {
    if k < i {
      assert Cum(points, dist, i) > d;
      LastAtMostIs(points, dist, d, i - 1, k);
    }
  }

  /** The point at fraction `t` of the segment from `a` to `b`. */
  function Interpolate(a: TrackPoint, b: TrackPoint, t: real, bearing: int, speedMps: real): RoutePoint {
    RoutePoint(a.lat + t * (b.lat - a.lat), a.lon + t * (b.lon - a.lon), bearing, speedMps)
  }

  function Fraction(points: seq<TrackPoint>, dist: Distance, d: real, k: nat): real
    requires k + 1 < |points|
  {
    var length := Cum(points, dist, k + 1) - Cum(points, dist, k);
    if length > 0.0 then (d - Cum(points, dist, k)) / length else 0.0
  }

  /** Where a traveller is after `d` km: the route's start, its end, or on the segment found by the scan. */
  function PositionAt(points: seq<TrackPoint>, dist: Distance, bearing: Bearing, d: real, speedKmh: real): RoutePoint
    requires |points| >= 2
  {
    var n := |points|;
    if d <= 0.0 then
      RoutePoint(points[0].lat, points[0].lon, bearing(points[0], points[1]), speedKmh / 3.6)
    else if d >= Total(points, dist) then
      RoutePoint(points[n - 1].lat, points[n - 1].lon, 0, 0.0)
    else
      var k := LastAtMost(points, dist, d, n - 2);
      Interpolate(points[k], points[k + 1], Fraction(points, dist, d, k), bearing(points[k], points[k + 1]), speedKmh / 3.6)
  }

  class Route {
    const points: seq<TrackPoint>
    const dist: Distance
    const bearing: Bearing
    var cumDist: array<real>
    var total: real

    ghost predicate Valid()
      reads this, cumDist
    {
      && cumDist.Length == |points|
      && (forall i :: 0 <= i < |points| ==> cumDist[i] == Cum(points, dist, i))
      && total == Total(points, dist)
    }

    constructor (points: seq<TrackPoint>, dist: Distance, bearing: Bearing)
      ensures Valid() && fresh(cumDist)
      ensures this.points == points && this.dist == dist && this.bearing == bearing
    {
      this.points, this.dist, this.bearing := points, dist, bearing;
      var cum, sum := Accumulate(points, dist);
      cumDist := cum;
      total := sum;
    }

    static method Accumulate(points: seq<TrackPoint>, dist: Distance) returns (cum: array<real>, total: real)
      ensures fresh(cum) && cum.Length == |points| && total == Total(points, dist)
      ensures forall i :: 0 <= i < |points| ==> cum[i] == Cum(points, dist, i)
    {
      cum := new real[|points|](_ => 0.0);
      total := 0.0;
      if |points| > 0 {
        total := Fill(points, dist, cum);
      }
    }

    static method Fill(points: seq<TrackPoint>, dist: Distance, cum: array<real>) returns (total: real)
      requires cum.Length == |points| > 0 && cum[0] == 0.0
      modifies cum
      ensures total == Cum(points, dist, |points| - 1)
      ensures forall i :: 0 <= i < |points| ==> cum[i] == Cum(points, dist, i)
    {
      total := 0.0;
      for i := 1 to |points|
        invariant total == Cum(points, dist, i - 1)
        invariant forall k :: 0 <= k < i ==> cum[k] == Cum(points, dist, k)
      {
        total := total + dist(points[i - 1], points[i]);
        cum[i] := total;
      }
    }

    /** Binary search for the segment that contains `distKm`. */
    method FindSegment(distKm: real) returns (lo: nat)
      requires Valid() && |points| >= 2 && 0.0 < distKm < total
      ensures lo + 1 < |points| && lo == LastAtMost(points, dist, distKm, |points| - 2)
    {
      var hi := |points| - 1;
      lo := 0;
      while lo + 1 < hi
        invariant lo < hi < |points| && cumDist[lo] <= distKm < cumDist[hi]
      {
        var mid := (lo + hi) / 2;
        if cumDist[mid] <= distKm {
          lo := mid;
        } else {
          hi := mid;
        }
      }
      forall j | lo < j <= |points| - 2 ensures Cum(points, dist, j) > distKm {
        CumGrows(points, dist, hi, j);
      }
      LastAtMostIs(points, dist, distKm, |points| - 2, lo);
    }

    method PointAt(distKm: real, speedKmh: real) returns (pt: RoutePoint)
      requires Valid() && |points| >= 2
      ensures pt == PositionAt(points, dist, bearing, distKm, speedKmh)
    {
      if distKm <= 0.0 {
        return RoutePoint(points[0].lat, points[0].lon, bearing(points[0], points[1]), speedKmh / 3.6);
      }
      var n := |points|;
      if distKm >= total {
        return RoutePoint(points[n - 1].lat, points[n - 1].lon, 0, 0.0);
      }
      var lo := FindSegment(distKm);
      var hi := lo + 1;
      var segLen := cumDist[hi] - cumDist[lo];
      var t := 0.0;
      if segLen > 0.0 {
        t := (distKm - cumDist[lo]) / segLen;
      }
      return Interpolate(points[lo], points[hi], t, bearing(points[lo], points[hi]), speedKmh / 3.6);
    }
  }

  // ---------------------------------------------------------------- what a position means

  lemma {:induction false} LastAtMostBrackets(points: seq<TrackPoint>, dist: Distance, d: real, i: nat)
    requires i < |points| && d >= 0.0
    ensures var k := LastAtMost(points, dist, d, i);
            k <= i && Cum(points, dist, k) <= d && forall j :: k < j <= i ==> Cum(points, dist, j) > d
  {
    if !(i == 0 || Cum(points, dist, i) <= d) {
      LastAtMostBrackets(points, dist, d, i - 1);
    }
  }

  /** Strictly inside the route, the segment found has positive length, the fraction is in [0, 1),
      and going that fraction along the segment makes the distance travelled exactly `d`. */
  lemma PositionIsAtDistance(points: seq<TrackPoint>, dist: Distance, d: real)
    requires |points| >= 2 && 0.0 < d < Total(points, dist)
    ensures var k := LastAtMost(points, dist, d, |points| - 2);
            var t := Fraction(points, dist, d, k);
            var length := dist(points[k], points[k + 1]);
            && Cum(points, dist, k) <= d < Cum(points, dist, k + 1)
            && length > 0.0 && 0.0 <= t < 1.0
            && Cum(points, dist, k) + t * length == d
  {
    LastAtMostBrackets(points, dist, d, |points| - 2);
    var k := LastAtMost(points, dist, d, |points| - 2);
    var length := dist(points[k], points[k + 1]);
    assert Cum(points, dist, k + 1) == Cum(points, dist, k) + length;
    ProperFraction(d - Cum(points, dist, k), length);
  }

  lemma ProperFraction(a: real, b: real)
    requires 0.0 <= a < b
    ensures 0.0 <= a / b < 1.0 && a / b * b == a
  {
    var q := a / b;
    DivideBack(a, b);
    if q >= 1.0 {
      TimesMonotone(1.0, q, b);
      assert false;
    }
  }

  /** Further along means not an earlier segment, and on the same segment not a smaller fraction:
      the simulated traveller never moves backwards. */
  lemma PositionNeverGoesBack(points: seq<TrackPoint>, dist: Distance, d: real, e: real)
    requires |points| >= 2 && 0.0 < d <= e < Total(points, dist)
    ensures var k, l := LastAtMost(points, dist, d, |points| - 2), LastAtMost(points, dist, e, |points| - 2);
            k < l || (k == l && Fraction(points, dist, d, k) <= Fraction(points, dist, e, l))
  {
    PositionIsAtDistance(points, dist, d);
    PositionIsAtDistance(points, dist, e);
    var k, l := LastAtMost(points, dist, d, |points| - 2), LastAtMost(points, dist, e, |points| - 2);
    if k > l {
      CumGrows(points, dist, l + 1, k);
      assert false;
    } else if k == l {
      var from, length := Cum(points, dist, k), Cum(points, dist, k + 1) - Cum(points, dist, k);
      DivideOrder(d - from, e - from, length);
    }
  }

  lemma DivideOrder(a: real, b: real, c: real)
    requires c > 0.0 && a <= b
    ensures a / c <= b / c
  {
    var p, q := a / c, b / c;
    assert p * c == a && q * c == b;
    if p > q {
      TimesGrowsStrictly(q, p, c);
      assert false;
    }
  }

  lemma TimesGrowsStrictly(a: real, b: real, c: real)
    requires a < b && c > 0.0
    ensures a * c < b * c
  {
    assert (b - a) * c > 0.0;
  }

  /** `pt` is as far along the latitudes and the longitudes from `a` to `b` as `gone` is along `length`,
      heading for `b` at the given speed. */
  ghost predicate IsPartWay(pt: RoutePoint, a: TrackPoint, b: TrackPoint, gone: real, length: real, bearing: int, speedKmh: real) {
    && (pt.lat - a.lat) * length == gone * (b.lat - a.lat)
    && (pt.lon - a.lon) * length == gone * (b.lon - a.lon)
    && pt.bearing == bearing && pt.speedMps * 3.6 == speedKmh
  }

  lemma SegmentOf(points: seq<TrackPoint>, dist: Distance, d: real)
    requires |points| >= 2 && 0.0 < d < Total(points, dist)
    ensures var k := LastAtMost(points, dist, d, |points| - 2);
            && Cum(points, dist, k) <= d < Cum(points, dist, k + 1)
            && Cum(points, dist, k + 1) == Cum(points, dist, k) + dist(points[k], points[k + 1])
  {
    LastAtMostBrackets(points, dist, d, |points| - 2);
  }

  lemma PositionInterpolates(points: seq<TrackPoint>, dist: Distance, bearing: Bearing, d: real, speedKmh: real, k: nat)
    requires |points| >= 2 && 0.0 < d < Total(points, dist) && k == LastAtMost(points, dist, d, |points| - 2)
    requires Cum(points, dist, k + 1) == Cum(points, dist, k) + dist(points[k], points[k + 1])
    requires dist(points[k], points[k + 1]) > 0.0
    ensures PositionAt(points, dist, bearing, d, speedKmh)
            == Interpolate(points[k], points[k + 1], (d - Cum(points, dist, k)) / dist(points[k], points[k + 1]),
                           bearing(points[k], points[k + 1]), speedKmh / 3.6)
  {
  }

  /** Strictly inside the route the point lies on the segment that `d` falls in, as far along it as `d` is. */
  lemma PointIsOnSegment(points: seq<TrackPoint>, dist: Distance, bearing: Bearing, d: real, speedKmh: real) returns (k: nat)
    requires |points| >= 2 && 0.0 < d < Total(points, dist)
    ensures k + 1 < |points| && Cum(points, dist, k) <= d < Cum(points, dist, k + 1)
    ensures dist(points[k], points[k + 1]) > 0.0
    ensures IsPartWay(PositionAt(points, dist, bearing, d, speedKmh), points[k], points[k + 1], d - Cum(points, dist, k),
                      dist(points[k], points[k + 1]), bearing(points[k], points[k + 1]), speedKmh)
  {
    k := LastAtMost(points, dist, d, |points| - 2);
    SegmentOf(points, dist, d);
    PositionInterpolates(points, dist, bearing, d, speedKmh, k);
    InterpolateSays(points[k], points[k + 1], d - Cum(points, dist, k), dist(points[k], points[k + 1]),
                    bearing(points[k], points[k + 1]), speedKmh);
  }

  lemma InterpolateSays(a: TrackPoint, b: TrackPoint, gone: real, length: real, bearing: int, speedKmh: real)
    requires length > 0.0
    ensures IsPartWay(Interpolate(a, b, gone / length, bearing, speedKmh / 3.6), a, b, gone, length, bearing, speedKmh)
  {
    PartWay(a.lat, b.lat - a.lat, gone, length);
    PartWay(a.lon, b.lon - a.lon, gone, length);
  }

  lemma PartWay(start: real, x: real, gone: real, length: real)
    requires length > 0.0
    ensures (start + gone / length * x - start) * length == gone * x
  {
    var t := gone / length;
    DivideBack(gone, length);
    assert (t * x) * length == (t * length) * x;
  }

  /** Before the start, the route's first point, heading for the second. */
  lemma PointAtStart(points: seq<TrackPoint>, dist: Distance, bearing: Bearing, d: real, speedKmh: real)
    requires |points| >= 2 && d <= 0.0
    ensures var pt := PositionAt(points, dist, bearing, d, speedKmh);
            && pt.lat == points[0].lat && pt.lon == points[0].lon
            && pt.bearing == bearing(points[0], points[1]) && pt.speedMps * 3.6 == speedKmh
  {
  }
}
