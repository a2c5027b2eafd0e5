/** The update loop and the registry of running simulations: internal/simulation/manager.go. */
module Simulation {
  import opened Common
  import opened Routing

  /** One live-location update. */
  datatype Update = Update(seqNo: nat, elapsedSec: real, distanceKm: real, point: RoutePoint)

  datatype Trip = Trip(points: seq<TrackPoint>, dist: Distance, bearing: Bearing, speedKmh: real)

  ghost predicate TripOk(trip: Trip) {
    |trip.points| >= 2 && trip.speedKmh > 0.0 && Total(trip.points, trip.dist) > 0.0
  }

  function KmPerSec(speedKmh: real): real { speedKmh / 3600.0 }

  /** `clock(i)` is the time since the start at which the loop's i-th round reads the clock. */
  type Clock = nat -> real

  /** The clock does not run backwards, and round i waits for the i-th tick of the ticker, which was
      made up to `lag` seconds before the start time was taken. */
  ghost predicate ClockOk(clock: Clock, interval: real, lag: real) {
    && interval > 0.0 && lag >= 0.0
    && (forall i: nat :: clock(i) >= 0.0 && clock(i) >= i as real * interval - lag)
    && (forall i: nat, j: nat :: i <= j ==> clock(i) <= clock(j))
  }

  function UpdateAt(trip: Trip, clock: Clock, i: nat): Update
    requires |trip.points| >= 2
  {
    var d := clock(i) * KmPerSec(trip.speedKmh);
    Update(i + 1, clock(i), d, PositionAt(trip.points, trip.dist, trip.bearing, d, trip.speedKmh))
  }

  function Ceil(x: real): int { -((-x).Floor) }

  /** The round by which the end of the route must have been reached. */
  function LastRound(trip: Trip, interval: real, lag: real): int
    requires trip.speedKmh > 0.0 && interval > 0.0
  {
    Ceil((Total(trip.points, trip.dist) / KmPerSec(trip.speedKmh) + lag) / interval)
  }

  lemma ArrivedByLastRound(trip: Trip, clock: Clock, interval: real, lag: real, i: nat)
    requires TripOk(trip) && ClockOk(clock, interval, lag) && i >= LastRound(trip, interval, lag)
    ensures clock(i) * KmPerSec(trip.speedKmh) >= Total(trip.points, trip.dist)
  {
    var v, total := KmPerSec(trip.speedKmh), Total(trip.points, trip.dist);
    var need := (total / v + lag) / interval;
    TimesMonotone(need, i as real, interval);
    DivideBack(total / v + lag, interval);
    assert clock(i) >= total / v;
    TimesMonotone(total / v, clock(i), v);
    DivideBack(total, v);
  }

  /** `rounds(i)` is the update of round i. (The trigger keeps `UpdateAt` folded where only `rounds` is used.) */
  ghost predicate Describes(rounds: nat -> Update, trip: Trip, clock: Clock)
    requires |trip.points| >= 2
  {
    forall i: nat {:trigger UpdateAt(trip, clock, i)} :: rounds(i) == UpdateAt(trip, clock, i)
  }

  /** The updates of a run: round after round until the end of the route or a cancellation. */
  ghost predicate IsRun(updates: seq<Update>, rounds: nat -> Update, total: real, stopped: nat -> bool) {
    && updates != []
    && (forall i :: 0 <= i < |updates| ==> updates[i] == rounds(i))
    && (forall i :: 0 <= i < |updates| - 1 ==> updates[i].distanceKm < total && !stopped(i))
    && (updates[|updates| - 1].distanceKm >= total || stopped(|updates| - 1))
  }

  lemma RoundArrives(rounds: nat -> Update, trip: Trip, clock: Clock, interval: real, lag: real, i: nat)
    requires TripOk(trip) && ClockOk(clock, interval, lag) && Describes(rounds, trip, clock)
    requires i >= LastRound(trip, interval, lag)
    ensures rounds(i).distanceKm >= Total(trip.points, trip.dist)
  {
    ArrivedByLastRound(trip, clock, interval, lag, i);
    assert rounds(i) == UpdateAt(trip, clock, i);
  }

  /** One round: read the clock, compute the position, send. */
  method Round(route: Route, trip: Trip, clock: Clock, seqNo: nat, ghost rounds: nat -> Update) returns (u: Update)
    requires route.Valid() && TripOk(trip) && Describes(rounds, trip, clock) && seqNo >= 1
    requires route.points == trip.points && route.dist == trip.dist && route.bearing == trip.bearing
    ensures u == rounds(seqNo - 1)
  {
    var kmPerSec := trip.speedKmh / 3600.0;
    var elapsed := clock(seqNo - 1);
    var distKm := elapsed * kmPerSec;
    var pt := route.PointAt(distKm, trip.speedKmh);
    u := Update(seqNo, elapsed, distKm, pt);
    assert u == UpdateAt(trip, clock, seqNo - 1);
  }

  /** The background loop. `stopped(i)` says that the select after round i saw the cancellation. */
  method Run(route: Route, trip: Trip, clock: Clock, stopped: nat -> bool,
             ghost rounds: nat -> Update, ghost interval: real, ghost lag: real)
    returns (updates: seq<Update>)
    requires route.Valid() && TripOk(trip) && ClockOk(clock, interval, lag) && Describes(rounds, trip, clock)
    requires route.points == trip.points && route.dist == trip.dist && route.bearing == trip.bearing
    ensures IsRun(updates, rounds, Total(trip.points, trip.dist), stopped)
    ensures |updates| <= LastRound(trip, interval, lag) + 1
  {
    ghost var last := LastRound(trip, interval, lag);
    var seqNo := 1;
    updates := [];
    LastRoundPositive(trip, clock, interval, lag);
    while true
      invariant seqNo == |updates| + 1 && |updates| <= last
      invariant forall i :: 0 <= i < |updates| ==> updates[i] == rounds(i)
      invariant forall i :: 0 <= i < |updates| ==> updates[i].distanceKm < route.total && !stopped(i)
      decreases last - |updates|
    {
      var u := Round(route, trip, clock, seqNo, rounds);
      updates := updates + [u];
      seqNo := seqNo + 1;
      if u.distanceKm >= route.total {
        return;
      }
      if |updates| - 1 >= last {
        RoundArrives(rounds, trip, clock, interval, lag, |updates| - 1);
        assert false;
      }
      if stopped(|updates| - 1) {
        return;
      }
    }
  }

  lemma LastRoundPositive(trip: Trip, clock: Clock, interval: real, lag: real)
    requires TripOk(trip) && ClockOk(clock, interval, lag)
    ensures LastRound(trip, interval, lag) >= 0
  {
    var v, total := KmPerSec(trip.speedKmh), Total(trip.points, trip.dist);
    assert total / v >= 0.0;
    assert (total / v + lag) / interval >= 0.0;
  }

  // ---------------------------------------------------------------- what the updates say

  ghost predicate AtEnd(pt: RoutePoint, trip: Trip)
    requires TripOk(trip)
  {
    var end := trip.points[|trip.points| - 1];
    pt == RoutePoint(end.lat, end.lon, 0, 0.0)
  }

  lemma RoundsOrdered(trip: Trip, clock: Clock, i: nat, j: nat)
    requires TripOk(trip) && clock(i) <= clock(j)
    ensures UpdateAt(trip, clock, i).distanceKm <= UpdateAt(trip, clock, j).distanceKm
  {
    TimesMonotone(clock(i), clock(j), KmPerSec(trip.speedKmh));
  }

  lemma ArrivalIsEnd(trip: Trip, clock: Clock, i: nat)
    requires TripOk(trip)
    ensures AtEnd(UpdateAt(trip, clock, i).point, trip)
            <==> UpdateAt(trip, clock, i).distanceKm >= Total(trip.points, trip.dist)
  {
  }

  /** A simulation that is never stopped numbers its updates 1, 2, 3, …, never moves backwards, and
      its last update, and no other, is the arrival: the route's final point at speed zero. */
  lemma RunArrives(updates: seq<Update>, rounds: nat -> Update, trip: Trip, clock: Clock, stopped: nat -> bool,
                   interval: real, lag: real)
    requires TripOk(trip) && ClockOk(clock, interval, lag) && Describes(rounds, trip, clock)
    requires IsRun(updates, rounds, Total(trip.points, trip.dist), stopped) && forall i :: !stopped(i)
    ensures forall i :: 0 <= i < |updates| ==> updates[i].seqNo == i + 1
    ensures forall i, j :: 0 <= i <= j < |updates| ==> updates[i].distanceKm <= updates[j].distanceKm
    ensures forall i :: 0 <= i < |updates| ==> (AtEnd(updates[i].point, trip) <==> i == |updates| - 1)
  {
    forall i | 0 <= i < |updates| ensures updates[i].seqNo == i + 1 {
      assert rounds(i) == UpdateAt(trip, clock, i);
    }
    forall i, j | 0 <= i <= j < |updates| ensures updates[i].distanceKm <= updates[j].distanceKm {
      RoundsOrdered(trip, clock, i, j);
    }
    forall i | 0 <= i < |updates| ensures AtEnd(updates[i].point, trip) <==> i == |updates| - 1 {
      ArrivalIsEnd(trip, clock, i);
    }
  }

  /** What update `i` of any run says: the time since the start, the distance covered by then at the trip's
      speed, and the route's point there. */
  lemma UpdateSays(updates: seq<Update>, rounds: nat -> Update, trip: Trip, clock: Clock, stopped: nat -> bool, i: nat)
    requires TripOk(trip) && Describes(rounds, trip, clock)
    requires IsRun(updates, rounds, Total(trip.points, trip.dist), stopped) && i < |updates|
    ensures var u := updates[i];
            && u.seqNo == i + 1 && u.elapsedSec == clock(i)
            && u.distanceKm * 3600.0 == u.elapsedSec * trip.speedKmh
            && u.point == PositionAt(trip.points, trip.dist, trip.bearing, u.distanceKm, trip.speedKmh)
  {
    assert rounds(i) == UpdateAt(trip, clock, i);
    assert KmPerSec(trip.speedKmh) * 3600.0 == trip.speedKmh;
    assert clock(i) * KmPerSec(trip.speedKmh) * 3600.0 == clock(i) * (KmPerSec(trip.speedKmh) * 3600.0);
  }

  /** Stopping only cuts the run short: what was sent is a prefix of what would have been. */
  lemma StoppedRunIsPrefix(
    updates: seq<Update>, full: seq<Update>, rounds: nat -> Update, total: real,
    stopped: nat -> bool, never: nat -> bool)
    requires IsRun(updates, rounds, total, stopped) && IsRun(full, rounds, total, never)
    requires forall i :: !never(i)
    ensures updates <= full
  {
    var last := |full| - 1;
    assert full[last] == rounds(last) && rounds(last).distanceKm >= total;
    assert forall i: nat :: i < |updates| - 1 ==> rounds(i).distanceKm < total;
  }

  /** The trip's estimate, in minutes. */
  function EstimatedMinutes(trip: Trip): real
    requires trip.speedKmh > 0.0
  {
    Total(trip.points, trip.dist) / trip.speedKmh * 60.0
  }

  lemma EstimateIsTravelTime(trip: Trip, t: real)
    requires TripOk(trip)
    ensures t * KmPerSec(trip.speedKmh) >= Total(trip.points, trip.dist) <==> t >= EstimatedMinutes(trip) * 60.0
  {
    var s, total := trip.speedKmh, Total(trip.points, trip.dist);
    DivideBack(total, s);
    var q := total / s;
    assert t * KmPerSec(s) == t / 3600.0 * s;
    if t / 3600.0 >= q {
      TimesMonotone(q, t / 3600.0, s);
    } else {
      assert (q - t / 3600.0) * s > 0.0;
    }
  }

  /** The arrival is the first update at or after the estimated time. */
  lemma ArrivalMatchesEstimate(
    updates: seq<Update>, rounds: nat -> Update, trip: Trip, clock: Clock, stopped: nat -> bool)
    requires TripOk(trip) && Describes(rounds, trip, clock)
    requires IsRun(updates, rounds, Total(trip.points, trip.dist), stopped) && forall i :: !stopped(i)
    ensures forall i :: 0 <= i < |updates| ==>
              (updates[i].elapsedSec >= EstimatedMinutes(trip) * 60.0 <==> i == |updates| - 1)
  {
    forall i | 0 <= i < |updates|
      ensures updates[i].distanceKm >= Total(trip.points, trip.dist)
              <==> updates[i].elapsedSec >= EstimatedMinutes(trip) * 60.0
    {
      EstimateOfRound(trip, clock, i);
    }
  }

  lemma EstimateOfRound(trip: Trip, clock: Clock, i: nat)
    requires TripOk(trip)
    ensures var u := UpdateAt(trip, clock, i);
            u.distanceKm >= Total(trip.points, trip.dist) <==> u.elapsedSec >= EstimatedMinutes(trip) * 60.0
  {
    EstimateIsTravelTime(trip, clock(i));
  }

  // ---------------------------------------------------------------- the registry

  datatype ActiveSim = ActiveSim(totalDistanceKm: real, estimatedMinutes: real, waypoints: nat,
                                 speedKmh: real, intervalSeconds: real, cancelled: bool)

  lemma EstimateFits(total: real, speed: real)
    requires speed > 0.0
    ensures (total / speed * 60.0) * speed == total * 60.0
  {
    DivideBack(total, speed);
  }

  class Manager {
    var active: map<string, ActiveSim>
    ghost var running: multiset<string>  // the IDs of the goroutines that have not returned

    /** A simulation is listed exactly while it runs. */
    ghost predicate Exact()
      reads this
    {
      forall id :: id in active <==> id in running
    }

    constructor ()
      ensures Exact() && active == map[] && running == multiset{}
    {
      active, running := map[], multiset{};
    }

    /** Registers the simulation, with the request's defaults; a route of zero length is refused. */
    method Start(id: string, route: Route, speedKmh: real, intervalSeconds: real) returns (ok: bool)
      requires route.Valid() && |route.points| >= 2
      modifies this
      ensures ok <==> Total(route.points, route.dist) != 0.0
      ensures !ok ==> active == old(active) && running == old(running)
      ensures ok ==>
                && running == old(running) + multiset{id}
                && active.Keys == old(active).Keys + {id}
                && active[id].speedKmh == (if speedKmh > 0.0 then speedKmh else 60.0)
                && active[id].intervalSeconds == (if intervalSeconds > 0.0 then intervalSeconds else 5.0)
                && active[id].totalDistanceKm == Total(route.points, route.dist)
                && active[id].estimatedMinutes * active[id].speedKmh == Total(route.points, route.dist) * 60.0
                && active[id].waypoints == |route.points| && !active[id].cancelled
                && (forall other :: other in old(active) && other != id ==> active[other] == old(active)[other])
      ensures old(Exact()) ==> Exact()
    {
      var speed := if speedKmh <= 0.0 then 60.0 else speedKmh;
      var interval := if intervalSeconds <= 0.0 then 5.0 else intervalSeconds;
      if route.total == 0.0 {
        return false;
      }
      EstimateFits(route.total, speed);
      var sim := ActiveSim(route.total, route.total / speed * 60.0, |route.points|, speed, interval, false);
      active := active[id := sim];
      running := running + multiset{id};
      return true;
    }

    /** Cancels; the entry stays until the goroutine returns. */
    method Stop(id: string) returns (found: bool)
      modifies this`active
      ensures found <==> id in old(active)
      ensures active.Keys == old(active).Keys
      ensures found ==> active == old(active)[id := old(active)[id].(cancelled := true)]
      ensures old(Exact()) ==> Exact()
    {
      if id !in active {
        return false;
      }
      active := active[id := active[id].(cancelled := true)];
      return true;
    }

    /** The goroutine's deferred delete. The listing stays exact if and only if no other running
        simulation was given the same random ID. */
    method Finish(id: string)
      requires id in running
      modifies this
      ensures active == old(active) - {id} && running == old(running) - multiset{id}
      ensures old(Exact()) ==> (Exact() <==> old(running)[id] == 1)
    {
      active := active - {id};
      running := running - multiset{id};
      if Exact() {
        assert id !in running;
      }
    }
  }
}
