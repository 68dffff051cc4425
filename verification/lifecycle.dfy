/**
  The trip status update of the API service and its side effects on the
  assigned driver. The update sets whatever status it is given: no table
  of allowed transitions is consulted, so a finished trip can be reopened
  and a trip can be completed twice.
 */
module Lifecycle {
  import opened Wrappers
  import opened Geo
  import opened Types
  import opened Store
  import opened Dispatch

  const MillisPerMinute: int := 60000

  /**
    Whether setting `status` on trip `t` releases its driver: the status
    ends the trip, the trip names a driver (an empty id counts as none),
    and that driver is in the store.
   */
  predicate FreesDriver(s: Store, t: Trip, status: TripStatus) {
    && (status == Completed || status == Cancelled)
    && t.driverId.Some? && t.driverId.value != ""
    && t.driverId.value in s.drivers
  }

  /**
    Sets trip `tripId` to `status`. Completing or cancelling releases the
    trip's driver (back to `Available`; a completion also counts one more
    trip for that driver), and completing stamps the arrival time and the
    duration in whole minutes, rounded down. An unknown trip id leaves the
    store unchanged.
   */
  function UpdateTripStatus(s: Store, tripId: string, status: TripStatus, now: int): (r: Store)
    ensures tripId !in s.trips ==> r == s
    ensures tripId in s.trips ==>
      var t := s.trips[tripId];
      && tripId in r.trips
      && r.trips == s.trips[tripId := r.trips[tripId]]
      && r.trips[tripId].status == status
      && r.trips[tripId].(status := t.status, actualArrival := t.actualArrival, duration := t.duration) == t
    ensures tripId in s.trips && status == Completed ==>
      var t := s.trips[tripId];
      var u := r.trips[tripId];
      && u.actualArrival == Some(now)
      && u.duration.Some?
      && u.duration.value * MillisPerMinute <= now - t.createdAt < (u.duration.value + 1) * MillisPerMinute
    ensures tripId in s.trips && status != Completed ==>
      && r.trips[tripId].actualArrival == s.trips[tripId].actualArrival
      && r.trips[tripId].duration == s.trips[tripId].duration
    ensures tripId in s.trips && FreesDriver(s, s.trips[tripId], status) ==>
      var id := s.trips[tripId].driverId.value;
      var d := s.drivers[id];
      && r.drivers.Keys == s.drivers.Keys
      && r.drivers[id].status == Available
      && r.drivers[id].totalTrips == d.totalTrips + (if status == Completed then 1 else 0)
      && r.drivers[id].(status := d.status, totalTrips := d.totalTrips) == d
      && (forall other :: other in s.drivers && other != id ==> r.drivers[other] == s.drivers[other])
    ensures tripId in s.trips && !FreesDriver(s, s.trips[tripId], status) ==> r.drivers == s.drivers
    ensures r.riders == s.riders && r.driverOrder == s.driverOrder && r.tripOrder == s.tripOrder
    ensures Valid(s) ==> Valid(r)
  {
    if tripId !in s.trips then s
    else
      var t := s.trips[tripId].(status := status);
      var s1 :=
        if FreesDriver(s, t, status) then
          var d := s.drivers[t.driverId.value];
          PutDriver(s, t.driverId.value,
                    d.(status := Available, totalTrips := d.totalTrips + (if status == Completed then 1 else 0)))
        else s;
      var t1 :=
        if status == Completed then t.(actualArrival := Some(now), duration := Some((now - t.createdAt) / MillisPerMinute))
        else t;
      PutTrip(s1, tripId, t1)
  }

  /**
    The steps the rider and driver screens offer: a rider may cancel while
    the trip is requested or assigned, and a driver moves an assigned trip
    through pickup and the ride to completion.
   */
  predicate OfferedByScreens(from: TripStatus, to: TripStatus) {
    || (from in {Requested, Assigned} && to == Cancelled)
    || (from == Assigned && to == PickedUp)
    || (from == PickedUp && to == InProgress)
    || (from == InProgress && to == Completed)
  }

  /**
    The update does not check the current status: a completed trip can be
    moved back to requested, a step no screen offers.
   */
  lemma CompletedTripCanBeReopened(s: Store, tripId: string, now: int)
    requires tripId in s.trips && s.trips[tripId].status == Completed
    ensures !OfferedByScreens(Completed, Requested)
    ensures UpdateTripStatus(s, tripId, Requested, now).trips[tripId].status == Requested
  {
  }

  /** Completing a trip twice releases its driver twice and counts the trip twice. */
  lemma CompletingTwiceCountsTwice(s: Store, tripId: string, now1: int, now2: int)
    requires Valid(s)
    requires tripId in s.trips && FreesDriver(s, s.trips[tripId], Completed)
    ensures var id := s.trips[tripId].driverId.value;
      var r := UpdateTripStatus(UpdateTripStatus(s, tripId, Completed, now1), tripId, Completed, now2);
      && r.drivers[id].totalTrips == s.drivers[id].totalTrips + 2
      && r.drivers[id].status == Available
  {
  }

  /**
    A match followed by completion: the trip ends completed with the
    matched driver, and that driver is available again with one more trip
    and no other change; fare and distance are those set at request time.
   */
  lemma AssignThenComplete(s: Store, tripId: string, now1: int, now2: int, dist: DistanceFn)
    requires Valid(s) && CanAssign(s, tripId, dist)
    requires ChosenDriver(s, s.trips[tripId], dist).value != ""
    ensures var c := ChosenDriver(s, s.trips[tripId], dist).value;
      var r := UpdateTripStatus(AssignDriverToTrip(s, tripId, now1, dist), tripId, Completed, now2);
      && r.trips[tripId].status == Completed
      && r.trips[tripId].driverId == Some(c)
      && r.trips[tripId].fare == s.trips[tripId].fare
      && r.trips[tripId].distance == s.trips[tripId].distance
      && r.drivers[c] == s.drivers[c].(totalTrips := s.drivers[c].totalTrips + 1)
  {
  }

  /** Cancelling a matched trip releases its driver without counting a trip. */
  lemma AssignThenCancel(s: Store, tripId: string, now1: int, now2: int, dist: DistanceFn)
    requires Valid(s) && CanAssign(s, tripId, dist)
    requires ChosenDriver(s, s.trips[tripId], dist).value != ""
    ensures var c := ChosenDriver(s, s.trips[tripId], dist).value;
      var r := UpdateTripStatus(AssignDriverToTrip(s, tripId, now1, dist), tripId, Cancelled, now2);
      && r.trips[tripId].status == Cancelled
      && r.trips[tripId].driverId == Some(c)
      && r.drivers[c] == s.drivers[c]
  {
  }
}
