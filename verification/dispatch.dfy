/**
  Dispatch: matching a requested trip to the nearest available driver and
  recording the assignment. The delay before a match is attempted is not
  modelled; matching is a step of its own that a caller takes.
 */
module Dispatch {
  import opened Wrappers
  import opened Seqs
  import opened Geo
  import opened Types
  import opened Store
  import opened Matcher

  predicate IsAvailable(s: Store, id: string) {
    id in s.drivers && s.drivers[id].status == Available
  }

  /** Distance from a trip's pickup point to a driver's last reported position. */
  function PickupDistance(dist: DistanceFn, t: Trip, d: Driver): real {
    dist(t.pickup.latitude, t.pickup.longitude, d.location.latitude, d.location.longitude)
  }

  /**
    The available drivers' ids, in the store's iteration order: exactly the
    available ids, each once when the store lists each driver once.
   */
  function AvailableIds(s: Store): (ids: seq<string>)
    ensures forall i :: 0 <= i < |ids| ==> ids[i] in s.driverOrder && IsAvailable(s, ids[i])
    ensures forall i :: 0 <= i < |s.driverOrder| && IsAvailable(s, s.driverOrder[i]) ==> s.driverOrder[i] in ids
    ensures NoDup(s.driverOrder) ==> NoDup(ids)
  {
    var p := (id: string) => IsAvailable(s, id);
    var ids := Filter(s.driverOrder, p);
    assert NoDup(s.driverOrder) ==> NoDup(ids) by {
      if NoDup(s.driverOrder) {
        FilterNoDup(s.driverOrder, p);
      }
    }
    ids
  }

  /**
    The available ids keep the store's iteration order: any two of them,
    `ids[i]` before `ids[j]`, are listed by the store at places `a < b`.
   */
  lemma AvailableIdsInOrder(s: Store, i: int, j: int) returns (a: int, b: int)
    requires 0 <= i < j < |AvailableIds(s)|
    ensures 0 <= a < b < |s.driverOrder|
    ensures s.driverOrder[a] == AvailableIds(s)[i] && s.driverOrder[b] == AvailableIds(s)[j]
  {
    a, b := FilterSourceOrder(s.driverOrder, (id: string) => IsAvailable(s, id), i, j);
  }

  /** The pickup distances of the drivers `ids`, position by position. */
  function Distances(s: Store, t: Trip, dist: DistanceFn, ids: seq<string>): (ds: seq<real>)
    requires forall i :: 0 <= i < |ids| ==> ids[i] in s.drivers
    ensures |ds| == |ids|
    ensures forall i :: 0 <= i < |ids| ==> ds[i] == PickupDistance(dist, t, s.drivers[ids[i]])
  {
    seq(|ids|, i requires 0 <= i < |ids| => PickupDistance(dist, t, s.drivers[ids[i]]))
  }

  /**
    The driver the matcher picks for trip `t`: none when no driver is
    available, otherwise an available driver no farther from the pickup
    than any other available driver.
   */
  function ChosenDriver(s: Store, t: Trip, dist: DistanceFn): (c: Option<string>)
    ensures c.None? <==> forall i :: 0 <= i < |s.driverOrder| ==> !IsAvailable(s, s.driverOrder[i])
    ensures c.Some? ==> c.value in s.driverOrder && IsAvailable(s, c.value)
    ensures c.Some? ==> forall i :: 0 <= i < |s.driverOrder| && IsAvailable(s, s.driverOrder[i]) ==>
      PickupDistance(dist, t, s.drivers[c.value]) <= PickupDistance(dist, t, s.drivers[s.driverOrder[i]])
  {
    var avail := AvailableIds(s);
    if |avail| == 0 then None
    else
      var ds := Distances(s, t, dist, avail);
      var k := NearestIndex(ds);
      assert forall i :: 0 <= i < |s.driverOrder| && IsAvailable(s, s.driverOrder[i]) ==>
        PickupDistance(dist, t, s.drivers[avail[k]]) <= PickupDistance(dist, t, s.drivers[s.driverOrder[i]]) by {
        forall i | 0 <= i < |s.driverOrder| && IsAvailable(s, s.driverOrder[i])
          ensures PickupDistance(dist, t, s.drivers[avail[k]]) <= PickupDistance(dist, t, s.drivers[s.driverOrder[i]])
        {
          var j :| 0 <= j < |avail| && avail[j] == s.driverOrder[i];
          assert ds[k] <= ds[j];
        }
      }
      Some(avail[k])
  }

  /**
    Ties go to the driver met first: every available driver listed before
    the chosen one is strictly farther from the pickup.
   */
  lemma {:induction false} ChosenDriverTieBreak(s: Store, t: Trip, dist: DistanceFn, a: int, b: int)
    requires NoDup(s.driverOrder)
    requires ChosenDriver(s, t, dist).Some?
    requires 0 <= a < b < |s.driverOrder|
    requires s.driverOrder[b] == ChosenDriver(s, t, dist).value
    requires IsAvailable(s, s.driverOrder[a])
    ensures PickupDistance(dist, t, s.drivers[s.driverOrder[a]]) > PickupDistance(dist, t, s.drivers[s.driverOrder[b]])
  {
    var p := (id: string) => IsAvailable(s, id);
    var avail := AvailableIds(s);
    assert avail == Filter(s.driverOrder, p);
    var ds := Distances(s, t, dist, avail);
    var k := NearestIndex(ds);
    assert avail[k] == s.driverOrder[b];
    var i, j := FilterKeepsOrder(s.driverOrder, p, a, b);
    FilterNoDup(s.driverOrder, p);
    assert j == k;
    assert ds[k] < ds[i];
  }

  /** The trip record after a successful match with driver `d`. */
  function AssignedTrip(t: Trip, d: Driver, now: int, dist: DistanceFn): (a: Trip)
    ensures a.status == Assigned && a.driverId == Some(d.id) && a.driverName == Some(d.name)
    ensures a.estimatedArrival == Some(now + Eta(PickupDistance(dist, t, d)) * 60000)
    ensures a.(status := t.status, driverId := t.driverId, driverName := t.driverName,
               estimatedArrival := t.estimatedArrival) == t
  {
    t.(driverId := Some(d.id), driverName := Some(d.name), status := Assigned,
       estimatedArrival := Some(now + Eta(PickupDistance(dist, t, d)) * 60000))
  }

  /** A match is made when the trip exists, is still requested, and some driver is available. */
  predicate CanAssign(s: Store, tripId: string, dist: DistanceFn) {
    tripId in s.trips && s.trips[tripId].status == Requested && ChosenDriver(s, s.trips[tripId], dist).Some?
  }

  /**
    Matches trip `tripId` to the nearest available driver: the trip becomes
    `Assigned` to that driver with an estimated arrival, and the driver
    becomes `Busy`. A missing trip, a trip no longer `Requested`, or a
    fleet with no available driver leaves the store unchanged.
   */
  function AssignDriverToTrip(s: Store, tripId: string, now: int, dist: DistanceFn): (r: Store)
    ensures tripId !in s.trips ==> r == s
    ensures tripId in s.trips && s.trips[tripId].status != Requested ==> r == s
    ensures (forall i :: 0 <= i < |s.driverOrder| ==> !IsAvailable(s, s.driverOrder[i])) ==> r == s
    ensures CanAssign(s, tripId, dist) ==>
      var t := s.trips[tripId];
      var d := s.drivers[ChosenDriver(s, t, dist).value];
      && d.status == Available
      && r.trips == s.trips[tripId := AssignedTrip(t, d, now, dist)]
      && d.id in r.drivers && r.drivers[d.id] == d.(status := Busy)
      && (forall id :: id in s.drivers && id != d.id ==> id in r.drivers && r.drivers[id] == s.drivers[id])
      && r.riders == s.riders && r.tripOrder == s.tripOrder
    ensures Valid(s) ==> Valid(r) && r.driverOrder == s.driverOrder
  {
    if !CanAssign(s, tripId, dist) then s
    else
      var t := s.trips[tripId];
      var d := s.drivers[ChosenDriver(s, t, dist).value];
      var s1 := PutTrip(s, tripId, AssignedTrip(t, d, now, dist));
      PutDriver(s1, d.id, d.(status := Busy))
  }

  /**
    In a valid store the matched driver is nearest to the pickup among all
    available drivers of the store, and earliest in iteration order among
    equally near ones.
   */
  lemma AssignPicksNearest(s: Store, tripId: string, now: int, dist: DistanceFn)
    requires Valid(s) && CanAssign(s, tripId, dist)
    ensures var t := s.trips[tripId];
      var c := AssignDriverToTrip(s, tripId, now, dist).trips[tripId].driverId.value;
      && c == ChosenDriver(s, t, dist).value
      && IsAvailable(s, c)
      && (forall id :: IsAvailable(s, id) ==> PickupDistance(dist, t, s.drivers[c]) <= PickupDistance(dist, t, s.drivers[id]))
  {
  }

  /** With exactly one available driver, the trip goes to that driver. */
  lemma SingleAvailableDriverIsChosen(s: Store, tripId: string, now: int, dist: DistanceFn, c: string)
    requires Valid(s)
    requires tripId in s.trips && s.trips[tripId].status == Requested
    requires IsAvailable(s, c)
    requires forall id :: IsAvailable(s, id) ==> id == c
    ensures var r := AssignDriverToTrip(s, tripId, now, dist);
      && r.trips[tripId].status == Assigned
      && r.trips[tripId].driverId == Some(c)
      && r.drivers[c].status == Busy
      && r.trips[tripId].fare == s.trips[tripId].fare
  {
  }
}
