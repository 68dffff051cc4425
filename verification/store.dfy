/**
  The in-memory entity store of the API service: drivers, riders and trips
  keyed by id. A JavaScript `Map` iterates in insertion order and keeps a
  key's position when the key is set again, so drivers and trips carry an
  explicit insertion order beside their maps; riders are never iterated.
  Every operation is a pure function from the store before to the store
  after; the clock (`Date.now()`) is the parameter `now`.
 */
module Store {
  import opened Wrappers
  import opened Seqs
  import opened Geo
  import opened Types

  datatype Store = Store(
    drivers: map<string, Driver>,
    driverOrder: seq<string>,
    riders: map<string, Rider>,
    trips: map<string, Trip>,
    tripOrder: seq<string>)

  /**
    The representation invariant: each order lists its map's keys exactly
    once, and every record is filed under its own id.
   */
  predicate Valid(s: Store) {
    && NoDup(s.driverOrder)
    && (forall i :: 0 <= i < |s.driverOrder| ==> s.driverOrder[i] in s.drivers)
    && (forall id :: id in s.drivers ==> id in s.driverOrder && s.drivers[id].id == id)
    && NoDup(s.tripOrder)
    && (forall i :: 0 <= i < |s.tripOrder| ==> s.tripOrder[i] in s.trips)
    && (forall id :: id in s.trips ==> id in s.tripOrder && s.trips[id].id == id)
    && (forall id :: id in s.riders ==> s.riders[id].id == id)
  }

  /** The store with no records. */
  function Empty(): (s: Store)
    ensures Valid(s)
    ensures |s.drivers| == 0 && |s.riders| == 0 && |s.trips| == 0
  {
    Store(map[], [], map[], map[], [])
  }

  /** `drivers.set(key, d)`: a new key goes to the end of the order, an existing one keeps its place. */
  function PutDriver(s: Store, key: string, d: Driver): (r: Store)
    ensures r.drivers == s.drivers[key := d]
    ensures key in s.drivers ==> r.driverOrder == s.driverOrder
    ensures r.riders == s.riders && r.trips == s.trips && r.tripOrder == s.tripOrder
    ensures Valid(s) && d.id == key ==> Valid(r)
  {
    s.(drivers := s.drivers[key := d],
       driverOrder := if key in s.drivers then s.driverOrder else s.driverOrder + [key])
  }

  /** `trips.set(key, t)`, with the same ordering rule as `PutDriver`. */
  function PutTrip(s: Store, key: string, t: Trip): (r: Store)
    ensures r.trips == s.trips[key := t]
    ensures key in s.trips ==> r.tripOrder == s.tripOrder
    ensures key !in s.trips ==> r.tripOrder == s.tripOrder + [key]
    ensures r.riders == s.riders && r.drivers == s.drivers && r.driverOrder == s.driverOrder
    ensures Valid(s) && t.id == key ==> Valid(r)
  {
    s.(trips := s.trips[key := t],
       tripOrder := if key in s.trips then s.tripOrder else s.tripOrder + [key])
  }

  /** The stored driver `driverId`, if any. */
  function GetDriver(s: Store, driverId: string): (r: Option<Driver>)
    ensures r.Some? <==> driverId in s.drivers
    ensures r.Some? ==> r.value == s.drivers[driverId]
    ensures Valid(s) && r.Some? ==> r.value.id == driverId
  {
    if driverId in s.drivers then Some(s.drivers[driverId]) else None
  }

  /** The stored rider `riderId`, if any. */
  function GetRider(s: Store, riderId: string): (r: Option<Rider>)
    ensures r.Some? <==> riderId in s.riders
    ensures r.Some? ==> r.value == s.riders[riderId]
    ensures Valid(s) && r.Some? ==> r.value.id == riderId
  {
    if riderId in s.riders then Some(s.riders[riderId]) else None
  }

  /** The stored trip `tripId`, if any. */
  function GetTrip(s: Store, tripId: string): (r: Option<Trip>)
    ensures r.Some? <==> tripId in s.trips
    ensures r.Some? ==> r.value == s.trips[tripId]
    ensures Valid(s) && r.Some? ==> r.value.id == tripId
  {
    if tripId in s.trips then Some(s.trips[tripId]) else None
  }

  /** All drivers, in insertion order. */
  function GetDrivers(s: Store): (r: seq<Driver>)
    ensures forall i :: 0 <= i < |r| ==> r[i] in s.drivers.Values
    ensures Valid(s) ==> |r| == |s.drivers| && forall id :: id in s.drivers ==> s.drivers[id] in r
    ensures Valid(s) ==> NoDup(r)
  {
    var r := ValuesInOrder(s.driverOrder, s.drivers);
    assert Valid(s) ==> |r| == |s.drivers| && (forall id :: id in s.drivers ==> s.drivers[id] in r) && NoDup(r) by {
      if Valid(s) {
        ValuesInOrderAllPresent(s.driverOrder, s.drivers);
        NoDupCardinality(s.driverOrder);
        assert (set id | id in s.driverOrder) == s.drivers.Keys;
        DriversInOrderDistinct(s);
      }
    }
    r
  }

  /** Drivers are filed under their own ids, so listing them by a duplicate-free order repeats none. */
  lemma DriversInOrderDistinct(s: Store)
    requires Valid(s)
    ensures NoDup(ValuesInOrder(s.driverOrder, s.drivers))
  {
    var r := ValuesInOrder(s.driverOrder, s.drivers);
    ValuesInOrderAllPresent(s.driverOrder, s.drivers);
    forall i, j | 0 <= i < j < |r|
      ensures r[i] != r[j]
    {
      assert r[i].id == s.driverOrder[i] && r[j].id == s.driverOrder[j];
    }
  }


  /**
    A driver's new position, stamped with the store's clock. An unknown
    driver id leaves the store as it was.
   */
  function UpdateDriverLocation(s: Store, driverId: string, position: Position, now: int): (r: Store)
    ensures driverId !in s.drivers ==> r == s
    ensures r.(drivers := s.drivers) == s
    ensures r.drivers.Keys == s.drivers.Keys
    ensures forall id :: id in s.drivers && id != driverId ==> r.drivers[id] == s.drivers[id]
    ensures driverId in s.drivers ==>
      && r.drivers[driverId].location.latitude == position.latitude
      && r.drivers[driverId].location.longitude == position.longitude
      && r.drivers[driverId].location.heading == position.heading
      && r.drivers[driverId].location.timestamp == now
      && r.drivers[driverId].(location := s.drivers[driverId].location) == s.drivers[driverId]
    ensures Valid(s) ==> Valid(r)
  {
    if driverId in s.drivers then
      var d := s.drivers[driverId];
      PutDriver(s, driverId, d.(location := DriverLocation(position.latitude, position.longitude, position.heading, now)))
    else s
  }

  /** A driver's new status. An unknown driver id leaves the store as it was. */
  function UpdateDriverStatus(s: Store, driverId: string, status: DriverStatus): (r: Store)
    ensures driverId !in s.drivers ==> r == s
    ensures r.(drivers := s.drivers) == s
    ensures r.drivers.Keys == s.drivers.Keys
    ensures forall id :: id in s.drivers && id != driverId ==> r.drivers[id] == s.drivers[id]
    ensures driverId in s.drivers ==>
      && r.drivers[driverId].status == status
      && r.drivers[driverId].(status := s.drivers[driverId].status) == s.drivers[driverId]
    ensures Valid(s) ==> Valid(r)
  {
    if driverId in s.drivers then
      PutDriver(s, driverId, s.drivers[driverId].(status := status))
    else s
  }

  /** Policy constants of the fare: a base amount plus a rate per kilometre. */
  const BaseFare: real := 50.0
  const PerKmRate: real := 15.0

  /** The fare of a trip of `distance` km, rounded up to a whole currency unit. */
  function Fare(distance: real): (fare: int)
    ensures distance * PerKmRate + BaseFare <= fare as real < distance * PerKmRate + BaseFare + 1.0
    ensures distance >= 0.0 ==> fare >= 50
  {
    Ceil(distance * PerKmRate + BaseFare)
  }

  /** A submitted place as stored: a missing or empty address becomes the formatted coordinates. */
  function ResolvePlace(p: PlaceRequest, format: (real, real) -> string): (place: Place)
    ensures place.latitude == p.latitude && place.longitude == p.longitude
    ensures p.address.Some? && p.address.value != "" ==> place.address == p.address.value
    ensures p.address.None? || p.address.value == "" ==> place.address == format(p.latitude, p.longitude)
  {
    var given := p.address.GetOr("");
    Place(p.latitude, p.longitude, if given != "" then given else format(p.latitude, p.longitude))
  }

  /** The name recorded for a rider: a missing rider or an empty name reads as "Unknown Rider". */
  function RiderName(s: Store, riderId: string): (name: string)
    ensures riderId in s.riders && s.riders[riderId].name != "" ==> name == s.riders[riderId].name
    ensures riderId !in s.riders || s.riders[riderId].name == "" ==> name == "Unknown Rider"
  {
    if riderId in s.riders && s.riders[riderId].name != "" then s.riders[riderId].name else "Unknown Rider"
  }

  /**
    A rider's trip request: a new trip in status `Requested`, with no driver,
    whose distance and fare are computed once from pickup and destination.
    The trip is stored under `tripId`; an existing trip with that id is
    overwritten and keeps its place in the order.
   */
  function RequestTrip(s: Store, tripId: string, riderId: string, pickup: PlaceRequest, destination: PlaceRequest,
                       now: int, dist: DistanceFn, format: (real, real) -> string): (r: (Store, Trip))
    ensures r.1.id == tripId && r.1.riderId == riderId && r.1.riderName == RiderName(s, riderId)
    ensures r.1.status == Requested && r.1.driverId.None? && r.1.driverName.None?
    ensures r.1.createdAt == now
    ensures r.1.estimatedArrival.None? && r.1.actualArrival.None? && r.1.duration.None?
    ensures r.1.pickup == ResolvePlace(pickup, format) && r.1.destination == ResolvePlace(destination, format)
    ensures r.1.distance == Some(dist(pickup.latitude, pickup.longitude, destination.latitude, destination.longitude))
    ensures r.1.fare == Some(Fare(r.1.distance.value))
    ensures r.1.distance.value >= 0.0 ==> r.1.fare.value >= 50
    ensures r.0.trips == s.trips[tripId := r.1]
    ensures r.0.tripOrder == (if tripId in s.trips then s.tripOrder else s.tripOrder + [tripId])
    ensures r.0.drivers == s.drivers && r.0.driverOrder == s.driverOrder && r.0.riders == s.riders
    ensures Valid(s) ==> Valid(r.0)
  {
    var distance := dist(pickup.latitude, pickup.longitude, destination.latitude, destination.longitude);
    var trip := Trip(tripId, riderId, RiderName(s, riderId), None, None,
                     ResolvePlace(pickup, format), ResolvePlace(destination, format),
                     Requested, now, None, None, Some(Fare(distance)), Some(distance), None);
    (PutTrip(s, tripId, trip), trip)
  }

  /** A request under a fresh id adds one trip; under a used id it replaces that trip. */
  lemma RequestTripCount(s: Store, tripId: string, riderId: string, pickup: PlaceRequest, destination: PlaceRequest,
                         now: int, dist: DistanceFn, format: (real, real) -> string)
    ensures var r := RequestTrip(s, tripId, riderId, pickup, destination, now, dist, format);
      && GetTrip(r.0, tripId) == Some(r.1)
      && (tripId in s.trips ==> |r.0.trips| == |s.trips|)
      && (tripId !in s.trips ==> |r.0.trips| == |s.trips| + 1)
  {
  }

  /** Setting a driver's status and its location touch different fields, so the two commute. */
  lemma DriverUpdatesCommute(s: Store, a: string, status: DriverStatus, b: string, position: Position, now: int)
    ensures UpdateDriverStatus(UpdateDriverLocation(s, b, position, now), a, status)
         == UpdateDriverLocation(UpdateDriverStatus(s, a, status), b, position, now)
  {
  }

  /** Setting the same status twice is the same as setting it once. */
  lemma UpdateDriverStatusIdempotent(s: Store, driverId: string, status: DriverStatus)
    ensures UpdateDriverStatus(UpdateDriverStatus(s, driverId, status), driverId, status)
         == UpdateDriverStatus(s, driverId, status)
  {
  }

  /**
    The getters read what the updates wrote: after a status update the
    driver reads back with the new status and nothing else changed, and
    every other driver, rider and trip reads back as before.
   */
  lemma GettersReadUpdates(s: Store, driverId: string, status: DriverStatus, other: string)
    requires other != driverId
    ensures var r := UpdateDriverStatus(s, driverId, status);
      && (GetDriver(s, driverId).Some? ==> GetDriver(r, driverId) == Some(GetDriver(s, driverId).value.(status := status)))
      && (GetDriver(s, driverId).None? ==> GetDriver(r, driverId).None?)
      && GetDriver(r, other) == GetDriver(s, other)
      && GetRider(r, other) == GetRider(s, other)
      && GetTrip(r, other) == GetTrip(s, other)
  {
  }
}
