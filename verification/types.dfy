/** The records the dispatcher stores: drivers, riders and trips. */
module Types {
  import opened Wrappers

  datatype DriverStatus = Available | Busy | Offline

  datatype TripStatus = Requested | Assigned | PickedUp | InProgress | Completed | Cancelled

  datatype VehicleType = Car | Bike | Auto

  /** The role a caller of the trip query acts in. */
  datatype Role = AsDriver | AsRider | AsAdmin

  /** A driver's last reported position; `timestamp` is in milliseconds. */
  datatype DriverLocation = DriverLocation(latitude: real, longitude: real, heading: real, timestamp: int)

  /** A position report as a driver sends it, before the store stamps it. */
  datatype Position = Position(latitude: real, longitude: real, heading: real)

  datatype Driver = Driver(
    id: string,
    name: string,
    phone: string,
    vehicleType: VehicleType,
    vehicleNumber: string,
    location: DriverLocation,
    status: DriverStatus,
    rating: real,
    totalTrips: int)

  datatype Coordinates = Coordinates(latitude: real, longitude: real)

  datatype Rider = Rider(id: string, name: string, phone: string, location: Option<Coordinates>, rating: real)

  /** A pickup or destination point of a stored trip. */
  datatype Place = Place(latitude: real, longitude: real, address: string)

  /** A pickup or destination point as a rider submits it; the address may be missing. */
  datatype PlaceRequest = PlaceRequest(latitude: real, longitude: real, address: Option<string>)

  /** A trip; all times are milliseconds since the epoch, `duration` is in minutes. */
  datatype Trip = Trip(
    id: string,
    riderId: string,
    riderName: string,
    driverId: Option<string>,
    driverName: Option<string>,
    pickup: Place,
    destination: Place,
    status: TripStatus,
    createdAt: int,
    estimatedArrival: Option<int>,
    actualArrival: Option<int>,
    fare: Option<int>,
    distance: Option<real>,
    duration: Option<int>)
}
