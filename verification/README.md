# RidePulse dispatch core, modelled in Dafny

RidePulse simulates a ride-hailing fleet. Riders request trips. The API
service stores drivers, riders and trips in memory and matches each
requested trip to the nearest available driver. It then tracks the trip
through its statuses and frees the driver when the trip ends. An event
service lets screens subscribe to topics such as `location_update` and
`trip_status`.

This project models these parts of that system as pure Dafny functions
over immutable values:

- **The entity store and its operations** (`project/src/services/api.ts`).
  The store is a `Store` value. Drivers and trips live in maps, and each
  map has a sequence that records insertion order. This mirrors a
  JavaScript `Map`: it iterates in insertion order, and setting an existing
  key keeps that key's place. Each operation takes the old store and
  returns the new one. Modules: `Store` (records, getters, driver updates,
  trip requests), `Dispatch` (nearest-driver matching), `Lifecycle` (status
  updates), and `Queries` (role-filtered trip lists and analytics).
- **The nearest-driver fold** (`Matcher`). It is the `reduce` that keeps
  the current best driver unless a later one is strictly nearer. So among
  equally near drivers, the first one in iteration order wins.
- **The topic registry** of `project/src/services/websocket.ts` (`Bus`).
  It maps each topic to a set of handler identities. Unsubscribing goes
  through an `Unsubscriber` value, which holds what the closure returned by
  `subscribe` captures. An emit is modelled as the set of handler calls it
  makes.
- **ETA arithmetic** of `project/src/utils/geolocation.ts` (`Geo`), over
  exact reals.

`calculateDistance` is not given a body. Each operation that needs it takes
a parameter `dist: (real, real, real, real) -> real`, so every property
below holds for any distance function. Likewise `Date.now()` is the
parameter `now` (milliseconds). A new trip's id is a parameter too. A
request whose id is already in use overwrites that trip, and the trip keeps
its place in the order.

JavaScript truthiness is modelled where the code depends on it:

- a missing rider or an empty rider name is stored as `"Unknown Rider"`;
- a missing or empty address is replaced by the formatted coordinates;
- an empty `driverId` counts as no driver when a trip ends;
- an empty `userId` in `getTrips` counts as no user.

Some behaviour of the code is easy to misread; the model states it as
the code has it:

- `updateTripStatus` (project/src/services/api.ts:205-232) checks nothing
  about the current status and sets any target status. The screens offer
  only a few steps: the rider screen shows Cancel while the trip is
  requested or assigned (project/src/components/RiderApp.tsx:230), and the
  driver screen moves an assigned trip to picked up, then in progress, then
  completed (project/src/components/DriverApp.tsx:283-311). These steps are
  recorded in `Lifecycle.OfferedByScreens`, which is used for comparison
  only. The service itself accepts more: a completed trip can be set back
  to requested (`Lifecycle.CompletedTripCanBeReopened`), and completing a
  trip twice counts it twice for its driver
  (`Lifecycle.CompletingTwiceCountsTwice`).
- When drivers are equally near, the reduce keeps the earlier one, because
  it replaces the current best only on a strictly smaller distance
  (project/src/services/api.ts:164). The tie therefore goes to the first
  available driver in the store's iteration order
  (`Dispatch.ChosenDriverTieBreak`).
- A trip's `duration` is the elapsed time in whole minutes rounded down
  with `Math.floor` (project/src/services/api.ts:226).
- `publish` does not consult the connection flag
  (project/src/services/websocket.ts:44-55). After `disconnect` it
  reaches no handler until one subscribes again, because `disconnect`
  drops every subscription. In the source the delivery happens 10–30 ms
  after the call, to whoever is subscribed then
  (project/src/services/websocket.ts:52-54); the model delivers at once,
  to the handlers subscribed at the call.

## Model

| member | source | states |
|---|---|---|
| Geo.CalculateEta | project/src/utils/geolocation.ts:27-30 | the ETA is the least whole number of minutes not below distance / speed * 60 |
| Geo.Eta | project/src/utils/geolocation.ts:27 | at the default speed of 30 km/h, the ETA is the least whole number of minutes not below twice the distance |
| Geo.CeilIsLeast | project/src/utils/geolocation.ts:29 | rounding up gives the least integer at or above its argument |
| Geo.EtaNonNegative | project/src/utils/geolocation.ts:29 | at a positive speed, a non-negative distance gives an ETA of at least 0, and the ETA is 0 exactly when the distance is 0 |
| Geo.EtaMonotone | project/src/utils/geolocation.ts:29 | at a fixed positive speed, a longer distance never gives a shorter ETA |
| Matcher.NearestIndex | project/src/services/api.ts:151-165 | the reduce ends on a smallest distance, and every earlier distance is strictly larger |
| Matcher.ReduceFrom | project/src/services/api.ts:151-165 | each step of the fold keeps the first minimum of the prefix it has seen |
| Matcher.FirstMinUnique | project/src/services/api.ts:164 | only one index is the first minimum, so the strict-less tie-break decides the winner |
| Store.GetDriver | project/src/services/api.ts:261-263 | returns the stored driver record exactly when the id is stored, and nothing when it is not |
| Store.GetRider | project/src/services/api.ts:265-267 | returns the stored rider record exactly when the id is stored, and nothing when it is not |
| Store.GetTrip | project/src/services/api.ts:269-271 | returns the stored trip record exactly when the id is stored, and nothing when it is not |
| Store.GettersReadUpdates | project/src/services/api.ts:98-105 | after a status update the driver reads back with the new status and otherwise unchanged; every other driver, rider and trip reads back as before |
| Store.GetDrivers | project/src/services/api.ts:84-87 | lists every stored driver, each once |
| Store.UpdateDriverLocation | project/src/services/api.ts:89-96 | an unknown id changes nothing; otherwise only that driver's location changes, to the given position stamped with now |
| Store.UpdateDriverStatus | project/src/services/api.ts:98-105 | an unknown id changes nothing; otherwise only that driver's status changes |
| Store.Fare | project/src/services/api.ts:129 | the fare is distance * 15 + 50 rounded up, so it is at least 50 for a non-negative distance |
| Store.ResolvePlace | project/src/services/api.ts:115-122 | the coordinates are kept; a missing or empty address becomes the formatted coordinates |
| Store.RiderName | project/src/services/api.ts:114 | the stored rider's name, or "Unknown Rider" when the rider is missing or the name is empty |
| Store.RequestTrip | project/src/services/api.ts:108-131 | stores a trip under the given id with status requested, no driver, created at now, distance from pickup to destination and the matching fare; nothing else in the store changes |
| Store.RequestTripCount | project/src/services/api.ts:112-131 | the new trip can be read back; a fresh id adds one trip and a used id replaces the old trip |
| Store.DriverUpdatesCommute | project/src/services/api.ts:89-105 | a status update and a location update give the same store in either order |
| Store.UpdateDriverStatusIdempotent | project/src/services/api.ts:98-105 | setting the same status twice equals setting it once |
| Dispatch.AvailableIds | project/src/services/api.ts:146-147 | lists exactly the available drivers, each once when the store lists each driver once |
| Dispatch.AvailableIdsInOrder | project/src/services/api.ts:146-147 | the filter keeps the store's iteration order: any two available ids appear in the order the store lists them |
| Dispatch.ChosenDriver | project/src/services/api.ts:145-165 | picks no driver exactly when none is available; otherwise picks an available driver no farther from the pickup than any other available driver |
| Dispatch.ChosenDriverTieBreak | project/src/services/api.ts:151-165 | every available driver earlier in iteration order than the chosen one is strictly farther from the pickup |
| Dispatch.AssignedTrip | project/src/services/api.ts:168-178 | the matched trip is assigned to the driver's id and name, with estimated arrival now + ETA * 60000; no other field changes |
| Dispatch.AssignDriverToTrip | project/src/services/api.ts:141-184 | no change for a missing trip, a trip that is not requested, or a fleet with no available driver; otherwise the trip is assigned, the chosen driver becomes busy, and every other driver and trip is unchanged |
| Dispatch.AssignPicksNearest | project/src/services/api.ts:145-183 | the driver recorded on the trip was available and is nearest to the pickup among all available drivers in the store |
| Dispatch.SingleAvailableDriverIsChosen | project/src/services/api.ts:141-183 | with exactly one available driver, the trip is assigned to that driver, the driver becomes busy, and the fare is unchanged |
| Lifecycle.UpdateTripStatus | project/src/services/api.ts:205-232 | an unknown trip changes nothing; otherwise the trip takes the target status whatever its current one; completing or cancelling frees a named, stored driver, and only completion adds one trip to that driver's count; completion stamps arrival = now and a duration in minutes rounded down; in every other case the drivers are unchanged |
| Lifecycle.CompletedTripCanBeReopened | project/src/services/api.ts:207-209 | a completed trip can be set back to requested, a step no screen offers |
| Lifecycle.CompletingTwiceCountsTwice | project/src/services/api.ts:211-222 | completing the same trip twice adds two to its driver's trip count |
| Lifecycle.AssignThenComplete | project/src/services/api.ts:205-232 | after a match and then completion, the trip is completed with the matched driver and its original fare and distance, and that driver is available again with one more trip |
| Lifecycle.AssignThenCancel | project/src/services/api.ts:211-222 | after a match and then cancellation, the matched driver is exactly as it was before the match |
| Queries.AllTripsComplete | project/src/services/api.ts:188 | the ordered trip list holds exactly the stored trips, one entry per id |
| Queries.GetTrips | project/src/services/api.ts:186-203 | all trips for an admin or when no user is named; for a driver exactly the trips with that driver id; for a rider exactly the trips with that rider id; none when a user is named without a role; in a valid store no trip is listed twice |
| Queries.GetTripsInOrder | project/src/services/api.ts:188-199 | the trips a caller sees keep the store's insertion order, as `.filter` over the map's values does |
| Queries.AssignedTripVisibleToDriver | project/src/services/api.ts:194-196 | a newly matched trip is among the matched driver's trips |
| Queries.InsertByCreatedDesc | project/src/services/api.ts:251 | insertion adds exactly the one trip and keeps every other trip; the first entry is the new trip or the old first one |
| Queries.InsertPlace | project/src/services/api.ts:251 | the new trip lands after the leading trips that are at least as new and before the first strictly older one |
| Queries.InsertKeepsSorted | project/src/services/api.ts:251 | inserting into a newest-first list keeps it newest first |
| Queries.SortByCreatedDesc | project/src/services/api.ts:250-251 | the result is a permutation of the trips, newest first |
| Queries.InsertIsStable | project/src/services/api.ts:251 | among trips created at the same time, an inserted trip goes after those already in the list |
| Queries.SortIsStable | project/src/services/api.ts:250-251 | the sort is stable: for every creation time, the trips created then keep their input order |
| Queries.CompletedTrips | project/src/services/api.ts:243 | holds exactly the completed trips, and in a valid store each of them once, so its length is the completed-trip count |
| Queries.ActiveDrivers | project/src/services/api.ts:244 | holds exactly the stored drivers that are not offline, and in a valid store each of them once, so its length is the active-driver count |
| Queries.DriverStatusChangesActiveCount | project/src/services/api.ts:244 | changing one driver's status moves the active count by the change in that driver's activity, and the driver count stays the same |
| Queries.RecentTrips | project/src/services/api.ts:250-252 | holds min(10, trip count) trips, newest first, all taken from the stored trips |
| Queries.GetAnalytics | project/src/services/api.ts:235-254 | counts the completed trips (at most all trips) and the drivers not offline (at most all drivers); revenue sums the completed trips' fares; the recent list holds the newest trips; the trip and driver counts equal the store sizes |
| Queries.RecentTripsAreNewest | project/src/services/api.ts:250-252 | no trip left out of the recent list is newer than any trip in it |
| Queries.Revenue | project/src/services/api.ts:247-249 | the revenue is 0 when no trip is completed, and, when no fare is negative, at least the fare of every completed trip |
| Queries.RevenueNonNegative | project/src/services/api.ts:247-249 | revenue is at least 0 when no fare is negative, a missing fare counting as 0 |
| Queries.CompletionAddsRevenue | project/src/services/api.ts:247-249 | completing a trip that was not completed adds one completed trip and adds its fare to the revenue |
| Bus.Initial | project/src/services/websocket.ts:4-6 | a new service is disconnected and has no listeners |
| Bus.Connect | project/src/services/websocket.ts:8-15 | after connecting, isConnected reports true and the subscriptions are unchanged |
| Bus.Disconnect | project/src/services/websocket.ts:17-24 | after disconnecting, isConnected reports false and no topic has a listener |
| Bus.Subscribe | project/src/services/websocket.ts:26-41 | the handler joins the topic's set, other topics are unchanged, and the returned unsubscriber names this topic and handler |
| Bus.Unsubscribe | project/src/services/websocket.ts:33-41 | removes the handler from its topic and drops the topic once it is empty; other topics are unchanged; an unregistered topic is left alone |
| Bus.Emit | project/src/services/websocket.ts:57-62 | calls exactly the registered handlers, each once, with the data; a topic with no listeners gets no calls |
| Bus.Publish | project/src/services/websocket.ts:44-55 | hands the bare payload, not the message wrapper, to exactly the handlers emit reaches, whether connected or not |
| Bus.ConnectionFlag | project/src/services/websocket.ts:114-116 | isConnected is false at first, true after connect, false after disconnect, and unchanged by subscribing and unsubscribing |
| Bus.SubscribeIdempotent | project/src/services/websocket.ts:26-30 | subscribing the same handler twice equals subscribing it once |
| Bus.SubscribedHandlerReceives | project/src/services/websocket.ts:26-62 | a handler that has just subscribed receives what is emitted on its topic |
| Bus.SubscribeThenUnsubscribe | project/src/services/websocket.ts:26-41 | subscribing a new handler and then running the returned unsubscriber restores the registry |
| Bus.UnsubscribeIdempotent | project/src/services/websocket.ts:33-41 | running an unsubscriber a second time changes nothing |
| Bus.DisconnectSilences | project/src/services/websocket.ts:17-24 | after a disconnect, emit and publish reach nobody and old unsubscribers change nothing |

## Left out

- Great-circle distance (`calculateDistance`, project/src/utils/geolocation.ts:4-22): transcendental floating-point maths. It is a parameter of every operation that needs it, and no property of it is assumed.
- `generateRandomLocation` (project/src/utils/geolocation.ts:35-47): randomness and floating point.
- Mock seeding and mock login (project/src/services/api.ts:17-81): random data and fake authentication. No operation in the model adds drivers or riders. `Store.Empty` is the empty store.
- Simulated latency: `delay`, the 2–5 s timer before a match, the jitter in `publish`, and the periodic location simulation (`startSimulation`, `generateDriverLocationUpdates`). Matching is a separate step that the caller takes. Publishing delivers at once, to the listeners registered at that moment.
- Generating trip ids from `Date.now()`: the id is a parameter.
- Aliasing: `requestTrip`, `getTrip`, `getTrips`, `getDriver`, `getRider`, `getDrivers` and the `recentTrips` of `getAnalytics` return the stored objects themselves, and later updates change those objects in place, so a caller holding one sees the effects of a later match, status change or location update. The model returns values: each read is a copy taken at the time of the call.
- Floating point: coordinates, distances and ratings are exact reals. NaN and Infinity are not modelled.
- Address formatting: the fallback address is the two coordinates written with `toFixed(4)` and joined by a comma (project/src/services/api.ts:117, project/src/services/api.ts:121). Decimal formatting of floating-point numbers is not modelled; it is the parameter `format` of `Store.ResolvePlace` and `Store.RequestTrip`, and the model promises only that a missing or empty address is replaced by `format` of the coordinates.
- Geo.CalculateEta: a zero average speed is excluded by the precondition. In the source it yields Infinity or NaN. Every caller (project/src/services/api.ts:171, project/src/components/RiderApp.tsx:353 and project/src/components/RiderApp.tsx:416) uses the default speed of 30.
- Queries.GetAnalytics: `averageRating` is not computed. It is a floating-point mean, and it is NaN when there are no drivers.
- Bus.Emit: handlers are called in the insertion order of a JavaScript `Set`, and a handler that throws stops the handlers after it. The model gives deliveries as a set, so it captures neither. A handler that subscribes or unsubscribes during an emit is not modelled either.
- Bus.Connect: each `connect` starts another simulation interval, and `disconnect` stops only the latest one. This belongs to the location simulation, which is not modelled.
- `users`, `baseURL` and `getDrivers`' delay: unused state or latency only.
