/**
  Read-only queries of the API service: trips filtered by the caller's
  role, and the aggregate figures of the admin dashboard.
 */
module Queries {
  import opened Wrappers
  import opened Seqs
  import opened Types
  import opened Store
  import opened Dispatch
  import opened Lifecycle

  /** All trips, in insertion order. */
  function AllTrips(s: Store): seq<Trip> {
    ValuesInOrder(s.tripOrder, s.trips)
  }

  /** In a valid store the ordered list holds exactly the stored trips, one entry per id. */
  lemma {:induction false} AllTripsComplete(s: Store)
    requires Valid(s)
    ensures |AllTrips(s)| == |s.tripOrder| == |s.trips|
    ensures forall i :: 0 <= i < |s.tripOrder| ==> AllTrips(s)[i] == s.trips[s.tripOrder[i]]
    ensures forall id :: id in s.trips ==> s.trips[id] in AllTrips(s)
    ensures forall t :: t in AllTrips(s) <==> t in s.trips.Values
    ensures NoDup(AllTrips(s))
  {
    ValuesInOrderAllPresent(s.tripOrder, s.trips);
    NoDupCardinality(s.tripOrder);
    assert (set id | id in s.tripOrder) == s.trips.Keys;
    forall t | t in s.trips.Values
      ensures t in AllTrips(s)
    {
      var id :| id in s.trips && s.trips[id] == t;
      var i :| 0 <= i < |s.tripOrder| && s.tripOrder[i] == id;
      assert AllTrips(s)[i] == t;
    }
    forall i, j | 0 <= i < j < |AllTrips(s)|
      ensures AllTrips(s)[i] != AllTrips(s)[j]
    {
      assert AllTrips(s)[i].id == s.tripOrder[i] && AllTrips(s)[j].id == s.tripOrder[j];
    }
  }

  /**
    The trips a caller may see: everything for an admin or when no user is
    named (an empty id counts as none), the trips driven by the user for a
    driver, the trips ridden by the user for a rider, and nothing when a
    user is named without a role.
   */
  function GetTrips(s: Store, userId: Option<string>, role: Option<Role>): (r: seq<Trip>)
    ensures |r| <= |AllTrips(s)|
    ensures userId.None? || userId.value == "" || role == Some(AsAdmin) ==> r == AllTrips(s)
    ensures userId.Some? && userId.value != "" && role == Some(AsDriver) ==>
      forall t :: t in r <==> t in AllTrips(s) && t.driverId == userId
    ensures userId.Some? && userId.value != "" && role == Some(AsRider) ==>
      forall t :: t in r <==> t in AllTrips(s) && t.riderId == userId.value
    ensures userId.Some? && userId.value != "" && role.None? ==> r == []
    ensures Valid(s) ==> NoDup(r)
  {
    var all := AllTrips(s);
    if userId.None? || userId.value == "" || role == Some(AsAdmin) then
      assert Valid(s) ==> NoDup(all) by {
        if Valid(s) {
          AllTripsComplete(s);
        }
      }
      all
    else if role == Some(AsDriver) then
      var driven := (t: Trip) => t.driverId == userId;
      assert Valid(s) ==> NoDup(Filter(all, driven)) by {
        if Valid(s) {
          AllTripsComplete(s);
          FilterNoDup(all, driven);
        }
      }
      Filter(all, driven)
    else if role == Some(AsRider) then
      var ridden := (t: Trip) => t.riderId == userId.value;
      assert Valid(s) ==> NoDup(Filter(all, ridden)) by {
        if Valid(s) {
          AllTripsComplete(s);
          FilterNoDup(all, ridden);
        }
      }
      Filter(all, ridden)
    else []
  }

  /**
    The trips a caller sees keep the store's insertion order: any two of
    them, `r[i]` before `r[j]`, sit at places `a < b` of the full list.
   */
  lemma GetTripsInOrder(s: Store, userId: Option<string>, role: Option<Role>, i: int, j: int) returns (a: int, b: int)
    requires 0 <= i < j < |GetTrips(s, userId, role)|
    ensures 0 <= a < b < |AllTrips(s)|
    ensures AllTrips(s)[a] == GetTrips(s, userId, role)[i] && AllTrips(s)[b] == GetTrips(s, userId, role)[j]
  {
    var all := AllTrips(s);
    if userId.None? || userId.value == "" || role == Some(AsAdmin) {
      a, b := i, j;
    } else if role == Some(AsDriver) {
      a, b := FilterSourceOrder(all, (t: Trip) => t.driverId == userId, i, j);
    } else {
      a, b := FilterSourceOrder(all, (t: Trip) => t.riderId == userId.value, i, j);
    }
  }

  /** A trip that has just been matched is among the matched driver's trips. */
  lemma AssignedTripVisibleToDriver(s: Store, tripId: string, now: int, dist: Geo.DistanceFn)
    requires Valid(s) && CanAssign(s, tripId, dist)
    ensures var c := ChosenDriver(s, s.trips[tripId], dist).value;
      var r := AssignDriverToTrip(s, tripId, now, dist);
      r.trips[tripId] in GetTrips(r, Some(c), Some(AsDriver))
  {
  }

  predicate IsCompleted(t: Trip) {
    t.status == Completed
  }

  /** A trip's fare, with a missing fare counting as zero. */
  function FareOrZero(t: Trip): int {
    t.fare.GetOr(0)
  }

  /** Newest first by creation time. */
  predicate SortedDesc(ts: seq<Trip>) {
    forall i, j :: 0 <= i < j < |ts| ==> ts[i].createdAt >= ts[j].createdAt
  }

  /**
    Places `t` after the leading trips that are at least as new and before
    the first strictly older one, so trips already in place keep their
    order among equals.
   */
  function InsertByCreatedDesc(t: Trip, ts: seq<Trip>): (r: seq<Trip>)
    ensures |r| == |ts| + 1
    ensures multiset(r) == multiset(ts) + multiset{t}
    ensures r[0] == t || (|ts| > 0 && r[0] == ts[0])
  {
    if |ts| == 0 then [t]
    else if ts[0].createdAt >= t.createdAt then
      assert ts == [ts[0]] + ts[1..];
      [ts[0]] + InsertByCreatedDesc(t, ts[1..])
    else [t] + ts
  }

  /** `k` is where `t` goes in `ts`: after the leading trips at least as new, before the first older one. */
  predicate IsInsertPlace(t: Trip, ts: seq<Trip>, k: int) {
    && 0 <= k <= |ts|
    && (forall i :: 0 <= i < k ==> ts[i].createdAt >= t.createdAt)
    && (k < |ts| ==> ts[k].createdAt < t.createdAt)
  }

  /** A trip at least as new as `t` in front moves the insertion place one step on. */
  lemma InsertPlaceStep(t: Trip, ts: seq<Trip>, k: int)
    requires |ts| > 0 && ts[0].createdAt >= t.createdAt
    requires IsInsertPlace(t, ts[1..], k)
    ensures IsInsertPlace(t, ts, k + 1)
  {
    forall i | 0 < i < k + 1
      ensures ts[i].createdAt >= t.createdAt
    {
      assert ts[i] == ts[1..][i - 1];
    }
    assert k + 1 < |ts| ==> ts[k + 1] == ts[1..][k];
  }

  /** A trip at least as new as `t` in front stays in front of the insertion's split. */
  lemma InsertConsSplits(t: Trip, ts: seq<Trip>, k: int)
    requires |ts| > 0 && ts[0].createdAt >= t.createdAt && 0 <= k < |ts|
    requires InsertByCreatedDesc(t, ts[1..]) == ts[1..][..k] + [t] + ts[1..][k..]
    ensures InsertByCreatedDesc(t, ts) == ts[..k + 1] + [t] + ts[k + 1..]
  {
    var tail := ts[1..];
    var rest := InsertByCreatedDesc(t, tail);
    assert InsertByCreatedDesc(t, ts) == [ts[0]] + rest;
    ConsInsertAt(ts[0], tail, k, t);
    assert [ts[0]] + tail == ts;
  }

  /**
    Where the insertion puts `t`: at place `k`, after the `k` leading trips,
    all at least as new as `t`, and before the first strictly older one.
   */
  lemma {:induction false} InsertPlace(t: Trip, ts: seq<Trip>) returns (k: int)
    ensures 0 <= k <= |ts| && InsertByCreatedDesc(t, ts) == ts[..k] + [t] + ts[k..]
    ensures forall i :: 0 <= i < k ==> ts[i].createdAt >= t.createdAt
    ensures k < |ts| ==> ts[k].createdAt < t.createdAt
  {
    if |ts| == 0 {
      k := 0;
    } else if ts[0].createdAt >= t.createdAt {
      var tail := ts[1..];
      var k' := InsertPlace(t, tail);
      InsertPlaceStep(t, ts, k');
      k := k' + 1;
      InsertConsSplits(t, ts, k');
    } else {
      k := 0;
      assert ts[..0] + [t] + ts[0..] == [t] + ts;
    }
  }

  /** Inserting into a newest-first list keeps it newest first. */
  lemma {:induction false} InsertKeepsSorted(t: Trip, ts: seq<Trip>)
    requires SortedDesc(ts)
    ensures SortedDesc(InsertByCreatedDesc(t, ts))
  {
    if |ts| > 0 && ts[0].createdAt >= t.createdAt {
      var rest := InsertByCreatedDesc(t, ts[1..]);
      InsertKeepsSorted(t, ts[1..]);
      assert rest[0].createdAt <= ts[0].createdAt;
      assert InsertByCreatedDesc(t, ts) == [ts[0]] + rest;
    }
  }

  /** The trips ordered newest first (an insertion sort). */
  function SortByCreatedDesc(ts: seq<Trip>): (r: seq<Trip>)
    ensures |r| == |ts|
    ensures multiset(r) == multiset(ts)
    ensures SortedDesc(r)
  {
    if |ts| == 0 then []
    else
      assert ts == ts[..|ts| - 1] + [ts[|ts| - 1]];
      InsertKeepsSorted(ts[|ts| - 1], SortByCreatedDesc(ts[..|ts| - 1]));
      InsertByCreatedDesc(ts[|ts| - 1], SortByCreatedDesc(ts[..|ts| - 1]))
  }

  /** Whether a trip was created at time `c`. */
  function AtTime(c: int): Trip -> bool {
    (u: Trip) => u.createdAt == c
  }

  /** The trips of `ts` created at time `c`, in their order in `ts`. */
  function CreatedAt(ts: seq<Trip>, c: int): seq<Trip> {
    Filter(ts, AtTime(c))
  }

  /** No trip in `ts` was created at `c` when all of them are older than `c`. */
  lemma {:induction false} OlderHaveNoneAt(ts: seq<Trip>, c: int)
    requires forall i :: 0 <= i < |ts| ==> ts[i].createdAt < c
    ensures CreatedAt(ts, c) == []
  {
    if |ts| > 0 {
      OlderHaveNoneAt(ts[1..], c);
      assert !AtTime(c)(ts[0]);
    }
  }

  /** Inserting `t` into a newest-first list appends it to the trips of its own creation time. */
  lemma InsertIsStable(t: Trip, ts: seq<Trip>, c: int)
    requires SortedDesc(ts)
    ensures CreatedAt(InsertByCreatedDesc(t, ts), c) == CreatedAt(ts, c) + (if t.createdAt == c then [t] else [])
  {
    var k := InsertPlace(t, ts);
    var newer, older := ts[..k], ts[k..];
    assert CreatedAt(ts, c) == CreatedAt(newer + older, c) by {
      assert ts == newer + older;
    }
    if t.createdAt == c {
      OlderAfterPlace(t, ts, k);
      OlderHaveNoneAt(older, c);
    }
    var mid := if t.createdAt == c then [t] else [];
    assert AtTime(c)(t) == (t.createdAt == c);
    FilterMoveToEnd(newer, t, older, AtTime(c));
    assert Filter(newer + [t] + older, AtTime(c)) == CreatedAt(newer + older, c) + mid;
    assert CreatedAt(InsertByCreatedDesc(t, ts), c) == Filter(newer + [t] + older, AtTime(c));
  }

  /** In a newest-first list, everything from the insertion place on is strictly older than `t`. */
  lemma OlderAfterPlace(t: Trip, ts: seq<Trip>, k: int)
    requires SortedDesc(ts) && 0 <= k <= |ts|
    requires k < |ts| ==> ts[k].createdAt < t.createdAt
    ensures forall i :: 0 <= i < |ts[k..]| ==> ts[k..][i].createdAt < t.createdAt
  {
    forall i | 0 <= i < |ts[k..]|
      ensures ts[k..][i].createdAt < t.createdAt
    {
      assert ts[k..][i] == ts[k + i];
    }
  }

  /**
    The sort is stable: for every creation time, the trips created then
    come out in the order they went in.
   */
  lemma {:induction false} SortIsStable(ts: seq<Trip>, c: int)
    ensures CreatedAt(SortByCreatedDesc(ts), c) == CreatedAt(ts, c)
  {
    if |ts| > 0 {
      var init, last := ts[..|ts| - 1], ts[|ts| - 1];
      var sorted := SortByCreatedDesc(init);
      assert SortByCreatedDesc(ts) == InsertByCreatedDesc(last, sorted);
      SortIsStable(init, c);
      InsertIsStable(last, sorted, c);
      FilterSnoc(ts, AtTime(c));
      assert AtTime(c)(last) == (last.createdAt == c);
    }
  }


  const RecentTripCount: nat := 10

  function Min(a: nat, b: nat): nat {
    if a <= b then a else b
  }

  datatype Analytics = Analytics(
    totalTrips: nat,
    completedTrips: nat,
    activeDrivers: nat,
    totalDrivers: nat,
    totalRevenue: int,
    recentTrips: seq<Trip>)

  /** The completed trips, in insertion order. */
  function CompletedTrips(s: Store): (done: seq<Trip>)
    ensures forall t :: t in done <==> t in AllTrips(s) && IsCompleted(t)
    ensures Valid(s) ==> NoDup(done)
  {
    assert Valid(s) ==> NoDup(Filter(AllTrips(s), IsCompleted)) by {
      if Valid(s) {
        AllTripsComplete(s);
        FilterNoDup(AllTrips(s), IsCompleted);
      }
    }
    Filter(AllTrips(s), IsCompleted)
  }

  /** A driver counts as active unless offline. */
  predicate IsActive(d: Driver) {
    d.status != Offline
  }

  /** The drivers that are not offline, in insertion order. */
  function ActiveDrivers(s: Store): (active: seq<Driver>)
    ensures forall d :: d in active <==> d in GetDrivers(s) && IsActive(d)
    ensures Valid(s) ==> NoDup(active)
  {
    assert Valid(s) ==> NoDup(Filter(GetDrivers(s), IsActive)) by {
      if Valid(s) {
        FilterNoDup(GetDrivers(s), IsActive);
      }
    }
    Filter(GetDrivers(s), IsActive)
  }

  /** Sum of the fares of the completed trips, a missing fare counting zero. */
  function Revenue(s: Store): (revenue: int)
    ensures |CompletedTrips(s)| == 0 ==> revenue == 0
    ensures (forall i :: 0 <= i < |CompletedTrips(s)| ==> FareOrZero(CompletedTrips(s)[i]) >= 0) ==>
      forall i :: 0 <= i < |CompletedTrips(s)| ==> FareOrZero(CompletedTrips(s)[i]) <= revenue
  {
    var completed := CompletedTrips(s);
    assert (forall i :: 0 <= i < |completed| ==> FareOrZero(completed[i]) >= 0) ==>
      forall i :: 0 <= i < |completed| ==> FareOrZero(completed[i]) <= SumBy(completed, FareOrZero) by {
      if forall i :: 0 <= i < |completed| ==> FareOrZero(completed[i]) >= 0 {
        forall i | 0 <= i < |completed|
          ensures FareOrZero(completed[i]) <= SumBy(completed, FareOrZero)
        {
          SumAtLeastEachTerm(completed, FareOrZero, i);
        }
      }
    }
    SumBy(completed, FareOrZero)
  }

  /** The newest trips, at most ten. */
  function RecentTrips(s: Store): (recent: seq<Trip>)
    ensures |recent| == Min(RecentTripCount, |AllTrips(s)|)
    ensures SortedDesc(recent)
    ensures multiset(recent) <= multiset(AllTrips(s))
  {
    var trips := AllTrips(s);
    var sorted := SortByCreatedDesc(trips);
    var recent := sorted[..Min(RecentTripCount, |trips|)];
    PrefixMultiset(sorted, |recent|);
    recent
  }

  /**
    Dashboard figures: trip and driver counts, drivers not offline,
    revenue summed over completed trips, and the ten newest trips.
   */
  function GetAnalytics(s: Store): (a: Analytics)
    ensures a.completedTrips <= a.totalTrips
    ensures a.activeDrivers <= a.totalDrivers
    ensures a.completedTrips == |CompletedTrips(s)| && a.totalRevenue == Revenue(s)
    ensures a.activeDrivers == |ActiveDrivers(s)|
    ensures a.recentTrips == RecentTrips(s) && |a.recentTrips| == Min(RecentTripCount, a.totalTrips)
    ensures Valid(s) ==> a.totalTrips == |s.trips| && a.totalDrivers == |s.drivers|
  {
    var trips := AllTrips(s);
    var drivers := GetDrivers(s);
    assert Valid(s) ==> |trips| == |s.trips| by {
      if Valid(s) {
        AllTripsComplete(s);
      }
    }
    Analytics(
      |trips|,
      |CompletedTrips(s)|,
      |ActiveDrivers(s)|,
      |drivers|,
      Revenue(s),
      RecentTrips(s))
  }

  /** In a newest-first list, nothing after a prefix is newer than anything in it. */
  lemma SortedPrefixIsNewest(sorted: seq<Trip>, k: int)
    requires SortedDesc(sorted) && 0 <= k <= |sorted|
    ensures forall t, u :: t in sorted && t !in sorted[..k] && u in sorted[..k] ==> t.createdAt <= u.createdAt
  {
  }

  /** No trip of `all` left out of `recent` is newer than a trip in `recent`. */
  predicate NoneNewerLeftOut(all: seq<Trip>, recent: seq<Trip>) {
    forall t, u :: t in all && t !in recent && u in recent ==> t.createdAt <= u.createdAt
  }

  /** No trip left out of the recent list is newer than any trip in it. */
  lemma RecentTripsAreNewest(s: Store)
    ensures NoneNewerLeftOut(AllTrips(s), RecentTrips(s))
  {
    var trips := AllTrips(s);
    var sorted := SortByCreatedDesc(trips);
    var recent := RecentTrips(s);
    assert recent == sorted[..|recent|];
    assert forall t :: t in trips ==> t in sorted by {
      forall t | t in trips
        ensures t in sorted
      {
        assert t in multiset(trips);
      }
    }
    SortedPrefixIsNewest(sorted, |recent|);
  }

  /** Revenue is never negative when no trip carries a negative fare. */
  lemma RevenueNonNegative(s: Store)
    requires forall t :: t in AllTrips(s) ==> FareOrZero(t) >= 0
    ensures Revenue(s) >= 0
  {
    SumNonNegative(CompletedTrips(s), FareOrZero);
  }

  /**
    Completing a trip that was not completed adds one completed trip and
    adds its fare to the revenue; the number of trips does not change.
   */
  lemma CompletionAddsRevenue(s: Store, tripId: string, now: int)
    requires Valid(s)
    requires tripId in s.trips && s.trips[tripId].status != Completed
    ensures var r := UpdateTripStatus(s, tripId, Completed, now);
      && |AllTrips(r)| == |AllTrips(s)|
      && |CompletedTrips(r)| == |CompletedTrips(s)| + 1
      && Revenue(r) == Revenue(s) + FareOrZero(s.trips[tripId])
  {
    var r := UpdateTripStatus(s, tripId, Completed, now);
    var u := r.trips[tripId];
    var p :| 0 <= p < |s.tripOrder| && s.tripOrder[p] == tripId;
    ValuesInOrderUpdate(s.tripOrder, s.trips, p, u);
    AllTripsComplete(s);
    FilterLengthUpdate(AllTrips(s), p, u, IsCompleted);
    FilterSumUpdate(AllTrips(s), p, u, IsCompleted, FareOrZero);
  }

  /**
    Changing one driver's status changes the active count by the
    difference of its old and new activity; the driver count stays.
   */
  lemma DriverStatusChangesActiveCount(s: Store, driverId: string, status: DriverStatus)
    requires Valid(s) && driverId in s.drivers
    ensures var r := UpdateDriverStatus(s, driverId, status);
      && |GetDrivers(r)| == |GetDrivers(s)|
      && |ActiveDrivers(r)| == |ActiveDrivers(s)|
           - (if IsActive(s.drivers[driverId]) then 1 else 0) + (if status != Offline then 1 else 0)
  {
    var r := UpdateDriverStatus(s, driverId, status);
    var p :| 0 <= p < |s.driverOrder| && s.driverOrder[p] == driverId;
    ValuesInOrderUpdate(s.driverOrder, s.drivers, p, r.drivers[driverId]);
    ValuesInOrderAllPresent(s.driverOrder, s.drivers);
    FilterLengthUpdate(GetDrivers(s), p, r.drivers[driverId], IsActive);
  }
}
