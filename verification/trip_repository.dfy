/** The `trips` collection: saving, querying and updating trips. */
module TripRepository {
  import opened Wrappers
  import opened Entities
  import opened Backend
  import opened Seqs

  /* ---------------- Invariants of the table ---------------- */

  /** Every trip is stored under its own id (`saveTrip` writes `document(trip.id)`). */
  ghost predicate Keyed(trips: map<string, Trip>)
  {
    forall k :: k in trips ==> trips[k].id == k
  }

  /** At most one active trip per user. */
  ghost predicate AtMostOneActive(trips: map<string, Trip>)
  {
    forall k1, k2 ::
      (k1 in trips && k2 in trips && trips[k1].active && trips[k2].active &&
       trips[k1].userId == trips[k2].userId) ==> k1 == k2
  }

  ghost predicate Consistent(trips: map<string, Trip>)
  {
    Keyed(trips) && AtMostOneActive(trips)
  }

  /** Ids of the active trips of user `u`. */
  ghost function ActiveIds(trips: map<string, Trip>, u: string): set<string>
  {
    set k | k in trips && trips[k].userId == u && trips[k].active
  }

  /* ---------------- Queries ---------------- */

  /** `whereEqualTo("userId", u).whereEqualTo("active", true)` */
  function ActiveTrips(trips: map<string, Trip>, u: string): set<Trip>
  {
    set t | t in trips.Values && t.userId == u && t.active
  }

  /** `whereEqualTo("userId", u).whereEqualTo("active", false)` */
  function InactiveTrips(trips: map<string, Trip>, u: string): set<Trip>
  {
    set t | t in trips.Values && t.userId == u && !t.active
  }

  /** The trips `getCompletedTrips(u)` lists: inactive, with at least one photo. */
  function CompletedTrips(trips: map<string, Trip>, u: string): set<Trip>
  {
    set t | t in trips.Values && t.userId == u && !t.active && t.photoCount > 0
  }

  /** `getAllTripsForUser(u)`, which the repository does not define: all of `u`'s trips. */
  function TripsOfUser(trips: map<string, Trip>, u: string): set<Trip>
  {
    set t | t in trips.Values && t.userId == u
  }

  /** `whereIn("userId", batch).whereEqualTo("active", false)`; an `in` filter takes
      at most 10 values. */
  function InactiveTripsIn(trips: map<string, Trip>, batch: seq<string>): set<Trip>
    requires |batch| <= 10
  {
    set t | t in trips.Values && t.userId in batch && !t.active
  }

  /** The trips the home feed shows for a set of users. */
  function CompletedTripsOfUsers(trips: map<string, Trip>, users: set<string>): set<Trip>
  {
    set t | t in trips.Values && t.userId in users && !t.active && t.photoCount > 0
  }

  /** `getTripById`: the stored trip, or null. */
  function TripById(trips: map<string, Trip>, id: string): (r: Option<Trip>)
    ensures r.Some? <==> id in trips
    ensures r.Some? ==> r.value in trips.Values && r.value == trips[id]
  {
    if id in trips then Some(trips[id]) else None
  }

  method GetActiveTrip(fb: Firebase, u: string) returns (r: Option<Trip>)
    ensures r.None? <==> ActiveTrips(fb.trips, u) == {}
    ensures r.Some? ==> r.value in ActiveTrips(fb.trips, u)
  {
    var snapshot := Enumerate(ActiveTrips(fb.trips, u));
    r := if |snapshot| == 0 then None else Some(snapshot[0]);
  }

  method GetCompletedTrips(fb: Firebase, u: string) returns (r: seq<Trip>)
    ensures Distinct(r)
    ensures forall t :: t in r <==> t in CompletedTrips(fb.trips, u)
  {
    var snapshot := Enumerate(InactiveTrips(fb.trips, u));
    r := Filter(snapshot, (t: Trip) => t.photoCount > 0);
    FilterKeepsDistinct(snapshot, (t: Trip) => t.photoCount > 0);
  }

  method GetAllTripsForUser(fb: Firebase, u: string) returns (r: seq<Trip>)
    ensures Distinct(r)
    ensures forall t :: t in r <==> t in TripsOfUser(fb.trips, u)
  {
    r := Enumerate(TripsOfUser(fb.trips, u));
  }

  /** Queries the ids in batches of at most 10 and keeps the trips with photos. */
  method GetCompletedTripsForUsers(fb: Firebase, userIds: seq<string>) returns (r: seq<Trip>)
    ensures userIds == [] ==> r == []
    ensures forall t :: t in r <==> t in CompletedTripsOfUsers(fb.trips, set u | u in userIds)
  {
    if |userIds| == 0 {
      return [];
    }
    var allTrips: seq<Trip> := [];
    var i := 0;
    while i < |userIds|
      invariant 0 <= i <= |userIds|
      invariant forall t :: t in allTrips <==>
        t in fb.trips.Values && t.userId in userIds[..i] && !t.active
    {
      var end := if i + 10 <= |userIds| then i + 10 else |userIds|;
      var batch := userIds[i..end];
      var snapshot := Enumerate(InactiveTripsIn(fb.trips, batch));
      allTrips := allTrips + snapshot;
      assert userIds[..end] == userIds[..i] + batch;
      i := end;
    }
    assert userIds[..i] == userIds;
    r := Filter(allTrips, (t: Trip) => t.photoCount > 0);
  }

  /* ---------------- Updates, as the new table ---------------- */

  /** `endTrip(id, endDate)` (and `deactivateTrip`): `active = false` and the end date. */
  function Ended(trips: map<string, Trip>, id: string, endDate: string): map<string, Trip>
  {
    if id in trips then trips[id := trips[id].(active := false, endDate := endDate)] else trips
  }

  /** `reactivateTrip(id)`: `active = true` and the end date cleared. */
  function Reactivated(trips: map<string, Trip>, id: string): map<string, Trip>
  {
    if id in trips then trips[id := trips[id].(active := true, endDate := "")] else trips
  }

  /** `incrementPhotoCount(id)`: one more photo, when the trip exists. */
  function Incremented(trips: map<string, Trip>, id: string): map<string, Trip>
  {
    if id in trips then trips[id := trips[id].(photoCount := trips[id].photoCount + 1)] else trips
  }

  method SaveTrip(fb: Firebase, trip: Trip)
    modifies fb`trips
    ensures fb.trips == old(fb.trips)[trip.id := trip]
  {
    fb.trips := fb.trips[trip.id := trip];
  }

  /** Also `deactivateTrip(id, endDate)`. A missing trip is left missing (the
      Firestore update fails). */
  method EndTrip(fb: Firebase, id: string, endDate: string)
    modifies fb`trips
    ensures fb.trips == Ended(old(fb.trips), id, endDate)
  {
    if id in fb.trips {
      var t := fb.trips[id];
      fb.trips := fb.trips[id := t.(active := false, endDate := endDate)];
    }
  }

  method ReactivateTrip(fb: Firebase, id: string)
    modifies fb`trips
    ensures fb.trips == Reactivated(old(fb.trips), id)
  {
    if id in fb.trips {
      var t := fb.trips[id];
      fb.trips := fb.trips[id := t.(active := true, endDate := "")];
    }
  }

  method IncrementPhotoCount(fb: Firebase, id: string)
    modifies fb`trips
    ensures fb.trips == Incremented(old(fb.trips), id)
    ensures id in fb.trips ==> fb.trips[id].photoCount == old(fb.trips[id].photoCount) + 1
  {
    var trip := TripById(fb.trips, id);
    if trip.Some? {
      fb.trips := fb.trips[id := trip.value.(photoCount := trip.value.photoCount + 1)];
    }
  }

  method DeleteTrip(fb: Firebase, id: string)
    modifies fb`trips
    ensures fb.trips == old(fb.trips) - {id}
  {
    fb.trips := fb.trips - {id};
  }

  /* ---------------- What the updates do to the active trips ---------------- */

  /** The stored active trip of a consistent table is the only one of its user. */
  lemma ActiveTripIsOnlyOne(trips: map<string, Trip>, u: string, t: Trip)
    requires Consistent(trips)
    requires t in ActiveTrips(trips, u)
    ensures ActiveIds(trips, u) == {t.id}
    ensures ActiveTrips(trips, u) == {t}
  {
    var k :| k in trips && trips[k] == t;
    assert k == t.id;
  }

  lemma ActiveTripsEmpty(trips: map<string, Trip>, u: string)
    ensures ActiveTrips(trips, u) == {} <==> ActiveIds(trips, u) == {}
  {
    if ActiveIds(trips, u) != {} {
      var k :| k in ActiveIds(trips, u);
      assert trips[k] in ActiveTrips(trips, u);
    }
    if ActiveTrips(trips, u) != {} {
      var t :| t in ActiveTrips(trips, u);
      var k :| k in trips && trips[k] == t;
      assert k in ActiveIds(trips, u);
    }
  }

  lemma EndedActiveIds(trips: map<string, Trip>, id: string, endDate: string, u: string)
    ensures ActiveIds(Ended(trips, id, endDate), u) == ActiveIds(trips, u) - {id}
  {
  }

  lemma ReactivatedActiveIds(trips: map<string, Trip>, id: string, u: string)
    requires id in trips
    ensures ActiveIds(Reactivated(trips, id), u) ==
      ActiveIds(trips, u) + (if trips[id].userId == u then {id} else {})
  {
  }

  lemma EndedKeepsConsistent(trips: map<string, Trip>, id: string, endDate: string)
    requires Consistent(trips)
    ensures Consistent(Ended(trips, id, endDate))
  {
  }

  /** Reactivating keeps one active trip per user when its owner has no other one. */
  lemma ReactivatedKeepsConsistent(trips: map<string, Trip>, id: string)
    requires Consistent(trips)
    requires id in trips ==> ActiveIds(trips, trips[id].userId) <= {id}
    ensures Consistent(Reactivated(trips, id))
  {
    if id in trips {
      var r := Reactivated(trips, id);
      forall k1, k2 | k1 in r && k2 in r && r[k1].active && r[k2].active && r[k1].userId == r[k2].userId
        ensures k1 == k2
      {
        var owner := trips[id].userId;
        if r[k1].userId == owner {
          assert k1 == id || k1 in ActiveIds(trips, owner);
          assert k2 == id || k2 in ActiveIds(trips, owner);
        } else {
          assert trips[k1] == r[k1] && trips[k2] == r[k2];
        }
      }
    }
  }

  /** Saving a trip keeps one active trip per user unless it activates a second one. */
  lemma SavedKeepsConsistent(trips: map<string, Trip>, t: Trip)
    requires Consistent(trips)
    requires t.active ==> ActiveIds(trips, t.userId) <= {t.id}
    ensures Consistent(trips[t.id := t])
  {
    var r := trips[t.id := t];
    forall k1, k2 | k1 in r && k2 in r && r[k1].active && r[k2].active && r[k1].userId == r[k2].userId
      ensures k1 == k2
    {
      if r[k1].userId == t.userId && t.active {
        assert k1 == t.id || k1 in ActiveIds(trips, t.userId);
        assert k2 == t.id || k2 in ActiveIds(trips, t.userId);
      } else {
        assert k1 != t.id && k2 != t.id;
      }
    }
  }

  lemma DeletedKeepsConsistent(trips: map<string, Trip>, id: string)
    requires Consistent(trips)
    ensures Consistent(trips - {id})
    ensures forall u :: ActiveIds(trips - {id}, u) == ActiveIds(trips, u) - {id}
  {
  }

  lemma IncrementedKeepsConsistent(trips: map<string, Trip>, id: string)
    requires Consistent(trips)
    ensures Consistent(Incremented(trips, id))
    ensures forall u :: ActiveIds(Incremented(trips, id), u) == ActiveIds(trips, u)
  {
  }

  /** Ending a trip with photos makes it one of its owner's completed trips and
      no longer an active one. */
  lemma EndedTripIsCompleted(trips: map<string, Trip>, id: string, endDate: string)
    requires id in trips && trips[id].photoCount > 0
    ensures var t := trips[id];
      && t.(active := false, endDate := endDate) in CompletedTrips(Ended(trips, id, endDate), t.userId)
      && id !in ActiveIds(Ended(trips, id, endDate), t.userId)
  {
    var r := Ended(trips, id, endDate);
    assert r[id] in r.Values;
  }

  /** No trip is both active and completed. */
  lemma ActiveAndCompletedDisjoint(trips: map<string, Trip>, u: string)
    ensures ActiveTrips(trips, u) !! CompletedTrips(trips, u)
  {
  }
}
