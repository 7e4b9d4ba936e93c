/** The profile screen: the user's header, the active trip followed by the completed
    trips, and the End Trip action of the active trip's card. */
module ProfileFragment {
  import opened Wrappers
  import opened Entities
  import opened Backend
  import opened Seqs
  import opened TripRepository
  import AuthRepository

  /** Where the completed trips start in the list: after the active trip, if any. */
  function CompletedFrom(trips: map<string, Trip>, u: string): nat
  {
    if ActiveTrips(trips, u) == {} then 0 else 1
  }

  /** `all` is a list `loadProfile` can assemble for `u`: the active trip, if any,
      then the completed trips, each once. */
  ghost predicate AssembledFor(trips: map<string, Trip>, u: string, all: seq<Trip>)
  {
    var first := CompletedFrom(trips, u);
    && first <= |all|
    && (first == 1 ==> all[0] in ActiveTrips(trips, u))
    && Distinct(all[first..])
    && (forall t :: t in all[first..] <==> t in CompletedTrips(trips, u))
  }

  /** With one active trip per user, the assembled list has no duplicates, and it is
      empty exactly when the user has neither an active nor a completed trip. */
  lemma ProfileListing(trips: map<string, Trip>, u: string, all: seq<Trip>)
    requires Consistent(trips) && AssembledFor(trips, u, all)
    ensures Distinct(all)
    ensures all == [] <==> ActiveTrips(trips, u) == {} && CompletedTrips(trips, u) == {}
  {
    ActiveAndCompletedDisjoint(trips, u);
    if ActiveTrips(trips, u) != {} {
      forall j | 1 <= j < |all| ensures all[0] != all[j] {
        assert all[j] in all[1..];
      }
    } else {
      assert all[CompletedFrom(trips, u)..] == all;
      assert all == [] || all[0] in CompletedTrips(trips, u);
      if CompletedTrips(trips, u) != {} {
        var t :| t in CompletedTrips(trips, u);
        assert t in all;
      }
    }
  }

  /** The profile tab. Its views are updated in place: `loadProfile` sets the header
      only for a stored profile and replaces the list's adapter only with a non-empty
      list, so otherwise the previous texts and cards stay on screen. */
  class ProfileFragment {
    const fb: Firebase
    /** The display-name and `"@" + username` texts; None while the layout's own. */
    var header: Option<(string, string)>
    /** The trips of the list's adapter; empty before one is set. */
    var cards: seq<Trip>
    var emptyTextVisible: bool

    /** A fresh view, with the empty text as the layout sets it. */
    constructor (fb: Firebase, emptyTextVisible: bool)
      ensures this.fb == fb && header == None && cards == [] && this.emptyTextVisible == emptyTextVisible
    {
      this.fb := fb;
      header := None;
      cards := [];
      this.emptyTextVisible := emptyTextVisible;
    }

    /** `loadProfile`: nothing without a user; otherwise the header, then the active
        trip, if any, and the completed trips, returned as `listed`. */
    method LoadProfile() returns (listed: Option<seq<Trip>>)
      modifies this
      ensures fb.currentUser.None? ==>
        && listed.None?
        && header == old(header) && cards == old(cards) && emptyTextVisible == old(emptyTextVisible)
      ensures fb.currentUser.Some? ==>
        var u := fb.currentUser.value;
        && listed.Some? && AssembledFor(fb.trips, u, listed.value)
        && header == (match AuthRepository.UserProfile(fb.users, u)
                      case Some(p) => Some((p.displayName, "@" + p.username))
                      case None => old(header))
        && (listed.value != [] ==> cards == listed.value && !emptyTextVisible)
        && (listed.value == [] ==> cards == old(cards) && emptyTextVisible)
    {
      if fb.currentUser.None? {
        return None;
      }
      var userId := fb.currentUser.value;
      var user := AuthRepository.UserProfile(fb.users, userId);
      if user.Some? {
        header := Some((user.value.displayName, "@" + user.value.username));
      }
      var activeTrip := GetActiveTrip(fb, userId);
      var completedTrips := GetCompletedTrips(fb, userId);
      var allTrips: seq<Trip> := [];
      if activeTrip.Some? {
        allTrips := allTrips + [activeTrip.value];
      }
      allTrips := allTrips + completedTrips;
      ActiveTripsEmpty(fb.trips, userId);
      assert allTrips[CompletedFrom(fb.trips, userId)..] == completedTrips;
      if allTrips != [] {
        emptyTextVisible := false;
        cards := allTrips;
      } else {
        emptyTextVisible := true;
      }
      listed := Some(allTrips);
    }

    /** `onEndTripClicked(trip)`: a trip without photos is deleted, any other is ended
        with today's date; then the screen is reloaded. */
    method OnEndTripClicked(trip: Trip, today: string) returns (listed: Option<seq<Trip>>)
      modifies this, fb`trips
      ensures fb.trips == if trip.photoCount == 0 then old(fb.trips) - {trip.id} else Ended(old(fb.trips), trip.id, today)
      ensures fb.currentUser.None? ==>
        && listed.None?
        && header == old(header) && cards == old(cards) && emptyTextVisible == old(emptyTextVisible)
      ensures fb.currentUser.Some? ==>
        var u := fb.currentUser.value;
        && listed.Some? && AssembledFor(fb.trips, u, listed.value)
        && header == (match AuthRepository.UserProfile(fb.users, u)
                      case Some(p) => Some((p.displayName, "@" + p.username))
                      case None => old(header))
        && (listed.value != [] ==> cards == listed.value && !emptyTextVisible)
        && (listed.value == [] ==> cards == old(cards) && emptyTextVisible)
    {
      if trip.photoCount == 0 {
        DeleteTrip(fb, trip.id);
      } else {
        EndTrip(fb, trip.id, today);
      }
      listed := LoadProfile();
    }
  }

  /** Ending the user's active trip from its card leaves the user without an active
      trip; a trip with photos reappears among the completed ones, an empty one is gone. */
  lemma EndTripClickedOutcome(trips: map<string, Trip>, u: string, trip: Trip, today: string)
    requires Consistent(trips) && trip in ActiveTrips(trips, u)
    ensures var after := if trip.photoCount == 0 then trips - {trip.id} else Ended(trips, trip.id, today);
      && ActiveTrips(after, u) == {}
      && (trip.photoCount == 0 ==> trip.id !in after && CompletedTrips(after, u) == CompletedTrips(trips, u))
      && (trip.photoCount > 0 ==> trip.(active := false, endDate := today) in CompletedTrips(after, u))
  {
    ActiveTripIsOnlyOne(trips, u, trip);
    var after := if trip.photoCount == 0 then trips - {trip.id} else Ended(trips, trip.id, today);
    if trip.photoCount == 0 {
      DeletedKeepsConsistent(trips, trip.id);
      assert trips[trip.id] == trip;
      assert CompletedTrips(after, u) == CompletedTrips(trips, u) by {
        forall t | t in CompletedTrips(trips, u) ensures t in CompletedTrips(after, u) {
          var k :| k in trips && trips[k] == t;
          assert k != trip.id;
          assert after[k] == t;
        }
      }
    } else {
      EndedActiveIds(trips, trip.id, today, u);
      if trip.photoCount > 0 {
        EndedTripIsCompleted(trips, trip.id, today);
      }
    }
    ActiveTripsEmpty(after, u);
  }

  /** Deleting a user's only trip, an active one without photos, leaves the reload
      nothing to list: the adapter is not replaced, so the deleted trip's card stays
      on screen beside the empty text. */
  lemma LastTripDeletedListsNothing(trips: map<string, Trip>, u: string, trip: Trip, all: seq<Trip>)
    requires Consistent(trips) && trip in ActiveTrips(trips, u) && trip.photoCount == 0
    requires CompletedTrips(trips, u) == {}
    requires AssembledFor(trips - {trip.id}, u, all)
    ensures all == []
  {
    EndTripClickedOutcome(trips, u, trip, "");
    DeletedKeepsConsistent(trips, trip.id);
    ProfileListing(trips - {trip.id}, u, all);
  }
}
