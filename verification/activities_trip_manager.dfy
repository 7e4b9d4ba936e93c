/** The earlier trip-selection state machine. It decides on the active trip read when
    the menu opened, has no discard rule for empty trips, and clears `activeTrip`
    whenever it deactivates a trip. */
module Activities {
  import opened Wrappers
  import opened Strings
  import opened Entities
  import opened Backend
  import opened Seqs
  import opened Sorting
  import opened TripRepository
  import opened TripMenuAdapter
  import opened TripSelection

  /** Active trips first, then by start date compared as strings, larger first. */
  function MenuOrder(): (Trip, Trip) -> bool
  {
    (a: Trip, b: Trip) =>
      (a.active && !b.active) || (a.active == b.active && LessEq(b.startDate, a.startDate))
  }

  lemma MenuOrderIsTotal()
    ensures TotalPreorder(MenuOrder())
  {
    var before := MenuOrder();
    forall a: Trip, b: Trip ensures before(a, b) || before(b, a) {
      LessTrichotomy(a.startDate, b.startDate);
    }
    forall a: Trip, b: Trip, c: Trip | before(a, b) && before(b, c) ensures before(a, c) {
      if a.active == b.active && b.active == c.active && a.startDate != c.startDate {
        if a.startDate != b.startDate && b.startDate != c.startDate {
          LessTransitive(c.startDate, b.startDate, a.startDate);
        }
      }
    }
  }

  /** `activeTrip` after `handleTripSelection(sel, cur)`, from `live`; `cur` is the
      active trip captured when the menu opened. */
  function HandledActive(live: Option<Trip>, cur: Option<Trip>, sel: Option<Trip>, newTrip: Option<Trip>): Option<Trip>
  {
    match Classify(sel)
    case NoneItem => if cur.Some? then None else live
    case NewTripItem => if newTrip.Some? then newTrip else if cur.Some? then None else live
    case ExistingItem =>
      if cur.Some? && cur.value.id == sel.value.id then live
      else Some(sel.value.(active := true, endDate := ""))
  }

  /** When both the live field and the captured trip mirror the store, every selection
      keeps one active trip per user and the field still mirrors the store. */
  lemma HandleSelectionMirrors(trips: map<string, Trip>, live: Option<Trip>, cur: Option<Trip>,
                               sel: Option<Trip>, d: string, newTrip: Option<Trip>, u: string)
    requires Consistent(trips) && Mirrors(live, trips, u) && Mirrors(cur, trips, u)
    requires FromMenu(sel, trips, u) && FreshTrip(newTrip, trips, u)
    ensures Consistent(SelectionTrips(trips, sel, cur, d, newTrip))
    ensures Mirrors(HandledActive(live, cur, sel, newTrip), SelectionTrips(trips, sel, cur, d, newTrip), u)
  {
    SelectionKeepsConsistent(trips, sel, cur, d, newTrip, u);
  }

  /** A menu opened while no trip was active leaves a trip activated since then
      active when None is chosen, while `activeTrip` is left as it was. */
  lemma StaleCaptureKeepsTripActive(trips: map<string, Trip>, live: Option<Trip>, d: string, u: string)
    requires Mirrors(live, trips, u) && live.Some?
    ensures SelectionTrips(trips, None, None, d, None) == trips
    ensures HandledActive(live, None, None, None) == live
    ensures ActiveIds(SelectionTrips(trips, None, None, d, None), u) == {live.value.id}
  {
  }

  /** In a consistent table the user's active trip heads the menu's trips, whatever
      is cut. */
  lemma ActiveTripHeadsMenu(trips: map<string, Trip>, u: string, items: seq<Option<Trip>>, t: Trip)
    requires Consistent(trips) && t in ActiveTrips(trips, u)
    requires MenuLists(items, TripsOfUser(trips, u), MenuOrder())
    ensures |items| > 2 && items[2] == Some(t)
  {
    forall x | x in TripsOfUser(trips, u) && x.active ensures x == t {
      var kx :| kx in trips && trips[kx] == x;
      var kt :| kt in trips && trips[kt] == t;
    }
    OnlyActiveListedFirst(items, TripsOfUser(trips, u), MenuOrder(), t);
  }

  class TripManager {
    const fb: Firebase
    var activeTrip: Option<Trip>

    constructor (fb: Firebase)
      ensures this.fb == fb && activeTrip == None
    {
      this.fb := fb;
      activeTrip := None;
    }

    /** `checkActiveTrip`: reads the user's active trip; nothing without a user. */
    method CheckActiveTrip()
      modifies this
      ensures fb.currentUser.None? ==> activeTrip == old(activeTrip)
      ensures fb.currentUser.Some? ==>
        && (activeTrip.None? <==> ActiveTrips(fb.trips, fb.currentUser.value) == {})
        && (activeTrip.Some? ==> activeTrip.value in ActiveTrips(fb.trips, fb.currentUser.value))
      ensures fb.currentUser.Some? && Consistent(fb.trips) ==> Mirrors(activeTrip, fb.trips, fb.currentUser.value)
    {
      if fb.currentUser.None? {
        return;
      }
      var userId := fb.currentUser.value;
      activeTrip := GetActiveTrip(fb, userId);
      ActiveTripsEmpty(fb.trips, userId);
      if activeTrip.Some? && Consistent(fb.trips) {
        ActiveTripIsOnlyOne(fb.trips, userId, activeTrip.value);
      }
    }

    /** `clearActiveTrip` */
    method ClearActiveTrip()
      modifies this
      ensures activeTrip == None
    {
      activeTrip := None;
    }

    /** `showTripMenu`: nothing without a user; otherwise None, New Trip, then all the
        user's trips, active first and by start date descending, seven entries at
        most, with the active trip read now. */
    method ShowTripMenu() returns (menu: Option<Menu>)
      ensures menu.None? <==> fb.currentUser.None?
      ensures menu.Some? ==>
        var u, items := fb.currentUser.value, menu.value.items;
        && MenuLists(items, TripsOfUser(fb.trips, u), MenuOrder())
        && (menu.value.currentActive.None? <==> ActiveTrips(fb.trips, u) == {})
        && (menu.value.currentActive.Some? ==> menu.value.currentActive.value in ActiveTrips(fb.trips, u))
    {
      if fb.currentUser.None? {
        return None;
      }
      var userId := fb.currentUser.value;
      var allTrips := GetAllTripsForUser(fb, userId);
      var currentActive := GetActiveTrip(fb, userId);
      MenuOrderIsTotal();
      var sortedTrips := SortBy(allTrips, MenuOrder());
      PermutationKeepsDistinct(allTrips, sortedTrips);
      forall t ensures t in sortedTrips <==> t in TripsOfUser(fb.trips, userId) {
        assert t in sortedTrips <==> t in multiset(sortedTrips);
        assert t in allTrips <==> t in multiset(allTrips);
      }
      var displayItems := BuildMenuItems(sortedTrips);
      BuiltMenuLists(sortedTrips, TripsOfUser(fb.trips, userId), MenuOrder(), displayItems);
      menu := Some(Menu(displayItems, currentActive));
    }

    /** `deactivateTrip`: ends the trip with its last photo's date and clears
        `activeTrip`. */
    method DeactivateTrip(trip: Trip) returns (endDate: string)
      modifies this, fb`trips
      ensures IsEndDateFor(fb.photos, trip, endDate)
      ensures fb.trips == Ended(old(fb.trips), trip.id, endDate)
      ensures activeTrip == None
    {
      endDate := DeactivateWithEndDate(fb, trip);
      activeTrip := None;
    }

    /** `startNewTrip(name)`: saves an active trip without photos under a fresh id and
        makes it the active trip; nothing without a user. */
    method StartNewTrip(name: string, freshId: string, today: string)
      modifies this, fb`trips
      ensures var started := StartedTrip(old(fb.currentUser), Some(name), freshId, today);
        && fb.trips == (if started.Some? then old(fb.trips)[freshId := started.value] else old(fb.trips))
        && activeTrip == (if started.Some? then started else old(activeTrip))
    {
      if fb.currentUser.None? {
        return;
      }
      var userId := fb.currentUser.value;
      var trip := Trip(freshId, userId, name, today, "", true, 0);
      SaveTrip(fb, trip);
      activeTrip := Some(trip);
    }

    /** `showTripNameDialog`: starts a trip when "Start" is pressed on a non-blank name. */
    method ShowTripNameDialog(nameInput: Option<string>, freshId: string, today: string)
      modifies this, fb`trips
      ensures var started := StartedTrip(old(fb.currentUser), EnteredName(nameInput), freshId, today);
        && fb.trips == (if started.Some? then old(fb.trips)[freshId := started.value] else old(fb.trips))
        && activeTrip == (if started.Some? then started else old(activeTrip))
    {
      if nameInput.Some? {
        var name := Trim(nameInput.value);
        if name != "" {
          StartNewTrip(name, freshId, today);
        }
      }
    }

    /** `handleTripSelection(sel, currentActiveTrip)`, the name dialog answered by
        `nameInput`. */
    method HandleTripSelection(sel: Option<Trip>, currentActiveTrip: Option<Trip>, nameInput: Option<string>,
                               freshId: string, today: string) returns (endDate: string)
      modifies this, fb`trips
      ensures var newTrip := StartedTrip(old(fb.currentUser), EnteredName(nameInput), freshId, today);
        && fb.trips == SelectionTrips(old(fb.trips), sel, currentActiveTrip, endDate, newTrip)
        && activeTrip == HandledActive(old(activeTrip), currentActiveTrip, sel, newTrip)
      ensures EndsCurrent(sel, currentActiveTrip) ==> IsEndDateFor(fb.photos, currentActiveTrip.value, endDate)
    {
      endDate := "";
      match Classify(sel)
      case NoneItem =>
        if currentActiveTrip.Some? {
          endDate := DeactivateTrip(currentActiveTrip.value);
        }
      case NewTripItem =>
        if currentActiveTrip.Some? {
          endDate := DeactivateTrip(currentActiveTrip.value);
        }
        ShowTripNameDialog(nameInput, freshId, today);
      case ExistingItem =>
        var selected := sel.value;
        if currentActiveTrip.Some? && currentActiveTrip.value.id != selected.id {
          endDate := DeactivateTrip(currentActiveTrip.value);
        }
        if currentActiveTrip.None? || selected.id != currentActiveTrip.value.id {
          ReactivateTrip(fb, selected.id);
          activeTrip := Some(selected.(active := true, endDate := ""));
        }
    }
  }
}
