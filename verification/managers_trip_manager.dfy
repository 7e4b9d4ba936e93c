/** The trip-selection state machine of the current app: the user's active trip held
    in `activeTrip`, the bottom-sheet menu, and the rule that an active trip without
    photos is discarded, after confirmation, before switching away from it. */
module Managers {
  import opened Wrappers
  import opened Strings
  import opened Entities
  import opened Backend
  import opened Seqs
  import opened Sorting
  import opened TripRepository
  import opened TripMenuAdapter
  import opened TripSelection

  /** The menu's date key: the parsed start date, 0 when it does not parse.
      `parseDate` stands for `SimpleDateFormat("MMM dd, yyyy").parse(..)?.time`. */
  function DateKey(parseDate: string -> Option<int>, startDate: string): int
  {
    match parseDate(startDate)
    case Some(millis) => millis
    case None => 0
  }

  /** Active trips first, then by date key, larger first. */
  function MenuOrder(parseDate: string -> Option<int>): (Trip, Trip) -> bool
  {
    (a: Trip, b: Trip) =>
      (a.active && !b.active) ||
      (a.active == b.active && DateKey(parseDate, b.startDate) <= DateKey(parseDate, a.startDate))
  }

  lemma MenuOrderIsTotal(parseDate: string -> Option<int>)
    ensures TotalPreorder(MenuOrder(parseDate))
  {
  }

  /** The trips the menu offers: the user's, active or with photos. */
  function MenuTrips(trips: map<string, Trip>, u: string): set<Trip>
  {
    set t | t in TripsOfUser(trips, u) && (t.active || t.photoCount > 0)
  }

  /** `activeTrip` after `applyTripSelection(sel, cur)`, from `live`. New Trip leaves
      it untouched unless the name dialog starts a trip. */
  function AppliedActive(live: Option<Trip>, cur: Option<Trip>, sel: Option<Trip>, newTrip: Option<Trip>): Option<Trip>
  {
    match Classify(sel)
    case NoneItem => if cur.Some? then None else live
    case NewTripItem => if newTrip.Some? then newTrip else live
    case ExistingItem =>
      if cur.Some? && cur.value.id == sel.value.id then live
      else Some(sel.value.(active := true, endDate := ""))
  }

  /** The current trip is empty and the selection is something else: the discard
      dialog is shown. */
  predicate OffersDiscard(cur: Option<Trip>, sel: Option<Trip>)
  {
    cur.Some? && cur.value.photoCount == 0 && (sel.None? || sel.value.id != cur.value.id)
  }

  /** The store after `handleTripSelection(sel)` with `cur` active; `discard` is the
      answer to the discard dialog. */
  function HandledTrips(trips: map<string, Trip>, cur: Option<Trip>, sel: Option<Trip>, discard: bool,
                        d: string, newTrip: Option<Trip>): map<string, Trip>
  {
    if cur.Some? && cur.value.photoCount == 0 then
      if OffersDiscard(cur, sel) && discard then SelectionTrips(trips - {cur.value.id}, sel, None, d, newTrip)
      else trips
    else SelectionTrips(trips, sel, cur, d, newTrip)
  }

  /** `activeTrip` after `handleTripSelection(sel)` with `cur` active. */
  function HandledActive(cur: Option<Trip>, sel: Option<Trip>, discard: bool, newTrip: Option<Trip>): Option<Trip>
  {
    if cur.Some? && cur.value.photoCount == 0 then
      if OffersDiscard(cur, sel) && discard then AppliedActive(None, None, sel, newTrip)
      else cur
    else AppliedActive(cur, cur, sel, newTrip)
  }

  /** New Trip chosen while a trip with photos is active, then the name dialog
      cancelled: that trip is deactivated in the store but stays in `activeTrip`. */
  predicate LeavesStaleTrip(cur: Option<Trip>, sel: Option<Trip>, newTrip: Option<Trip>)
  {
    Classify(sel) == NewTripItem && newTrip.None? && cur.Some? && cur.value.photoCount != 0
  }

  /** From a state where `activeTrip` mirrors the store, every selection keeps one
      active trip per user, and `activeTrip` still mirrors the store except in the
      stale case. */
  lemma HandleSelectionMirrors(trips: map<string, Trip>, cur: Option<Trip>, sel: Option<Trip>, discard: bool,
                               d: string, newTrip: Option<Trip>, u: string)
    requires Consistent(trips) && Mirrors(cur, trips, u) && FromMenu(sel, trips, u)
    requires FreshTrip(newTrip, trips, u) && "" !in trips
    ensures Consistent(HandledTrips(trips, cur, sel, discard, d, newTrip))
    ensures Mirrors(HandledActive(cur, sel, discard, newTrip), HandledTrips(trips, cur, sel, discard, d, newTrip), u)
      <==> !LeavesStaleTrip(cur, sel, newTrip)
  {
    if cur.Some? {
      assert cur.value.id in ActiveIds(trips, u);
    }
    if cur.Some? && cur.value.photoCount == 0 {
      if OffersDiscard(cur, sel) && discard {
        var rest := trips - {cur.value.id};
        DeletedKeepsConsistent(trips, cur.value.id);
        SelectionKeepsConsistent(rest, sel, None, d, newTrip, u);
      }
    } else {
      SelectionKeepsConsistent(trips, sel, cur, d, newTrip, u);
      if LeavesStaleTrip(cur, sel, newTrip) {
        assert ActiveIds(HandledTrips(trips, cur, sel, discard, d, newTrip), u) == {};
      }
    }
  }

  /** The menu's trips in menu order, the same trips as given. */
  function SortMenu(shown: seq<Trip>, parseDate: string -> Option<int>): (r: seq<Trip>)
    ensures multiset(r) == multiset(shown)
    ensures |r| == |shown|
    ensures forall t :: t in r <==> t in shown
    ensures forall i, j :: 0 <= i < j < |r| ==> MenuOrder(parseDate)(r[i], r[j])
  {
    MenuOrderIsTotal(parseDate);
    var r := SortBy(shown, MenuOrder(parseDate));
    assert |r| == |multiset(r)| == |multiset(shown)| == |shown|;
    assert forall t :: t in r <==> t in multiset(r);
    r
  }

  /** In a consistent table the user's active trip heads the menu's trips, whatever
      is cut. */
  lemma ActiveTripHeadsMenu(trips: map<string, Trip>, u: string, parseDate: string -> Option<int>,
                            items: seq<Option<Trip>>, t: Trip)
    requires Consistent(trips) && t in ActiveTrips(trips, u)
    requires MenuLists(items, MenuTrips(trips, u), MenuOrder(parseDate))
    ensures |items| > 2 && items[2] == Some(t)
  {
    forall x | x in MenuTrips(trips, u) && x.active ensures x == t {
      var kx :| kx in trips && trips[kx] == x;
      var kt :| kt in trips && trips[kt] == t;
    }
    OnlyActiveListedFirst(items, MenuTrips(trips, u), MenuOrder(parseDate), t);
  }

  class TripManager {
    const fb: Firebase
    var activeTrip: Option<Trip>

    constructor (fb: Firebase)
      ensures this.fb == fb && activeTrip == None
    {
      this.fb := fb;
      activeTrip := None;
    }

    /** `checkActiveTrip`: reads the user's active trip; nothing without a user. */
    method CheckActiveTrip()
      modifies this
      ensures fb.currentUser.None? ==> activeTrip == old(activeTrip)
      ensures fb.currentUser.Some? ==>
        && (activeTrip.None? <==> ActiveTrips(fb.trips, fb.currentUser.value) == {})
        && (activeTrip.Some? ==> activeTrip.value in ActiveTrips(fb.trips, fb.currentUser.value))
      ensures fb.currentUser.Some? && Consistent(fb.trips) ==> Mirrors(activeTrip, fb.trips, fb.currentUser.value)
    {
      if fb.currentUser.None? {
        return;
      }
      var userId := fb.currentUser.value;
      activeTrip := GetActiveTrip(fb, userId);
      ActiveTripsEmpty(fb.trips, userId);
      if activeTrip.Some? && Consistent(fb.trips) {
        ActiveTripIsOnlyOne(fb.trips, userId, activeTrip.value);
      }
    }

    /** `clearActiveTrip`, called after the trip was ended elsewhere. */
    method ClearActiveTrip()
      modifies this
      ensures activeTrip == None
    {
      activeTrip := None;
    }

    /** `showTripMenu`: nothing without a user; otherwise None, New Trip, then the
        user's trips that are active or have photos, active first and newest first,
        seven entries at most. */
    method ShowTripMenu(parseDate: string -> Option<int>) returns (menu: Option<Menu>)
      ensures menu.None? <==> fb.currentUser.None?
      ensures menu.Some? ==>
        var u, items := fb.currentUser.value, menu.value.items;
        && MenuLists(items, MenuTrips(fb.trips, u), MenuOrder(parseDate))
        && (menu.value.currentActive.None? <==> ActiveTrips(fb.trips, u) == {})
        && (menu.value.currentActive.Some? ==> menu.value.currentActive.value in ActiveTrips(fb.trips, u))
    {
      if fb.currentUser.None? {
        return None;
      }
      var userId := fb.currentUser.value;
      var allTrips := GetAllTripsForUser(fb, userId);
      var currentActive := GetActiveTrip(fb, userId);
      var keep := (t: Trip) => t.active || t.photoCount > 0;
      var shown := Filter(allTrips, keep);
      FilterKeepsDistinct(allTrips, keep);
      DistinctLength(shown, MenuTrips(fb.trips, userId));
      var sortedTrips := SortMenu(shown, parseDate);
      PermutationKeepsDistinct(shown, sortedTrips);
      var displayItems := BuildMenuItems(sortedTrips);
      BuiltMenuLists(sortedTrips, MenuTrips(fb.trips, userId), MenuOrder(parseDate), displayItems);
      menu := Some(Menu(displayItems, currentActive));
    }

    /** `deactivateWithEndDate` */
    method DeactivateCurrent(trip: Trip) returns (endDate: string)
      modifies fb`trips
      ensures IsEndDateFor(fb.photos, trip, endDate)
      ensures fb.trips == Ended(old(fb.trips), trip.id, endDate)
    {
      endDate := DeactivateWithEndDate(fb, trip);
    }

    /** `startNewTrip(name)`: saves an active trip without photos under a fresh id and
        makes it the active trip; nothing without a user. */
    method StartNewTrip(name: string, freshId: string, today: string)
      modifies this, fb`trips
      ensures var started := StartedTrip(old(fb.currentUser), Some(name), freshId, today);
        && fb.trips == (if started.Some? then old(fb.trips)[freshId := started.value] else old(fb.trips))
        && activeTrip == (if started.Some? then started else old(activeTrip))
    {
      if fb.currentUser.None? {
        return;
      }
      var userId := fb.currentUser.value;
      var trip := Trip(freshId, userId, name, today, "", true, 0);
      SaveTrip(fb, trip);
      activeTrip := Some(trip);
    }

    /** `showTripNameDialog`: starts a trip when "Start" is pressed on a non-blank name. */
    method ShowTripNameDialog(nameInput: Option<string>, freshId: string, today: string)
      modifies this, fb`trips
      ensures var started := StartedTrip(old(fb.currentUser), EnteredName(nameInput), freshId, today);
        && fb.trips == (if started.Some? then old(fb.trips)[freshId := started.value] else old(fb.trips))
        && activeTrip == (if started.Some? then started else old(activeTrip))
    {
      if nameInput.Some? {
        var name := Trim(nameInput.value);
        if name != "" {
          StartNewTrip(name, freshId, today);
        }
      }
    }

    /** `applyTripSelection(sel, cur)` */
    method ApplyTripSelection(sel: Option<Trip>, cur: Option<Trip>, nameInput: Option<string>,
                              freshId: string, today: string) returns (endDate: string)
      modifies this, fb`trips
      ensures var newTrip := StartedTrip(old(fb.currentUser), EnteredName(nameInput), freshId, today);
        && fb.trips == SelectionTrips(old(fb.trips), sel, cur, endDate, newTrip)
        && activeTrip == AppliedActive(old(activeTrip), cur, sel, newTrip)
      ensures EndsCurrent(sel, cur) ==> IsEndDateFor(fb.photos, cur.value, endDate)
    {
      endDate := "";
      match Classify(sel)
      case NoneItem =>
        if cur.Some? {
          endDate := DeactivateCurrent(cur.value);
          activeTrip := None;
        }
      case NewTripItem =>
        endDate := ApplyNewTrip(cur, nameInput, freshId, today);
      case ExistingItem =>
        endDate := ApplyExistingTrip(sel.value, cur);
    }

    /** The New Trip branch of `applyTripSelection`: the current trip is ended (but
        `activeTrip` is left as it was), then the name dialog runs. */
    method ApplyNewTrip(cur: Option<Trip>, nameInput: Option<string>, freshId: string, today: string)
      returns (endDate: string)
      modifies this, fb`trips
      ensures var newTrip := StartedTrip(old(fb.currentUser), EnteredName(nameInput), freshId, today);
        var ended := if cur.Some? then Ended(old(fb.trips), cur.value.id, endDate) else old(fb.trips);
        && fb.trips == (if newTrip.Some? then ended[newTrip.value.id := newTrip.value] else ended)
        && activeTrip == (if newTrip.Some? then newTrip else old(activeTrip))
      ensures cur.Some? ==> IsEndDateFor(fb.photos, cur.value, endDate)
    {
      endDate := "";
      if cur.Some? {
        endDate := DeactivateCurrent(cur.value);
      }
      ShowTripNameDialog(nameInput, freshId, today);
    }

    /** The existing-trip branch of `applyTripSelection`: unless it is the current
        trip, the current trip is ended and the selected one reactivated. */
    method ApplyExistingTrip(selected: Trip, cur: Option<Trip>) returns (endDate: string)
      modifies this, fb`trips
      ensures var switching := cur.None? || cur.value.id != selected.id;
        var ended := if cur.Some? && switching then Ended(old(fb.trips), cur.value.id, endDate) else old(fb.trips);
        && fb.trips == (if switching then Reactivated(ended, selected.id) else ended)
        && activeTrip == (if switching then Some(selected.(active := true, endDate := "")) else old(activeTrip))
      ensures cur.Some? && cur.value.id != selected.id ==> IsEndDateFor(fb.photos, cur.value, endDate)
    {
      endDate := "";
      if cur.Some? && cur.value.id != selected.id {
        endDate := DeactivateCurrent(cur.value);
      }
      if cur.None? || cur.value.id != selected.id {
        ReactivateTrip(fb, selected.id);
        activeTrip := Some(selected.(active := true, endDate := ""));
      }
    }

    /** `handleTripSelection(sel)`, with `showDiscardEmptyTripDialog` answered by
        `discard` and the name dialog by `nameInput`. */
    method HandleTripSelection(sel: Option<Trip>, discard: bool, nameInput: Option<string>,
                               freshId: string, today: string) returns (endDate: string)
      modifies this, fb`trips
      ensures var newTrip := StartedTrip(old(fb.currentUser), EnteredName(nameInput), freshId, today);
        && fb.trips == HandledTrips(old(fb.trips), old(activeTrip), sel, discard, endDate, newTrip)
        && activeTrip == HandledActive(old(activeTrip), sel, discard, newTrip)
      ensures var cur := old(activeTrip);
        !(cur.Some? && cur.value.photoCount == 0) && EndsCurrent(sel, cur) ==> IsEndDateFor(fb.photos, cur.value, endDate)
    {
      var currentActive := activeTrip;
      endDate := "";
      if currentActive.Some? && currentActive.value.photoCount == 0 {
        if sel.None? || sel.value.id != currentActive.value.id {
          endDate := ShowDiscardEmptyTripDialog(sel, currentActive.value, discard, nameInput, freshId, today);
        }
      } else {
        endDate := ApplyTripSelection(sel, currentActive, nameInput, freshId, today);
      }
    }

    /** `showDiscardEmptyTripDialog`: on "Discard", deletes the empty trip, clears
        `activeTrip` and applies the selection with no current trip. */
    method ShowDiscardEmptyTripDialog(sel: Option<Trip>, emptyTrip: Trip, discard: bool, nameInput: Option<string>,
                                      freshId: string, today: string) returns (endDate: string)
      modifies this, fb`trips
      ensures var newTrip := StartedTrip(old(fb.currentUser), EnteredName(nameInput), freshId, today);
        && fb.trips == (if discard then SelectionTrips(old(fb.trips) - {emptyTrip.id}, sel, None, endDate, newTrip)
                        else old(fb.trips))
        && activeTrip == (if discard then AppliedActive(None, None, sel, newTrip) else old(activeTrip))
    {
      endDate := "";
      if discard {
        DeleteTrip(fb, emptyTrip.id);
        activeTrip := None;
        endDate := ApplyTripSelection(sel, None, nameInput, freshId, today);
      }
    }

    /** `incrementLocalPhotoCount`: one more photo on the active trip, if any. */
    method IncrementLocalPhotoCount()
      modifies this
      ensures activeTrip == if old(activeTrip).Some?
        then Some(old(activeTrip).value.(photoCount := old(activeTrip).value.photoCount + 1))
        else None
    {
      var current := activeTrip;
      if current.Some? {
        activeTrip := Some(current.value.(photoCount := current.value.photoCount + 1));
      }
    }
  }
}
