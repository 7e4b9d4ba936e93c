/** What both versions of `TripManager` share: deactivation with an end date, the
    trip-name dialog, `startNewTrip`, and the store writes a menu selection makes. */
module TripSelection {
  import opened Wrappers
  import opened Strings
  import opened Entities
  import opened Backend
  import opened TripRepository
  import opened PhotoRepository
  import opened TripMenuAdapter
  import opened Seqs

  /** The bottom sheet: its items and the active trip read when it opened. */
  datatype Menu = Menu(items: seq<Option<Trip>>, currentActive: Option<Trip>)

  /** The menu items: None, New Trip, then the sorted trips, cut to seven entries. */
  method BuildMenuItems(sorted: seq<Trip>) returns (displayItems: seq<Option<Trip>>)
    ensures |displayItems| == if 2 + |sorted| <= 7 then 2 + |sorted| else 7
    ensures displayItems[0] == None && displayItems[1] == Some(BlankTrip)
    ensures forall i :: 2 <= i < |displayItems| ==> displayItems[i] == Some(sorted[i - 2])
  {
    var menuItems: seq<Option<Trip>> := [];
    menuItems := menuItems + [None];
    menuItems := menuItems + [Some(BlankTrip)];
    menuItems := menuItems + seq(|sorted|, i requires 0 <= i < |sorted| => Some(sorted[i]));
    displayItems := Take(menuItems, 7);
  }

  /** `items` is the menu for the trips `shown` under the order `before`: None, New
      Trip, then trips of `shown`, each once and in order. All of `shown` is listed
      when it fits in five rows; otherwise every left-out trip may follow every
      listed one, so the rows kept are the first in menu order. */
  ghost predicate MenuLists(items: seq<Option<Trip>>, shown: set<Trip>, before: (Trip, Trip) -> bool)
  {
    && |items| == (if 2 + |shown| <= 7 then 2 + |shown| else 7)
    && items[0] == None && items[1] == Some(BlankTrip)
    && (forall i :: 2 <= i < |items| ==> items[i].Some? && items[i].value in shown)
    && Distinct(items[2..])
    && (forall i, j :: 2 <= i < j < |items| ==> before(items[i].value, items[j].value))
    && (|shown| <= 5 ==> forall t :: t in shown ==> Some(t) in items)
    && (forall t, i :: t in shown && Some(t) !in items && 2 <= i < |items| ==> before(items[i].value, t))
  }

  /** Building the rows from a duplicate-free sorted listing of `shown` gives the
      menu for `shown`. */
  lemma BuiltMenuLists(sorted: seq<Trip>, shown: set<Trip>, before: (Trip, Trip) -> bool,
                       items: seq<Option<Trip>>)
    requires Distinct(sorted) && (forall t :: t in sorted <==> t in shown)
    requires forall i, j :: 0 <= i < j < |sorted| ==> before(sorted[i], sorted[j])
    requires |items| == if 2 + |sorted| <= 7 then 2 + |sorted| else 7
    requires items[0] == None && items[1] == Some(BlankTrip)
    requires forall i :: 2 <= i < |items| ==> items[i] == Some(sorted[i - 2])
    ensures MenuLists(items, shown, before)
  {
    DistinctLength(sorted, shown);
    forall i, j | 0 <= i < j < |items[2..]| ensures items[2..][i] != items[2..][j] {
      assert items[2..][i] == Some(sorted[i]) && items[2..][j] == Some(sorted[j]);
    }
    forall t | t in shown && |shown| <= 5 ensures Some(t) in items {
      var k :| 0 <= k < |sorted| && sorted[k] == t;
      assert items[k + 2] == Some(t);
    }
    forall t, i | t in shown && Some(t) !in items && 2 <= i < |items|
      ensures before(items[i].value, t)
    {
      var k :| 0 <= k < |sorted| && sorted[k] == t;
      forall j | 0 <= j < |items| - 2 ensures sorted[j] != t {
        assert items[j + 2] == Some(sorted[j]);
      }
      assert items[i].value == sorted[i - 2];
    }
  }

  /** When `t` is the only active trip offered and no inactive trip may precede it,
      the menu lists `t` right after New Trip, however many trips are cut. */
  lemma OnlyActiveListedFirst(items: seq<Option<Trip>>, shown: set<Trip>, before: (Trip, Trip) -> bool, t: Trip)
    requires MenuLists(items, shown, before)
    requires t in shown && t.active
    requires forall x :: x in shown && x.active ==> x == t
    requires forall x :: x in shown && !x.active ==> !before(x, t)
    ensures |items| > 2 && items[2] == Some(t)
  {
    assert |items| >= 3;
    if Some(t) !in items {
      assert before(items[2].value, t);
    } else {
      var k :| 0 <= k < |items| && items[k] == Some(t);
      if k > 2 {
        assert before(items[2].value, items[k].value);
      }
    }
  }

  /** The manager's `activeTrip` names the user's only active trip in the store, or
      is null when the user has none. */
  ghost predicate Mirrors(active: Option<Trip>, trips: map<string, Trip>, u: string)
  {
    match active
    case None => ActiveIds(trips, u) == {}
    case Some(t) => ActiveIds(trips, u) == {t.id}
  }

  /** A selected existing trip is a stored trip of the user. */
  ghost predicate FromMenu(sel: Option<Trip>, trips: map<string, Trip>, u: string)
  {
    Classify(sel) == ExistingItem ==> sel.value.id in trips && trips[sel.value.id].userId == u
  }

  /** `d` is the end date deactivation gives `trip`: the date of one of its photos
      with the largest timestamp, or its start date when it has no photos. */
  ghost predicate IsEndDateFor(photos: map<string, Photo>, trip: Trip, d: string)
  {
    var shot := PhotosOfTrip(photos, trip.id);
    (shot == {} && d == trip.startDate) || (exists p :: IsLatestIn(shot, p) && d == p.date)
  }

  /** `deactivateWithEndDate` (and the store half of the earlier `deactivateTrip`). */
  method DeactivateWithEndDate(fb: Firebase, trip: Trip) returns (endDate: string)
    modifies fb`trips
    ensures IsEndDateFor(fb.photos, trip, endDate)
    ensures fb.trips == Ended(old(fb.trips), trip.id, endDate)
  {
    var lastPhoto := GetLastPhotoForTrip(fb, trip.id);
    endDate := if lastPhoto.Some? then lastPhoto.value.date else trip.startDate;
    EndTrip(fb, trip.id, endDate);
  }

  /** The name dialog: the trimmed input, when "Start" was pressed on a non-blank
      name (`nameInput` is none when the dialog was cancelled). */
  function EnteredName(nameInput: Option<string>): (r: Option<string>)
    ensures r.None? <==> nameInput.None? || Trim(nameInput.value) == ""
    ensures r.Some? ==> r.value != [] && Trim(r.value) == r.value
  {
    if nameInput.None? then None
    else
      var name := Trim(nameInput.value);
      TrimIdempotent(nameInput.value);
      if name == "" then None else Some(name)
  }

  /** The trip `startNewTrip(name)` saves: none without a signed-in user. */
  function StartedTrip(user: Option<string>, name: Option<string>, freshId: string, today: string): (r: Option<Trip>)
    ensures r.Some? <==> user.Some? && name.Some?
    ensures r.Some? ==>
      && r.value.id == freshId && r.value.userId == user.value && r.value.name == name.value
      && r.value.startDate == today && r.value.endDate == ""
      && r.value.active && r.value.photoCount == 0
  {
    if user.Some? && name.Some? then Some(Trip(freshId, user.value, name.value, today, "", true, 0))
    else None
  }

  /** The current trip is deactivated: by None and New Trip, and by an existing trip
      other than itself. */
  predicate EndsCurrent(sel: Option<Trip>, cur: Option<Trip>)
  {
    cur.Some? && (Classify(sel) != ExistingItem || cur.value.id != sel.value.id)
  }

  /** The store writes of applying a selection with `cur` as the current trip, `d`
      being the end date deactivation chose. */
  function AppliedTrips(trips: map<string, Trip>, sel: Option<Trip>, cur: Option<Trip>, d: string): map<string, Trip>
  {
    var ended := if EndsCurrent(sel, cur) then Ended(trips, cur.value.id, d) else trips;
    if Classify(sel) == ExistingItem && (cur.None? || cur.value.id != sel.value.id)
    then Reactivated(ended, sel.value.id)
    else ended
  }

  /** Then, for New Trip, the trip the name dialog started, if any. */
  function SelectionTrips(trips: map<string, Trip>, sel: Option<Trip>, cur: Option<Trip>, d: string,
                          newTrip: Option<Trip>): map<string, Trip>
  {
    var applied := AppliedTrips(trips, sel, cur, d);
    if Classify(sel) == NewTripItem && newTrip.Some? then applied[newTrip.value.id := newTrip.value]
    else applied
  }

  /** A started trip is the user's, active, and under an id not yet stored. */
  ghost predicate FreshTrip(newTrip: Option<Trip>, trips: map<string, Trip>, u: string)
  {
    newTrip.Some? ==> newTrip.value.id !in trips && newTrip.value.userId == u && newTrip.value.active
  }

  /** The user's active trips after a selection, from a state the current trip mirrors. */
  function ActiveAfter(sel: Option<Trip>, newTrip: Option<Trip>): set<string>
  {
    match Classify(sel)
    case NoneItem => {}
    case NewTripItem => if newTrip.Some? then {newTrip.value.id} else {}
    case ExistingItem => {sel.value.id}
  }

  lemma AppliedKeepsConsistent(trips: map<string, Trip>, sel: Option<Trip>, cur: Option<Trip>, d: string, u: string)
    requires Consistent(trips) && Mirrors(cur, trips, u) && FromMenu(sel, trips, u)
    ensures Consistent(AppliedTrips(trips, sel, cur, d))
    ensures ActiveIds(AppliedTrips(trips, sel, cur, d), u) == ActiveAfter(sel, None)
    ensures forall v :: v != u ==> ActiveIds(AppliedTrips(trips, sel, cur, d), v) == ActiveIds(trips, v)
  {
    var ended := if EndsCurrent(sel, cur) then Ended(trips, cur.value.id, d) else trips;
    if EndsCurrent(sel, cur) {
      EndedKeepsConsistent(trips, cur.value.id, d);
      assert cur.value.id in ActiveIds(trips, u);
      forall v ensures ActiveIds(ended, v) == ActiveIds(trips, v) - {cur.value.id} {
        EndedActiveIds(trips, cur.value.id, d, v);
      }
    }
    if Classify(sel) == ExistingItem && (cur.None? || cur.value.id != sel.value.id) {
      assert ActiveIds(ended, u) == {};
      ReactivatedKeepsConsistent(ended, sel.value.id);
      forall v ensures ActiveIds(Reactivated(ended, sel.value.id), v) ==
        ActiveIds(ended, v) + (if v == u then {sel.value.id} else {})
      {
        ReactivatedActiveIds(ended, sel.value.id, v);
      }
    }
  }

  /** A selection made from a mirrored state keeps one active trip per user, leaves
      other users alone, and leaves the user with exactly the selected trip (or the
      started one) active. */
  lemma SelectionKeepsConsistent(trips: map<string, Trip>, sel: Option<Trip>, cur: Option<Trip>, d: string,
                                 newTrip: Option<Trip>, u: string)
    requires Consistent(trips) && Mirrors(cur, trips, u) && FromMenu(sel, trips, u)
    requires FreshTrip(newTrip, trips, u)
    ensures Consistent(SelectionTrips(trips, sel, cur, d, newTrip))
    ensures ActiveIds(SelectionTrips(trips, sel, cur, d, newTrip), u) == ActiveAfter(sel, newTrip)
    ensures forall v :: v != u ==> ActiveIds(SelectionTrips(trips, sel, cur, d, newTrip), v) == ActiveIds(trips, v)
  {
    AppliedKeepsConsistent(trips, sel, cur, d, u);
    var applied := AppliedTrips(trips, sel, cur, d);
    if Classify(sel) == NewTripItem && newTrip.Some? {
      var t := newTrip.value;
      assert t.id !in applied;
      SavedKeepsConsistent(applied, t);
      assert ActiveIds(applied[t.id := t], u) == {t.id};
    }
  }
}
