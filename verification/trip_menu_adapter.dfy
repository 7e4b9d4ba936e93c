/** The rows of the trip-selection bottom sheet. The menu encodes its two special
    entries in the item itself: no trip is "None", a trip with an empty id is
    "New Trip". */
module TripMenuAdapter {
  import opened Wrappers
  import opened Entities

  datatype ItemKind = NoneItem | NewTripItem | ExistingItem

  /** The `when` of `onBindViewHolder`, which the selection handlers repeat. */
  function Classify(item: Option<Trip>): (k: ItemKind)
    ensures k == NoneItem <==> item.None?
    ensures k == NewTripItem <==> item.Some? && item.value.id == ""
  {
    if item.None? then NoneItem
    else if item.value.id == "" then NewTripItem
    else ExistingItem
  }

  /** A bound row: its text, whether the active indicator shows, and the item its
      click hands back. */
  datatype Row = Row(text: string, indicatorVisible: bool, clicked: Option<Trip>)

  function BindRow(item: Option<Trip>, activeTripId: Option<string>): (r: Row)
    ensures r.clicked == item
    ensures r.text == match Classify(item)
      case NoneItem => "None"
      case NewTripItem => "New Trip"
      case ExistingItem => item.value.name
    ensures r.indicatorVisible <==>
      (item.None? && activeTripId.None?) ||
      (Classify(item) == ExistingItem && activeTripId == Some(item.value.id))
  {
    match Classify(item)
    case NoneItem => Row("None", activeTripId.None?, item)
    case NewTripItem => Row("New Trip", false, item)
    case ExistingItem => Row(item.value.name, Some(item.value.id) == activeTripId, item)
  }

  /** A menu whose only "None" entry is the first and whose trips have distinct ids. */
  ghost predicate WellFormedMenu(items: seq<Option<Trip>>)
  {
    && |items| >= 1 && items[0].None?
    && (forall i :: 1 <= i < |items| ==> items[i].Some?)
    && (forall i, j :: 1 <= i < j < |items| && items[i].value.id != "" ==> items[i].value.id != items[j].value.id)
  }

  /** The indicator marks at most one row: "None" when no trip is active, otherwise
      the active trip's row when it is listed. */
  lemma OneIndicator(items: seq<Option<Trip>>, activeTripId: Option<string>)
    requires WellFormedMenu(items)
    ensures forall i, j :: 0 <= i < j < |items| ==>
      !(BindRow(items[i], activeTripId).indicatorVisible && BindRow(items[j], activeTripId).indicatorVisible)
    ensures activeTripId.None? <==> BindRow(items[0], activeTripId).indicatorVisible
    ensures forall i :: 0 <= i < |items| && items[i].Some? && activeTripId == Some(items[i].value.id) && items[i].value.id != "" ==>
      BindRow(items[i], activeTripId).indicatorVisible
  {
    forall i, j | 0 <= i < j < |items|
      ensures !(BindRow(items[i], activeTripId).indicatorVisible && BindRow(items[j], activeTripId).indicatorVisible)
    {
      if i == 0 {
        assert items[j].Some?;
      } else {
        assert items[i].Some? && items[j].Some?;
      }
    }
  }
}
