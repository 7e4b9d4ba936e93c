/** The trip cards of the profile screen (`TripAdapter`) and of the home feed
    (`FeedTripAdapter`): what each card shows for a trip and its like total. */
module TripCards {
  import opened Wrappers
  import opened Entities
  import opened Decimal

  /** The like count text: `"1 like"`, otherwise `"$likes likes"`. */
  function LikeLabel(likes: int): (r: string)
    ensures |r| >= 6
    ensures r[|r| - 1] == 's' <==> likes != 1
  {
    if likes == 1 then "1 like" else IntToString(likes) + " likes"
  }

  /** Reads a count back from a like label; the partner of `LikeLabel`. */
  function ParseLikeLabel(s: string): Option<int>
  {
    if s == "1 like" then Some(1)
    else if |s| >= 6 && s[|s| - 6..] == " likes" then ParseInt(s[..|s| - 6])
    else None
  }

  /** Every label reads back as the count it was made from. */
  lemma LikeLabelRoundTrip(likes: int)
    ensures ParseLikeLabel(LikeLabel(likes)) == Some(likes)
  {
    if likes != 1 {
      var digits := IntToString(likes);
      var s := digits + " likes";
      assert s[|s| - 1] == 's';
      assert s != "1 like";
      assert s[|s| - 6..] == " likes";
      assert s[..|s| - 6] == digits;
      IntToStringRoundTrip(likes);
    }
  }

  /** Distinct counts give distinct labels. */
  lemma LikeLabelInjective(a: int, b: int)
    requires LikeLabel(a) == LikeLabel(b)
    ensures a == b
  {
    LikeLabelRoundTrip(a);
    LikeLabelRoundTrip(b);
  }

  /** `tripLikes[trip.id] ?: 0` */
  function LikesOrZero(tripLikes: map<string, int>, tripId: string): (r: int)
    ensures tripId in tripLikes ==> r == tripLikes[tripId]
    ensures tripId !in tripLikes ==> r == 0
  {
    if tripId in tripLikes then tripLikes[tripId] else 0
  }

  /** The date line of a trip card: the start of an active trip, the range of an
      ended one. */
  function CardDate(trip: Trip): (r: string)
    ensures trip.active ==>
      && |r| == 9 + |trip.startDate|
      && r[..9] == "Started: " && r[9..] == trip.startDate
    ensures !trip.active ==>
      var n := |trip.startDate|;
      && |r| == n + 3 + |trip.endDate|
      && r[..n] == trip.startDate && r[n..n + 3] == " - " && r[n + 3..] == trip.endDate
  {
    if trip.active then "Started: " + trip.startDate
    else trip.startDate + " - " + trip.endDate
  }

  /** A bound profile card. `likesText` is None when the like count is hidden; `target`
      is the trip that the card, End Trip and options listeners hand back. */
  datatype Card = Card(
    name: string,
    dateText: string,
    likesText: Option<string>,
    endTripVisible: bool,
    optionsVisible: bool,
    target: Trip)

  /** `TripAdapter.onBindViewHolder` */
  function BindTripCard(trip: Trip, tripLikes: map<string, int>, showOptions: bool): (c: Card)
    ensures c.name == trip.name && c.target == trip
    ensures trip.active ==> c.dateText == "Started: " + trip.startDate
    ensures !trip.active ==> c.dateText == trip.startDate + " - " + trip.endDate
    ensures c.likesText.None? <==> trip.active
    ensures c.likesText.Some? ==>
      ParseLikeLabel(c.likesText.value) == Some(LikesOrZero(tripLikes, trip.id))
    ensures c.endTripVisible <==> trip.active
    ensures c.optionsVisible == showOptions
  {
    var likes := LikesOrZero(tripLikes, trip.id);
    LikeLabelRoundTrip(likes);
    Card(
      trip.name,
      CardDate(trip),
      if trip.active then None else Some(LikeLabel(likes)),
      trip.active,
      showOptions,
      trip)
  }

  /** A bound feed card: the friend's handle, the trip and its like count; a click
      hands back `target`. */
  datatype FeedCard = FeedCard(
    usernameText: string,
    name: string,
    dateText: string,
    likesText: string,
    target: Trip)

  /** `FeedTripAdapter.onBindViewHolder` */
  function BindFeedCard(trip: Trip, username: string, tripLikes: map<string, int>): (c: FeedCard)
    ensures |c.usernameText| == |username| + 1
    ensures c.usernameText[0] == '@' && c.usernameText[1..] == username
    ensures c.name == trip.name && c.target == trip
    ensures c.dateText == trip.startDate + " - " + trip.endDate
    ensures ParseLikeLabel(c.likesText) == Some(LikesOrZero(tripLikes, trip.id))
  {
    var likes := LikesOrZero(tripLikes, trip.id);
    LikeLabelRoundTrip(likes);
    FeedCard("@" + username, trip.name, trip.startDate + " - " + trip.endDate, LikeLabel(likes), trip)
  }

  /** For an ended trip the feed shows the same name, date range and like text as the
      owner's profile card. */
  lemma FeedMatchesProfileCard(trip: Trip, username: string, tripLikes: map<string, int>, showOptions: bool)
    requires !trip.active
    ensures var feed := BindFeedCard(trip, username, tripLikes);
      var card := BindTripCard(trip, tripLikes, showOptions);
      && feed.name == card.name
      && feed.dateText == card.dateText
      && card.likesText == Some(feed.likesText)
  {
  }

  /** The feed prints the range form even for an active trip, whose end date is still
      empty, so its date line ends in the bare separator. */
  lemma FeedActiveTripDate(trip: Trip, username: string, tripLikes: map<string, int>)
    requires trip.endDate == ""
    ensures var d := BindFeedCard(trip, username, tripLikes).dateText;
      |d| >= 3 && d[|d| - 3..] == " - "
  {
    var d := BindFeedCard(trip, username, tripLikes).dateText;
    assert d == trip.startDate + " - ";
  }
}
