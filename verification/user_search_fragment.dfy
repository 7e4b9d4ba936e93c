/** The user-search screen: a username-prefix search that leaves out the signed-in
    user and labels every result with its relation to them. */
module UserSearchFragment {
  import opened Wrappers
  import opened Strings
  import opened Entities
  import opened Backend
  import opened Seqs
  import opened FriendsRepository
  import opened UserSearchAdapter

  /** The status `searchUsers` records: friendship first, then a pending request in
      either direction, else none. */
  function RelationStatus(friends: map<string, Friends>, requests: map<string, FriendRequest>,
                          me: string, other: string): (r: string)
    ensures r == FRIEND <==> AreFriends(friends, me, other)
    ensures r == PENDING_STATUS <==> !AreFriends(friends, me, other) && PendingBetween(requests, me, other).Some?
    ensures r == NO_RELATION <==> !AreFriends(friends, me, other) && PendingBetween(requests, me, other).None?
  {
    if AreFriends(friends, me, other) then FRIEND
    else if PendingBetween(requests, me, other).Some? then PENDING_STATUS
    else NO_RELATION
  }

  /** The results list: the empty-result text, or the users and their statuses. */
  datatype Results = NoResults | Found(users: seq<User>, statusMap: map<string, string>)

  /** `results` is what `searchUsers(query)` shows to `me`. */
  ghost predicate ShowsSearch(fb: Firebase, me: string, query: string, results: Results)
    reads fb
  {
    match results
    case NoResults => forall u :: u in SearchUsers(fb.users, query) ==> u.id == me
    case Found(users, statusMap) =>
      && users != [] && Distinct(users)
      && (forall u :: u in users <==> u in SearchUsers(fb.users, query) && u.id != me)
      && StatusesOf(fb.friends, fb.friendRequests, me, users, statusMap)
  }

  /** One entry per listed user, holding that user's relation status. */
  ghost predicate StatusesOf(friends: map<string, Friends>, requests: map<string, FriendRequest>, me: string,
                             users: seq<User>, statusMap: map<string, string>)
  {
    && statusMap.Keys == (set u | u in users :: u.id)
    && (forall u :: u in users ==> statusMap[u.id] == RelationStatus(friends, requests, me, u.id))
  }

  /** The `for` loop of `searchUsers` that fills `statusMap`. */
  method BuildStatusMap(fb: Firebase, me: string, users: seq<User>) returns (statusMap: map<string, string>)
    ensures StatusesOf(fb.friends, fb.friendRequests, me, users, statusMap)
  {
    statusMap := map[];
    for i := 0 to |users|
      invariant statusMap.Keys == set u | u in users[..i] :: u.id
      invariant forall u :: u in users[..i] ==>
        statusMap[u.id] == RelationStatus(fb.friends, fb.friendRequests, me, u.id)
    {
      var user := users[i];
      statusMap := statusMap[user.id := RelationStatus(fb.friends, fb.friendRequests, me, user.id)];
      assert users[..i + 1] == users[..i] + [user];
    }
    assert users[..|users|] == users;
  }

  class UserSearchFragment {
    const fb: Firebase
    /** The signed-in uid, "" when none. */
    var currentUserId: string
    /** What the results list shows; none before the first search. */
    var shown: Option<Results>

    /** `onViewCreated` */
    constructor (fb: Firebase)
      ensures this.fb == fb
      ensures currentUserId == if fb.currentUser.Some? then fb.currentUser.value else ""
      ensures shown == None
    {
      this.fb := fb;
      currentUserId := if fb.currentUser.Some? then fb.currentUser.value else "";
      shown := None;
    }

    /** The search button: searches for the trimmed input unless it is blank. */
    method OnSearchClicked(input: string)
      modifies this`shown
      ensures Trim(input) == "" ==> shown == old(shown)
      ensures Trim(input) != "" ==> shown.Some? && ShowsSearch(fb, currentUserId, Trim(input), shown.value)
    {
      var query := Trim(input);
      if query != "" {
        SearchUsersFor(query);
      }
    }

    /** `searchUsers(query)` */
    method SearchUsersFor(query: string)
      modifies this`shown
      ensures shown.Some? && ShowsSearch(fb, currentUserId, query, shown.value)
    {
      var me := currentUserId;
      var found := Enumerate(SearchUsers(fb.users, query));
      var notMe := (u: User) => u.id != me;
      var users := Filter(found, notMe);
      FilterKeepsDistinct(found, notMe);
      if |users| == 0 {
        shown := Some(NoResults);
        return;
      }
      var statusMap := BuildStatusMap(fb, me, users);
      shown := Some(Found(users, statusMap));
    }

    /** `sendFriendRequest(user)`: sends the request, then repeats the search for the
        trimmed input when it is not blank. */
    method SendFriendRequest(user: User, input: string)
      modifies this`shown, fb`friendRequests
      ensures fb.friendRequests == old(fb.friendRequests)[CompositeId(currentUserId, user.id) :=
        FriendRequest(CompositeId(currentUserId, user.id), currentUserId, user.id, PENDING)]
      ensures Trim(input) == "" ==> shown == old(shown)
      ensures Trim(input) != "" ==> shown.Some? && ShowsSearch(fb, currentUserId, Trim(input), shown.value)
    {
      var result := FriendsRepository.SendFriendRequest(fb, currentUserId, user.id);
      if result.Success? {
        var query := Trim(input);
        if query != "" {
          SearchUsersFor(query);
        }
      }
    }
  }

  /** Once a request is sent to a user, the next search shows that user as a friend
      or as pending, so the "Add" button is disabled. */
  lemma SentRequestDisablesAdd(friends: map<string, Friends>, requests: map<string, FriendRequest>,
                               me: string, other: User, statusMap: map<string, string>)
    requires var id := CompositeId(me, other.id);
      other.id in statusMap &&
      statusMap[other.id] == RelationStatus(friends, requests[id := FriendRequest(id, me, other.id, PENDING)], me, other.id)
    ensures !BindUserRow(other, statusMap).button.enabled
  {
    SentIsPending(requests, me, other.id);
  }

  /** A result's "Add" button is enabled exactly when the two users are neither
      friends nor have a pending request between them. */
  lemma AddEnabledIffNoRelation(friends: map<string, Friends>, requests: map<string, FriendRequest>,
                                me: string, other: User, statusMap: map<string, string>)
    requires other.id in statusMap && statusMap[other.id] == RelationStatus(friends, requests, me, other.id)
    ensures BindUserRow(other, statusMap).button.enabled <==>
      !AreFriends(friends, me, other.id) && PendingBetween(requests, me, other.id).None?
  {
  }
}
