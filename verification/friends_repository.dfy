/** Friend requests and friendships. A request from `s` to `r` lives under
    `"${s}_${r}"`; a friendship lives once, under the two ids in increasing order. */
module FriendsRepository {
  import opened Wrappers
  import opened Strings
  import opened Entities
  import opened Backend
  import opened Seqs
  import AuthRepository

  /** The two ids with the smaller first (`if (a < b) a to b else b to a`). */
  function OrderedPair(a: string, b: string): (r: (string, string))
    ensures r == (a, b) || r == (b, a)
    ensures LessEq(r.0, r.1)
  {
    LessTrichotomy(a, b);
    if Less(a, b) then (a, b) else (b, a)
  }

  /** The document id of the friendship between `a` and `b`. */
  function PairKey(a: string, b: string): string
  {
    var (user1, user2) := OrderedPair(a, b);
    CompositeId(user1, user2)
  }

  /** Either user may be named first. */
  lemma PairKeySymmetric(a: string, b: string)
    ensures OrderedPair(a, b) == OrderedPair(b, a)
    ensures PairKey(a, b) == PairKey(b, a)
  {
    LessTrichotomy(a, b);
  }

  /** Every friendship is stored under its ordered key, with separator-free ids. */
  ghost predicate WellFormed(friends: map<string, Friends>)
  {
    forall k :: k in friends ==>
      && friends[k].id == k
      && PlainId(friends[k].user1Id) && PlainId(friends[k].user2Id)
      && LessEq(friends[k].user1Id, friends[k].user2Id)
      && k == CompositeId(friends[k].user1Id, friends[k].user2Id)
  }

  /** `sendFriendRequest`: writes (or overwrites) a pending request. */
  method SendFriendRequest(fb: Firebase, senderId: string, receiverId: string) returns (r: Result<()>)
    modifies fb`friendRequests
    ensures r.Success?
    ensures fb.friendRequests == old(fb.friendRequests)[CompositeId(senderId, receiverId) :=
      FriendRequest(CompositeId(senderId, receiverId), senderId, receiverId, PENDING)]
  {
    var id := CompositeId(senderId, receiverId);
    var request := FriendRequest(id, senderId, receiverId, PENDING);
    fb.friendRequests := fb.friendRequests[id := request];
    r := Success(());
  }

  /** The friendship document `acceptFriendRequest` writes. */
  function FriendshipOf(request: FriendRequest): (f: Friends)
    ensures f.id == PairKey(request.senderId, request.receiverId)
    ensures {f.user1Id, f.user2Id} == {request.senderId, request.receiverId}
  {
    var (user1, user2) := OrderedPair(request.senderId, request.receiverId);
    Friends(CompositeId(user1, user2), user1, user2)
  }

  /** `acceptFriendRequest`: the status update fails on a missing request document and
      nothing is written; otherwise the stored request becomes accepted and the
      friendship is written. */
  method AcceptFriendRequest(fb: Firebase, request: FriendRequest) returns (r: Result<()>)
    modifies fb`friendRequests, fb`friends
    ensures r.Success? <==> request.id in old(fb.friendRequests)
    ensures r.Failure? ==> fb.friendRequests == old(fb.friendRequests) && fb.friends == old(fb.friends)
    ensures r.Success? ==>
      && fb.friendRequests == old(fb.friendRequests)[request.id :=
           old(fb.friendRequests)[request.id].(status := ACCEPTED)]
      && fb.friends == old(fb.friends)[FriendshipOf(request).id := FriendshipOf(request)]
  {
    if request.id !in fb.friendRequests {
      return Failure("NOT_FOUND: " + request.id);
    }
    fb.friendRequests := fb.friendRequests[request.id := fb.friendRequests[request.id].(status := ACCEPTED)];
    var friends := FriendshipOf(request);
    fb.friends := fb.friends[friends.id := friends];
    r := Success(());
  }

  /** `declineFriendRequest`: only the status changes. */
  method DeclineFriendRequest(fb: Firebase, request: FriendRequest) returns (r: Result<()>)
    modifies fb`friendRequests
    ensures r.Success? <==> request.id in old(fb.friendRequests)
    ensures r.Failure? ==> fb.friendRequests == old(fb.friendRequests)
    ensures r.Success? ==> fb.friendRequests == old(fb.friendRequests)[request.id :=
      old(fb.friendRequests)[request.id].(status := DECLINED)]
  {
    if request.id !in fb.friendRequests {
      return Failure("NOT_FOUND: " + request.id);
    }
    fb.friendRequests := fb.friendRequests[request.id := fb.friendRequests[request.id].(status := DECLINED)];
    r := Success(());
  }

  /** `removeFriend`: deletes the friendship document (a missing one is no error). */
  method RemoveFriend(fb: Firebase, currentUserId: string, friendId: string) returns (r: Result<()>)
    modifies fb`friends
    ensures r.Success?
    ensures fb.friends == old(fb.friends) - {PairKey(currentUserId, friendId)}
    ensures !AreFriends(fb.friends, currentUserId, friendId) && !AreFriends(fb.friends, friendId, currentUserId)
  {
    PairKeySymmetric(currentUserId, friendId);
    fb.friends := fb.friends - {PairKey(currentUserId, friendId)};
    r := Success(());
  }

  /** `areFriends` */
  predicate AreFriends(friends: map<string, Friends>, a: string, b: string): (r: bool)
    ensures r <==> PairKey(b, a) in friends
  {
    PairKeySymmetric(a, b);
    PairKey(a, b) in friends
  }

  /** `getPendingRequests`: pending requests addressed to the user. */
  function PendingRequests(requests: map<string, FriendRequest>, userId: string): (r: set<FriendRequest>)
    ensures forall q :: q in r <==> q in requests.Values && q.receiverId == userId && q.status == PENDING
  {
    set q | q in requests.Values && q.receiverId == userId && q.status == PENDING
  }

  /** The ids `getFriends` collects: the other side of each friendship of the user. */
  function FriendIds(friends: map<string, Friends>, userId: string): (r: set<string>)
    ensures forall x :: x in r <==>
      exists f :: f in friends.Values &&
        ((f.user1Id == userId && f.user2Id == x) || (f.user2Id == userId && f.user1Id == x))
  {
    (set f | f in friends.Values && f.user1Id == userId :: f.user2Id) +
    (set f | f in friends.Values && f.user2Id == userId :: f.user1Id)
  }

  /** `getFriends`: the profiles of the user's friends, skipping ids with no profile. */
  method GetFriends(fb: Firebase, userId: string) returns (r: seq<User>)
    ensures forall u :: u in r <==>
      exists x :: x in FriendIds(fb.friends, userId) && AuthRepository.UserProfile(fb.users, x) == Some(u)
  {
    var ids := Enumerate(FriendIds(fb.friends, userId));
    r := [];
    for i := 0 to |ids|
      invariant forall u :: u in r <==> exists j :: 0 <= j < i && AuthRepository.UserProfile(fb.users, ids[j]) == Some(u)
    {
      match AuthRepository.UserProfile(fb.users, ids[i]) {
        case Some(user) => r := r + [user];
        case None =>
      }
    }
    forall u ensures u in r <==>
      exists x :: x in FriendIds(fb.friends, userId) && AuthRepository.UserProfile(fb.users, x) == Some(u)
    {
      if u in r {
        var j :| 0 <= j < |ids| && AuthRepository.UserProfile(fb.users, ids[j]) == Some(u);
        assert ids[j] in FriendIds(fb.friends, userId);
      }
      if exists x :: x in FriendIds(fb.friends, userId) && AuthRepository.UserProfile(fb.users, x) == Some(u) {
        var x :| x in FriendIds(fb.friends, userId) && AuthRepository.UserProfile(fb.users, x) == Some(u);
        var j :| 0 <= j < |ids| && ids[j] == x;
      }
    }
  }

  /** In a well-formed table a friendship between `a` and `b` is stored under their
      pair key. */
  lemma FriendshipStoredUnderPairKey(friends: map<string, Friends>, kf: string, a: string, b: string)
    requires WellFormed(friends) && kf in friends
    requires (friends[kf].user1Id == a && friends[kf].user2Id == b) ||
             (friends[kf].user1Id == b && friends[kf].user2Id == a)
    ensures kf == PairKey(a, b)
  {
    LessTrichotomy(a, b);
  }

  /** In a well-formed table, `areFriends(a, b)` agrees with `getFriends(a)` naming `b`. */
  lemma AreFriendsIffFriendId(friends: map<string, Friends>, a: string, b: string)
    requires WellFormed(friends) && PlainId(a) && PlainId(b)
    ensures AreFriends(friends, a, b) <==> b in FriendIds(friends, a)
  {
    var (user1, user2) := OrderedPair(a, b);
    var k := PairKey(a, b);
    if k in friends {
      var f := friends[k];
      CompositeIdInjective(f.user1Id, f.user2Id, user1, user2);
      assert f in friends.Values;
    }
    if b in FriendIds(friends, a) {
      var f :| f in friends.Values &&
        ((f.user1Id == a && f.user2Id == b) || (f.user2Id == a && f.user1Id == b));
      var kf :| kf in friends && friends[kf] == f;
      FriendshipStoredUnderPairKey(friends, kf, a, b);
    }
  }

  /** Accepting a request between separator-free ids keeps the table well formed and
      makes the two users friends, in both directions. */
  lemma AcceptMakesFriends(friends: map<string, Friends>, request: FriendRequest)
    requires WellFormed(friends) && PlainId(request.senderId) && PlainId(request.receiverId)
    ensures var after := friends[FriendshipOf(request).id := FriendshipOf(request)];
      && WellFormed(after)
      && AreFriends(after, request.senderId, request.receiverId)
      && AreFriends(after, request.receiverId, request.senderId)
  {
    PairKeySymmetric(request.senderId, request.receiverId);
  }

  /** `getPendingRequestBetween(a, b)`: the request `a` sent to `b` decides when it
      exists (pending or nothing); only when it does not is `b`'s request to `a`
      consulted. */
  function PendingBetween(requests: map<string, FriendRequest>, a: string, b: string): (r: Option<FriendRequest>)
    ensures r.Some? ==> r.value in requests.Values && r.value.status == PENDING
    ensures CompositeId(a, b) in requests ==>
      && (r.Some? <==> requests[CompositeId(a, b)].status == PENDING)
      && (r.Some? ==> r.value == requests[CompositeId(a, b)])
    ensures CompositeId(a, b) !in requests ==>
      && (r.Some? <==> CompositeId(b, a) in requests && requests[CompositeId(b, a)].status == PENDING)
      && (r.Some? ==> r.value == requests[CompositeId(b, a)])
  {
    var sent := CompositeId(a, b);
    var received := CompositeId(b, a);
    if sent in requests then
      (if requests[sent].status == PENDING then Some(requests[sent]) else None)
    else if received in requests then
      (if requests[received].status == PENDING then Some(requests[received]) else None)
    else None
  }

  /** A request just sent is found pending between its two users. */
  lemma SentIsPending(requests: map<string, FriendRequest>, s: string, r: string)
    ensures var id := CompositeId(s, r);
      PendingBetween(requests[id := FriendRequest(id, s, r, PENDING)], s, r) ==
        Some(FriendRequest(id, s, r, PENDING))
  {
  }

  /** Once the request `a` sent to `b` is accepted or declined, nothing is pending
      between them from `a`'s side, even if `b` has a pending request to `a`. */
  lemma AnsweredHidesReverse(requests: map<string, FriendRequest>, a: string, b: string)
    requires CompositeId(a, b) in requests
    requires requests[CompositeId(a, b)].status != PENDING
    ensures PendingBetween(requests, a, b) == None
  {
  }

  /** A request `b` sent to `a` is found pending from `a`'s side too, as long as `a`
      has not sent one of their own. */
  lemma ReceivedIsPending(requests: map<string, FriendRequest>, a: string, b: string)
    requires CompositeId(a, b) !in requests
    ensures var id := CompositeId(b, a);
      PendingBetween(requests[id := FriendRequest(id, b, a, PENDING)], a, b) ==
        Some(FriendRequest(id, b, a, PENDING))
  {
  }

  /** With a document in at most one direction, both users see the same pending
      request, or both see none. */
  lemma PendingBetweenSymmetric(requests: map<string, FriendRequest>, a: string, b: string)
    requires CompositeId(a, b) !in requests || CompositeId(b, a) !in requests
    ensures PendingBetween(requests, a, b) == PendingBetween(requests, b, a)
  {
  }

  /** `searchUsersByUsername(query)`: the usernames from `query` up to `query` followed
      by U+F8FF, the last character of the Private Use Area. */
  function SearchUsers(users: map<string, User>, query: string): (r: set<User>)
    ensures r <= users.Values
  {
    set u | u in users.Values && LessEq(query, u.username) && LessEq(u.username, query + ['\U{F8FF}'])
  }

  /** Every search result starts with the query. */
  lemma {:induction false} InRangeHasPrefix(query: string, name: string)
    requires LessEq(query, name) && LessEq(name, query + ['\U{F8FF}'])
    ensures |query| <= |name| && name[..|query|] == query
  {
    if query != [] && name != [] && name[0] == query[0] {
      assert (query + ['\U{F8FF}'])[1..] == query[1..] + ['\U{F8FF}'];
      InRangeHasPrefix(query[1..], name[1..]);
    }
  }

  /** A name that extends the query by nothing, or by a character below U+F8FF, is in
      range. */
  lemma {:induction false} PrefixInRange(query: string, rest: string)
    requires rest == [] || rest[0] < '\U{F8FF}'
    ensures LessEq(query, query + rest) && LessEq(query + rest, query + ['\U{F8FF}'])
  {
    if rest != [] {
      PrefixLess(query, rest);
    }
    if query == [] {
      assert query + rest == rest;
    } else {
      assert (query + rest)[1..] == query[1..] + rest;
      assert (query + ['\U{F8FF}'])[1..] == query[1..] + ['\U{F8FF}'];
      PrefixInRange(query[1..], rest);
    }
  }

  /** Every user the search finds has a username starting with the query; conversely
      it finds every user whose username is the query followed by nothing or by a
      character below U+F8FF. */
  lemma SearchFindsPrefixMatches(users: map<string, User>, query: string, u: User)
    ensures u in SearchUsers(users, query) ==> |query| <= |u.username| && u.username[..|query|] == query
    ensures
      && u in users.Values && |query| <= |u.username| && u.username[..|query|] == query
      && (|u.username| == |query| || u.username[|query|] < '\U{F8FF}')
      ==> u in SearchUsers(users, query)
  {
    if u in SearchUsers(users, query) {
      InRangeHasPrefix(query, u.username);
    }
    if |query| <= |u.username| && u.username[..|query|] == query &&
       (|u.username| == |query| || u.username[|query|] < '\U{F8FF}') {
      var rest := u.username[|query|..];
      assert u.username == query + rest;
      PrefixInRange(query, rest);
    }
  }
}
