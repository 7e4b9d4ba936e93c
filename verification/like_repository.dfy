/** The `likes` collection: a like exists exactly while its `"${photoId}_${userId}"`
    document does. */
module LikeRepository {
  import opened Strings
  import opened Entities
  import opened Backend
  import opened Seqs
  import PhotoRepository

  function LikeId(photoId: string, userId: string): string
  {
    CompositeId(photoId, userId)
  }

  /** Every like is stored under the id built from its photo and user, and photo ids
      contain no separator. */
  ghost predicate Keyed(likes: map<string, Like>)
  {
    forall k :: k in likes ==>
      && likes[k].id == k
      && k == LikeId(likes[k].photoId, likes[k].userId)
      && PlainId(likes[k].photoId)
  }

  /** `hasUserLiked` */
  function HasUserLiked(likes: map<string, Like>, photoId: string, userId: string): (r: bool)
    ensures Keyed(likes) && PlainId(photoId) ==>
      (r <==> Like(LikeId(photoId, userId), photoId, userId) in likes.Values)
  {
    var id := LikeId(photoId, userId);
    assert Keyed(likes) && PlainId(photoId) ==>
      (id in likes <==> Like(id, photoId, userId) in likes.Values) by {
      if Keyed(likes) && PlainId(photoId) && id in likes {
        StoredLikeBelongs(likes, photoId, userId);
      }
    }
    id in likes
  }

  function LikesOfPhoto(likes: map<string, Like>, photoId: string): set<string>
  {
    set k | k in likes && likes[k].photoId == photoId
  }

  /** `getLikeCount`: the number of like documents of the photo. */
  function LikeCount(likes: map<string, Like>, photoId: string): (r: nat)
    ensures r == 0 <==> forall l :: l in likes.Values ==> l.photoId != photoId
  {
    var ids := LikesOfPhoto(likes, photoId);
    assert ids == {} <==> forall l :: l in likes.Values ==> l.photoId != photoId by {
      if ids != {} {
        var k :| k in ids;
        assert likes[k] in likes.Values;
      } else {
        forall l | l in likes.Values ensures l.photoId != photoId {
          var k :| k in likes && likes[k] == l;
          assert k !in ids;
        }
      }
    }
    |ids|
  }

  /** The table after `toggleLike(photoId, userId)`. */
  function Toggled(likes: map<string, Like>, photoId: string, userId: string): map<string, Like>
  {
    var id := LikeId(photoId, userId);
    if id in likes then likes - {id} else likes[id := Like(id, photoId, userId)]
  }

  /** Deletes an existing like and answers false, or creates it and answers true. */
  method ToggleLike(fb: Firebase, photoId: string, userId: string) returns (nowLiked: bool)
    modifies fb`likes
    ensures nowLiked == !HasUserLiked(old(fb.likes), photoId, userId)
    ensures fb.likes == Toggled(old(fb.likes), photoId, userId)
    ensures HasUserLiked(fb.likes, photoId, userId) == nowLiked
  {
    var likeId := LikeId(photoId, userId);
    if likeId in fb.likes {
      fb.likes := fb.likes - {likeId};
      nowLiked := false;
    } else {
      var like := Like(likeId, photoId, userId);
      fb.likes := fb.likes[likeId := like];
      nowLiked := true;
    }
  }

  /** In a keyed table the like stored under a photo's id belongs to that photo. */
  lemma StoredLikeBelongs(likes: map<string, Like>, photoId: string, userId: string)
    requires Keyed(likes) && PlainId(photoId)
    requires LikeId(photoId, userId) in likes
    ensures likes[LikeId(photoId, userId)] == Like(LikeId(photoId, userId), photoId, userId)
  {
    var k := LikeId(photoId, userId);
    CompositeIdInjective(likes[k].photoId, likes[k].userId, photoId, userId);
  }

  lemma ToggleKeepsKeyed(likes: map<string, Like>, photoId: string, userId: string)
    requires Keyed(likes) && PlainId(photoId)
    ensures Keyed(Toggled(likes, photoId, userId))
  {
  }

  /** Toggling twice with the same arguments restores the table. */
  lemma ToggleTwice(likes: map<string, Like>, photoId: string, userId: string)
    requires Keyed(likes) && PlainId(photoId)
    ensures Toggled(Toggled(likes, photoId, userId), photoId, userId) == likes
  {
    var k := LikeId(photoId, userId);
    if k in likes {
      StoredLikeBelongs(likes, photoId, userId);
    }
  }

  /** Removing a like takes exactly that like out of its photo's likes. */
  lemma RemovedLikes(likes: map<string, Like>, k: string, other: string)
    requires k in likes
    ensures LikeCount(likes - {k}, other) ==
      LikeCount(likes, other) - (if likes[k].photoId == other then 1 else 0)
  {
    if likes[k].photoId == other {
      assert LikesOfPhoto(likes - {k}, other) == LikesOfPhoto(likes, other) - {k};
    } else {
      assert LikesOfPhoto(likes - {k}, other) == LikesOfPhoto(likes, other);
    }
  }

  /** Adding a like under a new key adds exactly that like to its photo's likes. */
  lemma AddedLike(likes: map<string, Like>, k: string, like: Like, other: string)
    requires k !in likes
    ensures LikeCount(likes[k := like], other) ==
      LikeCount(likes, other) + (if like.photoId == other then 1 else 0)
  {
    if like.photoId == other {
      assert LikesOfPhoto(likes[k := like], other) == LikesOfPhoto(likes, other) + {k};
    } else {
      assert LikesOfPhoto(likes[k := like], other) == LikesOfPhoto(likes, other);
    }
  }

  /** A toggle moves the toggled photo's count by exactly one and leaves every other
      photo's count alone. */
  lemma ToggleCount(likes: map<string, Like>, photoId: string, userId: string, other: string)
    requires Keyed(likes) && PlainId(photoId)
    ensures var after := Toggled(likes, photoId, userId);
      LikeCount(after, other) == LikeCount(likes, other) +
        (if other != photoId then 0
         else if HasUserLiked(likes, photoId, userId) then -1 else 1)
  {
    var k := LikeId(photoId, userId);
    if k in likes {
      StoredLikeBelongs(likes, photoId, userId);
      RemovedLikes(likes, k, other);
    } else {
      AddedLike(likes, k, Like(k, photoId, userId), other);
    }
  }

  /** The like total of a list of photo ids, summed in list order. */
  function TotalLikes(likes: map<string, Like>, photoIds: seq<string>): nat
  {
    if photoIds == [] then 0
    else TotalLikes(likes, photoIds[..|photoIds| - 1]) + LikeCount(likes, photoIds[|photoIds| - 1])
  }

  /** The likes on any of the given photos. */
  function LikesOfPhotos(likes: map<string, Like>, photoIds: set<string>): set<string>
  {
    set k | k in likes && likes[k].photoId in photoIds
  }

  /** Adding a photo not yet counted adds exactly its likes, which are new. */
  lemma LikesOfPhotosAdd(likes: map<string, Like>, photoIds: set<string>, photoId: string)
    requires photoId !in photoIds
    ensures LikesOfPhotos(likes, photoIds + {photoId}) ==
      LikesOfPhotos(likes, photoIds) + LikesOfPhoto(likes, photoId)
    ensures LikesOfPhotos(likes, photoIds) !! LikesOfPhoto(likes, photoId)
  {
  }

  /** Over distinct ids the summed counts are the number of likes on those photos. */
  lemma {:induction false} TotalLikesCountsLikes(likes: map<string, Like>, photoIds: seq<string>)
    requires Distinct(photoIds)
    ensures TotalLikes(likes, photoIds) == |LikesOfPhotos(likes, set i | i in photoIds)|
  {
    if photoIds != [] {
      var n := |photoIds| - 1;
      var init, last := photoIds[..n], photoIds[n];
      assert Distinct(init);
      TotalLikesCountsLikes(likes, init);
      assert (set i | i in photoIds) == (set i | i in init) + {last};
      assert last !in init;
      LikesOfPhotosAdd(likes, (set i | i in init), last);
    }
  }

  /** Adds up `getLikeCount` over the ids (0 for none). */
  method GetTotalLikesForTrip(fb: Firebase, photoIds: seq<string>) returns (total: int)
    ensures total == TotalLikes(fb.likes, photoIds)
    ensures Distinct(photoIds) ==> total == |LikesOfPhotos(fb.likes, set i | i in photoIds)|
  {
    if |photoIds| == 0 {
      return 0;
    }
    total := 0;
    for i := 0 to |photoIds|
      invariant total == TotalLikes(fb.likes, photoIds[..i])
    {
      assert photoIds[..i + 1][..i] == photoIds[..i];
      total := total + LikeCount(fb.likes, photoIds[i]);
    }
    assert photoIds[..|photoIds|] == photoIds;
    if Distinct(photoIds) {
      TotalLikesCountsLikes(fb.likes, photoIds);
    }
  }

  /** The likes on the photos of a trip. */
  function TripLikes(likes: map<string, Like>, photos: map<string, Photo>, tripId: string): nat
  {
    |LikesOfPhotos(likes, set p | p in PhotoRepository.PhotosOfTrip(photos, tripId) :: p.id)|
  }

  /** One entry per listed trip: the likes on that trip's photos. */
  method GetLikesForTrips(fb: Firebase, trips: seq<Trip>) returns (tripLikes: map<string, int>)
    ensures tripLikes.Keys == set t | t in trips :: t.id
    ensures PhotoRepository.Keyed(fb.photos) ==>
      forall t :: t in trips ==> tripLikes[t.id] == TripLikes(fb.likes, fb.photos, t.id)
  {
    tripLikes := map[];
    for i := 0 to |trips|
      invariant tripLikes.Keys == set t | t in trips[..i] :: t.id
      invariant PhotoRepository.Keyed(fb.photos) ==>
        forall t :: t in trips[..i] ==> tripLikes[t.id] == TripLikes(fb.likes, fb.photos, t.id)
    {
      var trip := trips[i];
      var photos := PhotoRepository.GetPhotosForTrip(fb, trip.id);
      var photoIds := seq(|photos|, j requires 0 <= j < |photos| => photos[j].id);
      var total := GetTotalLikesForTrip(fb, photoIds);
      if PhotoRepository.Keyed(fb.photos) {
        PhotoIdsOfTrip(fb.photos, trip.id, photos, photoIds);
      }
      tripLikes := tripLikes[trip.id := total];
      assert trips[..i + 1] == trips[..i] + [trip];
    }
    assert trips[..|trips|] == trips;
  }

  /** The ids of a listing of a trip's photos are distinct and are the trip's photo ids. */
  lemma PhotoIdsOfTrip(photos: map<string, Photo>, tripId: string, listed: seq<Photo>, ids: seq<string>)
    requires PhotoRepository.Keyed(photos)
    requires Distinct(listed)
    requires forall p :: p in listed <==> p in photos.Values && p.tripId == tripId
    requires |ids| == |listed| && forall j :: 0 <= j < |ids| ==> ids[j] == listed[j].id
    ensures Distinct(ids)
    ensures (set i | i in ids) == set p | p in PhotoRepository.PhotosOfTrip(photos, tripId) :: p.id
  {
    forall a, b | 0 <= a < b < |ids| ensures ids[a] != ids[b] {
      assert listed[a] in listed && listed[b] in listed;
      var ka :| ka in photos && photos[ka] == listed[a];
      var kb :| kb in photos && photos[kb] == listed[b];
    }
    forall x | x in (set p | p in PhotoRepository.PhotosOfTrip(photos, tripId) :: p.id)
      ensures x in ids
    {
      var p :| p in PhotoRepository.PhotosOfTrip(photos, tripId) && p.id == x;
      assert p in listed;
      var j :| 0 <= j < |listed| && listed[j] == p;
      assert ids[j] == x;
    }
  }
}
