/** The photo list of a trip, with a like button per photo. The adapter caches each
    photo's like state and count; a toggle updates the cache from the cached count
    rather than by reading the store again. */
module TripPhotoAdapter {
  import opened Strings
  import opened Entities
  import opened Backend
  import LikeRepository

  /** Every cached like state is the user's like in the store. */
  ghost predicate StatesCoherent(likeStates: map<string, bool>, likes: map<string, Like>, userId: string)
  {
    forall id :: id in likeStates ==> likeStates[id] == LikeRepository.HasUserLiked(likes, id, userId)
  }

  /** Every cached count is the photo's number of likes in the store. */
  ghost predicate CountsCoherent(likeCounts: map<string, int>, likes: map<string, Like>)
  {
    forall id :: id in likeCounts ==> likeCounts[id] == LikeRepository.LikeCount(likes, id)
  }

  /** After a toggle the cached states stay right once the toggled photo's entry is
      replaced by the negated state. */
  lemma ToggleKeepsStatesCoherent(
    likeStates: map<string, bool>, likes: map<string, Like>, photoId: string, userId: string)
    requires StatesCoherent(likeStates, likes, userId)
    ensures StatesCoherent(
      likeStates[photoId := !LikeRepository.HasUserLiked(likes, photoId, userId)],
      LikeRepository.Toggled(likes, photoId, userId), userId)
  {
    var after := LikeRepository.Toggled(likes, photoId, userId);
    forall id | id != photoId
      ensures LikeRepository.HasUserLiked(after, id, userId) == LikeRepository.HasUserLiked(likes, id, userId)
    {
      var k := LikeRepository.LikeId(id, userId);
      var m := LikeRepository.LikeId(photoId, userId);
      if |id| == |photoId| {
        assert k[..|id|] == id && m[..|photoId|] == photoId;
      }
      assert k != m;
    }
  }

  /** After a toggle the cached counts stay right once the toggled photo's cached
      count moves by one in the direction of the new state. */
  lemma ToggleKeepsCountsCoherent(
    likeCounts: map<string, int>, likes: map<string, Like>, photoId: string, userId: string)
    requires CountsCoherent(likeCounts, likes)
    requires LikeRepository.Keyed(likes) && PlainId(photoId) && photoId in likeCounts
    ensures var delta := if LikeRepository.HasUserLiked(likes, photoId, userId) then -1 else 1;
      CountsCoherent(
        likeCounts[photoId := likeCounts[photoId] + delta],
        LikeRepository.Toggled(likes, photoId, userId))
  {
    forall id
      ensures LikeRepository.LikeCount(LikeRepository.Toggled(likes, photoId, userId), id) ==
        LikeRepository.LikeCount(likes, id) +
        (if id != photoId then 0
         else if LikeRepository.HasUserLiked(likes, photoId, userId) then -1 else 1)
    {
      LikeRepository.ToggleCount(likes, photoId, userId, id);
    }
  }

  /** A toggle from a coherent cache that holds the photo's count leaves the cache
      coherent, the moved count being the photo's new number of likes. */
  lemma ToggleKeepsCacheCoherent(
    likeStates: map<string, bool>, likeCounts: map<string, int>, likes: map<string, Like>,
    photoId: string, userId: string)
    requires StatesCoherent(likeStates, likes, userId) && CountsCoherent(likeCounts, likes)
    requires LikeRepository.Keyed(likes) && PlainId(photoId) && photoId in likeCounts
    ensures var nowLiked := !LikeRepository.HasUserLiked(likes, photoId, userId);
      var newCount := likeCounts[photoId] + (if nowLiked then 1 else -1);
      var after := LikeRepository.Toggled(likes, photoId, userId);
      && StatesCoherent(likeStates[photoId := nowLiked], after, userId)
      && CountsCoherent(likeCounts[photoId := newCount], after)
      && newCount == LikeRepository.LikeCount(after, photoId)
  {
    ToggleKeepsStatesCoherent(likeStates, likes, photoId, userId);
    ToggleKeepsCountsCoherent(likeCounts, likes, photoId, userId);
  }

  class TripPhotoAdapter {
    const fb: Firebase
    const photos: seq<Photo>
    const currentUserId: string
    var likeStates: map<string, bool>
    var likeCounts: map<string, int>

    constructor (fb: Firebase, photos: seq<Photo>, currentUserId: string)
      ensures this.fb == fb && this.photos == photos && this.currentUserId == currentUserId
      ensures likeStates == map[] && likeCounts == map[]
    {
      this.fb := fb;
      this.photos := photos;
      this.currentUserId := currentUserId;
      likeStates := map[];
      likeCounts := map[];
    }

    /** The cache agrees with the store. */
    ghost predicate CacheCoherent()
      reads this, fb
    {
      StatesCoherent(likeStates, fb.likes, currentUserId) && CountsCoherent(likeCounts, fb.likes)
    }

    /** `loadLikeState`: cached values win, missing ones are fetched; both are cached
        and returned for display. */
    method LoadLikeState(photo: Photo) returns (isLiked: bool, count: int)
      modifies this`likeStates, this`likeCounts
      ensures isLiked == if photo.id in old(likeStates) then old(likeStates)[photo.id]
        else LikeRepository.HasUserLiked(fb.likes, photo.id, currentUserId)
      ensures count == if photo.id in old(likeCounts) then old(likeCounts)[photo.id]
        else LikeRepository.LikeCount(fb.likes, photo.id)
      ensures likeStates == old(likeStates)[photo.id := isLiked]
      ensures likeCounts == old(likeCounts)[photo.id := count]
      ensures old(CacheCoherent()) ==> CacheCoherent()
      ensures old(CacheCoherent()) ==>
        isLiked == LikeRepository.HasUserLiked(fb.likes, photo.id, currentUserId) &&
        count == LikeRepository.LikeCount(fb.likes, photo.id)
    {
      if photo.id in likeStates {
        isLiked := likeStates[photo.id];
      } else {
        isLiked := LikeRepository.HasUserLiked(fb.likes, photo.id, currentUserId);
      }
      if photo.id in likeCounts {
        count := likeCounts[photo.id];
      } else {
        count := LikeRepository.LikeCount(fb.likes, photo.id);
      }
      likeStates := likeStates[photo.id := isLiked];
      likeCounts := likeCounts[photo.id := count];
    }

    /** `toggleLike`: toggles in the store, then moves the cached count (0 when not
        cached) by one in the direction of the new state. */
    method ToggleLike(photo: Photo) returns (nowLiked: bool, newCount: int)
      modifies this`likeStates, this`likeCounts, fb`likes
      ensures fb.likes == LikeRepository.Toggled(old(fb.likes), photo.id, currentUserId)
      ensures nowLiked == !LikeRepository.HasUserLiked(old(fb.likes), photo.id, currentUserId)
      ensures newCount ==
        (if photo.id in old(likeCounts) then old(likeCounts)[photo.id] else 0) +
        (if nowLiked then 1 else -1)
      ensures likeStates == old(likeStates)[photo.id := nowLiked]
      ensures likeCounts == old(likeCounts)[photo.id := newCount]
      ensures
        (&& old(CacheCoherent()) && LikeRepository.Keyed(old(fb.likes)) && PlainId(photo.id)
         && photo.id in old(likeCounts))
        ==> CacheCoherent() && newCount == LikeRepository.LikeCount(fb.likes, photo.id)
    {
      ghost var before := fb.likes;
      nowLiked := LikeRepository.ToggleLike(fb, photo.id, currentUserId);
      var currentCount := if photo.id in likeCounts then likeCounts[photo.id] else 0;
      newCount := if nowLiked then currentCount + 1 else currentCount - 1;
      likeStates := likeStates[photo.id := nowLiked];
      likeCounts := likeCounts[photo.id := newCount];
      if (&& StatesCoherent(old(likeStates), before, currentUserId) && CountsCoherent(old(likeCounts), before)
          && LikeRepository.Keyed(before) && PlainId(photo.id) && photo.id in old(likeCounts))
      {
        assert (&& StatesCoherent(likeStates, fb.likes, currentUserId) && CountsCoherent(likeCounts, fb.likes)
                && newCount == LikeRepository.LikeCount(fb.likes, photo.id)) by {
          ToggleKeepsCacheCoherent(old(likeStates), old(likeCounts), before, photo.id, currentUserId);
        }
      }
    }
  }
}
