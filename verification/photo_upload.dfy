/** The upload step of the photo preview screen: the metadata is saved first, then
    the photo's trip, if it has one, counts one more photo. */
module PhotoPreview {
  import opened Entities
  import opened Backend
  import opened TripRepository
  import opened PhotoRepository

  /** `uploadPhoto`, from the point the image is in storage (`downloadUrl`). */
  method UploadPhoto(fb: Firebase, photo: Photo, downloadUrl: string)
    modifies fb`photos, fb`trips
    ensures fb.photos == old(fb.photos)[photo.id := photo.(imageUrl := downloadUrl)]
    ensures fb.trips == if photo.tripId != "" then Incremented(old(fb.trips), photo.tripId) else old(fb.trips)
  {
    SavePhoto(fb, photo, downloadUrl);
    if photo.tripId != "" {
      IncrementPhotoCount(fb, photo.tripId);
    }
  }

  /** Ids of the stored photos of a trip. */
  function PhotoKeysOf(photos: map<string, Photo>, tripId: string): set<string>
  {
    set k | k in photos && photos[k].tripId == tripId
  }

  /** Every trip's `photoCount` is the number of its stored photos. */
  ghost predicate CountsMatch(trips: map<string, Trip>, photos: map<string, Photo>)
  {
    forall k :: k in trips ==> trips[k].photoCount == |PhotoKeysOf(photos, k)|
  }

  /** A photo saved under a new id adds exactly its key to its trip's photos. */
  lemma AddedPhotoKeys(photos: map<string, Photo>, p: Photo, k: string)
    requires p.id !in photos
    ensures |PhotoKeysOf(photos[p.id := p], k)| == |PhotoKeysOf(photos, k)| + (if k == p.tripId then 1 else 0)
  {
    if k == p.tripId {
      assert PhotoKeysOf(photos[p.id := p], k) == PhotoKeysOf(photos, k) + {p.id};
    } else {
      assert PhotoKeysOf(photos[p.id := p], k) == PhotoKeysOf(photos, k);
    }
  }

  /** Uploading a photo under a new id keeps every trip's count equal to its number of
      photos (no trip is stored under the empty id). */
  lemma UploadKeepsCountsMatch(trips: map<string, Trip>, photos: map<string, Photo>, photo: Photo, downloadUrl: string)
    requires CountsMatch(trips, photos) && photo.id !in photos && "" !in trips
    ensures CountsMatch(
      if photo.tripId != "" then Incremented(trips, photo.tripId) else trips,
      photos[photo.id := photo.(imageUrl := downloadUrl)])
  {
    var saved := photo.(imageUrl := downloadUrl);
    var after := photos[photo.id := saved];
    var counted := if photo.tripId != "" then Incremented(trips, photo.tripId) else trips;
    forall k | k in counted
      ensures counted[k].photoCount == |PhotoKeysOf(after, k)|
    {
      AddedPhotoKeys(photos, saved, k);
    }
  }

  /** While counts match, a trip without photos has a count of zero and a count of
      zero means the trip has no photos: discarding such a trip loses no photo. */
  lemma ZeroCountMeansNoPhotos(trips: map<string, Trip>, photos: map<string, Photo>, id: string)
    requires CountsMatch(trips, photos) && id in trips
    ensures trips[id].photoCount == 0 <==> PhotosOfTrip(photos, id) == {}
  {
    if PhotoKeysOf(photos, id) != {} {
      var k :| k in PhotoKeysOf(photos, id);
      assert photos[k] in PhotosOfTrip(photos, id);
    }
    if PhotosOfTrip(photos, id) != {} {
      var p :| p in PhotosOfTrip(photos, id);
      var k :| k in photos && photos[k] == p;
      assert k in PhotoKeysOf(photos, id);
    }
  }
}
