/** The `photos` collection: photo metadata and the per-trip queries. */
module PhotoRepository {
  import opened Wrappers
  import opened Entities
  import opened Backend
  import opened Seqs

  /** Every photo is stored under its own id (`savePhoto` writes `document(photo.id)`). */
  ghost predicate Keyed(photos: map<string, Photo>)
  {
    forall k :: k in photos ==> photos[k].id == k
  }

  /** `whereEqualTo("tripId", tripId)` */
  function PhotosOfTrip(photos: map<string, Photo>, tripId: string): set<Photo>
  {
    set p | p in photos.Values && p.tripId == tripId
  }

  /** `p` has the largest timestamp in `s`. */
  predicate IsLatestIn(s: set<Photo>, p: Photo)
  {
    p in s && forall q :: q in s ==> q.timestamp <= p.timestamp
  }

  /** Every non-empty set of photos has one with a largest timestamp. */
  lemma {:induction false} LatestExists(s: set<Photo>)
    requires s != {}
    ensures exists p :: IsLatestIn(s, p)
    decreases |s|
  {
    var x :| x in s;
    if s != {x} {
      LatestExists(s - {x});
      var p :| IsLatestIn(s - {x}, p);
      if x.timestamp <= p.timestamp {
        assert IsLatestIn(s, p);
      } else {
        assert IsLatestIn(s, x);
      }
    } else {
      assert IsLatestIn(s, x);
    }
  }

  /** Stores the metadata under the photo's id with the download URL of the uploaded
      image; every other field is kept. */
  method SavePhoto(fb: Firebase, photo: Photo, downloadUrl: string)
    modifies fb`photos
    ensures fb.photos == old(fb.photos)[photo.id := photo.(imageUrl := downloadUrl)]
    ensures photo.(imageUrl := downloadUrl) in PhotosOfTrip(fb.photos, photo.tripId)
    ensures Keyed(old(fb.photos)) ==> Keyed(fb.photos)
  {
    var photoWithUrl := photo.(imageUrl := downloadUrl);
    fb.photos := fb.photos[photo.id := photoWithUrl];
    assert fb.photos[photo.id] in fb.photos.Values;
  }

  method GetPhotosForTrip(fb: Firebase, tripId: string) returns (r: seq<Photo>)
    ensures Distinct(r)
    ensures forall p :: p in r <==> p in fb.photos.Values && p.tripId == tripId
  {
    r := Enumerate(PhotosOfTrip(fb.photos, tripId));
  }

  method GetAllPhotos(fb: Firebase) returns (r: seq<Photo>)
    ensures Distinct(r)
    ensures forall p :: p in r <==> p in fb.photos.Values
  {
    r := Enumerate(fb.photos.Values);
  }

  /** `orderBy("timestamp", DESCENDING).limit(1)`: a photo of the trip with the
      largest timestamp, or null when the trip has none. */
  method GetLastPhotoForTrip(fb: Firebase, tripId: string) returns (r: Option<Photo>)
    ensures r.None? <==> PhotosOfTrip(fb.photos, tripId) == {}
    ensures r.Some? ==> IsLatestIn(PhotosOfTrip(fb.photos, tripId), r.value)
  {
    var snapshot := PhotosOfTrip(fb.photos, tripId);
    if snapshot == {} {
      r := None;
    } else {
      LatestExists(snapshot);
      var p :| IsLatestIn(snapshot, p);
      r := Some(p);
    }
  }
}
