/** The hosted back end: Firestore's collections, each a table from document id to
    document, and Firebase Auth's signed-in user. */
module Backend {
  import opened Wrappers
  import opened Entities

  class Firebase {
    var trips: map<string, Trip>
    var photos: map<string, Photo>
    var users: map<string, User>
    var friends: map<string, Friends>
    var friendRequests: map<string, FriendRequest>
    var likes: map<string, Like>
    /** The uid of the signed-in user, `FirebaseAuth.currentUser?.uid`. */
    var currentUser: Option<string>

    constructor ()
      ensures trips == map[] && photos == map[] && users == map[]
      ensures friends == map[] && friendRequests == map[] && likes == map[]
      ensures currentUser == None
    {
      trips, photos, users := map[], map[], map[];
      friends, friendRequests, likes := map[], map[], map[];
      currentUser := None;
    }
  }
}
