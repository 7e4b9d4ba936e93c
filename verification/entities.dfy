/** The Firestore documents of the app, one datatype per model class. */
module Entities {

  /** A trip, with the fields the code reads and writes (`userId`, `active`,
      `endDate`, `photoCount`) besides those of the declared data class. */
  datatype Trip = Trip(
    id: string,
    userId: string,
    name: string,
    startDate: string,
    endDate: string,   // empty while the trip is active
    active: bool,
    photoCount: int)   // denormalised count of the trip's photos

  /** `Trip()` with every field at its default: the menu's "New Trip" entry. */
  const BlankTrip := Trip("", "", "", "", "", false, 0)

  /** A photo's metadata document (coordinates are not modelled). */
  datatype Photo = Photo(
    id: string,
    userId: string,
    imageUrl: string,
    date: string,      // display date of the capture
    timestamp: int,    // capture time, the sort key
    tripId: string)

  datatype User = User(
    id: string,
    username: string,
    displayName: string,
    email: string,
    profilePictureUrl: string)

  const PENDING := "pending"
  const ACCEPTED := "accepted"
  const DECLINED := "declined"

  /** A friend request, stored under `"${senderId}_${receiverId}"`. */
  datatype FriendRequest = FriendRequest(
    id: string,
    senderId: string,
    receiverId: string,
    status: string)

  /** A friendship, stored under `"${user1Id}_${user2Id}"` with the smaller id first. */
  datatype Friends = Friends(
    id: string,
    user1Id: string,
    user2Id: string)

  /** A like, stored under `"${photoId}_${userId}"`. */
  datatype Like = Like(
    id: string,
    photoId: string,
    userId: string)
}
