# Travel photo app: trips, likes and friends, modelled in Dafny

This project models the rule-bearing core of an Android travel-photo app.
The app is written in Kotlin over Firebase. Users record trips, attach
photos to the trip that is currently active, like their friends' photos,
and find friends by username.

Firebase is replaced by in-memory tables. `Backend.Firebase` is a class
with one `map<string, Record>` per Firestore collection, keyed by document
id, plus the Auth "current user" cell:

- `set` overwrites a key;
- `update` changes fields of an existing document;
- `delete` removes the key;
- a query is a set comprehension over the table's values.

Methods that the source calls on a query snapshot receive a duplicate-free
listing of that set in some order.

The modules follow the source's files:

- **Entities, Backend.** The documents (Trip, Photo, User, FriendRequest,
  Friends, Like) and the store.
- **TripRepository.** Saving, querying, ending, reactivating,
  incrementing and deleting trips. The table invariant `Consistent` says:
  - every trip is stored under its own id;
  - each user has at most one active trip.

  Lemmas show which updates keep `Consistent`, and how each update changes
  the set of a user's active trip ids.
- **PhotoRepository, PhotoPreview.** Photo metadata, the latest photo of a
  trip (an arg-max over timestamps), and the upload step: save the photo,
  then increment its trip's count. The invariant `CountsMatch` says every
  trip's `photoCount` is its number of stored photos. The upload keeps it.
- **LikeRepository.** Likes are keyed `"${photoId}_${userId}"`.
  - Toggling is an involution.
  - A toggle moves exactly one photo's count, by exactly one.
  - The per-trip totals summed in a loop equal the number of likes on the
    trip's photos.
- **FriendsRepository.**
  - Requests are keyed `"${sender}_${receiver}"`.
  - Friendships are keyed by the ordered pair of ids, and that key is
    symmetric.
  - Accept, decline and remove have the effects listed under "## Model".
  - `areFriends` agrees with `getFriends`.
  - The pending-request lookup looks at the two directions in a fixed
    order.
  - Every username search result starts with the query, and every name that extends the query by a character below U+F8FF is found.
- **AuthRepository.** Sign-up refuses a taken username. The account
  service's answer is a parameter.
- **TripSelection, Managers, Activities.** The two versions of
  `TripManager`, each a class with the `activeTrip` field. Both answer a
  choice from the bottom-sheet menu (None, New Trip or an existing trip).
  - The current version (`managers/`) discards an empty active trip, after
    a confirmation, before switching away from it.
  - The earlier version (`activities/`) decides on the active trip it read
    when the menu opened.

  Dialog answers are parameters:
  - `discard`, the discard dialog;
  - `nameInput`, the name dialog, where None means it was cancelled.

  Also parameters: the fresh trip id, today's date, and the date parser
  used as a sort key. The key property is that each selection keeps one
  active trip per user and leaves `activeTrip` mirroring the store. There
  is one exception in the current version (`Managers.LeavesStaleTrip`):
  1. A trip with photos is active.
  2. New Trip is chosen, which ends that trip in the store.
  3. The name dialog is then cancelled.

  `activeTrip` still holds the ended trip. `Managers.HandleSelectionMirrors`
  proves the mirror holds exactly outside that case. In the earlier version
  the captured trip can be stale too: `Activities.StaleCaptureKeepsTripActive`
  shows that None, chosen from a menu opened before a trip was started,
  leaves that trip active.
- **ProfileFragment.** A class whose fields are the screen's views: the
  header texts, the cards of the list's adapter, and the empty text's
  visibility. `loadProfile` assembles the active trip first and then the
  completed trips. It sets the header only when the profile exists and
  replaces the adapter only with a non-empty list, so otherwise the old
  texts and cards stay. The End Trip action deletes an empty trip and
  otherwise ends it today. Deleting a user's only trip therefore leaves
  its card on screen beside the empty text
  (`ProfileFragment.LastTripDeletedListsNothing`).
- **UserSearchFragment, UserSearchAdapter.** The search screen leaves out
  the signed-in user. Each result gets a friend / pending / none status,
  and the status decides the row's button.
- **TripMenuAdapter, TripCards, TripPhotoAdapter.** The menu rows (at most
  one active indicator), the profile and feed trip cards (the like label
  reads back as its count), and the photo list's like cache, a class whose
  two maps are updated in place.
  - The cache stays coherent with the store.
  - A toggle on a photo whose count was never loaded starts from 0, so an
    unlike there shows -1. The contract of
    `TripPhotoAdapter.TripPhotoAdapter.ToggleLike` states the count is
    right only when the photo's count was cached.
- **Strings, Decimal, Seqs, Sorting.** Kotlin library behaviour the rest
  relies on:
  - lexicographic `<` on strings;
  - composite ids;
  - `trim()`;
  - `Int.toString()` with a parser that reads it back;
  - `filter`, `take` and `sortedWith`.

Source paths below are relative to the repository root.

## Model

| member | source | states |
|---|---|---|
| `TripRepository.TripById` | app/src/main/java/com/example/travel/data/TripRepository.kt:27-30 | Some exactly when a document is stored under the id, and then it is that document |
| `TripRepository.GetActiveTrip` | app/src/main/java/com/example/travel/data/TripRepository.kt:17-24 | null exactly when the user has no active trip; otherwise one of the user's active trips |
| `TripRepository.GetCompletedTrips` | app/src/main/java/com/example/travel/data/TripRepository.kt:33-40 | a duplicate-free list of exactly the user's inactive trips with at least one photo |
| `TripRepository.GetAllTripsForUser` | app/src/main/java/com/example/travel/activities/TripManager.kt:57 | a duplicate-free list of exactly the user's trips (the repository function is not part of the source; see Left out) |
| `TripRepository.GetCompletedTripsForUsers` | app/src/main/java/com/example/travel/data/TripRepository.kt:43-58 | empty for no ids; the loop over batches of at most ten ids collects exactly the inactive trips of the listed users, and the filter keeps those with photos |
| `TripRepository.SaveTrip` | app/src/main/java/com/example/travel/data/TripRepository.kt:12-14 | the trip is stored under its id, replacing any earlier document; no other document changes |
| `TripRepository.EndTrip` | app/src/main/java/com/example/travel/data/TripRepository.kt:60-67 | only that trip changes: inactive, with the given end date; a missing trip stays missing |
| `TripRepository.ReactivateTrip` | app/src/main/java/com/example/travel/managers/TripManager.kt:156-157 | only that trip changes: active again with an empty end date; a missing trip stays missing |
| `TripRepository.IncrementPhotoCount` | app/src/main/java/com/example/travel/data/TripRepository.kt:70-75 | a stored trip's photo count grows by exactly one and nothing else changes; an absent id changes nothing |
| `TripRepository.DeleteTrip` | app/src/main/java/com/example/travel/data/TripRepository.kt:78-80 | exactly that id is removed, whether or not it was present |
| `TripRepository.ActiveTripIsOnlyOne` | app/src/main/java/com/example/travel/data/TripRepository.kt:16-24 | in a consistent table an active trip of the user is the only one, so `firstOrNull` has a single candidate |
| `TripRepository.ActiveTripsEmpty` | app/src/main/java/com/example/travel/data/TripRepository.kt:17-24 | the active-trip query is empty exactly when the user has no active trip id |
| `TripRepository.EndedActiveIds` | app/src/main/java/com/example/travel/data/TripRepository.kt:60-67 | ending a trip removes exactly its id from every user's active ids |
| `TripRepository.ReactivatedActiveIds` | app/src/main/java/com/example/travel/managers/TripManager.kt:156 | reactivating adds exactly that id to its owner's active ids and changes no other user's |
| `TripRepository.EndedKeepsConsistent` | app/src/main/java/com/example/travel/data/TripRepository.kt:60-67 | ending a trip keeps at most one active trip per user |
| `TripRepository.ReactivatedKeepsConsistent` | app/src/main/java/com/example/travel/managers/TripManager.kt:152-157 | reactivating keeps at most one active trip per user when the owner has no other active trip |
| `TripRepository.SavedKeepsConsistent` | app/src/main/java/com/example/travel/data/TripRepository.kt:12-14 | saving keeps at most one active trip per user unless it adds a second active trip for its owner |
| `TripRepository.DeletedKeepsConsistent` | app/src/main/java/com/example/travel/data/TripRepository.kt:78-80 | deleting keeps the invariant and removes exactly that id from the active ids |
| `TripRepository.IncrementedKeepsConsistent` | app/src/main/java/com/example/travel/data/TripRepository.kt:70-75 | incrementing keeps the invariant and changes no user's active ids |
| `TripRepository.EndedTripIsCompleted` | app/src/main/java/com/example/travel/data/TripRepository.kt:33-67 | a trip with photos, once ended, is among its owner's completed trips and no longer active |
| `TripRepository.ActiveAndCompletedDisjoint` | app/src/main/java/com/example/travel/data/TripRepository.kt:17-40 | no trip is both in the active query and in the completed query |
| `PhotoRepository.LatestExists` | app/src/main/java/com/example/travel/data/PhotoRepository.kt:52-60 | every non-empty set of photos has one with a largest timestamp |
| `PhotoRepository.SavePhoto` | app/src/main/java/com/example/travel/data/PhotoRepository.kt:17-34 | the photo is stored under its id with only `imageUrl` replaced by the download URL; it is then among its trip's photos; the table stays keyed |
| `PhotoRepository.GetPhotosForTrip` | app/src/main/java/com/example/travel/data/PhotoRepository.kt:37-43 | a duplicate-free list of exactly the stored photos of the trip |
| `PhotoRepository.GetAllPhotos` | app/src/main/java/com/example/travel/data/PhotoRepository.kt:46-49 | a duplicate-free list of exactly the stored photos |
| `PhotoRepository.GetLastPhotoForTrip` | app/src/main/java/com/example/travel/data/PhotoRepository.kt:52-64 | null exactly when the trip has no photo; otherwise a photo of the trip with the largest timestamp |
| `PhotoPreview.UploadPhoto` | app/src/main/java/com/example/travel/activities/PhotoPreviewActivity.kt:119-124 | the photo is saved, then its trip's count is incremented, only when the trip id is non-empty |
| `PhotoPreview.AddedPhotoKeys` | app/src/main/java/com/example/travel/activities/PhotoPreviewActivity.kt:121-123 | a photo saved under a new id adds one photo to its own trip and none to any other |
| `PhotoPreview.UploadKeepsCountsMatch` | app/src/main/java/com/example/travel/activities/PhotoPreviewActivity.kt:119-124 | uploading a new photo keeps every trip's photo count equal to its number of stored photos |
| `PhotoPreview.ZeroCountMeansNoPhotos` | app/src/main/java/com/example/travel/managers/TripManager.kt:108-111 | while counts match, a trip's count is zero exactly when it has no photos, so discarding an empty trip loses no photo |
| `LikeRepository.HasUserLiked` | app/src/main/java/com/example/travel/data/LikeRepository.kt:38-43 | in a keyed table, true exactly when the like of that user on that photo is stored |
| `LikeRepository.LikeCount` | app/src/main/java/com/example/travel/data/LikeRepository.kt:29-35 | zero exactly when no stored like is on the photo |
| `LikeRepository.ToggleLike` | app/src/main/java/com/example/travel/data/LikeRepository.kt:13-27 | deletes an existing like and answers false, or creates `Like(photoId_userId, photoId, userId)` and answers true; afterwards `hasUserLiked` equals the answer |
| `LikeRepository.StoredLikeBelongs` | app/src/main/java/com/example/travel/data/LikeRepository.kt:14-24 | in a keyed table the like stored under a photo and user's id is exactly the like for that photo and user |
| `LikeRepository.ToggleKeepsKeyed` | app/src/main/java/com/example/travel/data/LikeRepository.kt:13-27 | toggling keeps every like stored under its composite id |
| `LikeRepository.ToggleTwice` | app/src/main/java/com/example/travel/data/LikeRepository.kt:13-27 | toggling twice with the same arguments restores the like table exactly |
| `LikeRepository.RemovedLikes` | app/src/main/java/com/example/travel/data/LikeRepository.kt:30-36 | deleting a like lowers its photo's count by one and no other photo's |
| `LikeRepository.AddedLike` | app/src/main/java/com/example/travel/data/LikeRepository.kt:30-36 | adding a like under a new key raises its photo's count by one and no other photo's |
| `LikeRepository.ToggleCount` | app/src/main/java/com/example/travel/data/LikeRepository.kt:13-36 | a toggle changes the toggled photo's count by exactly +1 (now liked) or -1 (now unliked) and no other photo's count |
| `LikeRepository.LikesOfPhotosAdd` | app/src/main/java/com/example/travel/data/LikeRepository.kt:49-51 | adding a photo not yet counted adds exactly its likes, none of them counted before |
| `LikeRepository.TotalLikesCountsLikes` | app/src/main/java/com/example/travel/data/LikeRepository.kt:46-53 | over distinct photo ids the summed counts equal the number of likes on those photos |
| `LikeRepository.GetTotalLikesForTrip` | app/src/main/java/com/example/travel/data/LikeRepository.kt:46-53 | 0 for no ids, otherwise the sum of the like counts of the ids; over distinct ids, the number of likes on those photos |
| `LikeRepository.GetLikesForTrips` | app/src/main/java/com/example/travel/data/LikeRepository.kt:56-64 | exactly one entry per listed trip id, each the number of likes on that trip's photos |
| `LikeRepository.PhotoIdsOfTrip` | app/src/main/java/com/example/travel/data/LikeRepository.kt:59-60 | the ids of a listing of a trip's photos are distinct and are exactly that trip's photo ids |
| `FriendsRepository.OrderedPair` | app/src/main/java/com/example/travel/data/FriendsRepository.kt:33-37 | the two ids, smaller first |
| `FriendsRepository.PairKeySymmetric` | app/src/main/java/com/example/travel/data/FriendsRepository.kt:98-103 | the friendship key does not depend on which user is named first |
| `FriendsRepository.SendFriendRequest` | app/src/main/java/com/example/travel/data/FriendsRepository.kt:17-26 | succeeds and writes the pending request under `sender_receiver`, overwriting any earlier one; nothing else changes |
| `FriendsRepository.FriendshipOf` | app/src/main/java/com/example/travel/data/FriendsRepository.kt:33-39 | the friendship record is stored under the pair key and names exactly the two users |
| `FriendsRepository.AcceptFriendRequest` | app/src/main/java/com/example/travel/data/FriendsRepository.kt:29-46 | fails with no write when the request document is missing; otherwise the request is kept with status accepted and the friendship is written |
| `FriendsRepository.DeclineFriendRequest` | app/src/main/java/com/example/travel/data/FriendsRepository.kt:49-56 | fails with no write when the request document is missing; otherwise only its status becomes declined, and no friendship is created |
| `FriendsRepository.RemoveFriend` | app/src/main/java/com/example/travel/data/FriendsRepository.kt:96-109 | deletes the pair-key document; afterwards the users are not friends in either direction |
| `FriendsRepository.PendingRequests` | app/src/main/java/com/example/travel/data/FriendsRepository.kt:59-70 | exactly the stored requests addressed to the user that are pending |
| `FriendsRepository.FriendIds` | app/src/main/java/com/example/travel/data/FriendsRepository.kt:73-87 | exactly the ids on the other side of the user's friendships, whichever side the user is on |
| `FriendsRepository.GetFriends` | app/src/main/java/com/example/travel/data/FriendsRepository.kt:73-93 | exactly the stored profiles of the friend ids; ids without a profile are skipped |
| `FriendsRepository.FriendshipStoredUnderPairKey` | app/src/main/java/com/example/travel/data/FriendsRepository.kt:126-130 | in a well-formed table a friendship between two users is stored under their pair key |
| `FriendsRepository.AreFriendsIffFriendId` | app/src/main/java/com/example/travel/data/FriendsRepository.kt:126-134 | in a well-formed table `areFriends(a, b)` holds exactly when `getFriends(a)` names `b` |
| `FriendsRepository.AcceptMakesFriends` | app/src/main/java/com/example/travel/data/FriendsRepository.kt:29-46 | accepting keeps the friends table well formed and makes the two users friends in both directions |
| `FriendsRepository.PendingBetween` | app/src/main/java/com/example/travel/data/FriendsRepository.kt:137-153 | any answer is a stored pending request. When `a_b` exists, the answer is `a_b` exactly when it is pending, and otherwise none. When `a_b` is absent, the answer is `b_a` exactly when `b_a` exists and is pending, and otherwise none |
| `FriendsRepository.SentIsPending` | app/src/main/java/com/example/travel/data/FriendsRepository.kt:137-142 | a request just sent is found pending between its sender and receiver |
| `FriendsRepository.ReceivedIsPending` | app/src/main/java/com/example/travel/data/FriendsRepository.kt:144-147 | a request `b` just sent to `a` is found pending from `a`'s side too, when `a` has sent none |
| `FriendsRepository.PendingBetweenSymmetric` | app/src/main/java/com/example/travel/data/FriendsRepository.kt:137-153 | with a document in at most one direction, both users get the same answer |
| `FriendsRepository.AreFriends` | app/src/main/java/com/example/travel/data/FriendsRepository.kt:126-134 | symmetric: the pair key of `(a, b)` is stored exactly when that of `(b, a)` is |
| `FriendsRepository.AnsweredHidesReverse` | app/src/main/java/com/example/travel/data/FriendsRepository.kt:139-142 | once `a_b` exists and is not pending, nothing is found, even when `b_a` is pending |
| `FriendsRepository.SearchUsers` | app/src/main/java/com/example/travel/data/FriendsRepository.kt:112-123 | the results are stored users |
| `FriendsRepository.InRangeHasPrefix` | app/src/main/java/com/example/travel/data/FriendsRepository.kt:115-116 | a username between the query and the query followed by U+F8FF starts with the query |
| `FriendsRepository.PrefixInRange` | app/src/main/java/com/example/travel/data/FriendsRepository.kt:115-116 | the query, extended by nothing or by a character below U+F8FF, lies in that range |
| `FriendsRepository.SearchFindsPrefixMatches` | app/src/main/java/com/example/travel/data/FriendsRepository.kt:112-123 | every user found has a username starting with the query; every user whose username is the query followed by nothing or by a character below U+F8FF is found |
| `AuthRepository.UserProfile` | app/src/main/java/com/example/travel/data/AuthRepository.kt:57-63 | a profile exactly when one is stored under the uid, and then the document stored under the uid |
| `AuthRepository.SignUp` | app/src/main/java/com/example/travel/data/AuthRepository.kt:18-39 | a taken username fails with "Username already taken" and changes nothing; a failed account creation fails and changes nothing; otherwise the new user is stored under its uid, returned, and signed in |
| `AuthRepository.SignUpKeepsUsersValid` | app/src/main/java/com/example/travel/data/AuthRepository.kt:20-33 | the username check keeps usernames unique and every profile under its uid |
| `AuthRepository.SignUpProfileReadable` | app/src/main/java/com/example/travel/data/AuthRepository.kt:32-33 | after sign-up the profile is readable under the new uid and its username is taken |
| `AuthRepository.SignIn` | app/src/main/java/com/example/travel/data/AuthRepository.kt:42-49 | the account service's answer, with that user signed in on success and the signed-in user unchanged on failure |
| `AuthRepository.SignOut` | app/src/main/java/com/example/travel/data/AuthRepository.kt:52-54 | afterwards there is no current user |
| `ProfileFragment.ProfileListing` | app/src/main/java/com/example/travel/fragments/ProfileFragment.kt:84-101 | with one active trip per user the assembled list has no duplicates, and it is empty exactly when the user has neither an active nor a completed trip |
| `ProfileFragment.ProfileFragment.constructor` | app/src/main/java/com/example/travel/fragments/ProfileFragment.kt:44-58 | no header texts set and no cards yet; the empty text as the layout has it |
| `ProfileFragment.ProfileFragment.LoadProfile` | app/src/main/java/com/example/travel/fragments/ProfileFragment.kt:70-102 | nothing changes without a signed-in user. Otherwise: the list is the active trip, if any, then exactly the completed trips, once each. The header becomes the profile's texts, or stays as it was without a profile. A non-empty list replaces the cards and hides the empty text; an empty one shows the empty text and keeps the old cards |
| `ProfileFragment.ProfileFragment.OnEndTripClicked` | app/src/main/java/com/example/travel/fragments/ProfileFragment.kt:105-118 | a trip with no photos is deleted, any other ended with today's date; then the screen is reloaded from the new store as `loadProfile` does |
| `ProfileFragment.LastTripDeletedListsNothing` | app/src/main/java/com/example/travel/fragments/ProfileFragment.kt:94-118 | deleting a user's only trip, active and without photos, leaves the reload an empty list, so the old card is kept |
| `ProfileFragment.EndTripClickedOutcome` | app/src/main/java/com/example/travel/fragments/ProfileFragment.kt:105-118 | ending the active trip leaves the user with no active trip; an empty trip is gone and the completed list unchanged; a trip with photos becomes completed |
| `TripMenuAdapter.Classify` | app/src/main/java/com/example/travel/adapters/TripMenuAdapter.kt:35-53 | None exactly for a null item, New Trip exactly for an item with an empty id |
| `TripMenuAdapter.BindRow` | app/src/main/java/com/example/travel/adapters/TripMenuAdapter.kt:32-56 | the label is "None", "New Trip" or the trip's name. The indicator shows on None exactly when no trip is active, never on New Trip, and on a trip exactly when it is the active one. A click hands back the bound item |
| `TripMenuAdapter.OneIndicator` | app/src/main/java/com/example/travel/adapters/TripMenuAdapter.kt:35-53 | in a menu with one leading None and distinct trip ids, at most one row shows the indicator; None shows it exactly when no trip is active; a listed active trip shows it |
| `TripSelection.BuildMenuItems` | app/src/main/java/com/example/travel/managers/TripManager.kt:64-83 | None, then New Trip, then the sorted trips in order, cut to seven entries |
| `TripSelection.DeactivateWithEndDate` | app/src/main/java/com/example/travel/managers/TripManager.kt:165-169 | the trip is ended with the date of one of its photos with the largest timestamp, or its start date when it has no photos |
| `TripSelection.EnteredName` | app/src/main/java/com/example/travel/managers/TripManager.kt:182-184 | a name exactly when Start was pressed on an input that is not blank after trimming; the name is non-empty and trimmed |
| `TripSelection.StartedTrip` | app/src/main/java/com/example/travel/managers/TripManager.kt:201-213 | a trip exactly when a user is signed in and a name was entered: fresh id, the user's, that name, started today, active, no end date, no photos |
| `TripSelection.AppliedKeepsConsistent` | app/src/main/java/com/example/travel/managers/TripManager.kt:138-162 | the store writes of a selection made from a mirrored state keep one active trip per user, leave other users alone, and leave the selected trip (or none) active |
| `TripSelection.SelectionKeepsConsistent` | app/src/main/java/com/example/travel/managers/TripManager.kt:138-219 | the same, including the trip the name dialog starts for New Trip |
| `Managers.MenuOrderIsTotal` | app/src/main/java/com/example/travel/managers/TripManager.kt:72-78 | the comparator (active first, then parsed start date, newest first, 0 when unparsable) is a total preorder |
| `Managers.SortMenu` | app/src/main/java/com/example/travel/managers/TripManager.kt:70-78 | a permutation of the given trips (same multiset), in menu order |
| `TripSelection.BuiltMenuLists` | app/src/main/java/com/example/travel/managers/TripManager.kt:64-83 | building the rows from a duplicate-free sorted listing of the offered trips gives exactly such a menu |
| `TripSelection.OnlyActiveListedFirst` | app/src/main/java/com/example/travel/managers/TripManager.kt:70-83 | the only active offered trip, when no inactive trip may precede it, is the first trip row even when rows are cut |
| `Managers.ActiveTripHeadsMenu` | app/src/main/java/com/example/travel/managers/TripManager.kt:70-83 | in a consistent table the user's active trip is the first trip row |
| `Managers.HandleSelectionMirrors` | app/src/main/java/com/example/travel/managers/TripManager.kt:104-162 | from a mirrored state every selection keeps one active trip per user, and `activeTrip` mirrors the store exactly outside the stale New Trip case |
| `Managers.TripManager.constructor` | app/src/main/java/com/example/travel/managers/TripManager.kt:25-31 | starts with no active trip |
| `Managers.TripManager.CheckActiveTrip` | app/src/main/java/com/example/travel/managers/TripManager.kt:43-47 | nothing without a user; otherwise `activeTrip` is null exactly when the user has no active trip, and is the user's only active trip when the table is consistent |
| `Managers.TripManager.ClearActiveTrip` | app/src/main/java/com/example/travel/managers/TripManager.kt:50-53 | `activeTrip` becomes null |
| `Managers.TripManager.ShowTripMenu` | app/src/main/java/com/example/travel/managers/TripManager.kt:56-101 | no menu exactly without a user. Otherwise None, New Trip, then the user's trips that are active or have photos, each once, in menu order, seven entries at most. All of them are listed when five or fewer; otherwise the five kept are first in menu order. The active trip is read now |
| `Managers.TripManager.DeactivateCurrent` | app/src/main/java/com/example/travel/managers/TripManager.kt:165-169 | ends the trip with its latest photo's date, or its start date |
| `Managers.TripManager.StartNewTrip` | app/src/main/java/com/example/travel/managers/TripManager.kt:201-219 | with a user, saves the started trip under the fresh id and makes it `activeTrip`; without one, changes nothing |
| `Managers.TripManager.ShowTripNameDialog` | app/src/main/java/com/example/travel/managers/TripManager.kt:172-198 | starts a trip exactly when Start was pressed on a non-blank name |
| `Managers.TripManager.ApplyTripSelection` | app/src/main/java/com/example/travel/managers/TripManager.kt:138-162 | the store writes and the new `activeTrip` of the chosen branch; the deactivated trip gets its proper end date |
| `Managers.TripManager.ApplyNewTrip` | app/src/main/java/com/example/travel/managers/TripManager.kt:146-150 | ends the current trip, if any, without clearing `activeTrip`, then runs the name dialog |
| `Managers.TripManager.ApplyExistingTrip` | app/src/main/java/com/example/travel/managers/TripManager.kt:151-160 | for a trip other than the current one, ends the current trip first, reactivates the selected one and makes it `activeTrip`; for the current trip, nothing |
| `Managers.TripManager.HandleTripSelection` | app/src/main/java/com/example/travel/managers/TripManager.kt:104-118 | with an empty active trip and another selection, the discard dialog decides; re-selecting the empty trip changes nothing; otherwise the selection is applied with the current trip |
| `Managers.TripManager.ShowDiscardEmptyTripDialog` | app/src/main/java/com/example/travel/managers/TripManager.kt:121-135 | on Discard: deletes the empty trip, clears `activeTrip` and applies the selection with no current trip, so the deleted trip is never deactivated; on Cancel: nothing |
| `Managers.TripManager.IncrementLocalPhotoCount` | app/src/main/java/com/example/travel/managers/TripManager.kt:222-227 | one more photo on `activeTrip`, if any, with no other field changed |
| `Activities.MenuOrderIsTotal` | app/src/main/java/com/example/travel/activities/TripManager.kt:66-68 | the comparator (active first, then start date strings, larger first) is a total preorder |
| `Activities.HandleSelectionMirrors` | app/src/main/java/com/example/travel/activities/TripManager.kt:91-121 | when the live field and the captured trip both mirror the store, every selection keeps one active trip per user and the field still mirrors the store |
| `Activities.StaleCaptureKeepsTripActive` | app/src/main/java/com/example/travel/activities/TripManager.kt:81-95 | None chosen from a menu captured with no active trip writes nothing, so a trip started since stays active and `activeTrip` keeps it |
| `Activities.TripManager.constructor` | app/src/main/java/com/example/travel/activities/TripManager.kt:24-30 | starts with no active trip |
| `Activities.TripManager.CheckActiveTrip` | app/src/main/java/com/example/travel/activities/TripManager.kt:40-44 | as in the current version |
| `Activities.TripManager.ClearActiveTrip` | app/src/main/java/com/example/travel/activities/TripManager.kt:47-50 | `activeTrip` becomes null |
| `Activities.TripManager.ShowTripMenu` | app/src/main/java/com/example/travel/activities/TripManager.kt:53-88 | no menu exactly without a user. Otherwise None, New Trip, then all the user's trips, unfiltered, each once, in the comparator's order, seven entries at most. All of them are listed when five or fewer; otherwise the five kept are first in that order |
| `Activities.ActiveTripHeadsMenu` | app/src/main/java/com/example/travel/activities/TripManager.kt:61-72 | in a consistent table the user's active trip is the first trip row |
| `Activities.TripManager.DeactivateTrip` | app/src/main/java/com/example/travel/activities/TripManager.kt:115-121 | ends the trip with its latest photo's date, or its start date, and clears `activeTrip` |
| `Activities.TripManager.StartNewTrip` | app/src/main/java/com/example/travel/activities/TripManager.kt:152-169 | with a user, saves the started trip and makes it `activeTrip`; without one, changes nothing |
| `Activities.TripManager.ShowTripNameDialog` | app/src/main/java/com/example/travel/activities/TripManager.kt:124-149 | starts a trip exactly when Start was pressed on a non-blank name |
| `Activities.TripManager.HandleTripSelection` | app/src/main/java/com/example/travel/activities/TripManager.kt:91-112 | the store writes follow the captured trip: None and New Trip end it; an existing other trip ends it and is reactivated; the same trip changes nothing. `activeTrip` follows |
| `TripCards.LikeLabel` | app/src/main/java/com/example/travel/adapters/TripAdapter.kt:57-58 | the label ends in "s" exactly when the count is not 1 |
| `TripCards.LikeLabelRoundTrip` | app/src/main/java/com/example/travel/adapters/TripAdapter.kt:57-58 | every like label reads back as the count it was made from |
| `TripCards.LikeLabelInjective` | app/src/main/java/com/example/travel/adapters/FeedTripAdapter.kt:38 | different counts give different labels |
| `TripCards.LikesOrZero` | app/src/main/java/com/example/travel/adapters/TripAdapter.kt:52 | the stored like total, or 0 when the trip has none |
| `TripCards.BindTripCard` | app/src/main/java/com/example/travel/adapters/TripAdapter.kt:39-81 | the trip's name. Likes are hidden exactly for an active trip, otherwise the label of its like total. End Trip is visible exactly for an active trip, and options exactly when allowed. The date reads "Started: " and the start date for an active trip, otherwise start, " - ", end. Clicks hand back the trip |
| `TripCards.CardDate` | app/src/main/java/com/example/travel/adapters/TripAdapter.kt:45-49 | an active trip's date line is "Started: " followed by the start date; an ended trip's is the start date, " - ", then the end date |
| `TripCards.BindFeedCard` | app/src/main/java/com/example/travel/adapters/FeedTripAdapter.kt:31-43 | "@" then the username, the trip's name, start, " - ", end as the date even for an active trip, the label of its like total; a click hands back the trip |
| `TripCards.FeedMatchesProfileCard` | app/src/main/java/com/example/travel/adapters/FeedTripAdapter.kt:34-38 | for an ended trip the feed card shows the same name, date range and like text as the profile card |
| `TripCards.FeedActiveTripDate` | app/src/main/java/com/example/travel/adapters/FeedTripAdapter.kt:36 | a trip with no end date shows a date line ending in the bare separator " - " |
| `TripPhotoAdapter.ToggleKeepsCacheCoherent` | app/src/main/java/com/example/travel/adapters/TripPhotoAdapter.kt:80-85 | a toggle from a coherent cache holding the photo's count keeps the cache coherent, the moved count being the photo's new number of likes |
| `TripPhotoAdapter.ToggleKeepsStatesCoherent` | app/src/main/java/com/example/travel/adapters/TripPhotoAdapter.kt:80-84 | after a toggle, cached like states stay equal to the store once the toggled photo's entry is the new state |
| `TripPhotoAdapter.ToggleKeepsCountsCoherent` | app/src/main/java/com/example/travel/adapters/TripPhotoAdapter.kt:80-85 | after a toggle, cached counts stay equal to the store once the toggled photo's count moves by one in the new state's direction |
| `TripPhotoAdapter.TripPhotoAdapter.constructor` | app/src/main/java/com/example/travel/adapters/TripPhotoAdapter.kt:18-27 | both caches start empty |
| `TripPhotoAdapter.TripPhotoAdapter.LoadLikeState` | app/src/main/java/com/example/travel/adapters/TripPhotoAdapter.kt:65-75 | cached values win and missing ones are fetched; both are cached; a coherent cache stays coherent and then shows the store's values |
| `TripPhotoAdapter.TripPhotoAdapter.ToggleLike` | app/src/main/java/com/example/travel/adapters/TripPhotoAdapter.kt:78-89 | toggles in the store; caches the returned state and the cached count (0 when absent) plus or minus one; only the toggled photo's entries change; a coherent cache whose count was loaded stays coherent |
| `UserSearchAdapter.BindUserRow` | app/src/main/java/com/example/travel/UserSearchAdapter.kt:30-51 | "@" then the username. "friend" gives a disabled "Friends" and "pending" a disabled "Pending". Any other or missing status gives an enabled "Add" whose click sends a request for that user |
| `UserSearchFragment.RelationStatus` | app/src/main/java/com/example/travel/UserSearchFragment.kt:85-89 | "friend" exactly when the users are friends; "pending" exactly when they are not and a pending request is found; "none" exactly otherwise |
| `UserSearchFragment.BuildStatusMap` | app/src/main/java/com/example/travel/UserSearchFragment.kt:83-90 | exactly one entry per listed user, holding that user's relation status |
| `UserSearchFragment.UserSearchFragment.constructor` | app/src/main/java/com/example/travel/UserSearchFragment.kt:47 | the signed-in uid, or "" when none; no results yet |
| `UserSearchFragment.UserSearchFragment.OnSearchClicked` | app/src/main/java/com/example/travel/UserSearchFragment.kt:58-63 | a blank input changes nothing; otherwise the screen shows the search for the trimmed input |
| `UserSearchFragment.UserSearchFragment.SearchUsersFor` | app/src/main/java/com/example/travel/UserSearchFragment.kt:66-98 | the empty-result text when the search finds no one but the user; otherwise exactly the users found other than the user, once each, with their statuses |
| `UserSearchFragment.UserSearchFragment.SendFriendRequest` | app/src/main/java/com/example/travel/UserSearchFragment.kt:100-117 | writes the pending request, then repeats the search for the trimmed input when it is not blank |
| `UserSearchFragment.SentRequestDisablesAdd` | app/src/main/java/com/example/travel/UserSearchFragment.kt:100-110 | after a request is sent, the repeated search shows that user's button disabled |
| `UserSearchFragment.AddEnabledIffNoRelation` | app/src/main/java/com/example/travel/UserSearchAdapter.kt:36-50 | "Add" is enabled exactly when the users are neither friends nor have a pending request between them |
| `Strings.LessIrreflexive` | app/src/main/java/com/example/travel/data/FriendsRepository.kt:128 | no string is below itself |
| `Strings.LessTrichotomy` | app/src/main/java/com/example/travel/data/FriendsRepository.kt:33-37 | of `a < b`, `a == b`, `b < a` exactly one holds |
| `Strings.LessTransitive` | app/src/main/java/com/example/travel/activities/TripManager.kt:66-68 | the string order is transitive |
| `Strings.PrefixLess` | app/src/main/java/com/example/travel/data/FriendsRepository.kt:115-116 | a proper prefix is below the string it starts |
| `Strings.CompositeId` | app/src/main/java/com/example/travel/data/LikeRepository.kt:14 | the first id, the separator, then the second id |
| `Strings.CompositeIdInjective` | app/src/main/java/com/example/travel/data/LikeRepository.kt:14 | when the first parts contain no separator, the composite id determines both parts |
| `Strings.TrimStart` | app/src/main/java/com/example/travel/UserSearchFragment.kt:59 | a suffix of the input that does not start with whitespace, everything dropped being whitespace |
| `Strings.TrimEnd` | app/src/main/java/com/example/travel/UserSearchFragment.kt:59 | a prefix of the input that does not end with whitespace, everything dropped being whitespace |
| `Strings.Trim` | app/src/main/java/com/example/travel/UserSearchFragment.kt:59 | no longer than the input; it neither starts nor ends with whitespace |
| `Strings.TrimIdempotent` | app/src/main/java/com/example/travel/managers/TripManager.kt:183 | trimming twice is trimming once |
| `Decimal.IntToString` | app/src/main/java/com/example/travel/adapters/TripAdapter.kt:57-58 | never empty; a leading minus exactly for negative numbers, digits after it, and only digits otherwise; no leading zero except in "0" itself |
| `Decimal.IntToStringRoundTrip` | app/src/main/java/com/example/travel/adapters/TripAdapter.kt:57-58 | the decimal text of any integer parses back to it |
| `Decimal.IntToStringInjective` | app/src/main/java/com/example/travel/adapters/FeedTripAdapter.kt:38 | different integers have different decimal texts |
| `Seqs.Filter` | app/src/main/java/com/example/travel/data/TripRepository.kt:39 | no longer than the input, with exactly the input's elements that pass |
| `Seqs.Take` | app/src/main/java/com/example/travel/managers/TripManager.kt:83 | the first n elements, or all when fewer |
| `Seqs.Enumerate` | app/src/main/java/com/example/travel/data/TripRepository.kt:23 | a listing of a snapshot: each element once, nothing else |
| `Sorting.SortBy` | app/src/main/java/com/example/travel/managers/TripManager.kt:72-78 | a permutation of the input, sorted by a total preorder |

## Left out

- Storage upload of the image file and deletion of the local file. `PhotoRepository.SavePhoto` starts from the download URL.
- Coordinates, geocoding and every floating-point field of a photo.
- Map screens, camera, permissions, login screen, the home feed's own loading, friends screens and their adapters. The home feed calls repository functions that are not part of this model.
- UUIDs, uids, the clock and `SimpleDateFormat` are parameters: a fresh id, today's date, and `parseDate` for the menu's date key.
- Dialog answers are parameters too: `discard` for the discard dialog, `nameInput` for the name dialog.
- `promptStartTrip`, `openCameraAfter` and the camera callbacks are not modelled; the name dialog is always modelled with the camera off.
- Coroutines and concurrency. Each operation is one atomic sequential step, so the read-then-write races in `incrementPhotoCount`, `toggleLike` and the username check of `signUp` are not captured.
- Exceptions the source catches and swallows are not modelled, beyond the failure outcomes that the `Result` returns carry.
- A Firestore `update` on a missing document throws. The model treats it as leaving the store unchanged (`EndTrip`, `ReactivateTrip`). Accept and decline report a failure and write nothing.
- Query results come back in an unspecified order. The model lists each snapshot without order. Kotlin's sort is stable, which is not proved.
- Kotlin `Int` overflow of like totals and photo counts is not modelled. Counts are unbounded integers.
- Kotlin strings are UTF-16 code units. The model's strings are sequences of characters, and `IsWhitespace` lists the JVM whitespace characters.
- `deactivateTrip`, `reactivateTrip` and `getAllTripsForUser` are not part of the repository source.
  - `deactivateTrip` is modelled as the `endTrip` update.
  - `reactivateTrip` is modelled as the update that sets the trip active with an empty end date, the change mirrored locally.
  - `getAllTripsForUser` is modelled as all the user's trips.
- The trip record declared in the source lacks `userId`, `active`, `endDate` and `photoCount`. Those fields are taken from how the code uses them.
- `ProfileFragment` builds its `TripAdapter` with one callback, while the adapter's declared constructor takes more. The model binds cards with the declared behaviour.
- The profile layout's placeholder header texts are modelled as None, and the empty text's initial visibility is a constructor parameter.
- Item counts, view holders, progress bars and toasts are left out. No model rule depends on them.
- `Strings.Trim`: its contract states only that the result is no longer than the input and that neither end is whitespace. That the result is exactly the input with its whitespace ends removed follows from `Strings.TrimStart` and `Strings.TrimEnd`, which it composes.
- `FriendsRepository.SearchUsers`: its contract only says results are stored users. The prefix behaviour is stated by `FriendsRepository.SearchFindsPrefixMatches`.
- `TripPhotoAdapter.TripPhotoAdapter.ToggleLike`: the new count matches the store only when the photo's count was cached. When it was not, the source starts from 0, and an unlike then shows -1.
