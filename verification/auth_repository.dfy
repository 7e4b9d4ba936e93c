/** Sign-up, sign-in and profiles: Firebase Auth's signed-in user and the `users`
    collection. The account service's own answer (a new or existing uid, or an
    error) is a parameter. */
module AuthRepository {
  import opened Wrappers
  import opened Entities
  import opened Backend

  /** No two profiles share a username. */
  ghost predicate UniqueUsernames(users: map<string, User>)
  {
    forall k1, k2 :: k1 in users && k2 in users && users[k1].username == users[k2].username ==> k1 == k2
  }

  /** Every profile is stored under its uid. */
  ghost predicate Keyed(users: map<string, User>)
  {
    forall k :: k in users ==> users[k].id == k
  }

  /** `whereEqualTo("username", username)` is non-empty. */
  predicate UsernameTaken(users: map<string, User>, username: string)
  {
    exists k :: k in users && users[k].username == username
  }

  /** `getUserProfile`: the profile document, or none. */
  function UserProfile(users: map<string, User>, uid: string): (r: Option<User>)
    ensures r.Some? <==> uid in users
    ensures r.Some? ==> r.value in users.Values && r.value == users[uid]
  {
    if uid in users then Some(users[uid]) else None
  }

  /** `signUp`: refuses a taken username before creating the account; otherwise
      stores the new profile under the account's uid and leaves the new account
      signed in. `account` is what `createUserWithEmailAndPassword` answers. */
  method SignUp(fb: Firebase, email: string, username: string, displayName: string,
                account: Result<string>) returns (r: Result<User>)
    modifies fb`users, fb`currentUser
    ensures UsernameTaken(old(fb.users), username) ==>
      r == Failure("Username already taken") && fb.users == old(fb.users) && fb.currentUser == old(fb.currentUser)
    ensures !UsernameTaken(old(fb.users), username) && account.Failure? ==>
      r.Failure? && fb.users == old(fb.users) && fb.currentUser == old(fb.currentUser)
    ensures !UsernameTaken(old(fb.users), username) && account.Success? ==>
      && r == Success(User(account.value, username, displayName, email, ""))
      && fb.users == old(fb.users)[account.value := r.value]
      && fb.currentUser == Some(account.value)
  {
    if UsernameTaken(fb.users, username) {
      return Failure("Username already taken");
    }
    if account.Failure? {
      return Failure(account.message);
    }
    var uid := account.value;
    fb.currentUser := Some(uid);
    var user := User(uid, username, displayName, email, "");
    fb.users := fb.users[uid := user];
    r := Success(user);
  }

  /** The username check keeps usernames unique and the table keyed. */
  lemma SignUpKeepsUsersValid(users: map<string, User>, username: string, user: User)
    requires UniqueUsernames(users) && Keyed(users)
    requires !UsernameTaken(users, username) && user.username == username
    ensures UniqueUsernames(users[user.id := user]) && Keyed(users[user.id := user])
  {
    var after := users[user.id := user];
    forall k1, k2 | k1 in after && k2 in after && after[k1].username == after[k2].username
      ensures k1 == k2
    {
      assert (k1 == user.id || users[k1].username != username) && (k2 == user.id || users[k2].username != username);
    }
  }

  /** After a successful sign-up the profile is readable under the new uid and the
      username is taken. */
  lemma SignUpProfileReadable(users: map<string, User>, user: User)
    ensures UserProfile(users[user.id := user], user.id) == Some(user)
    ensures UsernameTaken(users[user.id := user], user.username)
  {
    assert users[user.id := user][user.id].username == user.username;
  }

  /** `signIn`: the account service's answer, signed in on success. */
  method SignIn(fb: Firebase, account: Result<string>) returns (r: Result<string>)
    modifies fb`currentUser
    ensures r == account
    ensures fb.currentUser == (if account.Success? then Some(account.value) else old(fb.currentUser))
  {
    if account.Success? {
      fb.currentUser := Some(account.value);
    }
    r := account;
  }

  /** `signOut` */
  method SignOut(fb: Firebase)
    modifies fb`currentUser
    ensures fb.currentUser == None
  {
    fb.currentUser := None;
  }
}
