// The domain service that builds and updates user records. The fresh id and
// the current time are parameters.
module UserService {
  import opened Common

  /** `create_user`: an Active user with no update time, created at the default timestamp. */
  function CreateUser(id: Uuid, username: string, email: string, hashedPassword: string,
                      firstName: Option<string>, lastName: Option<string>): (u: User)
    ensures u.id == id && u.state == Active && u.updatedAt == None && u.createdAt == Epoch
    ensures u.username == username && u.email == email && u.hashedPassword == hashedPassword
    ensures u.firstName == firstName && u.lastName == lastName
  {
    User(id, username, email, firstName, lastName, Active, hashedPassword, Epoch, None)
  }

  /** `update_user`: replaces the editable fields and stamps the update time. */
  function UpdateUser(user: User, newUsername: string, newEmail: string, newState: UserState,
                      newFirstName: Option<string>, newLastName: Option<string>, now: Time): (u: User)
    ensures u.id == user.id && u.hashedPassword == user.hashedPassword && u.createdAt == user.createdAt
    ensures u.username == newUsername && u.email == newEmail && u.state == newState
    ensures u.firstName == newFirstName && u.lastName == newLastName && u.updatedAt == Some(now)
  {
    user.(username := newUsername, email := newEmail, state := newState,
          firstName := newFirstName, lastName := newLastName, updatedAt := Some(now))
  }

  /** `update_user_self`: a user may change only the username and names. */
  function UpdateUserSelf(user: User, newUsername: string, newFirstName: Option<string>,
                          newLastName: Option<string>, now: Time): (u: User)
    ensures u.id == user.id && u.email == user.email && u.state == user.state
    ensures u.hashedPassword == user.hashedPassword && u.createdAt == user.createdAt
    ensures u.username == newUsername && u.firstName == newFirstName && u.lastName == newLastName
    ensures u.updatedAt == Some(now)
  {
    user.(username := newUsername, firstName := newFirstName, lastName := newLastName, updatedAt := Some(now))
  }

  /**
   * `update_user` as the interactors call it, with the hash as a seventh
   * argument that replaces the stored one.
   */
  function UpdateUserWithHash(user: User, newUsername: string, newEmail: string, newState: UserState,
                              newFirstName: Option<string>, newLastName: Option<string>,
                              newHash: string, now: Time): (u: User)
    ensures u.id == user.id && u.createdAt == user.createdAt && u.hashedPassword == newHash
    ensures u.username == newUsername && u.email == newEmail && u.state == newState
    ensures u.firstName == newFirstName && u.lastName == newLastName && u.updatedAt == Some(now)
  {
    UpdateUser(user, newUsername, newEmail, newState, newFirstName, newLastName, now).(hashedPassword := newHash)
  }

  /** A self-update is a full update that passes the stored email and state back in. */
  lemma SelfUpdateIsRestrictedUpdate(user: User, n: string, f: Option<string>, l: Option<string>, now: Time)
    ensures UpdateUserSelf(user, n, f, l, now) == UpdateUser(user, n, user.email, user.state, f, l, now)
  {
  }

  /** Passing back the stored hash makes the seven-argument form the six-argument one. */
  lemma SameHashIsPlainUpdate(user: User, n: string, e: string, s: UserState, f: Option<string>, l: Option<string>, now: Time)
    ensures UpdateUserWithHash(user, n, e, s, f, l, user.hashedPassword, now) == UpdateUser(user, n, e, s, f, l, now)
  {
  }

  /** Updating twice is updating once with the later arguments: nothing of the first update survives but the identity. */
  lemma UpdateOverwrites(user: User, n1: string, e1: string, s1: UserState, f1: Option<string>, l1: Option<string>, t1: Time,
                         n2: string, e2: string, s2: UserState, f2: Option<string>, l2: Option<string>, t2: Time)
    ensures UpdateUser(UpdateUser(user, n1, e1, s1, f1, l1, t1), n2, e2, s2, f2, l2, t2)
         == UpdateUser(user, n2, e2, s2, f2, l2, t2)
  {
  }

  /** Writing back every stored field changes nothing but the update time. */
  lemma UpdateWithOwnFields(user: User, now: Time)
    ensures UpdateUser(user, user.username, user.email, user.state, user.firstName, user.lastName, now)
         == user.(updatedAt := Some(now))
  {
  }
}
