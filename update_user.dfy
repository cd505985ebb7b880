// Updating a user by id: the access decision, field validation into a map,
// uniqueness lookups whose findings are recorded but never acted on, the
// lookup of the target, then the rebuilt user is saved.
module UpdateUser {
  import opened Common
  import opened Validator
  import UserDb
  import UserService

  datatype UpdateUserDTO = UpdateUserDTO(id: Uuid, email: string, username: string, state: UserState,
                                         firstName: Option<string>, lastName: Option<string>)

  const UsernameTaken := "Имя пользователя занято"
  const EmailTaken := "Email занят"
  const UserNotFound := "Пользователь не найден"

  function FieldErrors(d: UpdateUserDTO): (m: map<string, string>)
    ensures m.Keys <= {"username", "email", "first_name", "last_name"}
    ensures "username" in m <==> ValidateUsername(d.username).Fail?
    ensures "email" in m <==> ValidateEmail(d.email).Fail?
    ensures "first_name" in m <==> d.firstName.Some? && ValidateFirstName(d.firstName.value).Fail?
    ensures "last_name" in m <==> d.lastName.Some? && ValidateLastName(d.lastName.value).Fail?
  {
    var m1 := Note(map[], "username", ValidateUsername(d.username));
    var m2 := Note(m1, "email", ValidateEmail(d.email));
    var m3 := Note(m2, "first_name", CheckOptional(d.firstName, ValidateFirstName));
    Note(m3, "last_name", CheckOptional(d.lastName, ValidateLastName))
  }

  /** The user the source builds: `data.email` goes into the username and `data.username` into the email. */
  function SavedUserAsWritten(user: User, d: UpdateUserDTO, now: Time): User
  {
    UserService.UpdateUserWithHash(user, d.email, d.username, d.state, d.firstName, d.lastName, user.hashedPassword, now)
  }

  /** As written, a request whose username and email differ saves them swapped. */
  lemma SwappedFields(user: User, d: UpdateUserDTO, now: Time)
    requires d.username != d.email
    ensures SavedUserAsWritten(user, d, now).username == d.email != d.username
    ensures SavedUserAsWritten(user, d, now).email == d.username != d.email
  {
  }

  /** The user the update is meant to save: the requested fields, the old hash, id and creation time. */
  function SavedUser(user: User, d: UpdateUserDTO, now: Time): (u: User)
    ensures u.id == user.id && u.hashedPassword == user.hashedPassword && u.createdAt == user.createdAt
    ensures u.username == d.username && u.email == d.email && u.state == d.state
    ensures u.firstName == d.firstName && u.lastName == d.lastName && u.updatedAt == Some(now)
  {
    UserService.UpdateUserWithHash(user, d.username, d.email, d.state, d.firstName, d.lastName, user.hashedPassword, now)
  }

  /**
   * The outcome and the table afterwards, with the fields passed in their
   * intended order and the save as an upsert.
   */
  function UpdateSpec(access: Access, d: UpdateUserDTO, users: seq<UserDb.UserRow>, now: Time)
    : (Outcome<UserView>, seq<UserDb.UserRow>)
  {
    if access.Refused? then (Err(AccessError(access.reason)), users)
    else
      var errs := FieldErrors(d);
      if errs != map[] then (Err(InvalidData(Map(errs))), users)
      else
        var target := UserDb.ById(users, d.id);
        if target.None? then (Err(NotFound(Message(UserNotFound))), users)
        else
          var u := SavedUser(target.value, d, now);
          (Ok(View(u)), UserDb.Upsert(users, u))
  }

  /** A refused access check is reported by kind before anything else, and nothing changes. */
  lemma AccessFirst(reason: DomainError, d: UpdateUserDTO, users: seq<UserDb.UserRow>, now: Time)
    ensures UpdateSpec(Refused(reason), d, users, now) == (Err(AccessError(reason)), users)
    ensures UpdateSpec(Refused(reason), d, users, now).0.error.Forbidden? <==> reason == AccessDenied
  {
  }

  /** Invalid fields give the field map, whatever the table holds, and nothing is saved. */
  lemma ValidationFirst(d: UpdateUserDTO, users: seq<UserDb.UserRow>, others: seq<UserDb.UserRow>, now: Time)
    requires FieldErrors(d) != map[]
    ensures UpdateSpec(Granted, d, users, now) == (Err(InvalidData(Map(FieldErrors(d)))), users)
    ensures UpdateSpec(Granted, d, others, now).0 == UpdateSpec(Granted, d, users, now).0
  {
  }

  /**
   * A username or email already held by another user does not stop the
   * update: with valid fields and a known target the update goes through.
   */
  lemma ConflictIgnored(d: UpdateUserDTO, users: seq<UserDb.UserRow>, now: Time, other: nat)
    requires FieldErrors(d) == map[] && UserDb.ById(users, d.id).Some?
    requires other < |users| && users[other].id != d.id && UserDb.ILike(users[other].username, d.username)
    ensures UpdateSpec(Granted, d, users, now).0.Ok?
  {
  }

  /** An unknown target id is NotFound and nothing is saved. */
  lemma UnknownTarget(d: UpdateUserDTO, users: seq<UserDb.UserRow>, now: Time)
    requires FieldErrors(d) == map[]
    requires forall i :: 0 <= i < |users| ==> users[i].id != d.id
    ensures UpdateSpec(Granted, d, users, now) == (Err(NotFound(Message(UserNotFound))), users)
  {
  }

  /**
   * A successful update stores under the target id exactly the requested
   * fields with the old hash, and the reply echoes them.
   */
  lemma SuccessStoresRequest(d: UpdateUserDTO, users: seq<UserDb.UserRow>, now: Time)
    requires UpdateSpec(Granted, d, users, now).0.Ok?
    ensures var (out, after) := UpdateSpec(Granted, d, users, now);
            var old_ := UserDb.ById(users, d.id).value;
            var saved := UserDb.ById(after, d.id);
            && saved.Some?
            && saved.value.username == d.username && saved.value.email == d.email && saved.value.state == d.state
            && saved.value.hashedPassword == old_.hashedPassword && saved.value.createdAt == old_.createdAt
            && out.value == View(saved.value)
  {
    var u := SavedUser(UserDb.ById(users, d.id).value, d, now);
    UserDb.UpsertThenGet(users, u);
  }

  /** `UpdateUser::execute`: the error map is filled in place, later entries are added and ignored, then the save. */
  method Execute(g: UserDb.UserTable, access: Access, d: UpdateUserDTO, now: Time) returns (r: Outcome<UserView>)
    modifies g
    ensures (r, g.rows) == UpdateSpec(access, d, old(g.rows), now)
  {
    if access.Refused? {
      return Err(AccessError(access.reason));
    }
    var errs: map<string, string> := map[];
    errs := InsertOnFail(errs, "username", ValidateUsername(d.username));
    errs := InsertOnFail(errs, "email", ValidateEmail(d.email));
    if d.firstName.Some? {
      errs := InsertOnFail(errs, "first_name", ValidateFirstName(d.firstName.value));
    }
    if d.lastName.Some? {
      errs := InsertOnFail(errs, "last_name", ValidateLastName(d.lastName.value));
    }
    assert errs == FieldErrors(d);
    if errs != map[] {
      return Err(InvalidData(Map(errs)));
    }

    var byUsername := g.GetUserByUsernameNotSensitive(d.username);
    var byEmail := g.GetUserByEmailNotSensitive(d.email);
    if byUsername.Some? && byUsername.value.id != d.id { errs := errs["username" := UsernameTaken]; }
    if byEmail.Some? && byEmail.value.id != d.id { errs := errs["email" := EmailTaken]; }

    var target := g.GetUserById(d.id);
    if target.None? {
      return Err(NotFound(Message(UserNotFound)));
    }
    var user := target.value;
    assert UpdateSpec(access, d, g.rows, now) == (Ok(View(SavedUser(user, d, now))), UserDb.Upsert(g.rows, SavedUser(user, d, now)));
    var newUser := SavedUser(user, d, now);
    g.SaveUserUpsert(newUser);
    return Ok(View(newUser));
  }
}
