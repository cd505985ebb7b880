// Registering a user: every field is validated into one field-keyed map,
// then username and email are checked for case-insensitive uniqueness, and
// only then is the password hashed and the new user inserted.
module CreateUser {
  import opened Common
  import opened Validator
  import UserDb
  import UserService

  datatype CreateUserDTO = CreateUserDTO(username: string, email: string, password: string,
                                         firstName: Option<string>, lastName: Option<string>)

  const UsernameTaken := "Имя пользователя занято"
  const EmailExists := "Пользователь с таким Email уже существует"

  /** The validation errors, keyed by field; the names only when present. */
  function FieldErrors(d: CreateUserDTO): (m: map<string, string>)
    ensures m.Keys <= {"username", "password", "email", "first_name", "last_name"}
    ensures "username" in m <==> ValidateUsername(d.username).Fail?
    ensures "password" in m <==> ValidatePassword(d.password).Fail?
    ensures "email" in m <==> ValidateEmail(d.email).Fail?
    ensures "first_name" in m <==> d.firstName.Some? && ValidateFirstName(d.firstName.value).Fail?
    ensures "last_name" in m <==> d.lastName.Some? && ValidateLastName(d.lastName.value).Fail?
    ensures "password" in m ==> m["password"] == ValidatePassword(d.password).msg
  {
    Notes(ValidateUsername(d.username), ValidatePassword(d.password), ValidateEmail(d.email),
          CheckOptional(d.firstName, ValidateFirstName), CheckOptional(d.lastName, ValidateLastName))
  }

  /** The five checks noted in their order, each failure under its field. */
  function Notes(username: Check, password: Check, email: Check, firstName: Check, lastName: Check)
    : (m: map<string, string>)
    ensures m.Keys <= {"username", "password", "email", "first_name", "last_name"}
    ensures ("username" in m <==> username.Fail?) && ("password" in m <==> password.Fail?)
    ensures ("email" in m <==> email.Fail?) && ("first_name" in m <==> firstName.Fail?)
    ensures ("last_name" in m <==> lastName.Fail?)
    ensures "password" in m ==> m["password"] == password.msg
  {
    var m1 := Note(map[], "username", username);
    var m2 := Note(m1, "password", password);
    var m3 := Note(m2, "email", email);
    var m4 := Note(m3, "first_name", firstName);
    Note(m4, "last_name", lastName)
  }

  /** The uniqueness errors: an ILIKE match on username and on email, each under its own key. */
  function Conflicts(d: CreateUserDTO, users: seq<UserDb.UserRow>): (m: map<string, string>)
    ensures m.Keys <= {"username", "email"}
    ensures "username" in m <==> UserDb.ByUsername(users, d.username).Some?
    ensures "email" in m <==> UserDb.ByEmail(users, d.email).Some?
    ensures "username" in m ==> m["username"] == UsernameTaken
    ensures "email" in m ==> m["email"] == EmailExists
  {
    var m1: map<string, string> := if UserDb.ByUsername(users, d.username).Some? then map["username" := UsernameTaken] else map[];
    if UserDb.ByEmail(users, d.email).Some? then m1["email" := EmailExists] else m1
  }

  /**
   * The outcome and the table afterwards. `id` is the fresh id and `hash` the
   * password hasher; the insert panics only if the fresh id is taken.
   */
  function CreateSpec(d: CreateUserDTO, users: seq<UserDb.UserRow>, id: Uuid, hash: string -> string)
    : (Outcome<UserView>, seq<UserDb.UserRow>)
  {
    var errs := FieldErrors(d);
    if errs != map[] then (Err(InvalidData(Map(errs))), users)
    else
      var taken := Conflicts(d, users);
      if taken != map[] then (Err(InvalidData(Map(taken))), users)
      else
        var user := UserService.CreateUser(id, d.username, d.email, hash(d.password), d.firstName, d.lastName);
        if id in UserDb.Ids(users) then (Panic, users)
        else (Ok(View(user)), users + [UserDb.ToRow(user)])
  }

  /** The fields are valid exactly when every validator accepts its field. */
  lemma FieldErrorsEmpty(d: CreateUserDTO)
    ensures FieldErrors(d) == map[] <==>
            ValidateUsername(d.username).Pass? && ValidatePassword(d.password).Pass? && ValidateEmail(d.email).Pass?
            && (d.firstName.Some? ==> ValidateFirstName(d.firstName.value).Pass?)
            && (d.lastName.Some? ==> ValidateLastName(d.lastName.value).Pass?)
  {
    if FieldErrors(d) == map[] {
      assert "username" !in FieldErrors(d) && "password" !in FieldErrors(d) && "email" !in FieldErrors(d);
      assert "first_name" !in FieldErrors(d) && "last_name" !in FieldErrors(d);
    }
  }

  /** Invalid fields are reported before any lookup: the table does not matter and nothing is saved. */
  lemma ValidationFirst(d: CreateUserDTO, users: seq<UserDb.UserRow>, others: seq<UserDb.UserRow>, id: Uuid, hash: string -> string)
    requires FieldErrors(d) != map[]
    ensures CreateSpec(d, users, id, hash) == (Err(InvalidData(Map(FieldErrors(d)))), users)
    ensures CreateSpec(d, others, id, hash).0 == CreateSpec(d, users, id, hash).0
  {
  }

  /**
   * With valid fields, a taken username and a taken email are both reported,
   * each under its key, and nothing is saved.
   */
  lemma TakenReported(d: CreateUserDTO, users: seq<UserDb.UserRow>, id: Uuid, hash: string -> string)
    requires FieldErrors(d) == map[]
    requires UserDb.ByUsername(users, d.username).Some? || UserDb.ByEmail(users, d.email).Some?
    ensures CreateSpec(d, users, id, hash) == (Err(InvalidData(Map(Conflicts(d, users)))), users)
    ensures UserDb.ByUsername(users, d.username).Some? && UserDb.ByEmail(users, d.email).Some? ==>
            Conflicts(d, users) == map["username" := UsernameTaken, "email" := EmailExists]
  {
    assert Conflicts(d, users) != map[] by {
      if UserDb.ByUsername(users, d.username).Some? {
        assert "username" in Conflicts(d, users);
      } else {
        assert "email" in Conflicts(d, users);
      }
    }
  }

  /**
   * A registration succeeds exactly when the fields are valid, nobody matches
   * the username or the email and the fresh id is free. The new row is the
   * Active user with the hash of the password, appended to the table, and the
   * reply echoes it.
   */
  lemma SuccessShape(d: CreateUserDTO, users: seq<UserDb.UserRow>, id: Uuid, hash: string -> string)
    ensures var (out, after) := CreateSpec(d, users, id, hash);
            out.Ok? <==> FieldErrors(d) == map[] && Conflicts(d, users) == map[] && id !in UserDb.Ids(users)
    ensures var (out, after) := CreateSpec(d, users, id, hash);
            out.Ok? ==>
              var u := UserDb.FromRow(after[|users|]);
              && after == users + [UserDb.ToRow(u)]
              && u.id == id && u.state == Active && u.hashedPassword == hash(d.password)
              && u.username == d.username && u.email == d.email
              && out.value == View(u)
              && (forall i :: 0 <= i < |users| ==> !UserDb.ILike(users[i].username, d.username))
  {
    var (out, after) := CreateSpec(d, users, id, hash);
    if out.Ok? {
      var u := UserService.CreateUser(id, d.username, d.email, hash(d.password), d.firstName, d.lastName);
      UserDb.RowRoundTrip(u, UserDb.ToRow(u));
      assert after[|users|] == UserDb.ToRow(u);
    }
  }

  /** `CreateUser::execute`: the error map is filled in place over two passes, then one insert. */
  method Execute(g: UserDb.UserTable, d: CreateUserDTO, id: Uuid, hash: string -> string) returns (r: Outcome<UserView>)
    modifies g
    ensures (r, g.rows) == CreateSpec(d, old(g.rows), id, hash)
  {
    var errs: map<string, string> := map[];
    errs := InsertOnFail(errs, "username", ValidateUsername(d.username));
    errs := InsertOnFail(errs, "password", ValidatePassword(d.password));
    errs := InsertOnFail(errs, "email", ValidateEmail(d.email));
    if d.firstName.Some? {
      errs := InsertOnFail(errs, "first_name", ValidateFirstName(d.firstName.value));
    }
    if d.lastName.Some? {
      errs := InsertOnFail(errs, "last_name", ValidateLastName(d.lastName.value));
    }
    assert errs == FieldErrors(d);
    if errs != map[] {
      return Err(InvalidData(Map(errs)));
    }

    var byUsername := g.GetUserByUsernameNotSensitive(d.username);
    var byEmail := g.GetUserByEmailNotSensitive(d.email);
    assert errs == map[];
    if byUsername.Some? { errs := errs["username" := UsernameTaken]; }
    ghost var m1 := errs;
    if byEmail.Some? { errs := errs["email" := EmailExists]; }
    assert errs == if byEmail.Some? then m1["email" := EmailExists] else m1;
    assert errs == Conflicts(d, g.rows);
    if errs != map[] {
      return Err(InvalidData(Map(errs)));
    }

    var hashed := hash(d.password);
    var user := UserService.CreateUser(id, d.username, d.email, hashed, d.firstName, d.lastName);
    ghost var rows0 := g.rows;
    assert CreateSpec(d, rows0, id, hash) ==
           if id in UserDb.Ids(rows0) then (Panic, rows0) else (Ok(View(user)), rows0 + [UserDb.ToRow(user)]);
    var panicked := g.SaveUser(user);
    if panicked {
      return Panic;
    }
    return Ok(View(user));
  }
}
