// The Python authentication service: registration, login, e-mail
// confirmation and password reset through one-time codes, logout and
// token refresh. Each operation is a spec function on the whole state it
// touches and a method of the service class that performs it step by step.
module AuthService {
  import opened Common
  import opened PyCommon
  import opened RedisModel
  import opened PermissionTags
  import opened SecurityFilters
  import opened PyUsers
  import Decimal
  import CC = ConfirmCode
  import SM = SessionManager
  import PV = PyValidators

  /** Everything the service reads or writes. */
  datatype World = World(users: seq<UserRow>, roles: map<int, seq<string>>, outbox: seq<Mail>,
                         confirm: CC.Config, confirmDb: Store, sessionDb: Store, reauthDb: Store)

  /** What a login or a refresh hands back: the user, its permission titles, the two tokens and the session id. */
  datatype Login = Login(user: UserRow, permissions: seq<string>, access: string, refresh: string, sessionId: string)

  const KeyLifetime: int := 60 * 30
  const UserNotFound := "Пользователь не найден"
  const AlreadyConfirmed := "Пользователь уже подтвержден"
  const TooManyGen := "Превышено количество попыток, попробуйте позже"
  const AlreadySent := "Код уже отправлен"
  const TooManyVerify := "Превышено количество попыток"
  const NotSent := "Код не отправлен"
  const WrongCode := "Неверный код"
  const StaleCode := "Код устарел, отправьте новый"
  const Blocked := "Пользователь заблокирован"

  /** The permission filter of an operation guarded by one tag. */
  function Guard(current: Option<Caller>, tag: Permission): Py<()>
  {
    PermissionFilter([Single(tag)], HeldBy(current))
  }

  /** The confirm manager's errors from `generate` as the caller turns them into API errors; others pass through. */
  function GenerateError(e: Exc): (r: Exc)
    ensures e == ManyGenAttemptsError ==> r == BadRequest(TooManyGen)
    ensures e == AlreadyGenError ==> r == BadRequest(AlreadySent)
    ensures e != ManyGenAttemptsError && e != AlreadyGenError ==> r == e
  {
    match e
    case ManyGenAttemptsError => BadRequest(TooManyGen)
    case AlreadyGenError => BadRequest(AlreadySent)
    case _ => e
  }

  /** The same for `verify`. */
  function VerifyError(e: Exc): (r: Exc)
    ensures e == ManyConfirmAttemptsError ==> r == BadRequest(TooManyVerify)
    ensures e == NotGenError ==> r == BadRequest(NotSent)
    ensures e == InvalidCodeError ==> r == BadRequest(WrongCode)
    ensures e == ExpiredCodeError ==> r == BadRequest(StaleCode)
    ensures !(e in {ManyConfirmAttemptsError, NotGenError, InvalidCodeError, ExpiredCodeError}) ==> r == e
  {
    match e
    case ManyConfirmAttemptsError => BadRequest(TooManyVerify)
    case NotGenError => BadRequest(NotSent)
    case InvalidCodeError => BadRequest(WrongCode)
    case ExpiredCodeError => BadRequest(StaleCode)
    case _ => e
  }

  // ---- create_user ----

  /**
   * `create_user`: refused unless CREATE_USER is held; a username, then an
   * email, already taken (ignoring case) is refused; otherwise one row is
   * added with role 0, the hashed password and the table's default state.
   */
  function CreateUserSpec(w: World, current: Option<Caller>, username: string, email: string, password: string,
                          hash: string -> string, newId: string, defaultState: State): (Py<()>, World)
  {
    var g := Guard(current, CREATE_USER);
    if g.Raise? then (g, w)
    else if FindUser(w.users, (u: UserRow) => SameFolded(u.username, username)).Some? then
      (Raise(AlreadyExists("Пользователь " + Repr(username) + " уже существует")), w)
    else if FindUser(w.users, (u: UserRow) => SameFolded(u.email, email)).Some? then
      (Raise(AlreadyExists("Пользователь с email " + Repr(email) + " уже существует")), w)
    else (Return(()), w.(users := w.users + [UserRow(newId, username, email, hash(password), defaultState, 0)]))
  }

  lemma CreateUserOutcomes(w: World, current: Option<Caller>, username: string, email: string, password: string,
                           hash: string -> string, newId: string, defaultState: State)
    requires Guard(current, CREATE_USER) == Return(())
    ensures var (r, w') := CreateUserSpec(w, current, username, email, password, hash, newId, defaultState);
            && ((exists u :: u in w.users && SameFolded(u.username, username)) ==>
                  r.Raise? && r.exc.AlreadyExists? && w' == w)
            && ((forall u :: u in w.users ==> !SameFolded(u.username, username)) &&
                (exists u :: u in w.users && SameFolded(u.email, email)) ==>
                  r == Raise(AlreadyExists("Пользователь с email " + Repr(email) + " уже существует")) && w' == w)
            && (r.Return? ==>
                  w' == w.(users := w.users + [UserRow(newId, username, email, hash(password), defaultState, 0)]) &&
                  forall u :: u in w.users ==> !SameFolded(u.username, username) && !SameFolded(u.email, email))
  {
    var byName := FindUser(w.users, (u: UserRow) => SameFolded(u.username, username));
    var byEmail := FindUser(w.users, (u: UserRow) => SameFolded(u.email, email));
    if exists u :: u in w.users && SameFolded(u.username, username) {
      var u :| u in w.users && SameFolded(u.username, username);
      assert byName.Some?;
    }
    if (forall u :: u in w.users ==> !SameFolded(u.username, username)) &&
       (exists u :: u in w.users && SameFolded(u.email, email)) {
      var u :| u in w.users && SameFolded(u.email, email);
      assert byEmail.Some?;
    }
  }

  // ---- authenticate ----

  /** The permission titles of a user's role; a role the table lacks leaves `user.role` None, and reading it raises. */
  function RolePermissions(roles: map<int, seq<string>>, u: UserRow): Py<seq<string>>
  {
    if u.roleId in roles then Return(roles[u.roleId]) else Raise(AttributeError)
  }

  /**
   * `authenticate`: refused unless AUTHENTICATE is held; an unknown
   * username (ignoring case) and a wrong password are both NotFound; a
   * blocked, unconfirmed or deleted user is refused; otherwise both tokens
   * are minted (`mint(user, titles, isAccess)`) and a new session is stored
   * for the refresh token.
   */
  function AuthenticateSpec(w: World, current: Option<Caller>, username: string, password: string,
                            verify: (string, string) -> bool, mint: (UserRow, seq<string>, bool) -> string,
                            freshHex: string, now: int): (Py<Login>, World)
  {
    var g := Guard(current, AUTHENTICATE);
    if g.Raise? then (Raise(g.exc), w)
    else
      match FindUser(w.users, (u: UserRow) => SameFolded(u.username, username))
      case None => (Raise(Exc.NotFound(UserNotFound)), w)
      case Some(user) =>
        if !verify(password, user.hashedPassword) then (Raise(Exc.NotFound("Неверная пара логин/пароль")), w)
        else if user.state == BLOCKED then (Raise(Exc.AccessDenied(Blocked)), w)
        else if user.state == NOT_CONFIRMED then (Raise(Exc.AccessDenied("Пользователь не подтвержден")), w)
        else if user.state == DELETED then (Raise(Exc.AccessDenied("Пользователь удален")), w)
        else
          match RolePermissions(w.roles, user)
          case Raise(e) => (Raise(e), w)
          case Return(titles) =>
            var access := mint(user, titles, true);
            var refresh := mint(user, titles, false);
            var (sid, db') := SM.SetSessionSpec(w.sessionDb, user.id, refresh, current.value.ip,
                                                current.value.userAgent, None, freshHex, now);
            (Return(Login(user, titles, access, refresh, sid)), w.(sessionDb := db'))
  }

  /** Only an active user logs in, with the right password; other failures change nothing at all. */
  lemma AuthenticateOnlyActive(w: World, current: Option<Caller>, username: string, password: string,
                               verify: (string, string) -> bool, mint: (UserRow, seq<string>, bool) -> string,
                               freshHex: string, now: int)
    ensures var (r, w') := AuthenticateSpec(w, current, username, password, verify, mint, freshHex, now);
            && (r.Return? ==>
                  && r.value.user in w.users && SameFolded(r.value.user.username, username)
                  && r.value.user.state == ACTIVE && verify(password, r.value.user.hashedPassword)
                  && w' == w.(sessionDb := w'.sessionDb))
            && (r.Raise? ==> w' == w)
            && ((forall u :: u in w.users ==> !SameFolded(u.username, username)) && Guard(current, AUTHENTICATE).Return? ==>
                  r == Raise(Exc.NotFound(UserNotFound)))
  {
  }

  /**
   * A login leaves a session under the returned id that `is_valid_session`
   * accepts for the returned refresh token, when the stored fields hold no `:`.
   */
  lemma AuthenticateStoresSession(w: World, current: Option<Caller>, username: string, password: string,
                                  verify: (string, string) -> bool, mint: (UserRow, seq<string>, bool) -> string,
                                  freshHex: string, now: int)
    requires var r := AuthenticateSpec(w, current, username, password, verify, mint, freshHex, now).0;
             r.Return? && ':' !in r.value.refresh && ':' !in current.value.ip && ':' !in current.value.userAgent
    ensures var (r, w') := AuthenticateSpec(w, current, username, password, verify, mint, freshHex, now);
            && r.value.sessionId == freshHex
            && SM.IsValidSessionSpec(w'.sessionDb, r.value.user.id, r.value.sessionId, r.value.refresh) == Return(true)
  {
    var (r, w') := AuthenticateSpec(w, current, username, password, verify, mint, freshHex, now);
    var user := FindUser(w.users, (u: UserRow) => SameFolded(u.username, username)).value;
    var titles := RolePermissions(w.roles, user).value;
    var refresh := mint(user, titles, false);
    var (sid, db') := SM.SetSessionSpec(w.sessionDb, user.id, refresh, current.value.ip,
                                        current.value.userAgent, None, freshHex, now);
    assert r.value.user == user && r.value.refresh == refresh && r.value.sessionId == sid && w'.sessionDb == db';
    SM.SetThenValid(w.sessionDb, user.id, refresh, current.value.ip, current.value.userAgent, None, freshHex, now);
  }

  // ---- send_verify_code / verify_email / send_reset_code / reset_password ----

  /** The user with exactly this email (`get(email=...)`). */
  function ByEmail(users: seq<UserRow>, email: string): (r: Option<UserRow>)
    ensures r.Some? ==> r.value in users && r.value.email == email
    ensures r.None? <==> forall u :: u in users ==> u.email != email
  {
    FindUser(users, (u: UserRow) => u.email == email)
  }

  /** Generating a code under the given settings, turning its errors into API errors, and mailing it. */
  function SendCode(w: World, conf: CC.Config, email: string, draw: nat, now: int,
                    subject: string, template: string, params: seq<(string, string)>): (Py<()>, World)
  {
    var (g, db') := CC.GenerateSpec(conf, w.confirmDb, 100000, 999999, draw, now);
    var w1 := w.(confirm := conf, confirmDb := db');
    match g
    case Raise(e) => (Raise(GenerateError(e)), w1)
    case Return(code) =>
      (Return(()), w1.(outbox := w.outbox + [Mail(email, subject, template, params + [("code", Decimal.IntToString(code))],
                                                 13, Some(KeyLifetime))]))
  }

  /**
   * `send_verify_code`: refused unless VERIFY_EMAIL is held; an unknown
   * email is NotFound and a confirmed user is refused; then a code is
   * generated under `email_confirm:<email>` (lifetime 30 minutes, 120
   * seconds between codes, 3 codes at most) and mailed.
   */
  function SendVerifyCodeSpec(w: World, current: Option<Caller>, email: string, draw: nat, now: int): (Py<()>, World)
  {
    var g := Guard(current, VERIFY_EMAIL);
    if g.Raise? then (g, w)
    else
      match ByEmail(w.users, email)
      case None => (Raise(Exc.NotFound(UserNotFound)), w)
      case Some(user) =>
        if user.state != NOT_CONFIRMED then (Raise(Exc.AccessDenied(AlreadyConfirmed)), w)
        else
          var conf := w.confirm.(key := Some("email_confirm:" + email), keyLifetime := Some(KeyLifetime),
                                 genInterval := Some(120), maxGenAttempts := Some(3));
          SendCode(w, conf, email, draw, now, "Подтверждение почты", "confirm_email.html", [])
  }

  /**
   * `verify_email`: refused unless VERIFY_EMAIL is held; an unknown email
   * is NotFound and a confirmed user is refused; then the code is verified
   * under `email_confirm:<email>` (3 attempts, valid 30 minutes) and deleted,
   * the user becomes ACTIVE and a notice is mailed.
   */
  function VerifyEmailSpec(w: World, current: Option<Caller>, email: string, code: int, now: int): (Py<()>, World)
  {
    var g := Guard(current, VERIFY_EMAIL);
    if g.Raise? then (g, w)
    else
      match ByEmail(w.users, email)
      case None => (Raise(Exc.NotFound(UserNotFound)), w)
      case Some(user) =>
        if user.state != NOT_CONFIRMED then (Raise(Exc.AccessDenied(AlreadyConfirmed)), w)
        else
          var conf := w.confirm.(key := Some("email_confirm:" + email), maxVerifyAttempts := Some(3),
                                 codeValidTime := Some(KeyLifetime));
          var (v, db') := CC.VerifySpec(conf, w.confirmDb, code, true, now);
          var w1 := w.(confirm := conf, confirmDb := db');
          if v.Raise? then (Raise(VerifyError(v.exc)), w1)
          else
            (Return(()), w1.(users := UpdateState(w.users, user.id, ACTIVE),
                             outbox := w.outbox + [Mail(email, "Подтверждение почты", "successfully_confirm_email.html",
                                                        [("username", user.username)], 13, Some(KeyLifetime))]))
  }

  /** Both steps of e-mail confirmation leave everything as it was for a user who is not NOT_CONFIRMED. */
  lemma ConfirmationNeedsUnconfirmed(w: World, current: Option<Caller>, email: string, draw: nat, code: int, now: int)
    requires Guard(current, VERIFY_EMAIL).Return?
    requires ByEmail(w.users, email).Some? && ByEmail(w.users, email).value.state != NOT_CONFIRMED
    ensures SendVerifyCodeSpec(w, current, email, draw, now) == (Raise(Exc.AccessDenied(AlreadyConfirmed)), w)
    ensures VerifyEmailSpec(w, current, email, code, now) == (Raise(Exc.AccessDenied(AlreadyConfirmed)), w)
  {
  }

  /** A successful confirmation makes the user ACTIVE, changes no other row and deletes the code's key. */
  lemma VerifyEmailActivates(w: World, current: Option<Caller>, email: string, code: int, now: int)
    requires VerifyEmailSpec(w, current, email, code, now).0.Return?
    ensures var w' := VerifyEmailSpec(w, current, email, code, now).1;
            var user := ByEmail(w.users, email).value;
            && user.state == NOT_CONFIRMED
            && w'.users == UpdateState(w.users, user.id, ACTIVE)
            && w'.confirmDb == DeleteOp(w.confirmDb, "email_confirm:" + email)
  {
    var user := ByEmail(w.users, email).value;
    var conf := w.confirm.(key := Some("email_confirm:" + email), maxVerifyAttempts := Some(3),
                           codeValidTime := Some(KeyLifetime));
    var (v, db') := CC.VerifySpec(conf, w.confirmDb, code, true, now);
    assert v.Return?;
    CC.VerifyAccepts(conf, w.confirmDb, code, true, now);
  }

  /**
   * `send_reset_code`: refused unless RESET_PASSWORD is held; an unknown
   * email is NotFound; then a code is generated under `password_reset:<email>`
   * with the same limits as for confirmation and mailed.
   */
  function SendResetCodeSpec(w: World, current: Option<Caller>, email: string, draw: nat, now: int): (Py<()>, World)
  {
    var g := Guard(current, RESET_PASSWORD);
    if g.Raise? then (g, w)
    else
      match ByEmail(w.users, email)
      case None => (Raise(Exc.NotFound(UserNotFound)), w)
      case Some(user) =>
        var conf := w.confirm.(key := Some("password_reset:" + email), keyLifetime := Some(KeyLifetime),
                               genInterval := Some(120), maxGenAttempts := Some(3));
        SendCode(w, conf, email, draw, now, "Восстановление пароля", "reset_password.html", [("username", user.username)])
  }

  /** The part of `reset_password` before the password check: the guard, the lookup and verifying the code without deleting it. */
  function ResetVerified(w: World, current: Option<Caller>, email: string, code: int, now: int): (r: (Py<UserRow>, World))
    ensures r.0.Return? ==> ByEmail(w.users, email) == Some(r.0.value) && Guard(current, RESET_PASSWORD).Return?
    ensures r.1.users == w.users && r.1.outbox == w.outbox && r.1.sessionDb == w.sessionDb && r.1.reauthDb == w.reauthDb
  {
    var g := Guard(current, RESET_PASSWORD);
    if g.Raise? then (Raise(g.exc), w)
    else
      match ByEmail(w.users, email)
      case None => (Raise(Exc.NotFound(UserNotFound)), w)
      case Some(user) =>
        var conf := w.confirm.(key := Some("password_reset:" + email), maxVerifyAttempts := Some(3),
                               codeValidTime := Some(KeyLifetime));
        var (v, db') := CC.VerifySpec(conf, w.confirmDb, code, false, now);
        var w1 := w.(confirm := conf, confirmDb := db');
        if v.Raise? then (Raise(VerifyError(v.exc)), w1) else (Return(user), w1)
  }

  /**
   * `reset_password` as written: after a good code it calls
   * `schemas.user.is_valid_password`, a function the user schema module
   * does not define, so it raises AttributeError there.
   */
  function ResetPasswordAsWrittenSpec(w: World, current: Option<Caller>, email: string, code: int,
                                      newPassword: string, hash: string -> string, changeTime: string, now: int)
    : (Py<()>, World)
  {
    var (v, w1) := ResetVerified(w, current, email, code, now);
    if v.Raise? then (Raise(v.exc), w1) else (Raise(AttributeError), w1)
  }

  /**
   * As written, no password is ever reset: the users table never changes
   * and no mail is sent; the refusals of the code check come first, as in
   * the corrected reset, and a good code ends in AttributeError.
   */
  lemma ResetAsWrittenNeverResets(w: World, current: Option<Caller>, email: string, code: int,
                                  newPassword: string, hash: string -> string, changeTime: string, now: int)
    ensures var (r, w') := ResetPasswordAsWrittenSpec(w, current, email, code, newPassword, hash, changeTime, now);
            r.Raise? && w'.users == w.users && w'.outbox == w.outbox
    ensures var (v, w1) := ResetVerified(w, current, email, code, now);
            var (r, w') := ResetPasswordAsWrittenSpec(w, current, email, code, newPassword, hash, changeTime, now);
            && w' == w1
            && (v.Raise? ==> r == Raise(v.exc) && ResetPasswordSpec(w, current, email, code, newPassword, hash, changeTime, now) == (r, w'))
            && (v.Return? ==> r == Raise(AttributeError))
  {
  }

  /**
   * `reset_password` with only the validator corrected. The confirm manager
   * taken as `ConfirmCodeUtil` has a plain `delete_key` that returns None,
   * so `await self.confirm_manager.delete_key()` raises TypeError: the
   * delete it starts is never awaited, and the hash is never updated.
   */
  function ResetAwaitingDeleteSpec(w: World, current: Option<Caller>, email: string, code: int, newPassword: string,
                                   hash: string -> string, changeTime: string, now: int): (Py<()>, World)
  {
    var (v, w1) := ResetVerified(w, current, email, code, now);
    if v.Raise? then (Raise(v.exc), w1)
    else if !PV.IsValidPassword(newPassword) then (Raise(BadRequest("Невалидный пароль")), w1)
    else (Raise(TypeError), w1)
  }

  /**
   * Where the corrected reset succeeds, awaiting the plain `delete_key`
   * raises TypeError instead, with the code's key still stored, no hash
   * changed and no mail sent.
   */
  lemma AwaitedDeleteRaises(w: World, current: Option<Caller>, email: string, code: int, newPassword: string,
                            hash: string -> string, changeTime: string, now: int)
    requires ResetPasswordSpec(w, current, email, code, newPassword, hash, changeTime, now).0.Return?
    ensures var (r, w') := ResetAwaitingDeleteSpec(w, current, email, code, newPassword, hash, changeTime, now);
            && r == Raise(TypeError)
            && w'.users == w.users && w'.outbox == w.outbox
            && w'.confirmDb == ResetVerified(w, current, email, code, now).1.confirmDb
            && Exists(w'.confirmDb, "password_reset:" + email)
  {
    var (v, w1) := ResetVerified(w, current, email, code, now);
    var conf := w.confirm.(key := Some("password_reset:" + email), maxVerifyAttempts := Some(3),
                           codeValidTime := Some(KeyLifetime));
    CC.VerifyAccepts(conf, w.confirmDb, code, false, now);
  }

  /**
   * `reset_password` with the password validator it evidently means: after
   * a good code, an invalid new password is refused; otherwise the code's
   * key is deleted, the hash replaced and a notice mailed.
   */
  function ResetPasswordSpec(w: World, current: Option<Caller>, email: string, code: int, newPassword: string,
                             hash: string -> string, changeTime: string, now: int): (Py<()>, World)
  {
    var (v, w1) := ResetVerified(w, current, email, code, now);
    if v.Raise? then (Raise(v.exc), w1)
    else if !PV.IsValidPassword(newPassword) then (Raise(BadRequest("Невалидный пароль")), w1)
    else
      var user := v.value;
      (Return(()), w1.(confirmDb := DeleteOp(w1.confirmDb, "password_reset:" + email),
                       users := UpdateHash(w.users, user.id, hash(newPassword)),
                       outbox := w.outbox + [Mail(email, "Восстановление пароля", "successfully_reset_password.html",
                                                  [("username", user.username), ("change_time", changeTime),
                                                   ("ip", current.value.ip), ("email", user.email)], 9, None)]))
  }

  /**
   * An invalid new password is refused after the code was accepted, before
   * the key is deleted and before any update: the code stays usable.
   */
  lemma InvalidPasswordKeepsKey(w: World, current: Option<Caller>, email: string, code: int, newPassword: string,
                                hash: string -> string, changeTime: string, now: int)
    requires ResetVerified(w, current, email, code, now).0.Return? && !PV.IsValidPassword(newPassword)
    ensures var (r, w') := ResetPasswordSpec(w, current, email, code, newPassword, hash, changeTime, now);
            && r == Raise(BadRequest("Невалидный пароль"))
            && w'.users == w.users && w'.outbox == w.outbox
            && HashOf(w'.confirmDb, "password_reset:" + email) == HashOf(ResetVerified(w, current, email, code, now).1.confirmDb, "password_reset:" + email)
  {
  }

  /** A successful reset changes only the matching rows' hashes and removes the code. */
  lemma ResetChangesOnlyHash(w: World, current: Option<Caller>, email: string, code: int, newPassword: string,
                             hash: string -> string, changeTime: string, now: int)
    requires ResetPasswordSpec(w, current, email, code, newPassword, hash, changeTime, now).0.Return?
    ensures var w' := ResetPasswordSpec(w, current, email, code, newPassword, hash, changeTime, now).1;
            var user := ByEmail(w.users, email).value;
            && PV.IsValidPassword(newPassword)
            && |w'.users| == |w.users|
            && (forall i :: 0 <= i < |w.users| ==>
                  w'.users[i] == if w.users[i].id == user.id then w.users[i].(hashedPassword := hash(newPassword)) else w.users[i])
            && !Exists(w'.confirmDb, "password_reset:" + email)
  {
  }

  // ---- logout ----

  /** `logout`: refused unless LOGOUT is held; the session is deleted only when a session id and a user id are both set. */
  function LogoutSpec(w: World, current: Option<Caller>, sessionId: Option<string>): (Py<()>, World)
  {
    var g := Guard(current, LOGOUT);
    if g.Raise? then (g, w)
    else if sessionId.Some? && sessionId.value != "" && current.value.account.Some? then
      (Return(()), w.(sessionDb := SM.DeleteSessionSpec(w.sessionDb, current.value.account.value.id, sessionId.value)))
    else (Return(()), w)
  }

  lemma LogoutIff(w: World, current: Option<Caller>, sessionId: Option<string>)
    requires Guard(current, LOGOUT).Return?
    ensures var (r, w') := LogoutSpec(w, current, sessionId);
            && r == Return(())
            && (sessionId.None? || sessionId.value == "" || current.value.account.None? ==> w' == w)
            && (sessionId.Some? && sessionId.value != "" && current.value.account.Some? ==>
                  w' == w.(sessionDb := SM.DeleteSessionSpec(w.sessionDb, current.value.account.value.id, sessionId.value)))
  {
  }

  // ---- refresh_tokens ----

  /**
   * `refresh_tokens` (no permission filter): the current session and
   * refresh token must be valid; the refresh token's claims (`decode`,
   * which raises on a bad token) name the user, who must exist and not be
   * blocked; new tokens are minted, the session is stored again under the
   * given id, and that id's re-authentication entry is deleted.
   */
  function RefreshTokensSpec(w: World, current: Option<Caller>, refreshToken: Option<string>, sessionId: Option<string>,
                             decode: Option<string> -> Option<string>, mint: (UserRow, seq<string>, bool) -> string,
                             freshHex: string, now: int): (Py<Login>, World)
  {
    if current.None? then (Raise(AttributeError), w)
    else if !current.value.isValidSession then (Raise(Exc.AccessDenied("Сессия недействительна")), w)
    else if !current.value.isValidRefreshToken then (Raise(Exc.AccessDenied("Недействительный refresh token")), w)
    else if decode(refreshToken).None? then (Raise(JWTValidationError), w)
    else
      var id := decode(refreshToken).value;
      match FindUser(w.users, (u: UserRow) => u.id == id)
      case None => (Raise(Exc.NotFound(UserNotFound)), w)
      case Some(user) =>
        if user.state == BLOCKED then (Raise(Exc.AccessDenied(Blocked)), w)
        else
          match RolePermissions(w.roles, user)
          case Raise(e) => (Raise(e), w)
          case Return(titles) =>
            var access := mint(user, titles, true);
            var refresh := mint(user, titles, false);
            var (sid, db') := SM.SetSessionSpec(w.sessionDb, user.id, refresh, current.value.ip, current.value.userAgent,
                                                sessionId, freshHex, now);
            var w1 := w.(sessionDb := db');
            if sessionId.None? then (Raise(DataError), w1)
            else (Return(Login(user, titles, access, refresh, sid)), w1.(reauthDb := DeleteOp(w.reauthDb, sessionId.value)))
  }

  /**
   * A refresh needs a valid session and refresh token, refuses only a
   * blocked user, reuses a given session id and clears its
   * re-authentication entry.
   */
  lemma RefreshOutcomes(w: World, current: Option<Caller>, refreshToken: Option<string>, sessionId: Option<string>,
                        decode: Option<string> -> Option<string>, mint: (UserRow, seq<string>, bool) -> string,
                        freshHex: string, now: int)
    ensures var (r, w') := RefreshTokensSpec(w, current, refreshToken, sessionId, decode, mint, freshHex, now);
            && (r.Return? ==>
                  && current.value.isValidSession && current.value.isValidRefreshToken
                  && r.value.user in w.users && r.value.user.id == decode(refreshToken).value
                  && r.value.user.state != BLOCKED
                  && sessionId.Some?
                  && (sessionId.value != "" ==> r.value.sessionId == sessionId.value)
                  && w'.reauthDb == DeleteOp(w.reauthDb, sessionId.value)
                  && w'.users == w.users)
            && (current.Some? && current.value.isValidSession && current.value.isValidRefreshToken &&
                decode(refreshToken).Some? && sessionId.Some? &&
                FindUser(w.users, (u: UserRow) => u.id == decode(refreshToken).value).Some? &&
                FindUser(w.users, (u: UserRow) => u.id == decode(refreshToken).value).value.roleId in w.roles ==>
                  (r.Return? <==> FindUser(w.users, (u: UserRow) => u.id == decode(refreshToken).value).value.state != BLOCKED))
  {
  }

  /** The authentication service with the state its collaborators keep. */
  class AuthApplicationService {
    const current: Option<Caller>
    var users: seq<UserRow>
    const roles: map<int, seq<string>>
    var outbox: seq<Mail>
    const sessions: SM.SessionManager
    const reauth: RedisClient
    const confirm: CC.ConfirmCodeUtil

    /** The three Redis connections are different objects. */
    predicate Separate()
    {
      confirm.redis != sessions.redis && confirm.redis != reauth && sessions.redis != reauth
    }

    function Snapshot(): World
      reads this, confirm, confirm.redis, sessions.redis, reauth
    {
      World(users, roles, outbox, confirm.Settings(), confirm.redis.db, sessions.redis.db, reauth.db)
    }

    constructor (current: Option<Caller>, users: seq<UserRow>, roles: map<int, seq<string>>,
                 sessions: SM.SessionManager, reauth: RedisClient, confirm: CC.ConfirmCodeUtil)
      ensures this.current == current && this.users == users && this.roles == roles && this.outbox == []
      ensures this.sessions == sessions && this.reauth == reauth && this.confirm == confirm
    {
      this.current, this.users, this.roles, this.outbox := current, users, roles, [];
      this.sessions, this.reauth, this.confirm := sessions, reauth, confirm;
    }

    method CreateUser(username: string, email: string, password: string, hash: string -> string, newId: string,
                      defaultState: State) returns (r: Py<()>)
      modifies this
      ensures (r, Snapshot()) == CreateUserSpec(old(Snapshot()), current, username, email, password, hash, newId, defaultState)
    {
      var g := Guard(current, CREATE_USER);
      if g.Raise? {
        return g;
      }
      if FindUser(users, (u: UserRow) => SameFolded(u.username, username)).Some? {
        return Raise(AlreadyExists("Пользователь " + Repr(username) + " уже существует"));
      }
      if FindUser(users, (u: UserRow) => SameFolded(u.email, email)).Some? {
        return Raise(AlreadyExists("Пользователь с email " + Repr(email) + " уже существует"));
      }
      var hashedPassword := hash(password);
      users := users + [UserRow(newId, username, email, hashedPassword, defaultState, 0)];
      return Return(());
    }

    method Authenticate(username: string, password: string, verify: (string, string) -> bool,
                        mint: (UserRow, seq<string>, bool) -> string, freshHex: string, now: int)
      returns (r: Py<Login>)
      requires Separate()
      modifies sessions.redis
      ensures (r, Snapshot()) == AuthenticateSpec(old(Snapshot()), current, username, password, verify, mint, freshHex, now)
    {
      var g := Guard(current, AUTHENTICATE);
      if g.Raise? {
        return Raise(g.exc);
      }
      var found := FindUser(users, (u: UserRow) => SameFolded(u.username, username));
      if found.None? {
        return Raise(Exc.NotFound(UserNotFound));
      }
      var user := found.value;
      if !verify(password, user.hashedPassword) {
        return Raise(Exc.NotFound("Неверная пара логин/пароль"));
      }
      if user.state == BLOCKED {
        return Raise(Exc.AccessDenied(Blocked));
      }
      if user.state == NOT_CONFIRMED {
        return Raise(Exc.AccessDenied("Пользователь не подтвержден"));
      }
      if user.state == DELETED {
        return Raise(Exc.AccessDenied("Пользователь удален"));
      }
      if user.roleId !in roles {
        return Raise(AttributeError);
      }
      var titles := roles[user.roleId];
      var access := mint(user, titles, true);
      var refresh := mint(user, titles, false);
      var sid := sessions.SetSessionId(user.id, refresh, current.value.ip, current.value.userAgent, None, freshHex, now);
      return Return(Login(user, titles, access, refresh, sid));
    }

    /** Generating under the settings already made, mapping the errors, and mailing the code. */
    method SendCodeStep(email: string, draw: nat, now: int, subject: string, template: string,
                        params: seq<(string, string)>) returns (r: Py<()>)
      requires Separate()
      modifies this, confirm.redis
      ensures (r, Snapshot()) == SendCode(old(Snapshot()), confirm.Settings(), email, draw, now, subject, template, params)
    {
      var code := confirm.Generate(100000, 999999, draw, now);
      if code.Raise? {
        return Raise(GenerateError(code.exc));
      }
      outbox := outbox + [Mail(email, subject, template, params + [("code", Decimal.IntToString(code.value))],
                               13, Some(KeyLifetime))];
      return Return(());
    }

    method SendVerifyCode(email: string, draw: nat, now: int) returns (r: Py<()>)
      requires Separate()
      modifies this, confirm, confirm.redis
      ensures (r, Snapshot()) == SendVerifyCodeSpec(old(Snapshot()), current, email, draw, now)
    {
      var g := Guard(current, VERIFY_EMAIL);
      if g.Raise? {
        return g;
      }
      var user := ByEmail(users, email);
      if user.None? {
        return Raise(Exc.NotFound(UserNotFound));
      }
      if user.value.state != NOT_CONFIRMED {
        return Raise(Exc.AccessDenied(AlreadyConfirmed));
      }
      confirm.SetKey("email_confirm:" + email);
      confirm.SetKeyLifetime(KeyLifetime);
      confirm.SetGenInterval(120);
      confirm.SetMaxGenAttempts(3);
      r := SendCodeStep(email, draw, now, "Подтверждение почты", "confirm_email.html", []);
    }

    method VerifyEmail(email: string, code: int, now: int) returns (r: Py<()>)
      requires Separate()
      modifies this, confirm, confirm.redis
      ensures (r, Snapshot()) == VerifyEmailSpec(old(Snapshot()), current, email, code, now)
    {
      var g := Guard(current, VERIFY_EMAIL);
      if g.Raise? {
        return g;
      }
      var user := ByEmail(users, email);
      if user.None? {
        return Raise(Exc.NotFound(UserNotFound));
      }
      if user.value.state != NOT_CONFIRMED {
        return Raise(Exc.AccessDenied(AlreadyConfirmed));
      }
      confirm.SetKey("email_confirm:" + email);
      confirm.SetMaxVerifyAttempts(3);
      confirm.SetCodeValidTime(KeyLifetime);
      var v := confirm.Verify(code, true, now);
      if v.Raise? {
        return Raise(VerifyError(v.exc));
      }
      users := UpdateState(users, user.value.id, ACTIVE);
      outbox := outbox + [Mail(email, "Подтверждение почты", "successfully_confirm_email.html",
                               [("username", user.value.username)], 13, Some(KeyLifetime))];
      return Return(());
    }

    method SendResetCode(email: string, draw: nat, now: int) returns (r: Py<()>)
      requires Separate()
      modifies this, confirm, confirm.redis
      ensures (r, Snapshot()) == SendResetCodeSpec(old(Snapshot()), current, email, draw, now)
    {
      var g := Guard(current, RESET_PASSWORD);
      if g.Raise? {
        return g;
      }
      var user := ByEmail(users, email);
      if user.None? {
        return Raise(Exc.NotFound(UserNotFound));
      }
      confirm.SetKey("password_reset:" + email);
      confirm.SetKeyLifetime(KeyLifetime);
      confirm.SetGenInterval(120);
      confirm.SetMaxGenAttempts(3);
      r := SendCodeStep(email, draw, now, "Восстановление пароля", "reset_password.html",
                        [("username", user.value.username)]);
    }

    /**
     * `reset_password` as corrected: the intended validator, and the code's
     * key deleted by a delete that is awaited (the statement `await
     * delete_key()` is meant to perform).
     */
    method ResetPassword(email: string, code: int, newPassword: string, hash: string -> string,
                         changeTime: string, now: int) returns (r: Py<()>)
      requires Separate()
      modifies this, confirm, confirm.redis
      ensures (r, Snapshot()) == ResetPasswordSpec(old(Snapshot()), current, email, code, newPassword, hash, changeTime, now)
    {
      var g := Guard(current, RESET_PASSWORD);
      if g.Raise? {
        return Raise(g.exc);
      }
      var user := ByEmail(users, email);
      if user.None? {
        return Raise(Exc.NotFound(UserNotFound));
      }
      confirm.SetKey("password_reset:" + email);
      confirm.SetMaxVerifyAttempts(3);
      confirm.SetCodeValidTime(KeyLifetime);
      var v := confirm.Verify(code, false, now);
      if v.Raise? {
        return Raise(VerifyError(v.exc));
      }
      if !PV.IsValidPassword(newPassword) {
        return Raise(BadRequest("Невалидный пароль"));
      }
      confirm.redis.Delete("password_reset:" + email);
      users := UpdateHash(users, user.value.id, hash(newPassword));
      outbox := outbox + [Mail(email, "Восстановление пароля", "successfully_reset_password.html",
                               [("username", user.value.username), ("change_time", changeTime),
                                ("ip", current.value.ip), ("email", user.value.email)], 9, None)];
      return Return(());
    }

    method Logout(sessionId: Option<string>) returns (r: Py<()>)
      requires Separate()
      modifies sessions.redis
      ensures (r, Snapshot()) == LogoutSpec(old(Snapshot()), current, sessionId)
    {
      var g := Guard(current, LOGOUT);
      if g.Raise? {
        return g;
      }
      if sessionId.Some? && sessionId.value != "" && current.value.account.Some? {
        sessions.DeleteSession(current.value.account.value.id, sessionId.value);
      }
      return Return(());
    }

    method RefreshTokens(refreshToken: Option<string>, sessionId: Option<string>,
                         decode: Option<string> -> Option<string>, mint: (UserRow, seq<string>, bool) -> string,
                         freshHex: string, now: int) returns (r: Py<Login>)
      requires Separate()
      modifies sessions.redis, reauth
      ensures (r, Snapshot()) == RefreshTokensSpec(old(Snapshot()), current, refreshToken, sessionId, decode, mint, freshHex, now)
    {
      if current.None? {
        return Raise(AttributeError);
      }
      if !current.value.isValidSession {
        return Raise(Exc.AccessDenied("Сессия недействительна"));
      }
      if !current.value.isValidRefreshToken {
        return Raise(Exc.AccessDenied("Недействительный refresh token"));
      }
      var payload := decode(refreshToken);
      if payload.None? {
        return Raise(JWTValidationError);
      }
      var found := FindUser(users, (u: UserRow) => u.id == payload.value);
      if found.None? {
        return Raise(Exc.NotFound(UserNotFound));
      }
      var user := found.value;
      if user.state == BLOCKED {
        return Raise(Exc.AccessDenied(Blocked));
      }
      if user.roleId !in roles {
        return Raise(AttributeError);
      }
      var titles := roles[user.roleId];
      var access := mint(user, titles, true);
      var refresh := mint(user, titles, false);
      var sid := sessions.SetSessionId(user.id, refresh, current.value.ip, current.value.userAgent, sessionId, freshHex, now);
      if sessionId.None? {
        return Raise(DataError);
      }
      reauth.Delete(sessionId.value);
      return Return(Login(user, titles, access, refresh, sid));
    }
  }
}
