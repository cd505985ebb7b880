// Login: the access check, credential validation, the user lookup, the
// password check and the state gate, then a new session and an access log.
// Every attempt that reaches a known user leaves exactly one access log.
module Login {
  import opened Common
  import opened Validator
  import UserDb
  import SessionService

  /** Where the request comes from, as the identity provider reports it. */
  datatype ClientInfo = ClientInfo(ip: string, client: string, os: string, device: string)

  /** The session record this interactor saves. */
  datatype LoginSession = LoginSession(
    id: Uuid, tokenHash: string, userId: Uuid,
    ip: string, client: string, os: string, device: string,
    createdAt: Time, updatedAt: Option<Time>)

  datatype AccessLog = AccessLog(
    id: Uuid, userId: Uuid, isSuccess: bool,
    ip: string, client: string, os: string, device: string,
    createdAt: Time)

  /** Gateway writes in the order they are issued. */
  datatype Write = SaveSession(session: LoginSession) | SaveLog(log: AccessLog)

  /** The values the interactor draws from its environment: the clock, fresh ids and 64 random bytes. */
  datatype Env = Env(info: ClientInfo, now: Time, sessionId: Uuid, logId: Uuid, random: seq<SessionService.Byte>)

  const WrongPair := "Неверная пара имя пользователя и пароль"
  const ConfirmEmailFirst := "Сначала подтвердите свой email"

  function NewLog(userId: Uuid, success: bool, env: Env): AccessLog
  {
    AccessLog(env.logId, userId, success, env.info.ip, env.info.client, env.info.os, env.info.device, env.now)
  }

  function NewSession(tokenHash: string, userId: Uuid, env: Env): LoginSession
  {
    LoginSession(env.sessionId, tokenHash, userId, env.info.ip, env.info.client, env.info.os, env.info.device, env.now, None)
  }

  /** The errors of the username and password checks, keyed by field. */
  function CredentialErrors(username: string, password: string): (m: map<string, string>)
    ensures m.Keys <= {"username", "password"}
    ensures "username" in m <==> ValidateUsername(username).Fail?
    ensures "password" in m <==> ValidatePassword(password).Fail?
    ensures "username" in m ==> m["username"] == ValidateUsername(username).msg
    ensures "password" in m ==> m["password"] == ValidatePassword(password).msg
  {
    var u := ValidateUsername(username);
    var p := ValidatePassword(password);
    var m1: map<string, string> := if u.Fail? then map["username" := u.msg] else map[];
    if p.Fail? then m1["password" := p.msg] else m1
  }

  /**
   * The whole login: the outcome (the user and the raw token) and the writes.
   * `verify` is the password hasher's check and `sessionHash` the session hasher.
   */
  function LoginSpec(access: Access, username: string, password: string, users: seq<UserDb.UserRow>,
                     verify: (string, string) -> bool, sessionHash: string -> string, env: Env)
    : (Outcome<(UserView, string)>, seq<Write>)
    requires |env.random| == 64
  {
    if access.Refused? then
      (if access.reason.AccessDenied? then Err(AccessError(access.reason)) else Panic, [])
    else
      var errs := CredentialErrors(username, password);
      if errs != map[] then (Err(InvalidData(Map(errs))), [])
      else
        var found := UserDb.ByUsername(users, username);
        if found.None? then (Err(InvalidData(Message(WrongPair))), [])
        else
          var user := found.value;
          if !verify(password, user.hashedPassword) then
            (Err(InvalidData(Message(WrongPair))), [SaveLog(NewLog(user.id, false, env))])
          else if user.state == Inactive then
            (Err(InvalidData(Message(ConfirmEmailFirst))), [SaveLog(NewLog(user.id, false, env))])
          else
            var token := SessionService.CreateSessionToken(env.random);
            (Ok((View(user), token)),
             [SaveSession(NewSession(sessionHash(token), user.id, env)), SaveLog(NewLog(user.id, true, env))])
  }

  // ---- properties ----------------------------------------------------------

  /** A refused access check stops everything: Forbidden for AccessDenied, a panic otherwise, and no write. */
  lemma AccessCheckedFirst(access: Access, username: string, password: string, users: seq<UserDb.UserRow>,
                           verify: (string, string) -> bool, sessionHash: string -> string, env: Env)
    requires |env.random| == 64 && access.Refused?
    ensures LoginSpec(access, username, password, users, verify, sessionHash, env).1 == []
    ensures access.reason.AccessDenied? <==>
            LoginSpec(access, username, password, users, verify, sessionHash, env).0 == Err(Forbidden(Message(DomainMessage(AccessDenied))))
    ensures access.reason.AuthorizationRequired? <==> LoginSpec(access, username, password, users, verify, sessionHash, env).0.Panic?
  {
  }

  /**
   * The outcome is a field-keyed error map exactly when access was granted and
   * a credential check failed; the map is that of both checks and nothing is
   * looked up or written, so the user table does not matter.
   */
  lemma InvalidCredentials(access: Access, username: string, password: string, users: seq<UserDb.UserRow>,
                           others: seq<UserDb.UserRow>, verify: (string, string) -> bool, sessionHash: string -> string, env: Env)
    requires |env.random| == 64
    ensures (exists m :: LoginSpec(access, username, password, users, verify, sessionHash, env).0 == Err(InvalidData(Map(m))))
        <==> access.Granted? && CredentialErrors(username, password) != map[]
    ensures access.Granted? && CredentialErrors(username, password) != map[] ==>
            LoginSpec(access, username, password, users, verify, sessionHash, env)
            == (Err(InvalidData(Map(CredentialErrors(username, password)))), [])
            == LoginSpec(access, username, password, others, verify, sessionHash, env)
  {
    if access.Granted? && CredentialErrors(username, password) != map[] {
      assert LoginSpec(access, username, password, users, verify, sessionHash, env).0
          == Err(InvalidData(Map(CredentialErrors(username, password))));
    }
  }

  /** An unknown username is refused with the generic message and no access log. */
  lemma UnknownUserNoLog(username: string, password: string, users: seq<UserDb.UserRow>,
                         verify: (string, string) -> bool, sessionHash: string -> string, env: Env)
    requires |env.random| == 64 && CredentialErrors(username, password) == map[]
    requires forall i :: 0 <= i < |users| ==> !UserDb.ILike(users[i].username, username)
    ensures LoginSpec(Granted, username, password, users, verify, sessionHash, env) == (Err(InvalidData(Message(WrongPair))), [])
  {
  }

  /**
   * Once a user is found there is exactly one access log, and it is the last
   * write. It records success exactly when the login succeeds, which is
   * exactly when a session is saved. A wrong password and an Inactive user
   * fail; Banned and Deleted users are not refused here.
   */
  lemma OneLogPerAttempt(username: string, password: string, users: seq<UserDb.UserRow>,
                         verify: (string, string) -> bool, sessionHash: string -> string, env: Env)
    requires |env.random| == 64 && CredentialErrors(username, password) == map[]
    requires UserDb.ByUsername(users, username).Some?
    ensures var user := UserDb.ByUsername(users, username).value;
            var (out, ws) := LoginSpec(Granted, username, password, users, verify, sessionHash, env);
            && |ws| >= 1 && ws[|ws| - 1] == SaveLog(NewLog(user.id, out.Ok?, env))
            && (forall k :: 0 <= k < |ws| - 1 ==> ws[k].SaveSession?)
            && (out.Ok? <==> |ws| == 2)
            && (out.Ok? <==> verify(password, user.hashedPassword) && user.state != Inactive)
  {
  }

  /**
   * On success the session, holding the hash of the token, is saved before the
   * log; the token returned is the raw one: 128 lower-case hex characters.
   */
  lemma SuccessShape(username: string, password: string, users: seq<UserDb.UserRow>,
                     verify: (string, string) -> bool, sessionHash: string -> string, env: Env)
    requires |env.random| == 64
    requires LoginSpec(Granted, username, password, users, verify, sessionHash, env).0.Ok?
    ensures var (out, ws) := LoginSpec(Granted, username, password, users, verify, sessionHash, env);
            var token := out.value.1;
            var user := UserDb.ByUsername(users, username).value;
            && token == SessionService.CreateSessionToken(env.random)
            && |token| == 128 && (forall k :: 0 <= k < |token| ==> SessionService.IsLowerHex(token[k]))
            && ws == [SaveSession(NewSession(sessionHash(token), user.id, env)), SaveLog(NewLog(user.id, true, env))]
            && out.value.0 == View(user)
            && UserDb.ILike(user.username, username)
  {
  }

  // ---- the interactor -------------------------------------------------------

  /** The stores the login touches: the user table (read only) and the writes issued so far. */
  class LoginGateways {
    var users: seq<UserDb.UserRow>
    var writes: seq<Write>

    constructor (users0: seq<UserDb.UserRow>)
      ensures users == users0 && writes == []
    {
      users, writes := users0, [];
    }

    method SaveSession(s: LoginSession)
      modifies this
      ensures users == old(users) && writes == old(writes) + [Write.SaveSession(s)]
    {
      writes := writes + [Write.SaveSession(s)];
    }

    method SaveRec(log: AccessLog)
      modifies this
      ensures users == old(users) && writes == old(writes) + [SaveLog(log)]
    {
      writes := writes + [SaveLog(log)];
    }
  }

  /** `CreateSession::execute`, with its error map filled in place and the log's flag flipped before it is saved. */
  method Execute(g: LoginGateways, access: Access, username: string, password: string,
                 verify: (string, string) -> bool, sessionHash: string -> string, env: Env)
    returns (r: Outcome<(UserView, string)>)
    requires |env.random| == 64
    modifies g
    ensures var (out, ws) := LoginSpec(access, username, password, old(g.users), verify, sessionHash, env);
            r == out && g.writes == old(g.writes) + ws && g.users == old(g.users)
  {
    if access.Refused? {
      if access.reason.AccessDenied? {
        return Err(Forbidden(Message(DomainMessage(access.reason))));
      }
      return Panic;
    }

    var errs: map<string, string> := map[];
    var u := ValidateUsername(username);
    if u.Fail? {
      errs := errs["username" := u.msg];
    }
    var p := ValidatePassword(password);
    if p.Fail? {
      errs := errs["password" := p.msg];
    }
    if errs != map[] {
      return Err(InvalidData(Map(errs)));
    }

    var found := UserDb.ByUsername(g.users, username);
    if found.None? {
      return Err(InvalidData(Message(WrongPair)));
    }
    var user := found.value;

    var log := NewLog(user.id, false, env);
    if !verify(password, user.hashedPassword) {
      g.SaveRec(log);
      return Err(InvalidData(Message(WrongPair)));
    }
    if user.state == Inactive {
      g.SaveRec(log);
      return Err(InvalidData(Message(ConfirmEmailFirst)));
    }

    var token := SessionService.CreateSessionToken(env.random);
    var session := NewSession(sessionHash(token), user.id, env);
    g.SaveSession(session);
    log := log.(isSuccess := true);
    g.SaveRec(log);
    return Ok((View(user), token));
  }
}
