// The Python user service: an administrator's update of a user, a user's
// own password change and self-deletion, and the listing and closing of a
// user's own sessions. Closing a session, or changing a user's role or
// state, puts the session's refresh token into the re-authentication
// store, which the middleware reads to force a new login.
module UserAppService {
  import opened Common
  import opened Assoc
  import opened PyCommon
  import opened RedisModel
  import opened PermissionTags
  import opened SecurityFilters
  import opened PyUsers
  import Decimal
  import SM = SessionManager
  import PV = PyValidators

  /** Everything the service reads or writes. */
  datatype World = World(users: seq<UserRow>, roleIds: set<int>, outbox: seq<Mail>, sessionDb: Store, reauthDb: Store)

  /** The fields an administrator's update sets (`exclude_unset`); None is a field left unset. */
  datatype Patch = Patch(username: Option<string>, email: Option<string>, roleId: Option<int>, state: Option<State>)

  /** A session as `get_my_sessions` returns it. */
  datatype SessionView = SessionView(id: string, ip: string, time: int, userAgent: string)

  /** The permission filter for one tag, then the state filter admitting only ACTIVE users. */
  function Guard(current: Option<Caller>, tag: Permission): (r: Py<()>)
    ensures r.Return? ==> current.Some? && current.value.account.Some? && current.value.account.value.state == ACTIVE
  {
    var p := PermissionFilter([Single(tag)], HeldBy(current));
    if p.Raise? then p else StateFilter([ACTIVE], CallerState(current))
  }

  /** `update(id, **fields)`: every row with the id takes the fields that are set. */
  function ApplyPatch(users: seq<UserRow>, id: string, p: Patch): (r: seq<UserRow>)
    ensures |r| == |users|
    ensures forall i :: 0 <= i < |r| ==> r[i] == if users[i].id == id then Patched(users[i], p) else users[i]
  {
    if users == [] then [] else [if users[0].id == id then Patched(users[0], p) else users[0]] + ApplyPatch(users[1..], id, p)
  }

  function Patched(u: UserRow, p: Patch): UserRow
  {
    u.(username := if p.username.Some? then p.username.value else u.username,
       email := if p.email.Some? then p.email.value else u.email,
       roleId := if p.roleId.Some? then p.roleId.value else u.roleId,
       state := if p.state.Some? then p.state.value else u.state)
  }

  /** `set(session_id, refresh_token, expire=...)` in the re-authentication store for each listed session, in order. */
  function Kick(db: Store, sessions: seq<(string, SM.Listing)>, expire: int): Store
    decreases |sessions|
  {
    if sessions == [] then db
    else Kick(ExpireOp(SetOp(db, sessions[0].0, sessions[0].1.refreshToken), sessions[0].0, expire), sessions[1..], expire)
  }

  /**
   * With a positive lifetime, every listed session id ends up mapped to its
   * refresh token, and every other key keeps what it held.
   */
  lemma {:induction false} KickedAll(db: Store, sessions: seq<(string, SM.Listing)>, expire: int)
    requires expire > 0 && DistinctKeys(sessions)
    decreases |sessions|
    ensures forall i :: 0 <= i < |sessions| ==> GetOp(Kick(db, sessions, expire), sessions[i].0) == Some(sessions[i].1.refreshToken)
    ensures forall k :: (forall i :: 0 <= i < |sessions| ==> sessions[i].0 != k) ==> GetOp(Kick(db, sessions, expire), k) == GetOp(db, k)
  {
    if sessions != [] {
      var (k0, l0) := sessions[0];
      var db1 := ExpireOp(SetOp(db, k0, l0.refreshToken), k0, expire);
      assert db1.strings == db.strings[k0 := l0.refreshToken];
      var rest := sessions[1..];
      assert DistinctKeys(rest) by {
        forall i, j | 0 <= i < j < |rest| ensures rest[i].0 != rest[j].0 {
          assert rest[i] == sessions[i + 1] && rest[j] == sessions[j + 1];
        }
      }
      KickedAll(db1, rest, expire);
      forall i | 0 <= i < |rest| ensures rest[i].0 != k0 {
        assert rest[i] == sessions[i + 1];
      }
      forall k | forall i :: 0 <= i < |sessions| ==> sessions[i].0 != k
        ensures GetOp(Kick(db, sessions, expire), k) == GetOp(db, k)
      {
        assert sessions[0].0 != k;
        forall i | 0 <= i < |rest| ensures rest[i].0 != k {
          assert rest[i] == sessions[i + 1];
        }
      }
      forall i | 0 <= i < |sessions| ensures GetOp(Kick(db, sessions, expire), sessions[i].0) == Some(sessions[i].1.refreshToken) {
        if i > 0 {
          assert sessions[i] == rest[i - 1];
        }
      }
    }
  }

  /** The Python runtime, which decides what `asyncio.gather` makes of a bare generator. */
  datatype Runtime = UpTo311 | From312

  /**
   * `asyncio.gather(<generator>)`, one generator passed without `*`. From
   * 3.12 a generator is not awaitable and gather raises TypeError. Before,
   * it is run as a task, and the first coroutine the generator yields fails
   * that task with RuntimeError ("Task got bad yield"); only a generator
   * with nothing to yield finishes. No `set` is ever awaited.
   */
  function GatherGenerator(rt: Runtime, sessions: seq<(string, SM.Listing)>): (r: Py<()>)
    ensures r.Return? <==> rt == UpTo311 && |sessions| == 0
    ensures rt == From312 ==> r == Raise(TypeError)
  {
    match rt
    case From312 => Raise(TypeError)
    case UpTo311 => if |sessions| == 0 then Return(()) else Raise(RuntimeError)
  }

  function NoUser(userId: string): string
  {
    "Пользователь с id:" + userId + " не найден!"
  }

  /**
   * `update_user` with the two tests it makes written as parameters: the
   * role id it looks up (`roleCheck`), and whether the user's sessions are
   * sent to the re-authentication store (`kick`), and how the `set` calls
   * reach `asyncio.gather`: `bare` is the runtime when they are passed as
   * one generator, as written, and None when they are spread with `*`. An
   * unknown user, then an unknown role, is NotFound; the sessions are kicked
   * before the row is updated, and a failing gather stops the update.
   */
  function UpdateUserWith(w: World, current: Option<Caller>, userId: string, patch: Patch, expire: int,
                          roleCheck: Option<int>, kick: bool, bare: Option<Runtime>): (Py<()>, World)
  {
    var g := Guard(current, UPDATE_USER);
    if g.Raise? then (g, w)
    else if FindUser(w.users, (u: UserRow) => u.id == userId).None? then (Raise(Exc.NotFound(NoUser(userId))), w)
    else if roleCheck.Some? && roleCheck.value !in w.roleIds then
      (Raise(Exc.NotFound("Роль с id:" + Decimal.IntToString(roleCheck.value) + " не найдена!")), w)
    else if !kick then (Return(()), w.(users := ApplyPatch(w.users, userId, patch)))
    else
      match SM.Listings(HashOf(w.sessionDb, SM.SessionKey(userId)))
      case Raise(e) => (Raise(e), w)
      case Return(sessions) =>
        if bare.Some? then
          var g := GatherGenerator(bare.value, sessions);
          if g.Raise? then (g, w) else (Return(()), w.(users := ApplyPatch(w.users, userId, patch)))
        else
          (Return(()), w.(reauthDb := Kick(w.reauthDb, sessions, expire), users := ApplyPatch(w.users, userId, patch)))
  }

  /** Python truth of `data.role_id`: unset and 0 are both false. */
  predicate RoleTruthy(p: Patch) { p.roleId.Some? && p.roleId.value != 0 }

  /** Python truth of `data.state`, an `int` enum: unset and NOT_CONFIRMED (0) are both false. */
  predicate StateTruthy(p: Patch) { p.state.Some? && StateValue(p.state.value) != 0 }

  /** `update_user` as written on the given runtime: the two fields tested by truth value, the generator passed bare. */
  function UpdateUserAsWrittenSpec(w: World, current: Option<Caller>, userId: string, patch: Patch, expire: int,
                                   rt: Runtime): (Py<()>, World)
  {
    UpdateUserWith(w, current, userId, patch, expire,
                   if RoleTruthy(patch) then patch.roleId else None, StateTruthy(patch) || RoleTruthy(patch), Some(rt))
  }

  /**
   * As written, moving a user back to NOT_CONFIRMED leaves every session of
   * the user out of the re-authentication store, so they stay logged in.
   */
  lemma UnconfirmKeepsSessions(w: World, current: Option<Caller>, userId: string, expire: int, rt: Runtime)
    requires Guard(current, UPDATE_USER).Return?
    requires FindUser(w.users, (u: UserRow) => u.id == userId).Some?
    ensures var (r, w') := UpdateUserAsWrittenSpec(w, current, userId, Patch(None, None, None, Some(NOT_CONFIRMED)), expire, rt);
            && r == Return(())
            && w'.reauthDb == w.reauthDb
            && w'.users == ApplyPatch(w.users, userId, Patch(None, None, None, Some(NOT_CONFIRMED)))
  {
  }

  /**
   * As written, whenever the sessions are to be kicked, none is: from 3.12
   * the call raises TypeError, and before it raises RuntimeError as soon as
   * the user has a session. The patch is then never applied; it is applied,
   * with nothing kicked, only before 3.12 and for a user without sessions.
   */
  lemma GatherNeverKicks(w: World, current: Option<Caller>, userId: string, patch: Patch, expire: int, rt: Runtime)
    requires StateTruthy(patch) || RoleTruthy(patch)
    ensures var (r, w') := UpdateUserAsWrittenSpec(w, current, userId, patch, expire, rt);
            && w'.reauthDb == w.reauthDb
            && (r.Raise? ==> w' == w)
            && (r.Return? ==> rt == UpTo311 && SM.Listings(HashOf(w.sessionDb, SM.SessionKey(userId))).Return?
                              && |SM.Listings(HashOf(w.sessionDb, SM.SessionKey(userId))).value| == 0
                              && w' == w.(users := ApplyPatch(w.users, userId, patch)))
            && (Guard(current, UPDATE_USER).Return? && (exists u :: u in w.users && u.id == userId)
                && (RoleTruthy(patch) ==> patch.roleId.value in w.roleIds)
                && SM.Listings(HashOf(w.sessionDb, SM.SessionKey(userId))).Return?
                && (rt == From312 || |SM.Listings(HashOf(w.sessionDb, SM.SessionKey(userId))).value| > 0) ==>
                  r.Raise? && (r.exc == TypeError || r.exc == RuntimeError))
  {
  }

  /**
   * `update_user` testing whether the fields are set, which the role and
   * state checks evidently mean, and spreading the `set` calls into gather.
   */
  function UpdateUserSpec(w: World, current: Option<Caller>, userId: string, patch: Patch, expire: int): (Py<()>, World)
  {
    UpdateUserWith(w, current, userId, patch, expire, patch.roleId, patch.state.Some? || patch.roleId.Some?, None)
  }

  /**
   * An unknown user, or a given role id that is not in the table, is
   * NotFound and changes nothing; changing the role or the state first puts
   * every listed session of the user into the re-authentication store,
   * whatever value is given.
   */
  lemma UpdateUserOutcomes(w: World, current: Option<Caller>, userId: string, patch: Patch, expire: int)
    requires Guard(current, UPDATE_USER).Return?
    ensures var (r, w') := UpdateUserSpec(w, current, userId, patch, expire);
            && ((forall u :: u in w.users ==> u.id != userId) ==> r == Raise(Exc.NotFound(NoUser(userId))) && w' == w)
            && (r.Return? ==> (exists u :: u in w.users && u.id == userId)
                              && (patch.roleId.Some? ==> patch.roleId.value in w.roleIds)
                              && w'.users == ApplyPatch(w.users, userId, patch))
            && (r.Return? && (patch.roleId.Some? || patch.state.Some?) && expire > 0 ==>
                  var sessions := SM.Listings(HashOf(w.sessionDb, SM.SessionKey(userId))).value;
                  forall i :: 0 <= i < |sessions| ==> GetOp(w'.reauthDb, sessions[i].0) == Some(sessions[i].1.refreshToken))
  {
    var (r, w') := UpdateUserSpec(w, current, userId, patch, expire);
    var found := FindUser(w.users, (u: UserRow) => u.id == userId);
    if r.Return? && (patch.roleId.Some? || patch.state.Some?) && expire > 0 {
      var sessions := SM.Listings(HashOf(w.sessionDb, SM.SessionKey(userId))).value;
      KickedAll(w.reauthDb, sessions, expire);
    }
    if r.Return? {
      assert found.Some?;
      assert found.value in w.users && found.value.id == userId;
    }
  }

  /**
   * `update_password`: refused, in this order, when the new password equals
   * the old one, when the old one does not match the stored hash, and when
   * the new one is not a valid password; otherwise the hash is replaced and
   * a notice is mailed.
   */
  function UpdatePasswordSpec(w: World, current: Option<Caller>, oldPassword: string, newPassword: string,
                              verify: (string, string) -> bool, hash: string -> string, changeTime: string): (Py<()>, World)
  {
    var g := Guard(current, UPDATE_SELF);
    if g.Raise? then (g, w)
    else if oldPassword == newPassword then (Raise(BadRequest("Новый пароль не должен совпадать со старым!")), w)
    else
      var id := current.value.account.value.id;
      match FindUser(w.users, (u: UserRow) => u.id == id)
      case None => (Raise(AttributeError), w)
      case Some(user) =>
        if !verify(oldPassword, user.hashedPassword) then (Raise(BadRequest("Неверный пользовательский пароль!")), w)
        else if !PV.IsValidPassword(newPassword) then (Raise(BadRequest("Неверный формат пароля!")), w)
        else
          (Return(()), w.(users := UpdateHash(w.users, id, hash(newPassword)),
                          outbox := w.outbox + [Mail(user.email, "Пароль MilkHunters изменен", "successfully_reset_password.html",
                                                     [("username", user.username), ("change_time", changeTime),
                                                      ("ip", current.value.ip), ("email", user.email)], 9, None)]))
  }

  /** Every refusal changes nothing; a change needs a different, valid new password and the right old one. */
  lemma UpdatePasswordOrder(w: World, current: Option<Caller>, oldPassword: string, newPassword: string,
                            verify: (string, string) -> bool, hash: string -> string, changeTime: string)
    ensures var (r, w') := UpdatePasswordSpec(w, current, oldPassword, newPassword, verify, hash, changeTime);
            && (r.Raise? ==> w' == w)
            && (Guard(current, UPDATE_SELF).Return? && oldPassword == newPassword ==>
                  r == Raise(BadRequest("Новый пароль не должен совпадать со старым!")))
            && (r.Return? ==>
                  var id := current.value.account.value.id;
                  var user := FindUser(w.users, (u: UserRow) => u.id == id).value;
                  && oldPassword != newPassword && verify(oldPassword, user.hashedPassword)
                  && PV.IsValidPassword(newPassword)
                  && w'.users == UpdateHash(w.users, id, hash(newPassword)))
    ensures Guard(current, UPDATE_SELF).Return? && oldPassword != newPassword ==>
              var (r, w') := UpdatePasswordSpec(w, current, oldPassword, newPassword, verify, hash, changeTime);
              var id := current.value.account.value.id;
              var found := FindUser(w.users, (u: UserRow) => u.id == id);
              found.Some? ==>
              && (!verify(oldPassword, found.value.hashedPassword) ==>
                    r == Raise(BadRequest("Неверный пользовательский пароль!")))
              && (verify(oldPassword, found.value.hashedPassword) && !PV.IsValidPassword(newPassword) ==>
                    r == Raise(BadRequest("Неверный формат пароля!")))
              && (verify(oldPassword, found.value.hashedPassword) && PV.IsValidPassword(newPassword) ==>
                    r == Return(()) && w'.users == UpdateHash(w.users, id, hash(newPassword)))
  {
  }

  /** `delete_me`: a wrong password is refused; otherwise the user's state becomes DELETED. */
  function DeleteMeSpec(w: World, current: Option<Caller>, password: string, verify: (string, string) -> bool): (Py<()>, World)
  {
    var g := Guard(current, DELETE_SELF);
    if g.Raise? then (g, w)
    else
      var id := current.value.account.value.id;
      match FindUser(w.users, (u: UserRow) => u.id == id)
      case None => (Raise(AttributeError), w)
      case Some(user) =>
        if !verify(password, user.hashedPassword) then (Raise(BadRequest("Неверный пароль!")), w)
        else (Return(()), w.(users := UpdateState(w.users, id, DELETED)))
  }

  lemma DeleteMeOnlyState(w: World, current: Option<Caller>, password: string, verify: (string, string) -> bool)
    requires Guard(current, DELETE_SELF).Return?
    ensures var (r, w') := DeleteMeSpec(w, current, password, verify);
            var id := current.value.account.value.id;
            && (r.Raise? ==> w' == w)
            && (FindUser(w.users, (u: UserRow) => u.id == id).Some? ==>
                  (r.Return? <==> verify(password, FindUser(w.users, (u: UserRow) => u.id == id).value.hashedPassword)))
            && (r.Return? ==> w' == w.(users := UpdateState(w.users, id, DELETED)))
            && (r.Return? ==> forall i :: 0 <= i < |w.users| ==>
                  w'.users[i] == if w.users[i].id == id then w.users[i].(state := DELETED) else w.users[i])
  {
  }

  function Views(sessions: seq<(string, SM.Listing)>): (r: seq<SessionView>)
    ensures |r| == |sessions|
    ensures forall i :: 0 <= i < |r| ==>
              r[i] == SessionView(sessions[i].0, sessions[i].1.ip, sessions[i].1.time, sessions[i].1.userAgent)
  {
    if sessions == [] then []
    else [SessionView(sessions[0].0, sessions[0].1.ip, sessions[0].1.time, sessions[0].1.userAgent)] + Views(sessions[1..])
  }

  /** `get_my_sessions`: the caller's sessions, read from the session store. */
  function GetMySessionsSpec(w: World, current: Option<Caller>): Py<seq<SessionView>>
  {
    var g := Guard(current, GET_SELF_SESSIONS);
    if g.Raise? then Raise(g.exc)
    else
      match SM.Listings(HashOf(w.sessionDb, SM.SessionKey(current.value.account.value.id)))
      case Raise(e) => Raise(e)
      case Return(sessions) => Return(Views(sessions))
  }

  /** One entry per stored session, in hash order, with its id, ip, time and user agent. */
  lemma MySessionsOneEach(w: World, current: Option<Caller>)
    requires GetMySessionsSpec(w, current).Return?
    requires DistinctKeys(HashOf(w.sessionDb, SM.SessionKey(current.value.account.value.id)))
    ensures var h := HashOf(w.sessionDb, SM.SessionKey(current.value.account.value.id));
            var r := GetMySessionsSpec(w, current).value;
            && |r| == |h|
            && forall i :: 0 <= i < |h| ==>
                 && SM.ParseListing(h[i].1).Return?
                 && var l := SM.ParseListing(h[i].1).value;
                    r[i] == SessionView(h[i].0, l.ip, l.time, l.userAgent)
  {
    var h := HashOf(w.sessionDb, SM.SessionKey(current.value.account.value.id));
    SM.ListingsOneEach(h, SM.Listings(h).value);
  }

  /**
   * `delete_my_session`: the session is read, then deleted, then its refresh
   * token is stored under its id for re-authentication; an unknown session
   * is deleted as a no-op and then fails reading the token from None.
   */
  function DeleteMySessionSpec(w: World, current: Option<Caller>, sessionId: string, expire: int): (Py<()>, World)
  {
    var g := Guard(current, DELETE_SELF_SESSION);
    if g.Raise? then (g, w)
    else
      var id := current.value.account.value.id;
      match SM.DataFromSession(w.sessionDb, id, sessionId)
      case Raise(e) => (Raise(e), w)
      case Return(data) =>
        var w1 := w.(sessionDb := SM.DeleteSessionSpec(w.sessionDb, id, sessionId));
        if data.None? then (Raise(TypeError), w1)
        else (Return(()), w1.(reauthDb := ExpireOp(SetOp(w.reauthDb, sessionId, data.value.refreshToken), sessionId, expire)))
  }

  /** A closed session is gone from the session store and its refresh token is waiting in the re-authentication store. */
  lemma DeleteMySessionKicks(w: World, current: Option<Caller>, sessionId: string, expire: int)
    requires DeleteMySessionSpec(w, current, sessionId, expire).0.Return? && expire > 0
    ensures var w' := DeleteMySessionSpec(w, current, sessionId, expire).1;
            var id := current.value.account.value.id;
            var data := SM.DataFromSession(w.sessionDb, id, sessionId).value.value;
            && Get(HashOf(w'.sessionDb, SM.SessionKey(id)), sessionId).None?
            && GetOp(w'.reauthDb, sessionId) == Some(data.refreshToken)
            && w'.users == w.users
  {
    var id := current.value.account.value.id;
    var data := SM.DataFromSession(w.sessionDb, id, sessionId).value.value;
    SM.DeleteOnlyThatSession(w.sessionDb, id, sessionId);
    var db1 := SetOp(w.reauthDb, sessionId, data.refreshToken);
    assert db1.strings == w.reauthDb.strings[sessionId := data.refreshToken];
  }

  /** The user service with the stores behind its repositories and clients. */
  class UserApplicationService {
    const current: Option<Caller>
    var users: seq<UserRow>
    const roleIds: set<int>
    var outbox: seq<Mail>
    const sessions: SM.SessionManager
    const reauth: RedisClient
    /** The access token lifetime in seconds, the re-authentication entries' lifetime. */
    const accessExpire: int

    /** The session store and the re-authentication store are different connections. */
    predicate Separate()
    {
      sessions.redis != reauth
    }

    function Snapshot(): World
      reads this, sessions.redis, reauth
    {
      World(users, roleIds, outbox, sessions.redis.db, reauth.db)
    }

    constructor (current: Option<Caller>, users: seq<UserRow>, roleIds: set<int>, sessions: SM.SessionManager,
                 reauth: RedisClient, accessExpire: int)
      ensures this.current == current && this.users == users && this.roleIds == roleIds && this.outbox == []
      ensures this.sessions == sessions && this.reauth == reauth && this.accessExpire == accessExpire
    {
      this.current, this.users, this.roleIds, this.outbox := current, users, roleIds, [];
      this.sessions, this.reauth, this.accessExpire := sessions, reauth, accessExpire;
    }

    /** `update_user` as corrected: the set-or-not tests, and the `set` calls spread into gather. */
    method UpdateUser(userId: string, patch: Patch) returns (r: Py<()>)
      requires Separate()
      modifies this, reauth
      ensures (r, Snapshot()) == UpdateUserSpec(old(Snapshot()), current, userId, patch, accessExpire)
    {
      var g := Guard(current, UPDATE_USER);
      if g.Raise? {
        return g;
      }
      if FindUser(users, (u: UserRow) => u.id == userId).None? {
        return Raise(Exc.NotFound(NoUser(userId)));
      }
      if patch.roleId.Some? && patch.roleId.value !in roleIds {
        return Raise(Exc.NotFound("Роль с id:" + Decimal.IntToString(patch.roleId.value) + " не найдена!"));
      }
      if patch.state.Some? || patch.roleId.Some? {
        var listed := sessions.GetUserSessions(userId);
        if listed.Raise? {
          return Raise(listed.exc);
        }
        var list := listed.value;
        ghost var db0 := reauth.db;
        var i := 0;
        while i < |list|
          invariant 0 <= i <= |list|
          invariant Kick(reauth.db, list[i..], accessExpire) == Kick(db0, list, accessExpire)
          invariant users == old(users) && outbox == old(outbox) && sessions.redis.db == old(sessions.redis.db)
        {
          assert list[i..][1..] == list[i + 1..];
          reauth.Set(list[i].0, list[i].1.refreshToken, accessExpire);
          i := i + 1;
        }
      }
      users := ApplyPatch(users, userId, patch);
      return Return(());
    }

    method UpdatePassword(oldPassword: string, newPassword: string, verify: (string, string) -> bool,
                          hash: string -> string, changeTime: string) returns (r: Py<()>)
      modifies this
      ensures (r, Snapshot()) == UpdatePasswordSpec(old(Snapshot()), current, oldPassword, newPassword, verify, hash, changeTime)
    {
      var g := Guard(current, UPDATE_SELF);
      if g.Raise? {
        return g;
      }
      if oldPassword == newPassword {
        return Raise(BadRequest("Новый пароль не должен совпадать со старым!"));
      }
      var id := current.value.account.value.id;
      var user := FindUser(users, (u: UserRow) => u.id == id);
      if user.None? {
        return Raise(AttributeError);
      }
      if !verify(oldPassword, user.value.hashedPassword) {
        return Raise(BadRequest("Неверный пользовательский пароль!"));
      }
      if !PV.IsValidPassword(newPassword) {
        return Raise(BadRequest("Неверный формат пароля!"));
      }
      users := UpdateHash(users, id, hash(newPassword));
      outbox := outbox + [Mail(user.value.email, "Пароль MilkHunters изменен", "successfully_reset_password.html",
                               [("username", user.value.username), ("change_time", changeTime),
                                ("ip", current.value.ip), ("email", user.value.email)], 9, None)];
      return Return(());
    }

    method DeleteMe(password: string, verify: (string, string) -> bool) returns (r: Py<()>)
      modifies this
      ensures (r, Snapshot()) == DeleteMeSpec(old(Snapshot()), current, password, verify)
    {
      var g := Guard(current, DELETE_SELF);
      if g.Raise? {
        return g;
      }
      var id := current.value.account.value.id;
      var user := FindUser(users, (u: UserRow) => u.id == id);
      if user.None? {
        return Raise(AttributeError);
      }
      if !verify(password, user.value.hashedPassword) {
        return Raise(BadRequest("Неверный пароль!"));
      }
      users := UpdateState(users, id, DELETED);
      return Return(());
    }

    method GetMySessions() returns (r: Py<seq<SessionView>>)
      ensures r == GetMySessionsSpec(Snapshot(), current)
    {
      var g := Guard(current, GET_SELF_SESSIONS);
      if g.Raise? {
        return Raise(g.exc);
      }
      var listed := sessions.GetUserSessions(current.value.account.value.id);
      if listed.Raise? {
        return Raise(listed.exc);
      }
      return Return(Views(listed.value));
    }

    method DeleteMySession(sessionId: string) returns (r: Py<()>)
      requires Separate()
      modifies sessions.redis, reauth
      ensures (r, Snapshot()) == DeleteMySessionSpec(old(Snapshot()), current, sessionId, accessExpire)
    {
      var g := Guard(current, DELETE_SELF_SESSION);
      if g.Raise? {
        return g;
      }
      var id := current.value.account.value.id;
      var data := sessions.GetDataFromSession(id, sessionId);
      if data.Raise? {
        return Raise(data.exc);
      }
      sessions.DeleteSession(id, sessionId);
      if data.value.None? {
        return Raise(TypeError);
      }
      reauth.Set(sessionId, data.value.value.refreshToken, accessExpire);
      return Return(());
    }
  }
}
