// Resetting a forgotten password with an emailed code: the access decision,
// validation into a map, the lookup by email, the code check, then the new
// hash is saved, every session of the user is removed and a notice is mailed.
module ResetPassword {
  import opened Common
  import opened Validator
  import UserDb
  import UserService
  import SessionService

  datatype ResetPasswordDTO = ResetPasswordDTO(email: string, newPassword: string, code: nat)

  /** The deployment's company details used in the mail. */
  datatype Extra = Extra(company: string, companyUrl: string, resetPasswordUrl: string)

  /** The effects, in the order they are issued. */
  datatype Event =
    | SaveUser(user: User)
    | RemoveUserSessions(userId: Uuid)
    | SendTemplate(to: string, subject: string, template: string, context: map<string, string>, priority: nat, ttl: nat)

  /** The stores the interactor changes and the effects so far. */
  datatype World = World(users: seq<UserDb.UserRow>, sessions: map<Uuid, SessionService.Session>, events: seq<Event>)

  const NoSuchEmail := "Пользователь таким email не существует"
  const Subject := "Сброс пароля"
  const Template := "successfully_reset_password.html"
  const MailPriority := 13
  const MailTtl := 3600

  function FieldErrors(d: ResetPasswordDTO): (m: map<string, string>)
    ensures m.Keys <= {"email", "new_password"}
    ensures "email" in m <==> ValidateEmail(d.email).Fail?
    ensures "new_password" in m <==> ValidatePassword(d.newPassword).Fail?
  {
    Note(Note(map[], "email", ValidateEmail(d.email)), "new_password", ValidatePassword(d.newPassword))
  }

  /** The template variables of the notice; `changeTime` is the formatted current time. */
  function MailContext(user: User, ip: string, changeTime: string, extra: Extra): (c: map<string, string>)
    ensures c.Keys == {"username", "ip", "change_time", "email", "company", "company_url", "reset_password_url"}
    ensures c["username"] == user.username && c["email"] == user.email && c["ip"] == ip
  {
    map["username" := user.username, "ip" := ip, "change_time" := changeTime, "email" := user.email,
        "company" := extra.company, "company_url" := extra.companyUrl, "reset_password_url" := extra.resetPasswordUrl]
  }

  /** The sessions of everyone else. */
  function WithoutUser(sessions: map<Uuid, SessionService.Session>, userId: Uuid): (m: map<Uuid, SessionService.Session>)
    ensures forall k :: k in m <==> k in sessions && sessions[k].userId != userId
    ensures forall k :: k in m ==> m[k] == sessions[k]
  {
    map k | k in sessions && sessions[k].userId != userId :: sessions[k]
  }

  /**
   * The outcome and the world afterwards. `confirm` is the confirm-code
   * service (None when it accepts) and `hash` the password hasher.
   */
  function ResetSpec(access: Access, d: ResetPasswordDTO, w: World, confirm: (string, nat) -> Option<string>,
                     hash: string -> string, ip: string, changeTime: string, extra: Extra, now: Time)
    : (Outcome<()>, World)
  {
    if access.Refused? then (Err(Forbidden(Message(DomainMessage(access.reason)))), w)
    else
      var errs := FieldErrors(d);
      if errs != map[] then (Err(InvalidData(Map(errs))), w)
      else
        var found := UserDb.ByEmail(w.users, d.email);
        if found.None? then (Err(InvalidData(Map(map["email" := NoSuchEmail]))), w)
        else
          var user := found.value;
          var refused := confirm(d.email, d.code);
          if refused.Some? then (Err(InvalidData(Message(refused.value))), w)
          else
            var u := UserService.UpdateUserWithHash(user, user.username, user.email, user.state,
                                                    user.firstName, user.lastName, hash(d.newPassword), now);
            var mail := SendTemplate(user.email, Subject, Template, MailContext(user, ip, changeTime, extra), MailPriority, MailTtl);
            (Ok(()), World(UserDb.Upsert(w.users, u), WithoutUser(w.sessions, user.id),
                           w.events + [SaveUser(u), RemoveUserSessions(user.id), mail]))
  }

  /** Any refused access is Forbidden; invalid fields give the map under "email"/"new_password"; neither changes anything. */
  lemma EarlyRefusals(access: Access, d: ResetPasswordDTO, w: World, confirm: (string, nat) -> Option<string>,
                      hash: string -> string, ip: string, changeTime: string, extra: Extra, now: Time)
    requires access.Refused? || FieldErrors(d) != map[]
    ensures var (out, w2) := ResetSpec(access, d, w, confirm, hash, ip, changeTime, extra, now);
            && w2 == w && out.Err?
            && (access.Refused? ==> out.error.Forbidden?)
            && (access.Granted? ==> out == Err(InvalidData(Map(FieldErrors(d)))))
  {
  }

  /** An unknown email and a refused code stop the reset with nothing saved, removed or sent. */
  lemma NoEffectWithoutCode(d: ResetPasswordDTO, w: World, confirm: (string, nat) -> Option<string>,
                            hash: string -> string, ip: string, changeTime: string, extra: Extra, now: Time)
    requires FieldErrors(d) == map[]
    requires UserDb.ByEmail(w.users, d.email).None? || confirm(d.email, d.code).Some?
    ensures var (out, w2) := ResetSpec(Granted, d, w, confirm, hash, ip, changeTime, extra, now);
            && w2 == w && out.Err? && out.error.InvalidData?
            && (UserDb.ByEmail(w.users, d.email).None? ==> out.error.content == Map(map["email" := NoSuchEmail]))
  {
  }

  /**
   * A successful reset stores the hash of the new password and leaves
   * username, email, state and names alone; it then drops exactly the user's
   * sessions, and mails the notice last.
   */
  lemma SuccessShape(d: ResetPasswordDTO, w: World, confirm: (string, nat) -> Option<string>,
                     hash: string -> string, ip: string, changeTime: string, extra: Extra, now: Time)
    requires ResetSpec(Granted, d, w, confirm, hash, ip, changeTime, extra, now).0.Ok?
    ensures var user := UserDb.ByEmail(w.users, d.email).value;
            var (_, w2) := ResetSpec(Granted, d, w, confirm, hash, ip, changeTime, extra, now);
            var saved := UserDb.ById(w2.users, user.id);
            && saved.Some?
            && saved.value.hashedPassword == hash(d.newPassword)
            && saved.value.username == user.username && saved.value.email == user.email
            && saved.value.state == user.state && saved.value.firstName == user.firstName
            && saved.value.lastName == user.lastName
            && (forall k :: k in w2.sessions <==> k in w.sessions && w.sessions[k].userId != user.id)
            && |w2.events| == |w.events| + 3
            && w2.events[|w.events|].SaveUser? && w2.events[|w.events| + 1] == RemoveUserSessions(user.id)
            && w2.events[|w.events| + 2].SendTemplate? && w2.events[|w.events| + 2].to == user.email
  {
    var user := UserDb.ByEmail(w.users, d.email).value;
    var u := UserService.UpdateUserWithHash(user, user.username, user.email, user.state,
                                            user.firstName, user.lastName, hash(d.newPassword), now);
    UserDb.UpsertThenGet(w.users, u);
  }

  class ResetGateways {
    var users: seq<UserDb.UserRow>
    var sessions: map<Uuid, SessionService.Session>
    var events: seq<Event>

    constructor (users0: seq<UserDb.UserRow>, sessions0: map<Uuid, SessionService.Session>)
      ensures users == users0 && sessions == sessions0 && events == []
    {
      users, sessions, events := users0, sessions0, [];
    }

    method SaveUser(u: User)
      modifies this
      ensures users == UserDb.Upsert(old(users), u) && sessions == old(sessions)
      ensures events == old(events) + [Event.SaveUser(u)]
    {
      users := UserDb.Upsert(users, u);
      events := events + [Event.SaveUser(u)];
    }

    method RemoveUserSessions(userId: Uuid)
      modifies this
      ensures sessions == WithoutUser(old(sessions), userId) && users == old(users)
      ensures events == old(events) + [Event.RemoveUserSessions(userId)]
    {
      sessions := WithoutUser(sessions, userId);
      events := events + [Event.RemoveUserSessions(userId)];
    }

    method SendTemplate(to: string, subject: string, template: string, context: map<string, string>, priority: nat, ttl: nat)
      modifies this
      ensures users == old(users) && sessions == old(sessions)
      ensures events == old(events) + [Event.SendTemplate(to, subject, template, context, priority, ttl)]
    {
      events := events + [Event.SendTemplate(to, subject, template, context, priority, ttl)];
    }
  }

  lemma ThreeAppended<T>(a: seq<T>, x: T, y: T, z: T)
    ensures a + [x] + [y] + [z] == a + [x, y, z]
  {
  }

  /** `ResetPassword::execute`. */
  method Execute(g: ResetGateways, access: Access, d: ResetPasswordDTO, confirm: (string, nat) -> Option<string>,
                 hash: string -> string, ip: string, changeTime: string, extra: Extra, now: Time)
    returns (r: Outcome<()>)
    modifies g
    ensures var (out, w2) := ResetSpec(access, d, World(old(g.users), old(g.sessions), old(g.events)),
                                       confirm, hash, ip, changeTime, extra, now);
            r == out && World(g.users, g.sessions, g.events) == w2
  {
    if access.Refused? {
      return Err(Forbidden(Message(DomainMessage(access.reason))));
    }
    ghost var w0 := World(g.users, g.sessions, g.events);
    ghost var spec := ResetSpec(access, d, w0, confirm, hash, ip, changeTime, extra, now);
    var errs: map<string, string> := map[];
    errs := InsertOnFail(errs, "email", ValidateEmail(d.email));
    errs := InsertOnFail(errs, "new_password", ValidatePassword(d.newPassword));
    assert errs == FieldErrors(d);
    if errs != map[] {
      assert spec == (Err(InvalidData(Map(errs))), w0);
      return Err(InvalidData(Map(errs)));
    }
    var found := UserDb.ByEmail(g.users, d.email);
    if found.None? {
      assert spec == (Err(InvalidData(Map(map["email" := NoSuchEmail]))), w0);
      return Err(InvalidData(Map(map["email" := NoSuchEmail])));
    }
    var user := found.value;
    var refused := confirm(d.email, d.code);
    if refused.Some? {
      assert spec == (Err(InvalidData(Message(refused.value))), w0);
      return Err(InvalidData(Message(refused.value)));
    }
    var hashed := hash(d.newPassword);
    var newUser := UserService.UpdateUserWithHash(user, user.username, user.email, user.state,
                                                  user.firstName, user.lastName, hashed, now);
    g.SaveUser(newUser);
    g.RemoveUserSessions(user.id);
    var context := MailContext(user, ip, changeTime, extra);
    g.SendTemplate(user.email, Subject, Template, context, MailPriority, MailTtl);
    assert g.users == UserDb.Upsert(w0.users, newUser) && g.sessions == WithoutUser(w0.sessions, user.id);
    ThreeAppended(w0.events, SaveUser(newUser), RemoveUserSessions(user.id),
                  Event.SendTemplate(user.email, Subject, Template, context, MailPriority, MailTtl));
    assert spec == (Ok(()), World(g.users, g.sessions, g.events));
    return Ok(());
  }
}
