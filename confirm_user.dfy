// Activating a user with an emailed code: the access decision, the email
// check (reported under the "username" key), the lookup, the state gate,
// the code check, and the user saved as Active.
module ConfirmUser {
  import opened Common
  import opened Validator
  import UserDb
  import UserService

  datatype ConfirmUserDTO = ConfirmUserDTO(email: string, code: nat)

  const UserNotFound := "Пользователь не найден"
  const AlreadyActive := "Пользователь уже активирован"
  const CannotActivate := "Невозможно активировать пользователя"

  /**
   * The outcome and the table afterwards. `confirm` is the confirm-code
   * service: None when it accepts the code for the email, else its error text.
   */
  function ConfirmSpec(access: Access, d: ConfirmUserDTO, users: seq<UserDb.UserRow>,
                       confirm: (string, nat) -> Option<string>, now: Time)
    : (Outcome<()>, seq<UserDb.UserRow>)
  {
    if access.Refused? then (Err(Forbidden(Message(DomainMessage(access.reason)))), users)
    else
      var check := ValidateEmail(d.email);
      if check.Fail? then (Err(InvalidData(Map(map["username" := check.msg]))), users)
      else
        var found := UserDb.ByEmail(users, d.email);
        if found.None? then (Err(NotFound(Message(UserNotFound))), users)
        else
          var user := found.value;
          if user.state == Active then (Err(InvalidData(Message(AlreadyActive))), users)
          else if user.state != Inactive then (Err(InvalidData(Message(CannotActivate))), users)
          else
            var refused := confirm(user.email, d.code);
            if refused.Some? then (Err(InvalidData(Message(refused.value))), users)
            else
              var u := UserService.UpdateUserWithHash(user, user.username, user.email, Active,
                                                      user.firstName, user.lastName, user.hashedPassword, now);
              (Ok(()), UserDb.Upsert(users, u))
  }

  /** Every refusal of access is Forbidden, whatever its kind, and nothing is saved. */
  lemma RefusalIsForbidden(reason: DomainError, d: ConfirmUserDTO, users: seq<UserDb.UserRow>,
                           confirm: (string, nat) -> Option<string>, now: Time)
    ensures var (out, after) := ConfirmSpec(Refused(reason), d, users, confirm, now);
            out.Err? && out.error.Forbidden? && after == users
  {
  }

  /** A malformed email is reported under the key "username", before any lookup. */
  lemma BadEmailKey(d: ConfirmUserDTO, users: seq<UserDb.UserRow>, others: seq<UserDb.UserRow>,
                    confirm: (string, nat) -> Option<string>, now: Time)
    requires ValidateEmail(d.email).Fail?
    ensures var (out, after) := ConfirmSpec(Granted, d, users, confirm, now);
            && out == Err(InvalidData(Map(map["username" := ValidateEmail(d.email).msg])))
            && after == users
            && ConfirmSpec(Granted, d, others, confirm, now).0 == out
  {
  }

  /**
   * Only an Inactive user gets as far as the code: Active users are told they
   * are already active, Banned and Deleted ones that they cannot be
   * activated, and the code is not consulted.
   */
  lemma StateGate(d: ConfirmUserDTO, users: seq<UserDb.UserRow>, confirm: (string, nat) -> Option<string>,
                  confirm2: (string, nat) -> Option<string>, now: Time)
    requires ValidateEmail(d.email).Pass? && UserDb.ByEmail(users, d.email).Some?
    requires UserDb.ByEmail(users, d.email).value.state != Inactive
    ensures var (out, after) := ConfirmSpec(Granted, d, users, confirm, now);
            && after == users
            && out == Err(InvalidData(Message(
                 if UserDb.ByEmail(users, d.email).value.state == Active then AlreadyActive else CannotActivate)))
            && ConfirmSpec(Granted, d, users, confirm2, now) == ConfirmSpec(Granted, d, users, confirm, now)
  {
  }

  /**
   * A confirmation succeeds exactly when the code is accepted for an Inactive
   * user found by email; that user is then stored Active with every other
   * field but the update time unchanged.
   */
  lemma SuccessActivates(d: ConfirmUserDTO, users: seq<UserDb.UserRow>, confirm: (string, nat) -> Option<string>, now: Time)
    requires ValidateEmail(d.email).Pass? && UserDb.ByEmail(users, d.email).Some?
    ensures var user := UserDb.ByEmail(users, d.email).value;
            var (out, after) := ConfirmSpec(Granted, d, users, confirm, now);
            && (out.Ok? <==> user.state == Inactive && confirm(user.email, d.code).None?)
            && (out.Ok? ==> UserDb.ById(after, user.id) == Some(user.(state := Active, updatedAt := Some(now))))
            && (!out.Ok? ==> after == users)
  {
    var user := UserDb.ByEmail(users, d.email).value;
    var spec := ConfirmSpec(Granted, d, users, confirm, now);
    if user.state == Inactive && confirm(user.email, d.code).None? {
      var u := UserService.UpdateUserWithHash(user, user.username, user.email, Active,
                                              user.firstName, user.lastName, user.hashedPassword, now);
      assert u == user.(state := Active, updatedAt := Some(now));
      assert spec == (Ok(()), UserDb.Upsert(users, u));
      UserDb.UpsertThenGet(users, u);
    } else {
      assert spec.0.Err? && spec.1 == users;
    }
  }

  /** `ConfirmUser::execute`. */
  method Execute(g: UserDb.UserTable, access: Access, d: ConfirmUserDTO,
                 confirm: (string, nat) -> Option<string>, now: Time) returns (r: Outcome<()>)
    modifies g
    ensures (r, g.rows) == ConfirmSpec(access, d, old(g.rows), confirm, now)
  {
    if access.Refused? {
      return Err(Forbidden(Message(DomainMessage(access.reason))));
    }
    var errs: map<string, string> := map[];
    var c := ValidateEmail(d.email);
    if c.Fail? {
      errs := errs["username" := c.msg];
      assert "username" in errs;
    }
    if errs != map[] {
      return Err(InvalidData(Map(errs)));
    }
    var found := g.GetUserByEmailNotSensitive(d.email);
    if found.None? {
      return Err(NotFound(Message(UserNotFound)));
    }
    var user := found.value;
    match user.state {
      case Active => return Err(InvalidData(Message(AlreadyActive)));
      case Inactive =>
      case _ => return Err(InvalidData(Message(CannotActivate)));
    }
    var refused := confirm(user.email, d.code);
    if refused.Some? {
      return Err(InvalidData(Message(refused.value)));
    }
    var newUser := UserService.UpdateUserWithHash(user, user.username, user.email, Active,
                                                  user.firstName, user.lastName, user.hashedPassword, now);
    g.SaveUserUpsert(newUser);
    return Ok(());
  }
}
