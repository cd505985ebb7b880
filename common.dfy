// Types shared by the Rust half of the service: identifiers, instants,
// the user record, the access decision and the error kinds the
// interactors return.
module Common {
  datatype Option<T> = None | Some(value: T)

  /** A UUID is an opaque identifier; only equality matters. */
  type Uuid = nat

  /** An instant, in whole seconds. */
  type Time = int

  /** The Unix epoch, which is what `Default::default()` gives for a timestamp. */
  const Epoch: Time := 0

  datatype UserState = Active | Inactive | Banned | Deleted

  datatype User = User(
    id: Uuid,
    username: string,
    email: string,
    firstName: Option<string>,
    lastName: Option<string>,
    state: UserState,
    hashedPassword: string,
    createdAt: Time,
    updatedAt: Option<Time>)

  /** The user fields the interactors hand back to their callers. */
  datatype UserView = UserView(id: Uuid, username: string, email: string, state: UserState,
                               firstName: Option<string>, lastName: Option<string>)

  function View(u: User): UserView
  {
    UserView(u.id, u.username, u.email, u.state, u.firstName, u.lastName)
  }

  /** The payload of an application error: one message, or one message per field. */
  datatype ErrorContent = Message(msg: string) | Map(fields: map<string, string>)

  /**
   * The union of the error kinds the interactors use: the four declared in
   * the common exceptions module plus Forbidden and Unauthorized.
   */
  datatype ApplicationError =
    | InvalidData(content: ErrorContent)
    | NotFound(content: ErrorContent)
    | Conflict(content: ErrorContent)
    | InternalError(content: ErrorContent)
    | Forbidden(content: ErrorContent)
    | Unauthorized(content: ErrorContent)

  /** The domain error kinds the access checks report. */
  datatype DomainError = AccessDenied | AuthorizationRequired

  /** What an `ensure_can_*` access decision returned. */
  datatype Access = Granted | Refused(reason: DomainError)

  /**
   * How an interactor ends: its `Ok` value, its `Err` value, or a panic
   * (an `unwrap` on an error, or an explicit `panic!`).
   */
  datatype Outcome<T> = Ok(value: T) | Err(error: ApplicationError) | Panic

  /**
   * The display text of a domain error (`error.to_string()`). The text of
   * AuthorizationRequired is not declared in the files modelled; its
   * variant name stands for it.
   */
  function DomainMessage(e: DomainError): string
  {
    match e
    case AccessDenied => "У Вас нет доступа к этому ресурсу."
    case AuthorizationRequired => "AuthorizationRequired"
  }

  /**
   * The mapping most interactors apply to a refused access check:
   * AccessDenied is Forbidden, AuthorizationRequired is Unauthorized,
   * each carrying the error's display text.
   */
  function AccessError(e: DomainError): (r: ApplicationError)
    ensures r.Forbidden? <==> e == AccessDenied
    ensures r.Unauthorized? <==> e == AuthorizationRequired
    ensures r.content == Message(DomainMessage(e))
  {
    match e
    case AccessDenied => Forbidden(Message(DomainMessage(e)))
    case AuthorizationRequired => Unauthorized(Message(DomainMessage(e)))
  }

  /** A map with a single entry, the shape of a one-field error. */
  function Single(k: string, v: string): (m: map<string, string>)
    ensures m.Keys == {k} && m[k] == v
  {
    map[k := v]
  }
}
