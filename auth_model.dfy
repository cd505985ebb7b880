// The request's user as the older Python service builds it: an
// authenticated user out of a token payload, or an unauthenticated guest,
// both carrying the middleware's validity flags.
module AuthModel {
  import opened Common
  import opened PyCommon

  /** The keyword arguments both constructors read with `kwargs.get`; a missing one is None. */
  datatype Extra = Extra(ip: Option<string>, isValidAccessToken: Option<bool>,
                         isValidRefreshToken: Option<bool>, isValidSession: Option<bool>)

  datatype BaseUser =
    | AuthenticatedUser(uid: Uuid, name: string, tags: seq<string>, stateId: int, exp: int, extra: Extra)
    | UnauthenticatedUser(expOrNone: Option<int>, extra: Extra)

  /**
   * `AuthenticatedUser(id, ...)`: the id text goes through `uuid.UUID`, which
   * raises ValueError on a malformed id; `parseUuid` stands for that parser.
   */
  function NewAuthenticatedUser(parseUuid: string -> Option<Uuid>, id: string, username: string,
                                access: seq<string>, stateId: int, exp: int, extra: Extra): (r: Py<BaseUser>)
    ensures parseUuid(id).None? <==> r == Raise(ValueError)
    ensures parseUuid(id).Some? ==> r == Return(AuthenticatedUser(parseUuid(id).value, username, access, stateId, exp, extra))
  {
    match parseUuid(id)
    case None => Raise(ValueError)
    case Some(u) => Return(AuthenticatedUser(u, username, access, stateId, exp, extra))
  }

  function IsAuthenticated(u: BaseUser): (b: bool)
    ensures b <==> u.AuthenticatedUser?
  {
    u.AuthenticatedUser?
  }

  function Id(u: BaseUser): (r: Option<Uuid>)
    ensures r.None? <==> u.UnauthenticatedUser?
  {
    if u.AuthenticatedUser? then Some(u.uid) else None
  }

  /**
   * The `username` property as written: it reads `self.username`, which is
   * the property itself, so an authenticated user's username recurses until
   * the interpreter's recursion limit, `depth` calls away, raises.
   */
  function UsernameAsWritten(u: BaseUser, depth: nat): Py<Option<string>>
    decreases depth
  {
    if u.UnauthenticatedUser? then Return(None)
    else if depth == 0 then Raise(RecursionError)
    else UsernameAsWritten(u, depth - 1)
  }

  /** Whatever the recursion limit, an authenticated user's username as written raises RecursionError. */
  lemma {:induction false} UsernameAsWrittenRaises(u: BaseUser, depth: nat)
    requires u.AuthenticatedUser?
    ensures UsernameAsWritten(u, depth) == Raise(RecursionError)
    decreases depth
  {
    if depth > 0 {
      UsernameAsWrittenRaises(u, depth - 1);
    }
  }

  /** The `username` property reading the stored `_username`, as the constructor's field is evidently meant to be read. */
  function Username(u: BaseUser): (r: Option<string>)
    ensures r.None? <==> u.UnauthenticatedUser?
    ensures u.AuthenticatedUser? ==> r == Some(u.name)
  {
    if u.AuthenticatedUser? then Some(u.name) else None
  }

  /** `display_name` as written: the username for an authenticated user, so it raises too; "Guest" otherwise. */
  function DisplayNameAsWritten(u: BaseUser, depth: nat): (r: Py<Option<string>>)
    ensures u.UnauthenticatedUser? ==> r == Return(Some("Guest"))
    ensures u.AuthenticatedUser? ==> r == Raise(RecursionError)
  {
    if u.UnauthenticatedUser? then Return(Some("Guest"))
    else
      UsernameAsWrittenRaises(u, depth);
      UsernameAsWritten(u, depth)
  }

  /** `display_name` over the corrected username. */
  function DisplayName(u: BaseUser): (r: string)
    ensures u.AuthenticatedUser? ==> Some(r) == Username(u)
    ensures u.UnauthenticatedUser? ==> r == "Guest"
  {
    if u.AuthenticatedUser? then u.name else "Guest"
  }

  /** The tags an unauthenticated user holds; their string values are not part of this model. */
  datatype AccessTag =
    | CAN_AUTHENTICATE | CAN_CREATE_USER | CAN_SEND_VERIFY_CODE | CAN_VERIFY_EMAIL
    | CAN_RESET_PASSWORD | CAN_CONFIRM_RESET_PASSWORD | CAN_REFRESH_TOKENS | CAN_GET_USER

  const GuestTags: seq<AccessTag> := [CAN_AUTHENTICATE, CAN_CREATE_USER, CAN_SEND_VERIFY_CODE, CAN_VERIFY_EMAIL,
                                      CAN_RESET_PASSWORD, CAN_CONFIRM_RESET_PASSWORD, CAN_REFRESH_TOKENS, CAN_GET_USER]

  lemma GuestTagListed(g: AccessTag)
    ensures g in GuestTags
  {
    match g
    case CAN_AUTHENTICATE => assert GuestTags[0] == g;
    case CAN_CREATE_USER => assert GuestTags[1] == g;
    case CAN_SEND_VERIFY_CODE => assert GuestTags[2] == g;
    case CAN_VERIFY_EMAIL => assert GuestTags[3] == g;
    case CAN_RESET_PASSWORD => assert GuestTags[4] == g;
    case CAN_CONFIRM_RESET_PASSWORD => assert GuestTags[5] == g;
    case CAN_REFRESH_TOKENS => assert GuestTags[6] == g;
    case CAN_GET_USER => assert GuestTags[7] == g;
  }

  /**
   * The `access` property: the set of the payload's list for an
   * authenticated user, and for a guest exactly the values of the eight
   * fixed tags (`tagValue` gives each tag's value).
   */
  function Access(u: BaseUser, tagValue: AccessTag -> string): (r: set<string>)
    ensures u.AuthenticatedUser? ==> forall t :: t in r <==> t in u.tags
    ensures u.UnauthenticatedUser? ==> forall t :: t in r <==> exists g: AccessTag :: tagValue(g) == t
  {
    if u.AuthenticatedUser? then set t | t in u.tags
    else
      assert forall g: AccessTag :: g in GuestTags by {
        forall g: AccessTag ensures g in GuestTags { GuestTagListed(g); }
      }
      set g | g in GuestTags :: tagValue(g)
  }

  /** The `state` property: `UserState(state_id)` for an authenticated user, which raises on an unknown id; None for a guest. */
  function StateProp(u: BaseUser): (r: Py<Option<State>>)
    ensures u.UnauthenticatedUser? ==> r == Return(None)
    ensures u.AuthenticatedUser? ==> (r.Return? <==> 0 <= u.stateId <= 3)
    ensures u.AuthenticatedUser? && r.Return? ==> r.value.Some? && StateValue(r.value.value) == u.stateId
  {
    if u.UnauthenticatedUser? then Return(None)
    else match StateOf(u.stateId)
         case Return(s) => Return(Some(s))
         case Raise(e) => Raise(e)
  }

  function AccessExp(u: BaseUser): Option<int>
  {
    if u.AuthenticatedUser? then Some(u.exp) else u.expOrNone
  }

  /** `__eq__`: two authenticated users are equal iff their ids are; any two guests are equal. */
  predicate Equal(u: BaseUser, v: BaseUser)
  {
    if u.AuthenticatedUser? then v.AuthenticatedUser? && u.uid == v.uid else v.UnauthenticatedUser?
  }

  /** `__hash__` of an authenticated user: the hash of its id (`hashId`). */
  function Hash(u: BaseUser, hashId: Uuid -> int): int
    requires u.AuthenticatedUser?
  {
    hashId(u.uid)
  }

  /** Equality is an equivalence, and equal authenticated users hash alike. */
  lemma EqualityAndHash(u: BaseUser, v: BaseUser, w: BaseUser, hashId: Uuid -> int)
    ensures Equal(u, u)
    ensures Equal(u, v) ==> Equal(v, u)
    ensures Equal(u, v) && Equal(v, w) ==> Equal(u, w)
    ensures u.AuthenticatedUser? && Equal(u, v) ==> Hash(u, hashId) == Hash(v, hashId)
    ensures u.AuthenticatedUser? && v.AuthenticatedUser? ==> (Equal(u, v) <==> Id(u) == Id(v))
  {
  }

  /** What an unauthenticated user reports: no id, no username, no state, not authenticated. */
  lemma GuestHasNothing(u: BaseUser)
    requires u.UnauthenticatedUser?
    ensures Id(u).None? && Username(u).None? && StateProp(u) == Return(None) && !IsAuthenticated(u)
    ensures forall d: nat :: UsernameAsWritten(u, d) == Return(None)
  {
  }
}
