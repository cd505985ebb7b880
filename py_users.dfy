// What the Python application services share: the user rows behind the
// user repository, the repository's lookups and updates, the current user
// the middleware put into the request, and the outgoing mail.
module PyUsers {
  import opened Common
  import opened PyCommon
  import opened SecurityFilters
  import UserDb

  /** A row of the users table, with the columns the services read or write. */
  datatype UserRow = UserRow(id: string, username: string, email: string, hashedPassword: string,
                             state: State, roleId: int)

  /** The id and state of an authenticated user; an unauthenticated one has neither. */
  datatype Account = Account(id: string, state: State)

  /** The request's user as the services see it (`_current_user`). */
  datatype Caller = Caller(held: set<Held>, account: Option<Account>, ip: string, userAgent: string,
                           isValidSession: bool, isValidRefreshToken: bool)

  /**
   * One templated mail handed to the mail sender, with its queue priority and,
   * when the caller gives one, the message's time to live in seconds.
   */
  datatype Mail = Mail(to: string, subject: string, template: string, params: seq<(string, string)>,
                       priority: nat, ttl: Option<nat>)

  /** The permissions the filters test: those of the current user, or none when there is no current user. */
  function HeldBy(current: Option<Caller>): (r: Option<set<Held>>)
    ensures r.Some? <==> current.Some?
    ensures r.Some? ==> r.value == current.value.held
  {
    match current
    case None => None
    case Some(c) => Some(c.held)
  }

  /** The state the state filter tests: None without a current user, Some(None) for an unauthenticated one. */
  function CallerState(current: Option<Caller>): (r: Option<Option<State>>)
    ensures r.Some? <==> current.Some?
    ensures r.Some? ==> (r.value.Some? <==> current.value.account.Some?)
    ensures r.Some? && r.value.Some? ==> r.value.value == current.value.account.value.state
  {
    match current
    case None => None
    case Some(c) => if c.account.None? then Some(None) else Some(Some(c.account.value.state))
  }

  /** The first row `p` accepts (`.scalars().first()`), or None when there is none. */
  function FindUser(users: seq<UserRow>, p: UserRow -> bool): (r: Option<UserRow>)
    ensures r.Some? ==> r.value in users && p(r.value)
    ensures r.None? <==> forall u :: u in users ==> !p(u)
  {
    if users == [] then None
    else if p(users[0]) then Some(users[0])
    else FindUser(users[1..], p)
  }

  /** Case-insensitive equality of two texts, as the `*_insensitive` lookups compare. */
  predicate SameFolded(a: string, b: string) { UserDb.FoldAll(a) == UserDb.FoldAll(b) }

  /** `update(id, state=s)`: every row with the id gets the state; nothing else changes. */
  function UpdateState(users: seq<UserRow>, id: string, s: State): (r: seq<UserRow>)
    ensures |r| == |users|
    ensures forall i :: 0 <= i < |r| ==> r[i] == if users[i].id == id then users[i].(state := s) else users[i]
  {
    if users == [] then []
    else [if users[0].id == id then users[0].(state := s) else users[0]] + UpdateState(users[1..], id, s)
  }

  /** `update(id, hashed_password=h)`: every row with the id gets the hash; nothing else changes. */
  function UpdateHash(users: seq<UserRow>, id: string, h: string): (r: seq<UserRow>)
    ensures |r| == |users|
    ensures forall i :: 0 <= i < |r| ==> r[i] == if users[i].id == id then users[i].(hashedPassword := h) else users[i]
  {
    if users == [] then []
    else [if users[0].id == id then users[0].(hashedPassword := h) else users[0]] + UpdateHash(users[1..], id, h)
  }

  /** `repr` of a text without quotes in it: the text between single quotes. */
  function Repr(s: string): (r: string)
    ensures |r| == |s| + 2 && r[0] == '\'' && r[|r| - 1] == '\'' && r[1..|r| - 1] == s
  {
    "'" + s + "'"
  }
}
