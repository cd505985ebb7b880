// The HTTP middleware that decides, for each request, who is asking: it
// checks both tokens from the cookies, the session when the refresh token
// is good, and the re-authentication store, then puts an authenticated or
// an unauthenticated user into the request's scope.
module JwtMiddleware {
  import opened Common
  import opened PyCommon
  import opened RedisModel
  import SM = SessionManager

  /** The claims of a token (`TokenPayload`). */
  datatype Payload = Payload(id: string, username: string, permissions: seq<string>, state: string, exp: int)

  /** What both user kinds are built with (`extra`); the parsed user agent is kept as given. */
  datatype Extra = Extra(ip: string, userAgent: string, isValidAccessToken: bool, isValidRefreshToken: bool,
                         isValidSession: bool)

  datatype ScopeUser = Authenticated(payload: Payload, extra: Extra) | Unauthenticated(extra: Extra)

  datatype Cookies = Cookies(accessToken: Option<string>, refreshToken: Option<string>, sessionId: Option<string>)

  /**
   * `is_valid_token`: the token decodes. `decode` stands for the signature
   * and expiry check of `validate_token`; a missing token never decodes.
   */
  function IsValidToken(decode: string -> Option<Payload>, token: Option<string>): (b: bool)
    ensures b <==> token.Some? && decode(token.value).Some?
  {
    match token
    case None => false
    case Some(t) => decode(t).Some?
  }

  /** Whether the session is looked at: a good refresh token and a non-empty session id. */
  predicate ChecksSession(decode: string -> Option<Payload>, c: Cookies)
  {
    IsValidToken(decode, c.refreshToken) && c.sessionId.Some? && c.sessionId.value != ""
  }

  /** `is_valid_session`, or False when the session is not looked at. */
  function SessionFlag(decode: string -> Option<Payload>, sessions: Store, c: Cookies): Py<bool>
  {
    if ChecksSession(decode, c) then
      SM.IsValidSessionSpec(sessions, decode(c.refreshToken.value).value.id, c.sessionId.value, c.refreshToken.value)
    else Return(false)
  }

  /** The re-authentication store holds the request's refresh token under its session id. */
  predicate MarkedForReauth(reauth: Store, c: Cookies)
  {
    c.sessionId.Some? && c.refreshToken.Some? &&
    var stored := GetOp(reauth, c.sessionId.value);
    stored.Some? && stored.value != "" && stored.value == c.refreshToken.value
  }

  /**
   * The user and the credential scopes the request carries afterwards;
   * an error while reading the session propagates and nothing is set.
   */
  function DispatchSpec(decode: string -> Option<Payload>, sessions: Store, reauth: Store, c: Cookies,
                        ip: string, userAgent: string): Py<(ScopeUser, seq<string>)>
  {
    var va := IsValidToken(decode, c.accessToken);
    var vr := IsValidToken(decode, c.refreshToken);
    match SessionFlag(decode, sessions, c)
    case Raise(e) => Raise(e)
    case Return(vs) =>
      var extra := Extra(ip, userAgent, va, vr, vs);
      if va && vr && vs && !MarkedForReauth(reauth, c) then
        Return((Authenticated(decode(c.accessToken.value).value, extra), ["authenticated"]))
      else Return((Unauthenticated(extra), []))
  }

  /**
   * The user is authenticated iff the access token, the refresh token and
   * the session are all valid and the session is not marked for
   * re-authentication with this refresh token; the payload is the access token's.
   */
  lemma AuthenticatedIff(decode: string -> Option<Payload>, sessions: Store, reauth: Store, c: Cookies,
                         ip: string, userAgent: string)
    requires DispatchSpec(decode, sessions, reauth, c, ip, userAgent).Return?
    ensures var (user, scopes) := DispatchSpec(decode, sessions, reauth, c, ip, userAgent).value;
            && (user.Authenticated? <==>
                  IsValidToken(decode, c.accessToken) && IsValidToken(decode, c.refreshToken) &&
                  SessionFlag(decode, sessions, c) == Return(true) && !MarkedForReauth(reauth, c))
            && (user.Authenticated? ==> user.payload == decode(c.accessToken.value).value && scopes == ["authenticated"])
            && (user.Unauthenticated? ==> scopes == [])
  {
  }

  /** Both kinds of user carry the three flags and the client's address. */
  lemma FlagsAttached(decode: string -> Option<Payload>, sessions: Store, reauth: Store, c: Cookies,
                      ip: string, userAgent: string)
    requires DispatchSpec(decode, sessions, reauth, c, ip, userAgent).Return?
    ensures DispatchSpec(decode, sessions, reauth, c, ip, userAgent).value.0.extra ==
            Extra(ip, userAgent, IsValidToken(decode, c.accessToken), IsValidToken(decode, c.refreshToken),
                  SessionFlag(decode, sessions, c).value)
  {
  }

  /**
   * Without a good refresh token and a session id the session store is not
   * consulted: the outcome is the same whatever it holds, and unauthenticated.
   */
  lemma SessionOnlyWhenChecked(decode: string -> Option<Payload>, sessions: Store, sessions': Store, reauth: Store,
                               c: Cookies, ip: string, userAgent: string)
    requires !ChecksSession(decode, c)
    ensures DispatchSpec(decode, sessions, reauth, c, ip, userAgent) == DispatchSpec(decode, sessions', reauth, c, ip, userAgent)
    ensures DispatchSpec(decode, sessions, reauth, c, ip, userAgent).Return? &&
            DispatchSpec(decode, sessions, reauth, c, ip, userAgent).value.0.Unauthenticated?
  {
  }

  /** A session marked for re-authentication with the presented refresh token is refused, whatever else holds. */
  lemma ReauthDowngrades(decode: string -> Option<Payload>, sessions: Store, reauth: Store, c: Cookies,
                         ip: string, userAgent: string)
    requires c.sessionId.Some? && c.refreshToken.Some? && c.refreshToken.value != ""
    requires GetOp(reauth, c.sessionId.value) == Some(c.refreshToken.value)
    requires DispatchSpec(decode, sessions, reauth, c, ip, userAgent).Return?
    ensures DispatchSpec(decode, sessions, reauth, c, ip, userAgent).value.0.Unauthenticated?
  {
  }

  /** The request's scope, which the middleware fills in. */
  class Request {
    var user: Option<ScopeUser>
    var auth: seq<string>

    constructor ()
      ensures user == None && auth == []
    {
      user, auth := None, [];
    }
  }

  /** `JWTMiddlewareHTTP.dispatch` up to the call of the next handler. */
  method Dispatch(request: Request, decode: string -> Option<Payload>, session: SM.SessionManager,
                  redis: RedisClient, c: Cookies, ip: string, userAgent: string) returns (r: Py<()>)
    modifies request
    ensures var spec := DispatchSpec(decode, session.redis.db, redis.db, c, ip, userAgent);
            && (spec.Raise? ==> r == Raise(spec.exc) && request.user == old(request.user) && request.auth == old(request.auth))
            && (spec.Return? ==> r == Return(()) && request.user == Some(spec.value.0) && request.auth == spec.value.1)
  {
    var isValidAccessToken := false;
    var isValidRefreshToken := false;
    var isValidSession := false;
    var isAuth := false;

    // the tokens model is always truthy, so this block always runs
    isValidAccessToken := IsValidToken(decode, c.accessToken);
    isValidRefreshToken := IsValidToken(decode, c.refreshToken);
    if isValidRefreshToken && c.sessionId.Some? && c.sessionId.value != "" {
      var userId := decode(c.refreshToken.value).value.id;
      var valid := session.IsValidSession(userId, c.sessionId.value, c.refreshToken.value);
      if valid.Raise? {
        return Raise(valid.exc);
      }
      isValidSession := valid.value;
    }
    isAuth := isValidAccessToken && isValidRefreshToken && isValidSession;
    if isAuth {
      var oldRefToken := redis.Get(c.sessionId.value);
      if oldRefToken.Some? && oldRefToken.value != "" && oldRefToken.value == c.refreshToken.value {
        isAuth := false;
      }
    }

    var extra := Extra(ip, userAgent, isValidAccessToken, isValidRefreshToken, isValidSession);
    if isAuth {
      var payload := decode(c.accessToken.value).value;
      request.user := Some(Authenticated(payload, extra));
      request.auth := ["authenticated"];
    } else {
      request.user := Some(Unauthenticated(extra));
      request.auth := [];
    }
    return Return(());
  }
}
