// The identity provider built from the gateway's headers: a session id and
// a JSON payload that, when it parses, names the user, the user's state and
// permissions. JSON decoding is a parameter.
module Header {
  import opened Common

  datatype HeaderPayload = HeaderPayload(userId: Uuid, userState: UserState, permissions: seq<string>)

  /**
   * `IdHeaderProvider`. Each accessor of the source returns one field
   * unchanged, so the fields themselves stand for the accessors.
   */
  datatype IdHeaderProvider = IdHeaderProvider(
    userId: Option<Uuid>,
    sessionId: Option<Uuid>,
    userState: Option<UserState>,
    permissions: seq<string>,
    userAgent: string,
    ip: string,
    isAuth: bool)

  /** The permissions an unauthenticated caller holds. */
  const AnonymousPermissions: seq<string> := ["CreateUser"]

  /** The payload, when one was sent and it decodes. */
  function Payload(payloadRaw: Option<string>, decode: string -> Option<HeaderPayload>): (p: Option<HeaderPayload>)
    ensures p.Some? <==> payloadRaw.Some? && decode(payloadRaw.value).Some?
    ensures p.Some? ==> p == decode(payloadRaw.value)
  {
    match payloadRaw
    case Some(raw) => decode(raw)
    case None => None
  }

  /** `IdHeaderProvider::new`. */
  function New(sessionId: Option<Uuid>, payloadRaw: Option<string>, userAgent: string, ip: string,
               decode: string -> Option<HeaderPayload>): (r: IdHeaderProvider)
    ensures r.userAgent == userAgent && r.ip == ip
    ensures r.isAuth <==> Payload(payloadRaw, decode).Some?
  {
    match Payload(payloadRaw, decode)
    case Some(p) => IdHeaderProvider(Some(p.userId), sessionId, Some(p.userState), p.permissions, userAgent, ip, true)
    case None => IdHeaderProvider(None, None, None, AnonymousPermissions, userAgent, ip, false)
  }

  /** A payload that decodes gives an authenticated identity carrying its fields and the session id. */
  lemma Authenticated(sessionId: Option<Uuid>, raw: string, userAgent: string, ip: string,
                      decode: string -> Option<HeaderPayload>)
    requires decode(raw).Some?
    ensures var r := New(sessionId, Some(raw), userAgent, ip, decode);
            var p := decode(raw).value;
            && r.isAuth && r.sessionId == sessionId
            && r.userId == Some(p.userId) && r.userState == Some(p.userState)
            && r.permissions == p.permissions
  {
  }

  /**
   * Without a payload that decodes, the identity is anonymous: no user, no
   * state, and no session even when a session id was sent; it may only
   * create a user.
   */
  lemma Anonymous(sessionId: Option<Uuid>, payloadRaw: Option<string>, userAgent: string, ip: string,
                  decode: string -> Option<HeaderPayload>)
    requires payloadRaw.None? || decode(payloadRaw.value).None?
    ensures var r := New(sessionId, payloadRaw, userAgent, ip, decode);
            && !r.isAuth && r.sessionId == None && r.userId == None && r.userState == None
            && r.permissions == ["CreateUser"]
            && r.userAgent == userAgent && r.ip == ip
  {
  }

  /** An identity has a user exactly when it is authenticated, and then it has a state too. */
  lemma AuthMeansUser(sessionId: Option<Uuid>, payloadRaw: Option<string>, userAgent: string, ip: string,
                      decode: string -> Option<HeaderPayload>)
    ensures var r := New(sessionId, payloadRaw, userAgent, ip, decode);
            && (r.isAuth <==> r.userId.Some?)
            && (r.isAuth <==> r.userState.Some?)
            && (r.sessionId.Some? ==> r.isAuth)
  {
  }
}
