// Token introspection: resolve a presented session token to its user,
// cache first, then the store, renewing the session when it came from the
// store or has expired, and refusing a client whose user agent differs.
module ExtractPayload {
  import opened Common
  import opened SessionService

  type Hash = string
  type RoleId = Uuid

  /** What a session lookup yields: the session, its user's state and the user's roles with their permission text ids. */
  datatype Bundle = Bundle(session: Session, userState: UserState, roles: seq<(RoleId, seq<string>)>)

  datatype EPResult = EPResult(userId: Uuid, userState: UserState, roles: seq<(RoleId, seq<string>)>)

  /** The gateway writes, in the order they are issued. */
  datatype Write = SaveSession(session: Session) | SaveToCache(bundle: Bundle)

  const TokenNotSet := "Токен не установлен"
  const TokenNotFound := "Токен не найден"
  const FingerprintMismatch := "Отпечаток сессии не совпадает с клиентским"

  /** The request's fixed inputs: the configured lifetime, the clock and the client's address and agent. */
  datatype Context = Context(sessionExpire: U32, now: Time, ip: string, userAgent: string)

  /** Where a lookup was answered. */
  datatype Found = FromCache(b: Bundle) | FromStore(b: Bundle) | Missing

  // ---- reference definition ------------------------------------------------

  /** The cache-aside lookup: the cache, and the store only on a cache miss. */
  function Lookup(cache: map<Hash, Bundle>, store: map<Hash, Bundle>, h: Hash): Found
  {
    if h in cache then FromCache(cache[h])
    else if h in store then FromStore(store[h])
    else Missing
  }

  /**
   * What introspection should do: the outcome and the writes it issues.
   * `check` is the token validator (None when the token is well formed)
   * and `hash` the session hasher.
   */
  function Introspect(cache: map<Hash, Bundle>, store: map<Hash, Bundle>, token: Option<string>,
                      check: string -> Option<string>, hash: string -> Hash, ctx: Context)
    : (Outcome<EPResult>, seq<Write>)
  {
    if token.None? then (Err(Unauthorized(Message(TokenNotSet))), [])
    else if check(token.value).Some? then (Err(InvalidData(Message(check(token.value).value))), [])
    else
      var found := Lookup(cache, store, hash(token.value));
      if found.Missing? then (Err(Unauthorized(Message(TokenNotFound))), [])
      else
        var b := found.b;
        if !VerifySession(b.session, ctx.userAgent) then (Err(Unauthorized(Message(FingerprintMismatch))), [])
        else
          var renew := found.FromStore? || IsSessionExpired(ctx.sessionExpire, b.session, ctx.now);
          var s := if renew then UpdateSession(b.session, ctx.ip, ctx.userAgent, ctx.now) else b.session;
          var writes := if renew then [SaveSession(s), SaveToCache(Bundle(s, b.userState, b.roles))] else [];
          (Ok(EPResult(s.userId, b.userState, b.roles)), writes)
  }

  /** The effect of the writes on the store and the cache, both keyed by token hash. */
  function StoreStep(store: map<Hash, Bundle>, w: Write): map<Hash, Bundle>
  {
    match w
    case SaveSession(s) =>
      if s.tokenHash in store then store[s.tokenHash := store[s.tokenHash].(session := s)] else store
    case SaveToCache(_) => store
  }

  function CacheStep(cache: map<Hash, Bundle>, w: Write): map<Hash, Bundle>
  {
    match w
    case SaveSession(_) => cache
    case SaveToCache(b) => cache[b.session.tokenHash := b]
  }

  function ApplyStore(store: map<Hash, Bundle>, ws: seq<Write>): map<Hash, Bundle>
    decreases |ws|
  {
    if ws == [] then store else ApplyStore(StoreStep(store, ws[0]), ws[1..])
  }

  function ApplyCache(cache: map<Hash, Bundle>, ws: seq<Write>): map<Hash, Bundle>
    decreases |ws|
  {
    if ws == [] then cache else ApplyCache(CacheStep(cache, ws[0]), ws[1..])
  }

  // ---- properties of the reference definition ------------------------------

  /** A missing or malformed token is refused before any lookup: the outcome does not depend on the cache or the store. */
  lemma TokenCheckedFirst(cache: map<Hash, Bundle>, store: map<Hash, Bundle>, cache2: map<Hash, Bundle>, store2: map<Hash, Bundle>,
                          token: Option<string>, check: string -> Option<string>, hash: string -> Hash, ctx: Context)
    requires token.None? || check(token.value).Some?
    ensures Introspect(cache, store, token, check, hash, ctx) == Introspect(cache2, store2, token, check, hash, ctx)
    ensures Introspect(cache, store, token, check, hash, ctx).1 == []
    ensures token.None? ==> Introspect(cache, store, token, check, hash, ctx).0 == Err(Unauthorized(Message(TokenNotSet)))
    ensures token.Some? ==> (Introspect(cache, store, token, check, hash, ctx).0.Err?
                             && Introspect(cache, store, token, check, hash, ctx).0.error.InvalidData?)
  {
  }

  /** On a cache hit the store is not consulted: its contents do not matter. */
  lemma CacheHitIgnoresStore(cache: map<Hash, Bundle>, store: map<Hash, Bundle>, store2: map<Hash, Bundle>,
                             t: string, check: string -> Option<string>, hash: string -> Hash, ctx: Context)
    requires check(t).None? && hash(t) in cache
    ensures Introspect(cache, store, Some(t), check, hash, ctx) == Introspect(cache, store2, Some(t), check, hash, ctx)
  {
  }

  /** A hash known to neither the cache nor the store is "token not found", with no write. */
  lemma UnknownToken(cache: map<Hash, Bundle>, store: map<Hash, Bundle>,
                     t: string, check: string -> Option<string>, hash: string -> Hash, ctx: Context)
    requires check(t).None?
    ensures (hash(t) !in cache && hash(t) !in store)
        <==> Introspect(cache, store, Some(t), check, hash, ctx) == (Err(Unauthorized(Message(TokenNotFound))), [])
  {
  }

  /** A fingerprint mismatch is refused with no write, whether or not a renewal was due. */
  lemma MismatchWritesNothing(cache: map<Hash, Bundle>, store: map<Hash, Bundle>,
                              t: string, check: string -> Option<string>, hash: string -> Hash, ctx: Context)
    requires check(t).None?
    requires var f := Lookup(cache, store, hash(t)); !f.Missing? && f.b.session.userAgent != ctx.userAgent
    ensures Introspect(cache, store, Some(t), check, hash, ctx) == (Err(Unauthorized(Message(FingerprintMismatch))), [])
  {
  }

  /**
   * A successful introspection writes exactly when the session came from the
   * store or has expired (so an expired session is renewed, never refused);
   * the renewed session goes to the store first and then, with the same user
   * state and roles, to the cache. The result's user comes from the session,
   * its state and roles unchanged from the lookup.
   */
  lemma SuccessShape(cache: map<Hash, Bundle>, store: map<Hash, Bundle>,
                     t: string, check: string -> Option<string>, hash: string -> Hash, ctx: Context)
    requires check(t).None?
    requires var f := Lookup(cache, store, hash(t)); !f.Missing? && f.b.session.userAgent == ctx.userAgent
    ensures var f := Lookup(cache, store, hash(t));
            var (out, ws) := Introspect(cache, store, Some(t), check, hash, ctx);
            var renew := f.FromStore? || IsSessionExpired(ctx.sessionExpire, f.b.session, ctx.now);
            && out == Ok(EPResult(f.b.session.userId, f.b.userState, f.b.roles))
            && (renew <==> ws != [])
            && (renew ==> (|ws| == 2 && ws[0].SaveSession? && ws[1].SaveToCache?
                           && ws[1].bundle == Bundle(ws[0].session, f.b.userState, f.b.roles)
                           && ws[0].session == UpdateSession(f.b.session, ctx.ip, ctx.userAgent, ctx.now)))
  {
  }

  /** After a renewal the stored user agent is still the old one: verification had already forced them equal. */
  lemma RenewalKeepsUserAgent(cache: map<Hash, Bundle>, store: map<Hash, Bundle>,
                              t: string, check: string -> Option<string>, hash: string -> Hash, ctx: Context)
    requires check(t).None?
    requires var (out, ws) := Introspect(cache, store, Some(t), check, hash, ctx); out.Ok? && ws != []
    ensures var (_, ws) := Introspect(cache, store, Some(t), check, hash, ctx);
            var f := Lookup(cache, store, hash(t));
            ws[0].session.userAgent == f.b.session.userAgent
            && ws[0].session.id == f.b.session.id && ws[0].session.tokenHash == f.b.session.tokenHash
  {
  }

  // ---- the interactor -------------------------------------------------------

  /** The session gateway: the cache, the store (both keyed by token hash) and the writes issued so far. */
  class SessionGateway {
    var cache: map<Hash, Bundle>
    var store: map<Hash, Bundle>
    var writes: seq<Write>

    constructor (cache0: map<Hash, Bundle>, store0: map<Hash, Bundle>)
      ensures cache == cache0 && store == store0 && writes == []
    {
      cache, store, writes := cache0, store0, [];
    }

    function GetFromCache(h: Hash): (r: Option<Bundle>)
      reads this
      ensures r.Some? <==> h in cache
      ensures r.Some? ==> r.value == cache[h]
    {
      if h in cache then Some(cache[h]) else None
    }

    function GetFromStore(h: Hash): (r: Option<Bundle>)
      reads this
      ensures r.Some? <==> h in store
      ensures r.Some? ==> r.value == store[h]
    {
      if h in store then Some(store[h]) else None
    }

    method SaveSession(s: Session)
      modifies this
      ensures store == StoreStep(old(store), Write.SaveSession(s))
      ensures cache == old(cache) && writes == old(writes) + [Write.SaveSession(s)]
    {
      if s.tokenHash in store {
        store := store[s.tokenHash := store[s.tokenHash].(session := s)];
      }
      writes := writes + [Write.SaveSession(s)];
    }

    method SaveToCache(s: Session, userState: UserState, roles: seq<(RoleId, seq<string>)>)
      modifies this
      ensures cache == old(cache)[s.tokenHash := Bundle(s, userState, roles)]
      ensures store == old(store) && writes == old(writes) + [Write.SaveToCache(Bundle(s, userState, roles))]
    {
      cache := cache[s.tokenHash := Bundle(s, userState, roles)];
      writes := writes + [Write.SaveToCache(Bundle(s, userState, roles))];
    }
  }

  /** `EPSession::execute`, step by step with its `need_update` flag. */
  method Execute(g: SessionGateway, token: Option<string>, check: string -> Option<string>, hash: string -> Hash, ctx: Context)
    returns (r: Outcome<EPResult>)
    modifies g
    ensures var (out, ws) := Introspect(old(g.cache), old(g.store), token, check, hash, ctx);
            && r == out
            && g.writes == old(g.writes) + ws
            && g.store == ApplyStore(old(g.store), ws)
            && g.cache == ApplyCache(old(g.cache), ws)
  {
    if token.None? {
      return Err(Unauthorized(Message(TokenNotSet)));
    }
    var err := check(token.value);
    if err.Some? {
      return Err(InvalidData(Message(err.value)));
    }
    var h := hash(token.value);

    var needUpdate := false;
    var b: Bundle;
    var cached := g.GetFromCache(h);
    if cached.Some? {
      b := cached.value;
    } else {
      var stored := g.GetFromStore(h);
      if stored.None? {
        return Err(Unauthorized(Message(TokenNotFound)));
      }
      needUpdate := true;
      b := stored.value;
    }
    var session := b.session;

    if IsSessionExpired(ctx.sessionExpire, session, ctx.now) {
      needUpdate := true;
    }

    if !VerifySession(session, ctx.userAgent) {
      return Err(Unauthorized(Message(FingerprintMismatch)));
    }

    if needUpdate {
      session := UpdateSession(session, ctx.ip, ctx.userAgent, ctx.now);
      g.SaveSession(session);
      g.SaveToCache(session, b.userState, b.roles);
      ghost var ws := [Write.SaveSession(session), Write.SaveToCache(Bundle(session, b.userState, b.roles))];
      assert ws[1..] == [ws[1]] && ws[1..][1..] == [];
      assert ApplyStore(old(g.store), ws) == ApplyStore(StoreStep(StoreStep(old(g.store), ws[0]), ws[1]), []);
      assert ApplyCache(old(g.cache), ws) == ApplyCache(CacheStep(CacheStep(old(g.cache), ws[0]), ws[1]), []);
    }
    return Ok(EPResult(session.userId, b.userState, b.roles));
  }
}
