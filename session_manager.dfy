// The Python service's sessions: one Redis hash per user, keyed
// "session_mapping:<user id>", whose fields are session ids and whose
// values join the refresh token, the IP, the login time and the user
// agent with ':'. Reading splits at most four times, so a ':' inside a
// field shifts or cuts what is read back.
module SessionManager {
  import opened Common
  import opened Assoc
  import opened Decimal
  import opened Text
  import opened RedisModel
  import opened PyCommon

  /** Seconds a user's session hash lives after each login: 181 days. */
  const SessionLifetime: int := 15_638_400

  function SessionKey(userId: string): string
  {
    "session_mapping:" + userId
  }

  /** What `get_data_from_session` reads back; the time stays text. */
  datatype Session = Session(refreshToken: string, ip: string, time: string, userAgent: string)

  /** What `get_user_sessions` reads back for one session; the time is read as a number. */
  datatype Listing = Listing(refreshToken: string, ip: string, time: int, userAgent: string)

  /** The stored value: the four fields joined by ':'. */
  function Render(refreshToken: string, ip: string, now: int, userAgent: string): string
  {
    refreshToken + ":" + ip + ":" + IntToString(now) + ":" + userAgent
  }

  /** `value.split(":", 4)` and its first four pieces. */
  function ParseSession(value: string): (r: Py<Session>)
    ensures r.Raise? ==> r.exc == IndexError
  {
    var data := SplitMax(value, ':', 4);
    if |data| < 4 then Raise(IndexError) else Return(Session(data[0], data[1], data[2], data[3]))
  }

  /** The same split, with the time read by `int()`; the fields are read in order. */
  function ParseListing(value: string): (r: Py<Listing>)
    ensures r.Raise? ==> r.exc == IndexError || r.exc == ValueError
  {
    var data := SplitMax(value, ':', 4);
    if |data| < 3 then Raise(IndexError)
    else
      match ParseInt(data[2])
      case None => Raise(ValueError)
      case Some(t) => if |data| < 4 then Raise(IndexError) else Return(Listing(data[0], data[1], t, data[3]))
  }

  /** The pieces of a stored value whose token, IP and user agent hold no ':'. */
  lemma SplitRendered(refreshToken: string, ip: string, now: int, userAgent: string)
    requires ':' !in refreshToken && ':' !in ip
    ensures SplitMax(Render(refreshToken, ip, now, userAgent), ':', 4)
            == [refreshToken, ip, IntToString(now)] + SplitMax(userAgent, ':', 1)
  {
    var t := IntToString(now);
    var tail2 := t + [':'] + userAgent;
    var tail1 := ip + [':'] + tail2;
    assert Render(refreshToken, ip, now, userAgent) == refreshToken + [':'] + tail1;
    SplitMaxAfterClean(refreshToken, ':', tail1, 4);
    SplitMaxAfterClean(ip, ':', tail2, 3);
    SplitMaxAfterClean(t, ':', userAgent, 2);
  }

  /**
   * Reading a stored value gives back exactly what was written (the time
   * as its decimal text) if and only if none of the token, the IP and the
   * user agent contains ':'.
   */
  lemma RoundTripIff(refreshToken: string, ip: string, now: int, userAgent: string)
    ensures ParseSession(Render(refreshToken, ip, now, userAgent))
            == Return(Session(refreshToken, ip, IntToString(now), userAgent))
            <==> ':' !in refreshToken && ':' !in ip && ':' !in userAgent
  {
    var v := Render(refreshToken, ip, now, userAgent);
    var t := IntToString(now);
    var data := SplitMax(v, ':', 4);
    if ':' in refreshToken {
      SplitMaxFirst(v, ':', 4);
      assert data[0] != refreshToken;
    } else if ':' in ip {
      var tail1 := ip + [':'] + (t + [':'] + userAgent);
      assert v == refreshToken + [':'] + tail1;
      SplitMaxAfterClean(refreshToken, ':', tail1, 4);
      SplitMaxFirst(tail1, ':', 3);
      assert data[1] == SplitMax(tail1, ':', 3)[0];
      assert data[1] != ip;
    } else {
      SplitRendered(refreshToken, ip, now, userAgent);
      SplitMaxFirst(userAgent, ':', 1);
      assert data[3] == Before(userAgent, ':');
      if ':' !in userAgent {
        SplitMaxClean(userAgent, ':', 1);
      }
    }
  }

  /** A ':' in the user agent cuts it there: only the text before it is read back. */
  lemma UserAgentColonTruncates(refreshToken: string, ip: string, now: int, before: string, after: string)
    requires ':' !in refreshToken && ':' !in ip && ':' !in before
    ensures ParseSession(Render(refreshToken, ip, now, before + ":" + after))
            == Return(Session(refreshToken, ip, IntToString(now), before))
  {
    SplitRendered(refreshToken, ip, now, before + ":" + after);
    SplitMaxAfterClean(before, ':', after, 1);
    SplitMaxZero(after, ':');
  }

  /** `get_user_sessions` on one hash: every session read into a dict keyed by its id. */
  function Listings(h: Hash): (r: Py<seq<(string, Listing)>>)
    ensures r.Return? ==> |r.value| <= |h| && DistinctKeys(r.value)
  {
    if h == [] then Return([])
    else
      match Listings(h[..|h| - 1])
      case Raise(e) => Raise(e)
      case Return(response) =>
        match ParseListing(h[|h| - 1].1)
        case Raise(e) => Raise(e)
        case Return(l) =>
          PutDistinct(response, h[|h| - 1].0, l);
          Return(Put(response, h[|h| - 1].0, l))
  }

  lemma {:induction false} ListingsRaiseExtends(h: Hash, n: nat)
    requires n <= |h| && Listings(h[..n]).Raise?
    ensures Listings(h) == Listings(h[..n])
  {
    if n < |h| {
      var p := h[..|h| - 1];
      assert p[..n] == h[..n];
      ListingsRaiseExtends(p, n);
    } else {
      assert h[..n] == h;
    }
  }

  /** With distinct session ids, each session is listed once, under its id, in hash order. */
  lemma {:induction false} ListingsOneEach(h: Hash, response: seq<(string, Listing)>)
    requires DistinctKeys(h) && Listings(h) == Return(response)
    ensures |response| == |h|
    ensures forall i :: 0 <= i < |h| ==> response[i].0 == h[i].0 && ParseListing(h[i].1) == Return(response[i].1)
  {
    if h != [] {
      var p := h[..|h| - 1];
      assert DistinctKeys(p) by {
        forall i, j | 0 <= i < j < |p| ensures p[i].0 != p[j].0 {
          assert p[i] == h[i] && p[j] == h[j];
        }
      }
      var prev: seq<(string, Listing)> :| Listings(p) == Return(prev) && ParseListing(h[|h| - 1].1).Return?
                  && response == Put(prev, h[|h| - 1].0, ParseListing(h[|h| - 1].1).value);
      ListingsOneEach(p, prev);
      assert Find(prev, h[|h| - 1].0).None? by {
        forall j | 0 <= j < |prev| ensures prev[j].0 != h[|h| - 1].0 {
          assert prev[j].0 == p[j].0 == h[j].0;
        }
      }
    }
  }

  /** `get_data_from_session`: nothing for an unknown session or an empty value. */
  function DataFromSession(db: Store, userId: string, sessionId: string): (r: Py<Option<Session>>)
    ensures Get(HashOf(db, SessionKey(userId)), sessionId).None? ==> r == Return(None)
  {
    match Get(HashOf(db, SessionKey(userId)), sessionId)
    case None => Return(None)
    case Some(data) =>
      if data == "" then Return(None)
      else
        match ParseSession(data)
        case Raise(e) => Raise(e)
        case Return(s) => Return(Some(s))
  }

  /** `is_valid_session`: a stored session whose refresh token is the one presented. */
  function IsValidSessionSpec(db: Store, userId: string, sessionId: string, refreshToken: string): Py<bool>
  {
    match DataFromSession(db, userId, sessionId)
    case Raise(e) => Raise(e)
    case Return(None) => Return(false)
    case Return(Some(s)) => Return(s.refreshToken == refreshToken)
  }

  /** `set_session_id`: the session id, and Redis afterwards. `freshHex` stands for `uuid4().hex`. */
  function SetSessionSpec(db: Store, userId: string, refreshToken: string, ip: string, userAgent: string,
                          sessionId: Option<string>, freshHex: string, now: int): (string, Store)
  {
    var sid := if sessionId.None? || sessionId.value == "" then freshHex else sessionId.value;
    var key := SessionKey(userId);
    (sid, ExpireOp(HSetOp(db, key, sid, Render(refreshToken, ip, now, userAgent)), key, SessionLifetime))
  }

  /**
   * A session id is drawn only when none (or an empty one) is given; a
   * given id is reused and its value overwritten. The user's hash then
   * holds the joined fields under that id and lives for the full
   * lifetime, and no other user's sessions change.
   */
  lemma SetSessionStores(db: Store, userId: string, refreshToken: string, ip: string, userAgent: string,
                         sessionId: Option<string>, freshHex: string, now: int)
    ensures var (sid, db') := SetSessionSpec(db, userId, refreshToken, ip, userAgent, sessionId, freshHex, now);
            var key := SessionKey(userId);
            && (sessionId.Some? && sessionId.value != "" ==> sid == sessionId.value)
            && (sessionId.None? || sessionId.value == "" ==> sid == freshHex)
            && HashOf(db', key) == Put(HashOf(db, key), sid, Render(refreshToken, ip, now, userAgent))
            && Get(HashOf(db', key), sid) == Some(Render(refreshToken, ip, now, userAgent))
            && (forall s :: s != sid ==> Get(HashOf(db', key), s) == Get(HashOf(db, key), s))
            && db'.ttls == db.ttls[key := SessionLifetime]
            && (forall k :: k != key ==> HashOf(db', k) == HashOf(db, k))
  {
    var (sid, db') := SetSessionSpec(db, userId, refreshToken, ip, userAgent, sessionId, freshHex, now);
    var key := SessionKey(userId);
    var v := Render(refreshToken, ip, now, userAgent);
    var db1 := HSetOp(db, key, sid, v);
    assert Exists(db1, key);
    PutGet(HashOf(db, key), sid, v, sid);
    forall s | s != sid ensures Get(HashOf(db', key), s) == Get(HashOf(db, key), s) {
      PutGet(HashOf(db, key), sid, v, s);
    }
  }

  /** Right after a login whose token, IP and user agent hold no ':', the session is valid for that token. */
  lemma SetThenValid(db: Store, userId: string, refreshToken: string, ip: string, userAgent: string,
                     sessionId: Option<string>, freshHex: string, now: int)
    requires ':' !in refreshToken && ':' !in ip && ':' !in userAgent
    ensures var (sid, db') := SetSessionSpec(db, userId, refreshToken, ip, userAgent, sessionId, freshHex, now);
            && DataFromSession(db', userId, sid) == Return(Some(Session(refreshToken, ip, IntToString(now), userAgent)))
            && IsValidSessionSpec(db', userId, sid, refreshToken) == Return(true)
  {
    SetSessionStores(db, userId, refreshToken, ip, userAgent, sessionId, freshHex, now);
    RoundTripIff(refreshToken, ip, now, userAgent);
    assert Render(refreshToken, ip, now, userAgent) != "";
  }

  /** `is_valid_session` is true exactly when a session is stored and its token is the one presented. */
  lemma IsValidIff(db: Store, userId: string, sessionId: string, refreshToken: string)
    ensures IsValidSessionSpec(db, userId, sessionId, refreshToken) == Return(true) <==>
              DataFromSession(db, userId, sessionId).Return? && DataFromSession(db, userId, sessionId).value.Some?
              && DataFromSession(db, userId, sessionId).value.value.refreshToken == refreshToken
    ensures Get(HashOf(db, SessionKey(userId)), sessionId).None? ==>
              IsValidSessionSpec(db, userId, sessionId, refreshToken) == Return(false)
  {
  }

  /** `delete_session` on the contents `db`: the field goes if it is there. */
  function DeleteSessionSpec(db: Store, userId: string, sessionId: string): Store
  {
    var key := SessionKey(userId);
    if Find(HashOf(db, key), sessionId).Some? then HDelOp(db, key, sessionId) else db
  }

  /** Deleting a session removes that session only: the user's other sessions and other users' remain. */
  lemma DeleteOnlyThatSession(db: Store, userId: string, sessionId: string)
    ensures var db' := DeleteSessionSpec(db, userId, sessionId);
            var key := SessionKey(userId);
            && Get(HashOf(db', key), sessionId).None?
            && (forall s :: s != sessionId ==> Get(HashOf(db', key), s) == Get(HashOf(db, key), s))
            && (forall k :: k != key ==> HashOf(db', k) == HashOf(db, k))
  {
    var key := SessionKey(userId);
    RemoveGet(HashOf(db, key), sessionId, sessionId);
    forall s | s != sessionId
      ensures Get(HashOf(DeleteSessionSpec(db, userId, sessionId), key), s) == Get(HashOf(db, key), s)
    {
      RemoveGet(HashOf(db, key), sessionId, s);
    }
  }

  /** `SessionManager`, over the Redis connection it was built with. */
  class SessionManager {
    const redis: RedisClient

    constructor (redis: RedisClient)
      ensures this.redis == redis
    {
      this.redis := redis;
    }

    method SetSessionId(userId: string, refreshToken: string, ip: string, userAgent: string,
                        sessionId: Option<string>, freshHex: string, now: int) returns (sid: string)
      modifies redis
      ensures (sid, redis.db) == SetSessionSpec(old(redis.db), userId, refreshToken, ip, userAgent, sessionId, freshHex, now)
    {
      if sessionId.None? || sessionId.value == "" {
        sid := freshHex;
      } else {
        sid := sessionId.value;
      }
      var data := Render(refreshToken, ip, now, userAgent);
      redis.HSet(SessionKey(userId), sid, data);
      redis.Expire(SessionKey(userId), SessionLifetime);
    }

    /** `get_user_sessions`: each stored session read into a dict keyed by session id. */
    method GetUserSessions(userId: string) returns (r: Py<seq<(string, Listing)>>)
      ensures r == Listings(redis.HGetAll(SessionKey(userId)))
    {
      var records := redis.HGetAll(SessionKey(userId));
      var response: seq<(string, Listing)> := [];
      var i := 0;
      while i < |records|
        invariant 0 <= i <= |records|
        invariant Listings(records[..i]) == Return(response)
      {
        assert records[..i + 1][..i] == records[..i];
        var item := ParseListing(records[i].1);
        if item.Raise? {
          ListingsRaiseExtends(records, i + 1);
          return Raise(item.exc);
        }
        response := Put(response, records[i].0, item.value);
        i := i + 1;
      }
      assert records[..i] == records;
      return Return(response);
    }

    method DeleteSession(userId: string, sessionId: string)
      modifies redis
      ensures redis.db == DeleteSessionSpec(old(redis.db), userId, sessionId)
    {
      if redis.HExists(SessionKey(userId), sessionId) {
        redis.HDel(SessionKey(userId), sessionId);
      }
    }

    method GetDataFromSession(userId: string, sessionId: string) returns (r: Py<Option<Session>>)
      ensures r == DataFromSession(redis.db, userId, sessionId)
    {
      var data := redis.HGet(SessionKey(userId), sessionId);
      if data.None? || data.value == "" {
        return Return(None);
      }
      var s := ParseSession(data.value);
      if s.Raise? {
        return Raise(s.exc);
      }
      return Return(Some(s.value));
    }

    method IsValidSession(userId: string, sessionId: string, refreshToken: string) returns (r: Py<bool>)
      ensures r == IsValidSessionSpec(redis.db, userId, sessionId, refreshToken)
    {
      var data := GetDataFromSession(userId, sessionId);
      if data.Raise? {
        return Raise(data.exc);
      }
      if data.value.None? {
        return Return(false);
      }
      if data.value.value.refreshToken != refreshToken {
        return Return(false);
      }
      return Return(true);
    }
  }
}
