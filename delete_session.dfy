// Deleting a session: the opaque access decision, then a guarded removal
// from the session store.
module DeleteSession {
  import opened Common
  import SessionService

  type SessionId = Uuid

  const SessionNotFound := "Сессия не найдена"

  /** The outcome and the store afterwards. */
  function DeleteSpec(access: Access, store: map<SessionId, SessionService.Session>, id: SessionId)
    : (Outcome<()>, map<SessionId, SessionService.Session>)
  {
    if access.Refused? then (Err(AccessError(access.reason)), store)
    else if id !in store then (Err(InvalidData(Message(SessionNotFound))), store)
    else (Ok(()), store - {id})
  }

  /** A refusal maps AccessDenied to Forbidden and AuthorizationRequired to Unauthorized, and removes nothing. */
  lemma RefusalRemovesNothing(reason: DomainError, store: map<SessionId, SessionService.Session>, id: SessionId)
    ensures var (out, after) := DeleteSpec(Refused(reason), store, id);
            && after == store
            && out.Err?
            && (out.error.Forbidden? <==> reason == AccessDenied)
            && (out.error.Unauthorized? <==> reason == AuthorizationRequired)
  {
  }

  /**
   * With access granted, the call succeeds exactly when the id is stored; it
   * then removes that one session and leaves every other one as it was.
   */
  lemma GrantedDelete(store: map<SessionId, SessionService.Session>, id: SessionId)
    ensures var (out, after) := DeleteSpec(Granted, store, id);
            && (out.Ok? <==> id in store)
            && (out.Err? ==> out == Err(InvalidData(Message(SessionNotFound))) && after == store)
            && id !in after
            && (forall k :: k != id ==> (k in after <==> k in store))
            && (forall k :: k in after ==> after[k] == store[k])
  {
  }

  /** The session store, and the ids removed so far. */
  class SessionStore {
    var sessions: map<SessionId, SessionService.Session>
    var removed: seq<SessionId>

    constructor (sessions0: map<SessionId, SessionService.Session>)
      ensures sessions == sessions0 && removed == []
    {
      sessions, removed := sessions0, [];
    }

    function GetSession(id: SessionId): (r: Option<SessionService.Session>)
      reads this
      ensures r.Some? <==> id in sessions
      ensures r.Some? ==> r.value == sessions[id]
    {
      if id in sessions then Some(sessions[id]) else None
    }

    method RemoveSession(id: SessionId)
      modifies this
      ensures sessions == old(sessions) - {id} && removed == old(removed) + [id]
    {
      sessions := sessions - {id};
      removed := removed + [id];
    }
  }

  /** `DeleteSession::execute`: only the requested id is ever removed. */
  method Execute(g: SessionStore, access: Access, id: SessionId) returns (r: Outcome<()>)
    modifies g
    ensures (r, g.sessions) == DeleteSpec(access, old(g.sessions), id)
    ensures g.removed == old(g.removed) + (if r.Ok? then [id] else [])
  {
    if access.Refused? {
      return Err(AccessError(access.reason));
    }
    var s := g.GetSession(id);
    if s.None? {
      return Err(InvalidData(Message(SessionNotFound)));
    }
    g.RemoveSession(id);
    return Ok(());
  }
}
