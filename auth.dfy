/**
 * Resolving the session cookie of a request to the stored session, with the
 * three 401 failures checked in a fixed order: no session id, no such
 * session, session expired.
 */
module Auth {
  import opened Base
  import opened SessionStore

  /** The three ways authentication fails; each is answered with HTTP 401. */
  datatype AuthError = NoSessionId | SessionNotFound | SessionExpired

  /** Where a session id stands at time `now`: a deleted session is absent again. */
  datatype Lifecycle = Absent | Active | Expired

  function StateAt(sessions: map<string, LoginSession>, sessionId: string, now: int): Lifecycle
  {
    if sessionId !in sessions then Absent
    else if now < sessions[sessionId].expire then Active
    else Expired
  }

  /**
   * The decision `get_current_user` takes over a snapshot of the session
   * table: missing or empty id first, then an unknown id, then
   * `now >= expire`; otherwise the stored row, unchanged.
   */
  function Resolve(sessionId: Option<string>, sessions: map<string, LoginSession>, now: int): (r: Result<LoginSession, AuthError>)
    ensures r.Ok? <==> TruthyText(sessionId) && StateAt(sessions, sessionId.value, now) == Active
    ensures r.Ok? ==> r.value == sessions[sessionId.value]
    ensures r == Err(NoSessionId) <==> !TruthyText(sessionId)
    ensures r == Err(SessionNotFound) <==> TruthyText(sessionId) && StateAt(sessions, sessionId.value, now) == Absent
    ensures r == Err(SessionExpired) <==> TruthyText(sessionId) && StateAt(sessions, sessionId.value, now) == Expired
  {
    if !TruthyText(sessionId) then Err(NoSessionId)
    else if sessionId.value !in sessions then Err(SessionNotFound)
    else if now >= sessions[sessionId.value].expire then Err(SessionExpired)
    else Ok(sessions[sessionId.value])
  }

  /**
   * `get_current_user`: asks the session service for the row and applies
   * the checks; it has no `modifies` clause, so the session table is only read.
   */
  method GetCurrentUser(service: AuthService, sessionId: Option<string>, now: int) returns (r: Result<LoginSession, AuthError>)
    requires service.Valid()
    ensures r == Resolve(sessionId, service.sessions, now)
    ensures r.Ok? ==> r.value.id == sessionId.value && now < r.value.data.expire
  {
    if sessionId.None? || sessionId.value == "" {
      return Err(NoSessionId);
    }
    var found := service.FindSession(sessionId.value);
    if found.None? {
      return Err(SessionNotFound);
    }
    if now >= found.value.expire {
      return Err(SessionExpired);
    }
    return Ok(found.value);
  }

  /** The expiry boundary is inclusive: at `now == expire` a stored session is already expired. */
  lemma ExpiresAtBoundary(sessions: map<string, LoginSession>, sessionId: string)
    requires sessionId != "" && sessionId in sessions
    ensures Resolve(Some(sessionId), sessions, sessions[sessionId].expire) == Err(SessionExpired)
    ensures Resolve(Some(sessionId), sessions, sessions[sessionId].expire - 1) == Ok(sessions[sessionId])
  {
  }

  /** Once expired, a stored session stays expired at every later time, and is never reported as not found. */
  lemma ExpiryIsPermanent(sessions: map<string, LoginSession>, sessionId: string, now: int, later: int)
    requires sessionId != "" && now <= later
    requires Resolve(Some(sessionId), sessions, now) == Err(SessionExpired)
    ensures Resolve(Some(sessionId), sessions, later) == Err(SessionExpired)
  {
  }

  /** A session stored by `insert_session` resolves to its row exactly until its expiry, then expires. */
  lemma ResolveAfterInsert(sessions: map<string, LoginSession>, sessionId: string, content: SessionContent,
                           loginTime: int, ttl: int, now: int)
    requires WellKeyed(sessions) && sessionId != "" && sessionId !in sessions
    ensures var m := Inserted(sessions, sessionId, content, loginTime + ttl);
      && (now < loginTime + ttl ==> Resolve(Some(sessionId), m, now) == Ok(NewLoginSession(sessionId, content, loginTime + ttl)))
      && (now >= loginTime + ttl ==> Resolve(Some(sessionId), m, now) == Err(SessionExpired))
  {
  }

  /** A deleted session (logout) reports "not found" at every time, never "expired". */
  lemma ResolveAfterDelete(sessions: map<string, LoginSession>, sessionId: string, now: int)
    requires WellKeyed(sessions) && sessionId != ""
    ensures Resolve(Some(sessionId), Deleted(sessions, sessionId), now) == Err(SessionNotFound)
  {
  }

  /** Inserting or deleting one session does not change how any other id resolves. */
  lemma OtherSessionsUnaffected(sessions: map<string, LoginSession>, changed: string, other: string,
                                content: SessionContent, expire: int, now: int)
    requires WellKeyed(sessions) && changed != other
    ensures Resolve(Some(other), Inserted(sessions, changed, content, expire), now) == Resolve(Some(other), sessions, now)
    ensures Resolve(Some(other), Deleted(sessions, changed), now) == Resolve(Some(other), sessions, now)
  {
  }
}
