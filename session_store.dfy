/**
 * The login-session table: rows keyed by an opaque session id, each holding
 * the session content (user id, role, expiry) and an expiry column.
 * Times are integers (seconds); "now" is a parameter.
 */
module SessionStore {
  import opened Base
  import opened Users

  /** What a session says about its user; `userId` is what routes read as `current_user.id`. */
  datatype SessionContent = SessionContent(userId: int, role: Role, expire: int)

  /**
   * A row of the login-session table. The row carries `expire` as a column
   * of its own, equal to the expiry written into its content.
   */
  datatype LoginSession = LoginSession(id: string, data: SessionContent, expire: int)

  /** Inserting a row whose primary key is already taken fails at commit. */
  datatype StoreError = DuplicateSessionId

  /** Every row is stored under its own id, and its expiry column agrees with its content. */
  ghost predicate WellKeyed(sessions: map<string, LoginSession>)
  {
    forall k :: k in sessions ==> sessions[k].id == k && sessions[k].expire == sessions[k].data.expire
  }

  /** The row `insert_session` builds: the content with its expiry set, stored under `sessionId`. */
  function NewLoginSession(sessionId: string, content: SessionContent, expire: int): (s: LoginSession)
    ensures s.id == sessionId && s.expire == expire
    ensures s.data.userId == content.userId && s.data.role == content.role && s.data.expire == expire
  {
    LoginSession(sessionId, content.(expire := expire), expire)
  }

  /** The table after a successful insert. */
  function Inserted(sessions: map<string, LoginSession>, sessionId: string, content: SessionContent, expire: int): (m: map<string, LoginSession>)
    requires WellKeyed(sessions)
    ensures WellKeyed(m)
    ensures m.Keys == sessions.Keys + {sessionId}
    ensures m[sessionId] == NewLoginSession(sessionId, content, expire)
    ensures forall k :: k in sessions && k != sessionId ==> m[k] == sessions[k]
  {
    sessions[sessionId := NewLoginSession(sessionId, content, expire)]
  }

  /** The table after deleting the row with id `sessionId`; nothing happens if there is none. */
  function Deleted(sessions: map<string, LoginSession>, sessionId: string): (m: map<string, LoginSession>)
    requires WellKeyed(sessions)
    ensures WellKeyed(m)
    ensures m.Keys == sessions.Keys - {sessionId}
    ensures forall k :: k in m ==> m[k] == sessions[k]
  {
    sessions - {sessionId}
  }

  class AuthService {
    /** The login-session table, keyed by session id. */
    var sessions: map<string, LoginSession>

    ghost predicate Valid()
      reads this
    {
      WellKeyed(sessions)
    }

    constructor ()
      ensures Valid() && sessions == map[]
    {
      sessions := map[];
    }

    /** `find_session`: the row whose id is `sessionId`, or None when there is no such row. */
    method FindSession(sessionId: string) returns (r: Option<LoginSession>)
      requires Valid()
      ensures r.None? <==> sessionId !in sessions
      ensures r.Some? ==> r.value == sessions[sessionId]
      ensures r.Some? ==> r.value.id == sessionId && r.value.expire == r.value.data.expire
    {
      if sessionId in sessions {
        r := Some(sessions[sessionId]);
      } else {
        r := None;
      }
    }

    /**
     * `insert_session`: sets the content's expiry to `now + expiresDelta`,
     * stores it under `sessionId` and returns that id. A row already stored
     * under `sessionId` makes the commit fail and leaves the table as it was.
     */
    method InsertSession(sessionId: string, content: SessionContent, expiresDelta: int, now: int)
      returns (r: Result<string, StoreError>)
      requires Valid()
      modifies this
      ensures Valid()
      ensures sessionId in old(sessions) ==> r == Err(DuplicateSessionId) && sessions == old(sessions)
      ensures sessionId !in old(sessions) ==> r == Ok(sessionId)
      ensures sessionId !in old(sessions) ==> sessions == Inserted(old(sessions), sessionId, content, now + expiresDelta)
    {
      if sessionId in sessions {
        return Err(DuplicateSessionId);
      }
      var expire := now + expiresDelta;
      var stamped := content.(expire := expire);
      sessions := sessions[sessionId := LoginSession(sessionId, stamped, expire)];
      r := Ok(sessionId);
    }

    /** `delete_session`: removes the given row; every other row stays as it was. */
    method DeleteSession(loginSession: LoginSession)
      requires Valid()
      modifies this
      ensures Valid()
      ensures sessions == Deleted(old(sessions), loginSession.id)
    {
      sessions := sessions - {loginSession.id};
    }
  }

  /** After an insert the new id is found, holding the given user and the new expiry. */
  lemma InsertThenFind(sessions: map<string, LoginSession>, sessionId: string, content: SessionContent, now: int, expiresDelta: int)
    requires WellKeyed(sessions)
    ensures var m := Inserted(sessions, sessionId, content, now + expiresDelta);
      sessionId in m && m[sessionId].data.userId == content.userId && m[sessionId].expire == now + expiresDelta
  {
  }

  /** After a delete the id is no longer found, and deleting again changes nothing. */
  lemma DeleteIsIdempotent(sessions: map<string, LoginSession>, sessionId: string)
    requires WellKeyed(sessions)
    ensures sessionId !in Deleted(sessions, sessionId)
    ensures Deleted(Deleted(sessions, sessionId), sessionId) == Deleted(sessions, sessionId)
  {
  }
}
