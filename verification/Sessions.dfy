/** Sessions and refresh-token families: `internal/auth/session.go`.

    The store's two maps are fields of a class whose methods run under one lock,
    so each method is one atomic step. Every step is specified by a function on
    the pair of maps; the properties of whole runs are in module Families. */
module Sessions {
  import opened Base

  const REFRESH_TTL := 30 * 24 * HOUR

  datatype Session = Session(
    id: string,
    name: string,
    scopes: seq<string>,
    createdAt: Instant,
    lastSeen: Instant,
    expiresAt: Instant,
    revoked: bool,
    revokedAt: Option<Instant>,
    rotations: nat,
    clientHint: string)
  {
    predicate Active(now: Instant) {
      !revoked && now < expiresAt
    }
  }

  /** One issued refresh token; `replaced` is empty until the token is exchanged. */
  datatype RefreshRecord = RefreshRecord(
    sid: string,
    expiresAt: Instant,
    used: bool,
    usedAt: Option<Instant>,
    replaced: string)

  datatype StoreState = StoreState(
    sessions: map<string, Session>,
    refresh: map<string, RefreshRecord>)

  datatype StoreError =
    | IdRequired
    | SessionExists(sid: string)
    | TokenRequired
    | TokenIssued
    | NoSession(sid: string)
    | SessionRevoked(sid: string)
    | RefreshUnknown
    | RefreshReused(sid: string)
    | RefreshExpired(at: Instant)

  const EmptyStore := StoreState(map[], map[])

  // ---- what each store call does to the two maps

  function CreateSpec(st: StoreState, s: Session): (StoreState, Option<StoreError>) {
    if s.id == "" then (st, Some(IdRequired))
    else if s.id in st.sessions then (st, Some(SessionExists(s.id)))
    else (st.(sessions := st.sessions[s.id := s]), None)
  }

  function IssueRefreshSpec(st: StoreState, sid: string, token: string, now: Instant)
    : (StoreState, Option<StoreError>)
  {
    if token == "" then (st, Some(TokenRequired))
    else if sid !in st.sessions then (st, Some(NoSession(sid)))
    else if st.sessions[sid].revoked then (st, Some(SessionRevoked(sid)))
    else if token in st.refresh then (st, Some(TokenIssued))
    else
      var s := st.sessions[sid];
      (StoreState(
         st.sessions[sid := s.(lastSeen := now)],
         st.refresh[token := RefreshRecord(sid, s.expiresAt, false, None, "")]),
       None)
  }

  /** Marks every unspent refresh token of a session as spent. */
  function SpendFamily(refresh: map<string, RefreshRecord>, sid: string, now: Instant)
    : map<string, RefreshRecord>
  {
    map t | t in refresh :: SpendRecord(refresh[t], sid, now)
  }

  function SpendRecord(r: RefreshRecord, sid: string, now: Instant): RefreshRecord {
    if r.sid == sid && !r.used then r.(used := true, usedAt := Some(now)) else r
  }

  function RevokeSpec(st: StoreState, sid: string, now: Instant): (StoreState, Option<StoreError>) {
    if sid !in st.sessions then (st, Some(NoSession(sid)))
    else
      (StoreState(
         st.sessions[sid := st.sessions[sid].(revoked := true, revokedAt := Some(now))],
         SpendFamily(st.refresh, sid, now)),
       None)
  }

  function RotateSpec(st: StoreState, oldToken: string, newToken: string, now: Instant)
    : (StoreState, Result<Session, StoreError>)
  {
    if oldToken !in st.refresh then (st, Err(RefreshUnknown))
    else
      var rec := st.refresh[oldToken];
      if rec.sid !in st.sessions then (st, Err(NoSession(rec.sid)))
      else if rec.used then (RevokeSpec(st, rec.sid, now).0, Err(RefreshReused(rec.sid)))
      else if st.sessions[rec.sid].revoked then (st, Err(SessionRevoked(rec.sid)))
      else if now > rec.expiresAt then (st, Err(RefreshExpired(rec.expiresAt)))
      else
        var was := st.sessions[rec.sid];
        var s := was.(lastSeen := now, expiresAt := now + REFRESH_TTL, rotations := was.rotations + 1);
        var spent := rec.(used := true, usedAt := Some(now), replaced := newToken);
        var next := RefreshRecord(rec.sid, now + REFRESH_TTL, false, None, "");
        (StoreState(st.sessions[rec.sid := s], st.refresh[oldToken := spent][newToken := next]), Ok(s))
  }

  function TouchSpec(st: StoreState, sid: string, now: Instant): (StoreState, Option<StoreError>) {
    if sid !in st.sessions then (st, Some(NoSession(sid)))
    else (st.(sessions := st.sessions[sid := st.sessions[sid].(lastSeen := now)]), None)
  }

  function GetSpec(st: StoreState, sid: string): Result<Session, StoreError> {
    if sid in st.sessions then Ok(st.sessions[sid]) else Err(NoSession(sid))
  }

  // ---- the store

  class MemoryStore {
    var sessions: map<string, Session>
    var refresh: map<string, RefreshRecord>

    ghost function State(): StoreState
      reads this
    {
      StoreState(sessions, refresh)
    }

    constructor ()
      ensures State() == EmptyStore
    {
      sessions, refresh := map[], map[];
    }

    method Create(s: Session) returns (err: Option<StoreError>)
      modifies this
      ensures (State(), err) == CreateSpec(old(State()), s)
    {
      if s.id == "" {
        return Some(IdRequired);
      }
      if s.id in sessions {
        return Some(SessionExists(s.id));
      }
      sessions := sessions[s.id := s];
      return None;
    }

    method IssueRefresh(sid: string, token: string, now: Instant) returns (err: Option<StoreError>)
      modifies this
      ensures (State(), err) == IssueRefreshSpec(old(State()), sid, token, now)
    {
      if token == "" {
        return Some(TokenRequired);
      }
      if sid !in sessions {
        return Some(NoSession(sid));
      }
      var s := sessions[sid];
      if s.revoked {
        return Some(SessionRevoked(sid));
      }
      if token in refresh {
        return Some(TokenIssued);
      }
      sessions := sessions[sid := s.(lastSeen := now)];
      refresh := refresh[token := RefreshRecord(sid, s.expiresAt, false, None, "")];
      return None;
    }

    method Get(sid: string) returns (r: Result<Session, StoreError>)
      ensures r == GetSpec(State(), sid)
    {
      if sid !in sessions {
        return Err(NoSession(sid));
      }
      return Ok(sessions[sid]);
    }

    method Rotate(oldToken: string, newToken: string, now: Instant) returns (r: Result<Session, StoreError>)
      modifies this
      ensures (State(), r) == RotateSpec(old(State()), oldToken, newToken, now)
    {
      if oldToken !in refresh {
        return Err(RefreshUnknown);
      }
      var rec := refresh[oldToken];
      if rec.sid !in sessions {
        return Err(NoSession(rec.sid));
      }
      var s := sessions[rec.sid];
      if rec.used {
        sessions := sessions[rec.sid := s.(revoked := true, revokedAt := Some(now))];
        RevokeFamily(rec.sid, now);
        return Err(RefreshReused(rec.sid));
      }
      if s.revoked {
        return Err(SessionRevoked(rec.sid));
      }
      if now > rec.expiresAt {
        return Err(RefreshExpired(rec.expiresAt));
      }
      refresh := refresh[oldToken := rec.(used := true, usedAt := Some(now), replaced := newToken)];
      s := s.(lastSeen := now);
      s := s.(expiresAt := now + REFRESH_TTL);
      s := s.(rotations := s.rotations + 1);
      sessions := sessions[rec.sid := s];
      refresh := refresh[newToken := RefreshRecord(rec.sid, s.expiresAt, false, None, "")];
      return Ok(s);
    }

    method Revoke(sid: string, now: Instant) returns (err: Option<StoreError>)
      modifies this
      ensures (State(), err) == RevokeSpec(old(State()), sid, now)
    {
      if sid !in sessions {
        return Some(NoSession(sid));
      }
      sessions := sessions[sid := sessions[sid].(revoked := true, revokedAt := Some(now))];
      RevokeFamily(sid, now);
      return None;
    }

    /** The loop over the whole refresh map, in any order. */
    method RevokeFamily(sid: string, now: Instant)
      modifies this`refresh
      ensures refresh == SpendFamily(old(refresh), sid, now)
    {
      var todo := refresh.Keys;
      while todo != {}
        invariant todo <= refresh.Keys == old(refresh).Keys
        invariant forall t :: t in todo ==> refresh[t] == old(refresh)[t]
        invariant forall t :: t in refresh && t !in todo ==> refresh[t] == SpendRecord(old(refresh)[t], sid, now)
        decreases todo
      {
        var tok :| tok in todo;
        var rec := refresh[tok];
        if rec.sid == sid && !rec.used {
          refresh := refresh[tok := rec.(used := true, usedAt := Some(now))];
        }
        todo := todo - {tok};
      }
    }

    method Touch(sid: string, now: Instant) returns (err: Option<StoreError>)
      modifies this
      ensures (State(), err) == TouchSpec(old(State()), sid, now)
    {
      if sid !in sessions {
        return Some(NoSession(sid));
      }
      sessions := sessions[sid := sessions[sid].(lastSeen := now)];
      return None;
    }
  }
}
