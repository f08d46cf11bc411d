/** Revocation over whole server runs: each handler is one step, the clock never
    goes back, and random refresh tokens never repeat. */
module Revocation {
  import opened Base
  import opened Sessions
  import opened AuthCodes
  import opened Tokens
  import opened AuthServer
  import Families

  // ---- time and runs

  /** The handler's clock readings come in program order, none before `clock`. */
  predicate Ordered(clock: Instant, r: Request) {
    match r
    case Authorize(_, _, _, _, t, tCode) => clock <= t <= tCode
    case FromCode(_, _, _, _, _, tConsume, tActive, tMint, tIssue) => clock <= tConsume <= tActive <= tMint <= tIssue
    case FromRefresh(_, _, _, _, t, tNext) => clock <= t <= tNext
    case RevokeToken(_, _, t, tVerify, tDeny) => clock <= t <= tVerify <= tDeny
    case RevokeTool(_, _, t, tDeny) => clock <= t <= tDeny
    case Access(_, tVerify, tDenied) => clock <= tVerify <= tDenied
  }

  function Last(r: Request): Instant {
    match r
    case Authorize(_, _, _, _, _, tCode) => tCode
    case FromCode(_, _, _, _, _, _, _, _, tIssue) => tIssue
    case FromRefresh(_, _, _, _, _, tNext) => tNext
    case RevokeToken(_, _, _, _, tDeny) => tDeny
    case RevokeTool(_, _, _, tDeny) => tDeny
    case Access(_, _, tDenied) => tDenied
  }

  ghost predicate Fresh(s: ServerState, r: Request) {
    r.FromRefresh? || r.RevokeToken? ==> r.next !in s.store.refresh
  }

  datatype Setting = Setting(cfg: Config, s256: string -> string)

  function After(env: Setting, s: ServerState, reqs: seq<Request>, k: nat): ServerState
    requires k <= |reqs|
  {
    if k == 0 then s else Handle(env.cfg, env.s256, After(env, s, reqs, k - 1), reqs[k - 1]).0
  }

  function Clock(clock: Instant, reqs: seq<Request>, k: nat): Instant
    requires k <= |reqs|
  {
    if k == 0 then clock else Last(reqs[k - 1])
  }

  ghost predicate Run(env: Setting, s: ServerState, clock: Instant, reqs: seq<Request>) {
    forall k :: 0 <= k < |reqs| ==> Ordered(Clock(clock, reqs, k), reqs[k]) && Fresh(After(env, s, reqs, k), reqs[k])
  }

  function Answer(env: Setting, s: ServerState, reqs: seq<Request>, k: nat): Response
    requires k < |reqs|
  {
    Handle(env.cfg, env.s256, After(env, s, reqs, k), reqs[k]).1
  }

  // ---- the invariant

  /** No token and no denylist entry reaches further than one lifetime ahead. */
  ghost predicate Bounded(s: ServerState, clock: Instant) {
    && (forall c :: c in s.minted ==> c.sid in s.store.sessions && c.ExpiresAt() <= clock + ACCESS_TOKEN_TTL)
    && (forall sid :: sid in s.denied ==> s.denied[sid] <= clock + ACCESS_TOKEN_TTL)
  }

  ghost predicate Good(s: ServerState, clock: Instant) {
    Families.Sound(s.store) && "" !in s.store.sessions && Bounded(s, clock)
  }

  ghost predicate Revoked(s: ServerState, sid: string) {
    sid in s.store.sessions && s.store.sessions[sid].revoked
  }

  /** Revoked, denylisted last at `since`, and no token of it reaches beyond that
      entry, which is there until it lapses. */
  ghost predicate Banned(s: ServerState, clock: Instant, sid: string, since: Instant) {
    && Revoked(s, sid) && since <= clock
    && (forall c :: c in s.minted && c.sid == sid ==> c.ExpiresAt() <= since + ACCESS_TOKEN_TTL)
    && (if sid in s.denied then s.denied[sid] == since + ACCESS_TOKEN_TTL else since + ACCESS_TOKEN_TTL < clock)
  }

  /** What one step may change: sessions only grow and stay revoked, tokens are
      minted for live sessions only, and a denylist entry is extended, kept, or
      dropped once it has lapsed. */
  ghost predicate Evolves(s: ServerState, s': ServerState, now: Instant) {
    && Families.Extends(s.store, s'.store)
    && s.minted <= s'.minted
    && (forall c :: c in s'.minted && c !in s.minted ==> !Revoked(s, c.sid))
    && (forall sid :: sid in s.denied ==> (sid in s'.denied && s.denied[sid] <= s'.denied[sid]) || s.denied[sid] < now)
  }

  // ---- one step

  lemma {:induction false} AuthorizeStep(s: ServerState, clock: Instant, r: Request)
    requires r.Authorize? && Good(s, clock) && Ordered(clock, r)
    ensures var s' := AuthorizeSpec(s, r).0; Good(s', Last(r)) && Evolves(s, s', Last(r))
  {
    hide IssueSpec;
    Families.StepKeepsSound(s.store, Families.CreateOp(NewSession(r.sid, r.grant, r.t)));
  }

  lemma {:induction false} FromCodeStep(env: Setting, s: ServerState, clock: Instant, r: Request)
    requires r.FromCode? && Good(s, clock) && Ordered(clock, r)
    ensures var s' := FromCodeSpec(env.cfg, env.s256, s, r).0; Good(s', Last(r)) && Evolves(s, s', Last(r))
  {
    hide ConsumeSpec, IssueRefreshSpec, Evolves, Bounded, Families.Sound, Families.Extends;
    var (codes, found) := ConsumeSpec(env.s256, s.codes, r.code, r.p, r.tConsume);
    CodesStep(s, clock, s.codes, Last(r));
    CodesStep(s, clock, codes, Last(r));
    if found.Ok? && found.value.sessionID in s.store.sessions {
      var sess := s.store.sessions[found.value.sessionID];
      OwnId(s.store, found.value.sessionID);
      if sess.Active(r.tActive) {
        var c := Mint(env.cfg, sess.id, sess.name, sess.scopes, r.jti, r.tMint);
        Families.StepKeepsSound(s.store, Families.IssueOp(sess.id, r.next, r.tIssue));
        SameSessions(s.store, sess.id, r.next, r.tIssue);
        MintStep(s, clock, IssueRefreshSpec(s.store, sess.id, r.next, r.tIssue).0, codes, c, Last(r));
      }
    }
  }

  /** Only codes change. */
  lemma {:induction false} CodesStep(s: ServerState, clock: Instant, codes: Codes, now: Instant)
    requires Good(s, clock) && clock <= now
    ensures var s' := s.(codes := codes); Good(s', now) && Evolves(s, s', now)
  {
  }

  /** A token is minted for a live session. */
  lemma {:induction false} MintStep(s: ServerState, clock: Instant, store: StoreState, codes: Codes, c: Claims,
                                    now: Instant)
    requires Good(s, clock) && clock <= now && c.ExpiresAt() <= now + ACCESS_TOKEN_TTL
    requires c.sid in s.store.sessions && !Revoked(s, c.sid)
    requires Families.Sound(store) && Families.Extends(s.store, store) && store.sessions.Keys == s.store.sessions.Keys
    ensures var s' := s.(store := store, codes := codes, minted := s.minted + {c});
            Good(s', now) && Evolves(s, s', now)
  {
    hide Families.Sound;
  }

  lemma OwnId(st: StoreState, sid: string)
    requires Families.Sound(st) && sid in st.sessions
    ensures st.sessions[sid].id == sid
  {
  }

  lemma SameSessions(st: StoreState, sid: string, token: string, now: Instant)
    ensures IssueRefreshSpec(st, sid, token, now).0.sessions.Keys == st.sessions.Keys
  {
  }

  lemma {:induction false} FromRefreshStep(env: Setting, s: ServerState, clock: Instant, r: Request)
    requires r.FromRefresh? && Good(s, clock) && Ordered(clock, r) && Fresh(s, r)
    ensures var s' := FromRefreshSpec(env.cfg, s, r).0; Good(s', Last(r)) && Evolves(s, s', Last(r))
  {
    hide RotateSpec, Families.Sound;
    if r.next != "" {
      Families.StepKeepsSound(s.store, Families.RotateOp(r.presented, r.next, r.t));
    }
    RotationFacts(s.store, r.presented, r.next, r.t);
  }

  lemma {:induction false} RotationFacts(st: StoreState, o: string, n: string, now: Instant)
    requires Families.Sound(st)
    ensures var (st', got) := RotateSpec(st, o, n, now);
            && st'.sessions.Keys == st.sessions.Keys
            && (got.Ok? ==> got.value.id in st.sessions && !st.sessions[got.value.id].revoked)
            && (got.Err? && got.error.RefreshReused? ==>
                  got.error.sid in st'.sessions && st'.sessions[got.error.sid].revoked)
  {
  }

  lemma {:induction false} RevokeSessionStep(s: ServerState, clock: Instant, sid: string, t: Instant, tDeny: Instant)
    requires Good(s, clock) && clock <= t <= tDeny
    ensures var s' := RevokeSessionSpec(s, sid, t, tDeny);
            && Good(s', tDeny) && Evolves(s, s', tDeny)
            && (sid in s.store.sessions ==> Banned(s', tDeny, sid, tDeny))
  {
    hide SpendFamily;
    Families.StepKeepsSound(s.store, Families.RevokeOp(sid, t));
  }

  lemma {:induction false} EvolvesTwice(s: ServerState, s': ServerState, s'': ServerState, now: Instant)
    requires Evolves(s, s', now) && Evolves(s', s'', now)
    ensures Evolves(s, s'', now)
  {
  }

  /** Rotating a refresh token touches nothing but the session store. */
  lemma {:induction false} RotateStep(s: ServerState, clock: Instant, o: string, n: string, now: Instant)
    requires Good(s, clock) && clock <= now && n != "" && n !in s.store.refresh
    ensures var s' := s.(store := RotateSpec(s.store, o, n, now).0); Good(s', clock) && Evolves(s, s', now)
  {
    hide RotateSpec;
    Families.StepKeepsSound(s.store, Families.RotateOp(o, n, now));
    RotationFacts(s.store, o, n, now);
  }

  lemma {:induction false} RevokeTokenStep(env: Setting, s: ServerState, clock: Instant, r: Request)
    requires r.RevokeToken? && Good(s, clock) && Ordered(clock, r) && Fresh(s, r)
    ensures var s' := RevokeTokenSpec(env.cfg, s, r).0; Good(s', Last(r)) && Evolves(s, s', Last(r))
  {
    hide RotateSpec, RevokeSessionSpec, Families.Sound;
    var verified := Verify(env.cfg, s.minted, r.token, r.tVerify);
    if verified.Ok? {
      RevokeSessionStep(s, clock, verified.value.sid, r.t, r.tDeny);
    } else if r.next != "" {
      RotateStep(s, clock, r.token.text, r.next, r.t);
      var (store, got) := RotateSpec(s.store, r.token.text, r.next, r.t);
      var s' := s.(store := store);
      if got.Ok? {
        RevokeSessionStep(s', clock, got.value.id, r.t, r.tDeny);
        EvolvesTwice(s, s', RevokeSessionSpec(s', got.value.id, r.t, r.tDeny), r.tDeny);
      }
    }
  }

  lemma {:induction false} AccessStep(env: Setting, s: ServerState, clock: Instant, r: Request)
    requires r.Access? && Good(s, clock) && Ordered(clock, r)
    ensures var s' := AccessSpec(env.cfg, s, r).0; Good(s', Last(r)) && Evolves(s, s', Last(r))
  {
  }

  lemma {:induction false} HandleStep(env: Setting, s: ServerState, clock: Instant, r: Request)
    requires Good(s, clock) && Ordered(clock, r) && Fresh(s, r)
    ensures var s' := Handle(env.cfg, env.s256, s, r).0; Good(s', Last(r)) && Evolves(s, s', Last(r))
  {
    hide AuthorizeSpec, FromCodeSpec, FromRefreshSpec, RevokeTokenSpec, RevokeSessionSpec, AccessSpec;
    match r
    case Authorize(_, _, _, _, _, _) => AuthorizeStep(s, clock, r);
    case FromCode(_, _, _, _, _, _, _, _, _) => FromCodeStep(env, s, clock, r);
    case FromRefresh(_, _, _, _, _, _) => FromRefreshStep(env, s, clock, r);
    case RevokeToken(_, _, _, _, _) => RevokeTokenStep(env, s, clock, r);
    case RevokeTool(_, _, t, tDeny) => RevokeSessionStep(s, clock, r.sid, t, tDeny);
    case Access(_, _, _) => AccessStep(env, s, clock, r);
  }

  lemma {:induction false} RunKeepsGood(env: Setting, s: ServerState, clock: Instant, reqs: seq<Request>, k: nat)
    requires Good(s, clock) && Run(env, s, clock, reqs) && k <= |reqs|
    ensures Good(After(env, s, reqs, k), Clock(clock, reqs, k)) && clock <= Clock(clock, reqs, k)
  {
    hide Handle, Good;
    if k > 0 {
      RunKeepsGood(env, s, clock, reqs, k - 1);
      HandleStep(env, After(env, s, reqs, k - 1), Clock(clock, reqs, k - 1), reqs[k - 1]);
    }
  }

  // ---- revoked with a denylist entry

  /** The session a request revokes together with a denylist entry: the one whose
      spent refresh token is replayed, the one named by a valid access token or a
      live refresh token at the revocation endpoint, or the one an admin names. */
  function Denylists(cfg: Config, s: ServerState, r: Request): Option<string> {
    match r
    case FromRefresh(resource, presented, _, _, _, _) =>
      if presented in s.store.refresh && presented != "" && r.next != "" && s.store.refresh[presented].used
         && (resource == "" || SameResource(resource, cfg.audience))
      then Some(s.store.refresh[presented].sid) else None
    case RevokeToken(token, _, t, tVerify, _) =>
      if token.text == "" then None
      else if Verify(cfg, s.minted, token, tVerify).Ok? then Some(token.decoded.value.sid)
      else if r.next != "" && token.text in s.store.refresh && !s.store.refresh[token.text].used
              && t <= s.store.refresh[token.text].expiresAt
      then Some(s.store.refresh[token.text].sid) else None
    case RevokeTool(allowed, sid, _, _) => if allowed && sid in s.store.sessions then Some(sid) else None
    case _ => None
  }

  lemma {:induction false} DenylistingBans(env: Setting, s: ServerState, clock: Instant, r: Request)
    requires Good(s, clock) && Ordered(clock, r) && Fresh(s, r) && Denylists(env.cfg, s, r).Some?
    ensures Banned(Handle(env.cfg, env.s256, s, r).0, Last(r), Denylists(env.cfg, s, r).value, Last(r))
  {
    match r
    case FromRefresh(_, presented, _, next, t, _) => ReplayBans(env, s, clock, r);
    case RevokeToken(token, next, t, tVerify, tDeny) => EndpointBans(env, s, clock, r);
    case RevokeTool(_, sid, t, tDeny) => RevokeSessionStep(s, clock, sid, t, tDeny);
  }

  lemma {:induction false} ReplayBans(env: Setting, s: ServerState, clock: Instant, r: Request)
    requires r.FromRefresh? && Good(s, clock) && Ordered(clock, r) && Denylists(env.cfg, s, r).Some?
    ensures Banned(FromRefreshSpec(env.cfg, s, r).0, Last(r), Denylists(env.cfg, s, r).value, Last(r))
  {
    hide RotateSpec;
    Families.ReuseRevokes(s.store, r.presented, r.next, r.t);
  }

  lemma {:induction false} EndpointBans(env: Setting, s: ServerState, clock: Instant, r: Request)
    requires r.RevokeToken? && Good(s, clock) && Ordered(clock, r) && Fresh(s, r) && Denylists(env.cfg, s, r).Some?
    ensures Banned(RevokeTokenSpec(env.cfg, s, r).0, Last(r), Denylists(env.cfg, s, r).value, Last(r))
  {
    hide RevokeSessionSpec;
    var verified := Verify(env.cfg, s.minted, r.token, r.tVerify);
    if verified.Ok? {
      RevokeSessionStep(s, clock, verified.value.sid, r.t, r.tDeny);
    } else {
      Families.StepKeepsSound(s.store, Families.RotateOp(r.token.text, r.next, r.t));
      RotationFacts(s.store, r.token.text, r.next, r.t);
      var (store, got) := RotateSpec(s.store, r.token.text, r.next, r.t);
      assert got.Ok? && got.value.id == s.store.refresh[r.token.text].sid;
      RevokeSessionStep(s.(store := store), clock, got.value.id, r.t, r.tDeny);
    }
  }

  /** The denylist entry of one session over one step: made anew exactly by a step
      that denylists it, else kept, or dropped once it has lapsed. */
  ghost predicate EntryFollows(cfg: Config, s: ServerState, s': ServerState, r: Request, sid: string) {
    if Denylists(cfg, s, r) == Some(sid) then
      sid in s'.denied && s'.denied[sid] == Last(r) + ACCESS_TOKEN_TTL
    else
      && (sid in s'.denied ==> sid in s.denied && s'.denied[sid] == s.denied[sid])
      && (sid in s.denied && sid !in s'.denied ==> s.denied[sid] < Last(r))
  }

  lemma {:induction false} EntryStep(env: Setting, s: ServerState, clock: Instant, r: Request, sid: string)
    requires Good(s, clock) && Ordered(clock, r)
    ensures EntryFollows(env.cfg, s, Handle(env.cfg, env.s256, s, r).0, r, sid)
  {
    hide RevokeSpec, IssueSpec, ConsumeSpec, CreateSpec, IssueRefreshSpec;
    match r
    case RevokeToken(_, _, _, _, _) => EndpointEntry(env, s, clock, r, sid);
    case RevokeTool(_, _, _, _) => ToolEntry(env, s, clock, r, sid);
    case _ =>
  }

  lemma {:induction false} EndpointEntry(env: Setting, s: ServerState, clock: Instant, r: Request, sid: string)
    requires r.RevokeToken? && Good(s, clock) && Ordered(clock, r)
    ensures EntryFollows(env.cfg, s, Handle(env.cfg, env.s256, s, r).0, r, sid)
  {
    hide SpendFamily;
  }

  lemma {:induction false} ToolEntry(env: Setting, s: ServerState, clock: Instant, r: Request, sid: string)
    requires r.RevokeTool? && Good(s, clock)
    ensures EntryFollows(env.cfg, s, Handle(env.cfg, env.s256, s, r).0, r, sid)
  {
    hide SpendFamily;
  }

  /** A ban survives every step, and starts anew when the session is denylisted again. */
  lemma {:induction false} BanPersists(env: Setting, s: ServerState, clock: Instant, r: Request,
                                       sid: string, since: Instant)
    requires Good(s, clock) && Ordered(clock, r) && Fresh(s, r) && Banned(s, clock, sid, since)
    ensures Banned(Handle(env.cfg, env.s256, s, r).0, Last(r), sid,
                   if Denylists(env.cfg, s, r) == Some(sid) then Last(r) else since)
  {
    hide Handle, Good, Denylists;
    HandleStep(env, s, clock, r);
    EntryStep(env, s, clock, r, sid);
    ClockAdvances(clock, r);
  }

  /** When a session was last denylisted. */
  function LastDenylisted(env: Setting, s: ServerState, reqs: seq<Request>, k: nat, sid: string): Option<Instant>
    requires k <= |reqs|
  {
    if k == 0 then None
    else if Denylists(env.cfg, After(env, s, reqs, k - 1), reqs[k - 1]) == Some(sid) then Some(Last(reqs[k - 1]))
    else LastDenylisted(env, s, reqs, k - 1, sid)
  }

  /** A banned session's token gets through exactly when the first clock reading of
      the check finds it valid and the second finds its denylist entry lapsed; then
      the two lie on either side of its expiry. */
  lemma {:induction false} BannedTokenRefused(env: Setting, s: ServerState, clock: Instant, r: Request,
                                              c: Claims, since: Instant)
    requires r.Access? && r.token.decoded == Some(c) && Ordered(clock, r) && Banned(s, clock, c.sid, since)
    ensures var resp := Handle(env.cfg, env.s256, s, r).1;
            && (resp == Accepted(c) || resp == Refused)
            && (resp == Accepted(c) <==> Verify(env.cfg, s.minted, r.token, r.tVerify).Ok?
                                         && since + ACCESS_TOKEN_TTL < r.tDenied)
            && (resp == Accepted(c) ==> r.tVerify <= c.ExpiresAt() < r.tDenied)
  {
  }

  /** Revocation theorem. After a step that revokes a session and denylists it,
      whatever clients send, a bearer check lets one of its tokens through exactly
      when the check's first clock reading finds the token valid and its second is
      more than one token lifetime after the session was last denylisted. The two
      readings then straddle the token's expiry, so a check that reads the clock
      once is always refused. No token is issued for the session. */
  lemma {:induction false} NeverAcceptedAgain(env: Setting, s: ServerState, clock: Instant, reqs: seq<Request>,
                                              i: nat, k: nat, sid: string)
    requires Good(s, clock) && Run(env, s, clock, reqs) && i < k < |reqs|
    requires Denylists(env.cfg, After(env, s, reqs, i), reqs[i]) == Some(sid)
    ensures LastDenylisted(env, s, reqs, k, sid).Some?
    ensures reqs[k].Access? && reqs[k].token.decoded.Some? && reqs[k].token.decoded.value.sid == sid ==>
              var c := reqs[k].token.decoded.value;
              && (Answer(env, s, reqs, k) == Accepted(c) || Answer(env, s, reqs, k) == Refused)
              && (Answer(env, s, reqs, k) == Accepted(c) <==>
                    Verify(env.cfg, After(env, s, reqs, k).minted, reqs[k].token, reqs[k].tVerify).Ok?
                    && LastDenylisted(env, s, reqs, k, sid).value + ACCESS_TOKEN_TTL < reqs[k].tDenied)
              && (Answer(env, s, reqs, k) == Accepted(c) ==> reqs[k].tVerify <= c.ExpiresAt() < reqs[k].tDenied)
    ensures Answer(env, s, reqs, k).Issued? ==> Answer(env, s, reqs, k).access.sid != sid
  {
    hide Handle, Good, Banned, Denylists, Verify;
    BannedAfter(env, s, clock, reqs, i, k, sid);
    RunKeepsGood(env, s, clock, reqs, k);
    var now, time := After(env, s, reqs, k), Clock(clock, reqs, k);
    var since := LastDenylisted(env, s, reqs, k, sid).value;
    BanIsRevocation(now, time, sid, since);
    if Answer(env, s, reqs, k).Issued? {
      IssuedForLiveSessions(env, now, time, reqs[k]);
    }
    if reqs[k].Access? && reqs[k].token.decoded.Some? && reqs[k].token.decoded.value.sid == sid {
      BannedTokenRefused(env, now, time, reqs[k], reqs[k].token.decoded.value, since);
    }
  }

  /** The exception is real, for any token of any session: right after the session
      is revoked by an admin, a check lets the token through for exactly those
      readings that straddle both its expiry and the lapse of the entry. */
  lemma {:induction false} StraddlingCheckPasses(env: Setting, s: ServerState, clock: Instant, c: Claims,
                                                 t: Instant, tVerify: Instant, tDenied: Instant)
    requires Good(s, clock) && c in s.minted && clock <= t <= tVerify <= tDenied
    requires c.issuer == env.cfg.issuer && c.audience == env.cfg.audience && c.expires != 0
    ensures var reqs := [RevokeTool(true, c.sid, t, t), Access(Bearer("bearer", Some(c)), tVerify, tDenied)];
            && Run(env, s, clock, reqs)
            && Denylists(env.cfg, s, reqs[0]) == Some(c.sid)
            && (Answer(env, s, reqs, 1) == Accepted(c) <==>
                  tVerify <= c.ExpiresAt() && t + ACCESS_TOKEN_TTL < tDenied)
  {
    var reqs := [RevokeTool(true, c.sid, t, t), Access(Bearer("bearer", Some(c)), tVerify, tDenied)];
    assert After(env, s, reqs, 0) == s;
    assert After(env, s, reqs, 1) == RevokeSessionSpec(s, c.sid, t, t);
    assert After(env, s, reqs, 1).denied[c.sid] == t + ACCESS_TOKEN_TTL;
  }

  lemma BanIsRevocation(s: ServerState, clock: Instant, sid: string, since: Instant)
    requires Banned(s, clock, sid, since)
    ensures Revoked(s, sid)
  {
  }

  lemma {:induction false} BannedAfter(env: Setting, s: ServerState, clock: Instant, reqs: seq<Request>,
                                       i: nat, k: nat, sid: string)
    requires Good(s, clock) && Run(env, s, clock, reqs) && i < k <= |reqs|
    requires Denylists(env.cfg, After(env, s, reqs, i), reqs[i]) == Some(sid)
    ensures LastDenylisted(env, s, reqs, k, sid).Some?
    ensures Banned(After(env, s, reqs, k), Clock(clock, reqs, k), sid, LastDenylisted(env, s, reqs, k, sid).value)
    decreases k
  {
    hide Handle, Good, Banned, Denylists, Fresh;
    var was, now := After(env, s, reqs, k - 1), Clock(clock, reqs, k - 1);
    RunKeepsGood(env, s, clock, reqs, k - 1);
    if k == i + 1 {
      DenylistingBans(env, was, now, reqs[k - 1]);
    } else {
      BannedAfter(env, s, clock, reqs, i, k - 1, sid);
      BanPersists(env, was, now, reqs[k - 1], sid, LastDenylisted(env, s, reqs, k - 1, sid).value);
    }
  }

  lemma ClockAdvances(clock: Instant, r: Request)
    requires Ordered(clock, r)
    ensures clock <= Last(r)
  {
  }

  /** Tokens are only ever issued for a session that is not revoked. */
  lemma {:induction false} IssuedForLiveSessions(env: Setting, s: ServerState, clock: Instant, r: Request)
    requires Good(s, clock) && Handle(env.cfg, env.s256, s, r).1.Issued?
    ensures var c := Handle(env.cfg, env.s256, s, r).1.access;
            c.sid in s.store.sessions && !s.store.sessions[c.sid].revoked
  {
    if r.FromRefresh? {
      RotationFacts(s.store, r.presented, r.next, r.t);
    }
  }

  // ---- revoked without a denylist entry

  /** A spent refresh token arrives at the revocation endpoint. */
  ghost predicate SpentAtEndpoint(cfg: Config, s: ServerState, r: Request, sid: string) {
    && r.RevokeToken? && r.token.text != "" && r.next != ""
    && Verify(cfg, s.minted, r.token, r.tVerify).Err?
    && r.token.text in s.store.refresh && s.store.refresh[r.token.text].used
    && s.store.refresh[r.token.text].sid == sid
  }

  /** A step revokes a session exactly when it denylists it, which bans it, or when
      a spent refresh token of it arrives at the revocation endpoint; then, and
      only then, the session is revoked and the denylist is left as it is. */
  lemma {:induction false} RevokedWithoutEntry(env: Setting, s: ServerState, clock: Instant, r: Request, sid: string)
    requires Good(s, clock) && Ordered(clock, r) && Fresh(s, r) && !Revoked(s, sid)
    ensures var s' := Handle(env.cfg, env.s256, s, r).0;
            && (Revoked(s', sid) <==> Denylists(env.cfg, s, r) == Some(sid) || SpentAtEndpoint(env.cfg, s, r, sid))
            && (Denylists(env.cfg, s, r) == Some(sid) ==> Banned(s', Last(r), sid, Last(r)))
            && (SpentAtEndpoint(env.cfg, s, r, sid) ==>
                  Denylists(env.cfg, s, r) == None && s'.denied == s.denied && s'.minted == s.minted)
  {
    hide Banned, Good, Handle, Denylists, Revoked;
    if r.RevokeToken? {
      EndpointRevokes(env, s, clock, r, sid);
    } else {
      OthersDenylist(env, s, clock, r, sid);
    }
    if Denylists(env.cfg, s, r).Some? {
      DenylistingBans(env, s, clock, r);
      BanIsRevocation(Handle(env.cfg, env.s256, s, r).0, Last(r), Denylists(env.cfg, s, r).value, Last(r));
    }
  }

  lemma {:induction false} EndpointRevokes(env: Setting, s: ServerState, clock: Instant, r: Request, sid: string)
    requires r.RevokeToken? && Good(s, clock) && Fresh(s, r) && !Revoked(s, sid)
    ensures var s' := Handle(env.cfg, env.s256, s, r).0;
            && (Revoked(s', sid) ==> Denylists(env.cfg, s, r) == Some(sid) || SpentAtEndpoint(env.cfg, s, r, sid))
            && (SpentAtEndpoint(env.cfg, s, r, sid) ==>
                  && Revoked(s', sid) && Denylists(env.cfg, s, r) == None
                  && s'.denied == s.denied && s'.minted == s.minted)
  {
    hide SpendFamily;
  }

  lemma {:induction false} OthersDenylist(env: Setting, s: ServerState, clock: Instant, r: Request, sid: string)
    requires !r.RevokeToken? && Good(s, clock) && !Revoked(s, sid)
    ensures Revoked(Handle(env.cfg, env.s256, s, r).0, sid) ==> Denylists(env.cfg, s, r) == Some(sid)
  {
    hide SpendFamily, IssueSpec, ConsumeSpec;
  }

  /** After that, access tokens of the revoked session live on: as long as nothing
      denylists it, a bearer check accepts exactly the tokens that verify, among
      them every unexpired one from before. */
  lemma {:induction false} SpentTokenKeepsAccess(env: Setting, s: ServerState, clock: Instant, reqs: seq<Request>,
                                                 k: nat, c: Claims)
    requires Good(s, clock) && Run(env, s, clock, reqs) && 0 < k < |reqs| && c.sid !in s.denied
    requires SpentAtEndpoint(env.cfg, s, reqs[0], c.sid)
    requires forall j :: 0 <= j < k ==> Denylists(env.cfg, After(env, s, reqs, j), reqs[j]) != Some(c.sid)
    requires reqs[k].Access? && reqs[k].token.decoded == Some(c)
    ensures Revoked(After(env, s, reqs, k), c.sid)
    ensures Answer(env, s, reqs, k) == Accepted(c) <==>
              Verify(env.cfg, After(env, s, reqs, k).minted, reqs[k].token, reqs[k].tVerify).Ok?
    ensures Verify(env.cfg, s.minted, reqs[k].token, reqs[k].tVerify).Ok? ==> Answer(env, s, reqs, k) == Accepted(c)
  {
    NoEntryAppears(env, s, clock, reqs, k, c.sid);
    SpentTokenRevokes(env, s, clock, reqs, k, c.sid);
  }

  lemma {:induction false} NoEntryAppears(env: Setting, s: ServerState, clock: Instant, reqs: seq<Request>,
                                          k: nat, sid: string)
    requires Good(s, clock) && Run(env, s, clock, reqs) && k <= |reqs| && sid !in s.denied
    requires forall j :: 0 <= j < k ==> Denylists(env.cfg, After(env, s, reqs, j), reqs[j]) != Some(sid)
    ensures sid !in After(env, s, reqs, k).denied && s.minted <= After(env, s, reqs, k).minted
  {
    hide Handle, Good, Denylists, Families.Extends, Fresh;
    if k > 0 {
      NoEntryAppears(env, s, clock, reqs, k - 1, sid);
      RunKeepsGood(env, s, clock, reqs, k - 1);
      var was, now := After(env, s, reqs, k - 1), Clock(clock, reqs, k - 1);
      EntryStep(env, was, now, reqs[k - 1], sid);
      HandleStep(env, was, now, reqs[k - 1]);
    }
  }

  lemma {:induction false} SpentTokenRevokes(env: Setting, s: ServerState, clock: Instant, reqs: seq<Request>,
                                             k: nat, sid: string)
    requires Good(s, clock) && Run(env, s, clock, reqs) && 0 < k <= |reqs|
    requires SpentAtEndpoint(env.cfg, s, reqs[0], sid)
    ensures Revoked(After(env, s, reqs, k), sid)
  {
    hide Handle, Good, Fresh;
    RunKeepsGood(env, s, clock, reqs, k - 1);
    var was, now := After(env, s, reqs, k - 1), Clock(clock, reqs, k - 1);
    HandleStep(env, was, now, reqs[k - 1]);
    if k > 1 {
      SpentTokenRevokes(env, s, clock, reqs, k - 1, sid);
    } else if !Revoked(s, sid) {
      RevokedWithoutEntry(env, s, clock, reqs[0], sid);
    }
  }

  /** Whatever revoked the session, one access-token lifetime later every token
      it ever had is dead. */
  lemma {:induction false} DeadWithinOneLifetime(env: Setting, s: ServerState, clock: Instant, reqs: seq<Request>,
                                                 k: nat, c: Claims)
    requires Good(s, clock) && Run(env, s, clock, reqs) && k < |reqs| && Revoked(s, c.sid)
    requires reqs[k].Access? && reqs[k].token.decoded == Some(c) && clock + ACCESS_TOKEN_TTL < reqs[k].tVerify
    ensures Answer(env, s, reqs, k) == Refused
  {
    NothingMintedSince(env, s, clock, reqs, k, c.sid);
  }

  lemma {:induction false} NothingMintedSince(env: Setting, s: ServerState, clock: Instant, reqs: seq<Request>,
                                              k: nat, sid: string)
    requires Good(s, clock) && Run(env, s, clock, reqs) && k <= |reqs| && Revoked(s, sid)
    ensures Revoked(After(env, s, reqs, k), sid)
    ensures forall c :: c in After(env, s, reqs, k).minted && c.sid == sid ==> c in s.minted
  {
    hide Handle, Good;
    if k > 0 {
      NothingMintedSince(env, s, clock, reqs, k - 1, sid);
      RunKeepsGood(env, s, clock, reqs, k - 1);
      HandleStep(env, After(env, s, reqs, k - 1), Clock(clock, reqs, k - 1), reqs[k - 1]);
    }
  }
}
