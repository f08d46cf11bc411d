/** Where issued tokens come from, over whole server runs: what a token carries is
    what its session was enrolled with, and a code yields tokens only to whom the
    enrollment allows. */
module Provenance {
  import opened Base
  import opened Sessions
  import opened AuthCodes
  import opened Tokens
  import opened AuthServer
  import Families
  import R = Revocation
  import V = ServerRuns

  // ---- sessions

  /** The session is the one the request enrolled; later calls change only when it
      was seen, when it expires, how often it was renewed and whether it is revoked. */
  ghost predicate EnrolledAs(s: Session, r: Request) {
    && r.Authorize? && r.accepted && s.id == r.sid && s.name == r.grant.name && s.scopes == r.grant.scopes
    && s.clientHint == r.grant.clientID && s.createdAt == r.t
  }

  ghost predicate SameProfile(a: Session, b: Session) {
    && a.id == b.id && a.name == b.name && a.scopes == b.scopes
    && a.clientHint == b.clientHint && a.createdAt == b.createdAt
  }

  ghost predicate KeepsProfiles(s: ServerState, s': ServerState, r: Request) {
    forall sid :: sid in s'.store.sessions ==>
      if sid in s.store.sessions then SameProfile(s'.store.sessions[sid], s.store.sessions[sid])
      else r.Authorize? && r.sid == sid && EnrolledAs(s'.store.sessions[sid], r)
  }

  lemma {:induction false} RotationKeepsProfiles(st: StoreState, o: string, n: string, now: Instant)
    ensures var (st', got) := RotateSpec(st, o, n, now);
            && st'.sessions.Keys == st.sessions.Keys
            && (forall sid :: sid in st.sessions ==> SameProfile(st'.sessions[sid], st.sessions[sid]))
            && (got.Ok? ==> && o in st.refresh && st.refresh[o].sid in st.sessions
                            && SameProfile(got.value, st.sessions[st.refresh[o].sid]))
  {
    hide SpendFamily;
  }

  lemma {:induction false} StepKeepsProfiles(env: R.Setting, s: ServerState, r: Request)
    ensures KeepsProfiles(s, Handle(env.cfg, env.s256, s, r).0, r)
  {
    hide RotateSpec, RevokeSpec, RevokeTokenSpec, IssueSpec, ConsumeSpec, Mint, DenySpec;
    match r
    case FromRefresh(_, presented, _, next, t, _) => RotationKeepsProfiles(s.store, presented, next, t);
    case RevokeToken(_, _, _, _, _) => EndpointKeepsProfiles(env, s, r);
    case RevokeTool(_, sid, t, _) => RevocationKeepsProfiles(s.store, sid, t);
    case _ =>
  }

  lemma {:induction false} EndpointKeepsProfiles(env: R.Setting, s: ServerState, r: Request)
    requires r.RevokeToken?
    ensures KeepsProfiles(s, Handle(env.cfg, env.s256, s, r).0, r)
  {
    hide RotateSpec, RevokeSpec, Verify;
    RotationKeepsProfiles(s.store, r.token.text, r.next, r.t);
    var verified := Verify(env.cfg, s.minted, r.token, r.tVerify);
    if verified.Ok? {
      RevocationKeepsProfiles(s.store, verified.value.sid, r.t);
    } else {
      var (store, got) := RotateSpec(s.store, r.token.text, r.next, r.t);
      if got.Ok? {
        RevocationKeepsProfiles(store, got.value.id, r.t);
      }
    }
  }

  lemma {:induction false} RevocationKeepsProfiles(st: StoreState, sid: string, now: Instant)
    ensures var st' := RevokeSpec(st, sid, now).0;
            && st'.sessions.Keys == st.sessions.Keys
            && (forall id :: id in st.sessions ==> SameProfile(st'.sessions[id], st.sessions[id]))
  {
    hide SpendFamily;
  }

  /** Every session was enrolled by exactly the request that created it, with the
      name and the scopes of that request. */
  lemma {:induction false} EnrolledBy(env: R.Setting, clock: Instant, reqs: seq<Request>, k: nat, sid: string)
    returns (i: nat)
    requires V.Run(env, clock, reqs) && k <= |reqs| && sid in R.After(env, V.Boot, reqs, k).store.sessions
    ensures i < k && EnrolledAs(R.After(env, V.Boot, reqs, k).store.sessions[sid], reqs[i])
    ensures sid !in R.After(env, V.Boot, reqs, i).store.sessions
  {
    hide Handle, EnrolledAs;
    var s := R.After(env, V.Boot, reqs, k - 1);
    StepKeepsProfiles(env, s, reqs[k - 1]);
    if sid in s.store.sessions {
      i := EnrolledBy(env, clock, reqs, k - 1, sid);
      SameEnrollment(R.After(env, V.Boot, reqs, k).store.sessions[sid], s.store.sessions[sid], reqs[i]);
    } else {
      i := k - 1;
    }
  }

  lemma SameEnrollment(a: Session, b: Session, r: Request)
    requires SameProfile(a, b) && EnrolledAs(b, r)
    ensures EnrolledAs(a, r)
  {
  }

  // ---- what an issued token carries

  /** The session a token answer is about. */
  function SessionOf(s: ServerState, r: Request): Option<string> {
    match r
    case FromCode(_, code, _, _, _, _, _, _, _) => if code in s.codes then Some(s.codes[code].sessionID) else None
    case FromRefresh(_, presented, _, _, _, _) =>
      if presented in s.store.refresh then Some(s.store.refresh[presented].sid) else None
    case _ => None
  }

  /** Claim by claim: it is for this issuer and resource, about the session, with that
      session's scopes and name, and lives for one lifetime from its minting, in
      whole seconds. */
  ghost predicate Carries(cfg: Config, c: Claims, s: Session, jti: string, now: Instant) {
    && c.issuer == cfg.issuer && c.audience == cfg.audience && c.subject == s.id && c.sid == s.id
    && c.scopes == s.scopes && c.name == s.name && c.jti == jti && jti != ""
    && c.issuedAt * SECOND <= now < (c.issuedAt + 1) * SECOND
    && c.expires * SECOND <= now + ACCESS_TOKEN_TTL < (c.expires + 1) * SECOND
  }

  lemma {:induction false} IssuedCarries(env: R.Setting, s: ServerState, clock: Instant, r: Request)
    requires R.Good(s, clock) && Handle(env.cfg, env.s256, s, r).1.Issued?
    ensures var resp := Handle(env.cfg, env.s256, s, r).1;
            && (r.FromCode? || r.FromRefresh?) && resp.renext == r.next
            && SessionOf(s, r) == Some(resp.access.sid) && resp.access.sid in s.store.sessions
            && Carries(env.cfg, resp.access, s.store.sessions[resp.access.sid], r.jti,
                       if r.FromCode? then r.tMint else r.tNext)
  {
    hide RotateSpec, IssueRefreshSpec, Mint;
    match r
    case FromCode(_, code, _, jti, _, _, _, tMint, _) =>
      var sess := s.store.sessions[s.codes[code].sessionID];
      MintedClaims(env.cfg, sess.id, sess.name, sess.scopes, jti, tMint);
    case FromRefresh(_, presented, jti, next, t, tNext) =>
      RotationKeepsProfiles(s.store, presented, next, t);
      var sess := RotateSpec(s.store, presented, next, t).1.value;
      MintedClaims(env.cfg, sess.id, sess.name, sess.scopes, jti, tNext);
  }

  /** In every server run, every token that is handed out carries the scopes and the
      name of the enrollment of its session, and the claims of its minting. */
  lemma {:induction false} TokensCarryTheirGrant(env: R.Setting, clock: Instant, reqs: seq<Request>, k: nat)
    returns (i: nat)
    requires V.Run(env, clock, reqs) && k < |reqs| && R.Answer(env, V.Boot, reqs, k).Issued?
    ensures reqs[k].FromCode? || reqs[k].FromRefresh?
    ensures var c := R.Answer(env, V.Boot, reqs, k).access;
            var now := if reqs[k].FromCode? then reqs[k].tMint else reqs[k].tNext;
            && i < k && reqs[i].Authorize? && reqs[i].accepted && reqs[i].sid == c.sid
            && c.scopes == reqs[i].grant.scopes && c.name == reqs[i].grant.name
            && c.issuer == env.cfg.issuer && c.audience == env.cfg.audience && c.subject == c.sid
            && c.jti == reqs[k].jti && R.Answer(env, V.Boot, reqs, k).renext == reqs[k].next
            && c.issuedAt * SECOND <= now < (c.issuedAt + 1) * SECOND
            && c.expires * SECOND <= now + ACCESS_TOKEN_TTL < (c.expires + 1) * SECOND
  {
    hide Handle, R.Good;
    V.BootIsGood(clock);
    R.RunKeepsGood(env, V.Boot, clock, reqs, k);
    IssuedCarries(env, R.After(env, V.Boot, reqs, k), R.Clock(clock, reqs, k), reqs[k]);
    i := EnrolledBy(env, clock, reqs, k, R.Answer(env, V.Boot, reqs, k).access.sid);
  }

  // ---- codes

  /** The code stands for the enrollment of its session. */
  ghost predicate CodeFor(c: Code, r: Request) {
    && r.Authorize? && r.accepted && c.code == r.code && c.sessionID == r.sid
    && c.name == r.grant.name && c.scopes == r.grant.scopes && c.clientID == r.grant.clientID
    && c.redirectURI == r.grant.redirectURI && c.challenge == r.grant.challenge && c.resource == r.grant.resource
    && c.issuedAt == r.tCode && c.expiresAt == r.tCode + AUTH_CODE_TTL
  }

  lemma {:induction false} CodesStep(env: R.Setting, s: ServerState, r: Request)
    ensures forall k :: k in Handle(env.cfg, env.s256, s, r).0.codes ==>
              || (k in s.codes && Handle(env.cfg, env.s256, s, r).0.codes[k] == s.codes[k])
              || (r.Authorize? && k == r.code && CodeFor(Handle(env.cfg, env.s256, s, r).0.codes[k], r))
  {
    hide RotateSpec, SpendFamily, RevokeSpec, IssueRefreshSpec;
  }

  lemma {:induction false} CodeIssuedBy(env: R.Setting, clock: Instant, reqs: seq<Request>, k: nat, code: string)
    returns (i: nat)
    requires V.Run(env, clock, reqs) && k <= |reqs| && code in R.After(env, V.Boot, reqs, k).codes
    ensures i < k && CodeFor(R.After(env, V.Boot, reqs, k).codes[code], reqs[i])
    ensures reqs[i].Authorize? && reqs[i].code == code
  {
    hide Handle, CodeFor;
    var s := R.After(env, V.Boot, reqs, k - 1);
    CodesStep(env, s, reqs[k - 1]);
    if code in s.codes && R.After(env, V.Boot, reqs, k).codes[code] == s.codes[code] {
      i := CodeIssuedBy(env, clock, reqs, k - 1, code);
    } else {
      i := k - 1;
    }
  }

  /** In every server run, a code yields tokens only within a minute of its
      authorization, to a client it may be given to, who names the redirect target
      and knows the verifier of that authorization, for this server's resource. */
  lemma {:induction false} ExchangeIsBound(env: R.Setting, clock: Instant, reqs: seq<Request>, k: nat)
    returns (i: nat)
    requires V.Run(env, clock, reqs) && k < |reqs| && reqs[k].FromCode? && R.Answer(env, V.Boot, reqs, k).Issued?
    ensures i < k && reqs[i].Authorize? && reqs[i].accepted && reqs[i].code == reqs[k].code
    ensures var g, p := reqs[i].grant, reqs[k].p;
            && R.Answer(env, V.Boot, reqs, k).access.sid == reqs[i].sid
            && reqs[k].tConsume <= reqs[i].tCode + AUTH_CODE_TTL
            && (g.clientID == "" || p.clientID == "" || g.clientID == p.clientID)
            && (g.redirectURI == "" || g.redirectURI == p.redirectURI)
            && 43 <= |p.verifier| <= 128 && env.s256(p.verifier) == g.challenge && g.challenge != ""
            && (reqs[k].resource == "" || SameResource(reqs[k].resource, env.cfg.audience))
  {
    hide R.Good, Handle, RotateSpec, IssueRefreshSpec, Mint;
    V.BootIsGood(clock);
    R.RunKeepsGood(env, V.Boot, clock, reqs, k);
    var s := R.After(env, V.Boot, reqs, k);
    AnswersExactly(env, s, R.Clock(clock, reqs, k), reqs[k]);
    i := CodeIssuedBy(env, clock, reqs, k, reqs[k].code);
    IssuedCarries(env, s, R.Clock(clock, reqs, k), reqs[k]);
  }

  // ---- exactly when tokens are handed out

  /** Codes and refresh tokens: the state in which a request is answered with tokens,
      written out. */
  lemma {:induction false} AnswersExactly(env: R.Setting, s: ServerState, clock: Instant, r: Request)
    requires R.Good(s, clock)
    ensures r.FromCode? ==>
              (Handle(env.cfg, env.s256, s, r).1.Issued? <==>
                 && (r.resource == "" || SameResource(r.resource, env.cfg.audience))
                 && r.code in s.codes && r.tConsume <= s.codes[r.code].expiresAt
                 && (s.codes[r.code].clientID == "" || r.p.clientID == "" || s.codes[r.code].clientID == r.p.clientID)
                 && (s.codes[r.code].redirectURI == "" || s.codes[r.code].redirectURI == r.p.redirectURI)
                 && s.codes[r.code].challenge != "" && 43 <= |r.p.verifier| <= 128
                 && env.s256(r.p.verifier) == s.codes[r.code].challenge
                 && s.codes[r.code].sessionID in s.store.sessions
                 && !s.store.sessions[s.codes[r.code].sessionID].revoked
                 && r.tActive < s.store.sessions[s.codes[r.code].sessionID].expiresAt
                 && r.jti != "" && r.next != "" && r.next !in s.store.refresh)
    ensures r.FromRefresh? ==>
              (Handle(env.cfg, env.s256, s, r).1.Issued? <==>
                 && (r.resource == "" || SameResource(r.resource, env.cfg.audience))
                 && r.presented != "" && r.presented in s.store.refresh && !s.store.refresh[r.presented].used
                 && r.t <= s.store.refresh[r.presented].expiresAt
                 && r.jti != "" && r.next != "")
    ensures Handle(env.cfg, env.s256, s, r).1.Issued? ==> r.FromCode? || r.FromRefresh?
  {
    hide SpendFamily, Mint;
  }

  /** All other requests: when they succeed, and that nothing else is ever answered. */
  lemma {:induction false} OtherAnswersExactly(env: R.Setting, s: ServerState, r: Request)
    requires !r.FromCode? && !r.FromRefresh? && "" !in s.store.sessions
    ensures var resp := Handle(env.cfg, env.s256, s, r).1;
            match r
            case Authorize(accepted, sid, code, _, _, _) =>
              resp == if accepted && sid != "" && sid !in s.store.sessions && code != "" then Redirect(code)
                      else Refused
            case RevokeToken(token, _, _, _, _) => resp == if token.text == "" then Refused else Done
            case RevokeTool(allowed, sid, _, _) => resp == if allowed && sid in s.store.sessions then Done else Refused
            case Access(token, tVerify, tDenied) =>
              && (resp == Refused || (token.decoded.Some? && resp == Accepted(token.decoded.value)))
              && (resp != Refused <==>
                    && token.decoded.Some?
                    && var c := token.decoded.value;
                       && c in s.minted && c.audience == env.cfg.audience && c.issuer == env.cfg.issuer
                       && c.sid != "" && c.expires != 0 && tVerify <= c.expires * SECOND
                       && (c.sid !in s.denied || s.denied[c.sid] < tDenied))
  {
  }

  /** Two resources are the same exactly if they are but for slashes at the end. */
  lemma {:induction false} SlashesTrimmed(s: string) returns (tail: string)
    ensures s == TrimSlashes(s) + tail && (forall c :: c in tail ==> c == '/')
    ensures TrimSlashes(s) != "" ==> TrimSlashes(s)[|TrimSlashes(s)| - 1] != '/'
  {
    if s != "" && s[|s| - 1] == '/' {
      var rest := SlashesTrimmed(s[..|s| - 1]);
      tail := rest + [s[|s| - 1]];
    } else {
      tail := "";
    }
  }

  // ---- when a session was seen and revoked

  /** A request marks a session as seen when it creates or renews it or issues its
      first refresh token, and dates a revocation by its own reading of the clock. */
  ghost predicate Dates(env: R.Setting, s: ServerState, r: Request, sid: string) {
    var (s', resp) := Handle(env.cfg, env.s256, s, r);
    sid in s'.store.sessions ==>
      var now := s'.store.sessions[sid];
      && (V.Renews(env.cfg, s, r, sid) ==> now.lastSeen == r.t)
      && (!V.Renews(env.cfg, s, r, sid) && sid in s.store.sessions ==>
            now.lastSeen == if r.FromCode? && resp.Issued? && resp.access.sid == sid then r.tIssue
                            else s.store.sessions[sid].lastSeen)
      && (now.revoked && sid in s.store.sessions && !s.store.sessions[sid].revoked ==>
            (r.FromRefresh? || r.RevokeToken? || r.RevokeTool?) && now.revokedAt == Some(r.t))
  }

  lemma {:induction false} StepDates(env: R.Setting, s: ServerState, clock: Instant, r: Request, sid: string)
    requires R.Good(s, clock)
    ensures Dates(env, s, r, sid)
  {
    hide RotateSpec, SpendFamily, IssueSpec, ConsumeSpec;
    match r
    case FromRefresh(_, presented, _, next, t, _) => RotationDates(s.store, presented, next, t, sid);
    case RevokeToken(_, _, _, _, _) => EndpointDates(env, s, clock, r, sid);
    case _ =>
  }

  lemma {:induction false} EndpointDates(env: R.Setting, s: ServerState, clock: Instant, r: Request, sid: string)
    requires r.RevokeToken? && R.Good(s, clock)
    ensures Dates(env, s, r, sid)
  {
    hide RotateSpec, SpendFamily, Verify;
    RotationDates(s.store, r.token.text, r.next, r.t, sid);
  }

  lemma {:induction false} RotationDates(st: StoreState, o: string, n: string, now: Instant, sid: string)
    requires Families.Sound(st)
    ensures var (st', got) := RotateSpec(st, o, n, now);
            && st'.sessions.Keys == st.sessions.Keys
            && (sid in st.sessions ==>
                  && st'.sessions[sid].lastSeen ==
                     (if V.Exchangeable(st, o, now, sid) then now else st.sessions[sid].lastSeen)
                  && (st'.sessions[sid].revoked && !st.sessions[sid].revoked ==>
                        st'.sessions[sid].revokedAt == Some(now)))
  {
    hide SpendFamily;
  }
}
