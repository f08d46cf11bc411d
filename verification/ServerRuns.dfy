/** Server runs are interleavings: a handler that runs without interruption makes
    a legal series of store calls, so what holds of every interleaving holds of
    every server run, together with what the handlers issue. */
module ServerRuns {
  import opened Base
  import opened Sessions
  import opened AuthCodes
  import opened Tokens
  import opened AuthServer
  import Families
  import R = Revocation
  import I = Interleaving

  /** The calls a handler makes on the two stores, in order. */
  function Calls(env: R.Setting, s: ServerState, r: Request): seq<I.Call> {
    match r
    case Authorize(accepted, sid, code, grant, t, tCode) =>
      var session := NewSession(sid, grant, t);
      if !accepted then []
      else if CreateSpec(s.store, session).1.Some? then [I.Create(session)]
      else if code == "" then [I.Create(session), I.GiveUp(sid, tCode)]
      else [I.Create(session), I.IssueCode(sid, code, grant, tCode)]
    case FromCode(resource, code, p, jti, next, tConsume, tActive, _, tIssue) =>
      var found := ConsumeSpec(env.s256, s.codes, code, p, tConsume).1;
      if resource != "" && !SameResource(resource, env.cfg.audience) then []
      else if found.Err? then [I.Consume(code, p, tConsume)]
      else
        var got := GetSpec(s.store, found.value.sessionID);
        if got.Err? || !got.value.Active(tActive) || jti == ""
        then [I.Consume(code, p, tConsume), I.GiveUp(found.value.sessionID, tActive)]
        else [I.Consume(code, p, tConsume), I.FirstRefresh(got.value.id, next, tIssue)]
    case FromRefresh(resource, presented, _, next, t, _) =>
      if presented == "" || (resource != "" && !SameResource(resource, env.cfg.audience)) || next == "" then []
      else [I.Rotate(presented, next, t)]
    case RevokeToken(token, next, t, tVerify, _) =>
      var verified := Verify(env.cfg, s.minted, token, tVerify);
      if token.text == "" then []
      else if verified.Ok? then [I.Revoke(verified.value.sid, t)]
      else if next == "" then []
      else
        var got := RotateSpec(s.store, token.text, next, t).1;
        if got.Ok? then [I.Rotate(token.text, next, t), I.Revoke(got.value.id, t)] else [I.Rotate(token.text, next, t)]
    case RevokeTool(allowed, sid, t, _) =>
      if !allowed || sid !in s.store.sessions then [] else [I.Revoke(sid, t)]
    case Access(_, _, _) => []
  }

  function Idle(s: ServerState): I.World {
    I.World(s.store, s.codes, {}, {})
  }

  /** At most two calls, so this is the whole effect of a handler. */
  function Perform(s256: string -> string, w: I.World, calls: seq<I.Call>): I.World
    requires |calls| <= 2
  {
    if |calls| == 0 then w
    else if |calls| == 1 then I.Step(s256, w, calls[0])
    else I.Step(s256, I.Step(s256, w, calls[0]), calls[1])
  }

  ghost predicate Fresh(s: ServerState, r: Request) {
    R.Fresh(s, r) && (r.Authorize? ==> r.code !in s.codes)
  }

  /** A handler is its calls, made one after the other. */
  lemma {:induction false} HandlerIsItsCalls(env: R.Setting, s: ServerState, clock: Instant, r: Request)
    requires R.Good(s, clock) && Fresh(s, r)
    ensures IsItsCalls(env, s, r)
  {
    hide IsItsCalls;
    match r
    case FromCode(_, _, _, _, _, _, _, _, _) => ExchangeIsItsCalls(env, s, clock, r);
    case RevokeToken(_, _, _, _, _) => RevocationIsItsCalls(env, s, clock, r);
    case _ => OthersAreTheirCalls(env, s, clock, r);
  }

  /** The calls may be made in turn and leave behind what the handler does. */
  ghost predicate IsItsCalls(env: R.Setting, s: ServerState, r: Request) {
    var calls := Calls(env, s, r);
    && Perform(env.s256, Idle(s), calls) == Idle(Handle(env.cfg, env.s256, s, r).0)
    && (|calls| > 0 ==> I.Enabled(Idle(s), calls[0]))
    && (|calls| > 1 ==> I.Enabled(I.Step(env.s256, Idle(s), calls[0]), calls[1]))
  }

  lemma {:induction false} ExchangeIsItsCalls(env: R.Setting, s: ServerState, clock: Instant, r: Request)
    requires r.FromCode? && R.Good(s, clock) && Fresh(s, r)
    ensures IsItsCalls(env, s, r)
  {
    hide RotateSpec, RevokeSpec, IssueSpec, ConsumeSpec;
  }

  lemma {:induction false} RevocationIsItsCalls(env: R.Setting, s: ServerState, clock: Instant, r: Request)
    requires r.RevokeToken? && R.Good(s, clock) && Fresh(s, r)
    ensures IsItsCalls(env, s, r)
  {
    hide RotateSpec, SpendFamily, IssueSpec, ConsumeSpec;
    R.RotationFacts(s.store, r.token.text, r.next, r.t);
  }

  lemma {:induction false} OthersAreTheirCalls(env: R.Setting, s: ServerState, clock: Instant, r: Request)
    requires !r.FromCode? && !r.RevokeToken? && R.Good(s, clock) && Fresh(s, r)
    ensures IsItsCalls(env, s, r)
  {
    hide RotateSpec, SpendFamily, IssueSpec, ConsumeSpec;
  }

  /** Appending a handler's calls to a legal interleaving keeps it legal. */
  lemma {:induction false} Append(s256: string -> string, calls: seq<I.Call>, a: I.Call)
    requires I.Legal(s256, calls) && I.Enabled(I.After(s256, calls, |calls|), a)
    ensures I.Legal(s256, calls + [a])
    ensures I.After(s256, calls + [a], |calls| + 1) == I.Step(s256, I.After(s256, calls, |calls|), a)
  {
    hide I.Step, I.Enabled;
    forall k | 0 <= k <= |calls|
      ensures I.After(s256, calls + [a], k) == I.After(s256, calls, k)
    {
      SamePrefix(s256, calls, a, k);
    }
  }

  lemma {:induction false} SamePrefix(s256: string -> string, calls: seq<I.Call>, a: I.Call, k: nat)
    requires k <= |calls|
    ensures I.After(s256, calls + [a], k) == I.After(s256, calls, k)
  {
    hide I.Step;
    if k > 0 {
      SamePrefix(s256, calls, a, k - 1);
    }
  }

  /** The server right after start-up. */
  const Boot := ServerState(EmptyStore, map[], map[], {})

  ghost predicate Run(env: R.Setting, clock: Instant, reqs: seq<Request>) {
    && R.Run(env, Boot, clock, reqs)
    && forall k :: 0 <= k < |reqs| ==> Fresh(R.After(env, Boot, reqs, k), reqs[k])
  }

  lemma BootIsGood(clock: Instant)
    ensures R.Good(Boot, clock)
  {
  }

  /** A handler's calls come in the order of its clock readings. */
  lemma {:induction false} CallsInOrder(env: R.Setting, s: ServerState, clock: Instant, r: Request)
    requires R.Ordered(clock, r)
    ensures var calls := Calls(env, s, r);
            && (|calls| == 1 ==> clock <= I.At(calls[0]) <= R.Last(r))
            && (|calls| > 1 ==> clock <= I.At(calls[0]) <= I.At(calls[1]) <= R.Last(r))
  {
    hide ConsumeSpec, RotateSpec, CreateSpec;
  }

  /** The calls come in the order of time, none after `now`. */
  ghost predicate UpTo(calls: seq<I.Call>, now: Instant) {
    I.Timed(calls) && forall i :: 0 <= i < |calls| ==> I.At(calls[i]) <= now
  }

  lemma AppendInTime(calls: seq<I.Call>, a: I.Call, was: Instant, now: Instant)
    requires UpTo(calls, was) && was <= I.At(a) <= now
    ensures UpTo(calls + [a], now)
  {
    hide I.At;
  }

  lemma Later(calls: seq<I.Call>, was: Instant, now: Instant)
    requires UpTo(calls, was) && was <= now
    ensures UpTo(calls, now)
  {
  }

  /** Every server run is a legal interleaving of store calls, made in the order of
      time and none after the clock of the run. */
  lemma {:induction false} RunIsAnInterleaving(env: R.Setting, clock: Instant, reqs: seq<Request>, k: nat)
    returns (calls: seq<I.Call>)
    requires Run(env, clock, reqs) && k <= |reqs|
    ensures I.Legal(env.s256, calls)
    ensures I.After(env.s256, calls, |calls|) == Idle(R.After(env, Boot, reqs, k))
    ensures UpTo(calls, R.Clock(clock, reqs, k))
  {
    hide Handle, I.Step, I.Enabled, I.Legal, R.Good, R.Ordered, R.Last, Calls, Fresh, UpTo, I.At;
    if k == 0 {
      calls := [];
      NothingIsLegal(env.s256, clock);
    } else {
      calls := RunIsAnInterleaving(env, clock, reqs, k - 1);
      var s := R.After(env, Boot, reqs, k - 1);
      BootIsGood(clock);
      R.RunKeepsGood(env, Boot, clock, reqs, k - 1);
      HandlerIsItsCalls(env, s, R.Clock(clock, reqs, k - 1), reqs[k - 1]);
      var more := Calls(env, s, reqs[k - 1]);
      CallsAreFew(env, s, reqs[k - 1]);
      var was, now := R.Clock(clock, reqs, k - 1), R.Clock(clock, reqs, k);
      CallsInOrder(env, s, was, reqs[k - 1]);
      R.ClockAdvances(was, reqs[k - 1]);
      Later(calls, was, if |more| > 0 then I.At(more[0]) else now);
      if |more| > 0 {
        Append(env.s256, calls, more[0]);
        AppendInTime(calls, more[0], I.At(more[0]), if |more| > 1 then I.At(more[1]) else now);
        calls := calls + [more[0]];
      }
      if |more| > 1 {
        Append(env.s256, calls, more[1]);
        AppendInTime(calls, more[1], I.At(more[1]), now);
        calls := calls + [more[1]];
      }
    }
  }

  lemma NothingIsLegal(s256: string -> string, clock: Instant)
    ensures I.Legal(s256, []) && UpTo([], clock)
  {
  }

  lemma CallsAreFew(env: R.Setting, s: ServerState, r: Request)
    ensures |Calls(env, s, r)| <= 2
  {
  }

  /** In every state of every server run a session's refresh tokens form one
      chain, and its live token expires exactly when the session does. */
  lemma {:induction false} FamiliesInServerRuns(env: R.Setting, clock: Instant, reqs: seq<Request>, k: nat, sid: string)
    returns (chain: seq<string>)
    requires Run(env, clock, reqs) && k <= |reqs| && sid in R.After(env, Boot, reqs, k).store.sessions
    ensures I.IsFamily(R.After(env, Boot, reqs, k).store, sid, chain)
    ensures LiveWindow(R.After(env, Boot, reqs, k).store)
  {
    hide I.IsFamily, R.After;
    var calls := RunIsAnInterleaving(env, clock, reqs, k);
    chain := I.FamiliesAreChains(env.s256, calls, |calls|, sid);
    var st := R.After(env, Boot, reqs, k).store;
    forall t | t in st.refresh && !st.refresh[t].used
      ensures st.refresh[t].sid in st.sessions && st.refresh[t].expiresAt == st.sessions[st.refresh[t].sid].expiresAt
    {
      I.OneLiveToken(env.s256, calls, |calls|, t);
    }
  }

  ghost predicate LiveWindow(st: StoreState) {
    forall t :: t in st.refresh && !st.refresh[t].used ==>
      st.refresh[t].sid in st.sessions && st.refresh[t].expiresAt == st.sessions[st.refresh[t].sid].expiresAt
  }

  // ---- the sliding window, request by request

  predicate Exchangeable(st: StoreState, token: string, t: Instant, sid: string) {
    token in st.refresh && st.refresh[token].sid == sid && !st.refresh[token].used && t <= st.refresh[token].expiresAt
  }

  /** The request creates the session or exchanges a refresh token of it, be it
      only to revoke it. */
  predicate Renews(cfg: Config, s: ServerState, r: Request, sid: string) {
    match r
    case Authorize(accepted, id, _, _, _, _) => accepted && id == sid && sid != "" && sid !in s.store.sessions
    case FromRefresh(resource, presented, _, next, t, _) =>
      && presented != "" && next != "" && (resource == "" || SameResource(resource, cfg.audience))
      && Exchangeable(s.store, presented, t, sid)
    case RevokeToken(token, next, t, tVerify, _) =>
      && token.text != "" && next != "" && Verify(cfg, s.minted, token, tVerify).Err?
      && Exchangeable(s.store, token.text, t, sid)
    case _ => false
  }

  /** When a session was last created or renewed. */
  function Renewed(env: R.Setting, reqs: seq<Request>, k: nat, sid: string): Option<Instant>
    requires k <= |reqs|
  {
    if k == 0 then None
    else if Renews(env.cfg, R.After(env, Boot, reqs, k - 1), reqs[k - 1], sid) then Some(reqs[k - 1].t)
    else Renewed(env, reqs, k - 1, sid)
  }

  /** A renewal, and nothing else, brings a session into being or moves its expiry. */
  ghost predicate MovesExpiry(env: R.Setting, s: ServerState, r: Request, sid: string) {
    var s' := Handle(env.cfg, env.s256, s, r).0;
    && (sid in s'.store.sessions <==> sid in s.store.sessions || Renews(env.cfg, s, r, sid))
    && (sid in s'.store.sessions ==>
          s'.store.sessions[sid].expiresAt ==
          if Renews(env.cfg, s, r, sid) then r.t + REFRESH_TTL else s.store.sessions[sid].expiresAt)
  }

  lemma {:induction false} RenewalStep(env: R.Setting, s: ServerState, clock: Instant, r: Request, sid: string)
    requires R.Good(s, clock)
    ensures MovesExpiry(env, s, r, sid)
  {
    hide RotateSpec, SpendFamily, IssueSpec, ConsumeSpec;
    match r
    case RevokeToken(_, _, _, _, _) => EndpointMovesExpiry(env, s, clock, r, sid);
    case FromRefresh(_, presented, _, next, t, _) => RotationMovesExpiry(s.store, presented, next, t, sid);
    case _ =>
  }

  lemma {:induction false} EndpointMovesExpiry(env: R.Setting, s: ServerState, clock: Instant, r: Request, sid: string)
    requires r.RevokeToken? && R.Good(s, clock)
    ensures MovesExpiry(env, s, r, sid)
  {
    hide RotateSpec, SpendFamily;
    RotationMovesExpiry(s.store, r.token.text, r.next, r.t, sid);
  }

  lemma {:induction false} RotationMovesExpiry(st: StoreState, o: string, n: string, now: Instant, sid: string)
    requires Families.Sound(st)
    ensures var (st', got) := RotateSpec(st, o, n, now);
            && st'.sessions.Keys == st.sessions.Keys
            && (Exchangeable(st, o, now, sid) ==> sid in st.sessions)
            && (sid in st.sessions ==>
                  st'.sessions[sid].expiresAt ==
                  if Exchangeable(st, o, now, sid) then now + REFRESH_TTL else st.sessions[sid].expiresAt)
  {
    hide SpendFamily;
  }

  /** In every server run a session expires exactly one refresh lifetime after the
      last request that created or renewed it. */
  lemma {:induction false} WindowInServerRuns(env: R.Setting, clock: Instant, reqs: seq<Request>, k: nat, sid: string)
    requires Run(env, clock, reqs) && k <= |reqs| && sid in R.After(env, Boot, reqs, k).store.sessions
    ensures Renewed(env, reqs, k, sid).Some? && Renewed(env, reqs, k, sid).value <= R.Clock(clock, reqs, k)
    ensures R.After(env, Boot, reqs, k).store.sessions[sid].expiresAt
            == Renewed(env, reqs, k, sid).value + REFRESH_TTL
  {
    hide Handle, R.Good, Renews, Fresh;
    var s, now := R.After(env, Boot, reqs, k - 1), R.Clock(clock, reqs, k - 1);
    BootIsGood(clock);
    R.RunKeepsGood(env, Boot, clock, reqs, k - 1);
    RenewalStep(env, s, now, reqs[k - 1], sid);
    if Renews(env.cfg, s, reqs[k - 1], sid) {
      RenewsInTime(env.cfg, s, reqs[k - 1], sid, now);
    } else {
      WindowInServerRuns(env, clock, reqs, k - 1, sid);
      R.ClockAdvances(now, reqs[k - 1]);
    }
  }

  lemma RenewsInTime(cfg: Config, s: ServerState, r: Request, sid: string, clock: Instant)
    requires Renews(cfg, s, r, sid) && R.Ordered(clock, r)
    ensures clock <= r.t <= R.Last(r)
  {
  }

  /** No request ever moves a session's expiry back. */
  lemma {:induction false} ExpiryNeverShrinks(env: R.Setting, clock: Instant, reqs: seq<Request>,
                                              i: nat, j: nat, sid: string)
    requires Run(env, clock, reqs) && i <= j <= |reqs| && sid in R.After(env, Boot, reqs, i).store.sessions
    ensures sid in R.After(env, Boot, reqs, j).store.sessions
    ensures R.After(env, Boot, reqs, i).store.sessions[sid].expiresAt
            <= R.After(env, Boot, reqs, j).store.sessions[sid].expiresAt
    decreases j
  {
    hide Handle, R.Good, Renews, Fresh;
    if i < j {
      ExpiryNeverShrinks(env, clock, reqs, i, j - 1, sid);
      var s, now := R.After(env, Boot, reqs, j - 1), R.Clock(clock, reqs, j - 1);
      BootIsGood(clock);
      R.RunKeepsGood(env, Boot, clock, reqs, j - 1);
      RenewalStep(env, s, now, reqs[j - 1], sid);
      WindowInServerRuns(env, clock, reqs, j - 1, sid);
      if Renews(env.cfg, s, reqs[j - 1], sid) {
        RenewsInTime(env.cfg, s, reqs[j - 1], sid, now);
      }
    }
  }

  // ---- closed sessions

  /** A token is issued for a session that the request renews, or that a code was
      exchanged for while it was active. */
  lemma {:induction false} IssuedInTime(env: R.Setting, s: ServerState, clock: Instant, r: Request)
    requires R.Good(s, clock) && Handle(env.cfg, env.s256, s, r).1.Issued?
    ensures var sid := Handle(env.cfg, env.s256, s, r).1.access.sid;
            || Renews(env.cfg, s, r, sid)
            || (r.FromCode? && sid in s.store.sessions && r.tActive < s.store.sessions[sid].expiresAt)
  {
    hide ConsumeSpec, IssueRefreshSpec, SpendFamily;
  }

  lemma {:induction false} ClosedStep(env: R.Setting, s: ServerState, clock: Instant, r: Request, sid: string)
    requires R.Good(s, clock) && R.Ordered(clock, r) && LiveWindow(s.store)
    requires sid in s.store.sessions && s.store.sessions[sid].expiresAt < clock
    ensures var (s', resp) := Handle(env.cfg, env.s256, s, r);
            && sid in s'.store.sessions && s'.store.sessions[sid].expiresAt == s.store.sessions[sid].expiresAt
            && (resp.Issued? ==> resp.access.sid != sid)
  {
    hide Handle, R.Good;
    RenewalStep(env, s, clock, r, sid);
    if Handle(env.cfg, env.s256, s, r).1.Issued? {
      IssuedInTime(env, s, clock, r);
    }
  }

  /** Once the clock has passed a session's expiry, the server never issues
      anything for it again, and its expiry never moves. */
  lemma {:induction false} ClosedSessionIssuesNothing(env: R.Setting, clock: Instant, reqs: seq<Request>,
                                                     m: nat, j: nat, sid: string)
    requires Run(env, clock, reqs) && m <= j < |reqs| && sid in R.After(env, Boot, reqs, m).store.sessions
    requires R.After(env, Boot, reqs, m).store.sessions[sid].expiresAt < R.Clock(clock, reqs, m)
    ensures sid in R.After(env, Boot, reqs, j).store.sessions
    ensures R.After(env, Boot, reqs, j).store.sessions[sid].expiresAt ==
            R.After(env, Boot, reqs, m).store.sessions[sid].expiresAt
    ensures R.Clock(clock, reqs, m) <= R.Clock(clock, reqs, j)
    ensures R.Answer(env, Boot, reqs, j).Issued? ==> R.Answer(env, Boot, reqs, j).access.sid != sid
    decreases j
  {
    hide Handle, R.Good, LiveWindow, I.IsFamily;
    if m < j {
      ClosedSessionIssuesNothing(env, clock, reqs, m, j - 1, sid);
      CloseAt(env, clock, reqs, j - 1, sid);
    }
    CloseAt(env, clock, reqs, j, sid);
  }

  lemma {:induction false} CloseAt(env: R.Setting, clock: Instant, reqs: seq<Request>, j: nat, sid: string)
    requires Run(env, clock, reqs) && j < |reqs| && sid in R.After(env, Boot, reqs, j).store.sessions
    requires R.After(env, Boot, reqs, j).store.sessions[sid].expiresAt < R.Clock(clock, reqs, j)
    ensures sid in R.After(env, Boot, reqs, j + 1).store.sessions
    ensures R.After(env, Boot, reqs, j + 1).store.sessions[sid].expiresAt ==
            R.After(env, Boot, reqs, j).store.sessions[sid].expiresAt
    ensures R.Clock(clock, reqs, j) <= R.Clock(clock, reqs, j + 1)
    ensures R.Answer(env, Boot, reqs, j).Issued? ==> R.Answer(env, Boot, reqs, j).access.sid != sid
  {
    hide Handle, R.Good, LiveWindow, I.IsFamily;
    BootIsGood(clock);
    R.RunKeepsGood(env, Boot, clock, reqs, j);
    var _ := FamiliesInServerRuns(env, clock, reqs, j, sid);
    var s, now := R.After(env, Boot, reqs, j), R.Clock(clock, reqs, j);
    R.ClockAdvances(now, reqs[j]);
    ClosedStep(env, s, now, reqs[j], sid);
  }

  // ---- one story

  /** A client enrolls, exchanges its code, refreshes once, and then the token it
      spent is presented again. */
  function Story(challenge: string, verifier: string, t: Instant): seq<Request> {
    [Authorize(true, "sid", "code", TheGrant(challenge), t, t),
     FromCode("", "code", Presented(verifier, "cb", "app"), "j1", "r1", t, t, t, t),
     FromRefresh("", "r1", "j2", "r2", t, t),
     FromRefresh("", "r1", "j3", "r3", t, t)]
  }

  function TheGrant(challenge: string): Grant {
    Grant("phone", ["whois:read"], "app", "cb", challenge, "")
  }

  function TheToken(cfg: Config, jti: string, t: Instant): Claims {
    Claims(cfg.issuer, "sid", cfg.audience, "sid", ["whois:read"],
           (t + ACCESS_TOKEN_TTL) / SECOND, t / SECOND, jti, "phone")
  }

  function Enrolled(challenge: string, t: Instant): ServerState {
    Boot.(store := StoreState(map["sid" := NewSession("sid", TheGrant(challenge), t)], map[]),
          codes := map["code" := Stamp(NewCode("sid", TheGrant(challenge)), "code", t)])
  }

  function Exchanged(cfg: Config, challenge: string, t: Instant): ServerState {
    var s := NewSession("sid", TheGrant(challenge), t);
    ServerState(StoreState(map["sid" := s], map["r1" := RefreshRecord("sid", t + REFRESH_TTL, false, None, "")]),
                map[], map[], {TheToken(cfg, "j1", t)})
  }

  function Refreshed(cfg: Config, challenge: string, t: Instant): ServerState {
    var s := NewSession("sid", TheGrant(challenge), t).(rotations := 1);
    ServerState(StoreState(map["sid" := s],
                           map["r1" := RefreshRecord("sid", t + REFRESH_TTL, true, Some(t), "r2"),
                               "r2" := RefreshRecord("sid", t + REFRESH_TTL, false, None, "")]),
                map[], map[], {TheToken(cfg, "j1", t), TheToken(cfg, "j2", t)})
  }

  function Ended(cfg: Config, challenge: string, t: Instant): ServerState {
    var s := NewSession("sid", TheGrant(challenge), t).(rotations := 1, revoked := true, revokedAt := Some(t));
    ServerState(StoreState(map["sid" := s],
                           map["r1" := RefreshRecord("sid", t + REFRESH_TTL, true, Some(t), "r2"),
                               "r2" := RefreshRecord("sid", t + REFRESH_TTL, true, Some(t), "")]),
                map[], map["sid" := t + ACCESS_TOKEN_TTL], {TheToken(cfg, "j1", t), TheToken(cfg, "j2", t)})
  }

  lemma SameParts(a: ServerState, b: ServerState)
    requires a.store.sessions == b.store.sessions && a.store.refresh == b.store.refresh
    requires a.codes == b.codes && a.denied == b.denied && a.minted == b.minted
    ensures a == b
  {
  }

  lemma Enrolls(env: R.Setting, challenge: string, verifier: string, t: Instant)
    ensures Handle(env.cfg, env.s256, Boot, Story(challenge, verifier, t)[0]) ==
            (Enrolled(challenge, t), Redirect("code"))
  {
    SameParts(Handle(env.cfg, env.s256, Boot, Story(challenge, verifier, t)[0]).0, Enrolled(challenge, t));
  }

  lemma Exchanges(env: R.Setting, challenge: string, verifier: string, t: Instant)
    requires 43 <= |verifier| <= 128 && challenge == env.s256(verifier) != ""
    ensures Handle(env.cfg, env.s256, Enrolled(challenge, t), Story(challenge, verifier, t)[1]) ==
            (Exchanged(env.cfg, challenge, t), Issued(TheToken(env.cfg, "j1", t), "r1"))
  {
    SameParts(Handle(env.cfg, env.s256, Enrolled(challenge, t), Story(challenge, verifier, t)[1]).0,
              Exchanged(env.cfg, challenge, t));
  }

  lemma Refreshes(env: R.Setting, challenge: string, verifier: string, t: Instant)
    ensures Handle(env.cfg, env.s256, Exchanged(env.cfg, challenge, t), Story(challenge, verifier, t)[2]) ==
            (Refreshed(env.cfg, challenge, t), Issued(TheToken(env.cfg, "j2", t), "r2"))
  {
    SameParts(Handle(env.cfg, env.s256, Exchanged(env.cfg, challenge, t), Story(challenge, verifier, t)[2]).0,
              Refreshed(env.cfg, challenge, t));
  }

  lemma Replays(env: R.Setting, challenge: string, verifier: string, t: Instant)
    ensures Handle(env.cfg, env.s256, Refreshed(env.cfg, challenge, t), Story(challenge, verifier, t)[3]) ==
            (Ended(env.cfg, challenge, t), Refused)
  {
    hide RevokeSpec;
    SpendsBoth(env.cfg, challenge, t);
    SameParts(Handle(env.cfg, env.s256, Refreshed(env.cfg, challenge, t), Story(challenge, verifier, t)[3]).0,
              Ended(env.cfg, challenge, t));
  }

  lemma SpendsBoth(cfg: Config, challenge: string, t: Instant)
    ensures RevokeSpec(Refreshed(cfg, challenge, t).store, "sid", t) == (Ended(cfg, challenge, t).store, None)
  {
    var st, want := Refreshed(cfg, challenge, t).store, Ended(cfg, challenge, t).store;
    assert SpendFamily(st.refresh, "sid", t) == want.refresh;
    assert st.sessions["sid" := want.sessions["sid"]] == want.sessions;
  }

  /** The story is a run, so what is required of runs can be met: two tokens are
      issued, the replay is refused, revokes and denylists, and the family is the
      chain of the two refresh tokens. */
  lemma {:induction false} ReplayEndsTheSession(env: R.Setting, verifier: string, t: Instant)
    requires 43 <= |verifier| <= 128 && env.s256(verifier) != ""
    ensures var reqs := Story(env.s256(verifier), verifier, t);
            && Run(env, t, reqs)
            && R.Answer(env, Boot, reqs, 1) == Issued(TheToken(env.cfg, "j1", t), "r1")
            && R.Answer(env, Boot, reqs, 2) == Issued(TheToken(env.cfg, "j2", t), "r2")
            && R.Answer(env, Boot, reqs, 3) == Refused
            && R.Denylists(env.cfg, R.After(env, Boot, reqs, 3), reqs[3]) == Some("sid")
            && "sid" in R.After(env, Boot, reqs, 4).store.sessions
            && I.IsFamily(R.After(env, Boot, reqs, 4).store, "sid", ["r1", "r2"])
  {
    hide Handle, I.IsFamily;
    var challenge := env.s256(verifier);
    var reqs := Story(challenge, verifier, t);
    Enrolls(env, challenge, verifier, t);
    Exchanges(env, challenge, verifier, t);
    Refreshes(env, challenge, verifier, t);
    Replays(env, challenge, verifier, t);
    assert R.After(env, Boot, reqs, 0) == Boot;
    assert R.After(env, Boot, reqs, 1) == Enrolled(challenge, t);
    assert R.After(env, Boot, reqs, 2) == Exchanged(env.cfg, challenge, t);
    assert R.After(env, Boot, reqs, 3) == Refreshed(env.cfg, challenge, t);
    assert R.After(env, Boot, reqs, 4) == Ended(env.cfg, challenge, t);
    EndedFamily(env.cfg, challenge, t);
  }

  lemma EndedFamily(cfg: Config, challenge: string, t: Instant)
    ensures I.IsFamily(Ended(cfg, challenge, t).store, "sid", ["r1", "r2"])
  {
  }

  /** The same story, but the spent token is sent to the revocation endpoint, and
      then the last access token is used. */
  function EndpointStory(challenge: string, verifier: string, cfg: Config, t: Instant,
                         tVerify: Instant, tDenied: Instant): seq<Request>
  {
    Story(challenge, verifier, t)[..3]
    + [RevokeToken(Bearer("r1", None), "r3", t, t, t),
       Access(Bearer("jwt", Some(TheToken(cfg, "j2", t))), tVerify, tDenied)]
  }

  lemma RevokesQuietly(env: R.Setting, challenge: string, t: Instant)
    ensures Handle(env.cfg, env.s256, Refreshed(env.cfg, challenge, t),
                   RevokeToken(Bearer("r1", None), "r3", t, t, t)) ==
            (Ended(env.cfg, challenge, t).(denied := map[]), Done)
  {
    hide RevokeSpec;
    SpendsBoth(env.cfg, challenge, t);
  }

  /** The session is revoked without a denylist entry, and its access token is
      accepted for the whole of its lifetime. */
  lemma {:induction false} SpentTokenLeavesAccess(env: R.Setting, verifier: string, t: Instant,
                                                  tVerify: Instant, tDenied: Instant)
    requires 43 <= |verifier| <= 128 && env.s256(verifier) != "" && 0 <= t <= tVerify <= tDenied
    ensures var reqs := EndpointStory(env.s256(verifier), verifier, env.cfg, t, tVerify, tDenied);
            && Run(env, t, reqs)
            && R.SpentAtEndpoint(env.cfg, R.After(env, Boot, reqs, 3), reqs[3], "sid")
            && R.Revoked(R.After(env, Boot, reqs, 4), "sid") && R.After(env, Boot, reqs, 4).denied == map[]
            && (R.Answer(env, Boot, reqs, 4) == Accepted(TheToken(env.cfg, "j2", t)) <==>
                  tVerify <= TheToken(env.cfg, "j2", t).ExpiresAt())
  {
    hide Handle;
    var challenge := env.s256(verifier);
    var reqs := EndpointStory(challenge, verifier, env.cfg, t, tVerify, tDenied);
    Enrolls(env, challenge, verifier, t);
    Exchanges(env, challenge, verifier, t);
    Refreshes(env, challenge, verifier, t);
    RevokesQuietly(env, challenge, t);
    assert R.After(env, Boot, reqs, 0) == Boot;
    assert R.After(env, Boot, reqs, 1) == Enrolled(challenge, t);
    assert R.After(env, Boot, reqs, 2) == Exchanged(env.cfg, challenge, t);
    assert R.After(env, Boot, reqs, 3) == Refreshed(env.cfg, challenge, t);
    assert R.After(env, Boot, reqs, 4) == Ended(env.cfg, challenge, t).(denied := map[]);
    LastTokenStands(env, challenge, t, tVerify, tDenied);
  }

  lemma LastTokenStands(env: R.Setting, challenge: string, t: Instant, tVerify: Instant, tDenied: Instant)
    requires 0 <= t
    ensures var c := TheToken(env.cfg, "j2", t);
            var s := Ended(env.cfg, challenge, t).(denied := map[]);
            Handle(env.cfg, env.s256, s, Access(Bearer("jwt", Some(c)), tVerify, tDenied)).1 == Accepted(c)
            <==> tVerify <= c.ExpiresAt()
  {
  }
}
