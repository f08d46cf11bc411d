/** The revocation theorem when handlers overlap. The refresh handler changes the
    session store first and mints, or denylists, later; the code exchange looks at
    the session, later signs a token, and later still records the refresh token;
    a bearer check verifies the token, later looks its session up in the denylist,
    and if the entry it found had lapsed deletes it later still, without looking
    again. Anything may happen in between. All other handlers are single steps, as
    in Revocation. A token counts as minted once it is handed out. */
module Overlap {
  import opened Base
  import opened Sessions
  import opened AuthCodes
  import opened Tokens
  import opened AuthServer
  import Families
  import R = Revocation

  /** What a token handler has still to do: a refresh mints or denylists; an
      exchange signs, then records the refresh token and hands out both. */
  datatype Half = Minting(sess: Session) | Denying(sid: string) | Redeemed(sess: Session) | Signed(c: Claims)

  /** Where a bearer check stands: verified, or on its way to delete an entry. */
  datatype Check = Verified(c: Claims, at: Instant) | Lapsed(sid: string)

  datatype World = World(s: ServerState, halves: map<nat, Half>, checks: map<nat, Check>)

  datatype Op =
    | Serve(r: Request)
    | Rotate(id: nat, presented: string, next: string, now: Instant)
    | Finish(id: nat, jti: string, now: Instant)
    | Redeem(id: nat, code: string, p: Presented, tConsume: Instant, now: Instant)
    | Sign(id: nat, jti: string, now: Instant)
    | Issue(id: nat, next: string, now: Instant)
    | Begin(id: nat, token: Bearer, now: Instant)
    | Look(id: nat, now: Instant)
    | Drop(id: nat, now: Instant)

  const Start := World(ServerState(EmptyStore, map[], map[], {}), map[], map[])

  function RotateHalf(w: World, id: nat, presented: string, next: string, now: Instant): World {
    var (store, got) := RotateSpec(w.s.store, presented, next, now);
    var s := w.s.(store := store);
    match got
    case Ok(sess) => w.(s := s, halves := w.halves[id := Minting(sess)])
    case Err(RefreshReused(sid)) => w.(s := s, halves := w.halves[id := Denying(sid)])
    case Err(_) => w.(s := s)
  }

  function TokenOf(cfg: Config, sess: Session, jti: string, now: Instant): Claims {
    Mint(cfg, sess.id, sess.name, sess.scopes, jti, now)
  }

  function FinishHalf(cfg: Config, w: World, id: nat, jti: string, now: Instant): World {
    if id !in w.halves then w
    else
      match w.halves[id]
      case Minting(sess) =>
        World(w.s.(minted := w.s.minted + if jti == "" then {} else {TokenOf(cfg, sess, jti, now)}),
              w.halves - {id}, w.checks)
      case Denying(sid) =>
        World(w.s.(denied := DenySpec(w.s.denied, sid, now)), w.halves - {id}, w.checks)
      case _ => w
  }

  function RedeemCode(s256: string -> string, w: World, op: Op): World
    requires op.Redeem?
  {
    var (codes, found) := ConsumeSpec(s256, w.s.codes, op.code, op.p, op.tConsume);
    var spent := w.(s := w.s.(codes := codes));
    if found.Err? then spent
    else
      var got := GetSpec(w.s.store, found.value.sessionID);
      if got.Err? || !got.value.Active(op.now) then spent
      else spent.(halves := w.halves[op.id := Redeemed(got.value)])
  }

  function SignToken(cfg: Config, w: World, id: nat, jti: string, now: Instant): World {
    if id !in w.halves || !w.halves[id].Redeemed? then w
    else if jti == "" then w.(halves := w.halves - {id})
    else w.(halves := w.halves[id := Signed(TokenOf(cfg, w.halves[id].sess, jti, now))])
  }

  function IssueTokens(w: World, id: nat, next: string, now: Instant): World {
    if id !in w.halves || !w.halves[id].Signed? then w
    else
      var c := w.halves[id].c;
      var (store, err) := IssueRefreshSpec(w.s.store, c.sid, next, now);
      w.(s := w.s.(store := store, minted := w.s.minted + if err.None? then {c} else {}), halves := w.halves - {id})
  }

  /** The response that hands out a token exchanged for a code. */
  predicate Issues(w: World, op: Op, c: Claims) {
    && op.Issue? && op.id in w.halves && w.halves[op.id] == Signed(c)
    && IssueRefreshSpec(w.s.store, c.sid, op.next, op.now).1.None?
  }

  function LookUp(w: World, id: nat, now: Instant): World {
    if id !in w.checks || !w.checks[id].Verified? then w
    else
      var sid := w.checks[id].c.sid;
      w.(checks := if sid in w.s.denied && w.s.denied[sid] < now then w.checks[id := Lapsed(sid)] else w.checks - {id})
  }

  function Step(env: R.Setting, w: World, op: Op): World {
    match op
    case Serve(r) => w.(s := Handle(env.cfg, env.s256, w.s, r).0)
    case Rotate(id, presented, next, now) => RotateHalf(w, id, presented, next, now)
    case Finish(id, jti, now) => FinishHalf(env.cfg, w, id, jti, now)
    case Redeem(_, _, _, _, _) => RedeemCode(env.s256, w, op)
    case Sign(id, jti, now) => SignToken(env.cfg, w, id, jti, now)
    case Issue(id, next, now) => IssueTokens(w, id, next, now)
    case Begin(id, token, now) =>
      var verified := Verify(env.cfg, w.s.minted, token, now);
      if verified.Ok? then w.(checks := w.checks[id := Verified(verified.value, now)]) else w
    case Look(id, now) => LookUp(w, id, now)
    case Drop(id, now) =>
      if id in w.checks && w.checks[id].Lapsed?
      then w.(s := w.s.(denied := w.s.denied - {w.checks[id].sid}), checks := w.checks - {id}) else w
  }

  /** The look into the denylist that lets a token through. */
  predicate LetsThrough(w: World, op: Op, c: Claims) {
    && op.Look? && op.id in w.checks && w.checks[op.id].Verified? && w.checks[op.id].c == c
    && (c.sid !in w.s.denied || w.s.denied[c.sid] < op.now)
  }

  // ---- runs

  function At(op: Op): Instant {
    if op.Serve? then R.Last(op.r) else op.now
  }

  predicate InOrder(clock: Instant, op: Op) {
    if op.Serve? then R.Ordered(clock, op.r)
    else if op.Redeem? then clock <= op.tConsume <= op.now
    else clock <= op.now
  }

  ghost predicate Enabled(w: World, op: Op) {
    match op
    case Serve(r) => R.Fresh(w.s, r)
    case Rotate(id, _, next, _) => id !in w.halves && next != "" && next !in w.s.store.refresh
    case Redeem(id, _, _, _, _) => id !in w.halves
    case Begin(id, _, _) => id !in w.checks
    case _ => true
  }

  function After(env: R.Setting, ops: seq<Op>, k: nat): World
    requires k <= |ops|
  {
    if k == 0 then Start else Step(env, After(env, ops, k - 1), ops[k - 1])
  }

  function Clock(clock: Instant, ops: seq<Op>, k: nat): Instant
    requires k <= |ops|
  {
    if k == 0 then clock else At(ops[k - 1])
  }

  ghost predicate Run(env: R.Setting, clock: Instant, ops: seq<Op>) {
    forall k :: 0 <= k < |ops| ==> InOrder(Clock(clock, ops, k), ops[k]) && Enabled(After(env, ops, k), ops[k])
  }

  /** Uninterrupted, the two halves are the refresh handler, and the three parts of
      a check are the bearer check, with the same answer. */
  lemma {:induction false} RefreshIsItsHalves(env: R.Setting, w: World, id: nat, r: Request)
    requires r.FromRefresh? && r.presented != "" && r.next != "" && id !in w.halves
    requires r.resource == "" || SameResource(r.resource, env.cfg.audience)
    ensures Step(env, Step(env, w, Rotate(id, r.presented, r.next, r.t)), Finish(id, r.jti, r.tNext))
            == Step(env, w, Serve(r))
  {
    hide RotateSpec;
    var half := RotateHalf(w, id, r.presented, r.next, r.t);
    assert half.halves - {id} == w.halves;
  }

  lemma {:induction false} CheckIsItsParts(env: R.Setting, w: World, id: nat, r: Request)
    requires r.Access? && id !in w.checks
    ensures var begun := Step(env, w, Begin(id, r.token, r.tVerify));
            var looked := Step(env, begun, Look(id, r.tDenied));
            && Step(env, looked, Drop(id, r.tDenied)) == Step(env, w, Serve(r))
            && forall c :: LetsThrough(begun, Look(id, r.tDenied), c) <==>
                 Handle(env.cfg, env.s256, w.s, r).1 == Accepted(c)
  {
    var begun := Step(env, w, Begin(id, r.token, r.tVerify));
    assert begun.checks - {id} == w.checks;
    assert LookUp(begun, id, r.tDenied).checks - {id} == w.checks;
  }

  /** So are the three parts of an exchange, but for a token that was signed and
      never handed out; it answers with a token in the same cases. */
  lemma {:induction false} ExchangeIsItsParts(env: R.Setting, w: World, id: nat, r: Request)
    requires r.FromCode? && id !in w.halves
    requires r.resource == "" || SameResource(r.resource, env.cfg.audience)
    ensures var redeemed := Step(env, w, Redeem(id, r.code, r.p, r.tConsume, r.tActive));
            var signed := Step(env, redeemed, Sign(id, r.jti, r.tMint));
            var done := Step(env, signed, Issue(id, r.next, r.tIssue));
            var (s, resp) := Handle(env.cfg, env.s256, w.s, r);
            && done == w.(s := s.(minted := w.s.minted + if resp.Issued? then {resp.access} else {}))
            && forall c :: Issues(signed, Issue(id, r.next, r.tIssue), c) <==> resp == Issued(c, r.next)
  {
    hide ConsumeSpec, IssueRefreshSpec;
    var redeemed := Step(env, w, Redeem(id, r.code, r.p, r.tConsume, r.tActive));
    var signed := Step(env, redeemed, Sign(id, r.jti, r.tMint));
    assert redeemed.halves - {id} == w.halves;
    assert signed.halves - {id} == w.halves;
    RefusedAlike(w.s.store, r.next, r.tIssue);
  }

  /** Without an identifier or with a taken one no refresh token is recorded. */
  lemma RefusedAlike(st: StoreState, token: string, now: Instant)
    ensures forall sid :: IssueRefreshSpec(st, sid, token, now).1.Some? ==>
              IssueRefreshSpec(st, sid, token, now).0 == st
  {
  }

  // ---- the invariant

  ghost predicate Fine(w: World, clock: Instant) {
    && R.Good(w.s, clock)
    && (forall id :: id in w.halves && (w.halves[id].Minting? || w.halves[id].Redeemed?) ==>
          w.halves[id].sess.id in w.s.store.sessions)
    && (forall id :: id in w.halves && w.halves[id].Signed? ==>
          w.halves[id].c.sid in w.s.store.sessions && w.halves[id].c.ExpiresAt() <= clock + ACCESS_TOKEN_TTL)
    && (forall id :: id in w.checks && w.checks[id].Verified? ==>
          w.checks[id].c in w.s.minted && w.checks[id].at <= w.checks[id].c.ExpiresAt())
  }

  lemma {:induction false} ServeKeepsFine(env: R.Setting, w: World, clock: Instant, r: Request)
    requires Fine(w, clock) && R.Ordered(clock, r) && R.Fresh(w.s, r)
    ensures Fine(Step(env, w, Serve(r)), R.Last(r))
  {
    hide Handle, R.Good, R.Ordered, R.Last, R.Fresh;
    R.HandleStep(env, w.s, clock, r);
    R.ClockAdvances(clock, r);
  }

  lemma {:induction false} RotateKeepsFine(env: R.Setting, w: World, clock: Instant, op: Op)
    requires Fine(w, clock) && op.Rotate? && InOrder(clock, op) && Enabled(w, op)
    ensures Fine(Step(env, w, op), op.now)
  {
    hide RotateSpec, R.Good;
    GoodIsSound(w.s, clock);
    R.RotateStep(w.s, clock, op.presented, op.next, op.now);
    R.RotationFacts(w.s.store, op.presented, op.next, op.now);
    GoodLater(Step(env, w, op).s, clock, op.now);
  }

  lemma GoodIsSound(s: ServerState, clock: Instant)
    requires R.Good(s, clock)
    ensures Families.Sound(s.store)
  {
  }

  lemma GoodLater(s: ServerState, clock: Instant, now: Instant)
    requires R.Good(s, clock) && clock <= now
    ensures R.Good(s, now)
  {
  }

  lemma {:induction false} OthersKeepFine(env: R.Setting, w: World, clock: Instant, op: Op)
    requires Fine(w, clock) && InOrder(clock, op)
    requires op.Begin? || op.Look? || op.Drop?
    ensures Fine(Step(env, w, op), op.now)
  {
    hide Families.Sound;
  }

  lemma {:induction false} FinishKeepsFine(env: R.Setting, w: World, clock: Instant, op: Op)
    requires Fine(w, clock) && op.Finish? && InOrder(clock, op)
    ensures Fine(Step(env, w, op), op.now)
  {
    hide Families.Sound;
  }

  lemma {:induction false} RedeemKeepsFine(env: R.Setting, w: World, clock: Instant, op: Op)
    requires Fine(w, clock) && (op.Redeem? || op.Sign?) && InOrder(clock, op) && Enabled(w, op)
    ensures Fine(Step(env, w, op), op.now)
  {
    hide ConsumeSpec, R.Good;
    GoodLater(w.s, clock, op.now);
    GoodIsSound(w.s, clock);
    if op.Redeem? {
      var (codes, found) := ConsumeSpec(env.s256, w.s.codes, op.code, op.p, op.tConsume);
      R.CodesStep(w.s, clock, codes, op.now);
    }
  }

  lemma {:induction false} IssueKeepsFine(env: R.Setting, w: World, clock: Instant, op: Op)
    requires Fine(w, clock) && op.Issue? && InOrder(clock, op)
    ensures Fine(Step(env, w, op), op.now)
  {
    hide IssueRefreshSpec, Families.Sound;
    if op.id in w.halves && w.halves[op.id].Signed? {
      var sid := w.halves[op.id].c.sid;
      Families.StepKeepsSound(w.s.store, Families.IssueOp(sid, op.next, op.now));
      R.SameSessions(w.s.store, sid, op.next, op.now);
    }
  }

  lemma {:induction false} StepKeepsFine(env: R.Setting, w: World, clock: Instant, op: Op)
    requires Fine(w, clock) && InOrder(clock, op) && Enabled(w, op)
    ensures Fine(Step(env, w, op), At(op))
  {
    hide Fine, Step;
    match op
    case Serve(r) => ServeKeepsFine(env, w, clock, r);
    case Rotate(_, _, _, _) => RotateKeepsFine(env, w, clock, op);
    case Redeem(_, _, _, _, _) => RedeemKeepsFine(env, w, clock, op);
    case Sign(_, _, _) => RedeemKeepsFine(env, w, clock, op);
    case Issue(_, _, _) => IssueKeepsFine(env, w, clock, op);
    case Finish(_, _, _) => FinishKeepsFine(env, w, clock, op);
    case _ => OthersKeepFine(env, w, clock, op);
  }

  lemma {:induction false} RunKeepsFine(env: R.Setting, clock: Instant, ops: seq<Op>, k: nat)
    requires Run(env, clock, ops) && k <= |ops|
    ensures Fine(After(env, ops, k), Clock(clock, ops, k))
  {
    hide Step;
    if k > 0 {
      hide Fine;
      RunKeepsFine(env, clock, ops, k - 1);
      StepKeepsFine(env, After(env, ops, k - 1), Clock(clock, ops, k - 1), ops[k - 1]);
    }
  }

  // ---- before a session is denylisted

  function Denylists(env: R.Setting, w: World, op: Op): Option<string> {
    match op
    case Serve(r) => R.Denylists(env.cfg, w.s, r)
    case Finish(id, _, _) =>
      if id in w.halves && w.halves[id].Denying? && w.halves[id].sid != "" then Some(w.halves[id].sid) else None
    case _ => None
  }

  /** No entry, and nobody on the way to delete one. */
  ghost predicate NoTrace(w: World, sid: string) {
    sid !in w.s.denied && forall id :: id in w.checks ==> w.checks[id] != Lapsed(sid)
  }

  lemma {:induction false} NoTraceYet(env: R.Setting, clock: Instant, ops: seq<Op>, k: nat, sid: string)
    requires Run(env, clock, ops) && k <= |ops|
    requires forall j :: 0 <= j < k ==> Denylists(env, After(env, ops, j), ops[j]) != Some(sid)
    ensures NoTrace(After(env, ops, k), sid)
  {
    hide Step, Denylists, Fine, InOrder, Enabled, NoTrace;
    if k == 0 {
      NothingListed(sid);
    } else {
      NoTraceYet(env, clock, ops, k - 1, sid);
      RunKeepsFine(env, clock, ops, k - 1);
      NoTraceStep(env, After(env, ops, k - 1), Clock(clock, ops, k - 1), ops[k - 1], sid);
    }
  }

  lemma NothingListed(sid: string)
    ensures NoTrace(Start, sid)
  {
  }

  lemma {:induction false} NoTraceStep(env: R.Setting, w: World, clock: Instant, op: Op, sid: string)
    requires NoTrace(w, sid) && Fine(w, clock) && InOrder(clock, op)
    requires Denylists(env, w, op) != Some(sid)
    ensures NoTrace(Step(env, w, op), sid)
  {
    hide Handle, RotateSpec, R.Good, R.Denylists;
    if op.Serve? {
      R.EntryStep(env, w.s, clock, op.r, sid);
    }
  }

  // ---- after it is

  /** Operation m finishes, late, a refresh that was under way when operation i was
      over, and mints the token. */
  ghost predicate MintsLate(env: R.Setting, ops: seq<Op>, i: nat, m: nat, c: Claims)
    requires i < |ops| && m < |ops|
  {
    && ops[m].Finish? && ops[m].id in After(env, ops, i + 1).halves
    && After(env, ops, i + 1).halves[ops[m].id].Minting?
    && c == TokenOf(env.cfg, After(env, ops, i + 1).halves[ops[m].id].sess, ops[m].jti, ops[m].now)
  }

  ghost predicate MintedLate(env: R.Setting, ops: seq<Op>, i: nat, k: nat, c: Claims)
    requires i < k <= |ops|
  {
    exists m: nat :: i < m < k && MintsLate(env, ops, i, m, c)
  }

  /** The session is revoked; its entry is there until a lifetime after `since`, and
      nobody deletes one earlier. */
  ghost predicate Listed(w: World, clock: Instant, sid: string, since: Instant) {
    && R.Revoked(w.s, sid) && since <= clock
    && (if sid in w.s.denied then since + ACCESS_TOKEN_TTL <= w.s.denied[sid] else since + ACCESS_TOKEN_TTL < clock)
    && (forall id :: id in w.checks && w.checks[id] == Lapsed(sid) ==> since + ACCESS_TOKEN_TTL < clock)
  }

  lemma {:induction false} ListedStep(env: R.Setting, w: World, clock: Instant, op: Op, sid: string, since: Instant)
    requires Listed(w, clock, sid, since) && Fine(w, clock) && InOrder(clock, op) && Enabled(w, op)
    ensures Listed(Step(env, w, op), At(op), sid, since)
  {
    hide Handle, RotateSpec, ConsumeSpec, IssueRefreshSpec, R.Good, R.Denylists, R.Ordered, R.Last, R.Fresh, R.Revoked;
    RevokedStays(env, w, clock, op, sid);
    if op.Serve? {
      R.EntryStep(env, w.s, clock, op.r, sid);
      R.ClockAdvances(clock, op.r);
    }
  }

  lemma {:induction false} FirstListing(env: R.Setting, w: World, clock: Instant, op: Op, sid: string)
    requires NoTrace(w, sid) && Fine(w, clock) && InOrder(clock, op) && Enabled(w, op)
    requires Denylists(env, w, op) == Some(sid) && RevokedOnceDenying(w)
    ensures Listed(Step(env, w, op), At(op), sid, At(op))
  {
    hide Handle, R.Good, R.Denylists;
    if op.Serve? {
      R.DenylistingBans(env, w.s, clock, op.r);
    }
  }

  /** A refresh handler denylists what it has revoked. */
  ghost predicate RevokedOnceDenying(w: World) {
    forall id :: id in w.halves && w.halves[id].Denying? ==> R.Revoked(w.s, w.halves[id].sid)
  }

  lemma {:induction false} DenyingStep(env: R.Setting, w: World, clock: Instant, op: Op)
    requires RevokedOnceDenying(w) && Fine(w, clock) && InOrder(clock, op) && Enabled(w, op)
    ensures RevokedOnceDenying(Step(env, w, op))
  {
    hide Handle, RotateSpec, R.Good, R.Ordered, R.Last, R.Fresh;
    match op
    case Serve(r) => R.HandleStep(env, w.s, clock, r);
    case Rotate(_, presented, next, now) =>
      GoodIsSound(w.s, clock);
      R.RotateStep(w.s, clock, presented, next, now);
      R.RotationFacts(w.s.store, presented, next, now);
    case _ =>
  }

  lemma {:induction false} DenyingInRuns(env: R.Setting, clock: Instant, ops: seq<Op>, k: nat)
    requires Run(env, clock, ops) && k <= |ops|
    ensures RevokedOnceDenying(After(env, ops, k))
  {
    hide Step, Fine;
    if k > 0 {
      hide RevokedOnceDenying;
      DenyingInRuns(env, clock, ops, k - 1);
      RunKeepsFine(env, clock, ops, k - 1);
      DenyingStep(env, After(env, ops, k - 1), Clock(clock, ops, k - 1), ops[k - 1]);
    }
  }

  // ---- what may still be minted

  /** Every refresh of the session under way now was under way in `was`. */
  ghost predicate UnderWay(was: World, w: World, sid: string) {
    forall id :: id in w.halves && w.halves[id].Minting? && w.halves[id].sess.id == sid ==>
      id in was.halves && was.halves[id] == w.halves[id]
  }

  /** For a revoked session, a step starts no refresh, and mints only by finishing one. */
  lemma {:induction false} NoneStarts(env: R.Setting, w: World, clock: Instant, op: Op, sid: string)
    requires Fine(w, clock) && InOrder(clock, op) && Enabled(w, op) && R.Revoked(w.s, sid)
    ensures UnderWay(w, Step(env, w, op), sid)
    ensures forall c :: c in Step(env, w, op).s.minted && c.sid == sid && c !in w.s.minted ==>
              && op.Finish? && op.id in w.halves && w.halves[op.id].Minting?
              && w.halves[op.id].sess.id == sid && c == TokenOf(env.cfg, w.halves[op.id].sess, op.jti, op.now)
  {
    hide Handle, RotateSpec, R.Good, R.Ordered, R.Last, R.Fresh;
    match op
    case Serve(r) => R.HandleStep(env, w.s, clock, r);
    case Rotate(_, presented, next, now) =>
      GoodIsSound(w.s, clock);
      R.RotationFacts(w.s.store, presented, next, now);
    case _ =>
  }

  /** From the operation that first denylists a session on. */
  lemma {:induction false} ListedSince(env: R.Setting, clock: Instant, ops: seq<Op>, i: nat, k: nat, sid: string)
    requires Run(env, clock, ops) && i < k <= |ops|
    requires Denylists(env, After(env, ops, i), ops[i]) == Some(sid)
    requires forall j :: 0 <= j < i ==> Denylists(env, After(env, ops, j), ops[j]) != Some(sid)
    ensures Listed(After(env, ops, k), Clock(clock, ops, k), sid, At(ops[i]))
    ensures UnderWay(After(env, ops, i + 1), After(env, ops, k), sid)
    decreases k
  {
    hide Step, Denylists, Fine, InOrder, Enabled, Listed, RevokedOnceDenying, NoTrace, At;
    RunKeepsFine(env, clock, ops, k - 1);
    var w, now := After(env, ops, k - 1), Clock(clock, ops, k - 1);
    if k == i + 1 {
      NoTraceYet(env, clock, ops, i, sid);
      DenyingInRuns(env, clock, ops, i);
      FirstListing(env, w, now, ops[i], sid);
    } else {
      ListedSince(env, clock, ops, i, k - 1, sid);
      ListedStep(env, w, now, ops[k - 1], sid, At(ops[i]));
      ListedIsRevoked(w, now, sid, At(ops[i]));
      NoneStarts(env, w, now, ops[k - 1], sid);
    }
  }

  lemma ListedIsRevoked(w: World, clock: Instant, sid: string, since: Instant)
    requires Listed(w, clock, sid, since)
    ensures R.Revoked(w.s, sid)
  {
  }

  lemma {:induction false} TokensEndInTime(env: R.Setting, clock: Instant, ops: seq<Op>, i: nat, k: nat, c: Claims)
    requires Run(env, clock, ops) && i < k <= |ops|
    requires Denylists(env, After(env, ops, i), ops[i]) == Some(c.sid)
    requires forall j :: 0 <= j < i ==> Denylists(env, After(env, ops, j), ops[j]) != Some(c.sid)
    requires c in After(env, ops, k).s.minted
    ensures c.ExpiresAt() <= At(ops[i]) + ACCESS_TOKEN_TTL || MintedLate(env, ops, i, k, c)
    decreases k
  {
    hide Step, Denylists, InOrder, Enabled, Listed, At, R.Revoked, MintsLate, Fine, UnderWay, R.Good;
    var w, now := After(env, ops, k - 1), Clock(clock, ops, k - 1);
    if k == i + 1 {
      RunKeepsFine(env, clock, ops, k);
      MintedInTime(After(env, ops, k), At(ops[i]), c);
    } else if c in w.s.minted {
      TokensEndInTime(env, clock, ops, i, k - 1, c);
      if MintedLate(env, ops, i, k - 1, c) {
        var m: nat :| i < m < k - 1 && MintsLate(env, ops, i, m, c);
      }
    } else {
      RunKeepsFine(env, clock, ops, k - 1);
      ListedSince(env, clock, ops, i, k - 1, c.sid);
      ListedIsRevoked(w, now, c.sid, At(ops[i]));
      NoneStarts(env, w, now, ops[k - 1], c.sid);
      ThisOneMints(env, ops, i, k - 1, c);
    }
  }

  lemma ThisOneMints(env: R.Setting, ops: seq<Op>, i: nat, m: nat, c: Claims)
    requires i < m < |ops| && ops[m].Finish?
    requires var w := After(env, ops, m);
             && ops[m].id in w.halves && w.halves[ops[m].id].Minting?
             && w.halves[ops[m].id].sess.id == c.sid
             && c == TokenOf(env.cfg, w.halves[ops[m].id].sess, ops[m].jti, ops[m].now)
    requires UnderWay(After(env, ops, i + 1), After(env, ops, m), c.sid)
    ensures MintsLate(env, ops, i, m, c)
  {
  }

  lemma MintedInTime(w: World, clock: Instant, c: Claims)
    requires Fine(w, clock) && c in w.s.minted
    ensures c.ExpiresAt() <= clock + ACCESS_TOKEN_TTL
  {
  }

  /** Revocation theorem for overlapping handlers. Once a session has been
      denylisted, a check that looks into the denylist afterwards lets one of its
      tokens through only more than one lifetime later. The token was unexpired
      when it was verified; by the time of the look it has expired, unless it was
      minted by a refresh that was under way when the session was denylisted, and
      then it outlives the first entry by at most the time that refresh still
      took. PassesExactly says when the look lets a token through at all. */
  lemma {:induction false} LateTokensOnly(env: R.Setting, clock: Instant, ops: seq<Op>, i: nat, k: nat, c: Claims)
    requires Run(env, clock, ops) && i < k < |ops|
    requires Denylists(env, After(env, ops, i), ops[i]) == Some(c.sid)
    requires forall j :: 0 <= j < i ==> Denylists(env, After(env, ops, j), ops[j]) != Some(c.sid)
    requires LetsThrough(After(env, ops, k), ops[k], c)
    ensures At(ops[i]) + ACCESS_TOKEN_TTL < ops[k].now
    ensures After(env, ops, k).checks[ops[k].id].at <= c.ExpiresAt()
    ensures c.ExpiresAt() < ops[k].now
            || exists m: nat :: i < m < k && MintsLate(env, ops, i, m, c)
                 && c.ExpiresAt() - (At(ops[i]) + ACCESS_TOKEN_TTL) <= ops[m].now - At(ops[i])
  {
    hide Step, Denylists, MintsLate, R.Good, Enabled;
    ListedSince(env, clock, ops, i, k, c.sid);
    RunKeepsFine(env, clock, ops, k);
    TokensEndInTime(env, clock, ops, i, k, c);
    if m: nat :| i < m < k && MintsLate(env, ops, i, m, c) {
      LateByItsDelay(env, ops, i, m, c);
    }
  }

  lemma LateByItsDelay(env: R.Setting, ops: seq<Op>, i: nat, m: nat, c: Claims)
    requires i < |ops| && m < |ops| && MintsLate(env, ops, i, m, c)
    ensures c.ExpiresAt() <= ops[m].now + ACCESS_TOKEN_TTL
  {
  }

  // ---- exactly when a look lets a token through

  /** When the session was last put on the denylist. */
  function LastListed(env: R.Setting, ops: seq<Op>, k: nat, sid: string): Option<Instant>
    requires k <= |ops|
  {
    if k == 0 then None
    else if Denylists(env, After(env, ops, k - 1), ops[k - 1]) == Some(sid) then Some(At(ops[k - 1]))
    else LastListed(env, ops, k - 1, sid)
  }

  predicate Drops(w: World, op: Op, sid: string) {
    op.Drop? && op.id in w.checks && w.checks[op.id] == Lapsed(sid)
  }

  /** A check that had found an older entry lapsed has deleted since then. */
  predicate Deleted(env: R.Setting, ops: seq<Op>, k: nat, sid: string)
    requires k <= |ops|
  {
    k > 0
    && Denylists(env, After(env, ops, k - 1), ops[k - 1]) != Some(sid)
    && (Drops(After(env, ops, k - 1), ops[k - 1], sid) || Deleted(env, ops, k - 1, sid))
  }

  ghost predicate EntryIs(w: World, clock: Instant, sid: string, last: Option<Instant>, deleted: bool) {
    if last.None? then sid !in w.s.denied
    else if sid in w.s.denied then w.s.denied[sid] == last.value + ACCESS_TOKEN_TTL && !deleted
    else deleted || last.value + ACCESS_TOKEN_TTL < clock
  }

  lemma {:induction false} EntryOverStep(env: R.Setting, w: World, clock: Instant, op: Op, sid: string,
                                         last: Option<Instant>, deleted: bool)
    requires Fine(w, clock) && InOrder(clock, op) && EntryIs(w, clock, sid, last, deleted)
    ensures var listed := Denylists(env, w, op) == Some(sid);
            EntryIs(Step(env, w, op), At(op), sid, if listed then Some(At(op)) else last,
                    !listed && (Drops(w, op, sid) || deleted))
  {
    hide Handle, RotateSpec, ConsumeSpec, IssueRefreshSpec, R.Good, R.Denylists, R.Ordered, R.Last;
    if op.Serve? {
      R.EntryStep(env, w.s, clock, op.r, sid);
      R.ClockAdvances(clock, op.r);
    }
  }

  lemma {:induction false} EntryOverRun(env: R.Setting, clock: Instant, ops: seq<Op>, k: nat, sid: string)
    requires Run(env, clock, ops) && k <= |ops|
    ensures EntryIs(After(env, ops, k), Clock(clock, ops, k), sid,
                    LastListed(env, ops, k, sid), Deleted(env, ops, k, sid))
  {
    hide Step, Denylists, Drops, Fine, InOrder, Enabled, At;
    if k > 0 {
      hide EntryIs;
      EntryOverRun(env, clock, ops, k - 1, sid);
      RunKeepsFine(env, clock, ops, k - 1);
      EntryOverStep(env, After(env, ops, k - 1), Clock(clock, ops, k - 1), ops[k - 1], sid,
                    LastListed(env, ops, k - 1, sid), Deleted(env, ops, k - 1, sid));
    }
  }

  /** In every run a look lets a verified token through exactly when its session
      was never denylisted, or was for the last time more than one lifetime ago, or
      the entry made then has been deleted by a check that had found an older one
      lapsed. */
  lemma {:induction false} PassesExactly(env: R.Setting, clock: Instant, ops: seq<Op>, k: nat, c: Claims)
    requires Run(env, clock, ops) && k < |ops| && ops[k].Look?
    requires var checks := After(env, ops, k).checks;
             ops[k].id in checks && checks[ops[k].id].Verified? && checks[ops[k].id].c == c
    ensures LetsThrough(After(env, ops, k), ops[k], c) <==>
              var last := LastListed(env, ops, k, c.sid);
              last.None? || last.value + ACCESS_TOKEN_TTL < ops[k].now || Deleted(env, ops, k, c.sid)
  {
    hide Step, Denylists, After, LastListed, Deleted, Enabled;
    EntryOverRun(env, clock, ops, k, c.sid);
  }

  // ---- the code exchange

  lemma {:induction false} RevokedStays(env: R.Setting, w: World, clock: Instant, op: Op, sid: string)
    requires Fine(w, clock) && InOrder(clock, op) && Enabled(w, op) && R.Revoked(w.s, sid)
    ensures R.Revoked(Step(env, w, op).s, sid)
  {
    hide Handle, RotateSpec, ConsumeSpec, R.Good, R.Ordered, R.Last, R.Fresh;
    match op
    case Serve(r) => R.HandleStep(env, w.s, clock, r);
    case Rotate(_, presented, next, now) => R.RotateStep(w.s, clock, presented, next, now);
    case _ =>
  }

  lemma {:induction false} RevokedForGood(env: R.Setting, clock: Instant, ops: seq<Op>, i: nat, k: nat, sid: string)
    requires Run(env, clock, ops) && i <= k <= |ops| && R.Revoked(After(env, ops, i).s, sid)
    ensures R.Revoked(After(env, ops, k).s, sid)
    decreases k
  {
    hide Step, Fine, InOrder, Enabled, R.Revoked;
    if i < k {
      RevokedForGood(env, clock, ops, i, k - 1, sid);
      RunKeepsFine(env, clock, ops, k - 1);
      RevokedStays(env, After(env, ops, k - 1), Clock(clock, ops, k - 1), ops[k - 1], sid);
    }
  }

  /** Unlike a refresh, a code exchange under way when its session is revoked hands
      out nothing: the refresh token cannot be recorded any more. */
  lemma {:induction false} NoneIssuedOnceRevoked(env: R.Setting, clock: Instant, ops: seq<Op>, i: nat, k: nat,
                                                 c: Claims)
    requires Run(env, clock, ops) && i <= k < |ops| && R.Revoked(After(env, ops, i).s, c.sid)
    ensures !Issues(After(env, ops, k), ops[k], c)
  {
    hide Step;
    RevokedForGood(env, clock, ops, i, k, c.sid);
  }
}
