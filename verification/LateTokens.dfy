/** Tokens that outlive a revocation: the converse of the theorems in Overlap. A
    refresh under way when its session is denylisted is all it takes, and a second
    revocation can be undone by a check still on its way to delete the first entry. */
module LateTokens {
  import opened Base
  import opened Sessions
  import opened Tokens
  import opened AuthServer
  import opened Overlap
  import R = Revocation
  import V = ServerRuns

  // ---- one refresh under way is enough

  /** From any state with a refresh under way: if it mints at `m`, the token is let
      through for exactly the readings before its own expiry and after the lapse of
      its session's entry. */
  lemma {:induction false} UnderWayOutlives(env: R.Setting, w: World, clock: Instant, id: nat, check: nat, jti: string,
                                            m: Instant, v: Instant, d: Instant)
    requires Fine(w, clock) && id in w.halves && w.halves[id].Minting? && check !in w.checks
    requires w.halves[id].sess.id in w.s.denied && jti != "" && 0 <= m && clock <= m <= v <= d
    ensures var sess := w.halves[id].sess; var c := TokenOf(env.cfg, sess, jti, m);
            var begun := Step(env, Step(env, w, Finish(id, jti, m)), Begin(check, Bearer("jwt", Some(c)), v));
            && (LetsThrough(begun, Look(check, d), c) <==> v <= c.ExpiresAt() && w.s.denied[sess.id] < d)
            && m + ACCESS_TOKEN_TTL - SECOND < c.ExpiresAt()
  {
    assert w.halves[id].sess.id != "";
  }

  /** After `ops`, the operations `more` end with a look that lets through a token
      which has not even expired. */
  ghost predicate Leaks(env: R.Setting, clock: Instant, ops: seq<Op>, more: seq<Op>, c: Claims) {
    && more != [] && Run(env, clock, ops + more)
    && LetsThrough(After(env, ops + more, |ops + more| - 1), more[|more| - 1], c)
    && more[|more| - 1].now <= c.ExpiresAt()
  }

  ghost predicate FirstListed(env: R.Setting, ops: seq<Op>, sid: string) {
    && ops != []
    && Denylists(env, After(env, ops, |ops| - 1), ops[|ops| - 1]) == Some(sid)
    && forall j :: 0 <= j < |ops| - 1 ==> Denylists(env, After(env, ops, j), ops[j]) != Some(sid)
  }

  lemma {:induction false} Prefix(env: R.Setting, ops: seq<Op>, more: seq<Op>, k: nat)
    requires k <= |ops|
    ensures After(env, ops + more, k) == After(env, ops, k)
  {
    hide Step;
    if k > 0 {
      Prefix(env, ops, more, k - 1);
    }
  }

  /** The exact guard. After the operation that first denylists a session, some
      unexpired token of it can still be let through if and only if a refresh of
      the session is under way. */
  lemma {:induction false} LeaksIffUnderWay(env: R.Setting, clock: Instant, ops: seq<Op>, sid: string)
    requires Run(env, clock, ops) && FirstListed(env, ops, sid) && 0 <= At(ops[|ops| - 1])
    ensures (exists more, c :: Leaks(env, clock, ops, more, c) && c.sid == sid)
            <==> (exists id :: RefreshUnderWay(After(env, ops, |ops|), id, sid))
  {
    if more, c :| Leaks(env, clock, ops, more, c) && c.sid == sid {
      var id := LeakIsUnderWay(env, clock, ops, more, c);
    }
    if id :| RefreshUnderWay(After(env, ops, |ops|), id, sid) {
      var more, c := UnderWayLeaks(env, clock, ops, sid, id);
    }
  }

  ghost predicate RefreshUnderWay(w: World, id: nat, sid: string) {
    id in w.halves && w.halves[id].Minting? && w.halves[id].sess.id == sid
  }

  lemma {:induction false} LeakIsUnderWay(env: R.Setting, clock: Instant, ops: seq<Op>, more: seq<Op>, c: Claims)
    returns (id: nat)
    requires FirstListed(env, ops, c.sid) && Leaks(env, clock, ops, more, c)
    ensures RefreshUnderWay(After(env, ops, |ops|), id, c.sid)
  {
    hide Step, Denylists, Run, After;
    var all, i := ops + more, |ops| - 1;
    forall j: nat | j <= |ops|
      ensures After(env, all, j) == After(env, ops, j)
    {
      Prefix(env, ops, more, j);
    }
    assert all[i] == ops[i] && all[|all| - 1] == more[|more| - 1];
    LateTokensOnly(env, clock, all, i, |all| - 1, c);
    var m: nat :| i < m < |all| - 1 && MintsLate(env, all, i, m, c);
    id := all[m].id;
  }

  lemma {:induction false} UnderWayLeaks(env: R.Setting, clock: Instant, ops: seq<Op>, sid: string, id: nat)
    returns (more: seq<Op>, c: Claims)
    requires Run(env, clock, ops) && FirstListed(env, ops, sid) && 0 <= At(ops[|ops| - 1])
    requires RefreshUnderWay(After(env, ops, |ops|), id, sid)
    ensures Leaks(env, clock, ops, more, c) && c.sid == sid
  {
    hide Step, Denylists, Fine, At, LetsThrough, After;
    var w, t := After(env, ops, |ops|), At(ops[|ops| - 1]);
    var check := FreshCheck(w.checks.Keys);
    var m, d := t + 2 * SECOND, t + ACCESS_TOKEN_TTL + 1;
    RunKeepsFine(env, clock, ops, |ops|);
    EntryAfterListing(env, clock, ops, sid);
    UnderWayOutlives(env, w, t, id, check, "jti", m, d, d);
    c := TokenOf(env.cfg, w.halves[id].sess, "jti", m);
    more := [Finish(id, "jti", m), Begin(check, Bearer("jwt", Some(c)), d), Look(check, d)];
    Continues(env, clock, ops, id, check, c, m, d);
  }

  lemma {:induction false} EntryAfterListing(env: R.Setting, clock: Instant, ops: seq<Op>, sid: string)
    requires Run(env, clock, ops) && FirstListed(env, ops, sid)
    ensures var w := After(env, ops, |ops|);
            sid in w.s.denied && w.s.denied[sid] == At(ops[|ops| - 1]) + ACCESS_TOKEN_TTL
  {
    hide Step, Denylists, At;
    EntryOverRun(env, clock, ops, |ops|, sid);
  }

  lemma {:induction false} Continues(env: R.Setting, clock: Instant, ops: seq<Op>, id: nat, check: nat, c: Claims,
                                     m: Instant, d: Instant)
    requires Run(env, clock, ops) && ops != [] && check !in After(env, ops, |ops|).checks
    requires At(ops[|ops| - 1]) <= m <= d
    ensures var more := [Finish(id, "jti", m), Begin(check, Bearer("jwt", Some(c)), d), Look(check, d)];
            && Run(env, clock, ops + more)
            && After(env, ops + more, |ops| + 2) ==
               Step(env, Step(env, After(env, ops, |ops|), more[0]), more[1])
  {
    hide Step, Run;
    var a, b, look := Finish(id, "jti", m), Begin(check, Bearer("jwt", Some(c)), d), Look(check, d);
    var w := After(env, ops, |ops|);
    OneMoreOp(env, clock, ops, a);
    SameChecks(env, w, id, m);
    OneMoreOp(env, clock, ops + [a], b);
    OneMoreOp(env, clock, ops + [a] + [b], look);
    var all := ops + [a, b, look];
    assert all == ops + [a] + [b] + [look];
    Prefix(env, ops + [a] + [b], [look], |ops| + 2);
  }

  lemma SameChecks(env: R.Setting, w: World, id: nat, m: Instant)
    ensures Step(env, w, Finish(id, "jti", m)).checks == w.checks
  {
  }

  lemma {:induction false} OneMoreOp(env: R.Setting, clock: Instant, ops: seq<Op>, op: Op)
    requires Run(env, clock, ops) && InOrder(Clock(clock, ops, |ops|), op) && Enabled(After(env, ops, |ops|), op)
    ensures Run(env, clock, ops + [op])
    ensures After(env, ops + [op], |ops| + 1) == Step(env, After(env, ops, |ops|), op)
    ensures Clock(clock, ops + [op], |ops| + 1) == At(op)
  {
    hide Step, Enabled, InOrder, At;
    var all := ops + [op];
    Prefix(env, ops, [op], |ops|);
    forall k: nat | k < |all|
      ensures InOrder(Clock(clock, all, k), all[k]) && Enabled(After(env, all, k), all[k])
    {
      Prefix(env, ops, [op], k);
      if k < |ops| {
        assert all[k] == ops[k] && Clock(clock, all, k) == Clock(clock, ops, k);
      }
    }
  }

  lemma {:induction false} FreshCheck(used: set<nat>) returns (id: nat)
    ensures forall u :: u in used ==> u < id
    decreases used
  {
    if used == {} {
      id := 0;
    } else {
      var u :| u in used;
      var rest := FreshCheck(used - {u});
      id := if u < rest then rest else u + 1;
      forall x | x in used
        ensures x < id
      {
        assert x != u ==> x in used - {u};
      }
    }
  }

  // ---- a revocation undone

  /** A check that found the entry of a session lapsed is still to delete it. If the
      session is revoked again in between, the deletion takes the new entry with
      it, and every unexpired token of the session is let through at once. */
  lemma {:induction false} LostRelisting(env: R.Setting, w: World, clock: Instant, drop: nat, check: nat, c: Claims,
                                         t: Instant, v: Instant, d: Instant)
    requires Fine(w, clock) && drop in w.checks && w.checks[drop] == Lapsed(c.sid) && check !in w.checks
    requires c in w.s.minted && c.issuer == env.cfg.issuer && c.audience == env.cfg.audience && c.expires != 0
    requires clock <= t <= v <= d
    ensures var again := Serve(RevokeTool(true, c.sid, t, t));
            var relisted := Step(env, w, again);
            var begun := Step(env, Step(env, relisted, Drop(drop, t)), Begin(check, Bearer("jwt", Some(c)), v));
            && Denylists(env, w, again) == Some(c.sid)
            && c.sid in relisted.s.denied && relisted.s.denied[c.sid] == t + ACCESS_TOKEN_TTL
            && (LetsThrough(begun, Look(check, d), c) <==> v <= c.ExpiresAt())
  {
    hide RevokeSpec, R.Denylists;
    SecondRevocation(env, w, c, t);
  }

  lemma SecondRevocation(env: R.Setting, w: World, c: Claims, t: Instant)
    requires c.sid in w.s.store.sessions && c.sid != ""
    ensures var s := Handle(env.cfg, env.s256, w.s, RevokeTool(true, c.sid, t, t)).0;
            && s.minted == w.s.minted && s.denied == w.s.denied[c.sid := t + ACCESS_TOKEN_TTL]
            && R.Denylists(env.cfg, w.s, RevokeTool(true, c.sid, t, t)) == Some(c.sid)
  {
    hide SpendFamily;
  }

  // ---- a story

  /** A refresh is under way when an admin revokes its session; it mints at `m`, and
      the token is presented at `v` and looked up at `d`. */
  function LateStory(cfg: Config, challenge: string, verifier: string, t: Instant, m: Instant, v: Instant, d: Instant)
    : seq<Op>
  {
    [Serve(V.Story(challenge, verifier, t)[0]),
     Serve(V.Story(challenge, verifier, t)[1]),
     Rotate(0, "r1", "r2", t),
     Serve(RevokeTool(true, "sid", t, t)),
     Finish(0, "j2", m),
     Begin(0, Bearer("jwt", Some(V.TheToken(cfg, "j2", m))), v),
     Look(0, d)]
  }

  function HalfDone(cfg: Config, challenge: string, t: Instant): World {
    World(V.Refreshed(cfg, challenge, t).(minted := {V.TheToken(cfg, "j1", t)}),
          map[0 := Minting(NewSession("sid", V.TheGrant(challenge), t).(rotations := 1))], map[])
  }

  function CutOff(cfg: Config, challenge: string, t: Instant): World {
    HalfDone(cfg, challenge, t).(s := V.Ended(cfg, challenge, t).(minted := {V.TheToken(cfg, "j1", t)}))
  }

  function MintedAfter(cfg: Config, challenge: string, t: Instant, m: Instant): World {
    World(V.Ended(cfg, challenge, t).(minted := {V.TheToken(cfg, "j1", t), V.TheToken(cfg, "j2", m)}), map[], map[])
  }

  lemma Rotates(env: R.Setting, challenge: string, t: Instant)
    ensures Step(env, World(V.Exchanged(env.cfg, challenge, t), map[], map[]), Rotate(0, "r1", "r2", t))
            == HalfDone(env.cfg, challenge, t)
  {
    var w := Step(env, World(V.Exchanged(env.cfg, challenge, t), map[], map[]), Rotate(0, "r1", "r2", t));
    V.SameParts(w.s, HalfDone(env.cfg, challenge, t).s);
  }

  lemma CutsOff(env: R.Setting, challenge: string, t: Instant)
    ensures Step(env, HalfDone(env.cfg, challenge, t), Serve(RevokeTool(true, "sid", t, t)))
            == CutOff(env.cfg, challenge, t)
    ensures Denylists(env, HalfDone(env.cfg, challenge, t), Serve(RevokeTool(true, "sid", t, t))) == Some("sid")
  {
    hide RevokeSpec;
    V.SpendsBoth(env.cfg, challenge, t);
    V.SameParts(Step(env, HalfDone(env.cfg, challenge, t), Serve(RevokeTool(true, "sid", t, t))).s,
                CutOff(env.cfg, challenge, t).s);
  }

  lemma MintsAfter(env: R.Setting, challenge: string, t: Instant, m: Instant)
    ensures Step(env, CutOff(env.cfg, challenge, t), Finish(0, "j2", m)) == MintedAfter(env.cfg, challenge, t, m)
  {
    assert CutOff(env.cfg, challenge, t).halves - {0} == map[];
  }

  lemma LooksUp(env: R.Setting, challenge: string, t: Instant, m: Instant, v: Instant, d: Instant)
    requires 0 <= t <= m
    ensures var c := V.TheToken(env.cfg, "j2", m);
            var w := Step(env, MintedAfter(env.cfg, challenge, t, m), Begin(0, Bearer("jwt", Some(c)), v));
            LetsThrough(w, Look(0, d), c) <==> v <= c.ExpiresAt() && t + ACCESS_TOKEN_TTL < d
  {
  }

  lemma {:induction false} AfterMinting(env: R.Setting, verifier: string,
                                        t: Instant, m: Instant, v: Instant, d: Instant)
    requires 43 <= |verifier| <= 128 && env.s256(verifier) != "" && 0 <= t <= m <= v <= d
    ensures var challenge := env.s256(verifier);
            var ops := LateStory(env.cfg, challenge, verifier, t, m, v, d);
            && After(env, ops, 1) == World(V.Enrolled(challenge, t), map[], map[])
            && After(env, ops, 2) == World(V.Exchanged(env.cfg, challenge, t), map[], map[])
            && After(env, ops, 3) == HalfDone(env.cfg, challenge, t)
            && After(env, ops, 4) == CutOff(env.cfg, challenge, t)
            && After(env, ops, 5) == MintedAfter(env.cfg, challenge, t, m)
  {
    hide Handle, RotateHalf, LookUp, FinishHalf, RedeemCode, SignToken, IssueTokens, Verify;
    var challenge := env.s256(verifier);
    var ops := LateStory(env.cfg, challenge, verifier, t, m, v, d);
    V.Enrolls(env, challenge, verifier, t);
    V.Exchanges(env, challenge, verifier, t);
    Rotates(env, challenge, t);
    CutsOff(env, challenge, t);
    MintsAfter(env, challenge, t, m);
    assert After(env, ops, 0) == Start;
    assert After(env, ops, 1) == World(V.Enrolled(challenge, t), map[], map[]);
    assert After(env, ops, 2) == World(V.Exchanged(env.cfg, challenge, t), map[], map[]);
    assert After(env, ops, 3) == HalfDone(env.cfg, challenge, t);
    assert After(env, ops, 4) == CutOff(env.cfg, challenge, t);
  }

  /** The token gets through exactly when it is unexpired at `v` and the entry has
      lapsed at `d`; it outlives the entry by the delay m - t, up to the truncation
      of its expiry to whole seconds. So the bound of the theorem is met. */
  lemma {:induction false} LateTokenPasses(env: R.Setting, verifier: string,
                                           t: Instant, m: Instant, v: Instant, d: Instant)
    requires 43 <= |verifier| <= 128 && env.s256(verifier) != "" && 0 <= t <= m <= v <= d
    ensures var c := V.TheToken(env.cfg, "j2", m);
            var ops := LateStory(env.cfg, env.s256(verifier), verifier, t, m, v, d);
            && Run(env, t, ops)
            && Denylists(env, After(env, ops, 3), ops[3]) == Some("sid")
            && (LetsThrough(After(env, ops, 6), ops[6], c) <==> v <= c.ExpiresAt() && t + ACCESS_TOKEN_TTL < d)
            && m - t - SECOND < c.ExpiresAt() - (t + ACCESS_TOKEN_TTL) <= m - t
  {
    hide Handle, RotateHalf, LookUp, Denylists, FinishHalf, LetsThrough, RedeemCode, SignToken, IssueTokens, Verify;
    var challenge := env.s256(verifier);
    AfterMinting(env, verifier, t, m, v, d);
    CutsOff(env, challenge, t);
    LooksUp(env, challenge, t, m, v, d);
    assert After(env, LateStory(env.cfg, challenge, verifier, t, m, v, d), 0) == Start;
  }

  /** The story goes on: once the entry has lapsed a check finds it so, the session is
      revoked a second time, the check deletes the new entry, and a second check
      lets the token through, all at the same instant. */
  function UndoneStory(cfg: Config, challenge: string, verifier: string, t: Instant, m: Instant, d: Instant): seq<Op> {
    var token := Bearer("jwt", Some(V.TheToken(cfg, "j2", m)));
    LateStory(cfg, challenge, verifier, t, m, d, d)
    + [Serve(RevokeTool(true, "sid", d, d)), Drop(0, d), Begin(1, token, d), Look(1, d)]
  }

  function FoundLapsed(cfg: Config, challenge: string, t: Instant, m: Instant): World {
    MintedAfter(cfg, challenge, t, m).(checks := map[0 := Lapsed("sid")])
  }

  lemma FindsLapsed(env: R.Setting, challenge: string, t: Instant, m: Instant, d: Instant)
    requires 0 <= t <= m && t + ACCESS_TOKEN_TTL < d <= V.TheToken(env.cfg, "j2", m).ExpiresAt()
    ensures var c := V.TheToken(env.cfg, "j2", m);
            Step(env, Step(env, MintedAfter(env.cfg, challenge, t, m), Begin(0, Bearer("jwt", Some(c)), d)), Look(0, d))
            == FoundLapsed(env.cfg, challenge, t, m)
  {
  }

  /** The last four steps, from the state in which the check has found the entry lapsed. */
  lemma {:induction false} UndoneStates(env: R.Setting, verifier: string, t: Instant, m: Instant, d: Instant)
    requires 43 <= |verifier| <= 128 && env.s256(verifier) != "" && 0 <= t <= m <= d
    requires t + ACCESS_TOKEN_TTL < d <= V.TheToken(env.cfg, "j2", m).ExpiresAt()
    ensures var challenge := env.s256(verifier);
            var first, ops := LateStory(env.cfg, challenge, verifier, t, m, d, d),
                              UndoneStory(env.cfg, challenge, verifier, t, m, d);
            && (forall j: nat :: j <= 7 ==> After(env, ops, j) == After(env, first, j))
            && After(env, ops, 7) == FoundLapsed(env.cfg, challenge, t, m)
            && After(env, ops, 8) == Step(env, After(env, ops, 7), ops[7])
            && After(env, ops, 9) == Step(env, After(env, ops, 8), ops[8])
            && After(env, ops, 10) == Step(env, After(env, ops, 9), ops[9])
  {
    hide Step;
    var challenge := env.s256(verifier);
    var first := LateStory(env.cfg, challenge, verifier, t, m, d, d);
    var ops := UndoneStory(env.cfg, challenge, verifier, t, m, d);
    assert ops == first + ops[7..];
    forall j: nat | j <= 7
      ensures After(env, ops, j) == After(env, first, j)
    {
      Prefix(env, first, ops[7..], j);
    }
    AfterMinting(env, verifier, t, m, d, d);
    FindsLapsed(env, challenge, t, m, d);
    assert After(env, first, 6) == Step(env, After(env, first, 5), first[5]);
    assert After(env, first, 7) == Step(env, After(env, first, 6), first[6]);
  }

  lemma UndoneChecks(env: R.Setting, cfg: Config, challenge: string, t: Instant, m: Instant, d: Instant)
    ensures var w := Step(env, FoundLapsed(cfg, challenge, t, m), Serve(RevokeTool(true, "sid", d, d)));
            w.checks == map[0 := Lapsed("sid")] && Step(env, w, Drop(0, d)).checks == map[]
  {
    hide Handle;
    assert map[0 := Lapsed("sid")] - {0} == map[];
  }

  lemma {:induction false} UndoneInOrder(env: R.Setting, verifier: string, t: Instant, m: Instant, d: Instant)
    requires 43 <= |verifier| <= 128 && env.s256(verifier) != "" && 0 <= t <= m <= d
    requires t + ACCESS_TOKEN_TTL < d <= V.TheToken(env.cfg, "j2", m).ExpiresAt()
    ensures Run(env, t, UndoneStory(env.cfg, env.s256(verifier), verifier, t, m, d))
  {
    hide Step, After, LetsThrough, Denylists;
    var first := LateStory(env.cfg, env.s256(verifier), verifier, t, m, d, d);
    var ops := UndoneStory(env.cfg, env.s256(verifier), verifier, t, m, d);
    LateTokenPasses(env, verifier, t, m, d, d);
    UndoneStates(env, verifier, t, m, d);
    UndoneChecks(env, env.cfg, env.s256(verifier), t, m, d);
    forall k: nat | k < |ops|
      ensures InOrder(Clock(t, ops, k), ops[k]) && Enabled(After(env, ops, k), ops[k])
    {
      if k < 7 {
        assert ops[k] == first[k] && Clock(t, ops, k) == Clock(t, first, k);
      }
    }
  }

  /** The second revocation is undone at once: it is a run. */
  lemma {:induction false} SecondRevocationUndone(env: R.Setting, verifier: string, t: Instant, m: Instant, d: Instant)
    requires 43 <= |verifier| <= 128 && env.s256(verifier) != "" && 0 <= t <= m <= d
    requires t + ACCESS_TOKEN_TTL < d <= V.TheToken(env.cfg, "j2", m).ExpiresAt()
    ensures var c := V.TheToken(env.cfg, "j2", m);
            var ops := UndoneStory(env.cfg, env.s256(verifier), verifier, t, m, d);
            && Run(env, t, ops) && LastListed(env, ops, 10, "sid") == Some(d) && Deleted(env, ops, 10, "sid")
            && LetsThrough(After(env, ops, 10), ops[10], c)
  {
    hide Step, After, LetsThrough, Denylists, Run, Fine, LastListed, Deleted, Drops;
    var challenge, c := env.s256(verifier), V.TheToken(env.cfg, "j2", m);
    var ops := UndoneStory(env.cfg, challenge, verifier, t, m, d);
    UndoneInOrder(env, verifier, t, m, d);
    UndoneStates(env, verifier, t, m, d);
    RunKeepsFine(env, t, ops, 7);
    LostRelisting(env, After(env, ops, 7), d, 0, 1, c, d, d, d);
    UndoneChecks(env, env.cfg, challenge, t, m, d);
    DropsIt(After(env, ops, 8), d);
    Relisted(env, ops, d, "sid");
  }

  lemma DropsIt(w: World, d: Instant)
    requires w.checks == map[0 := Lapsed("sid")]
    ensures Drops(w, Drop(0, d), "sid")
  {
  }

  lemma {:induction false} Relisted(env: R.Setting, ops: seq<Op>, d: Instant, sid: string)
    requires |ops| == 11 && ops[7].Serve? && Denylists(env, After(env, ops, 7), ops[7]) == Some(sid) && At(ops[7]) == d
    requires Drops(After(env, ops, 8), ops[8], sid) && ops[9].Begin?
    ensures LastListed(env, ops, 10, sid) == Some(d) && Deleted(env, ops, 10, sid)
  {
    hide Step, Drops, After;
    assert LastListed(env, ops, 8, sid) == Some(d);
    assert ops[8].Drop? by { IsDrop(After(env, ops, 8), ops[8], sid); }
    assert LastListed(env, ops, 9, sid) == Some(d) && Deleted(env, ops, 9, sid);
  }

  lemma IsDrop(w: World, op: Op, sid: string)
    requires Drops(w, op, sid)
    ensures op.Drop?
  {
  }
}
