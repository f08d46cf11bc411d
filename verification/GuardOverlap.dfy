/** Guarded calls of many callers to one host, taken apart: admission by the breaker,
    admission by the limiter, observation of the outcome, release. The parts of
    different calls alternate in any order. Both policies are in force. */
module GuardOverlap {
  import opened Base
  import B = Breaker
  import L = Limiter
  import G = Guard

  datatype Phase = Admitted | Refused | Running | Observed(outcome: G.Outcome)

  /** A call on its way, and when the breaker admitted it. */
  datatype Call = Call(phase: Phase, at: Instant)

  datatype World = World(br: B.Host, lim: L.Host, calls: map<nat, Call>)

  datatype Op =
    | Allow(id: nat, now: Instant)
    | Acquire(id: nat, bucket: L.Bucket, now: Instant)
    | Observe(id: nat, outcome: G.Outcome, draw: nat, now: Instant)
    | Release(id: nat, now: Instant)

  const Start := World(B.Healthy, L.Untouched, map[])

  /** What the release of a call will tell the breaker, once it is due. */
  function Verdict(phase: Phase): Option<bool> {
    match phase
    case Refused => Some(true)
    case Observed(outcome) => Some(G.IsHealthy(outcome))
    case _ => None
  }

  predicate IsDue(w: World, id: nat) {
    id in w.calls && Verdict(w.calls[id].phase).Some?
  }

  function Step(cfg: B.Settings, w: World, op: Op): World {
    match op
    case Allow(id, now) =>
      var (h, refused) := B.AllowSpec(cfg, w.br, now);
      w.(br := h, calls := if refused.None? then w.calls[id := Call(Admitted, now)] else w.calls)
    case Acquire(id, bucket, now) =>
      if id !in w.calls || w.calls[id].phase != Admitted then w
      else
        var (lim, got) := L.AcquireSpec(w.lim, bucket, now);
        var phase := if got == L.Acquired then Running else Refused;
        w.(lim := lim, calls := w.calls[id := w.calls[id].(phase := phase)])
    case Observe(id, outcome, draw, now) =>
      if id !in w.calls || w.calls[id].phase != Running then w
      else
        w.(lim := L.ObserveSpec(w.lim, outcome.status, outcome.retryAfter, draw, now),
           calls := w.calls[id := w.calls[id].(phase := Observed(outcome))])
    case Release(id, now) =>
      if !IsDue(w, id) then w
      else w.(br := B.RecordSpec(cfg, w.br, Verdict(w.calls[id].phase).value, now), calls := w.calls - {id})
  }

  /** The state after all operations. */
  function Final(cfg: B.Settings, ops: seq<Op>): World {
    if ops == [] then Start else Step(cfg, Final(cfg, ops[..|ops| - 1]), ops[|ops| - 1])
  }

  ghost predicate Enabled(w: World, op: Op) {
    op.Allow? ==> op.id !in w.calls
  }

  /** Calls have different names while they are on their way, and time passes. */
  ghost predicate Legal(cfg: B.Settings, ops: seq<Op>) {
    ops == [] ||
    var front, op := ops[..|ops| - 1], ops[|ops| - 1];
    && Legal(cfg, front) && Enabled(Final(cfg, front), op)
    && (front != [] ==> front[|front| - 1].now <= op.now)
  }

  /** What the breaker sees of an operation. */
  function Event(w: World, op: Op): seq<B.Event> {
    match op
    case Allow(id, now) => [B.Ask(id, now)]
    case Release(id, now) => if IsDue(w, id) then [B.Report(id, Verdict(w.calls[id].phase).value, now)] else []
    case _ => []
  }

  function Trace(cfg: B.Settings, ops: seq<Op>): seq<B.Event> {
    if ops == [] then []
    else Trace(cfg, ops[..|ops| - 1]) + Event(Final(cfg, ops[..|ops| - 1]), ops[|ops| - 1])
  }

  /** The breaker's part of the state. */
  function Seen(w: World): B.Run {
    B.Run(w.br, map id | id in w.calls :: w.calls[id].at)
  }

  /** Every report is that of a call admitted and not reported yet. */
  ghost predicate Counted(cfg: B.Settings, es: seq<B.Event>) {
    forall k :: 0 <= k < |es| && es[k].Report? ==> es[k].id in B.After(cfg, es, k).out
  }

  // ---- an uninterrupted call

  /** In a row, the parts are the guarded call, with the same state and result. */
  lemma {:induction false} DoIsItsParts(cfg: B.Settings, w: World, id: nat, c: G.Call)
    requires id !in w.calls
    ensures var allowed := Step(cfg, w, Allow(id, c.tAllow));
            var acquired := Step(cfg, allowed, Acquire(id, c.bucket, c.tAcquire));
            var observed := Step(cfg, acquired, Observe(id, c.outcome, c.draw, c.tObserve));
            var done := Step(cfg, observed, Release(id, c.tRelease));
            var (u, r) := G.DoSpec(G.Policy(Some(cfg), true), G.Upstream(w.br, w.lim), c);
            && G.Upstream(done.br, done.lim) == u && done.calls == w.calls
            && (r.CircuitOpen? <==> id !in allowed.calls)
            && (r.Ran? <==> id in acquired.calls && acquired.calls[id].phase == Running)
  {
    hide B.AllowSpec, B.RecordSpec, L.AcquireSpec, L.ObserveSpec;
    RefusedUnchanged(cfg, w.br, c.tAllow);
    var allowed := Step(cfg, w, Allow(id, c.tAllow));
    var acquired := Step(cfg, allowed, Acquire(id, c.bucket, c.tAcquire));
    var observed := Step(cfg, acquired, Observe(id, c.outcome, c.draw, c.tObserve));
    assert observed.calls - {id} == w.calls;
  }

  lemma RefusedUnchanged(cfg: B.Settings, h: B.Host, now: Instant)
    ensures B.AllowSpec(cfg, h, now).1.Some? ==> B.AllowSpec(cfg, h, now).0 == h
  {
  }

  // ---- every interleaving is a run of the breaker

  lemma {:induction false} Prefix(cfg: B.Settings, es: seq<B.Event>, e: B.Event, k: nat)
    requires k <= |es|
    ensures B.After(cfg, es + [e], k) == B.After(cfg, es, k)
  {
    hide B.Step;
    if k > 0 {
      Prefix(cfg, es, e, k - 1);
    }
  }

  lemma {:induction false} Snoc(cfg: B.Settings, es: seq<B.Event>, e: B.Event)
    requires B.Timed(cfg, es) && Counted(cfg, es)
    requires forall i :: 0 <= i < |es| ==> es[i].now <= e.now
    requires e.Ask? <==> e.id !in B.After(cfg, es, |es|).out
    ensures B.Timed(cfg, es + [e]) && Counted(cfg, es + [e])
    ensures B.After(cfg, es + [e], |es| + 1) == B.Step(cfg, B.After(cfg, es, |es|), e)
  {
    hide B.After;
    LastStep(cfg, es, e);
    forall k: nat | k <= |es|
      ensures (es + [e])[k].Ask? ==> (es + [e])[k].id !in B.After(cfg, es + [e], k).out
      ensures (es + [e])[k].Report? ==> (es + [e])[k].id in B.After(cfg, es + [e], k).out
    {
      Prefix(cfg, es, e, k);
      if k < |es| {
        assert (es + [e])[k] == es[k];
      }
    }
  }

  lemma LastStep(cfg: B.Settings, es: seq<B.Event>, e: B.Event)
    ensures B.After(cfg, es + [e], |es| + 1) == B.Step(cfg, B.After(cfg, es, |es|), e)
  {
    hide B.Step;
    Prefix(cfg, es, e, |es|);
  }

  lemma {:induction false} PromptSnoc(cfg: B.Settings, es: seq<B.Event>, e: B.Event, limit: int)
    requires B.Prompt(cfg, es, limit)
    requires forall id :: id in B.After(cfg, es, |es|).out ==> e.now <= B.After(cfg, es, |es|).out[id] + limit
    ensures B.Prompt(cfg, es + [e], limit)
  {
    hide B.After;
    forall k: nat, id | k <= |es| && id in B.After(cfg, es + [e], k).out
      ensures (es + [e])[k].now <= B.After(cfg, es + [e], k).out[id] + limit
    {
      Prefix(cfg, es, e, k);
      if k < |es| {
        assert (es + [e])[k] == es[k];
      }
    }
  }

  lemma {:induction false} SeenStep(cfg: B.Settings, w: World, op: Op)
    requires Enabled(w, op)
    ensures var es := Event(w, op);
            && (es == [] ==> Seen(Step(cfg, w, op)) == Seen(w))
            && (es != [] ==> |es| == 1 && es[0].now == op.now && Seen(Step(cfg, w, op)) == B.Step(cfg, Seen(w), es[0])
                             && (es[0].Ask? <==> es[0].id !in Seen(w).out))
  {
    hide B.AllowSpec, B.RecordSpec, L.AcquireSpec, L.ObserveSpec;
    var es, w' := Event(w, op), Step(cfg, w, op);
    if es == [] {
      assert Seen(w').out == Seen(w).out;
    } else {
      assert Seen(w').out == B.Step(cfg, Seen(w), es[0]).out;
    }
  }

  /** Projection theorem. However guarded calls overlap, what the breaker sees is one
      of its runs: it ends in the breaker's state with the calls on their way
      outstanding, and every report counts, once, for a call it admitted. So all
      that holds of every run of the breaker holds of guarded calls. */
  lemma {:induction false} Projects(cfg: B.Settings, ops: seq<Op>)
    requires Legal(cfg, ops)
    ensures var es := Trace(cfg, ops);
            && B.After(cfg, es, |es|) == Seen(Final(cfg, ops))
            && B.Timed(cfg, es) && Counted(cfg, es)
            && (ops != [] ==> forall i :: 0 <= i < |es| ==> es[i].now <= ops[|ops| - 1].now)
  {
    hide Step, B.Step, Seen, Event, B.Timed, Counted, Enabled;
    if ops == [] {
      NothingSeen(cfg);
    } else {
      var front, op := ops[..|ops| - 1], ops[|ops| - 1];
      Projects(cfg, front);
      var es, more := Trace(cfg, front), Event(Final(cfg, front), op);
      SeenStep(cfg, Final(cfg, front), op);
      if more == [] {
        assert es + more == es;
      } else {
        assert more == [more[0]];
        Snoc(cfg, es, more[0]);
      }
    }
  }

  lemma NothingSeen(cfg: B.Settings)
    ensures B.After(cfg, [], 0) == Seen(Start) && B.Timed(cfg, []) && Counted(cfg, [])
  {
    assert Seen(Start).out == map[];
  }

  // ---- the half-open theorem for guarded calls

  /** Every call is released within `limit` of its admission. */
  ghost predicate Prompt(cfg: B.Settings, ops: seq<Op>, limit: int) {
    ops == [] ||
    var front, op := ops[..|ops| - 1], ops[|ops| - 1];
    Prompt(cfg, front, limit)
    && forall id :: id in Final(cfg, front).calls ==> op.now <= Final(cfg, front).calls[id].at + limit
  }

  lemma {:induction false} SeenPrompt(cfg: B.Settings, ops: seq<Op>, limit: int)
    requires Legal(cfg, ops) && Prompt(cfg, ops, limit)
    ensures B.Prompt(cfg, Trace(cfg, ops), limit)
  {
    hide Step, B.Step, B.After, B.Prompt, B.Timed, Counted, Event, Enabled;
    if ops == [] {
      NothingSlow(cfg, limit);
    } else {
      var front, op := ops[..|ops| - 1], ops[|ops| - 1];
      SeenPrompt(cfg, front, limit);
      Projects(cfg, front);
      var es, more := Trace(cfg, front), Event(Final(cfg, front), op);
      SeenStep(cfg, Final(cfg, front), op);
      if more == [] {
        assert es + more == es;
      } else {
        assert more == [more[0]];
        PromptSnoc(cfg, es, more[0], limit);
      }
    }
  }

  lemma NothingSlow(cfg: B.Settings, limit: int)
    ensures B.Prompt(cfg, [], limit)
  {
  }

  /** If every guarded call is released in less than the cooldown, a half-open host
      has at most one call on its way, and the probe flag says whether. */
  lemma {:induction false} OneProbeAtATime(cfg: B.Settings, ops: seq<Op>, limit: int)
    requires Legal(cfg, ops) && Prompt(cfg, ops, limit) && limit < cfg.cooldown
    ensures var w := Final(cfg, ops);
            w.br.state == B.HalfOpen ==> if w.br.inFlightProbe then |w.calls| == 1 else w.calls == map[]
  {
    hide Step, Legal, Prompt, B.Timed, B.Prompt;
    var es, w := Trace(cfg, ops), Final(cfg, ops);
    Projects(cfg, ops);
    SeenPrompt(cfg, ops, limit);
    B.HalfOpenIsExclusive(cfg, es, limit, |es|, if es == [] then 0 else es[|es| - 1].now);
    assert Seen(w).out.Keys == w.calls.Keys;
  }

  // ---- what a limiter refusal can do

  /** Released as a success, a refused call closes a circuit that other calls have
      opened in the meantime: the cooldown is over at once, and the next call is
      admitted. From half-open it counts as a successful probe. */
  lemma RefusalCloses(cfg: B.Settings, w: World, id: nat, next: nat, now: Instant)
    requires id in w.calls && w.calls[id].phase == Refused
    ensures var w' := Step(cfg, w, Release(id, now));
            && w'.br.failures == 0
            && (w'.br.state == B.Closed <==>
                  w.br.state != B.HalfOpen || w.br.successes + 1 >= cfg.probes)
            && (w.br.state == B.Open ==> next in Step(cfg, w', Allow(next, now)).calls)
  {
  }

  /** One call is refused by the limiter; before it is released, others fail. */
  function Failing(n: nat): seq<Op> {
    if n == 0 then [Allow(0, 0), Acquire(0, L.TooSlow, 0)]
    else Failing(n - 1) + [Allow(n, 0)] + [Acquire(n, L.Admit, 0)] + [Observe(n, Failure, 0, 0)] + [Release(n, 0)]
  }

  const Failure := G.Outcome(0, L.Absent, true)

  function AfterFailing(cfg: B.Settings, n: nat): World {
    World(if n < cfg.threshold then B.Host(B.Closed, n, 0, 0, false) else B.Host(B.Open, n, 0, cfg.cooldown, false),
          L.Host(n, None), map[0 := Call(Refused, 0)])
  }

  lemma {:induction false} OneMoreOp(cfg: B.Settings, ops: seq<Op>, op: Op)
    requires Legal(cfg, ops) && ops != [] && ops[|ops| - 1].now == op.now == 0 && Enabled(Final(cfg, ops), op)
    ensures Legal(cfg, ops + [op]) && Final(cfg, ops + [op]) == Step(cfg, Final(cfg, ops), op)
  {
    hide Step, Enabled;
    assert (ops + [op])[..|ops|] == ops;
  }

  lemma {:induction false} OneFails(cfg: B.Settings, n: nat)
    requires cfg.Usable() && 0 < n <= cfg.threshold
    ensures var w1 := Step(cfg, AfterFailing(cfg, n - 1), Allow(n, 0));
            var w2 := Step(cfg, w1, Acquire(n, L.Admit, 0));
            var w3 := Step(cfg, w2, Observe(n, Failure, 0, 0));
            Step(cfg, w3, Release(n, 0)) == AfterFailing(cfg, n)
  {
    var refused := map[0 := Call(Refused, 0)];
    assert refused[n := Call(Admitted, 0)][n := Call(Running, 0)][n := Call(Observed(Failure), 0)] - {n} == refused;
  }

  lemma {:induction false} FailingRun(cfg: B.Settings, n: nat)
    requires cfg.Usable() && n <= cfg.threshold
    ensures Legal(cfg, Failing(n)) && Final(cfg, Failing(n)) == AfterFailing(cfg, n)
    ensures Failing(n) != [] && Failing(n)[|Failing(n)| - 1].now == 0
  {
    hide Legal, Final, Step, AfterFailing;
    if n == 0 {
      FirstRefused(cfg);
    } else {
      FailingRun(cfg, n - 1);
      OneFails(cfg, n);
      NotYetThere(cfg, n);
      var ops := Failing(n - 1);
      OneMoreOp(cfg, ops, Allow(n, 0));
      OneMoreOp(cfg, ops + [Allow(n, 0)], Acquire(n, L.Admit, 0));
      OneMoreOp(cfg, ops + [Allow(n, 0)] + [Acquire(n, L.Admit, 0)], Observe(n, Failure, 0, 0));
      OneMoreOp(cfg, ops + [Allow(n, 0)] + [Acquire(n, L.Admit, 0)] + [Observe(n, Failure, 0, 0)], Release(n, 0));
    }
  }

  lemma NotYetThere(cfg: B.Settings, n: nat)
    requires n > 0
    ensures n !in AfterFailing(cfg, n - 1).calls
  {
  }

  lemma FirstRefused(cfg: B.Settings)
    requires cfg.Usable()
    ensures Legal(cfg, Failing(0)) && Final(cfg, Failing(0)) == AfterFailing(cfg, 0)
  {
    hide Step;
    var a, b := Allow(0, 0), Acquire(0, L.TooSlow, 0);
    assert [a, b] == [a] + [b] && [a][..0] == [];
    assert Legal(cfg, [a]) && Final(cfg, [a]) == Step(cfg, Start, a);
    OneMoreOp(cfg, [a], b);
    FirstSteps(cfg);
  }

  lemma FirstSteps(cfg: B.Settings)
    requires cfg.Usable()
    ensures Step(cfg, Step(cfg, Start, Allow(0, 0)), Acquire(0, L.TooSlow, 0)) == AfterFailing(cfg, 0)
  {
    assert Step(cfg, Start, Allow(0, 0)).calls == map[0 := Call(Admitted, 0)];
  }

  /** It happens, whatever the settings: the threshold is filled and the circuit
      opens; the refused call is released; the circuit is closed and the next call
      admitted, a whole cooldown early. */
  lemma {:induction false} RefusalUndoesOpening(cfg: B.Settings)
    requires cfg.Usable()
    ensures var ops := Failing(cfg.threshold);
            && Legal(cfg, ops) && Final(cfg, ops).br.state == B.Open && Final(cfg, ops).br.openUntil == cfg.cooldown
            && var more := ops + [Release(0, 0)] + [Allow(0, 0)];
               Legal(cfg, more) && Final(cfg, more).br.state == B.Closed && 0 in Final(cfg, more).calls
  {
    hide Legal, Final;
    var ops := Failing(cfg.threshold);
    FailingRun(cfg, cfg.threshold);
    OneMoreOp(cfg, ops, Release(0, 0));
    OneMoreOp(cfg, ops + [Release(0, 0)], Allow(0, 0));
  }
}
