/** The whole upstream policy around one call: `internal/ratelimit/guard.go`. */
module Guard {
  import opened Base
  import B = Breaker
  import L = Limiter

  /** What the guarded call reports; status 0 is a port-43 exchange or a transport
      failure, `failed` says whether it returned an error. */
  datatype Outcome = Outcome(status: int, retryAfter: L.RetryAfter, failed: bool)

  /** One guarded call: what the bucket will say, what the upstream will do, and
      the clock readings in program order. */
  datatype Call = Call(bucket: L.Bucket, outcome: Outcome, draw: nat,
                       tAllow: Instant, tAcquire: Instant, tObserve: Instant, tRelease: Instant)

  datatype Result = CircuitOpen(until: Instant) | Limited(why: L.AcquireResult) | Ran(outcome: Outcome)

  predicate IsHealthy(out: Outcome) {
    if out.status == 0 && out.failed then false
    else if out.status == 429 then false
    else if out.status >= 500 then false
    else true
  }

  /** What the two policies know about one host. */
  datatype Upstream = Upstream(br: B.Host, lim: L.Host)

  /** A missing policy is not applied. */
  datatype Policy = Policy(breaker: Option<B.Settings>, limiter: bool)

  function DoSpec(p: Policy, u: Upstream, c: Call): (Upstream, Result) {
    var (h, refused) := if p.breaker.Some? then B.AllowSpec(p.breaker.value, u.br, c.tAllow) else (u.br, None);
    if refused.Some? then (u, CircuitOpen(refused.value))
    else
      var (paused, got) := if p.limiter then L.AcquireSpec(u.lim, c.bucket, c.tAcquire) else (u.lim, L.Acquired);
      if got != L.Acquired then (Upstream(Released(p, h, true, c.tRelease), paused), Limited(got))
      else
        (Upstream(Released(p, h, IsHealthy(c.outcome), c.tRelease),
                  if p.limiter
                  then L.ObserveSpec(paused, c.outcome.status, c.outcome.retryAfter, c.draw, c.tObserve)
                  else paused),
         Ran(c.outcome))
  }

  function Released(p: Policy, h: B.Host, success: bool, now: Instant): B.Host {
    if p.breaker.Some? then B.RecordSpec(p.breaker.value, h, success, now) else h
  }

  class Guard {
    const lim: L.Limiter?
    const br: B.Breaker?

    constructor (lim: L.Limiter?, br: B.Breaker?)
      ensures this.lim == lim && this.br == br
    {
      this.lim := lim;
      this.br := br;
    }

    function Set(): set<object>
    {
      (if lim == null then {} else {lim}) + (if br == null then {} else {br})
    }

    ghost function Of(key: string): Upstream
      reads Set()
    {
      Upstream(if br == null then B.Healthy else br.Of(key), if lim == null then L.Untouched else lim.Of(key))
    }

    ghost function ThePolicy(): Policy
    {
      Policy(if br == null then None else Some(br.cfg), lim != null)
    }

    /** The guarded function runs exactly when the result is Ran. */
    method Do(key: string, c: Call) returns (r: Result)
      modifies Set()
      ensures (Of(key), r) == DoSpec(ThePolicy(), old(Of(key)), c)
    {
      var permit: B.Permit? := null;
      if br != null {
        var until;
        permit, until := br.Allow(key, c.tAllow);
        if permit == null {
          return CircuitOpen(until);
        }
      }
      if lim != null {
        var got := lim.Acquire(key, c.bucket, c.tAcquire);
        if got != L.Acquired {
          if permit != null {
            permit.Release(br, true, c.tRelease);
          }
          return Limited(got);
        }
      }
      var out := c.outcome;
      if lim != null {
        lim.Observe(key, out.status, out.retryAfter, c.draw, c.tObserve);
      }
      if permit != null {
        permit.Release(br, IsHealthy(out), c.tRelease);
      }
      return Ran(out);
    }
  }

  /** In terms of overlapping calls, an admitted Do is one admission and exactly
      one report, and leaves no call outstanding; a refused one is neither. */
  lemma DoReportsOnce(p: Policy, u: Upstream, c: Call, out: map<nat, Instant>, id: nat)
    requires p.breaker.Some? && id !in out
    ensures var cfg := p.breaker.value; var (u', r) := DoSpec(p, u, c);
            var asked := B.Step(cfg, B.Run(u.br, out), B.Ask(id, c.tAllow));
            if r.CircuitOpen? then
              u' == u && asked == B.Run(u.br, out)
            else
              && id in asked.out
              && B.Step(cfg, asked, B.Report(id, r.Ran? ==> IsHealthy(c.outcome), c.tRelease)) == B.Run(u'.br, out)
  {
    assert out[id := c.tAllow] - {id} == out;
  }

  /** A refusal by the limiter never counts against the upstream: afterwards the
      breaker has no failures on record and is not open. When calls overlap this
      can close a circuit that others opened: GuardOverlap.RefusalCloses. */
  lemma LimiterRefusalIsHarmless(p: Policy, u: Upstream, c: Call)
    requires p.breaker.Some? && DoSpec(p, u, c).1.Limited?
    ensures DoSpec(p, u, c).0.br.failures == 0
    ensures DoSpec(p, u, c).0.br.state != B.Open
  {
  }

  // ---- a series of calls to one host

  function After(p: Policy, u: Upstream, cs: seq<Call>, k: nat): Upstream
    requires k <= |cs|
  {
    if k == 0 then u else DoSpec(p, After(p, u, cs, k - 1), cs[k - 1]).0
  }

  predicate TransportFailure(c: Call) {
    c.bucket == L.Admit && c.outcome.status == 0 && c.outcome.failed
  }

  lemma FailureStep(p: Policy, u: Upstream, c: Call)
    requires p.breaker.Some? && p.limiter && u.br.state == B.Closed && u.lim.pause == None && TransportFailure(c)
    ensures var (u', r) := DoSpec(p, u, c);
            && r == Ran(c.outcome) && u'.lim.pause == None && u'.br.failures == u.br.failures + 1
            && (if u'.br.failures >= p.breaker.value.threshold
                then u'.br.state == B.Open && u'.br.openUntil == c.tRelease + p.breaker.value.cooldown
                else u'.br.state == B.Closed)
  {
  }

  lemma OpenRefuses(p: Policy, u: Upstream, c: Call)
    requires p.breaker.Some? && u.br.state == B.Open && c.tAllow < u.br.openUntil
    ensures DoSpec(p, u, c) == (u, CircuitOpen(u.br.openUntil))
  {
  }

  lemma {:induction false} FailuresReachTheUpstream(p: Policy, u: Upstream, cs: seq<Call>, k: nat)
    requires p.breaker.Some? && p.limiter && u.br.state == B.Closed && u.lim.pause == None
    requires u.br.failures + k < p.breaker.value.threshold && k <= |cs|
    requires forall i :: 0 <= i < k ==> TransportFailure(cs[i])
    ensures var u' := After(p, u, cs, k);
            u'.br.state == B.Closed && u'.br.failures == u.br.failures + k && u'.lim.pause == None
  {
    hide DoSpec;
    if k > 0 {
      FailuresReachTheUpstream(p, u, cs, k - 1);
      FailureStep(p, After(p, u, cs, k - 1), cs[k - 1]);
    }
  }

  /** From a closed circuit without a pause, transport failures in a row all reach
      the upstream until they fill the threshold; the last of them opens the
      circuit, and the next call before the cooldown ends is refused without
      running. The limiter does not get in the way of the breaker. */
  lemma {:induction false} FailuresOpenTheCircuit(p: Policy, u: Upstream, cs: seq<Call>, next: Call)
    requires p.breaker.Some? && p.limiter && u.br.state == B.Closed && u.lim.pause == None
    requires |cs| > 0 && u.br.failures + |cs| == p.breaker.value.threshold
    requires forall i :: 0 <= i < |cs| ==> TransportFailure(cs[i])
    ensures forall k :: 0 <= k < |cs| ==> DoSpec(p, After(p, u, cs, k), cs[k]).1 == Ran(cs[k].outcome)
    ensures var u' := After(p, u, cs, |cs|); var until := cs[|cs| - 1].tRelease + p.breaker.value.cooldown;
            && u'.br.state == B.Open && u'.br.openUntil == until
            && (next.tAllow < until ==> DoSpec(p, u', next) == (u', CircuitOpen(until)))
  {
    hide DoSpec, TransportFailure;
    forall k | 0 <= k < |cs|
      ensures DoSpec(p, After(p, u, cs, k), cs[k]).1 == Ran(cs[k].outcome)
    {
      FailuresReachTheUpstream(p, u, cs, k);
      FailureStep(p, After(p, u, cs, k), cs[k]);
    }
    FailuresReachTheUpstream(p, u, cs, |cs| - 1);
    FailureStep(p, After(p, u, cs, |cs| - 1), cs[|cs| - 1]);
    var u' := After(p, u, cs, |cs|);
    if next.tAllow < u'.br.openUntil {
      OpenRefuses(p, u', next);
    }
  }

  // ---- what counts as a failure

  /** A call that ran counts as a failure exactly for an error without a status, for
      429, and for 500 and above; then it adds one to the breaker's count, and
      otherwise it clears it. */
  lemma FailureExactly(p: Policy, u: Upstream, c: Call)
    requires p.breaker.Some? && DoSpec(p, u, c).1.Ran?
    ensures var out := c.outcome;
            var bad := (out.status == 0 && out.failed) || out.status == 429 || out.status >= 500;
            && IsHealthy(c.outcome) == !bad
            && DoSpec(p, u, c).0.br.failures == if bad then u.br.failures + 1 else 0
  {
  }

  /** The limiter lets the call pass: no pause is ahead, and the bucket admits it. */
  predicate Passes(p: Policy, u: Upstream, c: Call) {
    p.limiter ==> c.bucket == L.Admit && (u.lim.pause.None? || u.lim.pause.value <= c.tAcquire)
  }

  lemma UnhealthyStep(p: Policy, u: Upstream, c: Call)
    requires p.breaker.Some? && u.br.state == B.Closed && Passes(p, u, c) && !IsHealthy(c.outcome)
    ensures var (u', r) := DoSpec(p, u, c);
            && r == Ran(c.outcome) && u'.br.failures == u.br.failures + 1
            && (if u'.br.failures >= p.breaker.value.threshold
                then u'.br.state == B.Open && u'.br.openUntil == c.tRelease + p.breaker.value.cooldown
                else u'.br.state == B.Closed)
  {
  }

  lemma {:induction false} UnhealthySoFar(p: Policy, u: Upstream, cs: seq<Call>, k: nat)
    requires p.breaker.Some? && u.br.state == B.Closed && k <= |cs|
    requires u.br.failures + k < p.breaker.value.threshold
    requires forall i :: 0 <= i < k ==> Passes(p, After(p, u, cs, i), cs[i]) && !IsHealthy(cs[i].outcome)
    ensures After(p, u, cs, k).br.state == B.Closed && After(p, u, cs, k).br.failures == u.br.failures + k
  {
    hide DoSpec, Passes, IsHealthy;
    if k > 0 {
      UnhealthySoFar(p, u, cs, k - 1);
      UnhealthyStep(p, After(p, u, cs, k - 1), cs[k - 1]);
    }
  }

  /** Any failures in a row, server errors and throttling answers included, open the
      circuit as soon as they fill the threshold, as long as each call waits for the
      pause that the one before has brought about. */
  lemma {:induction false} UnhealthyRunOpens(p: Policy, u: Upstream, cs: seq<Call>)
    requires p.breaker.Some? && u.br.state == B.Closed
    requires |cs| > 0 && u.br.failures + |cs| == p.breaker.value.threshold
    requires forall i :: 0 <= i < |cs| ==> Passes(p, After(p, u, cs, i), cs[i]) && !IsHealthy(cs[i].outcome)
    ensures var u' := After(p, u, cs, |cs|);
            u'.br.state == B.Open && u'.br.openUntil == cs[|cs| - 1].tRelease + p.breaker.value.cooldown
  {
    hide DoSpec, Passes, IsHealthy;
    UnhealthySoFar(p, u, cs, |cs| - 1);
    UnhealthyStep(p, After(p, u, cs, |cs| - 1), cs[|cs| - 1]);
  }

  /** A call that does not wait is refused, and its release wipes the count: callers
      that retry at once never let server errors open the circuit. */
  lemma ImpatienceClearsTheCount(p: Policy, u: Upstream, bad: Call, next: Call)
    requires p.breaker.Some? && p.limiter && u.br.state == B.Closed && Passes(p, u, bad)
    requires bad.outcome.status == 429 || bad.outcome.status >= 500
    requires u.br.failures + 1 < p.breaker.value.threshold
    requires var lim := DoSpec(p, u, bad).0.lim; lim.pause.Some? && next.tAcquire < lim.pause.value
    ensures var (u', r) := DoSpec(p, DoSpec(p, u, bad).0, next);
            r.Limited? && u'.br.state == B.Closed && u'.br.failures == 0
  {
  }
}
