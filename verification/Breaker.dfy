/** The per-host circuit breaker: `internal/ratelimit/breaker.go`. A call asks to
    be admitted now and reports its outcome later, so calls overlap. Hosts are
    named by their normalised key. */
module Breaker {
  import opened Base

  const BREAKER_THRESHOLD := 5
  const BREAKER_COOLDOWN := 30 * SECOND
  const BREAKER_HALF_OPEN_PROBES := 2

  datatype State = Closed | Open | HalfOpen

  datatype Settings = Settings(threshold: int, cooldown: int, probes: int)
  {
    predicate Usable() {
      threshold > 0 && cooldown > 0 && probes > 0
    }
  }

  datatype Host = Host(state: State, failures: nat, successes: nat, openUntil: Instant, inFlightProbe: bool)

  const Healthy := Host(Closed, 0, 0, 0, false)

  /** The second component is how long a refused caller is told to wait. */
  function AllowSpec(cfg: Settings, h: Host, now: Instant): (Host, Option<Instant>) {
    match h.state
    case Open =>
      if now < h.openUntil then (h, Some(h.openUntil))
      else (h.(state := HalfOpen, successes := 0, inFlightProbe := true), None)
    case HalfOpen =>
      if h.inFlightProbe then (h, Some(now + cfg.cooldown))
      else (h.(inFlightProbe := true), None)
    case Closed => (h, None)
  }

  function RecordSpec(cfg: Settings, h: Host, success: bool, now: Instant): Host {
    var h := h.(inFlightProbe := false);
    if success then
      if h.state == HalfOpen && h.successes + 1 < cfg.probes
      then h.(failures := 0, successes := h.successes + 1)
      else h.(failures := 0, state := Closed, successes := if h.state == HalfOpen then 0 else h.successes)
    else
      var h := h.(failures := h.failures + 1, successes := 0);
      if h.state == HalfOpen || h.failures >= cfg.threshold
      then h.(state := Open, openUntil := now + cfg.cooldown) else h
  }

  function StateSpec(h: Host, now: Instant): State {
    if h.state == Open && h.openUntil <= now then HalfOpen else h.state
  }

  /** An admitted call; its outcome counts once. */
  class Permit {
    const key: string
    var done: bool

    constructor (key: string)
      ensures this.key == key && !done
    {
      this.key := key;
      done := false;
    }

    method Release(b: Breaker, success: bool, now: Instant)
      modifies this, b
      ensures done
      ensures b.hosts == if !old(done) && key in old(b.hosts)
                         then old(b.hosts)[key := RecordSpec(b.cfg, old(b.hosts)[key], success, now)]
                         else old(b.hosts)
    {
      if !done {
        done := true;
        b.Record(key, success, now);
      }
    }
  }

  class Breaker {
    const cfg: Settings
    var hosts: map<string, Host>

    constructor (opt: Settings)
      ensures cfg.Usable() && hosts == map[]
      ensures opt.Usable() ==> cfg == opt
      ensures opt == Settings(0, 0, 0) ==>
                cfg == Settings(BREAKER_THRESHOLD, BREAKER_COOLDOWN, BREAKER_HALF_OPEN_PROBES)
    {
      cfg := Settings(if opt.threshold <= 0 then BREAKER_THRESHOLD else opt.threshold,
                      if opt.cooldown <= 0 then BREAKER_COOLDOWN else opt.cooldown,
                      if opt.probes <= 0 then BREAKER_HALF_OPEN_PROBES else opt.probes);
      hosts := map[];
    }

    ghost function Of(key: string): Host
      reads this
    {
      if key in hosts then hosts[key] else Healthy
    }

    method Allow(key: string, now: Instant) returns (permit: Permit?, until: Instant)
      modifies this
      ensures var (h, refused) := AllowSpec(cfg, old(Of(key)), now);
              && hosts == old(hosts)[key := h]
              && (permit == null <==> refused.Some?)
              && (permit == null ==> until == refused.value)
      ensures permit != null ==> fresh(permit) && permit.key == key && !permit.done
    {
      permit, until := null, now;
      if key !in hosts {
        hosts := hosts[key := Healthy];
      }
      var h := hosts[key];
      match h.state
      case Open =>
        if now < h.openUntil {
          until := h.openUntil;
          return;
        }
        hosts := hosts[key := h.(state := HalfOpen, successes := 0, inFlightProbe := true)];
        permit := new Permit(key);
      case HalfOpen =>
        if h.inFlightProbe {
          until := now + cfg.cooldown;
          return;
        }
        hosts := hosts[key := h.(inFlightProbe := true)];
        permit := new Permit(key);
      case Closed =>
        permit := new Permit(key);
    }

    method Record(key: string, success: bool, now: Instant)
      modifies this
      ensures hosts == if key in old(hosts)
                       then old(hosts)[key := RecordSpec(cfg, old(hosts)[key], success, now)]
                       else old(hosts)
    {
      if key !in hosts {
        return;
      }
      var h := hosts[key].(inFlightProbe := false);
      if success {
        h := h.(failures := 0);
        if h.state == HalfOpen {
          h := h.(successes := h.successes + 1);
          if h.successes >= cfg.probes {
            h := h.(state := Closed, successes := 0);
          }
        } else {
          h := h.(state := Closed);
        }
        hosts := hosts[key := h];
        return;
      }
      h := h.(failures := h.failures + 1, successes := 0);
      if h.state == HalfOpen || h.failures >= cfg.threshold {
        h := h.(state := Open, openUntil := now + cfg.cooldown);
      }
      hosts := hosts[key := h];
    }

    method CurrentState(key: string, now: Instant) returns (s: State)
      ensures s == StateSpec(Of(key), now)
    {
      if key !in hosts {
        return Closed;
      }
      if hosts[key].state == Open && !(now < hosts[key].openUntil) {
        return HalfOpen;
      }
      return hosts[key].state;
    }

    /** Every host refusing traffic, each once, in whatever order the map yields. */
    method OpenHosts(now: Instant) returns (out: seq<string>)
      ensures forall k :: k in out <==> k in hosts && StateSpec(hosts[k], now) == Open
      ensures forall i, j :: 0 <= i < j < |out| ==> out[i] != out[j]
    {
      out := [];
      var todo := hosts.Keys;
      while todo != {}
        invariant todo <= hosts.Keys
        invariant forall k :: k in out <==> k in hosts && k !in todo && StateSpec(hosts[k], now) == Open
        invariant forall i, j :: 0 <= i < j < |out| ==> out[i] != out[j]
        decreases todo
      {
        var k :| k in todo;
        if hosts[k].state == Open && now < hosts[k].openUntil {
          out := out + [k];
        }
        todo := todo - {k};
      }
    }
  }

  /** A host is reported open exactly when the next call would be refused for the
      cooldown, closed only when it would be admitted. A refused call is told when the
      cooldown ends, or to wait one cooldown for the probe; it changes nothing. */
  lemma ReportMatchesNextCall(cfg: Settings, h: Host, now: Instant)
    ensures StateSpec(h, now) == Open <==> AllowSpec(cfg, h, now).1.Some? && AllowSpec(cfg, h, now).0.state == Open
    ensures StateSpec(h, now) == Closed ==> AllowSpec(cfg, h, now).1.None?
    ensures StateSpec(h, now) == HalfOpen && AllowSpec(cfg, h, now).1.Some? ==> h.inFlightProbe && h.state == HalfOpen
    ensures AllowSpec(cfg, h, now).1.Some? ==>
              AllowSpec(cfg, h, now) == (h, Some(if h.state == Open then h.openUntil else now + cfg.cooldown))
  {
  }

  // ---- runs of overlapping calls to one host

  datatype Event =
    | Ask(id: nat, now: Instant)
    | Report(id: nat, success: bool, now: Instant)

  /** The host together with the calls admitted and not yet reported, and when
      each of them was admitted. */
  datatype Run = Run(h: Host, out: map<nat, Instant>)

  function Step(cfg: Settings, r: Run, e: Event): Run {
    match e
    case Ask(id, now) =>
      var (h, refused) := AllowSpec(cfg, r.h, now);
      Run(h, if refused.None? then r.out[id := now] else r.out)
    case Report(id, success, now) =>
      if id in r.out then Run(RecordSpec(cfg, r.h, success, now), r.out - {id}) else r
  }

  function After(cfg: Settings, es: seq<Event>, k: nat): Run
    requires k <= |es|
  {
    if k == 0 then Run(Healthy, map[]) else Step(cfg, After(cfg, es, k - 1), es[k - 1])
  }

  ghost predicate Timed(cfg: Settings, es: seq<Event>) {
    && (forall i, j :: 0 <= i < j < |es| ==> es[i].now <= es[j].now)
    && (forall k :: 0 <= k < |es| && es[k].Ask? ==> es[k].id !in After(cfg, es, k).out)
  }

  /** Every admitted call reports within `limit`. */
  ghost predicate Prompt(cfg: Settings, es: seq<Event>, limit: int) {
    forall k, id :: 0 <= k < |es| && id in After(cfg, es, k).out ==> es[k].now <= After(cfg, es, k).out[id] + limit
  }

  /** While half-open, the probe flag says exactly whether a call is out, and it
      is the only one. While open, every call still out was admitted before the
      cooldown began. */
  ghost predicate Exclusive(cfg: Settings, r: Run) {
    && (r.h.inFlightProbe ==> r.h.state == HalfOpen)
    && (r.h.state == HalfOpen ==>
          if r.h.inFlightProbe then |r.out| == 1 else r.out == map[])
    && (r.h.state == Open ==> forall id :: id in r.out ==> r.out[id] + cfg.cooldown <= r.h.openUntil)
  }

  ghost predicate AdmittedBy(r: Run, clock: Instant) {
    forall id :: id in r.out ==> r.out[id] <= clock
  }

  lemma {:induction false} AskKeepsExclusive(cfg: Settings, r: Run, e: Event, limit: int)
    requires e.Ask? && e.id !in r.out && Exclusive(cfg, r) && AdmittedBy(r, e.now) && limit < cfg.cooldown
    requires forall id :: id in r.out ==> e.now <= r.out[id] + limit
    ensures Exclusive(cfg, Step(cfg, r, e)) && AdmittedBy(Step(cfg, r, e), e.now)
  {
    if r.h.state == Open && r.h.openUntil <= e.now {
      assert r.out == map[];
    }
  }

  lemma {:induction false} ReportKeepsExclusive(cfg: Settings, r: Run, e: Event)
    requires e.Report? && Exclusive(cfg, r) && AdmittedBy(r, e.now)
    ensures Exclusive(cfg, Step(cfg, r, e)) && AdmittedBy(Step(cfg, r, e), e.now)
  {
    if e.id in r.out && |r.out| == 1 {
      OnlyOne(r.out, e.id);
    }
  }

  lemma NothingOut(cfg: Settings, now: Instant)
    ensures Exclusive(cfg, Run(Healthy, map[])) && AdmittedBy(Run(Healthy, map[]), now)
  {
  }

  lemma AdmittedLater(r: Run, clock: Instant, now: Instant)
    requires AdmittedBy(r, clock) && clock <= now
    ensures AdmittedBy(r, now)
  {
  }

  /** Half-open theorem. With every admitted call reporting within less than the
      cooldown, a half-open host never has two calls out. */
  lemma {:induction false} HalfOpenIsExclusive(cfg: Settings, es: seq<Event>, limit: int, k: nat, now: Instant)
    requires Timed(cfg, es) && Prompt(cfg, es, limit) && limit < cfg.cooldown && k <= |es|
    requires k > 0 ==> es[k - 1].now <= now
    ensures Exclusive(cfg, After(cfg, es, k)) && AdmittedBy(After(cfg, es, k), now)
  {
    hide Exclusive, AdmittedBy, Step;
    if k == 0 {
      NothingOut(cfg, now);
    } else {
      var r, e := After(cfg, es, k - 1), es[k - 1];
      assert k > 1 ==> es[k - 2].now <= e.now;
      HalfOpenIsExclusive(cfg, es, limit, k - 1, e.now);
      if e.Ask? {
        AskKeepsExclusive(cfg, r, e, limit);
      } else {
        ReportKeepsExclusive(cfg, r, e);
      }
      AdmittedLater(Step(cfg, r, e), e.now, now);
    }
  }

  lemma OnlyOne(m: map<nat, Instant>, id: nat)
    requires id in m && |m| == 1
    ensures m - {id} == map[]
  {
    assert m.Keys == {id} by {
      assert |m.Keys - {id}| == 0;
    }
  }

  // ---- the bound on how long a call may take is sharp

  /** One call more than the threshold is asked for at once; all but the last of
      them fail, and one more is asked for when the cooldown is over. */
  function Overlapping(cfg: Settings): seq<Event>
    requires cfg.Usable()
  {
    seq(2 * cfg.threshold + 2, i requires 0 <= i < 2 * cfg.threshold + 2 =>
      if i <= cfg.threshold then Ask(i, 0)
      else if i <= 2 * cfg.threshold then Report(i - cfg.threshold - 1, false, 0)
      else Ask(cfg.threshold + 1, cfg.cooldown))
  }

  /** Calls lo..hi-1, admitted at time 0. */
  function Waiting(lo: nat, hi: nat): map<nat, Instant> {
    map id: nat | lo <= id < hi && Among(id, lo, hi) :: 0
  }

  predicate Among(id: nat, lo: nat, hi: nat) {
    lo <= id < hi
  }

  lemma {:induction false} AllAdmitted(cfg: Settings, k: nat)
    requires cfg.Usable() && k <= cfg.threshold + 1
    ensures After(cfg, Overlapping(cfg), k) == Run(Healthy, Waiting(0, k))
  {
    if k == 0 {
      assert Waiting(0, 0) == map[];
    } else {
      AllAdmitted(cfg, k - 1);
      assert Waiting(0, k) == Waiting(0, k - 1)[k - 1 := 0];
    }
  }

  /** After n of the failures. */
  function Failed(cfg: Settings, n: nat): Run
    requires cfg.Usable()
  {
    Run(if n < cfg.threshold then Host(Closed, n, 0, 0, false) else Host(Open, n, 0, cfg.cooldown, false),
        Waiting(n, cfg.threshold + 1))
  }

  lemma {:induction false} AllButOneFail(cfg: Settings, n: nat)
    requires cfg.Usable() && n <= cfg.threshold
    ensures After(cfg, Overlapping(cfg), cfg.threshold + 1 + n) == Failed(cfg, n)
  {
    hide Step;
    if n == 0 {
      AllAdmitted(cfg, cfg.threshold + 1);
    } else {
      hide Failed;
      AllButOneFail(cfg, n - 1);
      OneMoreFails(cfg, n - 1);
    }
  }

  lemma OneMoreFails(cfg: Settings, n: nat)
    requires cfg.Usable() && n < cfg.threshold
    ensures Step(cfg, Failed(cfg, n), Report(n, false, 0)) == Failed(cfg, n + 1)
  {
    assert Waiting(n + 1, cfg.threshold + 1) == Waiting(n, cfg.threshold + 1) - {n};
  }

  /** The bound is sharp, whatever the settings: as soon as a call may take one
      cooldown to report, it can be out together with the probe. */
  lemma {:induction false} SlowCallSharesHalfOpen(cfg: Settings, limit: int)
    requires cfg.Usable() && cfg.cooldown <= limit
    ensures var es := Overlapping(cfg);
            && Timed(cfg, es) && Prompt(cfg, es, limit)
            && After(cfg, es, |es|).h.state == HalfOpen
            && After(cfg, es, |es|).out.Keys == {cfg.threshold, cfg.threshold + 1}
  {
    hide Step;
    var es := Overlapping(cfg);
    forall k: nat | k < |es|
      ensures forall id :: id in After(cfg, es, k).out ==> After(cfg, es, k).out[id] == 0
      ensures es[k].Ask? ==> es[k].id !in After(cfg, es, k).out
    {
      if k <= cfg.threshold {
        AllAdmitted(cfg, k);
      } else {
        AllButOneFail(cfg, k - cfg.threshold - 1);
      }
    }
    AllButOneFail(cfg, cfg.threshold);
    ProbeJoins(cfg);
  }

  lemma ProbeJoins(cfg: Settings)
    requires cfg.Usable()
    ensures var r := Step(cfg, Failed(cfg, cfg.threshold), Ask(cfg.threshold + 1, cfg.cooldown));
            r.h.state == HalfOpen && r.out.Keys == {cfg.threshold, cfg.threshold + 1}
  {
  }

  // ---- the breaker and its history

  /** The outcomes that counted among the first k events, oldest first. */
  function Outcomes(cfg: Settings, es: seq<Event>, k: nat): seq<bool>
    requires k <= |es|
  {
    if k == 0 then []
    else
      var e := es[k - 1];
      Outcomes(cfg, es, k - 1) + (if e.Report? && e.id in After(cfg, es, k - 1).out then [e.success] else [])
  }

  function TrailingFailures(outcomes: seq<bool>): nat {
    if outcomes == [] || outcomes[|outcomes| - 1] then 0
    else 1 + TrailingFailures(outcomes[..|outcomes| - 1])
  }

  lemma TrailingSnoc(outcomes: seq<bool>, success: bool)
    ensures TrailingFailures(outcomes + [success]) == if success then 0 else 1 + TrailingFailures(outcomes)
  {
    assert (outcomes + [success])[..|outcomes|] == outcomes;
  }

  lemma CountStep(cfg: Settings, r: Run, e: Event)
    requires cfg.Usable() && (r.h.state == Closed ==> r.h.failures < cfg.threshold)
    ensures var h := Step(cfg, r, e).h; var counted := e.Report? && e.id in r.out;
            && h.failures == (if !counted then r.h.failures else if e.success then 0 else r.h.failures + 1)
            && (h.state == Closed ==> h.failures < cfg.threshold)
  {
  }

  /** The failure count is the length of the run of failures the history ends in,
      and a closed host has not reached the threshold. */
  lemma {:induction false} FailuresAreTrailing(cfg: Settings, es: seq<Event>, k: nat)
    requires cfg.Usable() && k <= |es|
    ensures After(cfg, es, k).h.failures == TrailingFailures(Outcomes(cfg, es, k))
    ensures After(cfg, es, k).h.state == Closed ==> After(cfg, es, k).h.failures < cfg.threshold
  {
    hide Step;
    if k > 0 {
      FailuresAreTrailing(cfg, es, k - 1);
      CountStep(cfg, After(cfg, es, k - 1), es[k - 1]);
      TrailingSnoc(Outcomes(cfg, es, k - 1), es[k - 1].Report? && es[k - 1].success);
      assert Outcomes(cfg, es, k - 1) + [] == Outcomes(cfg, es, k - 1);
    }
  }

  /** A host opens only on a reported failure: the one that makes the trailing run
      reach the threshold, or any one while half-open. */
  lemma {:induction false} WhyItOpened(cfg: Settings, es: seq<Event>, k: nat)
    requires cfg.Usable() && k < |es|
    requires After(cfg, es, k).h.state != Open && After(cfg, es, k + 1).h.state == Open
    ensures Outcomes(cfg, es, k + 1) == Outcomes(cfg, es, k) + [false]
    ensures After(cfg, es, k).h.state == HalfOpen
            || TrailingFailures(Outcomes(cfg, es, k + 1)) == cfg.threshold
    ensures After(cfg, es, k + 1).h.openUntil == es[k].now + cfg.cooldown
  {
    FailuresAreTrailing(cfg, es, k);
    FailuresAreTrailing(cfg, es, k + 1);
  }

  /** Event k reports a failure that counts and fills the threshold, or any that
      counts while half-open. */
  ghost predicate Trips(cfg: Settings, es: seq<Event>, k: nat)
    requires k < |es|
  {
    && es[k].Report? && es[k].id in After(cfg, es, k).out && !es[k].success
    && (After(cfg, es, k).h.state == HalfOpen || TrailingFailures(Outcomes(cfg, es, k + 1)) >= cfg.threshold)
  }

  /** Whatever the state before, open included, a failure that trips the circuit
      leaves it open for one cooldown from its own instant; one that does not
      leaves state and end of the cooldown as they were. */
  lemma {:induction false} FailureReported(cfg: Settings, es: seq<Event>, k: nat)
    requires cfg.Usable() && k < |es| && es[k].Report? && es[k].id in After(cfg, es, k).out && !es[k].success
    ensures var h, h' := After(cfg, es, k).h, After(cfg, es, k + 1).h;
            if Trips(cfg, es, k) then h'.state == Open && h'.openUntil == es[k].now + cfg.cooldown
            else h'.state == h.state && h'.openUntil == h.openUntil
  {
    FailuresAreTrailing(cfg, es, k);
    FailuresAreTrailing(cfg, es, k + 1);
  }

  /** A success closes an open or closed host at once, and a half-open one when it
      makes up the number of probes; it never moves the end of a cooldown. */
  lemma SuccessReported(cfg: Settings, es: seq<Event>, k: nat)
    requires cfg.Usable() && k < |es| && es[k].Report? && es[k].id in After(cfg, es, k).out && es[k].success
    ensures var h, h' := After(cfg, es, k).h, After(cfg, es, k + 1).h;
            && h'.failures == 0 && h'.openUntil == h.openUntil
            && (h.state == HalfOpen && h.successes + 1 < cfg.probes ==>
                  h'.state == HalfOpen && h'.successes == h.successes + 1)
            && (!(h.state == HalfOpen && h.successes + 1 < cfg.probes) ==> h'.state == Closed)
  {
  }

  /** When the circuit was last tripped. */
  ghost function LastTrip(cfg: Settings, es: seq<Event>, k: nat): Option<Instant>
    requires k <= |es|
  {
    if k == 0 then None else if Trips(cfg, es, k - 1) then Some(es[k - 1].now) else LastTrip(cfg, es, k - 1)
  }

  /** In every state an open host stays open until one cooldown after the last
      failure that tripped it, the ones reported while it was open included. */
  lemma {:induction false} OpenUntilLastTrip(cfg: Settings, es: seq<Event>, k: nat)
    requires cfg.Usable() && k <= |es|
    ensures LastTrip(cfg, es, k).Some? ==> After(cfg, es, k).h.openUntil == LastTrip(cfg, es, k).value + cfg.cooldown
    ensures After(cfg, es, k).h.state != Closed ==> LastTrip(cfg, es, k).Some?
  {
    hide TrailingFailures, Outcomes;
    if k > 0 {
      OpenUntilLastTrip(cfg, es, k - 1);
      var e := es[k - 1];
      if e.Report? && e.id in After(cfg, es, k - 1).out && !e.success {
        FailureReported(cfg, es, k - 1);
      }
    }
  }

  function Successes(n: nat): seq<bool> {
    seq(n, _ => true)
  }

  /** A host turns half-open by admitting a probe, and stays so through successes. */
  lemma HalfOpenStep(cfg: Settings, r: Run, e: Event)
    requires cfg.Usable() && Step(cfg, r, e).h.state == HalfOpen && r.h.state != HalfOpen
    ensures r.h.state == Open && e.Ask? && Step(cfg, r, e).h.successes == 0
  {
  }

  lemma StaysHalfOpen(cfg: Settings, r: Run, e: Event)
    requires cfg.Usable() && Step(cfg, r, e).h.state == HalfOpen && r.h.state == HalfOpen && r.h.successes < cfg.probes
    ensures Step(cfg, r, e).h.successes < cfg.probes
    ensures if e.Report? && e.id in r.out then e.success && Step(cfg, r, e).h.successes == r.h.successes + 1
            else Step(cfg, r, e).h.successes == r.h.successes
  {
  }

  /** While half-open, everything reported since the host left the open state was
      a success, fewer of them than it takes to close. */
  lemma {:induction false} HalfOpenSince(cfg: Settings, es: seq<Event>, k: nat) returns (m: nat)
    requires cfg.Usable() && k <= |es| && After(cfg, es, k).h.state == HalfOpen
    ensures m < k && After(cfg, es, m).h.state == Open
    ensures forall j :: m < j <= k ==> After(cfg, es, j).h.state == HalfOpen
    ensures Outcomes(cfg, es, k) == Outcomes(cfg, es, m) + Successes(After(cfg, es, k).h.successes)
    ensures After(cfg, es, k).h.successes < cfg.probes
  {
    hide Step;
    var r, e := After(cfg, es, k - 1), es[k - 1];
    assert Outcomes(cfg, es, k - 1) + [] == Outcomes(cfg, es, k - 1);
    if r.h.state != HalfOpen {
      HalfOpenStep(cfg, r, e);
      m := k - 1;
    } else {
      m := HalfOpenSince(cfg, es, k - 1);
      StaysHalfOpen(cfg, r, e);
      var n := r.h.successes;
      assert Outcomes(cfg, es, m) + Successes(n + 1) == Outcomes(cfg, es, m) + Successes(n) + [true];
    }
  }

  /** A half-open host closes only after exactly `probes` successes in a row. */
  lemma {:induction false} WhyItClosed(cfg: Settings, es: seq<Event>, k: nat) returns (m: nat)
    requires cfg.Usable() && k < |es|
    requires After(cfg, es, k).h.state == HalfOpen && After(cfg, es, k + 1).h.state == Closed
    ensures m < k && After(cfg, es, m).h.state == Open
    ensures forall j :: m < j <= k ==> After(cfg, es, j).h.state == HalfOpen
    ensures Outcomes(cfg, es, k + 1) == Outcomes(cfg, es, m) + Successes(cfg.probes)
  {
    m := HalfOpenSince(cfg, es, k);
    var n := After(cfg, es, k).h.successes;
    assert Successes(n + 1) == Successes(n) + [true];
  }

  lemma {:induction false} CooldownAhead(cfg: Settings, es: seq<Event>, k: nat, now: Instant)
    requires cfg.Usable() && Timed(cfg, es) && k <= |es| && (k > 0 ==> es[k - 1].now <= now)
    ensures After(cfg, es, k).h.state == Open ==> After(cfg, es, k).h.openUntil <= now + cfg.cooldown
  {
    if k > 0 {
      assert k > 1 ==> es[k - 2].now <= es[k - 1].now;
      CooldownAhead(cfg, es, k - 1, es[k - 1].now);
    }
  }

  lemma OpenStep(cfg: Settings, r: Run, e: Event)
    requires r.h.state == Open && e.now < r.h.openUntil <= e.now + cfg.cooldown
    requires e.Report? && e.id in r.out ==> !e.success
    ensures var h := Step(cfg, r, e).h; h.state == Open && r.h.openUntil <= h.openUntil
  {
  }

  lemma RefusedWhileOpen(cfg: Settings, h: Host, now: Instant)
    ensures h.state == Open && now < h.openUntil ==> AllowSpec(cfg, h, now).1.Some?
  {
  }

  /** After a host opens, every call asked for before the cooldown ends is refused
      until some call admitted earlier reports a success. */
  lemma {:induction false} NothingAdmittedWhileOpen(cfg: Settings, es: seq<Event>, i: nat, k: nat)
    requires cfg.Usable() && Timed(cfg, es) && i <= k < |es|
    requires After(cfg, es, i).h.state == Open && es[k].now < After(cfg, es, i).h.openUntil
    requires forall j :: i <= j < k && es[j].Report? && es[j].id in After(cfg, es, j).out ==> !es[j].success
    ensures After(cfg, es, k).h.state == Open
    ensures After(cfg, es, i).h.openUntil <= After(cfg, es, k).h.openUntil
    ensures es[k].Ask? ==> AllowSpec(cfg, After(cfg, es, k).h, es[k].now).1.Some?
    decreases k
  {
    hide Step, AllowSpec;
    RefusedWhileOpen(cfg, After(cfg, es, k).h, es[k].now);
    if i < k {
      assert es[k - 1].now <= es[k].now;
      NothingAdmittedWhileOpen(cfg, es, i, k - 1);
      assert k > 1 ==> es[k - 2].now <= es[k - 1].now;
      CooldownAhead(cfg, es, k - 1, es[k - 1].now);
      OpenStep(cfg, After(cfg, es, k - 1), es[k - 1]);
    }
  }
}
