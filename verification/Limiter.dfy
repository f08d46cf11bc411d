/** Pauses and backoff per upstream host: `internal/ratelimit/ratelimit.go`. The
    token bucket is one arbitrary answer per call, the jitter one arbitrary draw. */
module Limiter {
  import opened Base

  const BACKOFF_BASE := SECOND / 2
  const BACKOFF_MAX := 60 * SECOND
  const MAX_PAUSE := 15 * MINUTE

  function Min(a: int, b: int): int {
    if a < b then a else b
  }

  /** The bound below which the jittered delay is drawn. */
  function BackoffCeiling(failures: int): int {
    var failures := if failures < 1 then 1 else failures;
    var d := BACKOFF_BASE * Pow2(Min(failures - 1, 20));
    if d > BACKOFF_MAX || d <= 0 then BACKOFF_MAX else d
  }

  /** `draw` stands for the random source; reduced modulo the ceiling it is any
      value of [0, ceiling). */
  function Backoff(failures: int, draw: nat): int {
    draw % BackoffCeiling(failures) + 1
  }

  /** Capping the shift at 20 changes nothing: one minute is reached at 7. */
  lemma {:induction false} CeilingIsCapped(failures: int)
    requires failures >= 1
    ensures BackoffCeiling(failures) == Min(BACKOFF_BASE * Pow2(failures - 1), BACKOFF_MAX)
  {
    var shift := Min(failures - 1, 20);
    Pow2Monotone(0, shift);
    if failures - 1 >= 20 {
      assert Pow2(7) == 128;
      Pow2Monotone(7, 20);
      Pow2Monotone(7, failures - 1);
    }
  }

  lemma RemainderRange(n: nat, d: int)
    requires d > 0
    ensures 0 <= n % d < d
    ensures n < d ==> n % d == n
  {
  }

  /** The delay is at least a nanosecond and at most the exponential schedule
      capped at one minute, for every failure count; every value in that range is
      drawn for some state of the random source. */
  lemma {:induction false} BackoffRange(failures: int, draw: nat, d: int)
    requires failures >= 1
    ensures 1 <= Backoff(failures, draw) <= Min(BACKOFF_BASE * Pow2(failures - 1), BACKOFF_MAX)
    ensures 1 <= d <= Min(BACKOFF_BASE * Pow2(failures - 1), BACKOFF_MAX) ==> Backoff(failures, d - 1) == d
  {
    CeilingIsCapped(failures);
    Pow2Monotone(0, failures - 1);
    RemainderRange(draw, BackoffCeiling(failures));
    if 1 <= d <= BackoffCeiling(failures) {
      RemainderRange(d - 1, BackoffCeiling(failures));
    }
  }

  // ---- Retry-After

  /** What the header says once its text is read: a signed 64-bit number of
      seconds, an instant, or neither. */
  datatype RetryAfter = Absent | Seconds(secs: int) | Date(at: Instant)

  const TWO63 := 0x8000_0000_0000_0000
  const TWO64 := 0x1_0000_0000_0000_0000

  predicate Int64(n: int) {
    -TWO63 <= n < TWO63
  }

  /** Two's-complement wrap-around of a 64-bit product. */
  function Wrap64(n: int): int {
    (n + TWO63) % TWO64 - TWO63
  }

  /** Subtraction of instants saturates instead of wrapping. */
  function Saturate(n: int): int {
    if n >= TWO63 then TWO63 - 1 else if n < -TWO63 then -TWO63 else n
  }

  function CapPause(d: int): int {
    if d > MAX_PAUSE then MAX_PAUSE else if d < 0 then 0 else d
  }

  function ParseRetryAfter(v: RetryAfter, now: Instant): Option<int> {
    match v
    case Absent => None
    case Seconds(secs) => if secs < 0 then None else Some(CapPause(Wrap64(secs * SECOND)))
    case Date(at) =>
      var d := Saturate(at - now);
      if d <= 0 then Some(0) else Some(CapPause(d))
  }

  /** Whatever the header, a pause is between nothing and a quarter of an hour. */
  lemma PauseIsBounded(v: RetryAfter, now: Instant)
    ensures ParseRetryAfter(v, now).Some? ==> 0 <= ParseRetryAfter(v, now).value <= MAX_PAUSE
  {
  }

  /** A header in seconds is honoured up to the cap exactly when the product with
      a second stays below 2^63, that is up to 9 223 372 036 seconds, or leaves a
      remainder modulo 2^64 between the cap and 2^63. */
  lemma SecondsHonoured(secs: int, now: Instant)
    requires 0 <= secs && Int64(secs)
    ensures ParseRetryAfter(Seconds(secs), now) == Some(Min(secs * SECOND, MAX_PAUSE))
            <==> secs <= 9_223_372_036 || MAX_PAUSE <= (secs * SECOND) % TWO64 < TWO63
  {
    WrapsByRemainder(secs * SECOND);
    if secs <= 9_223_372_036 {
      assert (secs * SECOND) % TWO64 == secs * SECOND;
    }
  }

  lemma WrapsByRemainder(n: nat)
    ensures Wrap64(n) == if n % TWO64 < TWO63 then n % TWO64 else n % TWO64 - TWO64
  {
  }

  /** The upstream's request is dropped altogether exactly when it asked for
      nothing, or the remainder is zero or at least 2^63. The least positive
      number of seconds for which this happens is 9 223 372 037. */
  lemma WrappedSecondsAreDropped(secs: int, now: Instant)
    requires 0 <= secs && Int64(secs)
    ensures ParseRetryAfter(Seconds(secs), now) == Some(0)
            <==> (secs * SECOND) % TWO64 == 0 || (secs * SECOND) % TWO64 >= TWO63
    ensures 0 < secs < 9_223_372_037 ==> ParseRetryAfter(Seconds(secs), now) != Some(0)
    ensures secs == 9_223_372_037 ==> ParseRetryAfter(Seconds(secs), now) == Some(0)
  {
    WrapsByRemainder(secs * SECOND);
    if secs <= 9_223_372_036 {
      assert (secs * SECOND) % TWO64 == secs * SECOND;
    }
  }

  /** A date asks for no pause exactly when it is not ahead; it is an instruction
      all the same, unlike an absent or unreadable header. */
  lemma PastDatesPauseForNothing(at: Instant, now: Instant)
    ensures ParseRetryAfter(Date(at), now) == Some(0) <==> at <= now
    ensures ParseRetryAfter(Date(at), now).Some? && ParseRetryAfter(Absent, now).None?
  {
  }

  /** A date that is ahead asks for a pause until then, cut at the cap. */
  lemma FutureDatesPauseUntilThen(at: Instant, now: Instant)
    requires now < at
    ensures ParseRetryAfter(Date(at), now) == Some(Min(at - now, MAX_PAUSE))
  {
  }

  // ---- one host's limiter state

  datatype Host = Host(failures: int, pause: Option<Instant>)

  const Untouched := Host(0, None)

  datatype Bucket = Admit | CannotAdmit | TooSlow | SleepCancelled

  datatype AcquireResult = Acquired | Throttled(until: Instant) | Declined(why: Bucket)

  function AcquireSpec(h: Host, bucket: Bucket, now: Instant): (Host, AcquireResult) {
    if h.pause.Some? && now < h.pause.value then (h, Throttled(h.pause.value))
    else (h.(pause := None), if bucket == Admit then Acquired else Declined(bucket))
  }

  function ObserveSpec(h: Host, status: int, retryAfter: RetryAfter, draw: nat, now: Instant): Host {
    if !(status == 429 || status >= 500 || status == 0) then Host(0, None)
    else
      var failures := h.failures + 1;
      if status == 0 then h.(failures := failures)
      else
        var d := ParseRetryAfter(retryAfter, now);
        Host(failures, Some(now + if d.Some? then d.value else Backoff(failures, draw)))
  }

  function PausedUntilSpec(h: Host, now: Instant): Option<Instant> {
    if h.pause.Some? && now < h.pause.value then h.pause else None
  }

  class Limiter {
    var pauses: map<string, Instant>
    var failures: map<string, int>
    var buckets: set<string>

    constructor ()
      ensures pauses == map[] && failures == map[] && buckets == {}
    {
      pauses, failures, buckets := map[], map[], {};
    }

    ghost function Of(key: string): Host
      reads this
    {
      Host(if key in failures then failures[key] else 0,
           if key in pauses then Some(pauses[key]) else None)
    }

    method Acquire(key: string, bucket: Bucket, now: Instant) returns (r: AcquireResult)
      modifies this
      ensures (Of(key), r) == AcquireSpec(old(Of(key)), bucket, now)
      ensures forall k :: k != key ==> Of(k) == old(Of(k))
    {
      if key in pauses {
        var until := pauses[key];
        if now < until {
          return Throttled(until);
        }
        pauses := pauses - {key};
      }
      if key !in buckets {
        buckets := buckets + {key};
      }
      return if bucket == Admit then Acquired else Declined(bucket);
    }

    method Observe(key: string, status: int, retryAfter: RetryAfter, draw: nat, now: Instant)
      modifies this
      ensures Of(key) == ObserveSpec(old(Of(key)), status, retryAfter, draw, now)
      ensures forall k :: k != key ==> Of(k) == old(Of(k))
    {
      var failed := status == 429 || status >= 500 || status == 0;
      if !failed {
        failures := failures[key := 0];
        pauses := pauses - {key};
        return;
      }
      var count := (if key in failures then failures[key] else 0) + 1;
      failures := failures[key := count];
      if status == 0 {
        return;
      }
      var d := ParseRetryAfter(retryAfter, now);
      if d.Some? {
        pauses := pauses[key := now + d.value];
        return;
      }
      pauses := pauses[key := now + Backoff(count, draw)];
    }

    method PausedUntil(key: string, now: Instant) returns (until: Option<Instant>)
      ensures until == PausedUntilSpec(Of(key), now)
    {
      if key !in pauses || !(now < pauses[key]) {
        return None;
      }
      return Some(pauses[key]);
    }
  }

  /** A call is throttled exactly while a pause is reported, and told its end; else
      the bucket decides, and a pause that has lapsed is forgotten. */
  lemma AcquireExactly(h: Host, bucket: Bucket, now: Instant)
    ensures AcquireSpec(h, bucket, now).1 ==
            match PausedUntilSpec(h, now)
            case Some(until) => Throttled(until)
            case None => if bucket == Admit then Acquired else Declined(bucket)
    ensures PausedUntilSpec(h, now).Some? <==> h.pause.Some? && now < h.pause.value
    ensures PausedUntilSpec(AcquireSpec(h, bucket, now).0, now) == PausedUntilSpec(h, now)
    ensures AcquireSpec(h, bucket, now).0.failures == h.failures
  {
  }

  // ---- histories of one host

  datatype Event =
    | Acquiring(bucket: Bucket, now: Instant)
    | Observing(status: int, retryAfter: RetryAfter, draw: nat, now: Instant)

  function After(es: seq<Event>, k: nat): Host
    requires k <= |es|
  {
    if k == 0 then Untouched
    else
      match es[k - 1]
      case Acquiring(bucket, now) => AcquireSpec(After(es, k - 1), bucket, now).0
      case Observing(status, retryAfter, draw, now) => ObserveSpec(After(es, k - 1), status, retryAfter, draw, now)
  }

  /** Outcomes since the last healthy one. */
  function FailuresSince(es: seq<Event>, k: nat): nat
    requires k <= |es|
  {
    if k == 0 then 0
    else if es[k - 1].Acquiring? then FailuresSince(es, k - 1)
    else if es[k - 1].status in {0, 429} || es[k - 1].status >= 500 then FailuresSince(es, k - 1) + 1
    else 0
  }

  /** The last observation that carried a status, if any. */
  function LastStatus(es: seq<Event>, k: nat): Option<nat>
    requires k <= |es|
  {
    if k == 0 then None
    else if es[k - 1].Observing? && es[k - 1].status != 0 then Some(k - 1)
    else LastStatus(es, k - 1)
  }

  lemma LastStatusIsOne(es: seq<Event>, k: nat)
    requires k <= |es| && LastStatus(es, k).Some?
    ensures var i := LastStatus(es, k).value; i < k && es[i].Observing? && es[i].status != 0
    ensures forall j :: LastStatus(es, k).value < j < k ==> es[j].Acquiring? || es[j].status == 0
  {
  }

  /** What the last outcome with a status decides about the pause at `now`. */
  ghost function Decided(es: seq<Event>, k: nat, now: Instant): Option<Instant>
    requires k <= |es|
  {
    match LastStatus(es, k)
    case None => None
    case Some(i) =>
      LastStatusIsOne(es, k);
      var e := es[i];
      if e.status != 429 && e.status < 500 then None
      else
        var told := ParseRetryAfter(e.retryAfter, e.now);
        var until := e.now + if told.Some? then told.value else Backoff(FailuresSince(es, i) + 1, e.draw);
        if now < until then Some(until) else None
  }

  ghost predicate Timed(es: seq<Event>) {
    forall i, j :: 0 <= i < j < |es| ==> es[i].now <= es[j].now
  }

  lemma {:induction false} FailuresCounted(es: seq<Event>, k: nat)
    requires k <= |es|
    ensures After(es, k).failures == FailuresSince(es, k)
  {
    if k > 0 {
      FailuresCounted(es, k - 1);
    }
  }

  /** Pause theorem. Whatever calls were made, a host's pause is what its most
      recent outcome with a status says, and nothing else; lapsed pauses dropped
      by Acquire and transport failures make no difference. */
  lemma {:induction false} PauseIsDecided(es: seq<Event>, k: nat, now: Instant)
    requires Timed(es) && k <= |es| && (k > 0 ==> es[k - 1].now <= now)
    ensures PausedUntilSpec(After(es, k), now) == Decided(es, k, now)
  {
    hide Backoff, ParseRetryAfter;
    if k > 0 {
      assert k > 1 ==> es[k - 2].now <= es[k - 1].now;
      FailuresCounted(es, k - 1);
      PauseIsDecided(es, k - 1, es[k - 1].now);
      PauseIsDecided(es, k - 1, now);
    }
  }

  /** Every pause ends within a quarter of an hour of the outcome that set it. */
  lemma {:induction false} PauseEndsInTime(es: seq<Event>, k: nat, now: Instant)
    requires Timed(es) && k <= |es| && (k > 0 ==> es[k - 1].now <= now)
    requires PausedUntilSpec(After(es, k), now).Some?
    ensures LastStatus(es, k).Some? && LastStatus(es, k).value < k
    ensures PausedUntilSpec(After(es, k), now).value <= es[LastStatus(es, k).value].now + MAX_PAUSE
  {
    PauseIsDecided(es, k, now);
    var i := LastStatus(es, k).value;
    LastStatusIsOne(es, k);
    PauseIsBounded(es[i].retryAfter, es[i].now);
    BackoffRange(FailuresSince(es, i) + 1, es[i].draw, 1);
  }
}
