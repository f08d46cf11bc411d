/** The enrollment lockout: `internal/auth/enrollment.go`, one call of `Verify`
    taken as one step; module OverlappingGuesses takes calls apart. Whether a presented secret matches is an arbitrary
    predicate, standing for the Argon2id comparison. */
module Enrollment {
  import opened Base

  const LOCKOUT_THRESHOLD := 5
  const LOCKOUT_BASE := 2 * SECOND
  const LOCKOUT_MAX := 15 * MINUTE
  const ATTEMPT_WINDOW := HOUR

  datatype Attempts = Attempts(failures: nat, lastFail: Option<Instant>, lockedThru: Option<Instant>)

  datatype Verdict = Accepted | WrongSecret | LockedOut(wait: int)

  const Clean := Attempts(0, None, None)

  /** The shift is capped at 20, so the product stays far inside 64 bits. */
  function Backoff(failures: nat): int
    requires LOCKOUT_THRESHOLD <= failures
  {
    var shift := if failures - LOCKOUT_THRESHOLD < 20 then failures - LOCKOUT_THRESHOLD else 20;
    var backoff := LOCKOUT_BASE * Pow2(shift);
    if backoff > LOCKOUT_MAX || backoff <= 0 then LOCKOUT_MAX else backoff
  }

  function Forget(st: Attempts, now: Instant): Attempts {
    if st.lastFail.Some? && now - st.lastFail.value > ATTEMPT_WINDOW
    then st.(failures := 0, lockedThru := None) else st
  }

  function VerifySpec(st: Attempts, correct: bool, now: Instant): (Attempts, Verdict) {
    var st := Forget(st, now);
    if st.lockedThru.Some? && now < st.lockedThru.value then (st, LockedOut(st.lockedThru.value - now))
    else if correct then (st.(failures := 0, lockedThru := None), Accepted)
    else
      var failures := st.failures + 1;
      (Attempts(failures, Some(now),
                if failures >= LOCKOUT_THRESHOLD then Some(now + Backoff(failures)) else st.lockedThru),
       WrongSecret)
  }

  // ---- the two locked phases of a call, with the comparison in between

  /** Forgets, then says how long a source that is locked out has to wait. */
  function AdmitSpec(st: Attempts, now: Instant): (Attempts, Option<int>) {
    var st := Forget(st, now);
    (st, if st.lockedThru.Some? && now < st.lockedThru.value then Some(st.lockedThru.value - now) else None)
  }

  /** Records the outcome; `now` is still the reading taken on admission. */
  function SettleSpec(st: Attempts, correct: bool, now: Instant): Attempts {
    if correct then st.(failures := 0, lockedThru := None)
    else
      var failures := st.failures + 1;
      Attempts(failures, Some(now),
               if failures >= LOCKOUT_THRESHOLD then Some(now + Backoff(failures)) else st.lockedThru)
  }

  class Enrollment {
    const matches: string -> bool
    var sources: map<string, Attempts>

    constructor (matches: string -> bool)
      ensures this.matches == matches && sources == map[]
    {
      this.matches := matches;
      sources := map[];
    }

    ghost function Of(key: string): Attempts
      reads this
    {
      if key in sources then sources[key] else Clean
    }

    /** `key` is the hashed source; no other source's state changes. */
    method Verify(key: string, presented: string, now: Instant) returns (v: Verdict)
      modifies this
      ensures (Of(key), v) == VerifySpec(old(Of(key)), matches(presented), now)
      ensures sources.Keys == old(sources).Keys + {key}
      ensures forall k :: k in old(sources) && k != key ==> sources[k] == old(sources)[k]
    {
      var wait := Admit(key, now);
      if wait.Some? {
        return LockedOut(wait.value);
      }
      var ok := matches(presented);
      Settle(key, ok, now);
      return if ok then Accepted else WrongSecret;
    }

    method Admit(key: string, now: Instant) returns (wait: Option<int>)
      modifies this
      ensures (Of(key), wait) == AdmitSpec(old(Of(key)), now)
      ensures sources.Keys == old(sources).Keys + {key}
      ensures forall k :: k in old(sources) && k != key ==> sources[k] == old(sources)[k]
    {
      if key !in sources {
        sources := sources[key := Clean];
      }
      var st := sources[key];
      if st.lastFail.Some? && now - st.lastFail.value > ATTEMPT_WINDOW {
        st := st.(failures := 0, lockedThru := None);
        sources := sources[key := st];
      }
      if st.lockedThru.Some? && now < st.lockedThru.value {
        return Some(st.lockedThru.value - now);
      }
      return None;
    }

    method Settle(key: string, correct: bool, now: Instant)
      requires key in sources
      modifies this
      ensures Of(key) == SettleSpec(old(Of(key)), correct, now)
      ensures sources.Keys == old(sources).Keys
      ensures forall k :: k in old(sources) && k != key ==> sources[k] == old(sources)[k]
    {
      var st := sources[key];
      if correct {
        sources := sources[key := st.(failures := 0, lockedThru := None)];
        return;
      }
      st := st.(failures := st.failures + 1, lastFail := Some(now));
      if st.failures >= LOCKOUT_THRESHOLD {
        st := st.(lockedThru := Some(now + Backoff(st.failures)));
      }
      sources := sources[key := st];
    }
  }

  // ---- runs of attempts from one source

  datatype Guess = Guess(correct: bool, now: Instant)

  function After(gs: seq<Guess>, k: nat): Attempts
    requires k <= |gs|
  {
    if k == 0 then Clean else VerifySpec(After(gs, k - 1), gs[k - 1].correct, gs[k - 1].now).0
  }

  function Result(gs: seq<Guess>, k: nat): Verdict
    requires k < |gs|
  {
    VerifySpec(After(gs, k), gs[k].correct, gs[k].now).1
  }

  ghost predicate Timed(gs: seq<Guess>) {
    forall i, j :: 0 <= i < j < |gs| ==> gs[i].now <= gs[j].now
  }

  /** A lockout is in force exactly from the threshold on, and runs from the last
      failure for that failure's backoff. */
  ghost predicate Consistent(st: Attempts) {
    && (st.failures > 0 ==> st.lastFail.Some?)
    && st.lockedThru ==
       (if st.failures >= LOCKOUT_THRESHOLD then Some(st.lastFail.value + Backoff(st.failures)) else None)
  }

  /** Backoff grows with the failure count and never exceeds its ceiling. */
  lemma BackoffMonotone(m: nat, n: nat)
    requires LOCKOUT_THRESHOLD <= m <= n
    ensures LOCKOUT_BASE <= Backoff(m) <= Backoff(n) <= LOCKOUT_MAX
  {
    var cap := (f: nat) => if f - LOCKOUT_THRESHOLD < 20 then f - LOCKOUT_THRESHOLD else 20;
    Pow2Monotone(cap(m), cap(n));
  }

  lemma {:induction false} AlwaysConsistent(gs: seq<Guess>, k: nat)
    requires Timed(gs) && k <= |gs|
    ensures Consistent(After(gs, k))
    ensures After(gs, k).lastFail.Some? ==> k > 0 && After(gs, k).lastFail.value <= gs[k - 1].now
  {
    if k > 0 {
      AlwaysConsistent(gs, k - 1);
    }
  }

  /** Forgetting stale failures never cuts a lockout short: when they are
      forgotten, no lockout is in force any more. */
  lemma {:induction false} ForgettingIsHarmless(gs: seq<Guess>, k: nat)
    requires Timed(gs) && k < |gs|
    ensures var st := After(gs, k);
            Forget(st, gs[k].now) != st && st.lockedThru.Some? ==> st.lockedThru.value < gs[k].now
  {
    AlwaysConsistent(gs, k);
    var st := After(gs, k);
    if st.failures >= LOCKOUT_THRESHOLD {
      BackoffMonotone(st.failures, st.failures);
    }
  }

  /** Once a wrong guess locks the source out, every attempt before the lockout
      ends, right or wrong, is refused with the time that remains. */
  lemma {:induction false} LockoutHolds(gs: seq<Guess>, i: nat, j: nat)
    requires Timed(gs) && i < j < |gs| && Result(gs, i) == WrongSecret
    requires var until := After(gs, i + 1).lockedThru; until.Some? && gs[j].now < until.value
    ensures After(gs, j) == After(gs, i + 1)
    ensures Result(gs, j) == LockedOut(After(gs, i + 1).lockedThru.value - gs[j].now)
    decreases j
  {
    if j > i + 1 {
      assert gs[j - 1].now <= gs[j].now;
      LockoutHolds(gs, i, j - 1);
    }
    ForgettingIsHarmless(gs, j);
    if j > i + 1 {
      ForgettingIsHarmless(gs, j - 1);
    }
  }

  // ---- how many guesses fit into a span of time

  /** Wrong guesses evaluated among attempts i..j-1. */
  function Evaluated(gs: seq<Guess>, i: nat, j: nat): nat
    requires i <= j <= |gs|
    decreases j
  {
    if i == j then 0 else Evaluated(gs, i, j - 1) + (if Result(gs, j - 1) == WrongSecret then 1 else 0)
  }

  function Delay(failures: nat): int {
    if failures < LOCKOUT_THRESHOLD then 0 else Backoff(failures)
  }

  /** The least time from the first to the k-th of k wrong guesses in a row. */
  function LeastSpan(k: nat): int {
    if k <= 1 then 0 else LeastSpan(k - 1) + Delay(k - 1)
  }

  /** No success among the attempts, and no pause longer than the window between
      one evaluated wrong guess and the next. */
  ghost predicate Persistent(gs: seq<Guess>, i: nat, j: nat)
    requires i <= j <= |gs|
  {
    && (forall m :: i <= m < j ==> Result(gs, m) != Accepted)
    && (forall m :: i < m < j && Result(gs, m) == WrongSecret && After(gs, m).lastFail.Some? ==>
          gs[m].now - After(gs, m).lastFail.value <= ATTEMPT_WINDOW)
  }

  /** An attempt that is neither forgotten about nor accepted either changes
      nothing, or counts one failure no earlier than the previous one allows. */
  lemma {:induction false} AttemptStep(st: Attempts, correct: bool, now: Instant)
    requires Consistent(st) && VerifySpec(st, correct, now).1 != Accepted && st.lastFail.Some?
    requires st.lastFail.value <= now
    requires VerifySpec(st, correct, now).1 == WrongSecret ==> now - st.lastFail.value <= ATTEMPT_WINDOW
    ensures var (st', v) := VerifySpec(st, correct, now);
            if v == WrongSecret then
              st'.failures == st.failures + 1 && st'.lastFail == Some(now)
              && now - st.lastFail.value >= Delay(st.failures)
            else st' == st
  {
    hide Backoff;
  }

  lemma {:induction false} SpanSoFar(gs: seq<Guess>, i: nat, j: nat)
    requires Timed(gs) && i < j <= |gs| && Result(gs, i) == WrongSecret && Persistent(gs, i, j)
    ensures var st, k := After(gs, j), Evaluated(gs, i, j);
            && 1 <= k <= st.failures && st.lastFail.Some?
            && st.lastFail.value - gs[i].now >= LeastSpan(k)
            && (Result(gs, j - 1) == WrongSecret ==> st.lastFail.value == gs[j - 1].now)
    decreases j
  {
    hide VerifySpec, Consistent, Delay, Timed;
    WrongCounts(After(gs, j - 1), gs[j - 1].correct, gs[j - 1].now);
    if j > i + 1 {
      SpanSoFar(gs, i, j - 1);
      var st, k := After(gs, j - 1), Evaluated(gs, i, j - 1);
      DelayMonotone(k, st.failures);
      AlwaysConsistent(gs, j - 1);
      InOrder(gs, j - 1);
      AttemptStep(st, gs[j - 1].correct, gs[j - 1].now);
    }
  }

  lemma WrongCounts(st: Attempts, correct: bool, now: Instant)
    ensures VerifySpec(st, correct, now).1 == WrongSecret ==>
              VerifySpec(st, correct, now).0.failures >= 1 && VerifySpec(st, correct, now).0.lastFail == Some(now)
  {
  }

  lemma DelayMonotone(m: nat, n: nat)
    requires m <= n
    ensures 0 <= Delay(m) <= Delay(n)
  {
    if m >= LOCKOUT_THRESHOLD {
      BackoffMonotone(m, n);
    } else if n >= LOCKOUT_THRESHOLD {
      BackoffMonotone(n, n);
    }
  }

  lemma InOrder(gs: seq<Guess>, k: nat)
    requires Timed(gs) && 0 < k < |gs|
    ensures gs[k - 1].now <= gs[k].now
  {
  }

  /** Lockout theorem. k wrong guesses evaluated for one source, with no success
      and no gap over the window, span at least the k-1 backoffs between them. */
  lemma {:induction false} GuessesTakeTime(gs: seq<Guess>, i: nat, j: nat)
    requires Timed(gs) && i <= j < |gs| && Persistent(gs, i, j + 1)
    requires Result(gs, i) == WrongSecret && Result(gs, j) == WrongSecret
    ensures gs[j].now - gs[i].now >= LeastSpan(Evaluated(gs, i, j + 1))
  {
    hide Backoff, After, Result, LeastSpan, Evaluated;
    SpanSoFar(gs, i, j + 1);
  }

  lemma {:induction false} SpanMonotone(m: nat, n: nat)
    requires m <= n
    ensures LeastSpan(m) <= LeastSpan(n)
  {
    hide Backoff;
    if m < n {
      SpanMonotone(m, n - 1);
      if n - 1 >= LOCKOUT_THRESHOLD {
        BackoffMonotone(n - 1, n - 1);
      }
    }
  }

  /** 2 + 4 + ... + 512 seconds, then the ceiling three times: over an hour. */
  lemma {:induction false} SeventeenTakeOverAnHour()
    ensures LeastSpan(16) == 2822 * SECOND && LeastSpan(17) == 3722 * SECOND
  {
    assert Pow2(4) == 16;
    assert Pow2(8) == 256;
    assert Pow2(11) == 2048;
    assert LeastSpan(5) == 0;
    assert LeastSpan(9) == 30 * SECOND;
    assert LeastSpan(13) == 510 * SECOND;
  }

  /** n wrong guesses, each at the very instant the last lockout ends. */
  function Fastest(n: nat): seq<Guess> {
    seq(n, i requires 0 <= i < n => Guess(false, LeastSpan(i + 1)))
  }

  /** The bound is sharp: the fastest n guesses are all evaluated, and take no
      longer than it says. */
  lemma {:induction false} FastestAreEvaluated(n: nat, k: nat)
    requires k <= n
    ensures Timed(Fastest(n))
    ensures Evaluated(Fastest(n), 0, k) == k
    ensures k > 0 ==> Fastest(n)[k - 1].now - Fastest(n)[0].now == LeastSpan(k)
  {
    hide VerifySpec, LeastSpan, Timed, After;
    FastestInOrder(n);
    NoSpan();
    if k > 0 {
      FastestAreEvaluated(n, k - 1);
      FastestState(n, k - 1);
      NextIsEvaluated(k - 1);
    }
  }

  lemma NoSpan()
    ensures LeastSpan(1) == 0
  {
  }

  lemma {:induction false} FastestInOrder(n: nat)
    ensures Timed(Fastest(n))
  {
    hide LeastSpan;
    forall i, j | 0 <= i < j < n
      ensures Fastest(n)[i].now <= Fastest(n)[j].now
    {
      SpanMonotone(i + 1, j + 1);
    }
  }

  /** What is known of the source after k of them. */
  function Waiting(k: nat): Attempts {
    Attempts(k, if k == 0 then None else Some(LeastSpan(k)),
             if k >= LOCKOUT_THRESHOLD then Some(LeastSpan(k + 1)) else None)
  }

  lemma {:induction false} FastestState(n: nat, k: nat)
    requires k <= n
    ensures After(Fastest(n), k) == Waiting(k)
  {
    hide VerifySpec;
    if k > 0 {
      FastestState(n, k - 1);
      NextIsEvaluated(k - 1);
    }
  }

  lemma {:induction false} NextIsEvaluated(k: nat)
    ensures VerifySpec(Waiting(k), false, LeastSpan(k + 1)) == (Waiting(k + 1), WrongSecret)
  {
    hide Backoff;
    if k >= LOCKOUT_THRESHOLD {
      BackoffMonotone(k, k);
    }
  }

  /** Any hour without a success evaluates at most sixteen wrong guesses. */
  lemma {:induction false} SixteenAnHour(gs: seq<Guess>, i: nat, j: nat)
    requires Timed(gs) && i <= j < |gs| && gs[j].now - gs[i].now <= HOUR
    requires forall m :: i <= m <= j ==> Result(gs, m) != Accepted
    ensures Evaluated(gs, i, j + 1) <= 16
    decreases j - i
  {
    if Result(gs, i) != WrongSecret {
      if i < j {
        SixteenAnHour(gs, i + 1, j);
      }
      EvaluatedSplits(gs, i, j + 1);
    } else if Result(gs, j) != WrongSecret {
      SixteenAnHour(gs, i, j - 1);
    } else {
      WithinTheHour(gs, i, j + 1);
      GuessesTakeTime(gs, i, j);
      SeventeenTakeOverAnHour();
      if Evaluated(gs, i, j + 1) > 16 {
        SpanMonotone(17, Evaluated(gs, i, j + 1));
      }
    }
  }

  lemma {:induction false} EvaluatedSplits(gs: seq<Guess>, i: nat, j: nat)
    requires i < j <= |gs|
    ensures Evaluated(gs, i, j) == Evaluated(gs, i + 1, j) + (if Result(gs, i) == WrongSecret then 1 else 0)
    decreases j
  {
    if i + 1 < j {
      EvaluatedSplits(gs, i, j - 1);
    }
  }

  lemma {:induction false} WithinTheHour(gs: seq<Guess>, i: nat, j: nat)
    requires Timed(gs) && i < j <= |gs| && gs[j - 1].now - gs[i].now <= HOUR && Result(gs, i) == WrongSecret
    requires forall m :: i <= m < j ==> Result(gs, m) != Accepted
    ensures Persistent(gs, i, j)
  {
    forall m | i < m < j && After(gs, m).lastFail.Some?
      ensures gs[m].now - After(gs, m).lastFail.value <= ATTEMPT_WINDOW
    {
      LastFailSince(gs, i, m);
    }
  }

  lemma {:induction false} LastFailSince(gs: seq<Guess>, i: nat, m: nat)
    requires Timed(gs) && i < m < |gs| && Result(gs, i) == WrongSecret
    ensures After(gs, m).lastFail.Some? && gs[i].now <= After(gs, m).lastFail.value
    decreases m
  {
    if i + 1 < m {
      LastFailSince(gs, i, m - 1);
    }
  }

  // ---- what counts, and when a source is locked out

  /** When the last wrong guess was evaluated. */
  function LastWrong(gs: seq<Guess>, k: nat): Option<Instant>
    requires k <= |gs|
  {
    if k == 0 then None
    else if Result(gs, k - 1) == WrongSecret then Some(gs[k - 1].now)
    else LastWrong(gs, k - 1)
  }

  /** Attempt k comes more than the window after the last wrong guess. */
  predicate Stale(gs: seq<Guess>, k: nat)
    requires k < |gs|
  {
    LastWrong(gs, k).Some? && gs[k].now > LastWrong(gs, k).value + ATTEMPT_WINDOW
  }

  /** Wrong guesses evaluated since the last accepted one, counting anew from any
      attempt that comes more than the window after the last of them. */
  function Count(gs: seq<Guess>, k: nat): nat
    requires k <= |gs|
  {
    if k == 0 then 0
    else
      var before := if Stale(gs, k - 1) then 0 else Count(gs, k - 1);
      match Result(gs, k - 1)
      case Accepted => 0
      case WrongSecret => before + 1
      case LockedOut(_) => before
  }

  lemma {:induction false} CountedSince(gs: seq<Guess>, k: nat)
    requires k <= |gs|
    ensures Count(gs, k) > 0 ==> LastWrong(gs, k).Some?
  {
    if k > 0 {
      CountedSince(gs, k - 1);
    }
  }

  /** In every run the failure count is that count, and the last failure is the last
      wrong guess. */
  lemma {:induction false} FailuresAreCounted(gs: seq<Guess>, k: nat)
    requires k <= |gs|
    ensures After(gs, k).failures == Count(gs, k) && After(gs, k).lastFail == LastWrong(gs, k)
  {
    hide Backoff;
    if k > 0 {
      FailuresAreCounted(gs, k - 1);
    }
  }

  /** Twice two seconds for every failure beyond the fifth, fifteen minutes at most;
      that the doubling stops at twenty makes no difference. */
  lemma {:induction false} BackoffExactly(failures: nat)
    requires failures >= 5
    ensures var doubled := 2 * SECOND * Pow2(failures - 5);
            Backoff(failures) == if doubled < 15 * MINUTE then doubled else 15 * MINUTE
  {
    Pow2Monotone(0, failures - 5);
    if failures > 25 {
      Pow2Monotone(20, failures - 5);
    }
    Pow2Monotone(9, 20);
    assert Pow2(9) == 512;
  }

  /** How every attempt of every run is answered (with CountedSince: five guesses
      that count have a last one). It is refused exactly when five or
      more wrong guesses count, the last of them within the window, and its backoff
      is not over, with the time that remains; otherwise the secret decides. */
  lemma {:induction false} VerdictExactly(gs: seq<Guess>, k: nat)
    requires Timed(gs) && k < |gs|
    ensures Result(gs, k) ==
            if !Stale(gs, k) && Count(gs, k) >= 5 && LastWrong(gs, k).Some?
               && gs[k].now < LastWrong(gs, k).value + Backoff(Count(gs, k))
            then LockedOut(LastWrong(gs, k).value + Backoff(Count(gs, k)) - gs[k].now)
            else if gs[k].correct then Accepted else WrongSecret
  {
    hide Backoff;
    AlwaysConsistent(gs, k);
    FailuresAreCounted(gs, k);
  }

  /** After a gap longer than the window old failures are forgotten: the right secret
      is accepted, and a wrong one is the first to count and locks nobody out. */
  lemma {:induction false} ForgottenAfterGap(gs: seq<Guess>, k: nat)
    requires Timed(gs) && k < |gs| && Stale(gs, k)
    ensures Result(gs, k) == if gs[k].correct then Accepted else WrongSecret
    ensures !gs[k].correct ==> After(gs, k + 1).failures == 1 && After(gs, k + 1).lockedThru == None
  {
    VerdictExactly(gs, k);
    FailuresAreCounted(gs, k + 1);
    AlwaysConsistent(gs, k + 1);
  }
}
