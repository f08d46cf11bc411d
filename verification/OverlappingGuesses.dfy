/** The enrollment lockout when calls of one source overlap. A call is admitted under
    the lock, compares digests without it, and takes the lock again to record the
    outcome, so calls admitted in the meantime do not see it. */
module OverlappingGuesses {
  import opened Base
  import E = Enrollment

  /** What is known of the source, and when each call still comparing was admitted. */
  datatype World = World(st: E.Attempts, inFlight: map<nat, Instant>)

  datatype Op = Begin(id: nat, now: Instant) | Finish(id: nat, correct: bool)

  const Start := World(E.Clean, map[])

  function Step(w: World, op: Op): World {
    match op
    case Begin(id, now) =>
      var (st, wait) := E.AdmitSpec(w.st, now);
      World(st, if wait.None? then w.inFlight[id := now] else w.inFlight)
    case Finish(id, correct) =>
      if id in w.inFlight then World(E.SettleSpec(w.st, correct, w.inFlight[id]), w.inFlight - {id}) else w
  }

  function After(ops: seq<Op>, k: nat): World
    requires k <= |ops|
  {
    if k == 0 then Start else Step(After(ops, k - 1), ops[k - 1])
  }

  /** The call, if any, that comes to its end with an operation: refused at once, or
      evaluated; dated by its admission. */
  function Ends(w: World, op: Op): Option<E.Guess> {
    match op
    case Begin(_, now) => if E.AdmitSpec(w.st, now).1.Some? then Some(E.Guess(false, now)) else None
    case Finish(id, correct) => if id in w.inFlight then Some(E.Guess(correct, w.inFlight[id])) else None
  }

  predicate IsWrong(w: World, op: Op) {
    op.Finish? && op.id in w.inFlight && !op.correct
  }

  /** Wrong guesses evaluated by operations i..k-1. */
  function Wrong(ops: seq<Op>, i: nat, k: nat): nat
    requires i <= k <= |ops|
    decreases k
  {
    if i == k then 0 else Wrong(ops, i, k - 1) + (if IsWrong(After(ops, k - 1), ops[k - 1]) then 1 else 0)
  }

  ghost predicate Timed(ops: seq<Op>) {
    forall i, j :: 0 <= i < j < |ops| && ops[i].Begin? && ops[j].Begin? ==> ops[i].now <= ops[j].now
  }

  /** A call of the source begins only when no other is in flight. */
  ghost predicate NoOverlap(ops: seq<Op>) {
    forall k :: 0 <= k < |ops| && ops[k].Begin? ==> After(ops, k).inFlight == map[]
  }

  // ---- without overlap, calls are the attempts of module Enrollment

  /** The calls that have ended, in order. */
  function Ended(ops: seq<Op>, k: nat): seq<E.Guess>
    requires k <= |ops|
  {
    if k == 0 then []
    else
      var g := Ends(After(ops, k - 1), ops[k - 1]);
      if g.Some? then Ended(ops, k - 1) + [g.value] else Ended(ops, k - 1)
  }

  lemma {:induction false} OneMore(gs: seq<E.Guess>, g: E.Guess, n: nat)
    requires n <= |gs|
    ensures E.After(gs + [g], n) == E.After(gs, n)
    ensures n < |gs| ==> E.Result(gs + [g], n) == E.Result(gs, n)
  {
    hide E.VerifySpec;
    if n > 0 {
      OneMore(gs, g, n - 1);
    }
  }

  lemma {:induction false} SameCount(gs: seq<E.Guess>, g: E.Guess, i: nat, n: nat)
    requires i <= n <= |gs|
    ensures E.Evaluated(gs + [g], i, n) == E.Evaluated(gs, i, n)
    decreases n
  {
    hide E.Result;
    if i < n {
      SameCount(gs, g, i, n - 1);
      OneMore(gs, g, n - 1);
    }
  }

  /** The state is that after the calls that have ended, for a call in flight with
      its admission done. */
  ghost predicate Agrees(w: World, gs: seq<E.Guess>) {
    if w.inFlight == map[] then w.st == E.After(gs, |gs|)
    else
      exists id :: w.inFlight.Keys == {id} && Admitted(w, gs, w.inFlight[id])
  }

  ghost predicate Admitted(w: World, gs: seq<E.Guess>, now: Instant) {
    E.AdmitSpec(E.After(gs, |gs|), now) == (w.st, None)
  }

  /** What an ended call adds to the attempts. */
  lemma {:induction false} EndedStep(w: World, gs: seq<E.Guess>, op: Op)
    requires Agrees(w, gs) && (op.Begin? ==> w.inFlight == map[])
    ensures var g := Ends(w, op);
            && Agrees(Step(w, op), if g.Some? then gs + [g.value] else gs)
            && (g.Some? ==> (E.Result(gs + [g.value], |gs|) == E.WrongSecret <==> IsWrong(w, op)))
            && (g.Some? && !(op.Finish? && op.correct) ==> E.Result(gs + [g.value], |gs|) != E.Accepted)
  {
    hide E.Backoff;
    var g := Ends(w, op);
    if g.Some? {
      OneMore(gs, g.value, |gs|);
    }
    if op.Begin? && g.None? {
      assert Step(w, op).inFlight.Keys == {op.id};
      assert Admitted(Step(w, op), gs, op.now);
    } else if op.Finish? && g.Some? {
      assert (w.inFlight - {op.id}).Keys == {};
    }
  }

  lemma {:induction false} CallsAgree(ops: seq<Op>, k: nat)
    requires NoOverlap(ops) && k <= |ops|
    ensures Agrees(After(ops, k), Ended(ops, k))
  {
    hide Step, Agrees, Ends;
    if k == 0 {
      NothingYet();
    } else {
      CallsAgree(ops, k - 1);
      EndedStep(After(ops, k - 1), Ended(ops, k - 1), ops[k - 1]);
    }
  }

  lemma NothingYet()
    ensures Agrees(Start, [])
  {
  }

  /** Calls end in the order they were admitted in. */
  ghost predicate UpTo(w: World, gs: seq<E.Guess>, now: Instant) {
    && E.Timed(gs)
    && (forall n :: 0 <= n < |gs| ==> gs[n].now <= now)
    && (forall id :: id in w.inFlight ==> w.inFlight[id] <= now)
    && (forall id, n :: id in w.inFlight && 0 <= n < |gs| ==> gs[n].now <= w.inFlight[id])
  }

  lemma {:induction false} CallsInOrder(ops: seq<Op>, k: nat, now: Instant)
    requires NoOverlap(ops) && Timed(ops) && k <= |ops|
    requires forall j :: 0 <= j < k && ops[j].Begin? ==> ops[j].now <= now
    ensures UpTo(After(ops, k), Ended(ops, k), now)
  {
    hide Step, Ends, Agrees, UpTo;
    if k == 0 {
      NothingEnded(now);
    } else {
      CallsInOrder(ops, k - 1, if ops[k - 1].Begin? then ops[k - 1].now else now);
      CallsAgree(ops, k - 1);
      OneInFlight(After(ops, k - 1), Ended(ops, k - 1));
      OrderStep(After(ops, k - 1), Ended(ops, k - 1), ops[k - 1], now);
    }
  }

  lemma NothingEnded(now: Instant)
    ensures UpTo(Start, [], now)
  {
  }

  lemma OrderStep(w: World, gs: seq<E.Guess>, op: Op, now: Instant)
    requires UpTo(w, gs, if op.Begin? then op.now else now) && (op.Begin? ==> op.now <= now && w.inFlight == map[])
    requires forall a, b :: a in w.inFlight && b in w.inFlight ==> a == b
    ensures UpTo(Step(w, op), if Ends(w, op).Some? then gs + [Ends(w, op).value] else gs, now)
  {
    hide E.AdmitSpec, E.SettleSpec;
  }

  lemma OneInFlight(w: World, gs: seq<E.Guess>)
    requires Agrees(w, gs)
    ensures forall a, b :: a in w.inFlight && b in w.inFlight ==> a == b
  {
  }

  /** Operations i..k-1 end calls admitted within an hour from `start`, none of them
      accepted. */
  ghost predicate WithinHour(ops: seq<Op>, i: nat, k: nat, start: Instant)
    requires i <= k <= |ops|
  {
    forall j :: i <= j < k && Ends(After(ops, j), ops[j]).Some? ==>
      && start <= Ends(After(ops, j), ops[j]).value.now <= start + HOUR
      && !(ops[j].Finish? && ops[j].correct)
  }

  lemma {:induction false} WindowOf(ops: seq<Op>, i: nat, k: nat, start: Instant)
    requires NoOverlap(ops) && i <= k <= |ops| && WithinHour(ops, i, k, start)
    ensures |Ended(ops, i)| <= |Ended(ops, k)|
    ensures Wrong(ops, i, k) == E.Evaluated(Ended(ops, k), |Ended(ops, i)|, |Ended(ops, k)|)
    ensures forall n :: |Ended(ops, i)| <= n < |Ended(ops, k)| ==>
              start <= Ended(ops, k)[n].now <= start + HOUR && E.Result(Ended(ops, k), n) != E.Accepted
    decreases k
  {
    hide Step, Ends, Agrees, IsWrong, E.Result;
    if i < k {
      WindowOf(ops, i, k - 1, start);
      var w, gs, op := After(ops, k - 1), Ended(ops, k - 1), ops[k - 1];
      CallsAgree(ops, k - 1);
      EndedStep(w, gs, op);
      OnlyEnded(w, op);
      var g := Ends(w, op);
      if g.Some? {
        SameCount(gs, g.value, |Ended(ops, i)|, |gs|);
        forall n | |Ended(ops, i)| <= n < |gs|
          ensures E.Result(gs + [g.value], n) == E.Result(gs, n)
        {
          OneMore(gs, g.value, n);
        }
      }
    }
  }

  lemma OnlyEnded(w: World, op: Op)
    ensures IsWrong(w, op) ==> Ends(w, op).Some?
  {
  }

  /** Sixteen an hour, provided calls of the source do not overlap. */
  lemma {:induction false} SixteenWithoutOverlap(ops: seq<Op>, i: nat, k: nat, start: Instant)
    requires NoOverlap(ops) && Timed(ops) && i <= k <= |ops| && WithinHour(ops, i, k, start)
    ensures Wrong(ops, i, k) <= 16
  {
    hide Step, Ends, IsWrong, WithinHour;
    WindowOf(ops, i, k, start);
    var gs, a := Ended(ops, k), |Ended(ops, i)|;
    CallsInOrder(ops, k, LatestBegin(ops, k));
    if a < |gs| {
      E.SixteenAnHour(gs, a, |gs| - 1);
    }
  }

  /** No admission among the first k operations is later. */
  function LatestBegin(ops: seq<Op>, k: nat): (now: Instant)
    requires k <= |ops|
    ensures forall j :: 0 <= j < k && ops[j].Begin? ==> ops[j].now <= now
  {
    if k == 0 then 0
    else
      var now := LatestBegin(ops, k - 1);
      if ops[k - 1].Begin? && now < ops[k - 1].now then ops[k - 1].now else now
  }

  // ---- with overlap there is no bound

  /** n calls are admitted at the same instant, and then all of them fail. */
  function AllAtOnce(n: nat): seq<Op> {
    seq(2 * n, i requires 0 <= i < 2 * n => if i < n then Begin(i, 0) else Finish(i - n, false))
  }

  ghost predicate AreInFlight(w: World, lo: nat, hi: nat) {
    forall id :: id in w.inFlight <==> lo <= id < hi
  }

  lemma {:induction false} AllAdmitted(n: nat, k: nat)
    requires k <= n
    ensures After(AllAtOnce(n), k).st == E.Clean && AreInFlight(After(AllAtOnce(n), k), 0, k)
    ensures Wrong(AllAtOnce(n), 0, k) == 0
  {
    if k > 0 {
      AllAdmitted(n, k - 1);
    }
  }

  lemma {:induction false} AllFail(n: nat, k: nat)
    requires k <= n
    ensures AreInFlight(After(AllAtOnce(n), n + k), k, n) && Wrong(AllAtOnce(n), 0, n + k) == k
  {
    hide E.SettleSpec, E.AdmitSpec;
    if k == 0 {
      AllAdmitted(n, n);
    } else {
      AllFail(n, k - 1);
    }
  }

  /** However large n is, n calls admitted together all get their guess evaluated. */
  lemma {:induction false} AnyNumberAtOnce(n: nat)
    ensures var ops := AllAtOnce(n);
            && Timed(ops) && Wrong(ops, 0, |ops|) == n
            && forall k: nat :: k < |ops| && ops[k].Begin? ==> ops[k].now == 0
  {
    hide Step;
    AllFail(n, n);
  }

  // ---- two in flight are enough

  /** When the r-th pair of calls is admitted: the instant the last lockout ends. */
  function PairTime(r: nat): Instant {
    if r == 0 then 0 else PairTime(r - 1) + E.Delay(2 * r)
  }

  /** n pairs: two calls are admitted, then both fail. */
  function Pairs(n: nat): seq<Op> {
    seq(4 * n, i requires 0 <= i < 4 * n => PairOp(i / 4, i % 4))
  }

  function PairOp(r: nat, q: nat): Op {
    if q < 2 then Begin(q, PairTime(r)) else Finish(q - 2, false)
  }

  /** The source after r pairs. */
  function AfterPairs(r: nat): World {
    World(E.Attempts(2 * r, if r == 0 then None else Some(PairTime(r - 1)),
                     if 2 * r >= E.LOCKOUT_THRESHOLD then Some(PairTime(r)) else None),
          map[])
  }

  lemma {:induction false} OnePair(r: nat)
    ensures var w1 := Step(AfterPairs(r), Begin(0, PairTime(r)));
            var w2 := Step(w1, Begin(1, PairTime(r)));
            var w3 := Step(w2, Finish(0, false));
            && w1.inFlight.Keys == {0} && w2.inFlight.Keys == {0, 1} && w3.inFlight.Keys == {1}
            && Step(w3, Finish(1, false)) == AfterPairs(r + 1)
  {
    hide E.Backoff;
    if 2 * r >= E.LOCKOUT_THRESHOLD {
      E.BackoffMonotone(2 * r, 2 * r);
    }
    var now := PairTime(r);
    var w2 := Step(Step(AfterPairs(r), Begin(0, now)), Begin(1, now));
    assert w2.inFlight == map[0 := now, 1 := now];
    assert w2.inFlight - {0} == map[1 := now];
    assert map[1 := now] - {1} == map[];
  }

  lemma {:induction false} PairsSoFar(n: nat, r: nat)
    requires r <= n
    ensures After(Pairs(n), 4 * r) == AfterPairs(r) && Wrong(Pairs(n), 0, 4 * r) == 2 * r
  {
    hide Step, AfterPairs, PairTime, Pairs;
    if r == 0 {
      NoPairs();
    } else {
      PairsSoFar(n, r - 1);
      ThePair(n, r - 1);
      FourSteps(Pairs(n), 4 * (r - 1), r - 1);
    }
  }

  lemma ThePair(n: nat, r: nat)
    requires r < n
    ensures |Pairs(n)| == 4 * n
    ensures Pairs(n)[4 * r] == Begin(0, PairTime(r)) && Pairs(n)[4 * r + 1] == Begin(1, PairTime(r))
    ensures Pairs(n)[4 * r + 2] == Finish(0, false) && Pairs(n)[4 * r + 3] == Finish(1, false)
  {
    hide PairTime, Pairs;
    PairAt(n, r, 0);
    PairAt(n, r, 1);
    PairAt(n, r, 2);
    PairAt(n, r, 3);
  }

  lemma PairAt(n: nat, r: nat, q: nat)
    requires r < n && q < 4
    ensures |Pairs(n)| == 4 * n && Pairs(n)[4 * r + q] == PairOp(r, q)
  {
    hide PairOp;
    Quarter(r, q);
  }

  lemma Quarter(r: nat, q: nat)
    requires q < 4
    ensures (4 * r + q) / 4 == r && (4 * r + q) % 4 == q
  {
  }

  lemma NoPairs()
    ensures AfterPairs(0) == Start
  {
  }

  lemma {:induction false} FourSteps(ops: seq<Op>, k: nat, r: nat)
    requires k + 4 <= |ops| && After(ops, k) == AfterPairs(r)
    requires ops[k] == Begin(0, PairTime(r)) && ops[k + 1] == Begin(1, PairTime(r))
    requires ops[k + 2] == Finish(0, false) && ops[k + 3] == Finish(1, false)
    ensures After(ops, k + 4) == AfterPairs(r + 1)
    ensures Wrong(ops, 0, k + 4) == Wrong(ops, 0, k) + 2
    ensures forall j :: k <= j < k + 4 ==> |After(ops, j).inFlight| <= 2
  {
    hide Step, AfterPairs, PairTime;
    OnePair(r);
    NoneLeft(r);
    var w1 := Step(After(ops, k), ops[k]);
    assert After(ops, k + 1) == w1;
    var w2 := Step(w1, ops[k + 1]);
    assert After(ops, k + 2) == w2;
    var w3 := Step(w2, ops[k + 2]);
    assert After(ops, k + 3) == w3;
    assert |w1.inFlight.Keys| == 1 && |w2.inFlight.Keys| == 2 && |w3.inFlight.Keys| == 1;
    assert Wrong(ops, 0, k + 1) == Wrong(ops, 0, k);
    assert Wrong(ops, 0, k + 2) == Wrong(ops, 0, k);
    assert Wrong(ops, 0, k + 3) == Wrong(ops, 0, k) + 1;
  }

  lemma NoneLeft(r: nat)
    ensures AfterPairs(r).inFlight == map[]
  {
  }

  lemma {:induction false} PairTimeMonotone(q: nat, r: nat)
    requires q <= r
    ensures PairTime(q) <= PairTime(r)
  {
    if q < r {
      PairTimeMonotone(q, r - 1);
      E.DelayMonotone(2 * r, 2 * r);
    }
  }

  lemma {:induction false} TenPairs()
    ensures PairTime(9) == 3040 * SECOND
  {
    assert Pow2(4) == 16;
    assert Pow2(8) == 256;
    assert Pow2(12) == 4096;
    assert PairTime(2) == 0;
    assert PairTime(5) == 84 * SECOND;
    assert PairTime(7) == 1240 * SECOND;
  }

  lemma {:induction false} PairsInOrder(n: nat, last: nat)
    requires n == last + 1
    ensures Timed(Pairs(n))
    ensures forall k: nat :: k < 4 * n && Pairs(n)[k].Begin? ==> 0 <= Pairs(n)[k].now <= PairTime(last)
  {
    hide PairTime;
    NoTimeYet();
    forall i: nat, j: nat | i <= j < 4 * n
      ensures 0 <= PairTime(i / 4) <= PairTime(j / 4) <= PairTime(last)
    {
      PairTimeMonotone(0, i / 4);
      PairTimeMonotone(i / 4, j / 4);
      PairTimeMonotone(j / 4, last);
    }
  }

  lemma {:induction false} TwoAtMost(n: nat, k: nat)
    requires k < 4 * n
    ensures |After(Pairs(n), k).inFlight| <= 2
  {
    hide Step, AfterPairs, PairTime, Pairs, After;
    var r := k / 4;
    PairsSoFar(n, r);
    ThePair(n, r);
    FourSteps(Pairs(n), 4 * r, r);
  }

  /** The condition is needed: with two calls in flight at a time, twenty wrong
      guesses are evaluated within 3040 seconds. */
  lemma {:induction false} TwentyWithTwoInFlight()
    ensures var ops := Pairs(10);
            && Timed(ops) && Wrong(ops, 0, |ops|) == 20
            && (forall k: nat :: k < |ops| ==> |After(ops, k).inFlight| <= 2)
            && (forall k: nat :: k < |ops| && ops[k].Begin? ==> 0 <= ops[k].now <= 3040 * SECOND)
  {
    hide Pairs, PairTime, After, Wrong, Timed;
    ThePair(10, 0);
    PairsSoFar(10, 10);
    TenPairs();
    PairsInOrder(10, 9);
    forall k: nat | k < 40
      ensures |After(Pairs(10), k).inFlight| <= 2
    {
      TwoAtMost(10, k);
    }
  }

  lemma NoTimeYet()
    ensures PairTime(0) == 0
  {
  }
}
