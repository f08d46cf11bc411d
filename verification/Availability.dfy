/** Batch availability: `internal/resolve/availability.go`. What a worker finds for
    its input, including being cancelled, is an arbitrary function of its slot;
    the order in which workers write is an arbitrary schedule. */
module Availability {
  import opened Base
  import opened Text

  const MAX_BATCH := 50

  datatype Tristate = Yes | No | Unknown

  datatype Availability = Availability(
    domain: string, registered: Tristate, source: string,
    checkedAt: Instant, cache: string, warning: string, error: string)

  const Blank := Availability("", Unknown, "", 0, "", "", "")

  function Key(d: string): string {
    Lower(TrimSpace(d))
  }

  function Batch(domains: seq<string>): seq<string> {
    if |domains| > MAX_BATCH then domains[..MAX_BATCH] else domains
  }

  /** The first input with the same non-empty key; an empty input is its own. */
  function Canonical(ds: seq<string>, i: nat): (j: nat)
    requires i < |ds|
    ensures j <= i && Key(ds[j]) == Key(ds[i])
    ensures Key(ds[i]) == "" ==> j == i
    ensures Key(ds[i]) != "" ==> forall k :: 0 <= k < j ==> Key(ds[k]) != Key(ds[i])
  {
    if Key(ds[i]) == "" then i else FirstWith(ds, 0, i)
  }

  function FirstWith(ds: seq<string>, from: nat, i: nat): (j: nat)
    requires from <= i < |ds|
    ensures from <= j <= i && Key(ds[j]) == Key(ds[i])
    ensures forall k :: from <= k < j ==> Key(ds[k]) != Key(ds[i])
    decreases i - from
  {
    if Key(ds[from]) == Key(ds[i]) then from else FirstWith(ds, from + 1, i)
  }

  predicate IsFirstUse(ds: seq<string>, i: nat)
    requires i < |ds|
  {
    Canonical(ds, i) == i
  }

  /** The slots that get a worker, in input order. */
  function Order(ds: seq<string>, n: nat): seq<nat>
    requires n <= |ds|
  {
    if n == 0 then []
    else Order(ds, n - 1) + (if IsFirstUse(ds, n - 1) then [n - 1] else [])
  }

  /** How many of the first n inputs are empty, and which keys the others have. */
  function Empties(ds: seq<string>, n: nat): nat
    requires n <= |ds|
  {
    if n == 0 then 0 else Empties(ds, n - 1) + (if Key(ds[n - 1]) == "" then 1 else 0)
  }

  function Keys(ds: seq<string>, n: nat): set<string>
    requires n <= |ds|
  {
    if n == 0 then {} else Keys(ds, n - 1) + (if Key(ds[n - 1]) == "" then {} else {Key(ds[n - 1])})
  }

  lemma OrderNext(ds: seq<string>, n: nat)
    requires n < |ds|
    ensures Order(ds, 0) == []
    ensures Order(ds, n + 1) == if IsFirstUse(ds, n) then Order(ds, n) + [n] else Order(ds, n)
  {
    hide IsFirstUse;
    assert Order(ds, n) + [] == Order(ds, n);
  }

  lemma {:induction false} OrderMembers(ds: seq<string>, n: nat)
    requires n <= |ds|
    ensures InRange(Order(ds, n), n)
    ensures forall i: nat :: i in Order(ds, n) <==> i < n && IsFirstUse(ds, i)
  {
    hide IsFirstUse;
    if n > 0 {
      OrderMembers(ds, n - 1);
    }
  }

  lemma {:induction false} KeysMembers(ds: seq<string>, n: nat)
    requires n <= |ds|
    ensures forall k :: k in Keys(ds, n) <==> k != "" && exists i :: 0 <= i < n && Key(ds[i]) == k
  {
    hide Key;
    if n > 0 {
      KeysMembers(ds, n - 1);
    }
  }

  /** One check for each distinct non-empty key and one for each empty input. */
  lemma {:induction false} ChecksRun(ds: seq<string>, n: nat)
    requires n <= |ds|
    ensures |Order(ds, n)| == |Keys(ds, n)| + Empties(ds, n)
  {
    hide Key, Canonical;
    if n > 0 {
      ChecksRun(ds, n - 1);
      FreshKey(ds, n - 1);
      if Key(ds[n - 1]) in Keys(ds, n - 1) {
        assert Keys(ds, n) == Keys(ds, n - 1);
      }
    }
  }

  /** An input gets a worker exactly when its key has not occurred before. */
  lemma FreshKey(ds: seq<string>, i: nat)
    requires i < |ds|
    ensures IsFirstUse(ds, i) <==> Key(ds[i]) !in Keys(ds, i)
    ensures "" !in Keys(ds, i)
  {
    hide Key, Keys;
    KeysMembers(ds, i);
  }

  // ---- the workers

  predicate InRange(schedule: seq<nat>, n: nat) {
    forall k :: 0 <= k < |schedule| ==> schedule[k] < n
  }

  /** The slots after the workers have written in the order of the schedule. */
  function Write(slots: seq<Availability>, schedule: seq<nat>, outcome: nat -> Availability): (r: seq<Availability>)
    requires InRange(schedule, |slots|)
    ensures |r| == |slots|
  {
    if schedule == [] then slots
    else
      var last := schedule[|schedule| - 1];
      Write(slots, schedule[..|schedule| - 1], outcome)[last := outcome(last)]
  }

  lemma {:induction false} WriteEach(slots: seq<Availability>, schedule: seq<nat>, outcome: nat -> Availability, i: nat)
    requires InRange(schedule, |slots|) && i < |slots|
    ensures Write(slots, schedule, outcome)[i] == if i in schedule then outcome(i) else slots[i]
  {
    if schedule != [] {
      var n := |schedule| - 1;
      WriteEach(slots, schedule[..n], outcome, i);
      assert schedule == schedule[..n] + [schedule[n]];
    }
  }

  /** Workers write different slots, so every schedule leaves the same result. */
  lemma {:induction false} ScheduleDoesNotMatter(slots: seq<Availability>, a: seq<nat>, b: seq<nat>,
                                                 outcome: nat -> Availability)
    requires multiset(a) == multiset(b) && InRange(a, |slots|)
    ensures InRange(b, |slots|)
    ensures Write(slots, a, outcome) == Write(slots, b, outcome)
  {
    forall i: nat
      ensures i in a <==> i in b
    {
      assert i in a <==> i in multiset(a);
      assert i in b <==> i in multiset(b);
    }
    assert InRange(b, |slots|) by {
      forall k | 0 <= k < |b|
        ensures b[k] < |slots|
      {
        assert b[k] in a;
      }
    }
    forall i: nat | i < |slots|
      ensures Write(slots, a, outcome)[i] == Write(slots, b, outcome)[i]
    {
      WriteEach(slots, a, outcome, i);
      WriteEach(slots, b, outcome, i);
    }
  }

  /** One result per input of the batch, in input order; inputs with the same key
      share the answer found for the first of them, whatever the schedule. */
  method CheckAvailability(domains: seq<string>, outcome: nat -> Availability, schedule: seq<nat>)
    returns (out: array<Availability>)
    requires multiset(schedule) == multiset(Order(Batch(domains), |Batch(domains)|))
    ensures out.Length == |Batch(domains)|
    ensures forall i :: 0 <= i < out.Length ==> out[i] == outcome(Canonical(Batch(domains), i))
  {
    var ds := if |domains| > MAX_BATCH then domains[..MAX_BATCH] else domains;
    out := new Availability[|ds|](_ => Blank);
    var first, order := Plan(out, ds);
    OrderMembers(ds, |ds|);
    Dispatch(out, order, schedule, outcome);
    FillIn(out, ds, first, outcome);
  }

  /** Finds the first use of every key and the slots to check. */
  method Plan(out: array<Availability>, ds: seq<string>) returns (first: map<string, nat>, order: seq<nat>)
    requires out.Length == |ds|
    modifies out
    ensures order == Order(ds, |ds|) && FirstUses(ds, first, |ds|)
  {
    first, order := map[], [];
    assert FirstUses(ds, first, 0);
    hide FirstUses, Canonical, IsFirstUse, TrimSpace, Lower, Order;
    for i := 0 to |ds|
      invariant order == Order(ds, i)
      invariant FirstUses(ds, first, i)
    {
      var key := Lower(TrimSpace(ds[i]));
      FirstUse(ds, first, i);
      OrderNext(ds, i);
      if key == "" {
        order := order + [i];
        continue;
      }
      if key in first {
        out[i] := out[i].(domain := ds[i]);
        continue;
      }
      first := first[key := i];
      order := order + [i];
    }
  }

  /** Copies the answer for the first use of a key to its repetitions. */
  method FillIn(out: array<Availability>, ds: seq<string>, first: map<string, nat>, outcome: nat -> Availability)
    requires out.Length == |ds| && FirstUses(ds, first, |ds|)
    requires forall j: nat :: j < |ds| && Canonical(ds, j) == j ==> out[j] == outcome(j)
    modifies out
    ensures forall j: nat :: j < |ds| ==> out[j] == outcome(Canonical(ds, j))
  {
    hide FirstUses, TrimSpace, Lower;
    for i := 0 to |ds|
      invariant forall j: nat :: j < |ds| && (j < i || Canonical(ds, j) == j) ==> out[j] == outcome(Canonical(ds, j))
    {
      var key := Lower(TrimSpace(ds[i]));
      CanonicalIsFirst(ds, first, i);
      if key in first && first[key] != i {
        out[i] := out[first[key]];
      }
    }
  }

  /** The map built by the first loop: each non-empty key so far, and where it
      occurred first. */
  ghost predicate FirstUses(ds: seq<string>, first: map<string, nat>, n: nat)
    requires n <= |ds|
  {
    && (forall k :: k in first ==> k != "" && first[k] < n && Key(ds[first[k]]) == k)
    && (forall j: nat :: j < n && Key(ds[j]) != "" ==> Key(ds[j]) in first && first[Key(ds[j])] <= j)
  }

  lemma CanonicalIsFirst(ds: seq<string>, first: map<string, nat>, i: nat)
    requires i < |ds| && FirstUses(ds, first, |ds|)
    ensures if Key(ds[i]) in first then first[Key(ds[i])] == Canonical(ds, i) else Canonical(ds, i) == i
    ensures Canonical(ds, Canonical(ds, i)) == Canonical(ds, i)
  {
    hide Key;
  }

  lemma FirstUse(ds: seq<string>, first: map<string, nat>, i: nat)
    requires i < |ds| && FirstUses(ds, first, i)
    ensures IsFirstUse(ds, i) <==> Key(ds[i]) !in first
    ensures FirstUses(ds, if Key(ds[i]) == "" || Key(ds[i]) in first then first else first[Key(ds[i]) := i], i + 1)
  {
    hide Key;
  }

  /** Every worker writes its own slot once, in the order of the schedule. */
  method Dispatch(out: array<Availability>, order: seq<nat>, schedule: seq<nat>, outcome: nat -> Availability)
    requires multiset(schedule) == multiset(order) && InRange(order, out.Length)
    modifies out
    ensures out[..] == Write(old(out[..]), order, outcome)
    ensures forall i: nat :: i < out.Length ==> out[i] == if i in order then outcome(i) else old(out[i])
  {
    ghost var was := out[..];
    ScheduleDoesNotMatter(was, order, schedule, outcome);
    for n := 0 to |schedule|
      invariant out[..] == Write(was, schedule[..n], outcome)
    {
      assert schedule[..n + 1][..n] == schedule[..n];
      out[schedule[n]] := outcome(schedule[n]);
    }
    assert schedule[..|schedule|] == schedule;
    forall i: nat | i < out.Length
      ensures out[i] == if i in order then outcome(i) else was[i]
    {
      WriteEach(was, order, outcome, i);
      assert out[..][i] == out[i];
    }
  }

  /** Two inputs share a check exactly when, without the white space around them and
      but for the case of their letters, they are the same and not empty. */
  lemma {:induction false} SameKey(x: string, a: string, y: string, x': string, b: string, y': string)
    requires AllSpace(x) && AllSpace(y) && AllSpace(x') && AllSpace(y') && Trimmed(a) && Trimmed(b)
    ensures Key(x + a + y) == Key(x' + b + y') <==> EqualFold(a, b)
    ensures Key(x + a + y) == "" <==> a == ""
  {
    hide TrimSpace, IsSpace;
    TrimSpaceIs(x, a, y);
    TrimSpaceIs(x', b, y');
    LowerIs(a);
  }
}
