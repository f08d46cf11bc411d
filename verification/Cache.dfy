/** The in-process result cache: `internal/cache/cache.go`. A read takes a read
    lock, looks at the clock, and only if the entry has expired takes the write
    lock and looks again; anything may happen in between. */
module Cache {
  import opened Base

  datatype Entry<V> = Entry(val: V, expiresAt: Instant)

  type Items<V> = map<string, Entry<V>>

  predicate Lapsed<V>(e: Entry<V>, now: Instant) {
    now > e.expiresAt
  }

  function SetSpec<V>(items: Items<V>, key: string, val: V, ttl: int, now: Instant): Items<V> {
    if ttl <= 0 then items else items[key := Entry(val, now + ttl)]
  }

  function SweepSpec<V>(items: Items<V>, now: Instant): Items<V> {
    map k | k in items && !Lapsed(items[k], now) :: items[k]
  }

  function EvictSpec<V>(items: Items<V>, key: string, now: Instant): Items<V> {
    if key in items && Lapsed(items[key], now) then items - {key} else items
  }

  function Lookup<V>(items: Items<V>, key: string): Option<Entry<V>> {
    if key in items then Some(items[key]) else None
  }

  /** What a read of the entry captured under the read lock answers at `now`. */
  function Answer<V>(e: Option<Entry<V>>, now: Instant): Option<V> {
    if e.None? || Lapsed(e.value, now) then None else Some(e.value.val)
  }

  class Memory<V> {
    var items: Items<V>

    constructor ()
      ensures items == map[]
    {
      items := map[];
    }

    /** The three lock phases without interference; `tRead` is the reading after
        the read lock, `tEvict` the one under the write lock. */
    method Get(key: string, tRead: Instant, tEvict: Instant) returns (r: Option<V>)
      modifies this
      ensures r == Answer(Lookup(old(items), key), tRead)
      ensures items == if key in old(items) && Lapsed(old(items)[key], tRead)
                       then EvictSpec(old(items), key, tEvict) else old(items)
    {
      if key !in items {
        return None;
      }
      var e := items[key];
      if tRead > e.expiresAt {
        EvictIfExpired(key, tEvict);
        return None;
      }
      return Some(e.val);
    }

    /** Looks at the entry that is there by now, whichever that is. */
    method EvictIfExpired(key: string, now: Instant)
      modifies this
      ensures items == EvictSpec(old(items), key, now)
    {
      if key in items && now > items[key].expiresAt {
        items := items - {key};
      }
    }

    method Set(key: string, val: V, ttl: int, now: Instant)
      modifies this
      ensures items == SetSpec(old(items), key, val, ttl, now)
    {
      if ttl <= 0 {
        return;
      }
      items := items[key := Entry(val, now + ttl)];
    }

    method Delete(key: string)
      modifies this
      ensures items == old(items) - {key}
    {
      items := items - {key};
    }

    method Sweep(now: Instant)
      modifies this
      ensures items == SweepSpec(old(items), now)
    {
      var todo := items.Keys;
      while todo != {}
        invariant todo <= items.Keys <= old(items).Keys
        invariant forall k :: k in items ==> items[k] == old(items)[k]
        invariant forall k :: k in old(items) && k !in todo ==> (k in items <==> !Lapsed(old(items)[k], now))
        decreases todo
      {
        var k :| k in todo;
        if now > items[k].expiresAt {
          items := items - {k};
        }
        todo := todo - {k};
      }
    }
  }

  // ---- interleaved runs

  /** One locked step of some goroutine. A `Get` is a Read, then a Decide at a later
      clock reading, then possibly an Evict at a later one still; `id` tells
      concurrent reads apart. */
  datatype Op<V> =
    | Read(id: nat, key: string, now: Instant)
    | Decide(id: nat, now: Instant)
    | Evict(id: nat, now: Instant)
    | Set(key: string, val: V, ttl: int, now: Instant)
    | Delete(key: string, now: Instant)
    | Sweep(now: Instant)

  /** The items, what each read in progress has captured, and the reads that
      found their entry expired and are on their way to evict it. */
  datatype World<V> = World(items: Items<V>, inFlight: map<nat, (string, Option<Entry<V>>)>, evicting: map<nat, string>)

  /** With `evicting` off, the reference that never removes an expired entry. */
  function Step<V>(evicts: bool, w: World<V>, op: Op<V>): World<V> {
    match op
    case Read(id, key, _) => w.(inFlight := w.inFlight[id := (key, Lookup(w.items, key))])
    case Decide(id, now) =>
      if id !in w.inFlight then w
      else
        var (key, e) := w.inFlight[id];
        World(w.items, w.inFlight - {id},
              if e.Some? && Lapsed(e.value, now) then w.evicting[id := key] else w.evicting)
    case Evict(id, now) =>
      if id !in w.evicting then w
      else
        World(if evicts then EvictSpec(w.items, w.evicting[id], now) else w.items, w.inFlight, w.evicting - {id})
    case Set(key, val, ttl, now) => w.(items := SetSpec(w.items, key, val, ttl, now))
    case Delete(key, _) => w.(items := w.items - {key})
    case Sweep(now) => if evicts then w.(items := SweepSpec(w.items, now)) else w
  }

  function After<V>(evicts: bool, ops: seq<Op<V>>, k: nat): World<V>
    requires k <= |ops|
  {
    if k == 0 then World(map[], map[], map[]) else Step(evicts, After(evicts, ops, k - 1), ops[k - 1])
  }

  ghost predicate Timed<V>(ops: seq<Op<V>>) {
    forall i, j :: 0 <= i < j < |ops| ==> ops[i].now <= ops[j].now
  }

  /** What the evicting cache lacks has expired; what it has is the same. */
  ghost predicate Hides<V>(w: Items<V>, ref: Items<V>, until: Instant) {
    && (forall k :: k in w ==> k in ref && w[k] == ref[k])
    && (forall k :: k in ref && k !in w ==> Lapsed(ref[k], until))
  }

  ghost predicate SameRead<V>(a: (string, Option<Entry<V>>), b: (string, Option<Entry<V>>), until: Instant) {
    a.0 == b.0 && (a.1 == b.1 || (a.1.None? && b.1.Some? && Lapsed(b.1.value, until)))
  }

  ghost predicate Simulates<V>(w: World<V>, ref: World<V>, until: Instant) {
    && Hides(w.items, ref.items, until)
    && w.inFlight.Keys == ref.inFlight.Keys
    && forall id :: id in w.inFlight ==> SameRead(w.inFlight[id], ref.inFlight[id], until)
  }

  lemma {:induction false} StepSimulates<V>(w: World<V>, ref: World<V>, op: Op<V>)
    requires Simulates(w, ref, op.now)
    ensures Simulates(Step(true, w, op), Step(false, ref, op), op.now)
  {
  }

  lemma {:induction false} RunSimulates<V>(ops: seq<Op<V>>, k: nat, until: Instant)
    requires Timed(ops) && k <= |ops| && (k > 0 ==> ops[k - 1].now <= until)
    ensures Simulates(After(true, ops, k), After(false, ops, k), until)
  {
    hide Step, Simulates;
    if k == 0 {
      NothingCached(ops, until);
    } else {
      var now := ops[k - 1].now;
      assert k > 1 ==> ops[k - 2].now <= now;
      RunSimulates(ops, k - 1, now);
      StepSimulates(After(true, ops, k - 1), After(false, ops, k - 1), ops[k - 1]);
      SimulatesLater(After(true, ops, k), After(false, ops, k), now, until);
    }
  }

  lemma NothingCached<V>(ops: seq<Op<V>>, until: Instant)
    ensures Simulates(After(true, ops, 0), After(false, ops, 0), until)
  {
  }

  lemma SimulatesLater<V>(w: World<V>, ref: World<V>, now: Instant, until: Instant)
    requires Simulates(w, ref, now) && now <= until
    ensures Simulates(w, ref, until)
  {
  }

  /** A `Get` that nothing interrupts is its locked steps, and answers the same. */
  lemma GetIsItsSteps<V>(items: Items<V>, id: nat, key: string, tRead: Instant, tEvict: Instant)
    ensures var read := Step(true, World(items, map[], map[]), Read(id, key, tRead));
            var decided := Step(true, read, Decide(id, tRead));
            var evicted := Step(true, decided, Evict(id, tEvict));
            && read.inFlight[id] == (key, Lookup(items, key))
            && decided.inFlight == map[] && evicted.evicting == map[]
            && evicted.items == if key in items && Lapsed(items[key], tRead)
                                then EvictSpec(items, key, tEvict) else items
  {
    assert map[id := (key, Lookup(items, key))] - {id} == map[];
    assert map[id := key] - {id} == map[];
  }

  /** Eviction is invisible: whatever is interleaved, every read answers as if
      nothing had ever been evicted, and no unexpired entry is ever missing. */
  lemma {:induction false} EvictionIsInvisible<V>(ops: seq<Op<V>>, k: nat, key: string)
    requires Timed(ops) && k < |ops|
    ensures var w, ref := After(true, ops, k), After(false, ops, k);
            && (ops[k].Decide? && ops[k].id in ref.inFlight ==>
                  ops[k].id in w.inFlight
                  && Answer(w.inFlight[ops[k].id].1, ops[k].now) == Answer(ref.inFlight[ops[k].id].1, ops[k].now))
            && (key in ref.items && !Lapsed(ref.items[key], ops[k].now) ==>
                  key in w.items && w.items[key] == ref.items[key])
  {
    assert k > 0 ==> ops[k - 1].now <= ops[k].now;
    RunSimulates(ops, k, ops[k].now);
  }

  // ---- what a read answers, from the operations alone

  /** What was last stored under the key, unless it was deleted since; storing with
      no lifetime stores nothing. */
  function LastStored<V>(ops: seq<Op<V>>, k: nat, key: string): Option<(V, Instant)>
    requires k <= |ops|
  {
    if k == 0 then None
    else
      match ops[k - 1]
      case Set(other, val, ttl, now) =>
        if other == key && ttl > 0 then Some((val, now + ttl)) else LastStored(ops, k - 1, key)
      case Delete(other, _) => if other == key then None else LastStored(ops, k - 1, key)
      case _ => LastStored(ops, k - 1, key)
  }

  lemma {:induction false} NeverEvicting<V>(ops: seq<Op<V>>, k: nat, key: string)
    requires k <= |ops|
    ensures var e := Lookup(After(false, ops, k).items, key);
            match LastStored(ops, k, key)
            case None => e.None?
            case Some((val, until)) => e == Some(Entry(val, until))
  {
    if k > 0 {
      NeverEvicting(ops, k - 1, key);
    }
  }

  /** In every run, whatever was evicted in between: a read gives the value last
      stored under its key, exactly up to the end of its lifetime, and nothing
      after that, after a deletion, or if nothing was stored. */
  lemma {:induction false} ReadsWhatWasStored<V>(ops: seq<Op<V>>, k: nat, key: string, now: Instant)
    requires Timed(ops) && k <= |ops| && (k > 0 ==> ops[k - 1].now <= now)
    ensures Answer(Lookup(After(true, ops, k).items, key), now) ==
            match LastStored(ops, k, key)
            case None => None
            case Some((val, until)) => if now <= until then Some(val) else None
  {
    RunSimulates(ops, k, now);
    NeverEvicting(ops, k, key);
  }

  /** A sweep leaves no expired entry and every other one. */
  lemma SweepLeaves<V>(items: Items<V>, now: Instant, key: string)
    ensures key in SweepSpec(items, now) <==> key in items && now <= items[key].expiresAt
    ensures key in SweepSpec(items, now) ==> SweepSpec(items, now)[key] == items[key]
  {
  }

  /** Reading an expired entry removes it, unless it was replaced meanwhile by one
      that has not expired. */
  lemma EvictLeaves<V>(items: Items<V>, key: string, other: string, now: Instant)
    ensures other in EvictSpec(items, key, now) <==>
              other in items && (other != key || now <= items[key].expiresAt)
  {
  }
}
