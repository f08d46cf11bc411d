/** Properties of whole runs of the session store, for any sequence of store
    calls whose new refresh tokens are fresh. */
module Families {
  import opened Base
  import opened Sessions

  datatype StoreOp =
    | CreateOp(s: Session)
    | IssueOp(sid: string, token: string, now: Instant)
    | RotateOp(oldToken: string, newToken: string, now: Instant)
    | RevokeOp(sid: string, now: Instant)
    | TouchOp(sid: string, now: Instant)

  function Apply(st: StoreState, op: StoreOp): StoreState {
    match op
    case CreateOp(s) => CreateSpec(st, s).0
    case IssueOp(sid, token, now) => IssueRefreshSpec(st, sid, token, now).0
    case RotateOp(o, n, now) => RotateSpec(st, o, n, now).0
    case RevokeOp(sid, now) => RevokeSpec(st, sid, now).0
    case TouchOp(sid, now) => TouchSpec(st, sid, now).0
  }

  /** The state after the first k calls. */
  function After(st: StoreState, ops: seq<StoreOp>, k: nat): StoreState
    requires k <= |ops|
  {
    if k == 0 then st else Apply(After(st, ops, k - 1), ops[k - 1])
  }

  /** Random refresh tokens never repeat. */
  ghost predicate Fresh(st: StoreState, op: StoreOp) {
    op.RotateOp? ==> op.newToken != "" && op.newToken !in st.refresh
  }

  ghost predicate FreshRun(st: StoreState, ops: seq<StoreOp>) {
    forall k :: 0 <= k < |ops| ==> Fresh(After(st, ops, k), ops[k])
  }

  // ---- the store invariant

  /** Sessions are stored under their own id, every token belongs to a stored
      session, and a revoked session has no unspent token left. */
  ghost predicate Sound(st: StoreState) {
    && (forall sid :: sid in st.sessions ==> st.sessions[sid].id == sid)
    && (forall t :: t in st.refresh ==> st.refresh[t].sid in st.sessions)
    && (forall t :: t in st.refresh && st.sessions[st.refresh[t].sid].revoked ==> st.refresh[t].used)
  }

  /** What no call takes back: a spent token stays spent and in its family, a
      revoked session stays revoked, and nothing is deleted. */
  ghost predicate Extends(st: StoreState, later: StoreState) {
    && (forall t :: t in st.refresh ==> t in later.refresh && later.refresh[t].sid == st.refresh[t].sid)
    && (forall t :: t in st.refresh && st.refresh[t].used ==> later.refresh[t].used)
    && (forall sid :: sid in st.sessions ==> sid in later.sessions)
    && (forall sid :: sid in st.sessions && st.sessions[sid].revoked ==> later.sessions[sid].revoked)
  }

  lemma {:induction false} StepKeepsSound(st: StoreState, op: StoreOp)
    requires Sound(st) && Fresh(st, op)
    ensures Sound(Apply(st, op)) && Extends(st, Apply(st, op))
  {
    hide Sound, Extends, CreateSpec, IssueRefreshSpec, RotateSpec, RevokeSpec, TouchSpec;
    match op
    case CreateOp(s) => CreateKeepsSound(st, s);
    case IssueOp(sid, token, now) => IssueKeepsSound(st, sid, token, now);
    case RotateOp(o, n, now) => RotateKeepsSound(st, o, n, now);
    case RevokeOp(sid, now) => RevokeKeepsSound(st, sid, now);
    case TouchOp(sid, now) => TouchKeepsSound(st, sid, now);
  }

  lemma {:induction false} CreateKeepsSound(st: StoreState, s: Session)
    requires Sound(st)
    ensures Sound(CreateSpec(st, s).0) && Extends(st, CreateSpec(st, s).0)
  {
  }

  lemma {:induction false} IssueKeepsSound(st: StoreState, sid: string, token: string, now: Instant)
    requires Sound(st)
    ensures Sound(IssueRefreshSpec(st, sid, token, now).0) && Extends(st, IssueRefreshSpec(st, sid, token, now).0)
  {
  }

  lemma {:induction false} TouchKeepsSound(st: StoreState, sid: string, now: Instant)
    requires Sound(st)
    ensures Sound(TouchSpec(st, sid, now).0) && Extends(st, TouchSpec(st, sid, now).0)
  {
  }

  lemma {:induction false} RevokeKeepsSound(st: StoreState, sid: string, now: Instant)
    requires Sound(st)
    ensures Sound(RevokeSpec(st, sid, now).0) && Extends(st, RevokeSpec(st, sid, now).0)
  {
  }

  lemma {:induction false} RotateKeepsSound(st: StoreState, o: string, n: string, now: Instant)
    requires Sound(st) && n != "" && n !in st.refresh
    ensures Sound(RotateSpec(st, o, n, now).0) && Extends(st, RotateSpec(st, o, n, now).0)
  {
    hide RevokeSpec;
    if o in st.refresh && st.refresh[o].used {
      RevokeKeepsSound(st, st.refresh[o].sid, now);
    }
  }

  lemma {:induction false} RunKeepsSound(st: StoreState, ops: seq<StoreOp>, i: nat, j: nat)
    requires Sound(st) && FreshRun(st, ops) && i <= j <= |ops|
    ensures Sound(After(st, ops, i)) && Sound(After(st, ops, j))
    ensures Extends(After(st, ops, i), After(st, ops, j))
    decreases j
  {
    hide Apply, Sound, Extends, Fresh;
    ExtendsItself(After(st, ops, j));
    if j > 0 {
      RunKeepsSound(st, ops, if i < j then i else j - 1, j - 1);
      StepKeepsSound(After(st, ops, j - 1), ops[j - 1]);
      if i < j {
        ExtendsOn(After(st, ops, i), After(st, ops, j - 1), After(st, ops, j));
      }
    }
  }

  lemma ExtendsItself(st: StoreState)
    ensures Extends(st, st)
  {
  }

  lemma ExtendsOn(a: StoreState, b: StoreState, c: StoreState)
    requires Extends(a, b) && Extends(b, c)
    ensures Extends(a, c)
  {
  }

  // ---- one-time use

  function Outcome(st: StoreState, ops: seq<StoreOp>, k: nat): Result<Session, StoreError>
    requires k < |ops| && ops[k].RotateOp?
  {
    RotateSpec(After(st, ops, k), ops[k].oldToken, ops[k].newToken, ops[k].now).1
  }

  /** A successful exchange spends the token it was given. */
  lemma {:induction false} ExchangeSpends(st: StoreState, o: string, n: string, now: Instant)
    requires Sound(st) && n !in st.refresh && RotateSpec(st, o, n, now).1.Ok?
    ensures var later := RotateSpec(st, o, n, now).0;
            && o in st.refresh && RotateSpec(st, o, n, now).1.value.id == st.refresh[o].sid
            && o in later.refresh && later.refresh[o].used && later.refresh[o].sid == st.refresh[o].sid
  {
  }

  /** Presenting a spent token revokes its session. */
  lemma {:induction false} ReuseRevokes(st: StoreState, o: string, n: string, now: Instant)
    requires Sound(st) && o in st.refresh && st.refresh[o].used
    ensures var sid := st.refresh[o].sid; var later := RotateSpec(st, o, n, now).0;
            && RotateSpec(st, o, n, now).1 == Err(RefreshReused(sid))
            && sid in later.sessions && later.sessions[sid].revoked
  {
  }

  /** A token exchanged once is never exchanged again: a later use of it, at any
      distance and after any other calls, is reported as reuse, and from then on
      its session is revoked and every token of the family is refused. */
  lemma {:induction false} ExchangedAtMostOnce(st: StoreState, ops: seq<StoreOp>, i: nat, j: nat, k: nat)
    requires Sound(st) && FreshRun(st, ops) && i < j < k <= |ops|
    requires ops[i].RotateOp? && ops[j].RotateOp? && ops[i].oldToken == ops[j].oldToken
    requires Outcome(st, ops, i).Ok?
    ensures Outcome(st, ops, j) == Err(RefreshReused(Outcome(st, ops, i).value.id))
    ensures var sid := Outcome(st, ops, i).value.id; var later := After(st, ops, k);
            && sid in later.sessions && later.sessions[sid].revoked
            && (forall t :: t in later.refresh && later.refresh[t].sid == sid ==> later.refresh[t].used)
    ensures k < |ops| && ops[k].RotateOp? ==>
              var sid := Outcome(st, ops, i).value.id; var later := After(st, ops, k);
              ops[k].oldToken in later.refresh && later.refresh[ops[k].oldToken].sid == sid ==>
                Outcome(st, ops, k) == Err(RefreshReused(sid))
  {
    hide RotateSpec, Apply;
    ReuseDetected(st, ops, i, j);
    RunKeepsSound(st, ops, j + 1, k);
    if k < |ops| && ops[k].RotateOp? && ops[k].oldToken in After(st, ops, k).refresh
       && After(st, ops, k).refresh[ops[k].oldToken].used {
      ReuseRevokes(After(st, ops, k), ops[k].oldToken, ops[k].newToken, ops[k].now);
    }
  }

  lemma {:induction false} ReuseDetected(st: StoreState, ops: seq<StoreOp>, i: nat, j: nat)
    requires Sound(st) && FreshRun(st, ops) && i < j < |ops|
    requires ops[i].RotateOp? && ops[j].RotateOp? && ops[i].oldToken == ops[j].oldToken
    requires Outcome(st, ops, i).Ok?
    ensures var sid := Outcome(st, ops, i).value.id; var later := After(st, ops, j + 1);
            && Outcome(st, ops, j) == Err(RefreshReused(sid))
            && sid in later.sessions && later.sessions[sid].revoked
  {
    hide RotateSpec, Apply;
    RunKeepsSound(st, ops, i, j);
    ExchangeSpends(After(st, ops, i), ops[i].oldToken, ops[i].newToken, ops[i].now);
    RotationIsAStep(st, ops, i);
    RunKeepsSound(st, ops, i + 1, j);
    ReuseRevokes(After(st, ops, j), ops[j].oldToken, ops[j].newToken, ops[j].now);
    RotationIsAStep(st, ops, j);
  }

  lemma {:induction false} RotationIsAStep(st: StoreState, ops: seq<StoreOp>, k: nat)
    requires k < |ops| && ops[k].RotateOp?
    ensures After(st, ops, k + 1) == RotateSpec(After(st, ops, k), ops[k].oldToken, ops[k].newToken, ops[k].now).0
  {
    hide RotateSpec;
  }

  /** Two of Rotate's error exits can never be taken: a known token always has a
      session, and a token of a revoked session is always spent already. The
      other three are exactly "never issued", "spent" and "too late". */
  lemma {:induction false} RotateExits(ops: seq<StoreOp>, k: nat)
    requires FreshRun(EmptyStore, ops) && k < |ops| && ops[k].RotateOp?
    ensures var st := After(EmptyStore, ops, k); var tok := ops[k].oldToken;
            match Outcome(EmptyStore, ops, k)
            case Ok(_) => tok in st.refresh && !st.refresh[tok].used && ops[k].now <= st.refresh[tok].expiresAt
            case Err(RefreshUnknown) => tok !in st.refresh
            case Err(RefreshReused(sid)) => tok in st.refresh && st.refresh[tok].used && st.refresh[tok].sid == sid
            case Err(RefreshExpired(at)) => tok in st.refresh && !st.refresh[tok].used && at < ops[k].now
            case Err(_) => false
  {
    RunKeepsSound(EmptyStore, ops, k, k);
  }
}
