/** Refresh-token families when handlers interleave call by call.

    A handler is taken apart into the single calls it makes on the stores; calls
    of any number of handlers may alternate in any order. What a handler has
    still to do is remembered in two sets: sessions created whose code is not
    issued yet, and sessions whose code is spent but whose first refresh token is
    not recorded yet. */
module Interleaving {
  import opened Base
  import opened Sessions
  import opened AuthCodes
  import AuthServer

  datatype World = World(store: StoreState, codes: Codes, awaiting: set<string>, exchanging: set<string>)

  datatype Call =
    | Create(s: Session)
    | IssueCode(sid: string, code: string, g: AuthServer.Grant, now: Instant)
    | Consume(code: string, p: Presented, now: Instant)
    /** The handler stops before the call that would come next. */
    | GiveUp(sid: string, now: Instant)
    | FirstRefresh(sid: string, token: string, now: Instant)
    | Rotate(oldToken: string, newToken: string, now: Instant)
    | Revoke(sid: string, now: Instant)
    | Touch(sid: string, now: Instant)

  const Start := World(EmptyStore, map[], {}, {})

  /** What the handlers' program order and fresh random identifiers guarantee. */
  ghost predicate Enabled(w: World, a: Call) {
    match a
    case Create(s) => exists g, t :: s == AuthServer.NewSession(s.id, g, t)
    case IssueCode(sid, code, _, _) => sid in w.awaiting && code !in w.codes
    case GiveUp(sid, _) => sid in w.awaiting || sid in w.exchanging
    case FirstRefresh(sid, _, _) => sid in w.exchanging
    case Rotate(_, n, _) => n != "" && n !in w.store.refresh
    case _ => true
  }

  function Step(s256: string -> string, w: World, a: Call): World {
    match a
    case Create(s) =>
      var (store, err) := CreateSpec(w.store, s);
      if err.Some? then w else w.(store := store, awaiting := w.awaiting + {s.id})
    case IssueCode(sid, code, g, now) =>
      w.(codes := IssueSpec(w.codes, code, AuthServer.NewCode(sid, g), now), awaiting := w.awaiting - {sid})
    case Consume(code, p, now) =>
      var (codes, r) := ConsumeSpec(s256, w.codes, code, p, now);
      w.(codes := codes, exchanging := if r.Ok? then w.exchanging + {r.value.sessionID} else w.exchanging)
    case GiveUp(sid, _) => w.(awaiting := w.awaiting - {sid}, exchanging := w.exchanging - {sid})
    case FirstRefresh(sid, token, now) =>
      w.(store := IssueRefreshSpec(w.store, sid, token, now).0, exchanging := w.exchanging - {sid})
    case Rotate(o, n, now) => w.(store := RotateSpec(w.store, o, n, now).0)
    case Revoke(sid, now) => w.(store := RevokeSpec(w.store, sid, now).0)
    case Touch(sid, now) => w.(store := TouchSpec(w.store, sid, now).0)
  }

  function After(s256: string -> string, calls: seq<Call>, k: nat): World
    requires k <= |calls|
  {
    if k == 0 then Start else Step(s256, After(s256, calls, k - 1), calls[k - 1])
  }

  ghost predicate Legal(s256: string -> string, calls: seq<Call>) {
    forall k :: 0 <= k < |calls| ==> Enabled(After(s256, calls, k), calls[k])
  }

  // ---- families

  /** The token at i is spent and names the next one as its replacement. */
  ghost predicate LinkedAt(st: StoreState, chain: seq<string>, i: nat) {
    && i + 1 < |chain| && chain[i] in st.refresh
    && st.refresh[chain[i]].used && st.refresh[chain[i]].replaced == chain[i + 1]
  }

  /** The last token names no replacement, is unspent exactly while the session is
      not revoked, and while unspent expires together with it. */
  ghost predicate EndsIn(st: StoreState, s: Session, t: string) {
    && t in st.refresh && st.refresh[t].replaced == ""
    && st.refresh[t].used == s.revoked
    && (!st.refresh[t].used ==> st.refresh[t].expiresAt == s.expiresAt)
  }

  /** `chain` is the whole family of a session, in the order of issue. */
  ghost predicate IsFamily(st: StoreState, sid: string, chain: seq<string>)
    requires sid in st.sessions
  {
    && (forall t :: t in st.refresh && st.refresh[t].sid == sid ==> t in chain)
    && (forall t :: t in chain ==> t in st.refresh && st.refresh[t].sid == sid)
    && (forall i, j :: 0 <= i < j < |chain| ==> chain[i] != chain[j])
    && (forall i: nat :: i + 1 < |chain| ==> LinkedAt(st, chain, i))
    && (chain != [] ==> EndsIn(st, st.sessions[sid], chain[|chain| - 1]))
    && st.sessions[sid].rotations == (if chain == [] then 0 else |chain| - 1)
  }

  /** The two states agree on everything a family of `sid` is made of. */
  ghost predicate SameFamily(st: StoreState, st': StoreState, sid: string) {
    && (forall t :: t in st.refresh && st.refresh[t].sid == sid ==> t in st'.refresh && st'.refresh[t] == st.refresh[t])
    && (forall t :: t in st'.refresh && st'.refresh[t].sid == sid ==>
          t in st.refresh && st'.refresh[t] == st.refresh[t])
    && sid in st.sessions && sid in st'.sessions
    && var s, s' := st.sessions[sid], st'.sessions[sid];
       s.revoked == s'.revoked && s.rotations == s'.rotations && s.expiresAt == s'.expiresAt
  }

  lemma {:induction false} FamilyFrame(st: StoreState, st': StoreState, sid: string, chain: seq<string>)
    requires SameFamily(st, st', sid) && IsFamily(st, sid, chain)
    ensures IsFamily(st', sid, chain)
  {
    forall i: nat | i + 1 < |chain|
      ensures LinkedAt(st', chain, i)
    {
      assert LinkedAt(st, chain, i);
      assert chain[i] in chain;
    }
  }

  ghost predicate Linked(st: StoreState, chains: map<string, seq<string>>) {
    && (forall t :: t in st.refresh ==> st.refresh[t].sid in st.sessions)
    && (forall sid :: sid in st.sessions ==> st.sessions[sid].id == sid)
    && (forall sid :: sid in st.sessions ==> sid in chains && IsFamily(st, sid, chains[sid]))
  }

  /** A session in the middle of enrollment or exchange has one code or one
      pending call between the two, never both, and no refresh token yet. */
  ghost predicate SingleUse(w: World, chains: map<string, seq<string>>) {
    && (forall sid :: sid in w.awaiting || sid in w.exchanging ==>
          sid in w.store.sessions && sid in chains && chains[sid] == [])
    && (forall c :: c in w.codes ==>
          var sid := w.codes[c].sessionID;
          sid in w.store.sessions && sid in chains && chains[sid] == []
          && sid !in w.awaiting && sid !in w.exchanging)
    && (forall c, d :: c in w.codes && d in w.codes && w.codes[c].sessionID == w.codes[d].sessionID ==> c == d)
    && w.awaiting !! w.exchanging
  }

  function Extended(st: StoreState, chains: map<string, seq<string>>, a: Call): map<string, seq<string>> {
    match a
    case Create(s) => if s.id in st.sessions then chains else chains[s.id := []]
    case FirstRefresh(sid, token, now) =>
      if IssueRefreshSpec(st, sid, token, now).1.None? then chains[sid := [token]] else chains
    case Rotate(o, n, now) =>
      var r := RotateSpec(st, o, n, now).1;
      if r.Ok? && r.value.id in chains then chains[r.value.id := chains[r.value.id] + [n]] else chains
    case _ => chains
  }

  lemma {:induction false} CreateLinks(st: StoreState, chains: map<string, seq<string>>, s: Session)
    requires Linked(st, chains) && s.rotations == 0
    ensures Linked(CreateSpec(st, s).0, Extended(st, chains, Create(s)))
  {
    hide IsFamily;
    var st' := CreateSpec(st, s).0;
    forall sid | sid in st.sessions
      ensures IsFamily(st', sid, chains[sid])
    {
      FamilyFrame(st, st', sid, chains[sid]);
    }
    if s.id in st'.sessions && s.id !in st.sessions {
      EmptyFamily(st', s.id);
    }
  }

  lemma {:induction false} EmptyFamily(st: StoreState, sid: string)
    requires sid in st.sessions && st.sessions[sid].rotations == 0
    requires forall t :: t in st.refresh ==> st.refresh[t].sid != sid
    ensures IsFamily(st, sid, [])
  {
  }

  lemma {:induction false} FirstRefreshLinks(st: StoreState, chains: map<string, seq<string>>, a: Call)
    requires Linked(st, chains) && a.FirstRefresh? && a.sid in st.sessions && chains[a.sid] == []
    ensures Linked(IssueRefreshSpec(st, a.sid, a.token, a.now).0, Extended(st, chains, a))
  {
    var (st', err) := IssueRefreshSpec(st, a.sid, a.token, a.now);
    if err.None? {
      FirstOfFamily(st, st', a.sid, a.token);
      forall sid | sid in st.sessions && sid != a.sid
        ensures IsFamily(st', sid, chains[sid])
      {
        FamilyFrame(st, st', sid, chains[sid]);
      }
    }
  }

  lemma {:induction false} FirstOfFamily(st: StoreState, st': StoreState, sid: string, token: string)
    requires sid in st.sessions && IsFamily(st, sid, []) && token !in st.refresh && !st.sessions[sid].revoked
    requires st'.refresh == st.refresh[token := RefreshRecord(sid, st.sessions[sid].expiresAt, false, None, "")]
    requires sid in st'.sessions && exists now :: st'.sessions[sid] == st.sessions[sid].(lastSeen := now)
    ensures IsFamily(st', sid, [token])
  {
  }

  lemma {:induction false} RevokeLinks(st: StoreState, chains: map<string, seq<string>>, sid: string, now: Instant)
    requires Linked(st, chains)
    ensures Linked(RevokeSpec(st, sid, now).0, chains)
  {
    hide IsFamily, RevokeSpec, SameFamily;
    RevokeFrame(st, sid, now);
    if sid in st.sessions {
      var st' := RevokeSpec(st, sid, now).0;
      RevokedFamily(st, sid, chains[sid], now);
      forall id | id in st.sessions && id != sid
        ensures IsFamily(st', id, chains[id])
      {
        FamilyFrame(st, st', id, chains[id]);
      }
    }
  }

  lemma {:induction false} RevokeFrame(st: StoreState, sid: string, now: Instant)
    ensures var st' := RevokeSpec(st, sid, now).0;
            && st'.sessions.Keys == st.sessions.Keys && st'.refresh.Keys == st.refresh.Keys
            && (forall id :: id in st.sessions ==> st'.sessions[id].id == st.sessions[id].id)
            && (forall t :: t in st.refresh ==> st'.refresh[t].sid == st.refresh[t].sid)
            && (forall id :: id in st.sessions && id != sid ==> SameFamily(st, st', id))
            && (sid !in st.sessions ==> st' == st)
  {
  }

  lemma {:induction false} RevokedFamily(st: StoreState, sid: string, chain: seq<string>, now: Instant)
    requires sid in st.sessions && IsFamily(st, sid, chain)
    ensures IsFamily(RevokeSpec(st, sid, now).0, sid, chain)
  {
    var st' := RevokeSpec(st, sid, now).0;
    forall i: nat | i + 1 < |chain|
      ensures LinkedAt(st', chain, i)
    {
      assert LinkedAt(st, chain, i);
    }
  }

  lemma {:induction false} RotateLinks(st: StoreState, chains: map<string, seq<string>>, o: string, n: string,
                                       now: Instant)
    requires Linked(st, chains) && n != "" && n !in st.refresh
    ensures Linked(RotateSpec(st, o, n, now).0, Extended(st, chains, Rotate(o, n, now)))
  {
    hide IsFamily, RevokeSpec;
    if RotateSpec(st, o, n, now).1.Ok? {
      RotatedLinks(st, chains, o, n, now);
    } else if o in st.refresh && st.refresh[o].used {
      RevokeLinks(st, chains, st.refresh[o].sid, now);
    }
  }

  lemma {:induction false} RotatedLinks(st: StoreState, chains: map<string, seq<string>>, o: string, n: string,
                                        now: Instant)
    requires Linked(st, chains) && n != "" && n !in st.refresh && RotateSpec(st, o, n, now).1.Ok?
    ensures Linked(RotateSpec(st, o, n, now).0, Extended(st, chains, Rotate(o, n, now)))
  {
    hide IsFamily;
    var id := st.refresh[o].sid;
    LiveIsLast(st, id, chains[id], o);
    LongerFamily(st, id, chains[id], n, now);
    var st' := RotateSpec(st, o, n, now).0;
    forall sid | sid in st.sessions && sid != id
      ensures IsFamily(st', sid, chains[sid])
    {
      FamilyFrame(st, st', sid, chains[sid]);
    }
  }

  /** An unspent token is the last of its family. */
  lemma {:induction false} LiveIsLast(st: StoreState, sid: string, chain: seq<string>, t: string)
    requires sid in st.sessions && IsFamily(st, sid, chain)
    requires t in st.refresh && st.refresh[t].sid == sid && !st.refresh[t].used
    ensures chain != [] && t == chain[|chain| - 1]
  {
    var i: nat :| i < |chain| && chain[i] == t;
    assert i + 1 < |chain| ==> LinkedAt(st, chain, i);
  }

  lemma {:induction false} LongerFamily(st: StoreState, sid: string, chain: seq<string>, n: string, now: Instant)
    requires sid in st.sessions && IsFamily(st, sid, chain) && chain != [] && n !in st.refresh && n != ""
    requires var last := st.refresh[chain[|chain| - 1]]; !last.used && now <= last.expiresAt
    ensures IsFamily(RotateSpec(st, chain[|chain| - 1], n, now).0, sid, chain + [n])
  {
    var o := chain[|chain| - 1];
    var st', chain' := RotateSpec(st, o, n, now).0, chain + [n];
    forall i: nat | i + 1 < |chain'|
      ensures LinkedAt(st', chain', i)
    {
      if i + 1 < |chain| {
        assert LinkedAt(st, chain, i);
      }
    }
  }

  // ---- single-use codes

  /** Issuing adds one code under its own session and may sweep others. */
  lemma IssuedCodes(codes: Codes, code: string, c: Code, now: Instant)
    ensures forall d :: d in IssueSpec(codes, code, c, now) ==>
              if d == code then IssueSpec(codes, code, c, now)[d].sessionID == c.sessionID
              else d in codes && IssueSpec(codes, code, c, now)[d].sessionID == codes[d].sessionID
  {
  }

  /** Consuming only removes codes, among them the one presented. */
  lemma ConsumedCodes(s256: string -> string, codes: Codes, code: string, p: Presented, now: Instant)
    ensures var (codes', r) := ConsumeSpec(s256, codes, code, p, now);
            && (forall d :: d in codes' ==> d in codes && d != code && codes'[d] == codes[d])
            && (r.Ok? ==> code in codes && r.value == codes[code])
  {
  }

  lemma {:induction false} StepKeepsSingleUse(s256: string -> string, w: World, chains: map<string, seq<string>>,
                                              a: Call)
    requires Linked(w.store, chains) && SingleUse(w, chains) && Enabled(w, a)
    ensures SingleUse(Step(s256, w, a), Extended(w.store, chains, a))
  {
    hide Linked, SingleUse, Step, Extended;
    match a
    case IssueCode(_, _, _, _) => CodeCallKeepsSingleUse(s256, w, chains, a);
    case Consume(_, _, _) => CodeCallKeepsSingleUse(s256, w, chains, a);
    case FirstRefresh(_, _, _) => FirstRefreshKeepsSingleUse(s256, w, chains, a);
    case _ => OtherCallKeepsSingleUse(s256, w, chains, a);
  }

  lemma {:induction false} CodeCallKeepsSingleUse(s256: string -> string, w: World, chains: map<string, seq<string>>,
                                                  a: Call)
    requires a.IssueCode? || a.Consume?
    requires Linked(w.store, chains) && SingleUse(w, chains) && Enabled(w, a)
    ensures SingleUse(Step(s256, w, a), Extended(w.store, chains, a))
  {
    hide Linked, ConsumeSpec, IssueSpec;
    match a
    case IssueCode(sid, code, g, now) => IssuedCodes(w.codes, code, AuthServer.NewCode(sid, g), now);
    case Consume(code, p, now) => ConsumedCodes(s256, w.codes, code, p, now);
  }

  lemma {:induction false} FirstRefreshKeepsSingleUse(s256: string -> string, w: World, chains: map<string,
                                                      seq<string>>, a: Call)
    requires a.FirstRefresh?
    requires Linked(w.store, chains) && SingleUse(w, chains) && Enabled(w, a)
    ensures SingleUse(Step(s256, w, a), Extended(w.store, chains, a))
  {
    hide Linked;
  }

  lemma {:induction false} OtherCallKeepsSingleUse(s256: string -> string, w: World, chains: map<string,
                                                   seq<string>>, a: Call)
    requires !a.IssueCode? && !a.Consume? && !a.FirstRefresh?
    requires Linked(w.store, chains) && SingleUse(w, chains) && Enabled(w, a)
    ensures SingleUse(Step(s256, w, a), Extended(w.store, chains, a))
  {
    hide Linked, RotateSpec, SpendFamily;
    if a.Rotate? {
      RotationGrows(w.store, chains, a.oldToken, a.newToken, a.now);
    }
  }

  /** A rotation adds to a family that already has a token. */
  lemma {:induction false} RotationGrows(st: StoreState, chains: map<string, seq<string>>, o: string, n: string,
                                         now: Instant)
    requires Linked(st, chains)
    ensures var (st', r) := RotateSpec(st, o, n, now);
            && st'.sessions.Keys == st.sessions.Keys
            && (r.Ok? ==> r.value.id in st.sessions && r.value.id in chains && chains[r.value.id] != [])
  {
    hide IsFamily;
    if RotateSpec(st, o, n, now).1.Ok? {
      var id := st.refresh[o].sid;
      LiveIsLast(st, id, chains[id], o);
    }
  }

  lemma {:induction false} StepKeepsLinked(s256: string -> string, w: World, chains: map<string, seq<string>>, a: Call)
    requires Linked(w.store, chains) && SingleUse(w, chains) && Enabled(w, a)
    ensures Linked(Step(s256, w, a).store, Extended(w.store, chains, a))
  {
    hide Linked, IssueRefreshSpec, RotateSpec, RevokeSpec, TouchSpec;
    match a
    case Create(s) => CreateLinks(w.store, chains, s);
    case IssueCode(sid, code, g, now) =>
    case Consume(code, p, now) =>
    case GiveUp(sid, _) =>
    case FirstRefresh(sid, token, now) => FirstRefreshLinks(w.store, chains, a);
    case Rotate(o, n, now) => RotateLinks(w.store, chains, o, n, now);
    case Revoke(sid, now) => RevokeLinks(w.store, chains, sid, now);
    case Touch(sid, now) => TouchLinks(w.store, chains, sid, now);
  }

  lemma {:induction false} TouchLinks(st: StoreState, chains: map<string, seq<string>>, sid: string, now: Instant)
    requires Linked(st, chains)
    ensures Linked(TouchSpec(st, sid, now).0, chains)
  {
    hide IsFamily;
    var st' := TouchSpec(st, sid, now).0;
    forall id | id in st.sessions
      ensures IsFamily(st', id, chains[id])
    {
      FamilyFrame(st, st', id, chains[id]);
    }
  }

  // ---- every reachable state

  lemma {:induction false} Reachable(s256: string -> string, calls: seq<Call>, k: nat)
    returns (chains: map<string, seq<string>>)
    requires Legal(s256, calls) && k <= |calls|
    ensures Linked(After(s256, calls, k).store, chains) && SingleUse(After(s256, calls, k), chains)
  {
    hide Linked, SingleUse, Step;
    if k == 0 {
      chains := map[];
      StartIsLinked();
    } else {
      var before := Reachable(s256, calls, k - 1);
      StepKeepsLinked(s256, After(s256, calls, k - 1), before, calls[k - 1]);
      StepKeepsSingleUse(s256, After(s256, calls, k - 1), before, calls[k - 1]);
      chains := Extended(After(s256, calls, k - 1).store, before, calls[k - 1]);
    }
  }

  lemma StartIsLinked()
    ensures Linked(Start.store, map[]) && SingleUse(Start, map[])
  {
  }

  /** Family theorem. Whatever the interleaving, the refresh tokens of a session
      form one chain without repetition, linked by `replaced`, one longer than the
      number of rotations once the code is exchanged. */
  lemma {:induction false} FamiliesAreChains(s256: string -> string, calls: seq<Call>, k: nat, sid: string)
    returns (chain: seq<string>)
    requires Legal(s256, calls) && k <= |calls| && sid in After(s256, calls, k).store.sessions
    ensures IsFamily(After(s256, calls, k).store, sid, chain)
  {
    var chains := Reachable(s256, calls, k);
    chain := chains[sid];
  }

  /** At most one token of a session is unspent, it has no successor, it expires
      exactly when the session does, and a revoked session has none. */
  lemma {:induction false} OneLiveToken(s256: string -> string, calls: seq<Call>, k: nat, t: string)
    requires Legal(s256, calls) && k <= |calls|
    requires var st := After(s256, calls, k).store; t in st.refresh && !st.refresh[t].used
    ensures var st := After(s256, calls, k).store; var sid := st.refresh[t].sid;
            && sid in st.sessions && !st.sessions[sid].revoked
            && st.refresh[t].expiresAt == st.sessions[sid].expiresAt && st.refresh[t].replaced == ""
            && forall u :: u in st.refresh && st.refresh[u].sid == sid && !st.refresh[u].used ==> u == t
  {
    hide IsFamily;
    var st := After(s256, calls, k).store;
    var chains := Reachable(s256, calls, k);
    var sid := st.refresh[t].sid;
    LiveIsLast(st, sid, chains[sid], t);
    LastFacts(st, sid, chains[sid]);
    forall u | u in st.refresh && st.refresh[u].sid == sid && !st.refresh[u].used
      ensures u == t
    {
      LiveIsLast(st, sid, chains[sid], u);
    }
  }

  lemma LastFacts(st: StoreState, sid: string, chain: seq<string>)
    requires sid in st.sessions && IsFamily(st, sid, chain) && chain != []
    ensures EndsIn(st, st.sessions[sid], chain[|chain| - 1])
  {
  }

  // ---- the sliding window

  /** The call exchanges a refresh token of the session. */
  predicate Renews(st: StoreState, a: Call, sid: string) {
    a.Rotate? &&
    var r := RotateSpec(st, a.oldToken, a.newToken, a.now).1;
    r.Ok? && r.value.id == sid
  }

  function At(a: Call): Instant {
    if a.Create? then a.s.createdAt else a.now
  }

  /** When the session was last renewed: created, or rotated successfully. */
  function Renewed(s256: string -> string, calls: seq<Call>, k: nat, sid: string): Option<Instant>
    requires k <= |calls|
  {
    if k == 0 then None
    else
      var st, a := After(s256, calls, k - 1).store, calls[k - 1];
      if Renews(st, a, sid) || (a.Create? && a.s.id == sid && sid !in st.sessions) then Some(At(a))
      else Renewed(s256, calls, k - 1, sid)
  }

  /** No call but a renewal moves a session's expiry, and a renewal moves it to
      one refresh lifetime from now. */
  lemma {:induction false} OnlyRenewalMoves(s256: string -> string, w: World, chains: map<string, seq<string>>,
                                            a: Call, sid: string)
    requires Linked(w.store, chains) && Enabled(w, a)
    ensures var st' := Step(s256, w, a).store;
            if sid in w.store.sessions then
              && sid in st'.sessions
              && st'.sessions[sid].expiresAt ==
                 (if Renews(w.store, a, sid) then At(a) + REFRESH_TTL else w.store.sessions[sid].expiresAt)
            else
              sid in st'.sessions ==>
                a.Create? && a.s.id == sid && st'.sessions[sid].expiresAt == At(a) + REFRESH_TTL
  {
    hide SpendFamily, IsFamily;
  }

  /** Every session expires one refresh lifetime after its last renewal. */
  lemma {:induction false} WindowSlides(s256: string -> string, calls: seq<Call>, k: nat, sid: string)
    requires Legal(s256, calls) && k <= |calls| && sid in After(s256, calls, k).store.sessions
    ensures Renewed(s256, calls, k, sid).Some?
    ensures After(s256, calls, k).store.sessions[sid].expiresAt == Renewed(s256, calls, k, sid).value + REFRESH_TTL
  {
    hide Step, Linked, SingleUse, Renews, Legal;
    var w := After(s256, calls, k - 1);
    var chains := Reachable(s256, calls, k - 1);
    EnabledAt(s256, calls, k - 1);
    OnlyRenewalMoves(s256, w, chains, calls[k - 1], sid);
    if sid in w.store.sessions {
      WindowSlides(s256, calls, k - 1, sid);
    }
  }

  ghost predicate Timed(calls: seq<Call>) {
    forall i, j :: 0 <= i < j < |calls| ==> At(calls[i]) <= At(calls[j])
  }

  lemma {:induction false} RenewedInThePast(s256: string -> string, calls: seq<Call>, k: nat, sid: string)
    requires Timed(calls) && k <= |calls| && Renewed(s256, calls, k, sid).Some?
    ensures k > 0 && Renewed(s256, calls, k, sid).value <= At(calls[k - 1])
  {
    hide After, Renews;
    if Renewed(s256, calls, k - 1, sid).Some? {
      RenewedInThePast(s256, calls, k - 1, sid);
    }
  }

  lemma {:induction false} ExpiryNeverShrinks(s256: string -> string, calls: seq<Call>, i: nat, j: nat, sid: string)
    requires Legal(s256, calls) && Timed(calls) && i <= j <= |calls| && sid in After(s256, calls, i).store.sessions
    ensures sid in After(s256, calls, j).store.sessions
    ensures After(s256, calls, i).store.sessions[sid].expiresAt <= After(s256, calls, j).store.sessions[sid].expiresAt
    decreases j
  {
    hide Step, Linked, SingleUse, Renews, Legal;
    if i < j {
      ExpiryNeverShrinks(s256, calls, i, j - 1, sid);
      WindowSlides(s256, calls, j - 1, sid);
      RenewedInThePast(s256, calls, j - 1, sid);
      var chains := Reachable(s256, calls, j - 1);
      EnabledAt(s256, calls, j - 1);
      OnlyRenewalMoves(s256, After(s256, calls, j - 1), chains, calls[j - 1], sid);
    }
  }

  lemma EnabledAt(s256: string -> string, calls: seq<Call>, k: nat)
    requires Legal(s256, calls) && k < |calls|
    ensures Enabled(After(s256, calls, k), calls[k])
  {
  }

  /** Once the clock has passed a session's expiry, no rotation ever succeeds for
      it again and its expiry never moves. */
  lemma {:induction false} ClosedForGood(s256: string -> string, calls: seq<Call>, m: nat, j: nat, sid: string)
    requires Legal(s256, calls) && Timed(calls) && m <= j < |calls|
    requires sid in After(s256, calls, m).store.sessions
    requires After(s256, calls, m).store.sessions[sid].expiresAt < At(calls[m])
    ensures sid in After(s256, calls, j).store.sessions
    ensures After(s256, calls, j).store.sessions[sid].expiresAt == After(s256, calls, m).store.sessions[sid].expiresAt
    ensures !Renews(After(s256, calls, j).store, calls[j], sid)
    decreases j
  {
    hide Step, Linked, SingleUse, Renews, Legal;
    if m < j {
      ClosedForGood(s256, calls, m, j - 1, sid);
      var chains := Reachable(s256, calls, j - 1);
      EnabledAt(s256, calls, j - 1);
      OnlyRenewalMoves(s256, After(s256, calls, j - 1), chains, calls[j - 1], sid);
    }
    assert At(calls[m]) <= At(calls[j]);
    TooLate(s256, calls, j, sid);
  }

  lemma {:induction false} TooLate(s256: string -> string, calls: seq<Call>, j: nat, sid: string)
    requires Legal(s256, calls) && j < |calls| && sid in After(s256, calls, j).store.sessions
    requires After(s256, calls, j).store.sessions[sid].expiresAt < At(calls[j])
    ensures !Renews(After(s256, calls, j).store, calls[j], sid)
  {
    var st, a := After(s256, calls, j).store, calls[j];
    var chains := Reachable(s256, calls, j);
    if Renews(st, a, sid) {
      OneLiveToken(s256, calls, j, a.oldToken);
    }
  }
}
