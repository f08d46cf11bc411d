/** The authorization server's handlers as steps over four stores:
    `internal/auth/oauthsrv.go`, with the bearer check of `verifier.go` and the
    `session_revoke` tool of `internal/mcpsrv/tools_m2.go`.

    A handler reads the clock more than once; every reading is a parameter. What
    a client may send is arbitrary; random identifiers are parameters too, and an
    empty one stands for the generator failing. */
module AuthServer {
  import opened Base
  import opened Sessions
  import opened AuthCodes
  import opened Tokens

  datatype ServerState = ServerState(store: StoreState, codes: Codes, denied: Denied, minted: set<Claims>)

  /** What the user agreed to on the enrollment page. */
  datatype Grant = Grant(
    name: string, scopes: seq<string>, clientID: string,
    redirectURI: string, challenge: string, resource: string)

  datatype Request =
    /** `accepted`: the request was well formed and the enrollment secret right. */
    | Authorize(accepted: bool, sid: string, code: string, grant: Grant, t: Instant, tCode: Instant)
    | FromCode(resource: string, code: string, p: Presented, jti: string, next: string,
               tConsume: Instant, tActive: Instant, tMint: Instant, tIssue: Instant)
    | FromRefresh(resource: string, presented: string, jti: string, next: string, t: Instant, tNext: Instant)
    | RevokeToken(token: Bearer, next: string, t: Instant, tVerify: Instant, tDeny: Instant)
    /** `allowed`: the caller of the tool holds the admin scope. */
    | RevokeTool(allowed: bool, sid: string, t: Instant, tDeny: Instant)
    | Access(token: Bearer, tVerify: Instant, tDenied: Instant)

  datatype Response =
    | Refused
    | Redirect(code: string)
    | Issued(access: Claims, renext: string)
    | Done
    | Accepted(claims: Claims)

  function TrimSlashes(s: string): string {
    if s != "" && s[|s| - 1] == '/' then TrimSlashes(s[..|s| - 1]) else s
  }

  predicate SameResource(a: string, b: string) {
    TrimSlashes(a) == TrimSlashes(b)
  }

  function NewSession(sid: string, g: Grant, t: Instant): Session {
    Session(sid, g.name, g.scopes, t, t, t + REFRESH_TTL, false, None, 0, g.clientID)
  }

  function NewCode(sid: string, g: Grant): Code {
    Code("", sid, g.name, g.scopes, g.clientID, g.redirectURI, g.challenge, g.resource, 0, 0)
  }

  // ---- what each handler does

  function AuthorizeSpec(s: ServerState, r: Request): (ServerState, Response)
    requires r.Authorize?
  {
    if !r.accepted then (s, Refused)
    else
      var (store, err) := CreateSpec(s.store, NewSession(r.sid, r.grant, r.t));
      if err.Some? then (s, Refused)
      else if r.code == "" then (s.(store := store), Refused)
      else
        (s.(store := store, codes := IssueSpec(s.codes, r.code, NewCode(r.sid, r.grant), r.tCode)), Redirect(r.code))
  }

  function FromCodeSpec(cfg: Config, s256: string -> string, s: ServerState, r: Request): (ServerState, Response)
    requires r.FromCode?
  {
    if r.resource != "" && !SameResource(r.resource, cfg.audience) then (s, Refused)
    else
      var (codes, found) := ConsumeSpec(s256, s.codes, r.code, r.p, r.tConsume);
      var spent := s.(codes := codes);
      if found.Err? then (spent, Refused)
      else
        var got := GetSpec(s.store, found.value.sessionID);
        if got.Err? || !got.value.Active(r.tActive) then (spent, Refused)
        else if r.jti == "" then (spent, Refused)
        else
          var c := Mint(cfg, got.value.id, got.value.name, got.value.scopes, r.jti, r.tMint);
          var (store, err) := IssueRefreshSpec(s.store, got.value.id, r.next, r.tIssue);
          (spent.(store := store, minted := s.minted + {c}), if err.Some? then Refused else Issued(c, r.next))
  }

  function FromRefreshSpec(cfg: Config, s: ServerState, r: Request): (ServerState, Response)
    requires r.FromRefresh?
  {
    if r.presented == "" then (s, Refused)
    else if r.resource != "" && !SameResource(r.resource, cfg.audience) then (s, Refused)
    else if r.next == "" then (s, Refused)
    else
      var (store, got) := RotateSpec(s.store, r.presented, r.next, r.t);
      match got
      case Ok(sess) =>
        if r.jti == "" then (s.(store := store), Refused)
        else
          var c := Mint(cfg, sess.id, sess.name, sess.scopes, r.jti, r.tNext);
          (s.(store := store, minted := s.minted + {c}), Issued(c, r.next))
      case Err(RefreshReused(sid)) =>
        (s.(store := store, denied := DenySpec(s.denied, sid, r.tNext)), Refused)
      case Err(_) => (s.(store := store), Refused)
  }

  function RevokeSessionSpec(s: ServerState, sid: string, t: Instant, tDeny: Instant): ServerState {
    if sid == "" then s
    else
      var (store, err) := RevokeSpec(s.store, sid, t);
      if err.Some? then s
      else s.(store := store, denied := DenySpec(s.denied, sid, tDeny))
  }

  function RevokeTokenSpec(cfg: Config, s: ServerState, r: Request): (ServerState, Response)
    requires r.RevokeToken?
  {
    if r.token.text == "" then (s, Refused)
    else
      var verified := Verify(cfg, s.minted, r.token, r.tVerify);
      if verified.Ok? then (RevokeSessionSpec(s, verified.value.sid, r.t, r.tDeny), Done)
      else if r.next == "" then (s, Done)
      else
        var (store, got) := RotateSpec(s.store, r.token.text, r.next, r.t);
        var s' := s.(store := store);
        (if got.Ok? then RevokeSessionSpec(s', got.value.id, r.t, r.tDeny) else s', Done)
  }

  function RevokeToolSpec(s: ServerState, r: Request): (ServerState, Response)
    requires r.RevokeTool?
  {
    if !r.allowed || r.sid == "" || r.sid !in s.store.sessions then (s, Refused)
    else (RevokeSessionSpec(s, r.sid, r.t, r.tDeny), Done)
  }

  function AccessSpec(cfg: Config, s: ServerState, r: Request): (ServerState, Response)
    requires r.Access?
  {
    var verified := Verify(cfg, s.minted, r.token, r.tVerify);
    if verified.Err? then (s, Refused)
    else
      var (denied, no) := DeniedSpec(s.denied, verified.value.sid, r.tDenied);
      (s.(denied := denied), if no then Refused else Accepted(verified.value))
  }

  function Handle(cfg: Config, s256: string -> string, s: ServerState, r: Request): (ServerState, Response) {
    match r
    case Authorize(_, _, _, _, _, _) => AuthorizeSpec(s, r)
    case FromCode(_, _, _, _, _, _, _, _, _) => FromCodeSpec(cfg, s256, s, r)
    case FromRefresh(_, _, _, _, _, _) => FromRefreshSpec(cfg, s, r)
    case RevokeToken(_, _, _, _, _) => RevokeTokenSpec(cfg, s, r)
    case RevokeTool(_, _, _, _) => RevokeToolSpec(s, r)
    case Access(_, _, _) => AccessSpec(cfg, s, r)
  }

  // ---- the server

  class Server {
    const cfg: Config
    const store: MemoryStore
    const codes: CodeStore
    const deny: Denylist
    /** Every claim set the issuer has signed: it stands for the signing key, since a
        signature verifies exactly when it was made over one of these. */
    var minted: set<Claims>

    ghost function State(): ServerState
      reads this, store, codes, deny
    {
      ServerState(store.State(), codes.codes, deny.revoked, minted)
    }

    constructor (cfg: Config, s256: string -> string)
      ensures this.cfg == cfg && codes.s256 == s256
      ensures fresh(store) && fresh(codes) && fresh(deny)
      ensures State() == ServerState(EmptyStore, map[], map[], {})
    {
      this.cfg := cfg;
      store := new MemoryStore();
      codes := new CodeStore(s256);
      deny := new Denylist();
      minted := {};
    }

    /** `authorizePOST`, after the form and the enrollment secret were checked. */
    method AuthorizePOST(accepted: bool, sid: string, code: string, g: Grant, t: Instant, tCode: Instant)
      returns (resp: Response)
      modifies store, codes
      ensures (State(), resp) ==
              Handle(cfg, codes.s256, old(State()), Authorize(accepted, sid, code, g, t, tCode))
    {
      if !accepted {
        return Refused;
      }
      var err := store.Create(NewSession(sid, g, t));
      if err.Some? {
        return Refused;
      }
      if code == "" {
        return Refused;
      }
      codes.Issue(code, NewCode(sid, g), tCode);
      return Redirect(code);
    }

    method TokenFromCode(resource: string, code: string, p: Presented, jti: string, next: string,
                         tConsume: Instant, tActive: Instant, tMint: Instant, tIssue: Instant)
      returns (resp: Response)
      modifies store, codes, this`minted
      ensures (State(), resp) == Handle(cfg, codes.s256, old(State()),
                                        FromCode(resource, code, p, jti, next, tConsume, tActive, tMint, tIssue))
    {
      if resource != "" && !SameResource(resource, cfg.audience) {
        return Refused;
      }
      var found := codes.Consume(code, p, tConsume);
      if found.Err? {
        return Refused;
      }
      var got := store.Get(found.value.sessionID);
      if got.Err? || !got.value.Active(tActive) {
        return Refused;
      }
      var sess := got.value;
      if jti == "" {
        return Refused;
      }
      var c := Mint(cfg, sess.id, sess.name, sess.scopes, jti, tMint);
      minted := minted + {c};
      var err := store.IssueRefresh(sess.id, next, tIssue);
      if err.Some? {
        return Refused;
      }
      return Issued(c, next);
    }

    method TokenFromRefresh(resource: string, presented: string, jti: string, next: string,
                            t: Instant, tNext: Instant)
      returns (resp: Response)
      modifies store, deny, this`minted
      ensures (State(), resp) ==
              Handle(cfg, codes.s256, old(State()), FromRefresh(resource, presented, jti, next, t, tNext))
    {
      if presented == "" {
        return Refused;
      }
      if resource != "" && !SameResource(resource, cfg.audience) {
        return Refused;
      }
      if next == "" {
        return Refused;
      }
      var got := store.Rotate(presented, next, t);
      if got.Err? {
        if got.error.RefreshReused? {
          deny.Add(got.error.sid, tNext);
        }
        return Refused;
      }
      if jti == "" {
        return Refused;
      }
      var c := Mint(cfg, got.value.id, got.value.name, got.value.scopes, jti, tNext);
      minted := minted + {c};
      return Issued(c, next);
    }

    method RevokeSession(sid: string, t: Instant, tDeny: Instant)
      modifies store, deny
      ensures State() == RevokeSessionSpec(old(State()), sid, t, tDeny)
    {
      if sid == "" {
        return;
      }
      var err := store.Revoke(sid, t);
      if err.Some? {
        return;
      }
      deny.Add(sid, tDeny);
    }

    /** Revokes by access token, or else by rotating a refresh token away. */
    method HandleRevoke(token: Bearer, next: string, t: Instant, tVerify: Instant, tDeny: Instant)
      returns (resp: Response)
      modifies store, deny
      ensures (State(), resp) ==
              Handle(cfg, codes.s256, old(State()), RevokeToken(token, next, t, tVerify, tDeny))
    {
      if token.text == "" {
        return Refused;
      }
      var verified := Verify(cfg, minted, token, tVerify);
      if verified.Ok? {
        RevokeSession(verified.value.sid, t, tDeny);
        return Done;
      }
      if next == "" {
        return Done;
      }
      var got := store.Rotate(token.text, next, t);
      if got.Ok? {
        RevokeSession(got.value.id, t, tDeny);
      }
      return Done;
    }

    /** The `session_revoke` tool. */
    method SessionRevoke(allowed: bool, sid: string, t: Instant, tDeny: Instant) returns (resp: Response)
      modifies store, deny
      ensures (State(), resp) == Handle(cfg, codes.s256, old(State()), RevokeTool(allowed, sid, t, tDeny))
    {
      if !allowed || sid == "" {
        return Refused;
      }
      var err := store.Revoke(sid, t);
      if err.Some? {
        return Refused;
      }
      deny.Add(sid, tDeny);
      return Done;
    }

    /** The bearer check in front of every tool call. */
    method CheckBearer(token: Bearer, tVerify: Instant, tDenied: Instant) returns (resp: Response)
      modifies deny
      ensures (State(), resp) == Handle(cfg, codes.s256, old(State()), Access(token, tVerify, tDenied))
    {
      var verified := Verify(cfg, minted, token, tVerify);
      if verified.Err? {
        return Refused;
      }
      var denied := deny.Denies(verified.value.sid, tDenied);
      return if denied then Refused else Accepted(verified.value);
    }
  }
}
