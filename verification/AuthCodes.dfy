/** Single-use authorization codes: `internal/auth/authcode.go`. The PKCE hash is
    an arbitrary function `s256`. */
module AuthCodes {
  import opened Base

  const AUTH_CODE_TTL := MINUTE

  datatype Code = Code(
    code: string,
    sessionID: string,
    name: string,
    scopes: seq<string>,
    clientID: string,
    redirectURI: string,
    challenge: string,
    resource: string,
    issuedAt: Instant,
    expiresAt: Instant)

  datatype ConsumeError = CodeUnknown | CodeExpired | OtherClient | RedirectMismatch | PKCEFailed

  type Codes = map<string, Code>

  /** What the client sends along with a code. */
  datatype Presented = Presented(verifier: string, redirectURI: string, clientID: string)

  function VerifyPKCE(s256: string -> string, challenge: string, verifier: string): bool {
    && challenge != "" && verifier != ""
    && 43 <= |verifier| <= 128
    && s256(verifier) == challenge
  }

  function Stamp(c: Code, code: string, now: Instant): Code {
    c.(code := code, issuedAt := now, expiresAt := now + AUTH_CODE_TTL)
  }

  function Sweep(codes: Codes, now: Instant): Codes {
    map k | k in codes && now <= codes[k].expiresAt :: codes[k]
  }

  function IssueSpec(codes: Codes, code: string, c: Code, now: Instant): Codes {
    Sweep(codes[code := Stamp(c, code, now)], now)
  }

  /** The checks on a code that was found. */
  function Judge(s256: string -> string, c: Code, p: Presented, now: Instant): Result<Code, ConsumeError> {
    if now > c.expiresAt then Err(CodeExpired)
    else if c.clientID != "" && p.clientID != "" && c.clientID != p.clientID then Err(OtherClient)
    else if c.redirectURI != "" && c.redirectURI != p.redirectURI then Err(RedirectMismatch)
    else if !VerifyPKCE(s256, c.challenge, p.verifier) then Err(PKCEFailed)
    else Ok(c)
  }

  function ConsumeSpec(s256: string -> string, codes: Codes, code: string, p: Presented, now: Instant)
    : (Codes, Result<Code, ConsumeError>)
  {
    if code !in codes then (codes, Err(CodeUnknown))
    else (codes - {code}, Judge(s256, codes[code], p, now))
  }

  class CodeStore {
    const s256: string -> string
    var codes: Codes

    constructor (s256: string -> string)
      ensures this.s256 == s256 && codes == map[]
    {
      this.s256 := s256;
      codes := map[];
    }

    /** `code` is the fresh random identifier. */
    method Issue(code: string, c: Code, now: Instant)
      modifies this
      ensures codes == IssueSpec(old(codes), code, c, now)
    {
      codes := codes[code := c.(code := code, issuedAt := now, expiresAt := now + AUTH_CODE_TTL)];
      SweepLocked(now);
    }

    method SweepLocked(now: Instant)
      modifies this
      ensures codes == Sweep(old(codes), now)
    {
      var todo := codes.Keys;
      while todo != {}
        invariant todo <= codes.Keys <= old(codes).Keys
        invariant forall k :: k in codes ==> codes[k] == old(codes)[k]
        invariant forall k :: k in old(codes) && k !in todo ==> (k in codes <==> now <= old(codes)[k].expiresAt)
        decreases todo
      {
        var k :| k in todo;
        if now > codes[k].expiresAt {
          codes := codes - {k};
        }
        todo := todo - {k};
      }
    }

    method Consume(code: string, p: Presented, now: Instant) returns (r: Result<Code, ConsumeError>)
      modifies this
      ensures (codes, r) == ConsumeSpec(s256, old(codes), code, p, now)
    {
      if code !in codes {
        return Err(CodeUnknown);
      }
      var c := codes[code];
      codes := codes - {code};  // spent before it is judged
      if now > c.expiresAt {
        return Err(CodeExpired);
      }
      if c.clientID != "" && p.clientID != "" && c.clientID != p.clientID {
        return Err(OtherClient);
      }
      if c.redirectURI != "" && c.redirectURI != p.redirectURI {
        return Err(RedirectMismatch);
      }
      if !VerifyPKCE(s256, c.challenge, p.verifier) {
        return Err(PKCEFailed);
      }
      return Ok(c);
    }
  }

  // ---- runs

  datatype CodeOp =
    | IssueOp(code: string, c: Code, now: Instant)
    | ConsumeOp(code: string, p: Presented, now: Instant)

  /** The store after k operations; with `sweeping` off, the reference store that
      keeps every code until it is consumed. */
  function After(s256: string -> string, sweeping: bool, ops: seq<CodeOp>, k: nat): Codes
    requires k <= |ops|
  {
    if k == 0 then map[]
    else
      var codes := After(s256, sweeping, ops, k - 1);
      match ops[k - 1]
      case IssueOp(code, c, now) =>
        if sweeping then IssueSpec(codes, code, c, now) else codes[code := Stamp(c, code, now)]
      case ConsumeOp(code, p, now) => ConsumeSpec(s256, codes, code, p, now).0
  }

  function Answer(s256: string -> string, sweeping: bool, ops: seq<CodeOp>, k: nat): Result<Code, ConsumeError>
    requires k < |ops| && ops[k].ConsumeOp?
  {
    ConsumeSpec(s256, After(s256, sweeping, ops, k), ops[k].code, ops[k].p, ops[k].now).1
  }

  /** Never issued, spent, expired and issued to another client are one error at
      the protocol boundary. */
  function Class(r: Result<Code, ConsumeError>): Result<Code, ConsumeError> {
    if r.Err? && (r.error.CodeExpired? || r.error.OtherClient?) then Err(CodeUnknown) else r
  }

  ghost predicate Timed(ops: seq<CodeOp>) {
    forall i, j :: 0 <= i < j < |ops| ==> ops[i].now <= ops[j].now
  }

  /** The sweeping store lacks only codes that every later instant finds expired. */
  ghost predicate Hides(swept: Codes, kept: Codes, until: Instant) {
    && (forall c :: c in swept ==> c in kept && swept[c] == kept[c])
    && (forall c :: c in kept && c !in swept ==> kept[c].expiresAt < until)
  }

  lemma {:induction false} SweptAreExpired(s256: string -> string, ops: seq<CodeOp>, k: nat, until: Instant)
    requires Timed(ops) && k <= |ops| && (k > 0 ==> ops[k - 1].now <= until)
    ensures Hides(After(s256, true, ops, k), After(s256, false, ops, k), until)
  {
    if k > 0 {
      var now := ops[k - 1].now;
      assert k > 1 ==> ops[k - 2].now <= now;
      SweptAreExpired(s256, ops, k - 1, now);
    }
  }

  /** Sweeping is invisible: every consume gets the same code or the same class
      of error as from a store that never sweeps. */
  lemma {:induction false} SweepIsInvisible(s256: string -> string, ops: seq<CodeOp>, k: nat)
    requires Timed(ops) && k < |ops| && ops[k].ConsumeOp?
    ensures Class(Answer(s256, true, ops, k)) == Class(Answer(s256, false, ops, k))
  {
    assert k > 0 ==> ops[k - 1].now <= ops[k].now;
    SweptAreExpired(s256, ops, k, ops[k].now);
  }

  /** The first attempt at a code spends it, whether or not it succeeds. */
  lemma {:induction false} AnyAttemptSpends(s256: string -> string, ops: seq<CodeOp>, i: nat, j: nat)
    requires i < j < |ops| && ops[i].ConsumeOp? && ops[j].ConsumeOp? && ops[i].code == ops[j].code
    requires forall m :: i < m < j && ops[m].IssueOp? ==> ops[m].code != ops[i].code
    ensures Answer(s256, true, ops, j) == Err(CodeUnknown)
  {
    StaysAway(s256, ops, ops[i].code, i + 1, j);
  }

  lemma {:induction false} StaysAway(s256: string -> string, ops: seq<CodeOp>, code: string, i: nat, j: nat)
    requires i <= j <= |ops| && code !in After(s256, true, ops, i)
    requires forall m :: i <= m < j && ops[m].IssueOp? ==> ops[m].code != code
    ensures code !in After(s256, true, ops, j)
    decreases j
  {
    if i < j {
      StaysAway(s256, ops, code, i, j - 1);
    }
  }

  /** A code is only ever exchanged for what was issued under it, within a minute
      of being issued, by a caller who knows the verifier and names the redirect
      target of the authorization. */
  lemma {:induction false} SuccessIsBound(s256: string -> string, ops: seq<CodeOp>, j: nat)
    requires j < |ops| && ops[j].ConsumeOp? && Answer(s256, true, ops, j).Ok?
    ensures exists i {:trigger ops[i]} :: 0 <= i < j && ops[i].IssueOp? && ops[i].code == ops[j].code
              && Answer(s256, true, ops, j).value == Stamp(ops[i].c, ops[i].code, ops[i].now)
              && ops[j].now <= ops[i].now + AUTH_CODE_TTL
              && s256(ops[j].p.verifier) == ops[i].c.challenge
              && ops[i].c.redirectURI in {"", ops[j].p.redirectURI}
  {
    var i := IssuerOf(s256, ops, ops[j].code, j);
  }

  lemma {:induction false} IssuerOf(s256: string -> string, ops: seq<CodeOp>, code: string, k: nat) returns (i: nat)
    requires k <= |ops| && code in After(s256, true, ops, k)
    ensures i < k && ops[i].IssueOp? && ops[i].code == code
    ensures After(s256, true, ops, k)[code] == Stamp(ops[i].c, code, ops[i].now)
  {
    if ops[k - 1].IssueOp? && ops[k - 1].code == code {
      i := k - 1;
    } else {
      i := IssuerOf(s256, ops, code, k - 1);
    }
  }

  /** After a code is issued no expired one is left, and no other is dropped. */
  lemma IssueSweeps(codes: Codes, code: string, c: Code, now: Instant)
    ensures forall k :: k in IssueSpec(codes, code, c, now) <==>
              k == code || (k in codes && now <= codes[k].expiresAt)
  {
  }

  // ---- exactly how every attempt is answered

  predicate Names(op: CodeOp, code: string) {
    op.code == code
  }

  /** The code presented by operation j is the one issued by operation i, and nobody
      has presented it in between. */
  ghost predicate Outstanding(ops: seq<CodeOp>, i: nat, j: nat)
    requires j < |ops|
  {
    i < j && ops[i].IssueOp? && ops[i].code == ops[j].code && forall m :: i < m < j ==> !Names(ops[m], ops[j].code)
  }

  /** Some code was issued in between after this one had expired. */
  ghost predicate SweptBefore(ops: seq<CodeOp>, i: nat, j: nat)
    requires i < j <= |ops|
  {
    exists m :: i < m < j && ops[m].IssueOp? && ops[i].now + AUTH_CODE_TTL < ops[m].now
  }

  ghost predicate ClientFits(c: Code, p: Presented) {
    c.clientID == "" || p.clientID == "" || c.clientID == p.clientID
  }

  ghost predicate RedirectFits(c: Code, p: Presented) {
    c.redirectURI == "" || c.redirectURI == p.redirectURI
  }

  ghost predicate VerifierFits(s256: string -> string, c: Code, p: Presented) {
    c.challenge != "" && 43 <= |p.verifier| <= 128 && s256(p.verifier) == c.challenge
  }

  lemma {:induction false} StillThere(s256: string -> string, ops: seq<CodeOp>, i: nat, j: nat, code: string)
    requires i < j <= |ops| && ops[i].IssueOp? && ops[i].code == code
    requires forall m :: i < m < j ==> !Names(ops[m], code)
    ensures var codes := After(s256, true, ops, j);
            if SweptBefore(ops, i, j) then code !in codes
            else
              code in codes && codes[code] == ops[i].c.(code := code, issuedAt := ops[i].now,
                                                       expiresAt := ops[i].now + AUTH_CODE_TTL)
    decreases j
  {
    if i + 1 < j {
      StillThere(s256, ops, i, j - 1, code);
      assert !Names(ops[j - 1], code);
    }
  }

  lemma {:induction false} NotThere(s256: string -> string, ops: seq<CodeOp>, j: nat, code: string)
    requires j <= |ops|
    requires forall i :: 0 <= i < j && ops[i].IssueOp? && Names(ops[i], code) ==>
               exists m :: i < m < j && Names(ops[m], code)
    ensures code !in After(s256, true, ops, j)
  {
    if j > 0 {
      if Names(ops[j - 1], code) {
        assert ops[j - 1].ConsumeOp?;
      } else {
        forall i | 0 <= i < j - 1 && ops[i].IssueOp? && Names(ops[i], code)
          ensures exists m :: i < m < j - 1 && Names(ops[m], code)
        {
          var m :| i < m < j && Names(ops[m], code);
          assert m < j - 1;
        }
        NotThere(s256, ops, j - 1, code);
      }
    }
  }

  /** In every run: an attempt at a code nobody holds finds nothing. An attempt at an
      outstanding one succeeds exactly within its minute, by a client it may be
      given to, with the redirect target and the verifier of the authorization, and
      yields what was issued; and each error has its exact condition. */
  lemma {:induction false} ConsumeExactly(s256: string -> string, ops: seq<CodeOp>, i: nat, j: nat)
    requires Timed(ops) && j < |ops| && ops[j].ConsumeOp? && Outstanding(ops, i, j)
    ensures var r, c, p := Answer(s256, true, ops, j), ops[i].c, ops[j].p;
            var inTime := ops[j].now <= ops[i].now + AUTH_CODE_TTL;
            && (r.Ok? <==> inTime && ClientFits(c, p) && RedirectFits(c, p) && VerifierFits(s256, c, p))
            && (r == Err(PKCEFailed) <==> inTime && ClientFits(c, p) && RedirectFits(c, p) && !VerifierFits(s256, c, p))
            && (r == Err(RedirectMismatch) <==> inTime && ClientFits(c, p) && !RedirectFits(c, p))
            && (r == Err(OtherClient) <==> inTime && !ClientFits(c, p))
            && (r == Err(CodeExpired) <==> !inTime && !SweptBefore(ops, i, j))
            && (r == Err(CodeUnknown) <==> SweptBefore(ops, i, j))
            && (r.Ok? ==> r.value == c.(code := ops[j].code, issuedAt := ops[i].now,
                                        expiresAt := ops[i].now + AUTH_CODE_TTL))
  {
    StillThere(s256, ops, i, j, ops[j].code);
    if SweptBefore(ops, i, j) {
      var m :| i < m < j && ops[m].IssueOp? && ops[i].now + AUTH_CODE_TTL < ops[m].now;
      assert ops[m].now <= ops[j].now;
    }
  }

  lemma {:induction false} NobodyHolds(s256: string -> string, ops: seq<CodeOp>, j: nat)
    requires j < |ops| && ops[j].ConsumeOp? && forall i: nat :: !Outstanding(ops, i, j)
    ensures Answer(s256, true, ops, j) == Err(CodeUnknown)
  {
    forall i | 0 <= i < j && ops[i].IssueOp? && Names(ops[i], ops[j].code)
      ensures exists m :: i < m < j && Names(ops[m], ops[j].code)
    {
      assert !Outstanding(ops, i, j);
    }
    NotThere(s256, ops, j, ops[j].code);
  }
}
