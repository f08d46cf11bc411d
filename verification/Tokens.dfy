/** Access tokens and the denylist: `internal/auth/token.go`, `denylist.go`,
    `verifier.go`. A signature is modelled by the set of claims this server's
    issuer has signed; a bearer string is its text together with the claims it
    decodes to, if it has the shape of a token at all. */
module Tokens {
  import opened Base

  const ACCESS_TOKEN_TTL := 10 * MINUTE

  /** `expires` and `issuedAt` are whole Unix seconds. */
  datatype Claims = Claims(
    issuer: string,
    subject: string,
    audience: string,
    sid: string,
    scopes: seq<string>,
    expires: int,
    issuedAt: int,
    jti: string,
    name: string)
  {
    function ExpiresAt(): Instant {
      expires * SECOND
    }
  }

  datatype Config = Config(issuer: string, audience: string)

  datatype Bearer = Bearer(text: string, decoded: Option<Claims>)

  datatype TokenError = Malformed | BadSignature | WrongAudience | WrongIssuer | Expired

  function Mint(cfg: Config, sid: string, name: string, scopes: seq<string>, jti: string, now: Instant): Claims {
    Claims(cfg.issuer, sid, cfg.audience, sid, scopes, (now + ACCESS_TOKEN_TTL) / SECOND, now / SECOND, jti, name)
  }

  function Verify(cfg: Config, signed: set<Claims>, b: Bearer, now: Instant): Result<Claims, TokenError> {
    if b.decoded.None? then Err(Malformed)
    else
      var c := b.decoded.value;
      if c !in signed then Err(BadSignature)
      else if c.audience != cfg.audience then Err(WrongAudience)
      else if c.issuer != cfg.issuer then Err(WrongIssuer)
      else if c.expires == 0 then Err(Malformed)
      else if now > c.ExpiresAt() then Err(Expired)
      else if c.sid == "" then Err(Malformed)
      else Ok(c)
  }

  /** Truncation to whole seconds loses less than one second of the lifetime and
      never adds to it; within that lifetime, and at no later instant, the token
      of a named session verifies. */
  lemma MintThenVerify(cfg: Config, signed: set<Claims>, sid: string, name: string, scopes: seq<string>,
                       jti: string, minted: Instant, text: string, now: Instant)
    requires sid != "" && 0 < minted
    ensures var c := Mint(cfg, sid, name, scopes, jti, minted);
            && minted + ACCESS_TOKEN_TTL - SECOND < c.ExpiresAt() <= minted + ACCESS_TOKEN_TTL
            && (Verify(cfg, signed + {c}, Bearer(text, Some(c)), now) == Ok(c) <==> now <= c.ExpiresAt())
  {
  }

  /** What a token carries, claim by claim; times are cut to whole seconds. */
  lemma MintedClaims(cfg: Config, sid: string, name: string, scopes: seq<string>, jti: string, now: Instant)
    ensures var c := Mint(cfg, sid, name, scopes, jti, now);
            && c.issuer == cfg.issuer && c.audience == cfg.audience && c.subject == sid && c.sid == sid
            && c.scopes == scopes && c.name == name && c.jti == jti
            && c.issuedAt * SECOND <= now < (c.issuedAt + 1) * SECOND
            && c.expires * SECOND <= now + ACCESS_TOKEN_TTL < (c.expires + 1) * SECOND
  {
  }

  /** A bearer text verifies exactly if it decodes to claims that this issuer signed,
      for this issuer and this resource, of a named session, with an expiry, and not
      later than that. */
  lemma VerifyExactly(cfg: Config, signed: set<Claims>, b: Bearer, now: Instant, c: Claims)
    ensures Verify(cfg, signed, b, now) == Ok(c) <==>
              && b.decoded == Some(c) && c in signed
              && c.audience == cfg.audience && c.issuer == cfg.issuer
              && c.sid != "" && c.expires != 0 && now <= c.expires * SECOND
  {
  }

  // ---- the denylist

  type Denied = map<string, Instant>

  function DenySpec(revoked: Denied, sid: string, now: Instant): Denied {
    if sid == "" then revoked else revoked[sid := now + ACCESS_TOKEN_TTL]
  }

  function DeniedSpec(revoked: Denied, sid: string, now: Instant): (Denied, bool) {
    if sid == "" || sid !in revoked then (revoked, false)
    else if now > revoked[sid] then (revoked - {sid}, false)
    else (revoked, true)
  }

  class Denylist {
    var revoked: Denied

    constructor ()
      ensures revoked == map[]
    {
      revoked := map[];
    }

    method Add(sid: string, now: Instant)
      modifies this
      ensures revoked == DenySpec(old(revoked), sid, now)
    {
      if sid == "" {
        return;
      }
      revoked := revoked[sid := now + ACCESS_TOKEN_TTL];
    }

    method Denies(sid: string, now: Instant) returns (denied: bool)
      modifies this
      ensures (revoked, denied) == DeniedSpec(old(revoked), sid, now)
    {
      if sid == "" || sid !in revoked {
        return false;
      }
      var until := revoked[sid];
      if now > until {
        Drop(sid);
        return false;
      }
      return true;
    }

    /** The deletion under the write lock, which does not look at the entry again;
        module Overlap lets anything happen before it. */
    method Drop(sid: string)
      modifies this
      ensures revoked == old(revoked) - {sid}
    {
      revoked := revoked - {sid};
    }
  }
}
