# Verified model of the WHOIS MCP server

This project models the parts of the server whose correctness is a matter of whole
runs rather than of single calls, and proves what they keep:

- **Sessions, refresh-token families, revocation** (`Sessions`, `Families`, `AuthCodes`,
  `Tokens`, `AuthServer`, `Revocation`, `Interleaving`, `ServerRuns`, `Provenance`, `Overlap`,
  `LateTokens`). Four stores,
  the handlers of the authorization server as steps over them, and time. What every issued token carries and who may
  exchange a code is traced back to the enrollment. It is stated exactly when a bearer check still accepts a token of a session that was revoked and denylisted; a family of
  refresh tokens is one chain with at most one live token at its end, under any interleaving of
  store calls. `Overlap` takes the token handlers and the bearer check apart and lets anything
  happen between their parts.
- **Enrollment lockout** (`Enrollment`, `OverlappingGuesses`). How many wrong guesses fit into a
  span of time, and what becomes of that when calls overlap.
- **Upstream policy** (`Breaker`, `Limiter`, `Guard`, `GuardOverlap`). The circuit breaker with
  overlapping calls and late reports, the limiter's pauses, and the guard that composes the two,
  for one call and for many that overlap.
- **Indexes that must agree with a plain scan** (`NetRegistry`, `Cache`, `Availability`).
- **WHOIS assembly and referrals** (`WhoisParse`, `WhoisLines`, `WhoisClient`).

Where the program changes state, the model is a class with the same fields and methods; each
method is proved equal to a function on the state (the functions named `...Spec`), and the
properties of whole runs are lemmas about those functions. What each operation means is stated a second
time without them, over the requests or operations of a run (the lemmas named `...Exactly` among
others). `Base` holds shared types, `Text` the
string operations. Time is an integer number of nanoseconds; every clock reading is a parameter,
so a handler that reads the clock twice has two. Random identifiers are parameters too; an empty one
stands for the generator failing. Runs assume only that the clock never goes back and that random
identifiers never repeat.

## What the proofs found

- **A bearer check reads the clock twice**, once for the token and once for the denylist
  (`internal/auth/verifier.go:56-60`). It accepts a token of a denylisted session exactly when the
  first reading finds the token valid and the second is more than one token lifetime after the
  session was last denylisted (`Revocation.NeverAcceptedAgain`); the two readings then straddle the
  token's expiry. `Revocation.StraddlingCheckPasses` shows every such pair of readings accepted.
  With one reading there is no gap, although a token's expiry is truncated to whole seconds and a
  denylist entry's is not.
- **A spent refresh token sent to the revocation endpoint** revokes its session but makes no
  denylist entry (`internal/auth/oauthsrv.go:564-568`), and it is the only request that does so
  (`Revocation.RevokedWithoutEntry`). Access tokens then live out their ten minutes
  (`Revocation.SpentTokenKeepsAccess`, `ServerRuns.SpentTokenLeavesAccess`) and no longer
  (`Revocation.DeadWithinOneLifetime`).
- **A refresh under way when its session is denylisted** still mints, and that token outlives the
  entry by at most the time the refresh took (`Overlap.LateTokensOnly`); the bound is met
  (`LateTokens.LateTokenPasses`). This is the exact guard: after a session is first denylisted, an
  unexpired token of it can still be let through if and only if a refresh of the session is under
  way at that instant (`LateTokens.LeaksIffUnderWay`). A code exchange under way hands out nothing
  (`Overlap.NoneIssuedOnceRevoked`).
- **The denylist deletes a lapsed entry without looking again.** If the session is revoked a second
  time just before, the deletion takes the new entry with it: a late token is then let through at
  the very instant of the second revocation (`LateTokens.LostRelisting`,
  `LateTokens.SecondRevocationUndone`). `Overlap.PassesExactly` says for every run when a look into
  the denylist lets a token through: no entry was ever made, the last one has lapsed, or it was
  deleted in this way.
- **Two error exits of `Rotate` are unreachable**: an unknown session and a revoked session behind
  an unspent token (`Families.RotateExits`).
- **`Retry-After`** is said to be honoured exactly; it is cut at 15 minutes, and from
  9 223 372 037 seconds on the 64-bit product with a second wraps, so that the request may be
  dropped altogether (`Limiter.SecondsHonoured`, `Limiter.WrappedSecondsAreDropped`). The comment
  also says a date in the past yields no instruction; the code yields a pause of zero
  (`Limiter.PastDatesPauseForNothing`). The model follows the code.
- **Lockout**: the comment on the base duration speaks of hours per attempt; the ceiling is 15
  minutes. As long as calls of one source do not overlap, it can have sixteen wrong guesses evaluated
  in an hour and no more (`Enrollment.FastestAreEvaluated`, `OverlappingGuesses.SixteenWithoutOverlap`).
  The digests are compared outside the lock (`internal/auth/enrollment.go:154-163`), so calls admitted
  together are all evaluated: any number at one instant (`OverlappingGuesses.AnyNumberAtOnce`), and
  twenty in 3040 seconds with only two in flight (`OverlappingGuesses.TwentyWithTwoInFlight`).
- **A call refused by the limiter is released as a success.** It cannot open the circuit, but it closes
  one that other calls have just opened, a whole cooldown early (`GuardOverlap.RefusalCloses`,
  `GuardOverlap.RefusalUndoesOpening`).
- **Impatient callers keep the circuit closed**: a server error makes a pause, a call that does not wait
  for its end is refused, and its release as a success clears the failure count
  (`Guard.ImpatienceClearsTheCount`); server errors open the circuit only for callers that wait
  (`Guard.UnhealthyRunOpens`).
- **Template labels mapped to ""** are documented as dropped without counting as unknown; they count
  in every response, unless they look like prose (`WhoisParse.DroppedLabelsCountAsUnknown`).
- **The half-open guarantee needs calls shorter than the cooldown**, and this bound is sharp for
  all settings (`Breaker.SlowCallSharesHalfOpen`).
- **The back-scan of four** can miss a range once five nest (`NetRegistry.FifthIsMissed`); it finds one
  exactly when a covering range is among the four nearest (`NetRegistry.HitIffAmongFour`).
- **"WHOIS returned no data"** is a warning no lookup ever gives (`WhoisClient.Query`).

## Model

| member | source | states |
|---|---|---|
| Sessions.MemoryStore.Create | internal/auth/session.go:142-154 | refuses an empty or taken id, otherwise stores the session and nothing else changes |
| Sessions.MemoryStore.IssueRefresh | internal/auth/session.go:157-176 | the four refusals in order; otherwise a record expiring with the session, which is marked as seen |
| Sessions.MemoryStore.Get | internal/auth/session.go:179-188 | the stored session or that there is none |
| Sessions.MemoryStore.Rotate | internal/auth/session.go:210-249 | new state and result on all six exits: reuse revokes the session and spends its whole family, success links old to new and slides the window |
| Sessions.MemoryStore.Revoke | internal/auth/session.go:252-263 | revokes the session and spends its family, or reports there is none |
| Sessions.MemoryStore.RevokeFamily | internal/auth/session.go:267-275 | the loop, in any map order, spends exactly the unspent records of one session and leaves the others alone |
| Sessions.MemoryStore.Touch | internal/auth/session.go:278-287 | changes when the session was last seen and not its expiry |
| Families.StepKeepsSound | internal/auth/session.go:142-287 | every store call keeps: tokens belong to stored sessions, a revoked session has no unspent token; spent stays spent, revoked stays revoked, nothing is deleted |
| Families.RunKeepsSound | internal/auth/session.go:142-287 | the same between any two points of any run |
| Families.ExchangedAtMostOnce | internal/auth/session.go:203-249 | a refresh token is exchanged at most once; a later use is reported as reuse, and from then on its session is revoked and every token of the family refused as reuse |
| Families.RotateExits | internal/auth/session.go:214-234 | over all runs Rotate answers by what was issued, spent and timely alone; its other two exits are unreachable |
| AuthCodes.CodeStore.Issue | internal/auth/authcode.go:72-87 | stamps the code with a minute to live, stores it, drops expired codes |
| AuthCodes.CodeStore.SweepLocked | internal/auth/authcode.go:125-131 | the loop keeps exactly the codes that have not expired |
| AuthCodes.CodeStore.Consume | internal/auth/authcode.go:94-121 | removes the code first, then judges expiry, client, redirect target and PKCE in that order |
| AuthCodes.SweepIsInvisible | internal/auth/authcode.go:72-131 | with a clock that never goes back every consume gets the code or error class that a store which never sweeps would give |
| AuthCodes.AnyAttemptSpends | internal/auth/authcode.go:94-101 | after any attempt at a code, failed or not, every later attempt finds it unknown |
| AuthCodes.SuccessIsBound | internal/auth/authcode.go:94-121 | a success yields what was issued under that code at most a minute before, to a caller with the matching verifier and redirect target |
| AuthCodes.ConsumeExactly | internal/auth/authcode.go:94-121 | over all timed runs, for a code issued and not presented since: success if and only if within its minute, by a client it may be given to, with its redirect target and verifier; every error if and only if its own condition; and the value is what was issued |
| AuthCodes.NobodyHolds | internal/auth/authcode.go:102-107 | any other attempt finds nothing |
| AuthCodes.IssueSweeps | internal/auth/authcode.go:79-87 | after a code is issued no expired one is left and no other is dropped |
| Tokens.MintThenVerify | internal/auth/token.go:106-214 | truncation loses less than a second of the lifetime and adds none; the token verifies up to its expiry instant and no later |
| Tokens.MintedClaims | internal/auth/token.go:106-129 | what a token carries, claim by claim, with both times in whole seconds |
| Tokens.VerifyExactly | internal/auth/token.go:151-214 | a text verifies if and only if it decodes to signed claims for this issuer and resource, of a named session, not later than their expiry |
| Tokens.Denylist.Add | internal/auth/denylist.go:43-50 | an entry for one access-token lifetime; no entry for an empty id |
| Tokens.Denylist.Denies | internal/auth/denylist.go:53-70 | uninterrupted: denied exactly while an entry has not lapsed, and a lapsed entry is removed; interrupted before the deletion it is part of Overlap |
| AuthServer.Server.AuthorizePOST | internal/auth/oauthsrv.go:303-324 | a session and one code for it, or nothing; if no code can be generated the session stays without one |
| AuthServer.Server.TokenFromCode | internal/auth/oauthsrv.go:411-478 | all refusals in order, the code spent in every one but the first; a failure to mint or to generate the refresh token issues nothing; otherwise an access token and the first refresh token |
| AuthServer.Server.TokenFromRefresh | internal/auth/oauthsrv.go:480-528 | rotation and a new access token, or refusal; on reuse the session is denylisted; if minting fails the rotation stands and nothing is issued |
| AuthServer.Server.HandleRevoke | internal/auth/oauthsrv.go:537-571 | revokes by valid access token, else by rotating the refresh token away; always the same answer |
| AuthServer.Server.RevokeSession | internal/auth/oauthsrv.go:573-585 | revokes and denylists, or does nothing if there is no such session |
| AuthServer.Server.SessionRevoke | internal/mcpsrv/tools_m2.go:171-202 | the admin tool: revokes and denylists a named session |
| AuthServer.Server.CheckBearer | internal/auth/verifier.go:54-76 | accepts exactly a token that verifies and whose session is not denied |
| Provenance.TokensCarryTheirGrant | internal/auth/oauthsrv.go:411-528 | over all server runs: every token handed out carries the scopes and the name of the earlier request that enrolled its session, is for this issuer and resource, and has the identifier and times of its own minting |
| Provenance.ExchangeIsBound | internal/auth/oauthsrv.go:303-463 | over all server runs: a code yields tokens only for the session, the client, the redirect target and the verifier of the authorization that issued it, within its minute and for this resource |
| Provenance.AnswersExactly | internal/auth/oauthsrv.go:411-528 | a token request is answered with tokens if and only if the state written out here holds |
| Provenance.OtherAnswersExactly | internal/auth/oauthsrv.go:265-585 | all other requests: when they succeed, and that nothing else is answered |
| Provenance.EnrolledBy | internal/auth/session.go:142-287 | every session keeps the name, scopes, client and creation time of the request that created it |
| Provenance.StepDates | internal/auth/session.go:157-287 | a session is marked as seen by exactly the requests that create, renew or first exchange it, and a revocation is dated by its request |
| Provenance.SlashesTrimmed | internal/auth/oauthsrv.go:657-659 | resources are compared without the slashes at their end, and nothing else is left out |
| Revocation.HandleStep | internal/auth/oauthsrv.go:265-585 | every handler keeps that no token and no denylist entry reaches further than one lifetime ahead, mints for unrevoked sessions only, and neither shortens an unexpired entry nor un-revokes anything |
| Revocation.DenylistingBans | internal/auth/oauthsrv.go:498-506 | after replay of a spent refresh token, a revocation by token, or the admin tool, every token of that session is covered by an entry that outlives it or has expired |
| Revocation.EntryStep | internal/auth/denylist.go:43-70 | the entry of a session is made anew by exactly the requests that denylist it, otherwise kept, or dropped once it has lapsed |
| Revocation.NeverAcceptedAgain | internal/auth/denylist.go:43-70 | the revocation theorem, over all runs: from then on a bearer check accepts a token of the session if and only if its first clock reading finds the token valid and its second is more than one lifetime after the last denylisting, which makes the two straddle the expiry; and no token is issued for the session |
| Revocation.StraddlingCheckPasses | internal/auth/verifier.go:54-62 | the exception is reached for every token: right after the admin tool revoked its session a check accepts it for exactly the readings that straddle its expiry and the lapse of the entry |
| Revocation.RevokedWithoutEntry | internal/auth/oauthsrv.go:559-570 | a step revokes a session if and only if it denylists it, which bans it, or a spent refresh token of it is sent to the revocation endpoint, which leaves the denylist as it was; never both |
| Revocation.SpentTokenKeepsAccess | internal/auth/oauthsrv.go:559-570 | after a spent refresh token was sent to the revocation endpoint, and until something denylists the session, bearer checks accept exactly the tokens of it that verify, among them all unexpired ones from before |
| Revocation.DeadWithinOneLifetime | internal/auth/token.go:204-206 | however it was revoked, one access-token lifetime later every token of the session is refused |
| Revocation.NothingMintedSince | internal/auth/oauthsrv.go:434-443 | in any run after a revocation no token of that session is minted |
| Interleaving.FamiliesAreChains | internal/auth/session.go:157-249 | under any interleaving of store calls a session's tokens form one chain without repetition linked by their replacements, one longer than the rotation count once the code is exchanged, unspent at most at its end |
| Interleaving.OneLiveToken | internal/auth/session.go:210-275 | at most one unspent token per session; it has no successor, expires exactly with the session, and a revoked session has none |
| Interleaving.StepKeepsSingleUse | internal/auth/oauthsrv.go:465-478 | single-use codes give every session at most one first refresh token, at every point of every interleaving |
| Interleaving.StepKeepsLinked | internal/auth/session.go:142-287 | every store call keeps the chain of every session |
| Interleaving.WindowSlides | internal/auth/session.go:240-243 | every session expires exactly one refresh lifetime after it was created or last rotated |
| Interleaving.ExpiryNeverShrinks | internal/auth/session.go:278-287 | no call, Touch included, moves a session's expiry back |
| Interleaving.ClosedForGood | internal/auth/session.go:232-234 | once the clock passes a session's expiry no rotation succeeds for it again and the expiry never moves |
| ServerRuns.HandlerIsItsCalls | internal/auth/oauthsrv.go:265-585 | each handler run without interruption is a legal series of the single store calls above, with the same effect |
| ServerRuns.RunIsAnInterleaving | internal/auth/oauthsrv.go:265-585 | every run of the server is therefore one of those interleavings, its calls in the order of time and none after the clock of the run |
| ServerRuns.FamiliesInServerRuns | internal/auth/session.go:157-249 | in every state of every server run families are chains and a live token expires with its session |
| ServerRuns.ClosedSessionIssuesNothing | internal/auth/oauthsrv.go:434-443 | once the clock passes a session's expiry the server issues nothing for it again |
| ServerRuns.WindowInServerRuns | internal/auth/session.go:240-243 | in every server run a session expires exactly one refresh lifetime after the last request that created it or exchanged a refresh token of it |
| ServerRuns.ExpiryNeverShrinks | internal/auth/session.go:240-243 | in every server run no request moves a session's expiry back |
| ServerRuns.ReplayEndsTheSession | internal/auth/oauthsrv.go:411-528 | a concrete run (enroll, exchange, refresh, replay) meets every assumption made on runs: two tokens issued, the replay refused, the session revoked and denylisted, the family a chain of two |
| ServerRuns.SpentTokenLeavesAccess | internal/auth/oauthsrv.go:559-570 | a concrete run from start-up in which the spent token is revoked instead: the denylist is empty and the last access token is accepted for exactly its lifetime |
| Overlap.LateTokensOnly | internal/auth/oauthsrv.go:497-516 | with refreshes and checks taken apart and anything in between: after a session is first denylisted a check accepts a token of it only more than one lifetime later and only if the token was valid when verified; the token has expired by then, or was minted by a refresh already under way and outlives the entry by at most the time that refresh still took |
| Overlap.PassesExactly | internal/auth/denylist.go:53-70 | over all runs: a look into the denylist lets a verified token through if and only if its session was never listed, was last listed more than one lifetime before, or that entry was deleted since by a check that had found an older one lapsed |
| LateTokens.LateTokenPasses | internal/auth/oauthsrv.go:497-516 | the bound on late tokens is met: a run for every delay, accepted for exactly the readings before the token's expiry and after the lapse of the entry |
| LateTokens.UnderWayOutlives | internal/auth/oauthsrv.go:497-516 | from any state with a refresh of a listed session under way: the token it mints is let through for exactly the readings before its expiry and after the lapse of the entry |
| LateTokens.LeaksIffUnderWay | internal/auth/oauthsrv.go:497-516 | after the operation that first denylists a session, some continuation lets an unexpired token of it through if and only if a refresh of the session is under way |
| LateTokens.LostRelisting | internal/auth/denylist.go:62-67 | a check about to delete a lapsed entry deletes the one made by a second revocation, and every unexpired token of the session is then let through |
| LateTokens.SecondRevocationUndone | internal/auth/denylist.go:62-67 | a run from start-up in which this happens, all at one instant |
| Overlap.NoneIssuedOnceRevoked | internal/auth/oauthsrv.go:434-478 | with the code exchange taken apart, no response hands out a token for a session revoked at any time before |
| Overlap.ExchangeIsItsParts | internal/auth/oauthsrv.go:411-478 | the parts of an exchange, uninterrupted, are the handler, up to a token signed and never handed out |
| Overlap.RefreshIsItsHalves | internal/auth/oauthsrv.go:486-516 | the two halves of a refresh, uninterrupted, are the handler |
| Overlap.CheckIsItsParts | internal/auth/verifier.go:54-62 | the parts of a bearer check, uninterrupted, are the check, with the same answer |
| Enrollment.Enrollment.Verify | internal/auth/enrollment.go:130-186 | uninterrupted: verdict and new state for the source, other sources untouched: forgetting first, then lockout, then the comparison |
| Enrollment.ForgettingIsHarmless | internal/auth/enrollment.go:141-145 | whenever stale failures are forgotten, any lockout they caused is already over |
| Enrollment.FailuresAreCounted | internal/auth/enrollment.go:140-171 | over all runs the failure count is that of the wrong guesses since the last success, begun anew after every gap longer than the window |
| Enrollment.VerdictExactly | internal/auth/enrollment.go:139-185 | every attempt of every timed run: refused if and only if five or more guesses count and the backoff after the last is not over, with the time that remains; else the secret decides |
| Enrollment.ForgottenAfterGap | internal/auth/enrollment.go:140-144 | after such a gap the right secret is accepted and a wrong one is the first to count |
| Enrollment.BackoffExactly | internal/auth/enrollment.go:173-179 | the backoff is min(2 s * 2^(n-5), 15 min) for every count from five |
| Enrollment.LockoutHolds | internal/auth/enrollment.go:146-153 | for calls of one source that do not overlap: until a lockout ends every attempt, right or wrong, is refused with the time that remains and changes nothing |
| Enrollment.GuessesTakeTime | internal/auth/enrollment.go:171-179 | for calls of one source that do not overlap: k wrong guesses with no success and no gap over the window span at least the sum of the k-1 backoffs between them |
| Enrollment.SeventeenTakeOverAnHour | internal/auth/enrollment.go:40-56 | for sixteen guesses that sum is 2822 s, for seventeen 3722 s |
| Enrollment.FastestAreEvaluated | internal/auth/enrollment.go:146-179 | that bound is sharp for every k: guesses made the instant each lockout ends are all evaluated and span exactly the sum |
| Enrollment.SixteenAnHour | internal/auth/enrollment.go:40-56 | for calls of one source that do not overlap: any hour without a success evaluates at most sixteen wrong guesses |
| OverlappingGuesses.SixteenWithoutOverlap | internal/auth/enrollment.go:130-186 | with admission and outcome of a call as separate steps: if calls do not overlap, operations that end calls admitted within one hour, none accepted, evaluate at most sixteen wrong guesses |
| OverlappingGuesses.CallsAgree | internal/auth/enrollment.go:130-186 | without overlap the separate steps are the attempts taken as one step each |
| OverlappingGuesses.AnyNumberAtOnce | internal/auth/enrollment.go:154-163 | for every n, n calls admitted at one instant all get a wrong guess evaluated |
| OverlappingGuesses.TwentyWithTwoInFlight | internal/auth/enrollment.go:154-163 | a run with never more than two calls in flight evaluates twenty wrong guesses in 3040 s |
| Breaker.Breaker.Allow | internal/ratelimit/breaker.go:112-145 | admission, state change and told waiting time in each of the three states |
| Breaker.Permit.Release | internal/ratelimit/breaker.go:147-152 | the outcome counts the first time only |
| Breaker.Breaker.Record | internal/ratelimit/breaker.go:154-188 | the host's new state after a success or failure in each state |
| Breaker.Breaker.CurrentState | internal/ratelimit/breaker.go:191-205 | half-open as soon as the cooldown is over |
| Breaker.Breaker.OpenHosts | internal/ratelimit/breaker.go:209-220 | exactly the hosts refusing traffic, each once |
| Breaker.ReportMatchesNextCall | internal/ratelimit/breaker.go:191-205 | a host is reported open exactly when the next call is refused for the cooldown |
| Breaker.HalfOpenIsExclusive | internal/ratelimit/breaker.go:112-188 | if every admitted call reports within less than the cooldown, a half-open host has at most one call out and the probe flag says exactly whether there is one, for any callers and outcomes |
| Breaker.SlowCallSharesHalfOpen | internal/ratelimit/breaker.go:112-188 | for all settings: as soon as calls may take one whole cooldown, there is a run with two calls out while half-open |
| Breaker.FailuresAreTrailing | internal/ratelimit/breaker.go:154-188 | the failure count is the length of the run of failures the history ends in; a closed host is below the threshold |
| Breaker.WhyItOpened | internal/ratelimit/breaker.go:180-187 | a host opens only on a failure that fills the threshold or comes while half-open, and then for one cooldown |
| Breaker.FailureReported | internal/ratelimit/breaker.go:180-187 | in any state, open included: a counted failure that fills the threshold, or comes while half-open, leaves the host open for one cooldown from then; any other leaves state and cooldown alone |
| Breaker.SuccessReported | internal/ratelimit/breaker.go:165-178 | in any state: what a counted success does |
| Breaker.OpenUntilLastTrip | internal/ratelimit/breaker.go:180-187 | in every state an open host stays so until one cooldown after the last such failure |
| Breaker.WhyItClosed | internal/ratelimit/breaker.go:165-175 | a half-open host closes only after exactly `probes` successes in a row since it was open |
| Breaker.NothingAdmittedWhileOpen | internal/ratelimit/breaker.go:124-134 | after opening nothing is admitted before the cooldown ends unless an earlier call reports success |
| Limiter.Limiter.Acquire | internal/ratelimit/ratelimit.go:114-124 | throttled exactly while a pause is ahead, a lapsed pause is dropped, other hosts untouched |
| Limiter.AcquireExactly | internal/ratelimit/ratelimit.go:114-153 | a call is throttled if and only if a pause is reported, and told its end; else the bucket decides |
| Limiter.Limiter.Observe | internal/ratelimit/ratelimit.go:167-195 | failure count and pause of the host after any outcome, other hosts untouched |
| Limiter.Limiter.PausedUntil | internal/ratelimit/ratelimit.go:205-213 | the pause, if it is still ahead |
| Limiter.BackoffRange | internal/ratelimit/ratelimit.go:227-237 | the delay is in 1 ns to min(500 ms * 2^(f-1), 60 s) for every count, and every value of that range is drawn |
| Limiter.PauseIsBounded | internal/ratelimit/ratelimit.go:271-281 | whatever the header, a pause is between nothing and 15 minutes, wrapped products included |
| Limiter.SecondsHonoured | internal/ratelimit/ratelimit.go:249-254 | seconds are honoured up to the cap if and only if there are at most 9 223 372 036 of them or the product with a second is, modulo 2^64, between the cap and 2^63 |
| Limiter.WrappedSecondsAreDropped | internal/ratelimit/ratelimit.go:249-254 | seconds make no pause if and only if the product with a second is, modulo 2^64, zero or at least 2^63; the least positive number of them is 9 223 372 037 |
| Limiter.PastDatesPauseForNothing | internal/ratelimit/ratelimit.go:255-262 | a date makes a pause of zero if and only if it is not ahead; it is never taken for a missing instruction |
| Limiter.FutureDatesPauseUntilThen | internal/ratelimit/ratelimit.go:255-262 | a date that is ahead makes a pause until then, cut at 15 minutes |
| Limiter.PauseIsDecided | internal/ratelimit/ratelimit.go:114-195 | after any history a host's pause is what its last outcome with a status says, and nothing else |
| Limiter.PauseEndsInTime | internal/ratelimit/ratelimit.go:267-281 | every pause ends within 15 minutes of the outcome that set it |
| Guard.Guard.Do | internal/ratelimit/guard.go:44-75 | uninterrupted: breaker, limiter, call, observation and release in that order, with the state and result of every exit |
| Guard.DoReportsOnce | internal/ratelimit/guard.go:44-75 | an admitted call is one admission and one report and leaves none outstanding; a refused one is neither |
| Guard.LimiterRefusalIsHarmless | internal/ratelimit/guard.go:59-65 | a refusal by the limiter leaves no failure on record and never opens the breaker |
| GuardOverlap.Projects | internal/ratelimit/guard.go:44-75 | with the parts of many guarded calls interleaved in any order, what the breaker sees is one of its runs with the calls on their way outstanding; every report counts, once, for a call it admitted |
| GuardOverlap.OneProbeAtATime | internal/ratelimit/guard.go:44-75 | if every guarded call is released in less than the cooldown, a half-open host has at most one on its way and the probe flag says whether |
| GuardOverlap.DoIsItsParts | internal/ratelimit/guard.go:44-75 | the parts of a guarded call, uninterrupted, are the call, with the same state and result |
| GuardOverlap.RefusalCloses | internal/ratelimit/guard.go:59-65 | the release of a refused call closes an open circuit at once, so that the next call is admitted; a half-open one it closes exactly when it makes up the number of probes |
| GuardOverlap.RefusalUndoesOpening | internal/ratelimit/guard.go:59-65 | for all settings, a run in which the threshold is filled, the circuit opens, a refused call is released and the next call is admitted a whole cooldown early |
| Guard.FailuresReachTheUpstream | internal/ratelimit/ratelimit.go:174-186 | below the threshold transport failures pause nothing and are each counted, so the next call still goes out |
| Guard.FailuresOpenTheCircuit | internal/ratelimit/guard.go:44-93 | as many transport failures as the threshold all reach the upstream, the last opens the circuit, and the next call within the cooldown is refused without running |
| Guard.FailureExactly | internal/ratelimit/guard.go:82-93 | a call that ran counts as a failure if and only if it had an error without a status, 429, or 500 and above; then the count grows by one, and otherwise it is cleared |
| Guard.UnhealthyRunOpens | internal/ratelimit/guard.go:44-93 | any such failures in a row open the circuit when they fill the threshold, as long as each call waits for the pause before it |
| Guard.ImpatienceClearsTheCount | internal/ratelimit/guard.go:59-65 | after a server error or 429 a call that does not wait for the pause is refused and clears the count |
| NetRegistry.NetRegistry.LookupIP | internal/rdapx/netregistry.go:229-258 | the bases of the first covering prefix of maximal length, or none exactly when no prefix covers |
| NetRegistry.OrderDoesNotMatter | internal/rdapx/netregistry.go:223-228 | when each network is listed once the answer depends only on what is listed, not on the order or grouping of services and prefixes |
| NetRegistry.NetRegistry.LookupASN | internal/rdapx/netregistry.go:261-275 | binary search and back-scan give the first holder among the four nearest low bounds |
| NetRegistry.HitIffAmongFour | internal/rdapx/netregistry.go:265-273 | with overlaps a hit is always a covering range, and there is one exactly when a covering range is among the four greatest low bounds not above the number |
| NetRegistry.FifthIsMissed | internal/rdapx/netregistry.go:265-273 | a table of five nested ranges where the scan finds the number and the search does not |
| NetRegistry.SearchAgreesWithScan | internal/rdapx/netregistry.go:185-187 | for disjoint ranges sorting, search and back-scan answer every number as a plain scan of the document |
| NetRegistry.RangeRoundTrip | internal/rdapx/netregistry.go:200-221 | writing a range and reading it back gives the range for exactly the ordered pairs of 32-bit numbers |
| NetRegistry.NetRegistry.LoadIP | internal/rdapx/netregistry.go:116-158 | the table of one family is replaced by the usable services of the document, or nothing changes |
| NetRegistry.TableExactly | internal/rdapx/netregistry.go:116-140 | a network is in the table with certain bases if and only if a service of two lists has a readable prefix for it in the first and secure URLs, these bases, in the second |
| NetRegistry.RangesExactly | internal/rdapx/netregistry.go:160-184 | the same for ranges of numbers |
| NetRegistry.SecureOnes | internal/rdapx/bootstrap.go:110-123 | the bases are the secure URLs of the list in its order |
| NetRegistry.SecureExactly | internal/rdapx/bootstrap.go:110-123 | a URL is secure if and only if, trimmed, it begins with https:// in any case; a slash is put to its end if it has none |
| NetRegistry.NetRegistry.LoadASN | internal/rdapx/netregistry.go:160-197 | the table becomes the sorted usable ranges, or nothing changes |
| NetRegistry.NetRegistry.Refresh | internal/rdapx/netregistry.go:314-343 | each of the three tables is replaced or kept by its own file alone |
| NetRegistry.LoadedTableAgrees | internal/rdapx/netregistry.go:160-197 | after a load lookups answer as a scan of the document would, if its ranges are disjoint |
| Cache.Memory.Get | internal/cache/cache.go:45-62 | the value if unexpired at the read; an entry still expired under the write lock is removed |
| Cache.Memory.Set | internal/cache/cache.go:65-72 | stores with an expiry; a non-positive lifetime changes nothing |
| Cache.Memory.Sweep | internal/cache/cache.go:82-91 | the loop removes exactly the expired entries |
| Cache.GetIsItsSteps | internal/cache/cache.go:45-62 | a Get taken apart into its locked phases does and answers the same |
| Cache.EvictionIsInvisible | internal/cache/cache.go:45-91 | with anything interleaved between the phases, every read answers as if nothing were ever evicted, and no unexpired entry is ever missing |
| Cache.ReadsWhatWasStored | internal/cache/cache.go:45-91 | over all timed runs: a read gives the value last stored under its key exactly up to the end of its lifetime, and nothing otherwise |
| Cache.SweepLeaves | internal/cache/cache.go:82-91 | a sweep leaves no expired entry and every other one |
| Availability.CheckAvailability | internal/resolve/availability.go:59-120 | for every batch and schedule, min(n, 50) results, each the one found for the first input with the same trimmed lowercase key |
| Availability.SameKey | internal/resolve/availability.go:71-73 | two inputs share a check if and only if they are equal but for letter case and the white space around them, and not empty |
| Availability.ChecksRun | internal/resolve/availability.go:71-86 | one check for each distinct non-empty key and one for each empty input |
| Availability.ScheduleDoesNotMatter | internal/resolve/availability.go:88-104 | workers write pairwise different slots, so every schedule leaves the same slots |
| WhoisParse.Parse | internal/whois/parsers/parse.go:69-111 | the index loop with its skips records what a recursive reading of the lines does; each field reads as stated in FieldReading; confidence is zero exactly when no core field was found |
| WhoisLines.WrittenIsRead | internal/whois/parsers/parse.go:69-111 | the round trip: a response written from known labels and values is recorded as exactly these, in order, with no unknown label |
| WhoisLines.WrittenFields | internal/whois/parsers/parse.go:114-125 | so a field given by one label only holds exactly the value written under it, and a field under no label is not there |
| WhoisLines.BlockIsRead | internal/whois/parsers/parse.go:94-103 | a bare label with up to twenty indented values under it gives the field all of them |
| WhoisLines.LabelAndValue | internal/whois/parsers/parse.go:322-357 | every line with a colon: the text before the first one, trimmed, is the label and the rest, trimmed, the value; neither exists if and only if the label is missing, a comment or a sentence |
| WhoisLines.BracketedLabel | internal/whois/parsers/parse.go:337-341 | a bracketed label keeps its brackets, and the rest of the line, trimmed, is its value |
| WhoisLines.NoLabel | internal/whois/parsers/parse.go:322-346 | every other line has no label |
| WhoisLines.LabelNames | internal/whois/parsers/parse.go:297-318 | template, then synonyms, then synonyms behind one of three qualifiers; case and white space around a label do not matter |
| WhoisLines.MemberLine | internal/whois/parsers/parse.go:136-149 | a line belongs to a block if and only if it is indented, not blank, has no colon and is no comment |
| WhoisLines.ProseExactly | internal/whois/parsers/parse.go:362-375 | a label looks like prose if and only if it has five spaces or holds one of the words in any case |
| Text.TrimExactly | internal/whois/parsers/parse.go:322-327 | the trimmed text is the one without white space at its ends that the text is but for white space around it |
| Text.SplitJoins | internal/whois/parsers/parse.go:80 | the lines hold no line feed, and joined by line feeds they are the response |
| Text.JoinSplits | internal/whois/parsers/parse.go:80 | any lines without line feeds are got back from the joined text |
| WhoisParse.EveryLineOnce | internal/whois/parsers/parse.go:80-106 | every line gets exactly one role, its own or that of a member of the block directly above it |
| WhoisParse.FieldReading | internal/whois/parsers/parse.go:114-125 | a single-valued field keeps the first non-empty value, a multi-valued one the first occurrences in order |
| WhoisParse.FirstOccurrencesCover | internal/whois/parsers/parse.go:422-429 | keeping first occurrences loses no value and keeps no two that are equal up to case |
| WhoisParse.Parsed.Record | internal/whois/parsers/parse.go:114-125 | what one value does to the field map |
| WhoisParse.ContinuationValues | internal/whois/parsers/parse.go:133-155 | the trimmed members of the block that starts the lines, twenty at most |
| WhoisParse.ScoreRange | internal/whois/parsers/parse.go:256-290 | confidence is 0 exactly when no core field was found, otherwise in [0.05, 1], at most 0.85 without a template |
| WhoisParse.ScoreTable | internal/whois/parsers/parse.go:256-275 | the twelve scores without unknown labels |
| WhoisParse.UnknownLabelsCost | internal/whois/parsers/parse.go:276-290 | each unknown label costs a hundredth, fifteen at most, and never the last five |
| WhoisParse.TemplateScoresHigher | internal/whois/parsers/parse.go:268-286 | for the same fields and unknown labels a template scores strictly higher |
| WhoisParse.UnknownLabelsNeverHelp | internal/whois/parsers/parse.go:276-283 | one more unknown label never raises the confidence |
| WhoisParse.DroppedLabelsCountAsUnknown | internal/whois/parsers/parse.go:86-93 | in every response the label of a line outside a block that the template maps to "" is among the unknown labels if and only if it does not look like prose |
| WhoisClient.ChainIsBounded | internal/whois/client.go:101-160 | for any servers and any cap: at most that many queries, no host twice, each to exactly the referral of the reply before |
| WhoisClient.WhyItEnds | internal/whois/client.go:101-160 | the chain ends only with a failed query, a reply that refers nobody on, a referral to a host asked before, or at the cap |
| WhoisClient.NextExactly | internal/whois/client.go:142-160 | a reply sends us on to the most preferred host its lines name, unless that is the server itself or the registry allows no referrals |
| WhoisClient.Query | internal/whois/client.go:88-172 | makes those queries; fails exactly when discovery or the first one does; otherwise reports every hop and the last non-empty reply with its own truncation flag |
| WhoisClient.ReferralHost | internal/whois/client.go:185-209 | the first usable host under the most specific label that has one |
| WhoisClient.ReferralExactly | internal/whois/client.go:185-209 | that host is named by a line with none before it under the same label and none at all under a preferred one; there is none if and only if no line names any |
| WhoisClient.LineNames | internal/whois/discover.go:190-210 | a label in any case with a host after it names that host |
| WhoisClient.FieldOfLine | internal/whois/discover.go:190-200 | name and value of every line with a colon |
| WhoisClient.HostIsTaken | internal/whois/discover.go:204-210 | a bare host is taken over in lower case, with or without white space around it and a dot at its end |
| WhoisClient.OnlyHostsAreTaken | internal/whois/discover.go:204-210 | whatever is taken over has a dot and none of the characters a host may not hold |
| WhoisClient.HostWithoutPort | internal/whois/client.go:212-217 | a port is cut off, and only a port |

## Left out

- WhoisClient.Query: which warnings are given, beyond that there is one whenever there is no data and never the one about no data at all, is not stated; warnings carry a kind and a host, not their wording.
- Sessions.MemoryStore.Create: a nil session; sessions and records are values in maps, so aliasing of stored records is not captured.
- AuthServer.Server.AuthorizePOST: the form, the redirect and the enrollment check are one flag; the enrollment check itself is in `Enrollment`.
- AuthServer.Server.CheckBearer: servers configured without a denylist or with a second way to authenticate.
- Tokens.Denylist.Denies: in `Revocation` one atomic step; `Overlap` separates the deletion, and takes the entry and the clock reading after it as read together.
- Enrollment.Enrollment.Verify: one uninterrupted step; `OverlappingGuesses` has the two locked phases apart.
- Enrollment.LockoutHolds: a call admitted before the lockout is still evaluated in the source; the lemma is about calls that do not overlap, as are Enrollment.GuessesTakeTime and Enrollment.SixteenAnHour.
- Interleaving.ExpiryNeverShrinks: calls are taken in the order of their clock readings; so is Interleaving.ClosedForGood.
- Revocation.NeverAcceptedAgain: handlers are steps; refreshes, code exchanges and bearer checks that overlap with others are in `Overlap`, where the other handlers remain steps.
- Guard.Guard.Do: a nil guard runs the call without any policy; `GuardOverlap`, where calls overlap, has both policies in force.
- Limiter.Limiter.Acquire: the token bucket, the deadline and the sleep are one arbitrary answer per call.
- NetRegistry.NetRegistry.LoadASN: the library's sort is represented by an insertion sort; lookups are proved for any sorted rearrangement.
- NetRegistry.NetRegistry.LookupIP: prefixes belong to the family of the file they come from; reading a CIDR is an arbitrary function.
- WhoisParse.ScoreRange: confidence is computed over the reals, without floating-point rounding.
- WhoisParse.Parse: the typed members derived afterwards (dates, contacts, nameservers, DNSSEC, redaction).
- Availability.CheckAvailability: the concurrency limit and cancellation only decide what a worker finds, which is arbitrary.
- A clock reading taken just before a lock counts as taken under it.
- Strings are ASCII as far as case and white space go, and lengths count characters, not bytes.
- Cryptography and encodings: signing never fails, so minting fails only with the identifier generator; signatures are membership in the set of signed claims, PKCE and secret comparison are arbitrary functions; key rotation.
- HTTP, forms, JSON, metrics, logging, tool registration, configuration; the session list and its ordering; redirect-URI validation.
- Host-key normalisation, the name tables (templates, synonyms, quirks, seed hosts), IDNA, dialing, timeouts and response caps of the transports.
- Panics inside guarded calls and clocks that go back.
