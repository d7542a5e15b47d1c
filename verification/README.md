# Plateau verification

A Dafny model of the stateful and algorithmic parts of Plateau, with proofs of what they promise.
`dafny verify dfyconfig.toml` checks all of it. Every operation that the program performs by changing
state is a method here, on a class or with a loop, proved equal to a function on values; what the
program promises over whole runs is proved about those functions.

- **OAuth tokens.** `TokenStore` holds the tables and what one committed transaction does to them;
  `TokenServer` runs the same calls statement by statement and is proved to do exactly that.
  `TokenRuns` lets any number of clients, administrators and revokers interleave, with looked-up
  requests held in between; `TokenInvariant`, `TokenTheorems` and `TokenScopes` prove what every run
  keeps, `TokenIssuance` what a client gets and for how long it works, `TokenFlow` that its whole way succeeds. `TokenLocks` and `TokenRaces` go below whole transactions: statements interleave, and each
  commit is shown to be one atomic rotation or revocation. `SweepSteps` and `SweepRaces` do the same
  for code exchanges and for sweeps over many sessions; `SweepSurvivors` says exactly when a session
  of a disabled user outlives its sweep. Sections 4.1.2 and 6 of RFC 6749, section
  4.14.2 of RFC 9700 and section 2.1 of RFC 7009 describe the behaviour.
- **CAP proof of work.** `Words` builds 32-bit words with exclusive or and shifts from integers,
  `CapProof` has the hash, the generator and the check of solutions, `CapServer` the challenges and
  the Redis protocol, `CapRuns` its runs with a clock, `CapTokens` what texts are accepted and for how
  long, `CapVectors` published known answers. SHA-256, HMAC, base64 and JSON are parameters.
- **Soft deletion with etags.** `UserTable` is the table under conditional writes, `UserUsecase` the
  calls with any schedule of other clients' writes running between their statements.
- **Audit.** `AuditPages` is keyset paging over a table that may change between pages, `PageLoss`
  says when a fixed one loses rows. `BatchWriter` is the buffer, `BatchRuns` the goroutines around it.
- **Rule compiler.** `RulePlan` and `RuleOrder` plan the generated rules; `ProtoTypes` and
  `ResourcePath` check a resource path against a type and follow it in a message.
- **IAM.** `LoginSessions` has the login sessions and `SessionCalls` sequences of calls that resolve
  one. `UserAggregate`, `UserAccounts`, `UserTheorems` and `UserServer` have the user with its status, authenticator,
  email and one-time tokens, `UserRetries` what repeating a half-failed call does.

Ids, etags and secrets are drawn by the caller and passed in; that generated ids and etags never
repeat is part of the step functions where it matters, and a collision with a stored key is an error
that rolls back. A secret is identified with its hash. Time is an integer. A call that a database or
Redis can refuse takes what they will answer as a parameter.

What the proofs found, beyond what the code's comments say. A token lifetime under one millisecond
spends a CAP challenge without issuing a token, because the script is not undone, a delayed script
can issue a second token for one challenge, and a challenge lifetime under one millisecond is accepted
but yields challenges that never verify. Enabling a user that was disabled while pending leaves an
active user that can never verify its email or resolve a session. A disabling whose session revocation
failed can be repeated to finish it only without an etag, or with the etag the first call left: the
same call again, naming the etag the user had while active, is refused and revokes nothing. A password
reset whose revocation failed cannot be repeated at all. Paging loses a row whenever two rows of one
key lie on either side of a multiple of the page size. A rotation that loses a race revokes the
winner's tokens too. A code exchange that finds its user active just before the user is disabled, and
commits after the revocation has selected its sessions, leaves an unrevoked session whose access token
works for its 15 minutes; the session cannot be refreshed while the user stays disabled.

## Model

| member | source | states |
|---|---|---|
| TokenTheorems.Reachable | app/iam/service/internal/oidc/op_auth_storage.go:198-416 | After any interleaving of lookups, exchanges, revocations, user changes and authorization requests, in any order and with requests held for any time, the store satisfies the whole invariant: linear families, tokens tied to sessions, codes tied to sessions, unique hashes. |
| TokenTheorems.FamilyIsLinear | app/iam/service/internal/oidc/op_auth_storage.go:318-407 | The refresh tokens of every reachable session are one list without repetition: each but the first has its predecessor as parent, each but the last is consumed at the moment its successor was issued and before it expired, the last is unconsumed. |
| TokenTheorems.FamilyShape | app/iam/service/internal/oidc/op_auth_storage.go:318-407 | Of a session that has a refresh token, one token is the root, one the unconsumed tip, and every token is consumed exactly when it has a child, of which it has one at most. |
| TokenTheorems.ChildAgreesWithParent | app/iam/service/internal/oidc/op_auth_storage.go:341-403 | A child token is in its parent's session and family; the parent was consumed when the child was issued, before the parent expired. |
| TokenInvariant.RotateExtendsFamily | app/iam/service/internal/oidc/op_auth_storage.go:349-407 | A rotation that is allowed consumed the last token of the line, and the line grows by the new token. |
| TokenTheorems.TokensRevokedWithSession | app/iam/service/internal/oidc/op_auth_storage.go:565-585 | In every reachable state the revoked time of every access and refresh token equals that of its session, both set or both unset. |
| TokenTheorems.RevocationIsFinal | app/iam/service/internal/oidc/op_auth_storage.go:343-359 | From the state in which a session is revoked on, the session row and all its tokens are the same rows in every later state of any run, and no token joins them. |
| TokenTheorems.NothingOfRevokedSessionAccepted | app/iam/service/internal/oidc/claims.go:18-47 | After a session was revoked, whatever happens next, no access token of it is accepted and no refresh token of it is found, at any clock time. |
| TokenTheorems.ExchangeConsumes | app/iam/service/internal/oidc/op_auth_storage.go:360-372 | A refresh exchange that issues tokens was given an unconsumed token and leaves it consumed. |
| TokenTheorems.AtMostOneExchange | app/iam/service/internal/oidc/op_auth_storage.go:318-382 | Of all exchanges of one refresh token in a run, by any clients holding the same looked-up request, at most one issues tokens. |
| TokenTheorems.ReplayRevokesSession | app/iam/service/internal/oidc/op_auth_storage.go:325-331 | An exchange of a consumed token answers the replay error and commits the revocation of the session with all its tokens. |
| TokenTheorems.ReplayedLookupRevokesSession | app/iam/service/internal/oidc/op_auth_storage.go:435-441 | A lookup of a consumed token answers that it was not found and commits the same revocation. |
| TokenTheorems.LaterUseRevokes | app/iam/service/internal/oidc/op_auth_storage.go:409-414 | After one exchange of a token succeeded, every later lookup or exchange of it in the run fails and revokes its session. |
| TokenTheorems.OtherErrorsChangeNothing | app/iam/service/internal/oidc/storage.go:42-63 | Every other failing exchange or lookup leaves all tables exactly as they were; a code in particular is not burned by a failed exchange. |
| TokenTheorems.CodesAndSessionsBijective | app/iam/service/internal/oidc/op_auth_storage.go:525-542 | In every reachable state consumed codes and sessions correspond one to one, each code consumed before it expired, with equal subject and client. |
| TokenTheorems.AtMostOneCodeExchange | app/iam/service/internal/oidc/op_auth_storage.go:198-258 | Of all exchanges of one authorization code in a run at most one issues tokens. |
| TokenTheorems.DisableThenRevokeShuts | app/iam/service/internal/data/authn.go:56-86 | Disabling a user and then revoking all its sessions, with anything but an enabling in between, leaves no unrevoked session of the user. |
| TokenTheorems.ShutUserStaysOut | app/iam/service/internal/oidc/op_auth_storage.go:544-553 | From then on, until the user is enabled, no session opens and no access token of the user is accepted, whatever clients still hold. |
| TokenTheorems.IssuedWorks | app/iam/service/internal/oidc/op_auth_storage.go:198-416 | From every reachable state, an exchange of a held request that issues tokens gives the access token the request's scopes, subject and client; it is accepted for that subject, and nobody else, for exactly 15 minutes, and the new refresh token leads back to the same client, subject, scopes and time of authentication for exactly 7 days. |
| TokenFlow.FoundIsHeld | app/iam/service/internal/oidc/op_auth_storage.go:100-153 | A client holds every request that a lookup found for it, for the rest of the run. |
| TokenFlow.CodeFlow | app/iam/service/internal/oidc/op_auth_storage.go:55-315 | From every reachable state and with new keys, a request that is created, completed and given a code is found by the code and exchanged for tokens exactly within 5 minutes and while the user is active. |
| TokenFlow.RefreshFlow | app/iam/service/internal/oidc/op_auth_storage.go:260-466 | And from every exchange on, its refresh token is found and exchanged again exactly within 7 days, so a line of rotations can go on for ever. |
| TokenIssuance.RevokedSessionRefuses | app/iam/service/internal/oidc/claims.go:18-47 | An access token of a session that is revoked or gone is refused, whatever its own row says. |
| TokenTheorems.CreatedCompletes | app/iam/service/internal/oidc/op_auth_storage.go:55-126 | A created request can be completed for exactly 10 minutes, and then has the client and scopes it was created with and the user, login and time it was completed with. |
| TokenIssuance.CodeIssuesExactlyWhen | app/iam/service/internal/oidc/op_auth_storage.go:198-315 | A code is exchanged exactly when it is unconsumed and unexpired, its request is complete, its user active and every generated key new. |
| TokenIssuance.CodeIssues | app/iam/service/internal/oidc/op_auth_storage.go:225-315 | The tables after that: the code consumed, one session with the request's user, client, login, scopes and time of authentication, one access token for 15 minutes and, if asked, one root refresh token for 7 days, nothing else. |
| TokenIssuance.RefreshIssuesExactlyWhen | app/iam/service/internal/oidc/op_auth_storage.go:318-382 | A refresh token is exchanged exactly when it is unconsumed, unrevoked and unexpired, its session is unrevoked, its user active and every generated key new. |
| TokenIssuance.RefreshIssues | app/iam/service/internal/oidc/op_auth_storage.go:349-407 | The tables after that: the token consumed, a child of it in the same family, an access token and the session with the scopes asked for, nothing else. |
| TokenIssuance.RefreshFoundExactlyWhen | app/iam/service/internal/oidc/op_auth_storage.go:419-466 | The lookup finds the session's request exactly for an unconsumed, unrevoked and unexpired token of an unrevoked session of an active user. |
| TokenIssuance.RevokeTokenReaches | app/iam/service/internal/oidc/op_auth_storage.go:490-506 | Revoking by token revokes the session of an access or refresh token of that user and client with all its tokens, keeping earlier times, and does nothing for a token of anyone else. |
| TokenIssuance.RevocationsReach | app/iam/service/internal/data/authn.go:46-86 | Revoking for a user, a login session or a user's client revokes the sessions of that one and leaves every other session as it was. |
| TokenScopes.ScopesNeverWiden | app/iam/service/internal/oidc/op_auth_storage.go:349-377 | If clients only narrow the scopes of what they looked up, session scopes only shrink over a run and every access token stays within the scopes of the code its session was opened with, although scopes are read in one transaction and written in a later one. |
| TokenScopes.RotateKeepsHeldWithin | app/iam/service/internal/oidc/op_refresh_token_request.go:30-32 | After a rotation every request still held for that session names a consumed token, so its stale scopes can no longer be written. |
| TokenTheorems.RequestBoundOnce | app/iam/service/internal/oidc/op_auth_storage.go:108-127 | Once a request is completed, its subject, login and time are the same in every later state of any run in which it exists, and its id never names another request. |
| TokenTheorems.AtMostOneCompletion | app/iam/service/internal/oidc/op_auth_storage.go:108-127 | Of all completions of one request in a run, for whichever users, at most one succeeds; the others answer that it was not found. |
| TokenServer.Server.SaveAuthCode | app/iam/service/internal/oidc/op_auth_storage.go:154-187 | The call succeeds exactly for a live, completed request and an insertable code, and then adds one unconsumed row with the request's subject, client and scopes; otherwise nothing changes. |
| TokenServer.SavedCodeIsFound | app/iam/service/internal/oidc/op_auth_storage.go:128-187 | What was saved is found: until it expires, the code just saved leads back to the request it was saved for. |
| TokenServer.Server.AuthRequestByCode | app/iam/service/internal/oidc/op_auth_storage.go:128-153 | The call finds a request exactly when an unconsumed, unexpired code of that hash belongs to a completed request, and then finds that request. |
| TokenServer.Server.CreateAccessToken | app/iam/service/internal/oidc/op_auth_storage.go:198-258 | Consuming the code, checking the user and inserting session and access token in one transaction on a private copy equals the atomic exchange, answer included; the issued token carries what the request asked for, and every failure rolls back. |
| TokenServer.Server.CreateAccessAndRefreshTokens | app/iam/service/internal/oidc/op_auth_storage.go:260-416 | Both branches of the call, opening a session and rotating a token, equal the atomic exchange, with the replay branch the one failure that commits; the issued token carries what the request asked for. |
| TokenServer.Server.TokenRequestByRefreshToken | app/iam/service/internal/oidc/op_auth_storage.go:419-466 | The lookup equals its atomic form: the session is revoked and committed when the token was consumed, and nothing changes otherwise. |
| TokenServer.Server.TerminateSession | app/iam/service/internal/oidc/op_auth_storage.go:468-488 | Revoking a user's active sessions for a client one by one, in any order, revokes exactly that set with all tokens. |
| TokenServer.Server.RevokeTokenById | app/iam/service/internal/oidc/op_auth_storage.go:490-506 | Revocation by an access or refresh token id revokes its whole session when user and client match, and does nothing otherwise. |
| TokenServer.Server.RevokeMatching | app/iam/service/internal/data/authn.go:66-86 | The other revoking path, three updates of the unrevoked rows of a set of sessions, revokes exactly those sessions with all their tokens, like the first one. |
| TokenServer.RevokeTwice | app/iam/service/internal/oidc/op_auth_storage.go:565-585 | Revoking one set of sessions and then another at the same time equals revoking their union. |
| TokenRaces.InterleavingsAreAtomic | app/iam/service/internal/oidc/op_auth_storage.go:318-407 | With statements of any number of rotations and session revocations interleaving, reads seeing what is committed at that moment and the session row held from its first write, each commit does to the committed tables exactly what one atomic rotation or revocation does, nothing else changes them, and they keep the invariant. |
| TokenRaces.RaceLoserRevokes | app/iam/service/internal/oidc/op_auth_storage.go:360-378 | A rotation that commits although its token was consumed in the meantime has revoked the whole session, the winner's new tokens included. |
| TokenRaces.OneRotationCommits | app/iam/service/internal/oidc/op_auth_storage.go:349-378 | Of any number of transactions racing for one token, statement by statement, at most one commits a rotation. |
| TokenRaces.CommittedRotationWasAllowed | app/iam/service/internal/oidc/op_auth_storage.go:341-382 | A rotation that commits, statement by statement, had an active user, and an unconsumed, unexpired token of an unrevoked session when it committed. |
| SweepRaces.InterleavingsAreWhole | app/iam/service/internal/data/authn.go:66-86 | With statements of code exchanges and of sweeps over all sessions of a user or login session interleaving, waiting for rows and keys that others have written, each commit opens one session whole, revokes all selected sessions whole or rotates whole, and the tables keep the invariant. |
| SweepSurvivors.OnlyStragglersSurvive | app/iam/service/internal/data/authn.go:66-86 | While a user stays disabled, once the sweep after the disabling has committed, the only unrevoked sessions of the user are those of exchanges that were open at its selection and had found the user active before; an access token of the user is accepted only if such an exchange issued it, and for the lifetime of one token from that exchange. |
| SweepSurvivors.StragglerSurvives | app/iam/service/internal/oidc/op_auth_storage.go:211-252 | From any such exchange there is a run in which it commits, the sweep commits, and its session stays unrevoked with its access token accepted. |
| SweepSurvivors.ShutsExactlyWhen | app/iam/service/internal/biz/user.go:119-128 | Disabling and then revoking shuts the user out, in every run in which the sweep commits and the user stays disabled, exactly when no such exchange is open at the selection. |
| SweepSurvivors.StragglerExample | app/iam/service/internal/biz/user.go:104-128 | A concrete run: the user is disabled between the check and the commit of an exchange, the sweep commits, and the token of the disabled user is accepted. |
| CapProof.FnvResume | security/cap/cap.go:208-214 | The hash loop equals folding the FNV step over the bytes from the given state. |
| CapProof.FnvResumes | security/cap/cap.go:208-214 | Hashing a and then resuming with b gives the hash of a followed by b. |
| CapVectors.FnvVectors | security/cap/cap.go:204-214 | The hash has the published FNV-1a values of the empty text and of one letter. |
| CapProof.ShiftAddIsMultiply | security/cap/cap.go:208-214 | Adding the five shifted copies of a word modulo 2^32 is multiplication by 16777619 modulo 2^32. |
| CapProof.XorshiftBijective | security/cap/cap.go:220-232 | The xorshift step is a bijection of 32-bit words, with its inverse given. |
| CapVectors.XorshiftVector | security/cap/cap.go:222-227 | The step has the published first output of the 32-bit generator with shifts 13, 17 and 5. |
| CapProof.NonZeroForever | security/cap/cap.go:220-232 | A non-zero generator state never becomes zero, and a zero state never becomes anything else. |
| CapProof.PrngFromHash | security/cap/cap.go:220-232 | Filling a buffer block by block in place and cutting it yields, for every length, exactly that many digits of the stream, all lower-case hexadecimal. |
| CapProof.FillBlock | security/cap/cap.go:223-230 | One round writes the eight digits of one word at its offset and leaves every other byte of the buffer as it was. |
| CapProof.PrngDigit | security/cap/cap.go:220-232 | Digit k of the output is nibble k mod 8, from the top, of the word after k / 8 + 1 steps. |
| CapProof.PrngPrefix | security/cap/cap.go:216-232 | A shorter output is a prefix of a longer one. |
| CapVectors.HexWordSpells | security/cap/cap.go:228-230 | The eight digits of a word, most significant first, spell the word. |
| CapVectors.DecimalSpells | security/cap/cap.go:430-436 | Indices and solutions are hashed as decimal digits without leading zeros that spell the number. |
| CapProof.MatchesHexPrefix | security/cap/cap.go:443-458 | Comparing whole bytes and then the odd nibble decides the hexadecimal prefix relation, for odd and even lengths; a digit that does not parse differs; a target of more than 64 digits never matches, and reads past the digest exactly when its first 64 digits match and the next ones parse. |
| CapProof.LowerHexPrefix | security/cap/cap.go:443-458 | For a target drawn from the generator this is: the target is a prefix of the digest in lower-case hexadecimal. |
| CapProof.ValidSolutions | security/cap/cap.go:424-441 | The fast form, which resumes hashes, accepts exactly when every solution is non-negative and solves its challenge of the simple protocol, where salt and target are drawn from seeds spelled out in full. |
| CapTokens.FirstSolution | security/cap/cap.go:424-441 | The first solution is bound to the token followed by 1, and its target to that followed by d, from the published FNV offset. |
| CapServer.SpellingsShareSignature | security/cap/cap.go:315-349 | All tokens that verify and differ only in how the signature is spelled in base64 carry the same claims and the same signature, hence one nonce key. |
| CapServer.SignedVerifies | security/cap/cap.go:303-313 | A token signed for well-formed claims verifies, with those claims, until it expires. |
| CapTokens.VerifiesExactlyWhen | security/cap/cap.go:315-349 | A text verifies exactly when it is header, payload and a spelling of the key's signature of both, its payload decodes to claims within the stated bounds, and they have not expired. |
| CapTokens.CreatedVerifies | security/cap/cap.go:248-301 | A challenge is created exactly for parameters within the bounds; it verifies with the parameters chosen for it until it expires, except that one with a lifetime under a millisecond never verifies. |
| CapTokens.ChosenFields | security/cap/cap.go:253-275 | A positive field of an override, and a scope that is not empty, replaces the default, and no other does. |
| CapServer.Redis.IssueVerification | security/cap/cap.go:47-57 | The script refuses when either key exists and otherwise sets both; when the second write fails the first one stays. |
| CapServer.Redis.ConsumeScoped | security/cap/cap.go:59-66 | The script deletes the key exactly when it is live and holds the expected scope. |
| CapServer.IssueAnyEffect | security/cap/cap.go:384-419 | The retry loop issues at the first draw whose key is free, marks the challenge and that token and nothing else, and otherwise changes nothing, unless a lifetime under one millisecond makes the script fail midway. |
| CapServer.Cap.RedeemChallengeWithScope | security/cap/cap.go:357-422 | The call with its retry loop over Redis does what the redemption function says, in answer and in keys. |
| CapServer.Cap.ValidateToken | security/cap/cap.go:465-480 | A token is accepted exactly when its key is live, and is then deleted. |
| CapServer.Cap.ValidateTokenWithScope | security/cap/cap.go:482-492 | The same with the scope compared; a mismatch leaves the key. |
| CapTokens.KeyOfToken | security/cap/cap.go:494-500 | A token of 16 digits, a colon and 30 digits names the key of its identifier and of the digest of its secret. |
| CapTokens.KeyExactlyWhen | security/cap/cap.go:494-500 | A text of any other shape names no key. |
| CapTokens.RedeemedMeans | security/cap/cap.go:357-422 | A redemption proves that the challenge is genuine, in bounds and unexpired at both readings of the clock, for the scope asked for, and that every solution is right; it answers the text of one of the draws, stored under the digest of its secret. |
| CapTokens.RefusedExactlyWhen | security/cap/cap.go:357-395 | Which of the three refusals a submission meets, in both directions. |
| CapTokens.IssuedTokenAccepted | security/cap/cap.go:380-416 | Whatever happens in between, a token from a redemption is accepted, alone or with its own scope, exactly while its lifetime lasts and nothing has spent it. |
| CapTokens.SecondValidationFails | security/cap/cap.go:465-480 | A token that was accepted is refused ever after, unless its key is drawn again. |
| CapRuns.AcceptedNeverExceedsIssued | security/cap/cap.go:465-500 | Over every run with clock ticks and expiry, accepted validations of a key, by both ways together, never exceed its issuances, counting one that is still spendable. |
| CapRuns.AcceptancesPaidFor | security/cap/cap.go:465-492 | Counted over the events of any run from the start, a token is never accepted more often than redemptions issued it. |
| CapRuns.FailedValidationConsumesNothing | security/cap/cap.go:482-492 | A refused validation, a scope mismatch among them, changes nothing. |
| CapRuns.RedeemedExactlyWhen | security/cap/cap.go:357-422 | A submission is redeemed exactly when it verifies, its solutions and scope pass, its challenge is unspent, the token lifetime is positive and some draw is free. |
| CapRuns.RefusalConsumesNothing | security/cap/cap.go:384-419 | With a positive token lifetime a submission that is not redeemed, a key collision included, leaves Redis as it was. |
| CapRuns.ZeroLifetimeBurnsChallenge | security/cap/cap.go:47-57 | With a token lifetime under one millisecond, a submission that passes its screen, of an unspent challenge and with some free draw, fails and spends the challenge all the same. |
| CapRuns.ConsumesNothingExactlyWhen | security/cap/cap.go:376-419 | A submission that is not redeemed leaves Redis as it was exactly when the token lifetime is positive, or it was turned away before, or its challenge is spent, or no draw is free. |
| CapRuns.BurningExample | security/cap/cap.go:47-57 | A concrete server and submission whose challenge is spent without a token. |
| CapRuns.OneTokenPerChallenge | security/cap/cap.go:373-419 | Each signed challenge yields at most one verification token among submissions whose script runs before the challenge expires. |
| CapRuns.LateScriptIssuesAgain | security/cap/cap.go:373-419 | Delayed past the expiry of the keys, any submission that succeeded succeeds a second time. |
| CapRuns.RedeemedAgainExactlyWhen | security/cap/cap.go:357-419 | After a redemption of a challenge, the next one succeeds exactly when it passes its screen, its script runs no earlier than the remaining lifetime that the first one read, counted from the first one's script, and some draw is free. |
| CapRuns.LateScriptExample | security/cap/cap.go:373-419 | A concrete run with two tokens for one challenge, both submissions screened before it expires. |
| UserTable.EtagInterval | app/example/service/internal/data/user.go:160-211 | In any run the states in which a row is active under one etag form one interval, in which the row does not change and no write to it lands, deletion and restoration included. |
| UserTable.SpentForever | app/example/service/internal/data/user.go:234-253 | An etag that stopped marking an active row never marks one again. |
| UserTable.LostToOthers | app/example/service/internal/biz/user.go:150-160 | An active row loses its etag only to a write that landed in between. |
| UserTable.RowMoves | app/example/service/internal/data/user.go:72-250 | Every change an event can make to a row and what the row then is: a deletion and a restore keep the content, and a restore takes a tombstone and gives it a new etag. |
| UserTable.ContentOfLastUpdate | app/example/service/internal/data/user.go:160-250 | Over any run a row has the content of the last update of it that landed, deletions and restores included. |
| UserTable.ContentKept | app/example/service/internal/data/user.go:160-250 | Two states of a run differ in a row's content only if an update of it landed in between. |
| UserUsecase.Usecase.CreateUser | app/example/service/internal/biz/user.go:81-99 | Alone, a creation succeeds exactly when no row of that name exists, tombstones included; under interference a success is the row written, and alone the table gains exactly that row. |
| UserUsecase.Usecase.UpdateUser | app/example/service/internal/biz/user.go:120-163 | A landed update means that no other write to the row landed since the call's read, and that the expected etag was current at that read; missing rows, tombstones and etag mismatches are answered without a write; if the read passes and the write misses, a write by another client landed in between; alone, the call writes exactly the new content. |
| UserUsecase.Usecase.DeleteUser | app/example/service/internal/biz/user.go:165-198 | The same for deletion, with the tombstone returned; an already deleted row is an answer or an error as the caller asked, after the etag was checked. |
| UserUsecase.Usecase.TryRestore | app/example/service/internal/biz/user.go:204-236 | One turn of the restore loop settles the call or leaves evidence that others deleted the row; alone it gives back a tombstone with its content under a new etag, and leaves an active row as it is. |
| UserUsecase.Usecase.UndeleteUser | app/example/service/internal/biz/user.go:201-247 | Under any interference: a success is a row observed active, at most three restores are attempted, giving up means that at least three deletions by others landed during the call; alone, the call answers the row that was deleted, with its content, under a new etag, and changes nothing else. |
| UserUsecase.ExpectedIsClean | app/example/service/internal/data/user.go:213-232 | A conditional write that expects the etag read earlier lands only if nothing else wrote the row since. |
| AuditPages.BuildWhere | app/audit/service/internal/data/audit.go:190-235 | The conditions hold of exactly the rows the filter selects that lie past the token's key; the clause fails exactly for a non-empty token that does not decode. |
| AuditPages.PageSize | app/audit/service/internal/data/audit.go:60-66 | The page size is always between 1 and 200, and is the requested one when that is in range. |
| AuditPages.WindowsTile | app/audit/service/internal/data/audit.go:190-206 | Time windows include their start and exclude their end: windows that meet select each row of their union exactly once. |
| AuditPages.FilterNarrows | app/audit/service/internal/data/audit.go:206-232 | Without restrictions everything is selected, and a type, actor or service selects its own rows only. |
| AuditPages.SortedAscends | app/audit/service/internal/data/audit.go:86-92 | The order of every answer is by ascending time and within one time by ascending identifier. |
| AuditPages.ListEvents | app/audit/service/internal/data/audit.go:55-158 | A page is the rows answered up to the page size, with a token for the last of them exactly when one more row was found; the answer is the ordered selection past the token's key. |
| AuditPages.CountEvents | app/audit/service/internal/data/audit.go:162-187 | The count is the number of stored rows the filter selects. |
| AuditPages.FollowTokens | app/audit/service/internal/data/audit.go:147-158 | Following tokens over a fixed table ends, no token is refused on the way, and what was collected is a walk; with distinct keys it is exactly the selected rows, in order. |
| AuditPages.WalkSorted | app/audit/service/internal/data/audit.go:80-92 | The output of a walk over a table that changes between pages never goes back in key, outputs no stored row twice and stays within the filter. |
| AuditPages.WalkStrict | app/audit/service/internal/data/audit.go:80-92 | When no table holds two rows of one key at the same time, the output of the walk is strictly increasing: no key is output twice, also when its row is removed and added again between pages. |
| AuditPages.PresentThroughoutAppears | app/audit/service/internal/data/audit.go:55-158 | With distinct keys, a row that is selected at every page of a finished walk is output exactly once, whatever else is added and removed. |
| AuditPages.FixedTableWalk | app/audit/service/internal/data/audit.go:55-187 | On a fixed table with distinct keys a finished walk lists exactly the selected rows, in order, and as many as counted. |
| AuditPages.FixedTableLoss | app/audit/service/internal/data/audit.go:147-152 | Without distinct keys a walk over a fixed table loses exactly the rows that share the key of the last row of some page and did not fit on it. |
| PageLoss.WalkLosesExactlyWhen | app/audit/service/internal/data/audit.go:55-158 | Before paging it can be told whether a row of a fixed table will be lost: exactly when, in any ordered listing of the selected rows, two rows of one key lie on either side of a multiple of the page size, however the database orders rows of one key. |
| PageLoss.AnswerKeys | app/audit/service/internal/data/audit.go:80-92 | An answer has as many rows as the listing and the limit allow, with the keys of the listing in order. |
| PageLoss.TwoRowsOfOneKey | app/audit/service/internal/data/audit.go:147-156 | Two rows of one key, paged one by one: the walk ends and one of them is never output. |
| BatchWriter.Buffer.constructor | app/audit/service/internal/data/batch_writer.go:62-87 | The batch size is the configured one when positive and 100 otherwise; buffer and channels start empty. |
| BatchWriter.Buffer.Add | app/audit/service/internal/data/batch_writer.go:119-131 | The event joins the end of the buffer, and a buffer that reached the batch size leaves a wake-up on the channel. |
| BatchWriter.Buffer.Flush | app/audit/service/internal/data/batch_writer.go:137-199 | A flush takes the whole buffer; with ClickHouse it stores all of it exactly when preparation, every append and the sending succeed, and commits its records only then; without ClickHouse it stores nothing and commits them. |
| BatchWriter.Buffer.CommitAll | app/audit/service/internal/data/batch_writer.go:201-217 | Exactly the records present in the batch are committed, in order, in one call, and there is no call without a committer or without records. |
| BatchWriter.RecordsInOrder | app/audit/service/internal/data/batch_writer.go:201-217 | Of a batch from Kafka each record is committed once and in order. |
| BatchWriter.Buffer.Stop | app/audit/service/internal/data/batch_writer.go:114-116 | Stopping closes the channel and may be repeated. |
| BatchRuns.EachEventInOnePlace | app/audit/service/internal/data/batch_writer.go:119-199 | In every state of every interleaving of polling, adding, flushing and stopping, the accepted events are, as a multiset, those in the table, in dropped batches, in batches taken without ClickHouse, in the flusher's hands and in the buffer. |
| BatchRuns.FetchedAreHandled | app/audit/service/internal/data/consumer.go:88-107 | Every record of a poll that was taken is handled once and in order, or still to be. |
| BatchRuns.AddedMeans | app/audit/service/internal/data/consumer.go:109-156 | What is buffered are the handled records that decode and have an id, a type, a source and a time. |
| BatchRuns.RefusedMeans | app/audit/service/internal/data/consumer.go:109-141 | The records that do not are committed at once. |
| BatchRuns.FatesFollow | app/audit/service/internal/data/batch_writer.go:145-199 | Over every run each flushed batch was stored exactly when ClickHouse took all of it, and skipped exactly when there was none. |
| BatchRuns.RunKeepsInv | app/audit/service/internal/data/batch_writer.go:90-217 | In every state the taken batches followed by the buffer are the accepted events in order, the table is the stored batches whole and in order, and commits follow the decided fates. |
| BatchRuns.CommittedWasStored | app/audit/service/internal/data/batch_writer.go:192-198 | The writer never commits a record whose event was not sent to ClickHouse before, unless there is no ClickHouse. |
| BatchRuns.CommittedIsInTable | app/audit/service/internal/data/batch_writer.go:180-199 | With ClickHouse throughout a run, every record that the writer commits has its event in the table. |
| BatchRuns.FullBufferWakesFlusher | app/audit/service/internal/data/batch_writer.go:119-131 | No wake-up is lost: when the buffer reached the batch size and the flusher rests, a wake-up is on the channel or about to be sent. |
| BatchRuns.NothingLeftBehind | app/audit/service/internal/data/consumer.go:76-107 | When the flusher ended, polling had ended before it, the buffer is empty and every accepted event was flushed. |
| BatchRuns.CanStop | app/audit/service/internal/data/consumer.go:76-107 | From every state that a run reaches the service can stop: the poller finishes what it holds, and the flusher ends with an empty buffer. No order of steps leaves it stuck. |
| RulePlan.IndexPass | internal/codegen/ruleplan/ruleplan.go:87-125 | The index holds, for each full service name, the declared rules of its last service, and fails exactly when some declaration is malformed or invalid. |
| RulePlan.AddMethod | internal/codegen/ruleplan/ruleplan.go:152-182 | One method adds its entry exactly when its merged rule is accepted; a repeated operation adds nothing, because it would add the same entry. |
| RulePlan.GroupPass | internal/codegen/ruleplan/ruleplan.go:127-185 | After the loops each directory holds the entries its generated files contribute, with distinct operations and the first file as target; the pass fails only for conflicting packages of one directory or a refused rule. |
| RulePlan.Build | internal/codegen/ruleplan/ruleplan.go:76-202 | The result is the plan the specification describes: groups strictly sorted by directory, entries strictly sorted by operation, an entry present exactly when a method of a generated file has an accepted merged rule, with that rule; it fails exactly for a faulty declaration, a package conflict or a refused rule. Map iteration order is arbitrary. |
| RulePlan.OperationInjective | internal/codegen/ruleplan/ruleplan.go:147-158 | An operation names one service and one method, so repeated operations have one merged rule. |
| RuleOrder.MergedOwn | internal/codegen/optionmerge/optionmerge.go:21-40 | With unique names the rule of a method is its own declared rule when that has a mode, otherwise its service's declared default when that has one, otherwise none. |
| RuleOrder.PlannedExactlyWhen | internal/codegen/ruleplan/ruleplan.go:128-181 | With unique names the planned entries are exactly the accepted own rules of the methods of generated files, under their operations. |
| RuleOrder.MethodPlanned | internal/codegen/ruleplan/ruleplan.go:128-181 | In a plan the operation of a generated method has an entry exactly when the method has a rule that is accepted, and the entry holds that rule. |
| RuleOrder.FaultyExactlyWhen | internal/codegen/ruleplan/ruleplan.go:87-124 | Planning finds a bad declaration exactly when some service or method of any file, generated or not, declares a malformed or invalid rule. |
| RuleOrder.RefusedExactlyWhen | internal/codegen/ruleplan/ruleplan.go:154-165 | It fails on a merged rule exactly when the own rule of a generated method is refused. |
| RuleOrder.TargetIsFirst | internal/codegen/ruleplan/ruleplan.go:126-145 | The target of a directory is the first generated file in it. |
| Orders.LessExactlyWhen | internal/codegen/ruleplan/ruleplan.go:184-198 | Directories and operations ascend: a proper prefix, or the smaller character at the first difference, comes first. |
| RuleOrder.OrderIrrelevant | internal/codegen/ruleplan/ruleplan.go:87-185 | With unique service names, the order of the files decides neither success nor which entries are planned. |
| RuleOrder.PlanUnique | internal/codegen/ruleplan/ruleplan.go:187-201 | Two plans for the same files in any order have the same directories, the same entries in the same order and targets of one package. |
| RuleOrder.OrderMattersForRepeatedNames | internal/codegen/ruleplan/ruleplan.go:87-124 | Without unique names this fails: of two files declaring one service the later one gives the rule. |
| ResourcePath.ValidateCheckRule | cmd/protoc-gen-plateau-authz/main.go:71-134 | A rule passes exactly when it needs no check, or names action, type and exactly one target without outer white space and its path, if any, has no fault; a faulty path is reported at its first fault. |
| ResourcePath.NamedExactlyWhen | cmd/protoc-gen-plateau-authz/main.go:71-100 | A rule names its resource exactly when action and type, and one of identifier and path, are free of white space at their ends and not empty, the other of the two being empty. |
| ResourcePath.ResourceIdFromRequest | security/authz/openfga/middleware.go:81-132 | The loop over the segments gives the outcome of following the path in the message, with the segment at which it stops. |
| ResourcePath.FindTarget | security/authz/openfga/middleware.go:57-68 | The resource of a rule is its constant, or else what its path resolves to in the request. |
| ResourcePath.PathAgreement | cmd/protoc-gen-plateau-authz/main.go:100-147 | The generator accepts a path for a message type exactly when the path resolves in some message of that type. |
| ResourcePath.AcceptedPathEvaluates | security/authz/openfga/middleware.go:90-130 | On an accepted path the evaluation resolves to the value found, and fails only where a field on the path is absent or where the text found is blank. |
| ResourcePath.AbsentCountsAsDefault | security/authz/openfga/middleware.go:105-127 | An absent integer field without presence names the resource 0, and such a string field none. |
| ResourcePath.WitnessResolves | cmd/protoc-gen-plateau-authz/main.go:104-133 | For every accepted path a message of the type exists in which it resolves, recursive types included. |
| ResourcePath.LastSegment | cmd/protoc-gen-plateau-authz/main.go:112-147 | A path may end in a singular string or integer field outside of real oneofs, and in nothing else. |
| ResourcePath.GeneratedRuleFindsTarget | security/authz/openfga/middleware.go:57-68 | A rule that passed the generator never lacks a target and never fails for the shape of the request's type. |
| ProtoTypes.TrimSpaceMeaning | security/authz/openfga/middleware.go:126-128 | Trimmed text is empty exactly when the text is white space, and trimming changes nothing exactly when neither end is white space. |
| ProtoTypes.FormatIntSpells | security/authz/openfga/middleware.go:113-122 | A number in a request is written in decimal, signed when negative, without leading zeros. |
| ProtoTypes.FormatIntInjective | security/authz/openfga/middleware.go:113-122 | Two numbers never name one resource. |
| LoginSessions.RunHolds | app/iam/service/internal/data/authn.go:124-167 | Over every run a session's absolute expiry is 30 days after its creation and its idle expiry 7 days after it was last seen, cut at the absolute one. |
| LoginSessions.AliveExactlyWhen | app/iam/service/internal/data/authn.go:147-167 | While nothing revokes a session, all its touches land exactly when every gap is under 7 days and every time before day 30, whatever else is written in between. |
| LoginSessions.RowMoves | app/iam/service/internal/data/authn.go:147-194 | Everything a write does to a session that is there: a touch in time sets when it was last seen and the new idle expiry, 7 days on but never past the absolute one; a revocation that names it stamps it once; nothing else changes it. |
| LoginSessions.RowAppears | app/iam/service/internal/data/authn.go:124-137 | A session appears only when opened with a new secret, with 7 days until it is idle and 30 in all. |
| SessionCalls.CallExactly | app/iam/service/internal/biz/session.go:73-110 | One call, with other writes before its read and between its read and its touch: it resolves exactly when the user is active and verified and the session is alive at the call's time both as read and as touched; resolved, it leaves the session seen at that time, and missed, it leaves what the others left. |
| SessionCalls.CallAnswers | app/iam/service/internal/biz/session.go:73-110 | What a call answers in every case: the owner and the touched session, the answer for a disabled user, the one for a user not active or verified, and the one for a session that is over or whose user is unknown. |
| SessionCalls.CallsExactly | app/iam/service/internal/biz/session.go:73-110 | Every run of calls, some resolved and some missed: which of them resolve is computed from their times and the writes of others alone. |
| SessionCalls.SequenceResolvesExactlyWhen | app/iam/service/internal/biz/session.go:73-110 | Calls that follow one another undisturbed all resolve exactly when every gap is under 7 days and every time before day 30. |
| SessionCalls.CallsResolveExactlyWhen | app/iam/service/internal/biz/session.go:73-110 | With whatever others write meanwhile, all calls resolve exactly when each is welcome and in time for both its read and its touch, the call before it having touched the session at its own time. |
| SessionCalls.NoLaterCallExactlyWhen | app/iam/service/internal/biz/session.go:73-110 | After any call, missed or not, no later one resolves exactly when none of them should, from the last seen time and revocation that the call leaves. |
| SessionCalls.NoLaterCallResolves | app/iam/service/internal/biz/session.go:84-88 | After a session was revoked or expired, with clocks that do not go back, no later call resolves it, whatever is written and whatever becomes of the user. |
| SessionCalls.NoCallAfterRevocation | app/iam/service/internal/biz/session.go:84-88 | After a revocation this needs no clock. |
| SessionCalls.MissedGapIsFinal | app/iam/service/internal/biz/session.go:102-108 | A call that misses although its user is active and verified, with no other call touching the session meanwhile, is followed by no call that resolves it. |
| SessionCalls.LateTouchRevives | app/iam/service/internal/data/authn.go:147-167 | The clocks matter: a touch whose clock was read before a missed call, but which lands after it, lets a later call resolve the session. |
| LoginSessions.DeadForever | app/iam/service/internal/data/authn.go:159-167 | With a clock that does not go back, a session once expired or revoked is never touched again. |
| LoginSessions.RevokedForever | app/iam/service/internal/data/authn.go:159-178 | A revoked session is never touched again at any clock, and keeps its revocation time. |
| LoginSessions.ResolvesExactlyWhen | app/iam/service/internal/biz/session.go:73-110 | Left alone, a call resolves exactly for an unrevoked, unexpired session of an active and verified user. |
| LoginSessions.RevocationBeatsResolve | app/iam/service/internal/data/authn.go:147-167 | A call that read an unrevoked session fails when a revocation lands before its conditional update. |
| LoginSessions.Sessions.Create | app/iam/service/internal/biz/session.go:57-70 | A session is made with both expiries, if its id and secret hash are new and a user is named. |
| LoginSessions.Sessions.Resolve | app/iam/service/internal/biz/session.go:73-110 | The call with others' writes between its read and its update has exactly the specified effect and outcome. |
| LoginSessions.Sessions.Logout | app/iam/service/internal/biz/session.go:113-125 | Both revocations are attempted whether or not the other fails, each that does not fail takes effect, and the answer tells which of the two failed. |
| LoginSessions.Sessions.RevokeOthersForUser | app/iam/service/internal/biz/session.go:128-140 | All sessions of the user but one, and all its token sessions, are revoked; each part that does not fail takes effect, and the answer tells which failed. |
| LoginSessions.Sessions.RevokeAllForUser | app/iam/service/internal/biz/session.go:143-155 | All login and token sessions of the user are revoked; each part that does not fail takes effect, and the answer tells which failed. |
| UserAggregate.RunKeepsInv | app/iam/service/internal/data/user.go:116-157 | Over every run each user has one email and one authenticator, is disabled exactly when the authenticator is and then that one has a revoked time, a pending user is unverified, and a row read earlier is current while its etag is. |
| UserAccounts.CreatedRows | app/iam/service/internal/data/user.go:116-157 | A registered user is pending with an unverified email, an initial administrator active with a verified one, each with one enabled authenticator. |
| UserAccounts.EmailsStayUnique | app/iam/service/internal/data/user.go:116-157 | Over every run no two users have one email address, and an address never changes hands. |
| UserAccounts.ActivatesExactlyWhen | app/iam/service/internal/data/user.go:314-333 | Activation takes effect exactly for a pending user, who is then active with the email verified at that time. |
| UserAccounts.ChangesStatusExactlyWhen | app/iam/service/internal/data/user.go:206-241 | A change of status takes effect exactly when the user is still as it was read, and then sets status, etag and authenticator together. |
| UserAccounts.ReplacesExactlyWhen | app/iam/service/internal/data/authn.go:100-122 | A password is replaced exactly through the user's own authenticator while the user is not disabled. |
| UserAccounts.ResetsExactlyWhen | app/iam/service/internal/data/account.go:108-159 | A reset takes effect exactly for an unconsumed and unexpired token of a user that is not disabled. |
| UserAccounts.NewTokenLives | app/iam/service/internal/data/account.go:27-52 | A new one-time token can be consumed until it expires. |
| UserAccounts.VerifiesOnce | app/iam/service/internal/data/account.go:54-84 | Over a whole run a verification token verifies at most once. |
| UserTheorems.EnablesDisabledOnly | app/iam/service/internal/biz/user.go:96-118 | An enabling that lands changes a user that is disabled at that moment, although it was read in an earlier statement. |
| UserTheorems.VerifiedForever | app/iam/service/internal/data/user.go:314-333 | A verified email stays verified, at the time it was first verified. |
| UserTheorems.StuckForever | app/iam/service/internal/data/user.go:314-333 | A user that left the pending state without a verified email never becomes active and verified again by any sequence of transactions. |
| UserTheorems.ActiveUnverifiedReachable | app/iam/service/internal/biz/user.go:96-118 | An active user without a verified email is reachable: register, disable while pending, enable. |
| UserTheorems.ActiveVerifiedExactlyWhen | app/iam/service/internal/biz/user.go:96-118 | Active users stay verified throughout a run exactly when the run never enables a user whose email is unverified. |
| UserTheorems.PasswordChanges | app/iam/service/internal/data/account.go:108-159 | A password changes only by a signed-in replacement or by a reset that consumes its token in the same commit. |
| UserTheorems.ResetExactly | app/iam/service/internal/data/account.go:126-154 | A reset takes effect exactly when it flips its token to consumed; it then sets the password of the token's user and no other, and otherwise changes nothing. |
| UserTheorems.ResetOnce | app/iam/service/internal/data/account.go:115-143 | Over a whole run a reset token sets a password at most once, and never after it was consumed. |
| UserServer.Accounts.UpdateStatus | app/iam/service/internal/data/user.go:206-241 | The conditional update of the user row and the update of its authenticators are one commit; a stale etag changes nothing. |
| UserServer.Accounts.ActivateEmail | app/iam/service/internal/data/user.go:314-333 | A pending user becomes active and its email verified in one commit; any other user is left alone. |
| UserServer.Accounts.ConsumeVerification | app/iam/service/internal/data/account.go:54-84 | With others' transactions between the lookup and the conditional update, a success consumes the token looked up, unconsumed and unexpired at that moment, and returns its user; a failure leaves no write of this call. |
| UserServer.Accounts.ConsumeAndReplacePassword | app/iam/service/internal/data/account.go:108-159 | With others' transactions between the lookup and the commit, a success is the atomic reset of the token looked up, and a failure leaves no write of this call. |
| UserServer.Accounts.ReplacePassword | app/iam/service/internal/data/authn.go:100-122 | The hash of an active, unrevoked authenticator of that user is replaced, and otherwise nothing. |
| UserServer.Accounts.ChangeStatus | app/iam/service/internal/biz/user.go:96-129 | Every answer of the call with its state: missing user, wrong state, stale etag, a lost race, a failed revocation; a user that is disabled already is not written, but its sessions are revoked. |
| UserRetries.DisabledMeansRevoked | app/iam/service/internal/biz/user.go:119-128 | A disabling is answered as done only when every login session, token session and token of the user is revoked. |
| UserRetries.RepeatedDisable | app/iam/service/internal/biz/user.go:96-129 | After a disabling whose revocation failed, disabling again with nothing failing revokes everything exactly when it expects no etag or the one the first call left; otherwise it is refused and changes nothing. |
| UserRetries.IdenticalDisable | app/iam/service/internal/biz/user.go:104-118 | The same call repeated finishes the revocation exactly when it expects no etag or the user had been disabled before; a call that named the etag of an active user is refused the second time. |
| UserRetries.IdenticalDisableExample | app/iam/service/internal/biz/user.go:104-118 | A concrete user and login session for which the repeated call is refused and the session stays live. |
| UserRetries.ResetNotRepeatable | app/iam/service/internal/biz/account.go:222-238 | A reset that set the password but could not revoke the sessions is refused at any later time, whatever happened in between, and then changes no table and no session. |
| UserServer.Accounts.ConfirmPasswordReset | app/iam/service/internal/biz/account.go:222-238 | A reset that lands is followed by the attempt to revoke all sessions of its user; when that fails the password stays changed and the call reports it. |

## Left out

- Creating and validating authorization requests: redirect addresses, PKCE, nonce and authentication methods. Requests appear with client, scopes and expiry only.
- OIDC discovery, user info claims, key sets and signing keys: they read state and add only easy members.
- Cryptography, base64 and JSON: SHA-256, HMAC and the codecs are parameters, with a round trip or the length of the digest assumed where a result needs it.
- Isolation below whole transactions, except for what TokenLocks and SweepSteps model. TokenLocks has rotations and revocations of one session each by statement, SweepSteps code exchanges and sweeps; there a rotation is two steps, its check and its commit, and the revocation of one session is one step, as TokenRaces.InterleavingsAreAtomic allows. The loop that revokes a user's sessions for a client one by one, and the login sessions, are not modelled by statement.
- That the token sessions of a logged-out login session are always revoked: a code exchange does not read the login session again, so the code does not keep this.
- That every active user is verified: the code does not keep it; UserTheorems gives the exact condition.
- UserUsecase.Usecase.UpdateUser: does not promise to return its own write, because the repository reads the row again after writing it and another write may have landed.
- UserUsecase.Usecase.CreateUser: the stored password hash, the mask paths and immutable-field checks of an update are not modelled; a row has one content.
- CapRuns.OneTokenPerChallenge: states a bound on the delay between the clock reads and the script, because without one the property fails; CapRuns.RedeemedAgainExactlyWhen says exactly when a second token is issued. A Redis key is taken to be visible before its deadline and gone from the deadline on.
- SessionCalls.NoLaterCallResolves: asks that no clock be read earlier than the end of the session; SessionCalls.LateTouchRevives shows why, and SessionCalls.NoLaterCallExactlyWhen has the exact condition.
- Random draws of the CAP server: a failing random source is not modelled; what is drawn is a parameter.
- AuditPages.ListEvents: rows that fail to scan are skipped by the code; scans are assumed to succeed. Without a ClickHouse the code answers an empty page, which is not modelled.
- Encoding of page tokens: a codec that decodes what it encodes, and never encodes to the empty text, is a parameter.
- The columns that an audit event is projected to, and how its source, trace and detail are read.
- Delivery guarantees of Kafka: offsets, rebalancing and redelivery. A batch that ClickHouse refuses is dropped from the buffer and its records are not committed; later commits may pass them. BatchWriter.Buffer.Flush and BatchRuns.CommittedIsInTable state this.
- BatchRuns.NothingLeftBehind: does not promise that the flusher ends, only what holds when it did; BatchRuns.CanStop says that it can; a flush is bounded by a timeout in the code, and fairness of the scheduler is not modelled.
- RulePlan.Build: which of several faults is reported first is left open beyond the kinds its contract states; a nil plugin or extension is not modelled, and the output directory of a file is given instead of computed from its path.
- RulePlan.AddMethod: requires names without a slash, as protobuf identifiers are.
- Cloning of rules and messages, and the text of error messages.
- The rest of the authorization middleware: actor checks, the decision of the authorizer and the mapping of errors to statuses.
- LoginSessions.Sessions.Resolve: clock values that are zero, which the code replaces by the current time, are not modelled.
- UserServer.Accounts.ConfirmPasswordReset: password hashing and its failure are not modelled, nor are sending mail, captchas and rate limits around the account calls.
- User profiles: copying fields by mask is left out; a profile edit changes only the etag.
