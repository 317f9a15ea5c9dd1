# Verification of the Todo API

A Dafny model of the parts of the Todo API whose guarantees are about whole runs, and proofs of those guarantees.

* **Credentials.** Rotating refresh sessions, one-time OAuth authorization codes bound to PKCE (sections 4.1.2 and 4.1.3
  of RFC 6749, sections 4.2 and 4.6 of RFC 7636) and single-use e-mail verification tokens, as one transition system
  over three tables. `Credentials` defines what each request and each maintenance job does; `Rotation`, `Redemption`,
  `EmailVerification`, `Accounts`, `Ownership`, `Authorization`, `Pruning`, `Clearing` and `StaleClock` prove what every
  run keeps, and `Answers` which answer each request gets; `Pkce` and `PkceBits` have the S256 challenge;
  `Interleaving`, `Statements` and `LateDeactivation` split code exchanges into statements under row locks; `Services`
  has the services as classes that change records and a unit of work in place, proved against `Credentials`.
* **The Todo list query.** `Search` (LIKE escaping) and `Listing` (filters, order, paging).
* **The Todo state machine, its read cache and the maintenance worker.** `Todos`, `Cache`, `TodoRoutes` and
  `MaintenanceRuntime`.

`dafny verify dfyconfig.toml` checks everything. Names follow the source, except that the states `todo` and `done` are
`Open` and `Completed`.

## How the system is modelled

* Time is in microseconds. Tokens keep whole seconds, rounded down (NumericDate, section 2 of RFC 7519). Every request
  carries its own clock readings: decoding what was presented, the service's `now`, decoding what was just made, and the
  start of the transaction, which the database takes for `created_at`. The theorems on chains, redemptions, reuse,
  revocation, deadlines and confirmations allow arbitrary readings. Those that compare instants of different requests
  say `MonotoneClock`: readings never go back from one request to the next.
* `hash_secret` is an ideal hash: the constructor `Digest`, which is injective. Random values are the `nonce` of a
  request, and `FreshNonces` says that they never repeat. The SHA-256 digest of a verifier is a parameter, and a token
  request carries the challenge computed from its verifier.
* A request names the statements at which the database raises (`faults`). A failing commit has no effect. Requests are
  atomic steps: those that change a row found by a read lock it from that read to the commit. Code exchanges, which the
  source makes safe by a conditional UPDATE alone, are also modelled statement by statement, with other requests running
  in between.
* A refresh token is its claims and a spelling, because several base64url texts decode to the same claims and signature
  and the source hashes the text.
* E-mail address and user id are one key of the account, the password check is a boolean of the request, and the
  subject of a token is a user id or a text that does not parse as one.
* The cache is a store with an expiry per entry and a clear per user. Replies that raise (not found) are not stored.
  The state machine of `Cache` interleaves reads, writes, clears and the archive job freely; `TodoRoutes` has the
  handlers one after another.
* The database is trusted to return ordered results that contain every selected row once; `Listing` proves that this
  determines the answer. `fold` is the database's case folding: it works character by character (one character may fold
  to several), keeps `%`, `_` and `\`, and makes no other character one of them.

## Where the code does less than one might expect

* `expires_at` of a session can move backwards. A refresh reads the clock before it waits for the row lock, so a request
  that waited can rotate with an older reading. `ExpiryMovesBackIff` gives the exact condition; with readings in order
  `ExpiryNeverMovesBack` holds.
* Clearing expired verification tokens also erases the request time that the cooldown needs. With a cooldown longer than
  the TTL, which the settings allow, a resend is answered earlier than without the job (`ClearingUnobservableIff`), so
  tokens are spaced by min(cooldown, TTL), not by the cooldown as `docs/api.md` says.
* The job is also observable where a confirmation of a token that it has cleared meets a failing commit and, under a
  cooldown no longer than the TTL, in no other way (`ClearingUnobservableInRunIff`). The corresponding
  commit of a logout is not observable: a token that was really issued has expired by the time its row may be pruned.
* The owner of a code is read without a lock. An account that is deactivated between that read and the commit of the
  exchange still gets its session (`DeactivationComesTooLate`); exactly then does the exchange differ from an atomic one
  (`CommitIsAtomicExchange`).
* The grace period recovers the previous token once. A third presentation of one token is reuse, also inside the grace
  period (`RedeemedAtMostTwice`, `ReuseIsDetected`).
* A stale cache entry can outlive the TTL counted from the write, and it can arise without any failure
  (`OverlapLeavesStaleEntry`), but only if the read that filled it spans the write (`LateHitSpansWrite`);
  `docs/architecture.md` names the TTL alone.
* If a cache backend clears by bare text prefix, clearing user 1 clears users 10 to 19 as well (`ClearedKeys`). That
  costs misses, never a wrong answer.

## Model

| member | source | states |
|---|---|---|
| Security.PairWithinDeadline | src/todo_api/core/security.py:188-228 | A pair can be made exactly if a whole second is left before the deadline; then, after rounding to whole seconds, both tokens end after their `iat` and after the issuing instant and never after the deadline, and `expires_in` is at least 1 and the true access lifetime to within a second |
| Security.PairWithoutDeadline | src/todo_api/core/security.py:117-137 | Without a deadline a pair is always made, with the same shape, ending after the minutes and days that are set |
| Security.BoundedLifetime | src/todo_api/core/security.py:117-137 | The bounded lifetime ends at the earlier of its own end and the deadline; it is refused exactly if the deadline is not in the future |
| Security.FreshTokenDecodes | src/todo_api/core/security.py:231-273 | A token just made decodes again exactly if that clock reading falls before its rounded expiry |
| Base.FloorSecond | src/todo_api/schemas/token.py:18-28 | What a NumericDate keeps of an instant: the last whole second not after it |
| Credentials.StagedRowIsSound | src/todo_api/services/auth.py:253-290 | Staging a login session yields a row that satisfies the three check constraints exactly if there is a second for it and its rounded expiry lies after the clock readings it is compared with; rounding alone never breaks created < expires <= absolute |
| Credentials.StagingErrors | src/todo_api/services/auth.py:263-274 | Staging raises exactly if no whole second is set for a session, or if the new token has run out by the time it is decoded; otherwise the row is the user's and meets its constraints exactly if created before its expiry |
| Rotation.SessionEffects | src/todo_api/models/refresh_session.py:41-59 | Whatever a request or job does, it opens one session, rotates one with a recognised token, revokes one, or only drops rows |
| Rotation.RotationChain | src/todo_api/services/auth.py:303-367 | In every reachable state a session row holds exactly the last issued token as current and the one before it as previous (none if never rotated), the owner of the chain, the fixed deadline, and as expiry the floor of the last issue plus the refresh lifetime cut by the deadline |
| Rotation.TokenHashesAreUnique | src/todo_api/models/refresh_session.py:32 | No two rows ever share a current hash, so the unique constraint never refuses a row |
| Redemption.RedeemedAtMostTwice | src/todo_api/services/auth.py:326-343 | In any run each refresh token is redeemed at most twice, and at most once without a grace period |
| Redemption.OnePairPerRefresh | src/todo_api/services/auth.py:351-361 | Conservation: the pairs of a session are its first one plus one for each answered refresh |
| Redemption.RefreshAcceptedIff | src/todo_api/services/auth.py:313-367 | At every reachable state a refresh is answered with a pair exactly if the token decodes, is the last of its chain or its predecessor inside the grace period, the session is active, its owner is active, there is time before the deadline, and no statement fails |
| Answers.RefreshAnswers | src/todo_api/services/auth.py:303-367 | Which answer every refresh gets, at every reachable state: each error exactly when, in the order of the checks, read off the chain and the history of the owner |
| Redemption.LateUseBound | src/todo_api/services/auth.py:400-420 | Token k is never accepted later than token k+1's issue time plus the grace period, and only while token k+1 is the last one |
| Redemption.LostAnswerIsRecovered | src/todo_api/services/auth.py:326-361 | A client that lost a refresh answer and retries inside a positive grace, with no refresh in between, always gets a new current token, however long the request takes, as long as its last clock reading leaves a second of the session and of the new token |
| Redemption.TokensEndByDeadline | src/todo_api/services/auth.py:351-361 | Every access and refresh token of a session carries the second of its issue and ends after its lifetime or at the deadline fixed at login, whichever comes first, in whole seconds; the row still stores that deadline |
| Redemption.IssuedTokenDecodesIff | src/todo_api/core/security.py:231-273 | An issued token decodes, to itself, exactly from the second of its issue until its rounded expiry |
| Redemption.ActiveIff | src/todo_api/models/refresh_session.py:41-43 | In every reachable state a session is active exactly if it was not revoked and its last token has not expired; the deadline check decides nothing more |
| Redemption.ExpiryNeverMovesBack | src/todo_api/models/refresh_session.py:48-59 | Under a clock that never goes back, between any two points of a run a session's expiry does not move backwards and its deadline does not move |
| StaleClock.ExpiryMovesBackIff | src/todo_api/services/auth.py:313-361 | For arbitrary readings: an accepted refresh moves the expiry back exactly if it was read in an earlier second than the last use and its lifetime ends before the deadline's second |
| StaleClock.StaleReadingMovesExpiryBack | src/todo_api/services/auth.py:314-321 | A concrete run in which that happens, because `now` is read before the row lock is waited for |
| Redemption.ReuseRevokes | src/todo_api/services/auth.py:332-335 | The reuse error is raised only for a token that is not (or no longer) redeemable on an active session, and then the revocation is committed although the request fails; every other failing refresh leaves all tables as they were |
| Redemption.ReuseIsDetected | src/todo_api/services/auth.py:323-335 | Presenting a token outside the window to an active session of its subject always raises the reuse error |
| Redemption.RespelledTokenIsReuse | src/todo_api/services/auth.py:313-335 | The hash is of the text: any other base64url spelling of a token, even of the current one, decodes and is taken for reuse |
| Redemption.RevocationIsFinal | src/todo_api/models/refresh_session.py:45-46 | A revoked session keeps its revocation instant in every continuation, and its chain of pairs never grows again |
| Redemption.NothingAcceptedAfterRevocation | src/todo_api/services/auth.py:323-324 | After a revocation every refresh with a token of that session fails, at every later point of the run |
| Redemption.LoginOpensSession | src/todo_api/services/auth.py:292-301 | A login opens a session, and with it a chain of one pair, exactly for good credentials of an active, verified account when there is time and no statement fails; otherwise nothing changes |
| Answers.LoginAnswers | src/todo_api/services/auth.py:220-301 | Which error every login gets: bad credentials, then a deactivated account, then an unconfirmed one, all read off the history, then what staging and commit raise |
| Redemption.LogoutIsIdempotent | src/todo_api/services/auth.py:369-394 | Any unexpired token of a session logs it out; repeating the logout changes nothing, even where its commit fails; other sessions are untouched; only a failing database makes a logout fail, and then nothing changes |
| Redemption.LogoutIsForGood | src/todo_api/services/auth.py:369-394 | After an answered logout, in every continuation of the run the session stays revoked at one instant, its chain does not grow and every refresh with any of its tokens fails |
| EmailVerification.UserEffects | src/todo_api/services/auth.py:145-218 | To each account a step issues a token, confirms it, clears an expired token, creates or deactivates it, or does nothing |
| EmailVerification.PendingRowShape | src/todo_api/models/user.py:33-49 | Every reachable account row has token hash and expiry set together, only while unverified, for the last token issued, with expiry = request time + TTL |
| EmailVerification.ConfirmedAtMostOnce | src/todo_api/services/auth.py:181-218 | An account is verified at most once in any run |
| EmailVerification.OnlyLatestTokenConfirms | src/todo_api/services/auth.py:190-216 | Whatever the clock readings, only the last token issued to a still unverified account verifies it, strictly before that token's own expiry |
| EmailVerification.ConfirmedIff | src/todo_api/services/auth.py:181-218 | Under a clock that never goes back a confirmation succeeds exactly if it presents the last token issued before its expiry to a still unverified account and no statement fails |
| EmailVerification.IssuanceSpacing | src/todo_api/services/auth.py:145-179 | Two consecutive tokens of an account are issued at least min(cooldown, TTL) apart, although the clearing job erases the request time |
| EmailVerification.ResendAnsweredIff | src/todo_api/services/auth.py:156-177 | For all settings and clock readings: a resend yields a token exactly for an unverified account whose last token is at least the cooldown old or had its request erased by a clearing job, if no statement fails |
| EmailVerification.ResendAfterCooldown | src/todo_api/repositories/user.py:51-70 | With a cooldown no longer than the TTL and readings in order the job makes no difference: exactly if the last token is at least the cooldown old |
| Answers.ResendAnswers | src/todo_api/services/auth.py:145-179 | A resend that is due yields the request's own token and its expiry or raises for the database; one that is not due silently does nothing |
| Answers.ConfirmationAnswers | src/todo_api/services/auth.py:181-218 | A confirmation of a token that an account awaits: verified before the token's expiry, cleared and refused afterwards, untouched where a statement fails |
| Answers.UnknownTokenRefused | src/todo_api/services/auth.py:184-199 | A blank token, or one that no account awaits, is refused and changes nothing |
| EmailVerification.TokensNameTheirAccount | src/todo_api/models/user.py:37-41 | No two accounts ever hold the same token hash |
| Ownership.OwnersStayVerified | src/todo_api/services/auth.py:239-246 | In every reachable state the owner of each session and each code is e-mail-verified |
| Ownership.RefreshNeverUnverified | src/todo_api/services/auth.py:339-349 | So the verification check in a refresh never fires, and neither does the missing-user branch that commits a revocation |
| Accounts.RegisteredOnce | src/todo_api/services/auth.py:92-143 | In any run an address is registered at most once, and has an account exactly from then on |
| Answers.RegistrationAnswers | src/todo_api/services/auth.py:73-143 | A registration is answered exactly for an address never registered before and without failing statements, and adds exactly this row; a known address is refused as such exactly then; every failure changes nothing |
| Accounts.AdmittedIff | src/todo_api/services/auth.py:220-251 | At every reachable state credentials are accepted exactly with the right password for an address that was registered, was confirmed or trusted, and was never deactivated, all read off the history |
| Accounts.WrongPasswordRevealsNothing | src/todo_api/services/auth.py:223-246 | With a wrong password the answer is the same whatever accounts exist and in whatever state, and nothing changes |
| Accounts.DeactivationIsFinal | src/todo_api/services/user.py:38-49 | No step of any continuation activates an account again |
| Accounts.NothingAfterDeactivation | src/todo_api/services/user.py:38-49 | After a deactivation no login, exchange or refresh ever gives tokens to the account again, and no code is issued to it, although its rows stay |
| Answers.DeactivationAnswers | src/todo_api/services/user.py:38-49 | A deactivation fails exactly where there is something to change and the commit fails; otherwise exactly the flag of that account is cleared |
| Authorization.CodeHistory | src/todo_api/models/oauth_authorization_code.py:15-42 | A code row keeps the bindings, expiry and owner of the request it was issued to, is consumed exactly if it was redeemed, and disappears only after expiry |
| Authorization.CodeIssuedIff | src/todo_api/services/oauth.py:55-105 | A code is issued exactly to the configured client, for one of its redirect URIs and a blank scope, with good credentials of an active, verified account, a challenge of 43 characters and a creation time before its expiry; then exactly the expired codes go and this row comes, otherwise nothing changes |
| Answers.IssueAnswers | src/todo_api/services/oauth.py:55-90 | Which error the issuing of a code gets: client, redirect URI, scope, then the refusals of a login |
| Authorization.RedeemedAtMostOnce | src/todo_api/repositories/oauth.py:44-67 | No authorization code is redeemed twice in any run |
| Authorization.ExchangeAcceptedIff | src/todo_api/services/oauth.py:107-147 | An exchange is answered with tokens exactly if its code was issued to a request with the same client, redirect URI and challenge, is unexpired and unredeemed, its owner is active, there is time for a session and no statement fails |
| Answers.ExchangeAnswers | src/todo_api/services/oauth.py:107-147 | Which answer every exchange gets under a clock that never goes back: each error exactly when, in the order of the checks, read off the history of the code and of its owner |
| Authorization.OnlyTheVerifierRedeems | src/todo_api/services/oauth.py:117-130 | A code issued for the challenge of one digest is redeemed only with a verifier of that digest |
| Pkce.StripLeavesData | src/todo_api/services/oauth.py:37-40 | Stripping the padding leaves exactly the data characters of the base64url text, all from the URL-safe alphabet |
| Pkce.DecodeInvertsChallenge | src/todo_api/services/oauth.py:37-40 | Decoding unpadded base64url undoes the challenge encoding, for digests of any length |
| Pkce.ChallengeForm | src/todo_api/models/oauth_authorization_code.py:22 | Every challenge of a 32-byte digest is 43 characters of the allowed alphabet, and two digests share one only if they are equal |
| PkceBits.ChallengeIsBits | src/todo_api/services/oauth.py:37-40 | Letter k of a challenge is the letter of RFC 4648's table numbered by bits 6k to 6k+5 of the digest, missing bits taken as zero |
| PkceBits.ChallengeLength | src/todo_api/services/oauth.py:37-40 | It has exactly as many letters as it takes to hold every bit |
| Interleaving.ConsumptionsMatchSessions | src/todo_api/services/oauth.py:107-147 | However the statements of concurrent exchanges interleave, consumed codes, answered exchanges and commits match one to one; no two commits share a request, a code or a session |
| Interleaving.StatementsCommitWhole | src/todo_api/repositories/oauth.py:54-67 | Each statement either changes no committed row or commits one whole redemption: one code from unconsumed to consumed together with one new session of its owner |
| Statements.ArriveIff | src/todo_api/services/oauth.py:113-120 | A request for the configured client starts, any other is answered InvalidClient, whatever else is under way |
| Statements.ConsumeIff | src/todo_api/repositories/oauth.py:54-67 | The UPDATE takes the lock exactly if its row matches, may be consumed now and is not locked; waits exactly if a matching row is locked; answers InvalidGrant exactly if no row matches; locks on other rows do not matter |
| Statements.ConsumedIsRefused | src/todo_api/repositories/oauth.py:63-64 | A code that any exchange has consumed is refused from then on, also to those that waited for it |
| Statements.LoadIff | src/todo_api/services/oauth.py:135-138 | Reading the owner goes on exactly if the owner is active, else answers InvalidGrant and frees the lock |
| Statements.StageIff | src/todo_api/services/oauth.py:140 | Staging goes on exactly if there is a second for a session and its token still decodes, for the owner of the code; else it raises and frees the lock |
| Statements.CommitIff | src/todo_api/services/oauth.py:141-147 | The commit is answered with the staged pair, and stores the staged row, exactly if the row meets its constraints and its owner exists; it frees the lock in any case |
| Statements.RaiseIff | src/todo_api/db/session.py:64-66 | An unanswered exchange can raise at any time; only its lock and its phase change |
| Statements.OthersDoNotWait | src/todo_api/services/auth.py:303-321 | Requests that neither insert nor delete codes never wait for an exchange |
| Statements.PruneWaitsIff | src/todo_api/repositories/oauth.py:34-41 | The prune job waits exactly if it would delete a code that an exchange has locked |
| Statements.ExchangeCompletes | src/todo_api/services/oauth.py:107-147 | Progress: whatever else is under way, a new exchange of an unlocked code, left to run through its statements, ends with the tables and the answer of the atomic exchange |
| Interleaving.UnansweredLeavesNothing | src/todo_api/db/session.py:59-66 | An exchange that raised, or is still under way, has no session and has consumed no code |
| Interleaving.RaisingRestores | src/todo_api/db/session.py:61-66 | Raising while the row lock is held changes no committed row, frees the lock and leaves the code redeemable |
| Interleaving.CommitIsAtomicExchange | src/todo_api/services/oauth.py:122-147 | Refinement: the commit of an interleaved exchange does and answers what the exchange as one atomic step would at that instant, exactly if the owner is active then |
| LateDeactivation.OwnerWasActive | src/todo_api/services/oauth.py:135-140 | However the statements interleave, an exchange about to commit found its owner active while it held the lock on its code |
| LateDeactivation.DeactivationComesTooLate | src/todo_api/services/oauth.py:135-141 | From every reachable state in which an exchange has read its active owner, a deactivation that comes first still ends in a session of the inactive account |
| LateDeactivation.InactiveAccountGetsSession | src/todo_api/services/user.py:38-49 | A concrete run of that kind exists |
| Pruning.PruningUnobservable | src/todo_api/repositories/refresh_session.py:11-18 | Deleting every session and code prune job from a run leaves the answers of everything else the same, whatever the settings, the clearing jobs in the run and the statements that fail |
| Clearing.ClearingUnobservableInRunIff | src/todo_api/services/auth.py:201-208 | For every run under a cooldown no longer than the TTL, deleting the clearing jobs as well leaves every answer the same exactly if no confirmation whose commit fails presents a token that a job has cleared and nothing has superseded since |
| Clearing.ClearingUnobservableIff | src/todo_api/repositories/user.py:51-70 | For given settings the clearing job is unobservable in all runs without such a confirmation exactly if the cooldown is at most the token TTL |
| Clearing.FailingConfirmationDiffers | src/todo_api/services/auth.py:201-208 | For any settings there is a run with such a confirmation, whose failing commit is answered differently |
| Pruning.JobsRemoveExpired | src/todo_api/background/maintenance.py:19-46 | A job is answered exactly unless a statement fails; then it leaves nothing expired in its own table and everything else as it was, and otherwise it changes nothing |
| Pruning.HashesAreUnique | src/todo_api/models/user.py:37-41 | The unique index on the verification token hash can never refuse a row |
| Services.UnitOfWork.Commit | src/todo_api/db/session.py:59-66 | A commit makes the whole pending work visible or, with a violated constraint or a failing database, nothing of it |
| Services.UnitOfWork.Rollback | src/todo_api/db/session.py:64-66 | A rollback drops all pending work |
| Services.RefreshSessionRecord.Revoke | src/todo_api/models/refresh_session.py:45-46 | Sets the revocation instant once and leaves the record inactive |
| Services.RefreshSessionRecord.Rotate | src/todo_api/models/refresh_session.py:48-59 | Raises on an inactive session and then changes nothing; otherwise shifts the current hash to previous and bounds the new expiry by the deadline |
| Services.AuthService.RegisterAccount | src/todo_api/services/auth.py:92-143 | The committed tables and the answer are those of the registration step |
| Services.AuthService.RegisterPendingVerification | src/todo_api/services/auth.py:73-90 | Registration with a first pending token that expires after the TTL |
| Services.AuthService.RequestVerification | src/todo_api/services/auth.py:145-179 | The committed tables and the answer are those of the resend step |
| Services.AuthService.VerifyEmail | src/todo_api/services/auth.py:181-218 | The committed tables and the answer are those of the confirmation step, also where an expired token is cleared by a request that fails |
| Services.AuthService.StageSession | src/todo_api/services/auth.py:253-290 | Adds the new row to the unit of work without committing; on an error nothing is added |
| Services.AuthService.CreateLoginSession | src/todo_api/services/auth.py:292-301 | The committed tables and the answer are those of the login step |
| Services.AuthService.RefreshLoginSession | src/todo_api/services/auth.py:303-367 | The committed tables and the answer are those of the refresh step, with the revocation of a reused token committed before the failure |
| Services.AuthService.IsRecoverablePreviousToken | src/todo_api/services/auth.py:400-420 | Exactly the previous token inside a positive grace period after the rotation |
| Services.AuthService.RevokeSessionOf | src/todo_api/services/auth.py:369-394 | The committed tables and the answer are those of the logout step |
| Services.AuthService.Deactivate | src/todo_api/services/user.py:38-49 | The committed tables and the answer are those of the deactivation step |
| Services.OAuthService.IssueCode | src/todo_api/services/oauth.py:65-105 | The committed tables and the answer are those of the issuing step: validate, authenticate, prune, insert, commit |
| Services.OAuthService.ExchangeAuthorizationCode | src/todo_api/services/oauth.py:107-147 | The committed tables and the answer are those of the exchange step; consumption and session commit together or not at all |
| Services.CreateCode | src/todo_api/repositories/oauth.py:11-31 | Inserts the row, and notes a duplicate key or a violated constraint |
| Services.PruneExpiredCodes | src/todo_api/repositories/oauth.py:34-41 | Keeps exactly the codes that expire later |
| Services.ConsumeCode | src/todo_api/repositories/oauth.py:44-67 | Succeeds exactly for a matching, unexpired, unconsumed code, marks that row only and returns its owner |
| Services.RunJob | src/todo_api/background/maintenance.py:19-46 | The committed tables and the answer are those of the maintenance step |
| Services.Serve | src/todo_api/db/session.py:59-66 | Each request runs in its own unit of work and has exactly the effect and answer of its step; one that raises is rolled back, and what it had committed stays |
| Services.EnforcedInEveryRun | src/todo_api/models/refresh_session.py:20-23 | The constraints that requests rely on hold in every reachable state |
| Search.EscapeLikeIsPerCharacter | src/todo_api/repositories/todo.py:14-15 | The three replacements one after another equal one per-character escape |
| Search.EscapingPreservesMeaning | src/todo_api/repositories/todo.py:33-40 | Matching a text against `%` + escaped query + `%` under LIKE holds exactly if the query is a substring of it, whatever special characters it has |
| Search.SearchFindsSubstrings | src/todo_api/repositories/todo.py:33-40 | The same for ILIKE with any folding that works character by character and leaves the special characters alone: the folded query is a substring of the folded text |
| Search.LikeMeaning | src/todo_api/repositories/todo.py:37-38 | LIKE with an escape character, rule by rule: what `%`, `_`, an escaped and any other character match |
| Search.EscapingIsNeeded | src/todo_api/repositories/todo.py:14-15 | Without the escaping a search for an underscore would find any character |
| Listing.FiltersMeanWanted | src/todo_api/repositories/todo.py:18-54 | In three-valued logic the built conditions select exactly the rows the query asks for; a row without description or due date meets no condition on it |
| Listing.LexLessMeaning | src/todo_api/repositories/todo.py:63-70 | Titles are ordered by their first difference, a proper prefix first |
| Listing.BeforeIsStrictTotal | src/todo_api/repositories/todo.py:57-77 | Sort column (nulls last for the due date, in either direction) and then id form a strict total order on a table's rows |
| Listing.ResultIsInOrder | src/todo_api/repositories/todo.py:63-77 | In every answer the column rises or falls as asked, missing due dates come last, and ties follow the id in the same direction |
| Listing.ResultIsDetermined | src/todo_api/repositories/todo.py:146-158 | There is exactly one ordered result for a set of rows |
| Listing.PagesTile | src/todo_api/repositories/todo.py:121-161 | On one snapshot the pages at offsets 0, limit, 2*limit, ... put end to end are the wanted rows, each once, in order, and every `total` is their number |
| Listing.EveryPageHasOneAnswer | src/todo_api/repositories/todo.py:146-161 | Each page has one possible answer, and it has one |
| Todos.TodoRecord.Complete | src/todo_api/models/todo.py:107-112 | Refuses a cancelled todo and changes nothing; otherwise sets status and completion time |
| Todos.TodoRecord.Reopen | src/todo_api/models/todo.py:114-116 | Opens the todo and removes its completion time |
| Todos.TodoRecord.Cancel | src/todo_api/models/todo.py:118-120 | Cancels the todo and removes its completion time |
| Todos.TodoRecord.MoveTo | src/todo_api/services/todo.py:159-185 | Succeeds exactly for a legal transition; a refused one leaves the record as it was |
| Todos.TodoService.UpdateTodo | src/todo_api/services/todo.py:101-134 | The loop over the changes and the transition commit as one update step; a refusal after fields were set commits nothing |
| Todos.RowsComeFromCreates | src/todo_api/services/todo.py:33-50 | Every row goes back to exactly one create that saved it, by its owner and at its creation time, and was there ever since |
| Todos.DeleteUndoesCreate | src/todo_api/services/todo.py:136-157 | A delete by the owner restores the table as it was before the create; a delete by anyone else finds nothing and changes nothing |
| Todos.TodoService.ArchiveOld | src/todo_api/background/maintenance.py:49-65 | The rows completed for that many days, and no others, become archived in place; the answer is that of the archive step |
| Todos.LastChangeWins | src/todo_api/services/todo.py:121-122 | After the loop each attribute is what its last change says, or what it was |
| Todos.SavedUpdateIsVisible | src/todo_api/services/todo.py:118-130 | A saved update is the answer and the row, with a new `updated_at` if anything changed |
| Todos.RefusedUpdateLeavesRow | src/todo_api/services/todo.py:159-185 | An update is refused exactly from cancelled to in-progress or done and from done to cancelled, and then the row keeps every field, also those set before |
| Todos.UpdateAnswers | src/todo_api/services/todo.py:101-134 | Which answer every update gets; a legal one without failures and with a title is always saved, with the requested status or the old one |
| Todos.CreateSavedIff | src/todo_api/services/todo.py:33-50 | A create is saved exactly as requested, under a new id and with a title that is not all spaces, exactly unless a statement fails |
| Todos.DeletedIff | src/todo_api/services/todo.py:136-157 | A delete removes exactly its owner's row, finds nothing else, and fails for the database only |
| Todos.CompletedIffTimed | src/todo_api/models/todo.py:47-54 | After any sequence of creates, updates, refusals, deletes and archive jobs a todo is done exactly if it has a completion time |
| Todos.CompletionTimeIsFixed | src/todo_api/models/todo.py:107-112 | While a todo stays done its completion time does not change, whatever else is updated or archived |
| Todos.RowsKeepTheirId | src/todo_api/models/todo.py:66-67 | Rows stay under their own id in every run |
| Todos.OthersUntouched | src/todo_api/services/todo.py:101-157 | A request of one user leaves every row of other users as it was |
| Todos.ArchivingIsIdempotent | src/todo_api/repositories/todo.py:168-179 | Archiving twice with one cut-off equals archiving once, and it changes only the flag and time stamp of old done rows |
| Todos.ArchivedIff | src/todo_api/background/maintenance.py:49-65 | The job archives, at this time, exactly the todos completed and unarchived for that many days of 24 hours; every other row stays, zero days change nothing, and only a failing job is refused |
| Todos.ArchiveCounts | src/todo_api/repositories/todo.py:178-179 | The job reports exactly the number of rows it changed and removes none |
| Cache.DecimalInjective | src/todo_api/core/cache.py:102 | Different user ids give different key prefixes |
| Cache.DecimalNames | src/todo_api/core/cache.py:102 | Ids are written in decimal without leading zeros |
| Cache.KeysTellApart | src/todo_api/core/cache.py:87-102 | Two reads share a key exactly if they are of the same user and have the same digest; only positive ids have keys |
| Cache.ClearedKeys | src/todo_api/core/cache.py:102-109 | Clearing `<namespace>:user:<id>` up to the separator hits exactly that user's keys; as a bare text prefix it also hits every user whose id continues the same digits |
| Cache.OwnRowsDecide | src/todo_api/services/todo.py:52-99 | What a user is answered depends on that user's own rows only |
| Cache.ServeIsRight | src/todo_api/repositories/todo.py:136-161 | The reply of the model is the only right one: for a list, an answer that the database may give for that query and page; for one todo, the owned row with that id, or not found |
| Cache.BoundedStaleness | src/todo_api/api/v1/routes/todos.py:106-107 | Whatever interleaves and whichever clears fail, a hit is what the service would have answered at some moment less than the TTL plus the filling read's duration ago |
| Cache.HitsEqualDirectReads | src/todo_api/core/cache.py:105-113 | If no read of a user overlaps that user's writes, clears succeed and the archive job is idle, a hit equals a direct read, whatever other users do |
| Cache.OverlapLeavesStaleEntry | src/todo_api/api/v1/routes/todos.py:186-187 | The premise is needed: from any state in which a read misses and for any write that changes its answer, a read that queried before the write and stores d after the clear leaves a stale entry that is still answered d + w after the write, for any d and any w below the TTL |
| Cache.LateHitSpansWrite | src/todo_api/core/cache.py:108-113 | And only that outlives the TTL: a hit a TTL or more after a write that was read from before it was filled by a read that started before and stored after the write |
| TodoRoutes.ReadCache.Get | src/todo_api/api/v1/routes/todos.py:130-137 | Answers exactly a stored entry that has not expired |
| TodoRoutes.ReadCache.Invalidate | src/todo_api/core/cache.py:105-113 | Drops exactly the user's entries; a failing backend drops nothing and raises nothing |
| TodoRoutes.Handlers.AskService | src/todo_api/services/todo.py:52-99 | From the rows that the database orders, the reply is a right one: the page and total that the query asks for, or the owned todo, or not found |
| TodoRoutes.Handlers.HandleRead | src/todo_api/api/v1/routes/todos.py:122-159 | A cached read takes the model's steps; a hit was right less than the TTL plus the duration of its filling read ago, a miss is a right answer on the current table, and while all entries are up to date every answer is and they stay so |
| TodoRoutes.Handlers.HandleWrite | src/todo_api/api/v1/routes/todos.py:186-187 | Commit first, clear afterwards, in the model's steps; a refused change clears nothing, a failing clear does not change the answer, and a successful one keeps every user's entries up to date |
| TodoRoutes.Handlers.HandleArchive | src/todo_api/background/maintenance.py:49-65 | The archive job changes rows as its step does and clears nothing, in the model's step |
| MaintenanceRuntime.MaintenanceWorkerRuntime.Initialize | src/todo_api/background/maintenance_runtime.py:20-28 | Opens a runner if there is none; a failing loop leaves none behind |
| MaintenanceRuntime.MaintenanceWorkerRuntime.Run | src/todo_api/background/maintenance_runtime.py:30-43 | Creates the database on first use, on the runner it is then used with; succeeds exactly if the loop and the database are there or can be made and the operation succeeds |
| MaintenanceRuntime.RunOperatesOnce | src/todo_api/background/maintenance_runtime.py:30-43 | A run operates exactly once, on the runner and database then live, exactly if both are there or can be made, and keeps what was live |
| MaintenanceRuntime.MaintenanceWorkerRuntime.Shutdown | src/todo_api/background/maintenance_runtime.py:45-60 | Empties the fields first, attempts the disposal and closes the runner even if it fails |
| MaintenanceRuntime.RunnersAndDatabasesBalance | src/todo_api/background/maintenance_runtime.py:20-60 | Over any sequence of calls and failures at most one runner and one database are live, a live database has a live runner, each database's disposal is attempted at most once, on its own runner, each runner is closed at most once and never used afterwards |
| MaintenanceRuntime.ShutdownReleasesAll | src/todo_api/background/maintenance_runtime.py:45-60 | After a shutdown every runner opened is closed exactly once and every database created was disposed of exactly once |

## Left out

- Pruning.PruningUnobservable: assumes that logouts whose commit fails present tokens that were issued, because a forged token could name an expired row.
- Cache.HitsEqualDirectReads: says nothing while a write of the user stands between its commit and its clear.
- Statement-level interleavings of requests other than code exchanges: what they change they lock from the read to the commit, or (deactivation) it is a single column. Two registrations of one address that race for the unique index are not modelled; the loser gets the error of a duplicate address.
- Accounts.NothingAfterDeactivation: is about requests as atomic steps; login, code issuance and refresh read the account without a lock, so a deactivation between that read and the commit is not seen, as in the exchange.
- A database error that leaves it unknown whether a commit took effect.
- Search.SearchFindsSubstrings: case folding that depends on the neighbouring characters (a final sigma, say) is not covered.
- Password hashing and its upgrade on login, which `authenticate` stages in the same transaction; SHA-256, HMAC, constant-time comparison, random generators.
- The token checks of PyJWT other than the times: signature, issuer, audience and claim types are one case, `Malformed`.
- The scope of an authorization request is only whether it is blank; `state` and the response type are not modelled.
- Normalisation of e-mail addresses, titles, descriptions and verification tokens by the request schemas; a verification token that is blank after trimming is `None`.
- Deletion of accounts, which cascades to sessions, codes and todos: no service of the API does it.
- API keys, profile updates and reads of single accounts: no state that the results depend on.
- Foreign keys of todos, the lengths of texts, the bounds of `limit` and `offset` and the check of the due range: the results hold for all values.
- Collations other than by character code; the order is total for any collation that is.
- List items and total are read by two statements; the model has both on one snapshot.
- How Redis and the memory backend store entries, encode replies and set headers, and the on/off switch of the cache. The digest in a key is taken to be injective in the read.
- A runner whose loop cannot be created counts as never opened.
- HTTP routing, cookies, CSRF and origin checks, the login page, e-mail delivery, schedulers, logging, metrics, settings parsing, migrations, scripts and deployment.
