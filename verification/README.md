# Verified model of the JouTak backend's state machines

A Dafny 4.11 model of four state machines of the JouTak backend, with proofs of what they keep
over whole runs. Run `dafny verify dfyconfig.toml` in this directory.

- **Refresh tokens and sessions** (`AuthTables`, `AuthInvariant`, `AuthRuns`, `AuthPurge`, `AuthBulk`,
  `AuthOutcomes`, `AuthRaces`, `AuthRaceSteps`, `AuthRaceWitness`, `AuthStore`). Session metas, token mappings,
  outstanding and blacklisted tokens evolve together under issue, refresh, logout, revoke, cleanup and
  invalidation. `AuthTables` says what each request does to whole tables, `AuthStore` does it write by write,
  `AuthRaces` interleaves the steps between row locks.
- **The WebAuthn one-use challenge boundary** (`Base64Url`, `WebAuthn`, `WebAuthnAnswer`, `WebAuthnRoutes`,
  `WebAuthnBoundary`, `WebAuthnRaces`, `WebAuthnSteps`, `WebAuthnSecondUse`) over the **fail-closed cache** (`SecurityCache`):
  sections 7.1 and 7.2 of W3C Web Authentication Level 2 as far as challenge, type and origin go, the challenge
  freshness of its section 13.4.3, and unpadded base64url of section 5 of RFC 4648.
- **Feature flags** (`FlagRegistry`, `FlagValidation`, `FlagEvaluation`, `FlagAudience`, `FlagSources`,
  `FlagOrder`, `FlagSticky`, `FlagService`, `FlagAgreement`), their **guided rollouts** (`Rollouts`,
  `RolloutDecisions`, `RolloutRaces`, `RolloutSteps`, `RolloutEffect`) and the two **data migrations** with reversals
  (`DesignReset`, `ContactSeed`, `SeedOutcomes`).
- **Admin MFA** (`AdminMfa`, `AdminMfaOutcomes`, `AdminMfaRuns`, `AdminMfaLogin`) with its **rate epochs** (`RateEpochs`, `RateEpochRuns`,
  `RateEpochSteps`).

Code that updates rows or sessions in place is a class whose methods are proved equal to functions on
the old state; the laws are lemmas about those functions and about runs of them.

## Assumptions

- Primary keys come from one growing sequence per table, flag keys are unique, and clocks do not run backwards.
- Token identifiers (jti), nonces, session bindings, flow ids and rate epochs are fresh random texts.
- A Django session key belongs to one user (`AuthInvariant.OwnedBy`); the guard looks metas up by key
  without the user, so the invariant needs it.
- SHA-256 is collision-free: a digest is its preimage behind a tag. JSON, UTF-8 and float formatting are
  function parameters. A verified JWT is one whose claims this server has signed.
- The inherited Django `_base_set` and `get` insert if absent (or expired) and keep a row readable until its
  expiry is before the whole-second present. allauth ends the session row it is told to end.
- A request of the session endpoints is one transaction; `AuthRaces` drops that and assumes only what row
  locks and single statements give.

## Where the code falls short of its description

- *Cleanup with a negative retention* is accepted by the command and deletes records of valid tokens
  (`AuthPurge.PurgeSafeExactly` gives the exact cutoffs that are safe).
- *One use of a challenge* rests on the age check and the claim falling in one second; a request stalled between
  them uses an expired challenge a second time exactly when its claim comes after the whole second in which the
  first claim ends (`WebAuthn.SecondUseExactly`; over any run `WebAuthnSecondUse.NextUseExactly`; runs with two uses:
  `WebAuthnSecondUse.StalledClaimIsSecondUse`).
- *"Canonical base64url challenge"*: non-canonical texts are accepted (`Base64Url.NonCanonicalAccepted`); digests are
  over decoded bytes, so nothing depends on it.
- *Sticky booleans* survive storage unless a definition is boolean while the registry declares a variant without
  that text (`FlagSticky.ReadsBackExactly`).
- *One rate epoch for close attempts* is kept exactly until the second of the last touch plus the longest window plus
  sixty (`RateEpochRuns.ReadsExactly`, `EpochKeptExactly`): attempts that start at most that window apart and take at
  most a minute share one epoch that outlives their counters (`OneEpoch`), slower ones may not (`PauseExactly`).
- *Reversing migration 0005* restores the definitions exactly unless a key looks like an archive key or is one of five
  rollback keys (`DesignReset.RestoresExactly`).
- *A subject binding names one user* rests on user keys, or flow ids, without colons, which integer keys are
  (`WebAuthn.SubjectsIdentify`, `ColonsConfuse`).

## Model

| member | source | states |
|---|---|---|
| AuthRuns.EveryRunIsConsistent | backend/accounts/services/sessions.py:59-567 | Every run of issue, refresh, logout, revoke-one, revoke-bulk, cleanup and invalidate-all requests keeps the cross-table invariant: a mapping that is not revoked carries a token that is on record unless expired, is not blacklisted, and belongs to no revoked session |
| AuthRuns.RefreshExactly | backend/accounts/services/auth.py:279-353 | When a refresh succeeds, both ways: signed, unexpired, active user, a live mapping row, and a request token naming that row's session. Under the invariant the blacklist lookup and the session-revocation lookup never change the answer |
| AuthRuns.IssuedPairRefreshes | backend/accounts/services/auth.py:62-119 | A freshly issued pair can be refreshed at any later time before expiry by a request that names its session |
| AuthRuns.IssuedRowIsLive | backend/accounts/services/auth.py:110-119 | A successful issue leaves the token signed and carried by a live mapping row of its user |
| AuthRuns.IssueRequestKeeps | backend/accounts/services/auth.py:62-119 | Guard, touch and issue together keep the invariant, for requests whose Django session key is their user's own |
| AuthRuns.RefreshKeeps | backend/accounts/services/auth.py:279-353 | A refresh keeps the invariant, whatever token and session it presents |
| AuthRuns.RevokeBulkKeeps | backend/accounts/services/sessions.py:472-529 | A bulk revocation keeps the invariant, on every error path too |
| AuthRuns.RevokeSingleKeeps | backend/accounts/services/sessions.py:532-567 | Revoking one session keeps the invariant |
| AuthRuns.MaintenanceKeeps | backend/core/management/commands/cleanup_auth_data.py:41-83 | Cleanup with a non-negative retention, and invalidate-all, keep the invariant |
| AuthInvariant.GuardedSessionIsLive | backend/accounts/services/sessions.py:60-74 | A request past the guard holds no revoked session by Django key, by token or by token digest |
| AuthInvariant.TouchKeeps | backend/accounts/services/sessions.py:211-240 | Touching a session keeps the invariant and signs nothing |
| AuthInvariant.TouchResolvesLive | backend/accounts/services/sessions.py:76-89 | After the guard and a touch, the session meta a request resolves to is not revoked |
| AuthInvariant.BindMetaKeeps | backend/accounts/services/auth.py:72-108 | Binding a pair to a session, with digest fill-in and key adoption, keeps the invariant and binds to a session that is not revoked |
| AuthInvariant.MintForKeeps | backend/accounts/services/auth.py:110-118 | Minting a fresh token and mapping it to a session that is not revoked keeps the invariant |
| AuthInvariant.MoveRowKeeps | backend/accounts/services/auth.py:336-348 | Blacklisting the old token and moving its row to the new one keeps the invariant |
| AuthInvariant.RevokeRowsKeeps | backend/accounts/services/sessions.py:341-358 | Blacklisting and stamping a revoked session's rows restores the invariant for that session |
| AuthInvariant.RevokeKeyKeeps | backend/accounts/services/sessions.py:444-469 | Revoking a session key keeps the invariant |
| AuthInvariant.LogoutKeeps | backend/accounts/services/auth.py:123-177 | Logout keeps the invariant, whichever session it resolves |
| AuthInvariant.CleanupKeeps | backend/core/management/commands/cleanup_auth_data.py:98-165 | Cleanup keeps the invariant as long as the token cutoff is not in the future |
| AuthInvariant.PurgeTokensKeeps | backend/core/management/commands/cleanup_auth_data.py:122-165 | Purging token records, then mappings, keeps the invariant |
| AuthInvariant.InvalidateKeeps | backend/core/management/commands/invalidate_legacy_auth_sessions.py:107-122 | Invalidate-all keeps the invariant |
| AuthPurge.PurgeIsUnobservable | backend/core/management/commands/cleanup_auth_data.py:122-165 | Under the invariant, purging token records and mappings at a cutoff no later than a second past now changes no reply of any later run of requests, and every mapping left has an outstanding token |
| AuthPurge.PurgeSafeExactly | backend/core/management/commands/cleanup_auth_data.py:41-83 | For which cutoffs that is so, both ways: a cutoff at most one second past the present is always safe, and for every later one (a negative retention) there are tables on which the purge turns a good refresh into an error |
| AuthPurge.PurgeDropsOnlyDead | backend/core/management/commands/cleanup_auth_data.py:122-165 | What a purge removes was revoked, expired or off the record already |
| AuthPurge.OneSessionPurgedTooEarly | backend/core/management/commands/cleanup_auth_data.py:122-147 | The failing family: with the cutoff past a token's expiry while it is still valid, the purge makes its refresh fail |
| AuthPurge.RunsAlike | backend/core/management/commands/cleanup_auth_data.py:122-165 | Two tables that differ only by dead rows give the same replies for every run of requests |
| AuthBulk.EverywhereElseIsClosed | backend/accounts/services/sessions.py:472-529 | After a successful all-except-current revocation, revoked and skipped ids partition the other known keys, each of those ends revoked with no live row, and the current session and other users are as touch left them |
| AuthBulk.SweepCloses | backend/accounts/services/sessions.py:504-520 | The revocation loop closes every key it visits, skipped ones included, and touches no other session |
| AuthBulk.SkippedIsClosed | backend/accounts/services/sessions.py:511-513 | A key the loop skips was closed already, by the invariant |
| AuthBulk.RevokeKeyTouchesOneSession | backend/accounts/services/sessions.py:444-469 | Revoking one key leaves every row of other keys and users alone |
| AuthBulk.PasswordChangeCloses | backend/accounts/services/auth.py:231-275 | A password change either changes nothing, or closes every known session but the current one, and that one too when its logout is asked for |
| AuthBulk.PasswordChangeWithLogoutClosesAll | backend/accounts/services/auth.py:255-269 | The bulk revocation and the logout act on complementary sessions: together they close every known one |
| AuthOutcomes.GuardExactly | backend/accounts/services/sessions.py:60-74 | A request gets past authentication and guard exactly when it has a token and names no revoked session, by key, by digest or by Django key |
| AuthOutcomes.AllowedExactly | backend/accounts/services/sessions.py:60-74 | The service's own check passes exactly when the first session of the digest and the first of the Django key, of any user, are not revoked |
| AuthOutcomes.TouchExactly | backend/accounts/services/sessions.py:211-240 | A touch updates its own session's meta only, digest if empty and last-seen if fifteen seconds old, creates it only if absent, and records the Django session; without token and key it does nothing |
| AuthOutcomes.ResolvedExactly | backend/accounts/services/auth.py:72-99 | The session a pair is bound to is the least of the user with the token's digest, else the one of the Django key |
| AuthOutcomes.IssuePairExactly | backend/accounts/services/auth.py:62-119 | When a pair is issued, when binding is missing and when uniqueness forbids it; issued, the bound session keeps what it has, gains digest and Django key, the token is signed and recorded, and one new live row maps it to that session |
| AuthOutcomes.IssueRequestExactly | backend/accounts/services/auth.py:62-119 | The issuing request: nothing changes when it is refused or hits a uniqueness violation, otherwise it touches and issues |
| AuthOutcomes.RefreshChecksAnyway | backend/accounts/services/auth.py:279-353 | In any tables whatever, a refresh that succeeds had a signed, unexpired token that is not blacklisted, an active user, a live row, and a session that is named and not revoked |
| AuthOutcomes.CurrentExactly | backend/accounts/services/sessions.py:402-418 | The current session is that of the Django key, else of the least meta of the user with the digest; logout acts on the same one |
| AuthOutcomes.LogoutExactly | backend/accounts/services/auth.py:123-177 | A logout ends the request's Django session and closes the session it is in, keeping an earlier stamp and reason, and changes nothing else |
| AuthOutcomes.ChangePasswordExactly | backend/accounts/services/auth.py:231-275 | A password change is refused, leaving everything as it was, exactly for the old password, an invalid form, a refused request or an unknown current session; otherwise every other session ends, and the current one is logged out exactly if asked |
| AuthOutcomes.RevokeSingleExactly | backend/accounts/services/sessions.py:532-567 | Revoking one session: a refused request changes nothing; a session that is neither in the session rows nor in the metas is not found; otherwise exactly that session ends - revoked now for the given reason, no live token row, no session row, no Django session - and nothing else changes |
| AuthOutcomes.RevokeBulkExactly | backend/accounts/services/sessions.py:472-529 | Bulk revocation by ids or of every other session: which requests are refused and with which status, which keys are visited, that exactly the keys already over are skipped, that each other one ends, and that nothing else changes |
| AuthOutcomes.CandidatesExactly | backend/accounts/services/sessions.py:420-442 | Visited are the known keys among the given ids, or every known key but the current one |
| AuthOutcomes.SweepEnds | backend/accounts/services/sessions.py:504-520 | The loop skips exactly the keys that are revoked and backed by no session row, and ends every other |
| AuthOutcomes.CleanupExactly | backend/core/management/commands/cleanup_auth_data.py:41-165 | What a cleanup removes, table by table and both ways: session rows without a Django session, metas revoked before the session cutoff or last seen before it without a Django session, token records expired before the token cutoff, mappings revoked before that, expired, or left without a record |
| AuthOutcomes.CleanupSparesRefresh | backend/core/management/commands/cleanup_auth_data.py:98-115 | A cleanup changes no refresh reply for a session whose meta it keeps, and a refresh that would have succeeded still does exactly then |
| AuthOutcomes.InvalidateEndsAll | backend/core/management/commands/invalidate_legacy_auth_sessions.py:107-146 | Invalidate-all leaves no session row, revokes every meta and mapping that was live and keeps the stamps of the others, blacklists every token on record, and no token can be refreshed at any later time |
| AuthRaceSteps.UninterruptedIsRevoke | backend/accounts/services/sessions.py:444-469 | Marking, reading, blacklisting and stamping, run without interruption and in any row order, are the revocation of the session |
| AuthRaceSteps.UninterruptedIsRefresh | backend/accounts/services/auth.py:279-353 | Checking a token and committing its exchange without interruption is the refresh |
| AuthRaceSteps.UninterruptedIsCleanup | backend/core/management/commands/cleanup_auth_data.py:41-83 | The deletions of a cleanup, one after the other, are the cleanup |
| AuthRaceSteps.WholeSteps | backend/accounts/services/auth.py:62-177 | Issuing, touching, logging out and invalidating are single steps that do what the operations do |
| AuthRaces.EachTokenIsExchangedOnce | backend/accounts/services/auth.py:279-353 | Over every interleaving of issue, refresh, logout, revoke, cleanup and invalidation steps, no refresh token is exchanged twice, purged blacklist rows notwithstanding |
| AuthRaces.RevocationIsPermanent | backend/accounts/services/sessions.py:341-358 | A revocation that has run its course, racing with refreshes that move the very rows it read, keeps every row it read out for good: no token such a row ever carries is exchanged again |
| AuthRaceWitness.MovedRowIsClosed | backend/accounts/services/auth.py:301-348 | Such a race happens: a refresh moves a row on between a revocation's read and its stamp, the new token is never blacklisted, and still it is never exchanged |
| AuthRaces.LogoutIsPermanent | backend/accounts/services/auth.py:144-176 | The same for a logout, whose rows are those of the session at its row locks |
| AuthRaces.ClosedRowsStayOut | backend/accounts/services/auth.py:301-348 | A row stamped as revoked never carries a later exchange, because rotation writes only token and expiry and revocation only its stamp |
| AuthRaces.CoverIsFixed | backend/accounts/services/sessions.py:346-350 | The set of rows a revocation closes is fixed when it reads the mappings |
| AuthRaces.StampCloses | backend/accounts/services/sessions.py:351-358 | Each step of the unlocked loop blacklists what it read and stamps the row, whatever token the row carries by then |
| AuthStores.AuthStore.GetOrCreateMeta | backend/accounts/services/sessions.py:76-89 | Returns the session row of (user, key), creating it only when absent |
| AuthStores.AuthStore.Touch | backend/accounts/services/sessions.py:211-240 | Changes the tables exactly as the touch specification says: digest fill-in, throttled last-seen, session row |
| AuthStores.AuthStore.AdoptMeta | backend/accounts/services/auth.py:100-108 | Fills in the digest and adopts the Django key, or reports the uniqueness violation and changes nothing |
| AuthStores.AuthStore.IssuePair | backend/accounts/services/auth.py:62-119 | Performs the issue specification write by write; a failure leaves the tables alone |
| AuthStores.AuthStore.RefreshPair | backend/accounts/services/auth.py:279-353 | Performs the refresh specification with its checks in source order |
| AuthStores.AuthStore.RevokeSessionRows | backend/accounts/services/sessions.py:341-358 | The loop over live mappings blacklists and stamps exactly the live rows of the session |
| AuthStores.AuthStore.LogoutCurrent | backend/accounts/services/auth.py:123-177 | Performs the logout specification |
| AuthStores.AuthStore.RevokeSessionKey | backend/accounts/services/sessions.py:444-469 | Performs the revoke-key specification; the three ways to end the Django session come to one deletion |
| AuthStores.AuthStore.RevokeBulk | backend/accounts/services/sessions.py:472-529 | Performs the bulk specification: order of checks, loop, revoked and skipped ids |
| AuthStores.AuthStore.RevokeSingle | backend/accounts/services/sessions.py:532-567 | Performs the revoke-one specification |
| AuthStores.AuthStore.ChangePassword | backend/accounts/services/auth.py:231-275 | Runs the all-except-current revocation and the optional logout, rolling back on any error |
| AuthStores.AuthStore.PurgeAllauthSessions | backend/core/management/commands/cleanup_auth_data.py:85-91 | Removes exactly the session rows without a Django session and counts them |
| AuthStores.AuthStore.PurgeMetas | backend/core/management/commands/cleanup_auth_data.py:98-115 | Removes exactly the metas the two filters select |
| AuthStores.AuthStore.PurgeJwtRecords | backend/core/management/commands/cleanup_auth_data.py:122-130 | Removes blacklist entries, then outstanding tokens, older than the cutoff |
| AuthStores.AuthStore.PurgeTokenMappings | backend/core/management/commands/cleanup_auth_data.py:149-165 | Removes exactly the stale mappings |
| AuthStores.AuthStore.CleanupAuthData | backend/core/management/commands/cleanup_auth_data.py:41-83 | Runs the purges in their fixed order |
| AuthStores.AuthStore.NextBatch | backend/core/management/commands/invalidate_legacy_auth_sessions.py:131-138 | Selects the next keyset batch: nothing between the last key and the batch's end is left behind unblacklisted |
| AuthStores.AuthStore.BlacklistOutstanding | backend/core/management/commands/invalidate_legacy_auth_sessions.py:124-146 | The batched loop ends with every outstanding token blacklisted and nothing else |
| AuthStores.AuthStore.InvalidateLegacySessions | backend/core/management/commands/invalidate_legacy_auth_sessions.py:107-122 | Deletes sessions and revokes every live meta, mapping and outstanding token |
| SecurityCache.LiveRowsStay | backend/backend/cache_backends.py:72-127 | No check, write, touch or cull of any writer removes a row that has not expired, and none but a set or touch of its key changes it |
| SecurityCache.CapacityHolds | backend/backend/cache_backends.py:29-32 | N racing writers, each split into room check and write, never hold more than capacity + N - 1 rows |
| SecurityCache.RacersOverfill | backend/backend/cache_backends.py:29-32 | The bound is met for every N: N writers that all check before any writes fill the last place N times |
| SecurityCache.AllPassTheCheck | backend/backend/cache_backends.py:82-115 | Any number of writers pass the room check for the one place left, as long as none has written |
| SecurityCache.CheckStaysWithinBudget | backend/backend/cache_backends.py:82-115 | A room check admits a new key only within the budget of stored and in-flight keys |
| SecurityCache.OthersSpeakNoMore | backend/backend/cache_backends.py:43-57 | Writes, touches, culls and abandoned writes never add to the keys stored or in flight, rows purged in between included |
| SecurityCache.RefusedExactly | backend/backend/cache_backends.py:82-115 | A new key is refused exactly when live rows fill the cache; a key that has a row never is |
| SecurityCache.AddExactly | backend/backend/cache_backends.py:34-63 | The four ends of an add, both ways, over three clock readings: no room, stored, write error, already there; and the rows it leaves |
| SecurityCache.SetExactly | backend/backend/cache_backends.py:65-80 | The three ends of a set, both ways, and the rows it leaves |
| SecurityCache.AddInSteps | backend/backend/cache_backends.py:36-63 | Room check and write of one racing writer, with a pause between and nothing else, are an add: rows, claim and refusal |
| SecurityCache.SetInSteps | backend/backend/cache_backends.py:65-80 | Likewise a set |
| SecurityCache.ClaimsExclude | backend/backend/cache_backends.py:34-57 | A key that is only ever added is held by one claim at a time: a later successful add comes strictly after the whole second in which the earlier one ends |
| SecurityCache.AgainExactly | backend/backend/cache_backends.py:34-57 | A claimed key can be claimed again exactly when the write comes after that whole second |
| SecurityCache.WholeSeconds | backend/backend/cache_backends.py:88 | Truncating the expiry to whole seconds loses less than a second and keeps order |
| SecurityCache.FailClosedCache.DeleteExpired | backend/backend/cache_backends.py:117-127 | Deletes exactly the expired rows |
| SecurityCache.FailClosedCache.CanStoreKey | backend/backend/cache_backends.py:82-115 | An existing key passes without a purge; a new one purges and needs room |
| SecurityCache.FailClosedCache.AddKey | backend/backend/cache_backends.py:34-63 | add: capacity error, stored, write error or already there, with a clock reading for each of its three statements |
| SecurityCache.FailClosedCache.SetKey | backend/backend/cache_backends.py:65-80 | set: capacity error, stored or write error |
| Base64Url.DecodeOfEncode | backend/accounts/webauthn.py:48-62 | Every non-empty byte string survives encoding and decoding |
| Base64Url.SameBytesExactly | backend/accounts/webauthn.py:48-62 | Two accepted texts decode alike exactly when they agree up to the unused bits of the last letter |
| Base64Url.ReencodesExactly | backend/accounts/webauthn.py:48-62 | An accepted text is its own re-encoding exactly when those bits are clear |
| Base64Url.NonCanonicalAccepted | backend/accounts/webauthn.py:159-162 | The decoder is not limited to canonical texts, although the digest's documentation speaks of a canonical challenge |
| WebAuthn.CeremonyMatchesExactly | backend/accounts/middleware.py:401-496 | A stored record lets a completion request of any session and policy through exactly when its claim is stored and it is the other half of the same ceremony: within the lifetime, same session binding, same purpose and subject, and signing the announced challenge bytes |
| WebAuthn.NonceExactly | backend/accounts/middleware.py:440-467 | The checks before the claim pass exactly in time and under the same session binding |
| WebAuthn.DigestExactly | backend/accounts/middleware.py:479-496 | The checks after the claim pass exactly for the same purpose and, login aside, the same subject |
| WebAuthn.BodyExactly | backend/accounts/middleware.py:648-661 | The body passes exactly when it validates and signs those challenge bytes |
| WebAuthnAnswer.CompletionOpensExactly | backend/accounts/middleware.py:401-496 | A completion request opens exactly when its claim is stored, it is in time, its session holds the binding the ceremony began with, purpose and subject agree, and its body carries client data of the policy's type, from an origin of its own surface's list, not cross-origin, over the bytes the options response announced |
| WebAuthnAnswer.BodyAnswersExactly | backend/accounts/middleware.py:648-661 | The body passes exactly when the client data inside it is acceptable: for the admin against the admin origins, for an account against the account origins |
| WebAuthnAnswer.SignedChallengeExactly | backend/accounts/webauthn.py:82-132 | Validation yields given challenge bytes exactly when the client data has the type, a challenge that decodes to them, an origin among configured texts, and no crossOrigin but false |
| WebAuthnAnswer.AnnouncedExactly | backend/accounts/middleware.py:329-361 | The announced challenge is the one under publicKey: at the top of an admin response, under creation or request options of an account response by type |
| WebAuthnAnswer.OptionsOpenExactly | backend/accounts/middleware.py:364-429 | An options response goes out exactly when it announces a challenge that can be kept: positive lifetime, saved session, state to demand verification in for a login, a subject for anything else |
| WebAuthnAnswer.AnyCompletionExactly | backend/accounts/middleware.py:432-496 | For any session whatever: a completion opens exactly when the session is saved without its record, the record was in force and demands the challenge the body answers, and the claim of its nonce is stored |
| WebAuthnAnswer.CompletionTakesRecord | backend/accounts/middleware.py:432-442 | Whatever a completion ends in, the record and nothing else is gone from its copy, and from the saved session if the save went through |
| WebAuthnAnswer.InForceExactly | backend/accounts/middleware.py:440-467 | Before the claim: version one, a numeric time within the lifetime, the session's own binding, a nonce of 32 to 256 characters |
| WebAuthnAnswer.DemandsExactly | backend/accounts/middleware.py:479-496 | After the claim: the request's purpose, no subject for a login and the session's own otherwise, and a digest |
| WebAuthnAnswer.ClearExactly | backend/accounts/middleware.py:248-252 | Clearing drops the record and nothing else, saves only if there was one, and fails only if that save fails |
| WebAuthnAnswer.AdminSubjectExactly | backend/accounts/middleware.py:273-289 | An admin ceremony is about the user and flow of the pending admin login |
| WebAuthnAnswer.PendingSubjectExactly | backend/accounts/middleware.py:291-311 | An authentication or signup is about the user and time of the pending login |
| WebAuthnAnswer.SignedInSubjectExactly | backend/accounts/middleware.py:291-318 | A reauthentication or registration is about the signed-in user, a login about nobody yet |
| WebAuthnSteps.UninterruptedIsComplete | backend/accounts/middleware.py:432-496 | The steps of a completion request, run alone with any pauses, are the request: same session copy, same saved session, same cache, and let through exactly if it opens |
| WebAuthnSteps.ClaimsExactly | backend/accounts/middleware.py:468-496 | A request ready to claim, run alone, leaves the cache as add does and gets through exactly if the claim is its own and the later checks pass |
| WebAuthnSteps.SavedIsLoaded | backend/accounts/middleware.py:241-245 | A copy that is saved is what the next request on the session loads |
| WebAuthnRoutes.CompletionRoutesExactly | backend/accounts/middleware.py:84-123 | Guarded completion routes are exactly the admin route and the five account routes of either client, each with its verb, type, surface and purpose |
| WebAuthnRoutes.OptionsRoutesExactly | backend/accounts/middleware.py:126-146 | Guarded options routes are exactly the admin options route and, by GET, those account routes |
| WebAuthn.StoredRecord | backend/accounts/middleware.py:401-429 | What a successful options response stores: a usable binding, the subject, and one record built from them |
| WebAuthn.PurposeFixesCeremony | backend/accounts/middleware.py:84-152 | A purpose fixes type, surface and body shape; an options request and a completion request with one purpose belong to one ceremony, and no route serves both under one verb |
| WebAuthn.SubjectsIdentify | backend/accounts/middleware.py:273-318 | Equal subject bindings are the same kind of subject and the same user in the same pending flow, provided the two user keys, or else the two flow ids or pending times, hold no colon |
| WebAuthn.ColonsConfuse | backend/accounts/middleware.py:273-290 | Without that, two users can have one subject binding |
| WebAuthn.SubjectKind | backend/accounts/middleware.py:273-318 | The text of a subject binding tells admin, pending and authenticated subjects apart |
| WebAuthn.VerificationAgrees | backend/accounts/webauthn.py:135-156 | A passwordless login demands user verification in the saved state and in the response alike, over the unchanged challenge |
| WebAuthn.ClaimKeysDiffer | backend/accounts/middleware.py:468-470 | Different nonces have different claim keys |
| WebAuthnBoundary.BoundarySession.PersistSession | backend/accounts/middleware.py:241-245 | Saves the copy, or rejects and leaves the saved session alone |
| WebAuthnBoundary.BoundarySession.ClearChallenge | backend/accounts/middleware.py:248-252 | Removes and saves a pending record only if there is one |
| WebAuthnBoundary.BoundarySession.SessionBindingDigest | backend/accounts/middleware.py:259-270 | Returns the digest of a usable binding, creating one on demand |
| WebAuthnBoundary.BoundarySession.Store | backend/accounts/middleware.py:401-429 | Stores the record with its checks in source order |
| WebAuthnBoundary.BoundarySession.TakeNonce | backend/accounts/middleware.py:436-467 | Pops and saves first, then checks version, time, binding and nonce in source order |
| WebAuthnBoundary.BoundarySession.DemandedDigest | backend/accounts/middleware.py:479-496 | Checks purpose, subject and digest shape in source order |
| WebAuthnBoundary.BoundarySession.Consume | backend/accounts/middleware.py:432-496 | Pops, checks, claims in the shared cache and checks again; any cache error rejects |
| WebAuthnBoundary.BoundarySession.ProcessCompletion | backend/accounts/middleware.py:637-680 | A completion request ends as the specification says, up to its reason code |
| WebAuthnBoundary.BoundarySession.ProcessOptions | backend/accounts/middleware.py:586-595 | An options response ends as the specification says |
| WebAuthnBoundary.ProcessView | backend/accounts/middleware.py:616-680 | Clears before an options view, settles a completion request, lets anything else pass; a completion without a session is rejected |
| WebAuthnRaces.EveryPassDescends | backend/accounts/middleware.py:571-680 | Whatever requests race over whatever stale copies, each one past the boundary is the other half of one earlier options ceremony, in time: same purpose and surface, binding, subject and challenge; admin and account ceremonies never satisfy each other |
| WebAuthnRaces.EachNonceOnce | backend/accounts/middleware.py:432-477 | If each request's age check and claim fall in one second, no nonce lets two requests past, however many race |
| WebAuthnRaces.SecondUseIsLate | backend/accounts/middleware.py:432-477 | Without that proviso: a second use of a nonce was claimed after the whole second in which the challenge expired, and after the second of its own age check |
| WebAuthn.SecondUseExactly | backend/accounts/middleware.py:432-496 | A challenge first claimed at a given time lets a second request through exactly when that request is the other half of its ceremony and writes its claim after the whole second in which the first claim ends |
| WebAuthnSecondUse.NextUseExactly | backend/accounts/middleware.py:432-496 | After any run of racing requests, one that writes its claim gets past exactly when every earlier claim on its nonce has ended, last whole second included, and it is the other half of an issued ceremony: the exact condition of a second use |
| WebAuthnSecondUse.ClaimStoredExactly | backend/accounts/middleware.py:468-477 | A claim on a nonce is stored exactly when every logged claim on it has ended |
| WebAuthnSecondUse.LaterChecksExactly | backend/accounts/middleware.py:479-496 | The checks after the claim pass exactly for a request that answers an issued record |
| WebAuthnSecondUse.StalledClaimIsSecondUse | backend/accounts/middleware.py:432-477 | For every ceremony, lifetime and pace: of two requests that answer one options response, both get past on its nonce exactly when the second's age check is in time and its claim comes after that second; otherwise the first alone does |
| WebAuthnSecondUse.UseExactly | backend/accounts/middleware.py:432-496 | In any world a request that answers an options response gets past exactly when its age check is in time and its claim, written after any stall, is stored; no other request is disturbed |
| WebAuthnSecondUse.SecondUseHappens | backend/accounts/middleware.py:451-477 | Such a run exists: with a lifetime of 300 seconds, an age check at 300 and a claim at 301 use one nonce twice |
| WebAuthnSecondUse.OptionsFit | backend/accounts/middleware.py:401-429 | After a successful options response, a request for the same purpose that signs the announced challenge answers its record |
| WebAuthnRaces.OptionsTraced | backend/accounts/middleware.py:401-429 | A record reaches a session only through an options response, failed saves included |
| WebAuthnRaces.BeginMatches | backend/accounts/middleware.py:432-467 | A request that gets as far as its claim holds an issued record in time and under its own binding |
| WebAuthnRaces.FinishMatches | backend/accounts/middleware.py:479-496 | What the checks after the claim let through is the other half of that record's ceremony |
| WebAuthnRaces.SessionsStayTraced | backend/accounts/middleware.py:241-252 | Last-write-wins saves of stale copies never bring in a record no options response stored |
| FlagRegistry.CanonicalIsStable | backend/featureflags/registry.py:249-261 | A canonical token is its own token, and a value's stored text has the value's token |
| FlagRegistry.ValidGuard | backend/featureflags/registry.py:402-421 | In a valid registry a guarded flag has a safe default, different from the guarded value, that its code default agrees with |
| FlagRegistry.DesignEntriesAreValid | backend/featureflags/registry.py:60-157 | The page-version entries of the registry pass validation, whatever the settings |
| FlagValidation.EntryExactly | backend/featureflags/registry.py:351-433 | A registry entry is valid exactly under the conditions written out: kind, texts, default, pages, coherent policy, safely declared guard, design variants |
| FlagValidation.PolicyExactly | backend/featureflags/registry.py:370-401 | A policy is accepted exactly if coherent: known audiences, public exactly if it lists everyone, a group audience where a group is required, labels for exactly the variants |
| FlagValidation.GuardExactly | backend/featureflags/registry.py:402-421 | A guarded value is accepted exactly if safely declared: registered, apart from a registered safe default that is the default in force and cannot be set from outside, sticky only if allowed |
| FlagValidation.NoPolicyIsOpen | backend/featureflags/registry.py:264-276 | An entry without a policy allows every guided audience, previews, public and sticky answers, and guards nothing |
| FlagEvaluation.GuardedOnlyThroughPolicy | backend/featureflags/services.py:504-545 | Whatever the tables hold, if a safe default is declared apart from it, a guarded value comes only from an allowed staff preview, an allowed sticky row, or an enabled matching rule of an allowed audience: public only if the policy is, otherwise only for members of the required group the rule names |
| FlagEvaluation.ValidIsSafelyGuarded | backend/featureflags/registry.py:402-421 | Every flag of a valid registry meets the premise of that |
| FlagEvaluation.OutsidersGetDefaults | backend/featureflags/services.py:668-723 | For a flag that is neither public nor sticky, no one but staff and the required group's members ever gets the guarded value |
| FlagEvaluation.LowerSourcesCannotMatter | backend/featureflags/services.py:668-703 | Precedence as non-interference: nothing below the deciding source can change the answer, and preview, override and sticky answers write nothing |
| FlagEvaluation.FirstRuleIsFirst | backend/featureflags/services.py:705-720 | The rule that decides is the first that matches, validates and passes the gate |
| FlagEvaluation.FirstRuleIsOne | backend/featureflags/services.py:705-720 | It is one of the rules, and if none decides, none supplies a value |
| FlagEvaluation.StoredOverrideIsClosest | backend/featureflags/services.py:548-578 | The stored override is the visitor's own, else the anonymous id's, else the global one; within a scope the last row |
| FlagAudience.EveryoneExactly | backend/featureflags/services.py:404-415 | If the only enabled rule of a flag is for everyone, every visitor of its page gets its value, others the safe default |
| FlagAudience.SignedInExactly | backend/featureflags/services.py:416-417 | For the signed-in: exactly visitors signed in |
| FlagAudience.StaffExactly | backend/featureflags/services.py:418-419 | For staff: exactly visitors signed in and staff |
| FlagAudience.GroupExactly | backend/featureflags/services.py:420-435 | For groups: exactly signed-in members of a listed group, and nobody if the list holds an entry that is no number |
| FlagAudience.UserListExactly | backend/featureflags/services.py:436-443 | For a user allowlist or denylist: exactly the signed-in users whose id is listed; a listed denylist visitor gets the safe default |
| FlagAudience.AnonymousListExactly | backend/featureflags/services.py:444-451 | For an anonymous allowlist or denylist: exactly the visitors that carry a listed id |
| FlagAudience.PercentageExactly | backend/featureflags/services.py:452-467 | For a percentage: exactly the visitors with an identity whose bucket is below the percentage kept between 0 and 100 |
| FlagAudience.RaisingOnlyAdds | backend/featureflags/services.py:452-467 | Raising a percentage only adds visitors: none at 0, everyone with an identity at 100 |
| FlagSources.SourceExactly | backend/featureflags/services.py:668-723 | A preview counts first, then a stored override, then an assignment, each exactly when valid and allowed, and none stores anything; only when none counts does a rule or the default decide |
| FlagSources.GuardedRuleExactly | backend/featureflags/services.py:504-545 | A rule that stands for the guarded value gives it exactly to the visitors it matches and the gate lets through |
| FlagSources.GateExactly | backend/featureflags/services.py:504-545 | The gate opens exactly for an allowed audience: for everyone if the policy is public; for others, where a group is required, by a group rule naming that group to its members |
| FlagSources.StoredOverrideExactly | backend/featureflags/services.py:548-578 | The override in force, both ways: the last one meant for the user, else for the anonymous id of a visitor not signed in, else for all |
| FlagSources.SlotExactly | backend/featureflags/services.py:618-665 | Where an assignment is kept: under the user if signed in, else the anonymous id, by page, if flag and policy are sticky |
| FlagSources.SafeDefaultExactly | backend/featureflags/services.py:360-375 | The fallback: the policy's safe default, else the stored default if valid, else the registered one, else off |
| FlagSources.ValidatedExactly | backend/featureflags/services.py:331-357 | A value is accepted exactly if it spells a boolean, or is the text of a variant |
| FlagOrder.OrderCannotMatter | backend/featureflags/services.py:404-410 | With page-disjoint enabled rules, evaluation gives the same answer, reason and stored assignment for any arrangement of the same rules |
| FlagOrder.OneRuleSupplies | backend/featureflags/services.py:404-410 | At most one of page-disjoint rules can supply a value for a visit |
| FlagOrder.PermutedRules | backend/featureflags/services.py:705 | A permutation is such an arrangement |
| FlagOrder.OverlapMakesOrderMatter | backend/featureflags/services.py:705-720 | Overlapping rules do make order matter |
| FlagSticky.AnswersStick | backend/featureflags/services.py:628-665 | Once a rule's answer is stored, every later visit to that slot gives it, through any edits and other visits, except where a preview or override decides; the row never changes |
| FlagSticky.ReadsBackExactly | backend/featureflags/services.py:331-357 | Storing str(value) and validating it again gives the value back except for one family: a boolean definition of a flag registered as a variant without that text |
| FlagSticky.MismatchForgets | backend/featureflags/services.py:331-357 | A member of that family: variants on and off under a boolean definition |
| FlagSticky.HeldAnswers | backend/featureflags/services.py:694-703 | A held slot answers from the sticky row and writes nothing |
| FlagSticky.VisitKeepsHeld | backend/featureflags/services.py:648-665 | No visit of anyone disturbs a held slot |
| FlagService.EvaluationContext.RequiredGroup | backend/featureflags/services.py:484-501 | The memo answers what the membership query would |
| FlagService.FlagService.PolicyValueAllowed | backend/featureflags/services.py:504-545 | Decides as the policy gate, memo or not |
| FlagService.FlagService.DbOverrideFor | backend/featureflags/services.py:548-578 | One pass over the overrides finds the closest one |
| FlagService.FlagService.ApplyRules | backend/featureflags/services.py:705-720 | The rule loop chooses the first rule that supplies a value and stores exactly its text |
| FlagService.FlagService.EvaluateDefinition | backend/featureflags/services.py:668-723 | Evaluates as specified, assignments updated in place |
| FlagService.FlagService.EvaluateMany | backend/featureflags/services.py:831-860 | Evaluates a batch as specified with one memo |
| FlagAgreement.BatchIsAlone | backend/featureflags/services.py:831-860 | A batch answers each key exactly as evaluating it alone does, repeated keys and stored assignments notwithstanding, and fails only if some key alone does |
| FlagAgreement.TwiceIsOnce | backend/featureflags/services.py:668-723 | Evaluating a flag twice is evaluating it once |
| FlagAgreement.ProviderIsDirect | backend/featureflags/services.py:785-814 | The provider, asked for a known flag by its kind in the visitor's own context, gives the directly evaluated value; asked for the other kind, the caller's default |
| FlagAgreement.RoundTripKeepsView | backend/featureflags/services.py:726-782 | Nothing evaluation looks at is lost in an OpenFeature context |
| FlagAgreement.SameViewSameAnswer | backend/featureflags/services.py:404-472 | Evaluation depends on a context only through user id, staff flag, anonymous id, page and previews |
| FlagAgreement.ForeignContextExactly | backend/featureflags/services.py:748-782 | Any OpenFeature context: whom it signs in, whether as staff, which anonymous id it carries or spells, its page and previews |
| FlagAgreement.AloneExactly | backend/featureflags/services.py:817-860 | A flag on its own: its evaluation if defined, else its registered default as the registered kind reads it, else off |
| Rollouts.RolloutAdmin.FindDraft | backend/featureflags/admin_services.py:187-203 | Finds the first identical never-started draft, if any |
| Rollouts.RolloutAdmin.Create | backend/featureflags/admin_services.py:88-221 | Refuses, returns the existing draft or inserts exactly the described rule with its first history row |
| Rollouts.RolloutAdmin.Start | backend/featureflags/admin_services.py:247-339 | Enables the rule, with one history row, exactly when the specification opens |
| Rollouts.RolloutAdmin.Stop | backend/featureflags/admin_services.py:225-243 | Disables the rule, with one history row, exactly when the specification opens |
| RolloutRaces.EveryRunIsSound | backend/featureflags/admin_services.py:72-84 | However operators interleave at their row locks, even if stopping took no feature lock: enabled rules of a feature stay page-disjoint, each rule has at most one active interval, and no two never-started drafts of a feature have the same parameters |
| RolloutRaces.RolloutsMakeOrderIrrelevant | backend/featureflags/admin_services.py:246-339 | So after any such run evaluation gives the same answer for every listing of the feature's rules |
| RolloutRaces.WritesAreCovered | backend/featureflags/admin_services.py:322-338 | Every write happens under the locks and findings it needs |
| RolloutRaces.OthersPhasesStay | backend/featureflags/admin_services.py:153-159 | Another operator's commit cannot spoil what this one has found |
| RolloutRaces.SwitchedHistory | backend/featureflags/admin_services.py:43-49 | Starting only never-started drafts keeps one active interval per rule |
| RolloutRaces.AddKeepsDrafts | backend/featureflags/admin_services.py:187-203 | Looking drafts up under the feature lock keeps their parameters distinct |
| RolloutEffect.GroupRolloutReaches | backend/featureflags/admin_services.py:134-181 | An accepted, enabled group rollout gives its value, guarded or not, to every signed-in member of a chosen group |
| RolloutEffect.GroupRolloutSpares | backend/featureflags/services.py:420-435 | Its rule matches no visitor outside the chosen groups |
| RolloutEffect.GroupListReads | backend/featureflags/admin_services.py:171-175 | The stored id list spells exactly the chosen groups to the lenient and to the strict reader |
| RolloutDecisions.StartExactly | backend/featureflags/admin_services.py:247-339 | A rollout starts exactly when it is a never-started draft of a live flag, the policy allows its audience, the operator has the permission that audience needs, its users, groups (of the required slug) and percentage are valid, its value and page are registered, no other enabled rule overlaps, and the reason is long enough |
| RolloutDecisions.CreateExactly | backend/featureflags/admin_services.py:88-221 | Creating is refused unless the same is true of the form; an identical never-started draft is given back, the first of them; otherwise a rule is inserted, exactly if it can be saved |
| RolloutDecisions.RuleDescribes | backend/featureflags/admin_services.py:164-212 | The inserted rule has the form's audience, value, page, targets and percentage, and a name of at most 120 characters |
| RolloutDecisions.StopExactly | backend/featureflags/admin_services.py:225-243 | A rollout stops exactly when it runs, its flag is live, the reason is long enough and the stored rule can be saved |
| RolloutSteps.UninterruptedIsCreate | backend/featureflags/admin_services.py:88-221 | The steps of creating, run without interruption, are the service's decision carried out |
| RolloutSteps.UninterruptedIsStart | backend/featureflags/admin_services.py:247-339 | The steps of starting, run without interruption, are the service's decision carried out |
| RolloutSteps.UninterruptedIsStop | backend/featureflags/admin_services.py:225-243 | So are the steps of stopping |
| RolloutSteps.FailedIsNothing | backend/featureflags/admin_services.py:87-91 | An operation that takes its locks and fails leaves everything as it was, the locks free again |
| DesignReset.RestoresExactly | backend/featureflags/migrations/0005_reset_design_rollout.py:72-161 | For any table with distinct keys: migrating and reversing go through and put every definition back exactly when no key starts like an archive key and none is one of the five rollback keys |
| DesignReset.ReverseOfForward | backend/featureflags/migrations/0005_reset_design_rollout.py:72-161 | Then reversing right after migrating restores key and active flag of every earlier definition, leaves the canonical ones inactive under rollback keys and the keys distinct, with nothing pending |
| DesignReset.CyclesRestore | backend/featureflags/migrations/0005_reset_design_rollout.py:72-161 | So do any number of cycles, if no key is one that those cycles move rows aside to |
| DesignReset.ArchiveKeyReadsBack | backend/featureflags/migrations/0005_reset_design_rollout.py:67-69 | An archive key splits at its first double underscore into its stem and the key it archives |
| DesignReset.StemTellsActive | backend/featureflags/migrations/0005_reset_design_rollout.py:157-159 | The stem tells whether the definition was active |
| DesignReset.StemsNameRows | backend/featureflags/migrations/0005_reset_design_rollout.py:67-69 | Archive keys of one prefix name their row |
| DesignReset.OwnKeyIsFree | backend/featureflags/migrations/0005_reset_design_rollout.py:88-92 | If no other row has taken the archive keys of the rows to be renamed, each can be renamed, whichever were renamed before |
| DesignReset.RollbackClearExactly | backend/featureflags/migrations/0005_reset_design_rollout.py:135-149 | After a migration the canonical rows can be moved aside exactly when the five keys for that are not taken |
| DesignReset.PendingIsLost | backend/featureflags/migrations/0005_reset_design_rollout.py:151-161 | A definition whose key starts like an archive key does not come back |
| DesignReset.OriginalIsFree | backend/featureflags/migrations/0005_reset_design_rollout.py:156-161 | In a reversible table each original key is free when it is restored |
| DesignReset.ForwardRows | backend/featureflags/migrations/0005_reset_design_rollout.py:72-125 | Forward archives exactly the retired definitions and adds the canonical ones |
| DesignReset.ForwardLeaves | backend/featureflags/migrations/0005_reset_design_rollout.py:72-125 | After the migration each retired definition is inactive under its archive key and otherwise as it was, others are untouched, and each of the five flags has one new active definition with the legacy default |
| DesignReset.FlagTable.Save | backend/featureflags/migrations/0005_reset_design_rollout.py:91 | A save succeeds exactly when no other row has the key |
| DesignReset.FlagTable.RenameAll | backend/featureflags/migrations/0005_reset_design_rollout.py:88-92 | Renames exactly the given rows, keeps keys distinct, and cannot fail when no other row has taken the new keys |
| DesignReset.FlagTable.CreateCanonical | backend/featureflags/migrations/0005_reset_design_rollout.py:104-112 | Creates the five canonical definitions when their keys are free |
| DesignReset.FlagTable.Migrate | backend/featureflags/migrations/0005_reset_design_rollout.py:72-125 | The forward migration, rolled back on any collision; with distinct keys there is one exactly when another row has taken an archive key |
| DesignReset.FlagTable.Unmigrate | backend/featureflags/migrations/0005_reset_design_rollout.py:128-161 | The reverse migration, rolled back on any collision or unreadable key; none on a reversible table |
| DesignReset.FlagTable.RestoreAll | backend/featureflags/migrations/0005_reset_design_rollout.py:151-161 | Reads every pending archive key back, one save each |
| ContactSeed.ReverseOfForward | backend/featureflags/migrations/0006_seed_contact_page_rollout.py:67-276 | Reversing the seed restores the definition and rule tables exactly: what was overwritten comes back, timestamps included, and what was created is gone; history is only appended to |
| ContactSeed.CyclesRestore | backend/featureflags/migrations/0006_seed_contact_page_rollout.py:67-276 | So do any number of cycles: earlier snapshots never mislead a later reverse |
| ContactSeed.ForwardSeeds | backend/featureflags/migrations/0006_seed_contact_page_rollout.py:78-170 | After the seed the flag is active with its code-first values, the testers' rule is on, and other definitions are untouched |
| ContactSeed.UnseedAfterSeed | backend/featureflags/migrations/0006_seed_contact_page_rollout.py:192-243 | Undoing the rule part puts the rule table back |
| ContactSeed.UnseedDefinitionAfterSeed | backend/featureflags/migrations/0006_seed_contact_page_rollout.py:245-276 | Undoing the definition part puts the definition table back and takes no rule along |
| SeedOutcomes.ForwardExactly | backend/featureflags/migrations/0006_seed_contact_page_rollout.py:67-170 | Over any tables and histories: the flag of that key is taken over with a history row of its old values and one of the new, or created with one row; other definitions stay |
| SeedOutcomes.RulesSeededExactly | backend/featureflags/migrations/0006_seed_contact_page_rollout.py:127-170 | The testers' rule taken over is the flag's first of that name and page by priority, then key; without one a rule is added; all its fields, both timestamps and the history rows are stated |
| SeedOutcomes.ReverseExactly | backend/featureflags/migrations/0006_seed_contact_page_rollout.py:173-276 | Over any tables and histories: no flag, no change; the flag goes back to its last pre-migration row, or goes together with all its rules; with the one history row each case leaves |
| SeedOutcomes.UnseedRuleExactly | backend/featureflags/migrations/0006_seed_contact_page_rollout.py:192-243 | The rule last written by the seed, if still there, goes back to its last pre-migration row; without one it goes if the seed created it and stays if not; with the history row each case leaves |
| ContactSeed.SeedMigration.MigrateDefinition | backend/featureflags/migrations/0006_seed_contact_page_rollout.py:78-119 | Creates the definition, or snapshots it before and after overwriting it |
| ContactSeed.SeedMigration.Migrate | backend/featureflags/migrations/0006_seed_contact_page_rollout.py:67-170 | The forward migration as specified |
| ContactSeed.SeedMigration.Unmigrate | backend/featureflags/migrations/0006_seed_contact_page_rollout.py:173-276 | The reverse migration as specified |
| AdminMfaRuns.VerifiedOnlyAfterLogin | backend/accounts/services/admin_mfa.py:275-304 | In every reachable world a session counts as verified for a visitor only because that user completed a login in that session within the lifetime, from that session's own password stage, unexpired when loaded, with an account that was active staff with a primary factor, and with an enrolled factor of their own |
| AdminMfaRuns.EveryRunIsSound | backend/accounts/services/admin_mfa.py:201-304 | Every pending flow and assurance in any session copy descends from a start or a completed login of that session |
| AdminMfaRuns.CompleteKeepsSound | backend/accounts/services/admin_mfa.py:656-700 | Completing a login records what it stands on |
| AdminMfaRuns.LoadPendingKeepsSound | backend/accounts/services/admin_mfa.py:234-272 | A loaded pending flow descends from its session's password stage and is unexpired |
| AdminMfa.PendingReadsBackExactly | backend/accounts/services/admin_mfa.py:234-272 | A started flow reads back exactly while it lasts and its account stays active staff with a primary factor |
| AdminMfa.AssuranceHoldsExactly | backend/accounts/services/admin_mfa.py:275-304 | An assurance holds exactly for its user, with a known method, while it lasts |
| AdminMfa.CompletedLogin | backend/accounts/services/admin_mfa.py:684-700 | After a completed login the session is verified for that user only, nothing of the pending flow is left, and another user's data is not carried over |
| AdminMfaLogin.LoginExactly | backend/accounts/services/admin_mfa.py:201-304 | A whole login, password stage, pause, factor and completion, leaves the session verified exactly if the account is eligible and the pause no longer than a pending flow lasts, and nothing of the flow in any case |
| AdminMfaOutcomes.StartExactly | backend/accounts/services/admin_mfa.py:201-231 | The password stage starts a flow exactly for an active staff account with a code generator or security key; nothing of an earlier flow or assurance is left, the rest of the session stays |
| AdminMfaOutcomes.GetPendingExactly | backend/accounts/services/admin_mfa.py:234-272 | Whatever a session holds, it reads as a pending flow exactly if it spells one of an eligible account that is not over; anything else is dropped with all that belongs to it |
| AdminMfaOutcomes.CompletedExactly | backend/accounts/services/admin_mfa.py:656-700 | A login completes exactly for an eligible account, a factor of its own still enrolled, and a rotated rate epoch; which refusals clear the session, and what a completion leaves in it |
| AdminMfaOutcomes.VerifiedExactly | backend/accounts/services/admin_mfa.py:275-304 | Whatever a session holds, it counts as verified exactly for the active staff visitor whose assurance it spells, by a known method and within the lifetime |
| AdminMfaOutcomes.IsVerifiedExactly | backend/accounts/services/admin_mfa.py:275-304 | Asking drops an assurance that does not hold and changes nothing else |
| AdminMfaOutcomes.RequestAssuredExactly | backend/accounts/services/admin_mfa.py:307-322 | A request enters the admin exactly if it counts as verified and its visitor still has a primary factor |
| AdminMfaOutcomes.MethodExactly | backend/accounts/services/admin_mfa.py:522-529 | The method an assurance names, for exactly the three kinds of factors |
| AdminMfa.AdminSession.ClearPendingLogin | backend/accounts/services/admin_mfa.py:176-180 | Drops the four pending keys |
| AdminMfa.AdminSession.ClearMfaState | backend/accounts/services/admin_mfa.py:183-185 | Drops those and the assurance |
| AdminMfa.AdminSession.StartPendingLogin | backend/accounts/services/admin_mfa.py:201-231 | Clears, then stores the flow, or clears and refuses |
| AdminMfa.AdminSession.GetPendingLogin | backend/accounts/services/admin_mfa.py:234-272 | Loads a flow in order, or clears what is there |
| AdminMfa.AdminSession.CompleteLogin | backend/accounts/services/admin_mfa.py:656-700 | Checks, rotates, clears, logs in and stores the assurance, in source order |
| AdminMfa.AdminSession.CheckVerified | backend/accounts/services/admin_mfa.py:275-304 | Answers, and drops an assurance that does not hold |
| AdminMfa.AdminSession.CheckAssured | backend/accounts/services/admin_mfa.py:307-322 | Answers for a request, and drops an assurance without a primary factor as well |
| RateEpochRuns.OneEpoch | backend/accounts/services/admin_mfa.py:353-385 | Between rotations, overlapping attempts of one user and address that each start at most the longest window after an earlier one and take at most a minute all read one epoch, whichever others the cache refuses; and that epoch is still read at every moment of the window of every counter they have counted under it |
| RateEpochRuns.ReadsExactly | backend/accounts/services/admin_mfa.py:368-385 | At any pace: a read finds the epoch exactly until the second of its last touch plus the longest configured window plus sixty |
| RateEpochRuns.EpochChangesExactly | backend/accounts/services/admin_mfa.py:368-408 | At any pace: an epoch is replaced exactly by a rotation or by an attempt whose write comes after that second |
| RateEpochRuns.EpochKeptExactly | backend/accounts/services/admin_mfa.py:353-385 | Over any run without rotations an epoch is kept exactly when no attempt writes after that second |
| RateEpochRuns.PauseExactly | backend/accounts/services/admin_mfa.py:353-385 | A lone attempt after a pause reads the old epoch exactly when it comes no later than that second, and its own new one otherwise |
| RateEpochRuns.CounterEndsFirst | backend/accounts/services/admin_mfa.py:411-438 | The window of a failure counted within a minute of its attempt's start ends no later than the epoch's row |
| RateEpochRuns.LiveNow | backend/accounts/services/admin_mfa.py:353-361 | In such a paced run the row of the epoch outlives the present moment while an attempt is in flight |
| RateEpochRuns.FreshIsSound | backend/accounts/services/admin_mfa.py:368-376 | An attempt that created or refreshed the epoch starts such a run |
| RateEpochs.AccessKeepsEpoch | backend/accounts/services/admin_mfa.py:368-385 | While the row lives up to the read, an access reads its epoch and extends it from its touch; a touch that fails or finds no row is an error, never another epoch |
| RateEpochs.AccessReadsExactly | backend/accounts/services/admin_mfa.py:368-385 | An access answers with the epoch it finds exactly when its read comes no later than the row's last second and its touch succeeds on a row that is still there |
| RateEpochs.ReadDecides | backend/accounts/services/admin_mfa.py:368-385 | In a cache within its budget whose touch succeeds, the second of the read alone decides |
| RateEpochs.LapsedIsNotRead | backend/accounts/services/admin_mfa.py:368-385 | After the row has lapsed an access never answers with the old epoch |
| RateEpochs.EpochKeysDiffer | backend/accounts/services/admin_mfa.py:325-336 | Two epochs share a key exactly when user and address are the same |
| RateEpochs.TimeoutCoversWindows | backend/accounts/services/admin_mfa.py:353-361 | The epoch timeout is the least that leaves each configured window a minute to spare |
| RateEpochs.LapsedEpochIsReplaced | backend/accounts/services/admin_mfa.py:368-385 | Once the row has lapsed before the write, the access starts a new epoch |
| RateEpochs.RotationReplaces | backend/accounts/services/admin_mfa.py:388-408 | A successful rotation leaves the new epoch in place |
| RateEpochs.WrittenRate | backend/accounts/services/admin_mfa.py:342-350 | A written rate is read as the period it names, in its unit or in seconds when it names none, and as one unit or one second when it names no period; a zero period is refused |
| RateEpochs.RateWindowExactly | backend/accounts/services/admin_mfa.py:342-350 | A text is read as a window exactly if it is a count, a slash and a positive period with or without a unit, of that many seconds |
| RateEpochs.RotateExactly | backend/accounts/services/admin_mfa.py:388-408 | A rotation succeeds exactly if the cache has room, the database answers and the new epoch is still readable when read back |
| RateEpochSteps.UninterruptedIsAccess | backend/accounts/services/admin_mfa.py:368-385 | The steps of an attempt, run alone with any pauses, are the access: same cache, and it goes on with an epoch exactly if the access answers with it |
| RateEpochSteps.ErrorIsRefusal | backend/accounts/services/admin_mfa.py:374-383 | An attempt whose write meets a cache error is refused, the cache as the access leaves it |
| RateEpochSteps.UninterruptedIsRotation | backend/accounts/services/admin_mfa.py:388-408 | The steps of a rotation, run alone, are the rotation: same cache, and its epoch is the one watched if stored |
| RateEpochs.RateLimiter.GetRateEpoch | backend/accounts/services/admin_mfa.py:368-385 | Adds, reads and touches in source order; any cache error refuses |
| RateEpochs.RateLimiter.RotateRateEpoch | backend/accounts/services/admin_mfa.py:388-408 | Sets and reads back; anything else refuses |

## Left out

- User interface, forms, admin pages, serializers, telemetry, logging and HTTP headers: they only present or repeat what the services decide.
- The advanced rule form of the admin, whose conflict check is weaker: the page-disjointness results are for guided operations only.
- JWT and cookie signing, FIDO2 and allauth factor verification, password checks: unseen libraries, stood for by their outcomes.
- Counts of django-ratelimit and allauth's own failure counter: of a counter the model keeps its epoch, its time and its window.
- Session listing, profile data, user agent, IP and `blacklisted_at` columns, lower-casing of revocation reasons: nothing else reads them.
- Column length limits, among them the 100 characters of a flag key, the 64 of a stored value and the 120 of a name beyond its cut.
- The Django and allauth session rows of a refresh of the session key during a password change: a request enters `ChangePassword` with the key it has afterwards.
- Database deadlocks and aborted transactions: an aborted request is a step with no effect.
- Non-ASCII letters and white space in `strip` and `lower`, digits other than ASCII ones, and JSON id lists that are not lists.
- JSON numbers too large for a float, unhashable or ill-typed values whose use raises an unhandled exception.
- OpenFeature attributes of other types than the service itself writes, and resolvers for integers, floats and objects.
- Rules and history rows that migration 0005 creates beside its definitions, and the group row of both migrations.
- Redirect targets of the admin login, abort counters, and the mapping of boundary failures to admin rate limits.
- FlagRegistry.ValidGuard: uses English renderings of the Russian variant labels, which validation only compares for presence and equality.
- RolloutRaces.EveryRunIsSound: gives stopping the rule's lock alone although the service locks the joined feature row too, which only allows more runs; starts from tables that already satisfy the three properties; rules written by other means need not.
