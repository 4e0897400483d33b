# Auth-All: models and proofs

Auth-All is a Go library for authentication. This project models its core in Dafny and proves what its documentation
and its tests promise: the token engine of the OAuth 2.1 provider, and beside it migrations, keyset pagination, the
bootstrap of the first administrator, the last-administrator guard, sessions, the principal cache, rate limits,
one-time passwords, DPoP proofs and signing keys.

## How the model is laid out

- **Token engine.** `OAuthRows` holds the tables and the SQL statements as functions. `TokenCalls` writes every endpoint
  as a machine whose steps are single store operations. `Interleaving` lets any number of such calls interleave, with
  time, cleanup and the disabling of users; `InterleavingProofs` and `InterleavingSteps` prove its invariants, and
  `OAuthTheorems`, `SingleUse` and `Audiences` draw the conclusions. `SerialRuns` and `SerialTheorems` treat runs in which
  calls do not overlap. Tables hold every list as it reads back from its text column (`ListColumns`); `SplitResources`
  says for which configurations that matters.
  `RowStore` and `Provider` are the imperative form: classes whose methods change the tables statement by statement, each
  proved equal to the machine. `Outcomes` and `PageOutcomes` say, independently of the steps and row by row, what each
  endpoint answers and what it leaves; `RowEffects` says it of revocation and cleanup.
  `SerialTheorems.WholeCallIsRun` closes the circle: a whole call is a run of the interleaved system.
- **Migrations.** `TableOrder` is the in-place topological sort. `DdlEffects` interprets DDL on a catalog, by dialect: with
  errors for a missing foreign-key target and a referenced table, for names, columns and defaults that the database
  refuses, for a name of the other kind, and in SQLite for a column that an index uses. `Units`, `Extensions` and
  `ExtensionUnits` prove both directions, `Rendering` holds the renderers, `StatementIds` the identifiers, `CoreSchema` and
  `CoreUnits` the core tables, `Migrator` the registered schema and the migrator.
- **The rest.** One module each: `Paging`, `Bootstrap`, `LastAdmin`, `Sessions`, `PrincipalCache`, `RateLimit`, `Totp`,
  `DPoP`, `Keys`, `ListColumns`. Each has the class or method that the source has, and a step machine where callers race.

Times are whole nanoseconds, as in Go; token claims and proofs carry whole seconds. Digests, signatures and the HMAC are
abstract: a presented code or token stands for the row that its digest selects, and random values are fresh identifiers.

## What the code does not do as its text says

- The comment at `schema/oauthprovider.go:72-73` calls the list encoding lossless. It is so exactly for values without
  white space (`ListColumns.RoundTripIff`), and a resource indicator with a blank passes the configuration check. With
  the resources "urn:a b" and "urn:a" one grant gets tokens of two audiences; `SplitResources.OneAudienceIff` and
  `SplitResources.ResourcesStayIff` give the exact conditions. A registered client asks for such a resource with the
  consent page every time (`PageOutcomes.CoveredAgainIff`).
- The reverse statements of one unit of several extensions run front to back, like the forward ones. If one extension
  adds a column and a later one of the same unit an index on it, they stop at the column in SQLite
  (`ExtensionUnits.ColumnBeforeIndexStops`); `ExtensionUnits.UnitUndone` has the exact condition, and says that
  PostgreSQL, which drops the index with its column, always undoes the unit.
- Names are written without quotes (`schema/schema.go:288-343`), and `Normalize` does not know what a database reserves:
  a field "order" and the prefix "sqlite_" pass (`CoreUnits.AcceptedButRefused`). `CoreUnits.CoreUnitsReachCoreTables` says
  for every database exactly which fields and prefixes build the core tables.
- `plugins/admin/bootstrap.go:60-67` promises the first administrator when the users table is empty. A guard row whose
  user is gone keeps everybody from winning (`Bootstrap.RaceOutcome`).
- The limiter forms differ for a limit below one (`RateLimit.FormsAgreeIff`).
- A served principal can be older than the cache time by the lag between the read and the put
  (`PrincipalCache.ServedIsFresh`), and one instant of lag is enough (`PrincipalCache.ServedWithinIff`).
- A DPoP proof is single use exactly when no request waits longer than 59 minutes between its window check and its claim
  (`DPoP.SingleUseIff`, with the failing run in `DPoP.LongerWaitReplays`).
- Two simultaneous rotations can leave no unretired key until the next signature makes one (`Keys.RotationsCanCross`);
  `Keys.OneKeyIff` says when they leave exactly one.
- `docs/guides/admin.md:44-46` says that the guard refuses when the target is the last enabled administrator. It counts
  exact holders of the role, so it refuses only then exactly when no role ranks above the administrator role
  (`LastAdmin.RefusesOnlyTheLastIff`); otherwise it refuses beside the owner of a higher role
  (`LastAdmin.DisableRefusedBesideOwner`, `LastAdmin.GuardIsStricter`).
- A NUL in an address breaks the cursor of the user list (`Paging.NulRepeats`), exactly when the row is selected and is
  not the last one (`Paging.ReadsAscendIff`).

## Model

| member | source | states |
|---|---|---|
| Requests.CheckCovers | plugins/oauthprovider/authorize.go:193-204 | the loop over a set decides that every wanted value is among the granted ones |
| Requests.CheckRequestedScopes | plugins/oauthprovider/authorize.go:301-326 | the loop returns the distinct scopes in order, or the first problem that the list has |
| Requests.RequestedScopesIff | plugins/oauthprovider/authorize.go:301-326 | a scope request passes exactly when it names a scope and names nothing beyond the offer and the client; the answer has the same elements |
| Requests.DistinctKeepsElements | plugins/oauthprovider/authorize.go:315-324 | dropping repetitions keeps the elements and leaves no element twice |
| Requests.DistinctIsStable | plugins/oauthprovider/authorize.go:315-324 | each value stands at the place of its first occurrence |
| Requests.FirstScopeProblem | plugins/oauthprovider/authorize.go:301-326 | the problem that is reported is that of the first scope that is not offered or not allowed |
| Requests.CheckRequestedResources | plugins/oauthprovider/authorize.go:330-353 | the loop returns the one resource, or the first problem that the list has |
| Requests.RequestedResourcesIff | plugins/oauthprovider/authorize.go:330-353 | a resource request passes exactly when every indicator is declared, takes all scopes, and all are the same one; the answer holds it once |
| RowStore.Store.CreateRequest | internal/sqlstore/oauthprovider.go:207-215 | inserts the row, and a taken identifier changes nothing |
| RowStore.Store.ConsumeRequest | internal/sqlstore/oauthprovider.go:229-240 | consumes an unconsumed and unexpired request in one statement, or changes nothing |
| RowStore.Store.CreateGrant | internal/sqlstore/oauthprovider.go:251-258 | inserts the row, and a taken identifier changes nothing |
| RowStore.GrantReadsBackIff | internal/sqlstore/oauthprovider.go:251-268 | a grant reads back as it was written exactly when its scopes and resources are words; in any case everything else of it does |
| RowStore.Store.RevokeGrantRows | internal/sqlstore/oauthprovider.go:272-285 | the selected grants and every token of them get the instant, an earlier revocation keeps its own, and every other row and column stays |
| RowStore.Store.RevokeGrant | internal/sqlstore/oauthprovider.go:288-290 | does so for the grant of the identifier alone |
| RowStore.Store.RevokeGrantsOfConsent | internal/sqlstore/oauthprovider.go:298-300 | does so for exactly the grants of the user for the client |
| RowStore.Store.RevokeGrantsOfUser | internal/sqlstore/oauthprovider.go:293-295 | does so for exactly the grants whose user is the given one |
| RowStore.Store.CreateCode | internal/sqlstore/oauthprovider.go:312-319 | inserts the row, and a taken hash changes nothing |
| RowStore.Store.ConsumeCode | internal/sqlstore/oauthprovider.go:334-345 | consumes an unconsumed and unexpired code in one statement, or changes nothing |
| RowStore.Store.CreateAccessToken | internal/sqlstore/oauthprovider.go:351-358 | inserts the row, and a taken identifier changes nothing |
| RowStore.Store.RevokeAccessToken | internal/sqlstore/oauthprovider.go:374-379 | revokes one access token and keeps the instant of an earlier revocation |
| RowStore.Store.CreateRefreshToken | internal/sqlstore/oauthprovider.go:392-400 | inserts the row, and a taken identifier changes nothing |
| RowStore.Store.RotateRefreshToken | internal/sqlstore/oauthprovider.go:427-436 | rotates an unrotated and unrevoked row in one statement, or changes nothing |
| RowStore.Store.UpsertConsent | internal/sqlstore/oauthprovider.go:446-462 | leaves exactly one consent of the user for the client, with the new lists |
| RowStore.Store.DeleteConsent | internal/sqlstore/oauthprovider.go:497-504 | removes the consent of the user for the client |
| RowStore.Store.DeleteExpiredRows | internal/sqlstore/oauthprovider.go:515-530 | a request, code or token is there afterwards exactly when it was and expires no earlier than the instant, and it is unchanged; grants and consents stay; the answer is the number of deleted rows |
| Provider.OAuthProvider.MintAccessToken | plugins/oauthprovider/token.go:404-446 | records one access token whose audience is the one resource or the issuer, with the lifetime of the resource if it has one |
| Provider.OAuthProvider.IssueTokensWithID | plugins/oauthprovider/token.go:357-397 | statement by statement the same tables and answer as the call machine from the minting step on |
| Provider.OAuthProvider.TokenFromCode | plugins/oauthprovider/token.go:138-184 | statement by statement the same tables and answer as a code exchange of the call machine |
| Provider.OAuthProvider.TokenFromRefresh | plugins/oauthprovider/token.go:191-269 | statement by statement the same tables and answer as a refresh of the call machine |
| Provider.OAuthProvider.Rotate | plugins/oauthprovider/token.go:230-268 | the part of a refresh for a row that is still a head, as the call machine does it |
| Provider.OAuthProvider.ReplayRotation | plugins/oauthprovider/token.go:274-298 | the answer to a retry inside the grace window, as the call machine gives it |
| Provider.OAuthProvider.TokenFromClientCredentials | plugins/oauthprovider/token.go:301-347 | statement by statement the same tables and answer as a client credentials call of the call machine |
| Provider.OAuthProvider.CheckConsentMissing | plugins/oauthprovider/authorize.go:180-190 | decides that a registered client has no stored consent that covers the request |
| Provider.OAuthProvider.FinishRequest | plugins/oauthprovider/authorize.go:235-280 | statement by statement the same tables and answer as the end of an authorization in the call machine |
| Provider.OAuthProvider.ContinueRequest | plugins/oauthprovider/authorize.go:139-167 | chooses the page or goes on, in the order of the checks, as the call machine does |
| Provider.OAuthProvider.HandleAuthorize | plugins/oauthprovider/authorize.go:37-136 | statement by statement the same tables and answer as an authorize call of the call machine |
| Provider.OAuthProvider.HandleDecide | plugins/oauthprovider/pages.go:91-154 | statement by statement the same tables and answer as a decision of the call machine |
| Provider.OAuthProvider.HandleWithdrawConsent | plugins/oauthprovider/pages.go:185-212 | statement by statement the same tables and answer as a withdrawal of the call machine |
| Provider.OAuthProvider.VerifyAccessToken | plugins/oauthprovider/resource.go:24-60 | returns the row exactly when the call machine finds the token active |
| Provider.OAuthProvider.HandleRevoke | plugins/oauthprovider/resource.go:228-257 | statement by statement the same tables and answer as a revocation of the call machine |
| Provider.OAuthProvider.OnUserDisabled | plugins/oauthprovider/routes.go:186-193 | every grant of the user and every token of these is revoked, and no other row changes |
| Provider.OAuthProvider.Cleanup | plugins/oauthprovider/resource.go:326-328 | deletes exactly the requests, codes and tokens that expired more than an hour ago, changes nothing else, and answers how many they were |
| TokenCalls.StepLowersRank | plugins/oauthprovider/token.go:138-446 | every call ends after a bounded number of store operations |
| SerialTheorems.WholeCallIsRun | plugins/oauthprovider/token.go:57-446 | a whole call that nothing interrupts is a serial run of the interleaved system, with the same tables and answer |
| Outcomes.IssuingOutcome | plugins/oauthprovider/token.go:357-397 | issuing succeeds exactly on fresh identifiers; then exactly the access row, and with offline access the refresh row, are new, written out field by field; what a taken identifier leaves |
| Outcomes.MintOnlyOutcome | plugins/oauthprovider/token.go:404-446 | a mint without a refresh token stores exactly one access row: grant, client, user, scopes, audience, lifetime and key |
| Outcomes.CodeCases | plugins/oauthprovider/token.go:138-184 | the ways of a code exchange with their errors: refused untouched, stolen with the revocation of the one grant, spent and refused, or minted |
| Outcomes.CodeOutcome | plugins/oauthprovider/token.go:138-184 | a code exchange issues tokens exactly when the code is open and client, redirect, verifier, key and grant all match, and exactly for the grant, the scopes and the resources of the code; every well-formed presentation spends the code, and that of another client revokes the one grant with its tokens and changes no other row (section 4.1.2 of RFC 6749) |
| SingleUse.CodeIsSingleUse | internal/sqlstore/oauthprovider.go:331-345 | over every interleaving, two calls that began as exchanges of one code never both end with tokens (section 4.1.2 of RFC 6749) |
| SingleUse.EventKeepsMarks | internal/sqlstore/oauthprovider.go:272-379 | no event of any call brings a consumed code or a revoked access token back, nor takes its mark off |
| SingleUse.ExchangeStep | plugins/oauthprovider/token.go:138-184 | an exchange goes on towards tokens only from an open code, which its step spends |
| Outcomes.RefreshCases | plugins/oauthprovider/token.go:191-234 | theft, refusal with its error, rotation and retry are told apart as the source does; theft revokes the one grant with its tokens and changes no other row |
| Outcomes.RotationCases | plugins/oauthprovider/token.go:235-268 | a rotation is refused without effect, or spends the row and mints with the wanted scopes and resources |
| Outcomes.RetryCases | plugins/oauthprovider/token.go:274-298 | a retry is refused without effect, or mints from the live successor |
| Outcomes.RefreshOutcome | plugins/oauthprovider/token.go:191-298 | a refresh gives tokens exactly on an accepted rotation or an accepted retry. A rotation marks the row, and stores both rows for its grant with what the form narrows it to; a retry stores exactly one access row, with the grant, scopes and resources of the successor and the key of the form; theft revokes the one grant; anything else changes nothing |
| Outcomes.NarrowedResources | plugins/oauthprovider/token.go:250-262 | a resource list on a refresh passes exactly when it narrows the row (section 2.2 of RFC 8707) |
| Outcomes.CredentialsOutcome | plugins/oauthprovider/token.go:301-347 | a client credentials call succeeds exactly for a confidential client with scopes of its own and none that stands for a user; it then stores the grant of no user with the distinct scopes and the named resource, and one access row whose audience is that resource or the issuer, and no refresh row; otherwise it fails with its error and changes nothing |
| Outcomes.CodeGoesOn | plugins/oauthprovider/token.go:138-184 | whatever other calls did in between, an exchange issues exactly while the grant is live |
| Outcomes.RotationGoesOn | plugins/oauthprovider/token.go:252-268 | a rotation spends its row exactly while that is neither rotated nor revoked, at the instant of its reading |
| Outcomes.RetryGoesOn | plugins/oauthprovider/token.go:274-298 | a retry mints exactly while the successor is unrevoked and the grant is live |
| Outcomes.IssuingGoesOn | plugins/oauthprovider/token.go:357-397 | the refresh row of a call carries the instant of its access row |
| Outcomes.RevocationGoesOn | plugins/oauthprovider/resource.go:228-257 | a revocation that was decided on revokes its one grant at the instant of the decision |
| Outcomes.TokenRevocationGoesOn | plugins/oauthprovider/resource.go:228-257 | and the revocation of an access token keeps an earlier instant |
| PageOutcomes.AcceptedIff | plugins/oauthprovider/authorize.go:72-123 | an authorization request is accepted exactly when its client, scopes and resources are acceptable, with the scopes once each and every column as it was asked for; otherwise its error |
| PageOutcomes.FinishOutcome | plugins/oauthprovider/authorize.go:235-280 | finishing succeeds exactly on an open request, which is spent; grant and code carry what the stored request says, column by column; what a taken identifier leaves |
| PageOutcomes.AuthorizeOutcome | plugins/oauthprovider/authorize.go:37-167 | which answer a call gets, by its form, the session, the prompts and the consent: a code without any page exactly when the request is acceptable, the user is present, no prompt or age asks for a page, and the consent covers it; and exactly which rows are there then |
| PageOutcomes.DecideOutcome | plugins/oauthprovider/pages.go:91-154 | an approval gives a code exactly for a signed-in user and an open request of that client; the tables then differ in the spent request, the one consent, the grant and the code; a denial spends the request and changes nothing else; otherwise an error, and nothing changes |
| PageOutcomes.PageGoesOn | plugins/oauthprovider/pages.go:91-154 | whatever other calls did in between, a denial succeeds exactly while the request is open, and a code is stored exactly when its digest is new |
| PageOutcomes.WithdrawOutcome | plugins/oauthprovider/pages.go:185-212 | a withdrawal removes the one consent and revokes exactly the grants of that user for that client with their tokens, and no other row changes |
| PageOutcomes.VerifyOutcome | plugins/oauthprovider/resource.go:24-60 | a token is active exactly when it is unexpired and neither it nor its grant is revoked |
| PageOutcomes.VerifyGoesOn | plugins/oauthprovider/resource.go:24-60 | a verification that has read its row succeeds exactly while the grant is live |
| PageOutcomes.CleanupKeepsAnswers | plugins/oauthprovider/resource.go:326-328 | no cleanup changes the answer of a verification, for any token whose expiry is that of its row |
| PageOutcomes.RevokeOutcome | plugins/oauthprovider/resource.go:228-257 | a revocation revokes the one grant of the client's own refresh token with its tokens, or its own live access token, changes no other row, and always gives one answer (section 2.1 of RFC 7009) |
| SingleUse.RevokedTokenIsDead | plugins/oauthprovider/resource.go:24-60 | from a revoked access token on, in every later state of every run its row is revoked or gone, and only a verification that had read the row before may still answer that it is active |
| SingleUse.RevocationEndpointIsFinal | plugins/oauthprovider/resource.go:228-257 | once a call of the revocation endpoint has made its revoking step, the token is dead for good in every interleaving (section 2.1 of RFC 7009) |
| PageOutcomes.CoveredAgainIff | plugins/oauthprovider/authorize.go:180-190 | the consent of an approval covers a second request with the same parameters exactly when these are words, so a registered client asks for a resource with a blank every time |
| InterleavingSteps.EventKeeps | plugins/oauthprovider/token.go:138-446 | every store operation of every call, cleanup, time and the disabling of a user keep all invariants of the interleaved system |
| InterleavingSteps.ReachableIsGood | plugins/oauthprovider/token.go:138-446 | the invariants hold in every state of every interleaving from the empty provider |
| InterleavingSteps.RefreshRotateStep | internal/sqlstore/oauthprovider.go:427-436 | a rotation step hands the one head of the grant from the row to the call |
| InterleavingSteps.CodeStep | internal/sqlstore/oauthprovider.go:334-345 | a code consumption hands the one head of the grant from the code to the call |
| InterleavingProofs.CleanupKeeps | internal/sqlstore/oauthprovider.go:515-530 | cleanup keeps all invariants |
| OAuthTheorems.OneHeadPerGrant | plugins/oauthprovider/token.go:138-269 | in every reachable state of any number of interleaved calls a grant has at most one in total of unconsumed codes, calls that may still insert a refresh row, and unrotated refresh rows |
| OAuthTheorems.NoTwoLiveTokens | internal/sqlstore/oauthprovider.go:334-436 | a grant never has two unrotated refresh tokens, nor one beside an unconsumed code |
| OAuthTheorems.OneGrantPerRequest | plugins/oauthprovider/authorize.go:235-280 | over every interleaving one authorization request yields at most one grant and at most one code |
| OAuthTheorems.RotationChains | plugins/oauthprovider/token.go:191-269 | successor pointers form disjoint, acyclic, finite paths, also through deleted rows; grant, client and user stay, scopes only shrink (section 6 of RFC 6749), a proof key stays once it is there, and a list of at most one resource stays |
| OAuthTheorems.RowsStayWithinGrant | plugins/oauthprovider/token.go:239-262 | in every reachable state all codes, refresh and access tokens ever inserted have scopes within the grant and the offer, resources of the grant or one of several, and exactly the configured lifetime of codes and refresh tokens |
| Audiences.OneAudiencePerGrant | plugins/oauthprovider/token.go:404-418 | if every declared resource is a word, each grant names at most one resource, all its codes and refresh tokens name the same, and all access tokens ever minted from it have its one audience and lifetime |
| Audiences.OwnGrantMintsOnce | plugins/oauthprovider/token.go:301-347 | a grant of client credentials gives one access token in all, over every interleaving |
| SplitResources.OneAudienceIff | plugins/oauthprovider/oauthprovider.go:373-386 | every run gives each grant one audience exactly when no declared resource, one that a client may ask for with a refresh token, reads back as several entries of which one is a declared resource other than the issuer |
| SplitResources.ResourcesStayIff | plugins/oauthprovider/token.go:250-262 | resources stay the same along every chain of rotation exactly when no such entry takes the offline scope |
| SplitResources.TwoAudiences | plugins/oauthprovider/token.go:404-418 | the failing run: a grant for a resource with a blank gets one token for the issuer and one for a part of the resource |
| SplitResources.BlankConfigFails | plugins/oauthprovider/oauthprovider.go:373-386 | the configuration with the resources "urn:a b" and "urn:a" has such a run |
| SplitResources.PlainNeverSplits | schema/oauthprovider.go:72-73 | resources without white space meet both conditions |
| OAuthTheorems.EventKeepsGrants | internal/sqlstore/oauthprovider.go:272-285 | no event changes a grant but for its revocation, and no event takes a revocation back |
| OAuthTheorems.RevocationIsFinal | plugins/oauthprovider/resource.go:46-59 | with steps interleaved, a verification succeeds for a revoked grant only if it was already answered when the grant was revoked |
| OAuthTheorems.DisabledIsFinal | plugins/oauthprovider/routes.go:186-193 | over any interleaving after a user is disabled, no later verification of a token of a grant that the user had answers active |
| SerialTheorems.EventSerial | plugins/oauthprovider/pages.go:91-212 | one call at a time, every event keeps: revoked grants are closed, consents are there, and what the running call has checked still holds |
| SerialTheorems.RevokedHasNoLiveRows | internal/sqlstore/oauthprovider.go:272-285 | with whole calls, a revoked grant has every access and refresh row revoked, in every reachable state |
| SerialTheorems.RevokedGainsNothing | plugins/oauthprovider/token.go:357-397 | with whole calls, a revoked grant never gains a code or a token |
| SerialTheorems.ReplayKillsChain | plugins/oauthprovider/token.go:214-229 | a replay after the grace window of an unexpired and unrevoked rotated token by its own client leaves the grant and all its tokens revoked in all later states |
| SerialTheorems.GrantsAreConsented | plugins/oauthprovider/pages.go:202-207 | between calls no unrevoked user grant of a registered client exists without a consent row for that pair |
| SerialTheorems.CodesAreConsented | plugins/oauthprovider/authorize.go:162-190 | a code for a registered client is inserted only while the stored consent covers its scopes and resources |
| ListColumns.RoundTripIff | internal/sqlstore/oauthprovider.go:16-25 | a list comes back from its column exactly when every value is non-empty and free of white space |
| ListColumns.SplitIsFields | internal/sqlstore/oauthprovider.go:20-25 | the test for a blank column changes no result |
| ListColumns.FieldsSplit | internal/sqlstore/oauthprovider.go:20-25 | a white space divides the words of a text into those before it and those after it |
| ListColumns.FieldsOfOne | internal/sqlstore/oauthprovider.go:20-25 | a text without white space is its one word |
| ListColumns.StoredIsFields | internal/sqlstore/oauthprovider.go:16-25 | whatever the values hold, exactly their words come back, in order |
| ListColumns.BlankResourceIsSplit | plugins/oauthprovider/oauthprovider.go:373-386 | a resource with a blank, which passes the configuration check, comes back as two |
| DPoP.ProofStore.CheckDPoP | plugins/oauthprovider/dpop.go:33-88 | accepts exactly a proof in the window with an unclaimed identifier for the right token, and claims the identifier before the token is compared |
| DPoP.ProofStore.ClaimProof | internal/sqlstore/oauthprovider.go:508-512 | claims an identifier once |
| DPoP.ProofStore.DeleteExpired | plugins/oauthprovider/resource.go:326-328 | forgets the claims that expired before now less the cleanup window |
| DPoP.ProofsAreSingleUse | plugins/oauthprovider/dpop.go:68-79 | over any interleaving with cleanup, an identifier is claimed at most once for one issue time, if no request waits longer than the cleanup age less the window between check and claim (section 11.1 of RFC 9449) |
| DPoP.SingleUseIff | plugins/oauthprovider/dpop.go:68-79 | for a lag of zero or more, every run from every start is single use exactly when the lag is at most the cleanup age less the window |
| DPoP.LongerWaitReplays | plugins/oauthprovider/dpop.go:68-79 | the failing run of one nanosecond more: a proof is claimed twice |
| Keys.KeyTable.Create | internal/sqlstore/oauthprovider.go:70-76 | inserts a key row, and a taken identifier changes nothing |
| Keys.KeyTable.Retire | internal/sqlstore/oauthprovider.go:105-110 | retires every unretired key but one |
| Keys.ListedIsNewestFirst | internal/sqlstore/oauthprovider.go:79-102 | the listing holds exactly the rows, the newest first, and the greater identifier first among rows of one instant |
| Keys.LoadedMeans | plugins/oauthprovider/keys.go:83-120 | loading finds the public key of every row, and as signer the newest unretired row of the algorithm, the greater identifier first |
| Keys.Instance.LoadKeys | plugins/oauthprovider/keys.go:83-120 | fills the verifiers with all rows, and the signer with the first unretired row of the algorithm in listing order |
| Keys.Instance.GenerateKey | plugins/oauthprovider/keys.go:134-162 | inserts a key, retires the others on demand, and reloads |
| Keys.Instance.SigningKey | plugins/oauthprovider/keys.go:58-79 | returns the cached signer, the one of the rows, or a new one; a conflicting insert leads to a second read, and only then there can be none |
| Keys.Instance.Rotate | plugins/oauthprovider/keys.go:168-173 | on a lone instance exactly one key is unretired after a rotation, and it is the signer |
| Keys.Instance.Verifier | plugins/oauthprovider/keys.go:176-193 | answers a hit from the cache, and a miss from a reload |
| Keys.SignedResolvesEverywhere | plugins/oauthprovider/keys.go:58-193 | over any number of instances and any interleaving, every identifier ever signed with resolves on every instance to its matching key, and all cached keys are keys of the rows |
| Keys.UnretiredIff | plugins/oauthprovider/keys.go:134-173 | in every run of any number of instances a key is unretired exactly when no retirement by another key follows its insertion |
| Keys.OneKeyIff | plugins/oauthprovider/keys.go:134-173 | finished rotations of any number of instances leave exactly one unretired key, the last inserted, if its insertion follows the retirements of all other rotations, and otherwise none |
| Keys.RotationsCanCross | plugins/oauthprovider/keys.go:134-173 | the run of two crossing rotations, after which no key is unretired and no instance finds a signer |
| Bootstrap.Store.ClaimAndPromote | plugins/admin/bootstrap.go:100-114 | the transaction claims the guard row, sets credential and role, or does nothing |
| Bootstrap.Store.Bootstrap | plugins/admin/bootstrap.go:68-126 | statement by statement the tables and the answer of the step machine |
| Bootstrap.AloneWinsIff | plugins/admin/bootstrap.go:68-126 | a process alone wins exactly when there is no user and no guard row, and otherwise changes nothing |
| Bootstrap.AtMostOneWinner | plugins/admin/bootstrap.go:68-147 | over any interleaving, with crashes and other users coming and going, at most one call returns true |
| Bootstrap.EmailsStayUnique | plugins/admin/bootstrap.go:84-99 | over any interleaving, the calls never give two users one email |
| Bootstrap.WinnerKeepsEmail | plugins/admin/bootstrap.go:68-147 | over any interleaving, the row of the winner has the email that its call asked for |
| Bootstrap.RaceOutcome | plugins/admin/bootstrap.go:68-147 | from an empty users table, undisturbed and with all calls finished: exactly one call returned true if and only if there was no guard row; its row, with role and credential, is the only user and named by the guard; a stale guard row lets nobody win and leaves no user |
| LastAdmin.RankOf | roles_core.go:28-38 | the loop finds the rank, an empty role being the default one |
| LastAdmin.Admin.GuardLastAdmin | plugins/admin/operations.go:359-386 | the nested loops decide that another enabled user holds exactly the administrator role |
| LastAdmin.Admin.SetRole | plugins/admin/operations.go:160-211 | refuses an unknown role, an unknown user and the demotion of the last holder, and otherwise sets the role |
| LastAdmin.Admin.Disable | plugins/admin/operations.go:215-259 | refuses an unknown user and the disabling of the last holder, and otherwise disables |
| LastAdmin.Admin.Enable | plugins/admin/operations.go:262-295 | refuses an unknown user, and otherwise enables |
| LastAdmin.Admin.CreateUser | plugins/admin/operations.go:103-157 | refuses an unknown role and a taken user, and otherwise creates an enabled user with the role |
| LastAdmin.AdminRemains | plugins/admin/operations.go:103-386 | over every run of the operations, if some enabled user ranks at least the administrator role, then one always does |
| LastAdmin.PerformMeans | plugins/admin/operations.go:103-295 | the answer and the users after each operation, written out over the hierarchy and the exact holders |
| LastAdmin.RefusesOnlyTheLastIff | plugins/admin/operations.go:355-386 | every refusal of the guard, over all users and operations, is about the last enabled administrator exactly when no role ranks above the administrator role |
| LastAdmin.DisableRefusedBesideOwner | plugins/admin/operations.go:355-386 | otherwise disabling the only exact holder is refused beside an enabled owner of the highest role, also when the administrator role is the lowest |
| LastAdmin.GuardIsStricter | plugins/admin/operations.go:355-386 | and so is demoting the only exact holder |
| TableOrder.IsReady | schema/schema.go:260-269 | the loop decides that every other known table that a table references is emitted |
| TableOrder.Pass | schema/schema.go:257-279 | one pass moves ready tables to the output and compacts the others to the front of the same buffer, losing none |
| TableOrder.OrderTables | schema/schema.go:248-286 | ends, and returns a permutation: an ordered part, and a rest in original order of which every table waits for another of the rest |
| TableOrder.OrderedIff | schema/schema.go:248-286 | the output is ordered throughout exactly when there is no set of names of which every table references another |
| TableOrder.CreationIsSafe | schema/schema.go:245-286 | written out over foreign keys: an ordered table names itself, tables outside the list and earlier ones, and every other waits for one that is not ordered |
| TableOrder.UnorderedHasCycle | schema/schema.go:280-283 | otherwise the rest holds a real cycle of references |
| TableOrder.DropsAreSafe | schema/unit.go:145-155 | dropping in reverse order never drops a table that a remaining one references |
| Rendering.CreationOrder | schema/unit.go:131-131 | the creation order of the tables, taken in name order |
| Rendering.CreationIsDeterministic | schema/schema.go:223-225 | the order is made from the dictionary order of the names, and so does not depend on the order of registration |
| Rendering.IndexesAreDeterministic | schema/unit.go:204-208 | the indexes come in dictionary order, whatever order the table lists them in |
| Rendering.RenderTables | schema/unit.go:126-142 | the loop appends the create statements of tables and sorted indexes in creation order, or fails on a column without a name |
| Rendering.RenderDrops | schema/unit.go:145-155 | the loop appends the drop statements in reverse creation order |
| Rendering.RenderExtension | schema/unit.go:158-177 | an error for an invalid extension; otherwise the loops append the added columns, and then the indexes |
| Rendering.RenderExtensionUnit | schema/unit.go:109-122 | the loop collects both directions of one unit front to back, or fails on an invalid extension |
| Rendering.RenderUndo | schema/unit.go:180-192 | the loops append the dropped indexes, and then the columns in reverse |
| DdlEffects.CreationReaches | schema/unit.go:126-142 | in either dialect, the create statements of tables that fit, tables and indexes sharing one space of names, run to the end exactly when the database accepts each of them, and then reach the base and exactly the given tables with their columns and indexes |
| DdlEffects.ReachedMeans | schema/unit.go:126-142 | what reaching means, written out: columns, references and indexes of each table, and nothing else |
| DdlEffects.RunConcat | internal/sqlstore/migrator.go:52-62 | a run can stop and go on at any boundary |
| Units.DropsUndo | schema/unit.go:145-155 | in either dialect, the drop statements succeed and leave the database as it was |
| Extensions.ExtendedReaches | schema/unit.go:158-177 | an extension reaches exactly the tables with the added columns and indexes |
| Extensions.ExtensionUndone | schema/unit.go:180-192 | in either dialect, the reverse statements of an extension succeed and bring back the tables before it |
| ExtensionUnits.UnitUndone | schema/unit.go:109-122 | the reverse statements of one unit bring back the tables before it in PostgreSQL, which drops an index with its column; in SQLite exactly when no index uses a column that an earlier extension of the unit adds, and otherwise they stop with an error |
| ExtensionUnits.UpReachesDownUndoes | schema/unit.go:109-192 | for any tables in creation order and any units of extensions, up runs to the end exactly when the database accepts every name, column and default, and then reaches exactly the extended tables; down, the last unit first, undoes up in PostgreSQL, and in SQLite exactly when every unit meets that condition |
| ExtensionUnits.AcceptsSchemaMeans | schema/schema.go:288-343 | what a schema must avoid, written out: refused names, beginnings of names, columns and defaults |
| ExtensionUnits.SchemaAccepted | schema/schema.go:288-343 | the statements are accepted exactly when the names of tables and indexes and the columns of the schema are, which is what they write without quotes |
| ExtensionUnits.SeparateUnitsUndo | schema/unit.go:109-122 | units of one extension each always meet it |
| ExtensionUnits.ColumnBeforeIndexStops | schema/unit.go:109-122 | the unit that tells the dialects apart: one extension adds a column and the next one an index on it; SQLite stops, and PostgreSQL brings back the tables |
| Rendering.RenderedReaches | schema/unit.go:109-192 | the same, dialect by dialect, for any list of tables whose references are not entangled, in the creation order that is rendered |
| CoreSchema.Normalize | schema/options.go:60-117 | fills in the prefix and the type of identifiers, and accepts exactly a plain prefix, a known type of identifiers, and for each of both tables distinct fields of plain names and supported types that are no reserved column |
| CoreSchema.AcceptableIsValid | schema/options.go:73-95 | what is accepted is enough for the core tables |
| CoreSchema.ApplyIdType | schema/core.go:228-247 | for tables whose column id is the primary key, the nested loops give exactly the identifier columns the configured type |
| CoreSchema.WithIdsMeans | schema/core.go:228-247 | written out: text columns id, link_user_id and those of a foreign key get the type, and nothing else changes |
| CoreSchema.CoreV1 | schema/core.go:57-218 | the tables of the first release, with the type of identifiers and then the fields of the host |
| CoreSchema.CoreTables | schema/core.go:21-33 | the loop extends the tables that the extension names, and no other |
| CoreUnits.CoreUnitsReachCoreTables | schema/unit.go:42-69 | on a database that has none of their names and accepts the columns of Auth-All itself, the two core units run to the end exactly when the database accepts the fields of the host and the names that begin with its prefix; then they reach exactly the core tables, and their reverse statements leave the database as it was |
| CoreUnits.CoreAccepted | schema/schema.go:288-343 | what the core units write without quotes is accepted exactly when the fields of the host are and the prefix before each of the nineteen bases is |
| CoreUnits.HostAcceptedMeans | schema/schema.go:288-343 | what is refused, written out: names, beginnings of names, columns and defaults |
| CoreUnits.CoreIsKeyed | schema/core.go:57-218 | in every core table the user column refers to the users table, and every digest column ends a unique index |
| CoreUnits.AcceptedButRefused | schema/options.go:60-117 | the options with a field "order" and those with the prefix "sqlite_" are accepted, and a database that reserves them refuses the units |
| CoreUnits.RenderCoreUnits | schema/unit.go:42-69 | an error exactly for options that are refused; otherwise, on every such database, the rendered units reach the core tables with nothing missing for the catalog check, and are undone by their reverse statements, exactly when the database accepts what the host named, and stop when it does not |
| CoreUnits.CoreIdsAreDistinct | schema/schema.go:226-243 | the statements of the record table, of the core tables and of their extension have identifiers of their own |
| StatementIds.IdentifiersAreDistinct | schema/unit.go:126-177 | so have those of any tables that fit and of an extension of one of them, when no table lists an index twice |
| CoreUnits.CoreIsUntangled | schema/core.go:57-218 | no references of the core tables form a cycle |
| CoreUnits.CheckCatalog | authall.go:640-671 | names every absent table and every absent column, names only what is missing, and so reports nothing exactly when every table is there with all its columns |
| CoreUnits.ReachedIsComplete | authall.go:640-671 | a database that reached the tables passes the check |
| Migrator.Schema.AddUnit | schema/schema.go:91-102 | registers a unit exactly when it is complete and its version is new |
| Migrator.Schema.Add | schema/schema.go:164-179 | registers a table exactly when it has a name that is new, and a column |
| Migrator.Schema.Extend | schema/schema.go:139-161 | extends a registered table exactly when the extension is valid and adds only new columns, and otherwise changes nothing |
| Migrator.TakenColumnIff | schema/schema.go:147-156 | the column check passes exactly when all columns of the extended table are distinct |
| Migrator.TakenColumnIsFirst | schema/schema.go:147-156 | the column that is reported is the first that is taken |
| Migrator.Migrations.Plan | internal/sqlstore/migrator.go:17-36 | the loop returns the unrecorded statements in order, without that of the record table |
| Migrator.Migrations.Apply | internal/sqlstore/migrator.go:39-64 | runs and records the pending statements one by one up to the first failure |
| Migrator.ApplyThenPlanIsEmpty | internal/sqlstore/migrator.go:17-64 | with distinct identifiers, applying succeeds exactly when the statements run, and then nothing is pending |
| Migrator.RestartRunsSuffix | internal/sqlstore/migrator.go:39-64 | after a stop at a recorded boundary exactly the missing statements are pending, in order, and lead to the same end |
| Migrator.CoreIsApplied | internal/sqlstore/migrator.go:39-64 | applying the rendered core schema to an empty database goes to the end exactly when the database accepts the record table and what the host named; then it has exactly the core tables beside the record table, and nothing is pending |
| Migrator.MigrateCore | internal/sqlstore/migrator.go:39-64 | rendering and applying in turn do so, also for options that are refused |
| Paging.CutIff | internal/sqlstore/useradmin.go:118-128 | a pair cursor decodes to what was encoded exactly when its first part has no NUL |
| Paging.CursorRoundTrip | internal/sqlstore/organizations.go:372-401 | which keys each kind of cursor names again |
| Paging.ListPage | internal/sqlstore/useradmin.go:62-84 | a page is the first rows above the cursor, and a cursor follows exactly when more rows do; a bad cursor is an error |
| Paging.ListUsers | internal/sqlstore/useradmin.go:21-85 | the user list is that page over the rows that the filter selects |
| Paging.ListOrganizations | internal/sqlstore/organizations.go:147-195 | the organization list is that page over all, or over those of one member |
| Paging.ListMembers | internal/sqlstore/organizations.go:247-291 | the member list is that page over one organization, with a one-column cursor |
| Paging.SelectIs | internal/sqlstore/useradmin.go:56-61 | a query returns exactly the selected keys above the position, strictly ascending |
| Paging.PageHolds | internal/sqlstore/useradmin.go:21-128 | a bad cursor is an error; any other page holds selected keys past the cursor in dictionary order, 50 by default and 200 at most, leaves out none but later ones, and has a cursor to its last key exactly when it leaves some out |
| Paging.UserRowsAre | internal/sqlstore/useradmin.go:30-50 | the user list selects by prefix, role and state where the filter names them |
| Paging.OrganizationRowsAre | internal/sqlstore/organizations.go:147-195 | the organization list selects all, or those of one member |
| Paging.MemberRowsHold | internal/sqlstore/organizations.go:247-291 | the member list selects the members of one organization, by role and status where the filter names them |
| Paging.WalkAscends | internal/sqlstore/useradmin.go:21-85 | a walk is strictly ascending while rows come and go, so no key comes twice |
| Paging.WalkIsComplete | internal/sqlstore/useradmin.go:21-85 | a finished walk returns every key that was selected at all its reads |
| Paging.StaticWalk | internal/sqlstore/useradmin.go:21-85 | on a table that stays the same, the pages join to the sorted selected keys |
| Paging.StaticWalkEnds | internal/sqlstore/useradmin.go:21-85 | such a walk ends, with no more pages than the keys fill |
| Paging.GoodUserRows | internal/sqlstore/useradmin.go:21-85 | the rows of the user list meet what the walks need exactly when no selected address holds a NUL |
| Paging.GoodOrganizationRows | internal/sqlstore/organizations.go:147-195 | the rows of the organization list do exactly when no selected slug holds a NUL |
| Paging.GoodMemberRows | internal/sqlstore/organizations.go:247-291 | the rows of the member list do exactly when every selected user has an identifier |
| Paging.ReadsAscendIff | internal/sqlstore/useradmin.go:21-85 | over a table that stays the same, all reads of all limits are strictly ascending exactly when no selected key but the greatest has a NUL in its first part |
| Paging.NulRepeats | internal/sqlstore/useradmin.go:113-128 | a NUL in an address: the cursor of a page leads back to the same page |
| Sessions.SessionStore.Create | sessions.go:184-219 | a new session replaces the one before, with all three deadlines from now |
| Sessions.SessionStore.Lookup | sessions.go:75-112 | refuses a disabled user, removes an ended session, and touches a stale one |
| Sessions.AcceptedIsWithinDeadlines | sessions.go:92-104 | an accepted request is within the absolute lifetime and less than the idle timeout after the one before |
| Sessions.ActiveSessionSurvives | sessions.go:92-110 | requests with gaps of at most the idle timeout less the touch interval keep the session to its absolute end |
| Sessions.RefusedStaysRefused | sessions.go:100-104 | a session that was refused is refused ever after |
| Sessions.WritesAreFew | sessions.go:105-111 | a session that lived for a span has cost at most as many touch writes as intervals fit in it |
| Sessions.WritesAreChanges | sessions.go:105-111 | a request writes exactly when it is accepted and its row changes |
| PrincipalCache.Cache.Get | principalcache.go:49-66 | serves an entry before its end, and drops it after |
| PrincipalCache.Cache.Put | principalcache.go:69-86 | the eviction loop of a full map leaves exactly the live entries, in any order of the map |
| PrincipalCache.ResolvePrincipal | principal.go:114-131 | serves the cached principal or the answer of the store, and caches that answer; absent and per-request credentials never touch the cache |
| PrincipalCache.ConfigureMeans | authall.go:130-145 | no cache for a time that is not positive, an error for one above the bound, which is five seconds by default |
| PrincipalCache.EvictionIsUnobservable | principalcache.go:69-86 | on every sequence of uses the cache answers as one that never evicts |
| PrincipalCache.ServedIsFresh | principal.go:114-131 | a served principal was the store's answer less than the cache time, plus the lag between read and put, before; the cache time stays within the bound |
| PrincipalCache.ServedWithinIff | principal.go:114-131 | on all runs and for every store the served principals are answers of the last cache time exactly when no put comes later than its read |
| PrincipalCache.LagIsObservable | principalcache.go:69-86 | the run that serves, one instant of lag being enough, a principal that was no answer of the store in the whole cache time before |
| RateLimit.Memory.Allow | ratelimit/ratelimit.go:71-86 | the answer and the bucket after one attempt |
| RateLimit.Counter.CountAttempt | internal/sqlstore/ratelimit.go:13-28 | the count, the start and the row after one attempt |
| RateLimit.Counter.Cleanup | internal/sqlstore/ratelimit.go:31-38 | deletes exactly the windows that started at or before an instant |
| RateLimit.FormsAgreeIff | ratelimit/ratelimit.go:71-86 | both forms give the same answers on all histories exactly when the limit is at least one |
| RateLimit.WindowBound | ratelimit/ratelimit.go:71-86 | admissions within one window length number at most twice the limit, or two |
| RateLimit.CleanupIsUnobservable | internal/sqlstore/ratelimit.go:31-38 | cleanup of windows that ended changes no later count |
| Totp.PowerOf10 | internal/totp/totp.go:132-138 | the loop computes the power of ten |
| Totp.Truncated | internal/totp/totp.go:122-126 | the truncation yields 31 bits (section 5.3 of RFC 4226) |
| Totp.CheckWellFormed | internal/totp/totp.go:169-179 | the loop accepts exactly the given number of digits |
| Totp.DecimalIsWellFormed | internal/totp/totp.go:128-128 | every code has exactly the configured number of digits |
| Totp.CodesAgreeIff | internal/totp/totp.go:115-129 | two steps have one code exactly when their truncated values agree in the last digits |
| Totp.StepMeans | internal/totp/totp.go:104-107 | a step counts the whole periods since the epoch, of thirty seconds by default |
| Totp.DecimalMeans | internal/totp/totp.go:128-128 | read as a number, a code is the value modulo the power of ten |
| Totp.TestValues | internal/totp/totp.go:122-126 | the first two values of appendix D of RFC 4226 |
| Totp.StepGrows | internal/totp/totp.go:104-107 | steps never go back with the clock, also before the epoch |
| Totp.Validate | internal/totp/totp.go:145-165 | accepts exactly a code of some step of the window, and returns the greatest such step |
| Totp.TotpStore.Upsert | internal/sqlstore/totp.go:34-50 | a replacement starts over, unconfirmed and with no spent step |
| Totp.TotpStore.AdvanceStep | internal/sqlstore/totp.go:68-89 | advances only forward, and tells an absent row apart |
| Totp.TotpStore.VerifyCode | handlers_totp.go:121-142 | accepts exactly a code with a matching step beyond the last spent one, and spends the greatest |
| Totp.GeneratedIsAccepted | internal/totp/totp.go:110-165 | a code generated within the skew is accepted unless its step or a later one was spent |
| Totp.AcceptedStepsIncrease | internal/sqlstore/totp.go:68-89 | per enrolment the accepted steps strictly increase across all callers (section 5.2 of RFC 6238) |
| Totp.AcceptancesAreBounded | handlers_totp.go:121-142 | acceptances of one enrolment validated from a to b number at most Step(b) - Step(a) + 2 * skew + 1 |

## Left out

- HTTP, JSON, cookies, redirects, pages, metadata, OpenAPI and generated clients: plumbing around libraries.
- Bodies of cryptography: Argon2, HMAC, signatures, AES-GCM, SHA-256, base64 and random sources are abstract.
- ID tokens, nonces, states, session identifiers and authentication times of grants: no rule of the engine reads them.
- Client registration, authentication and lookup: a client is a value that the call carries.
- Storage failures of the token engine: statements succeed, and a taken primary key is the only conflict.
- The three updates of a grant revocation are one step, as one store call; Postgres read-committed anomalies are not modelled.
- Cascades when a user is deleted: users are rows of another table.
- Introspection, userinfo and request resolution: they only read what `VerifyAccessToken` decides.
- `max_age` and prompts: the session's view of them is a parameter of the authorize call.
- OAuthTheorems.RevocationIsFinal: speaks of answers, not of the instant at which a caller uses one.
- SerialTheorems.GrantsAreConsented: says that a consent row exists, not that it still covers older grants after a narrower approval, because the code does not promise that.
- The tables of plugins, among them the organizations table with its fields, and column types by dialect.
- What each database reserves: the words, the beginnings of names and the defaults that it refuses are parameters of the catalog model, and that it accepts the columns of Auth-All itself is an assumption. Names are compared as written, and the implicit indexes of primary keys are not among them.
- List columns of clients and prompts: a client is a value that the call carries, and prompts are part of the visit.
- Renderings of defaults, referenced columns and cascades of foreign keys: names, declared types, nullability, defaults and targets are what the catalog model keeps.
- Synthesized units of tables that no unit covers, and the order of units by version.
- Migrator.Migrations.Apply: does not model a stop between running a statement and recording it.
- Paging.ListUsers: rows are ordered and compared by code point, while a database does both by its collation; the walks need only that the two agree. The prefix is already in lower case, and `LIKE` escaping is not modelled.
- Totp.Validate: takes periods of at least one second, because the source divides by the whole seconds of the period; a code length of 64 or more, where the 64-bit power of ten wraps to zero, is not modelled.
- Recovery codes and the handlers of enrolment: they only combine the store methods shown.
- RateLimit.Memory.Allow: the key is one string; keys whose fields contain the separator are not told apart, and the decision code of the store-backed limiter is not part of this model.
- Hooks, events and audit: hooks accept and change nothing, except the one that revokes the grants of a disabled user.
- Bootstrap.Store.Bootstrap: the refusal of a blank address or a weak password comes before any row, and is not modelled.
- LastAdmin.AdminRemains: covers the administrative operations, with serial transactions, and not the deletion of accounts or whole-row updates elsewhere; password resets change neither role nor state.
- Sessions.SessionStore.Lookup: a touch succeeds while the row is there; the join with organizations is not modelled.
- PrincipalCache.ResolvePrincipal: how the store answers, and which credentials a resolver reads with their request, are parameters.
- Keys.Instance.SigningKey: runs its statements without interruption; what other instances do between them is covered by the invariants over runs only.
