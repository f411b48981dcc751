# Verified model of the go-gin-skeleton protocols

This project models three protocols of the repository and the text handling they rest on, and proves what they keep
over whole runs.

* **Refresh-token rotation** (`api/auth`): login, refresh and logout over the `refresh_tokens` table. The handlers are
  modelled twice, each as one atomic step (`JwtController`, `AuthRuns`) and as separate database calls under any
  interleaving (`AuthInterleaving`, with `AuthLockout` and `AuthLineages` on when the two security properties survive).
  One lemma shows that a request running alone behaves as the atomic handler.
* **Idempotency** (`internal/idempotency`, `internal/middlewares/idempotency.go`): lookup, run and record around an
  arbitrary handler, over the MySQL store, the Redis store or none, sequentially and interleaved, and the two stores
  run side by side.
* **User creation** (`api/admin/user`, `internal/middlewares/transaction.go`): pre-checks, insert and commit.

`Composition` puts the first behind the second and the third behind the second, as the router mounts them.

## Reading the model

* Objects whose methods change them are classes (`RefreshTokenRepo`, `JwtAuthController`, `MySQLStore`, `RedisStore`,
  `GinWriter`, `BodyCaptureWriter`, `Middleware`, `Conn`, `Controller`, `DBTransactionMiddleware`). Each method is tied
  to a function on values, or states its new state outright, and the lemmas are about those functions.
* `World` and the fields of `HttpRequest` carry what a request cannot decide: every clock reading it makes and every
  call that fails under it. A database call either applies or reports an error.
* The libraries are parameters: `Crypto` holds signing, opening and the fingerprint. `Jwt.Sound` is the assumption made
  of them: opening undoes signing, and no other text shares the fingerprint of a signed token, which is the ideal a
  digest stands for. `CryptoExample.SoundIsMet` shows that it can be met. JSON encoding is a function parameter and is
  taken to be undone by decoding.
* Times are integers in nanoseconds. A token is accepted while `now < exp`, with `exp` cut to whole seconds.
* Tables are sequences or maps with the unique keys of `database/schema.sql`; equality and time are exact. A Redis cell
  is there strictly before its expiry.

## Where a promise does not hold as stated

* *A 200 from the create route means a new user.* The transaction middleware recovers a panic and does not raise it
  again, so a handler that panics before answering is rolled back and answered 200 (`Users.PanicAnswers200`).
  `Users.CreateIsAtomic` gives the exact condition. The idempotency middleware then records and replays that 200
  (`Composition.PanickedCreateReplaysSuccess`).
* *A replay is the response the first client got.* Apart from the replay mark it is exactly when the writes were taken in
  full, the content type did not change after the head was sent, and no error was left in the context without a written response
  (`IdempotencyMiddleware.ReplayEqualsLiveExactly`); `UnwrittenErrorIsRecordedAsSuccess` is a case where it is not.
* *The two stores behave alike.* For pairs with distinct cache keys they do exactly when every expired MySQL row is
  purged before the next write on its pair (`StoreSimulation.StoresAgreeExactly`); which pairs share a cache key is
  `IdempotencyStore.CacheKeySeparation`. An expired row that stays is never replaced
  (`IdempotencyRuns.StaleRowIsNeverReplaced`). The interface comment says a zero ttl means forever; the code of both
  stores takes a day, and the model follows the code.
* *Routes behind the middleware are safe to retry without duplicate side effects.* They are in sequence
  (`IdempotencyRuns.ExactlyOnce`, `ReplayedExactly`). Among concurrent requests the handler runs for each one whose own
  lookup missed (`IdempotencyInterleaving.HandlerRunsExactly`), so two first requests that look before either writes
  both run it (`ConcurrentFirstRequestsBothRun`). Once the record is in, only a request that looked before, whose lookup
  failed, or that looked after the expiry still runs (`SecondRunLookedEarly`).
* *A key protects its caller's request.* Route and key alone identify a request; who sends it and what it asks are not
  compared. A later request under a key in use is not run and gets the first one's answer
  (`Composition.ReusedKeyAnswersForTheFirst`).
* *Lock-out after reuse.* It holds for atomic handlers (`AuthRuns.RejectedTokenLocksOut`). Interleaved, it holds exactly
  when no request of the user is between its lookup and its insert as all sessions are revoked
  (`AuthLockout.ReuseLocksOutExactly`); a request that is comes through (`SessionSurvivesReuse`).
* *One active token per login.* It holds for atomic handlers (`AuthRuns.LineageHasOneActiveRow`). Interleaved, it is safe
  exactly when no lookup finds a row that another request has found and not yet revoked
  (`AuthLineages.LineagesSafeExactly`): any two requests that hold one row both replace it, in whatever order their calls
  come (`SharedRowSplits`), as in a run with a single login and no fault (`LineageCanSplit`).
* *A refresh with a valid token renews the session.* A new token that would expire in the same second as another row of
  its user is refused by the unique hash after the old row was revoked (`AuthReplies.SameSecondLosesSession`).
* *Duplicates are reported as conflicts.* A soft-deleted row that holds the e-mail or phone, or an id chosen by the
  client, is only met at the insert and answered 500 (`Users.StatusExactly`).

## Model

| member | source | states |
|---|---|---|
| Text.SpacesAreWhiteSpace | internal/auth/jwt.go:49 | white space is the 25 characters of Unicode's White_Space property |
| Text.TrimSplits | internal/auth/jwt.go:49 | trimming removes white space from both ends and nothing else |
| Text.TrimUnique | internal/auth/jwt.go:49 | there is one way to cut blank ends off and be left with trimmed text, and trimming finds it |
| Text.JoinOfSplit | internal/router/router.go:135 | joining undoes splitting on every string, and the pieces hold no comma |
| Text.SplitOfJoin | internal/router/router.go:135 | splitting undoes joining on every non-empty list of comma-free strings |
| Text.IndexIsFirst | internal/auth/jwt.go:42-49 | the index found is the first occurrence, and -1 exactly when there is none |
| Jwt.BearerExtraction | internal/auth/jwt.go:33-52 | extraction fails exactly when the word is absent; otherwise the result is the trimmed text with exactly the first occurrence removed |
| Jwt.BearerRoundTrip | internal/auth/jwt.go:33-52 | extracting from the word, a space and any trimmed token gives the token |
| Jwt.AcceptedExactly | internal/auth/jwt.go:54-74 | a token is accepted exactly when its key opens it and its expiry second, if any, has not begun |
| Jwt.SecondOf | api/auth/jwt_controller.go:60 | an expiry is cut to the whole second, of a thousand million nanoseconds, that it falls in |
| Origins.SplitAndTrim | internal/router/router.go:131-143 | the loop keeps the trimmed non-blank pieces in source order |
| Origins.OriginsAreThePieces | internal/router/router.go:131-143 | the origins are the trimmed pieces between the commas, every piece that is not blank once and in its place |
| Origins.OriginsRoundTrip | internal/router/router.go:131-143 | parsing undoes joining on every list of non-empty, trimmed, comma-free origins |
| Origins.OriginsFixpoint | internal/router/router.go:131-143 | on any text the result is such a list, so joining and parsing again changes nothing |
| Origins.OriginsEmpty | internal/router/router.go:119-120 | no origin results exactly from text made of commas and white space |
| Origins.BuildCorsConfig | internal/router/router.go:113-129 | wildcard exactly when the setting names no origin, and credentials exactly when not wildcard |
| Decimal.ParsePrint | api/auth/jwt_controller.go:54 | parsing with a 32-bit bound undoes decimal printing of every 32-bit id |
| Decimal.ParseExactly | api/auth/jwt_controller.go:149 | exactly the non-empty strings of decimal digits with a 32-bit value parse, and to that value |
| Decimal.PrintParse | api/auth/jwt_controller.go:149 | printing a parsed id gives the text back exactly when it has no leading zero |
| RefreshTokens.FindHash | api/auth/refresh_token_repository.go:73-75 | the first row with the hash, or none exactly when no row has it |
| RefreshTokens.RefreshTokenRepo.Store | api/auth/refresh_token_repository.go:62-69 | appends an unrevoked row exactly when the call works and the hash is free; otherwise nothing changes |
| RefreshTokens.LookupExactly | api/auth/refresh_token_repository.go:71-86 | on the rows themselves: an error exactly when the query fails, not found exactly when no row has the hash, inactive exactly when the first such row is revoked or past its expiry, and else that row |
| RefreshTokens.RefreshTokenRepo.FindActiveToken | api/auth/refresh_token_repository.go:71-86 | the steps give that answer and change nothing |
| RefreshTokens.RefreshTokenRepo.RevokeToken | api/auth/refresh_token_repository.go:88-93 | row by row: the one row is marked with this instant and every other stays, or the call fails and all stay |
| RefreshTokens.RefreshTokenRepo.RevokeUser | api/auth/refresh_token_repository.go:95-100 | row by row: the user's unrevoked rows are marked with this instant; rows of others and earlier revocations stay as they were |
| JwtController.JwtAuthController.IssueAccessAndRefresh | api/auth/jwt_controller.go:53-82 | the steps refine the issue function: two tokens and one stored row, or nothing |
| JwtController.JwtAuthController.LoginUserWithJWT | api/auth/jwt_controller.go:84-118 | the steps refine the login function |
| JwtController.JwtAuthController.RefreshJwtToken | api/auth/jwt_controller.go:123-175 | the steps refine the refresh function, the reuse branch included |
| JwtController.JwtAuthController.LogoutToken | api/auth/jwt_controller.go:179-191 | the steps refine the logout function |
| JwtController.FingerprintDeterminesIssue | api/auth/jwt_controller.go:68-78 | two issued tokens share a fingerprint exactly when user and expiry second are the same |
| JwtController.IssueOutcome | api/auth/jwt_controller.go:53-82 | issuing works exactly when nothing fails and the user's expiry second is free, and then adds one active row carrying the token's hash |
| JwtController.StoredTokenNamesOwner | api/auth/jwt_controller.go:149-150 | the id claim of a verified stored token parses to its row's user |
| JwtController.ExpiryAgreement | api/auth/refresh_token_repository.go:82-84 | a verified stored token is found active exactly when its row is unrevoked and the lookup clock is not past its expiry, which always holds when both read one instant |
| AuthReplies.IssueExactly | api/auth/jwt_controller.go:53-82 | on any table: when a pair is issued, its two token texts with lifetimes in minutes and hours and their own keys, and the one row it adds |
| AuthReplies.IssuedPairVerifies | api/auth/jwt_controller.go:53-82 | the issued tokens open, each under its own key, to the user's id and their expiries |
| AuthReplies.IssuedPairIsFound | api/auth/jwt_controller.go:68-78 | the issued refresh token is found active as the new row until its expiry |
| AuthReplies.LoginRepliesExactly | api/auth/jwt_controller.go:84-118 | when each login status is given, that only a success adds a row, and that it returns that row's tokens |
| AuthReplies.ExchangeRepliesExactly | api/auth/jwt_controller.go:159-168 | an exchange succeeds exactly when the revoke and the issue do; what is left otherwise |
| AuthReplies.PresentedExactly | api/auth/jwt_controller.go:126-142 | which header is accepted with which claims: extraction, opening under the refresh key, expiry |
| AuthReplies.RefreshWithoutToken | api/auth/jwt_controller.go:126-142 | without an accepted token the answer is 401 and nothing changes |
| AuthReplies.RefreshExactly | api/auth/jwt_controller.go:144-175 | with one, on any table: a failing lookup is 500 and changes nothing; a token outside the active set is 401 and revokes exactly the claimed user's rows, if the id parses and the update works; one inside is revoked and replaced, the answer carrying the new row's pair |
| AuthReplies.RefreshRepliesExactly | api/auth/jwt_controller.go:123-175 | with an accepted token: 401 exactly when the lookup works and no row in the active set carries it, 200 exactly when one does and the exchange goes through, 500 otherwise |
| AuthReplies.SameSecondLosesSession | api/auth/jwt_controller.go:159-168 | an exchange into an expiry second already used by the user revokes the old row and stores none |
| AuthReplies.LogoutAnswers | api/auth/jwt_controller.go:179-191 | logout always answers the same, and does nothing without a token |
| AuthReplies.LogoutEndsSession | api/auth/jwt_controller.go:179-191 | logout revokes exactly the active row of the presented token, which is not found active again |
| AuthRuns.ServeEffect | api/auth/jwt_controller.go:84-191 | every request keeps the table well-formed, takes no revocation back, and adds a row only on success, owned by the user of the login or of the replaced row |
| AuthRuns.ReachableIsGood | api/auth/jwt_controller.go:144-164 | the table invariant and one active row per lineage hold after every run, under any faults |
| AuthRuns.LineageHasOneActiveRow | api/auth/jwt_controller.go:144-164 | in every reachable state an unrevoked row is the newest of its login's lineage and its only unrevoked one |
| AuthRuns.LoginsCountLoginRows | api/auth/jwt_controller.go:107-117 | rows that replaced none are as many as the successful logins |
| AuthRuns.ActiveRowsBoundedByLogins | api/auth/jwt_controller.go:144-164 | a user's unrevoked rows never outnumber the user's successful logins |
| AuthRuns.RejectedTokenLocksOut | api/auth/jwt_controller.go:144-153 | presenting any verified token that is not in the active set leaves the claimed user no unrevoked row and no refresh until the next login, and all other users' rows as they were, in every reachable state |
| AuthRuns.ReuseRevokesOwner | api/auth/jwt_controller.go:145-153 | reuse of a stored token is such a case for its owner, and revokes exactly the owner's rows |
| AuthRuns.NoActiveLocksOut | api/auth/jwt_controller.go:144-164 | without an unrevoked row the user gets none, and no refresh renews the user's session, in any run up to the next successful login of that user |
| AuthRuns.ReuseLocksOut | api/auth/jwt_controller.go:144-153 | presenting a revoked stored token leaves the owner no unrevoked row, all other users' rows as they were, and no refresh for the owner until the next login |
| IssueRate.OneRowPerSecond | database/schema.sql:47 | no two rows of one user share an expiry second |
| IssueRate.WindowBound | api/auth/jwt_controller.go:54-78 | a window of n seconds holds at most n+1 successful issues for one user |
| AuthInterleaving.SoloRunIsAtomic | api/auth/jwt_controller.go:84-191 | a request alone between arrival and answer has the atomic handler's effect on table and lineages, and its answer |
| AuthInterleaving.AlwaysWellFormed | database/schema.sql:47 | under every interleaving rows carry their own token's hash and hashes are distinct |
| AuthInterleaving.RevocationIsForever | api/auth/refresh_token_repository.go:62-100 | under every interleaving rows stay, owner, hash and expiry never change, and no revocation is taken back |
| AuthInterleaving.ExchangeFoundBeforeRevocation | api/auth/jwt_controller.go:144-164 | every successful exchange did its lookup while the row was active, before its first revocation |
| AuthInterleaving.IssueRateUnderInterleaving | api/auth/jwt_controller.go:54-78 | distinct expiry seconds and the window bound hold under every interleaving |
| AuthLockout.LockOutExactly | api/auth/jwt_controller.go:144-164 | in any state, a user gets no unrevoked row in any continuation up to the arrival of one of the user's logins exactly when there is none now and no request is between finding a row of the user, or a login of the user, and its insert |
| AuthLockout.ReuseLocksOutExactly | api/auth/jwt_controller.go:145-153 | after the revocation of all sessions the user is locked out exactly when no such request was pending |
| AuthLockout.UnrevokedWereStoredLater | api/auth/refresh_token_repository.go:95-100 | a row unrevoked at any time after all of the user's were revoked was stored after that step |
| AuthLockout.SessionSurvivesReuse | api/auth/jwt_controller.go:150-164 | a request that has done its lookup, or its revoke, when all sessions are revoked stores an unrevoked row in its next calls |
| AuthLineages.AlwaysKnown | api/auth/jwt_controller.go:144-164 | in every reachable state a request about to replace a row acts for that row's owner, and once past its revoke the row is revoked |
| AuthLineages.OneHolderExactly | api/auth/jwt_controller.go:144-164 | throughout a run at most one request is about to replace a row exactly when no lookup of the row falls between another request's lookup and revoke of it |
| AuthLineages.OneExchange | api/auth/jwt_controller.go:120-122 | in such runs a row is exchanged successfully at most once |
| AuthLineages.NoOverlapsKeepGood | api/auth/jwt_controller.go:144-164 | in runs without overlapping lookups every state has one unrevoked row per lineage, its newest |
| AuthLineages.SharedRowSplits | api/auth/jwt_controller.go:155-164 | two requests about to replace one row both succeed in any order of their calls, and leave two active rows of its lineage |
| AuthLineages.LineagesSafeExactly | api/auth/jwt_controller.go:144-164 | at every point of a run, and however the exchanges then in progress end, each lineage has one unrevoked row, exactly when no lookup of the run overlaps another request's exchange of the row |
| AuthLineages.LineageCanSplit | api/auth/jwt_controller.go:144-164 | a run from the empty system with one login and no fault leaves two active rows of one lineage |
| IdempotencyStore.Ttl | internal/idempotency/module.go:60-66 | a positive lifetime is kept and any other means 24 hours |
| IdempotencyStore.CacheKeySeparation | internal/idempotency/redis_store.go:26-28 | distinct pairs share a cache key exactly when one route continues the other after a colon; colon-free routes never do |
| IdempotencyStore.MySQLStore.Get | internal/idempotency/mysql_store.go:40-57 | a hit exactly for a row whose expiry is after now; an error exactly when the call fails |
| IdempotencyStore.MySQLStore.Set | internal/idempotency/mysql_store.go:59-82 | keeps a row that is there, else creates one with the lifetime; no other row changes |
| IdempotencyStore.RedisStore.Get | internal/idempotency/redis_store.go:26-43 | a hit exactly for the cell of the prefixed key, unexpired; an error exactly when the call fails |
| IdempotencyStore.RedisStore.Set | internal/idempotency/redis_store.go:26-56 | under the prefixed key keeps an unexpired cell, else writes one with the lifetime or a day |
| IdempotencyStore.NewStore | internal/idempotency/module.go:42-58 | which setting selects which store |
| IdempotencyStore.SweepExactly | database/schema.sql:18-20 | a sweep deletes exactly the rows whose expiry is past |
| IdempotencyStore.KeptUntilExpiry | internal/idempotency/store.go:33-41 | a kept entry is found and survives every write and sweep before its expiry, for any pairs |
| IdempotencyStore.WriteKeptExactly | internal/idempotency/store.go:33-41 | a write is kept exactly when nothing is in its way |
| StoreSimulation.MySqlHitIsRedisHit | internal/idempotency/mysql_store.go:40-82 | without sweeps every MySQL hit is a Redis hit with the same record |
| StoreSimulation.AdvanceExpires | internal/idempotency/mysql_store.go:40-45 | with time both stores stop answering with an entry when its expiry is reached |
| StoreSimulation.PurgeExactly | database/schema.sql:18-20 | a purge removes exactly the MySQL rows whose expiry is past |
| StoreSimulation.CallKeepsAgreementExactly | internal/idempotency/redis_store.go:30-56 | from agreement a call keeps it exactly when it is not a write over an expired, unpurged row |
| StoreSimulation.GetsAgree | internal/idempotency/redis_store.go:30-43 | in such a trace every Get answers the same on both stores |
| StoreSimulation.StoresAgreeExactly | internal/idempotency/mysql_store.go:40-82 | over a whole trace the stores agree throughout exactly when each expired row is purged before the next write on its pair |
| ResponseCapture.BodyCaptureWriter.WriteBytes | internal/middlewares/idempotency.go:96-99 | the buffer grows by the bytes given and the real writer gets them |
| ResponseCapture.BodyCaptureWriter.WriteText | internal/middlewares/idempotency.go:101-104 | the same for strings |
| ResponseCapture.BodyCaptureWriter.Perform | internal/middlewares/idempotency.go:61-63 | after any sequence of writer calls the buffer is the concatenation of everything written |
| ResponseCapture.CaptureIsFaithfulExactly | internal/middlewares/idempotency.go:91-104 | captured bytes are the sent bytes exactly when every write was taken in full |
| ResponseCapture.HeadExactly | internal/middlewares/idempotency.go:67-75 | status and content type sent are those last set before the first operation that sends the head |
| IdempotencyMiddleware.Middleware.Handle | internal/middlewares/idempotency.go:35-85 | the steps refine the lookup-run-record function for any handler and store; a replay carries its mark |
| IdempotencyMiddleware.ServeExactly | internal/middlewares/idempotency.go:35-85 | on the request's own fields: only a POST with a key on a known route is treated, replayed exactly when the lookup works and finds a live entry, and otherwise run and recorded if it did not panic and ended with 200 to 499; any other request just runs |
| IdempotencyMiddleware.LiveExactly | internal/middlewares/error_handler.go:14-26 | what the client of a run is sent, by the handler's own operations, its errors and its panic |
| IdempotencyMiddleware.RecordExactly | internal/middlewares/idempotency.go:67-80 | which runs are recorded, and with which status, content type and body |
| IdempotencyMiddleware.ReplayExactly | internal/middlewares/idempotency.go:51-59 | a replay carries the mark and the record's status, content type and body |
| IdempotencyMiddleware.ReplayEqualsLiveExactly | internal/middlewares/idempotency.go:51-80 | the exact condition for a replay to be, apart from the replay mark, the response its first client got |
| IdempotencyMiddleware.UnwrittenErrorIsRecordedAsSuccess | internal/middlewares/error_handler.go:14-26 | a handler that only leaves an error is answered 404 but recorded as an empty 200 |
| IdempotencyRuns.RecordedExactly | internal/middlewares/idempotency.go:65-84 | a run is recorded exactly when it did not panic, finished with 200 to 499, and the write works and is not blocked |
| IdempotencyRuns.KeptThroughRun | internal/middlewares/idempotency.go:35-85 | a kept record survives any traffic and sweeps before its expiry |
| IdempotencyRuns.ExactlyOnce | internal/middlewares/idempotency.go:35-85 | after a recorded POST every later one on its pair before expiry changes nothing and gets the record, which is the first answer, marked, exactly when captured faithfully |
| IdempotencyRuns.EntriesHaveAnOrigin | internal/middlewares/idempotency.go:61-84 | whatever a run from an empty store keeps for a pair was recorded by an earlier event on the pair, with the record its run left and the lifetime from its recording |
| IdempotencyRuns.ReplaysHaveAnOrigin | internal/middlewares/idempotency.go:51-59 | every replay returns the unexpired record of an earlier recorded POST |
| IdempotencyRuns.RerunUntilRecorded | internal/middlewares/idempotency.go:67-71 | whatever came before, as long as no earlier POST on the pair was recorded, failed attempts included, the next POST misses and runs the handler |
| IdempotencyRuns.ReplayedExactly | internal/middlewares/idempotency.go:51-84 | with clocks in order a keyed POST is answered from the store exactly when an earlier POST on the pair was recorded and has not expired |
| IdempotencyRuns.StaleRowIsNeverReplaced | internal/idempotency/mysql_store.go:76-81 | an expired row that is not swept stays, and every later POST on its pair runs the handler unrecorded |
| IdempotencyRuns.SweepFreesExpired | database/schema.sql:18-20 | a sweep frees exactly the pairs whose MySQL rows are past their expiry, and touches nothing else |
| IdempotencyRuns.RecordsStayInRange | internal/middlewares/idempotency.go:67-71 | every record in every reachable store has a status from 200 to 499 |
| IdempotencyInterleaving.SoloRunIsSequential | internal/middlewares/idempotency.go:35-85 | a request alone from arrival to answer has the effect and answer of the middleware in sequence, on every store and under every failure |
| IdempotencyInterleaving.InsertFollowsRun | internal/middlewares/idempotency.go:61-84 | every inserted entry is the record of an earlier handler run of the same request on its pair, which did not panic and ended with 200 to 499, with the lifetime from the write |
| IdempotencyInterleaving.RunIsAnswered | internal/middlewares/idempotency.go:61-63 | a request whose handler ran is answered with that run's live response |
| IdempotencyInterleaving.ReplayFollowsRun | internal/middlewares/idempotency.go:51-59 | every replay, under any interleaving from an empty store, is the record of an earlier run on its pair, or on Redis on a pair with its cache key |
| IdempotencyInterleaving.FirstInsertWins | internal/idempotency/mysql_store.go:76-81 | from the first successful write until its expiry every state keeps that record for the pair, on MySQL with its find and insert apart as on Redis |
| IdempotencyInterleaving.ElapseExpires | internal/idempotency/store.go:33-41 | an entry is found until its expiry is reached and not from then on |
| IdempotencyInterleaving.SweepRemovesExpired | database/schema.sql:18-20 | a sweep removes exactly the MySQL rows whose expiry is past |
| IdempotencyInterleaving.LookupAfterInsertReplays | internal/middlewares/idempotency.go:51-59 | a successful lookup after that insert and before expiry replays that record and its request runs the handler at no event |
| IdempotencyInterleaving.LookupDecides | internal/middlewares/idempotency.go:51-63 | after its lookup a request goes on to the handler exactly when the lookup failed or saw no live entry; otherwise its answer is final and the handler never runs for it |
| IdempotencyInterleaving.HandlerRunsOnce | internal/middlewares/idempotency.go:61-63 | the handler runs for a request at no more than one event |
| IdempotencyInterleaving.HandlerRunsExactly | internal/middlewares/idempotency.go:51-63 | the handler runs for a request exactly when its own lookup missed and it went on after that |
| IdempotencyInterleaving.SecondRunLookedEarly | internal/middlewares/idempotency.go:28-31 | once a pair has its record the handler runs on the pair only for a request whose lookup preceded the write, failed, or followed the expiry |
| IdempotencyInterleaving.RunFollowsMiss | internal/middlewares/idempotency.go:51-63 | a request whose handler is due had a lookup of its own, for the same post, that missed |
| IdempotencyInterleaving.StagesOnlyGrow | internal/middlewares/idempotency.go:35-85 | requests only move forward and an answer is final |
| IdempotencyInterleaving.TwoMissesRunTwice | internal/middlewares/idempotency.go:51-63 | of two requests whose lookups both missed each runs the handler, in any interleaving in which both go on |
| IdempotencyInterleaving.ConcurrentFirstRequestsBothRun | internal/middlewares/idempotency.go:28-31 | two first requests on one pair that look before either writes apply the handler twice |
| Users.Repository.GetOneUserWithEmail | api/admin/user/repository.go:73-78 | found exactly when a row that is not soft-deleted has the e-mail |
| Users.Repository.GetOneUserWithPhone | api/admin/user/repository.go:80-84 | found exactly when a row that is not soft-deleted has the phone |
| Users.InsertExactly | api/user/user/model.go:25-32 | the insert works exactly when the password is hashed, the call works, and id, e-mail and phone are free, and then adds the one row, field by field, with the hash in place of the password |
| Users.Repository.Create | api/admin/user/repository.go:43-45 | the insert on its own handle: that one row, or no change |
| Users.Service.CreateUser | api/admin/user/service.go:34-52 | the steps refine the checked create function on the repository's handle |
| Users.CheckedExactly | api/admin/user/service.go:34-52 | each error of the service by its exact condition on passwords, lookups and rows; only a success changes the table |
| Users.Controller.CreateUser | api/admin/user/controller.go:53-86 | status of each outcome; its frame is the transaction's handle alone, never the shared one; without a transaction it panics |
| Users.DBTransactionMiddleware.DBTransactionHandle | internal/middlewares/transaction.go:40-77 | write methods commit the view under 200 or 201 without panic and else leave the shared table as it was; other methods pass straight through, where this handler panics for want of a transaction |
| Users.SettleExactly | internal/middlewares/transaction.go:50-77 | whatever the handler did, its changes stay exactly without panic, under 200 or 201, with working begin and commit |
| Users.CreateIsAtomic | internal/middlewares/transaction.go:50-77 | the table changes exactly under a 200 without panic and with a working commit, and then by one new row with every requested field and the hash, all other rows as before |
| Users.PanicAnswers200 | internal/middlewares/transaction.go:52-59 | a panic before the answer leaves the table as before and an unwritten 200 |
| Users.StatusExactly | api/admin/user/service.go:34-52 | each status of a request that answers, as an exact condition on request, table and faults, with what the pre-checks miss |
| Users.CreatedUserConflicts | api/admin/user/service.go:39-49 | after a successful create the same e-mail or phone is a conflict, unless the user was created soft-deleted |
| Users.UsersStayUnique | database/schema.sql:13-14 | e-mails and phones stay pairwise distinct over every run |
| Users.PreChecksComplete | api/admin/user/service.go:34-52 | in runs without soft-deleted rows, chosen ids or faults every validated request ends 200, 400 or 409 as passwords and table dictate |
| Composition.JsonReplyIsFaithful | internal/middlewares/idempotency.go:65-80 | a JSON answer is captured faithfully, and recorded exactly when its status is 200 to 499 |
| Composition.AuthApiAnswers | api/auth/jwt_controller.go:84-191 | what the authentication API sends: 200 for a login, refresh or logout, 400, 401, 422 and 500 for the rest, each with its JSON body |
| Composition.AuthRecordedExactly | internal/middlewares/idempotency.go:67-84 | a keyed request of it that is run is recorded exactly when the store takes it and the answer is no server error |
| Composition.KeyedRefreshIsRetrySafe | internal/router/router.go:61-64 | a successful keyed refresh is answered 200 with its tokens, so is every retry until expiry, and the retries leave the token table alone |
| Composition.UsersApiAnswers | api/admin/user/controller.go:53-86 | what the create route sends: JSON under its status, or an empty 200 after a recovered panic |
| Composition.RefreshIsRetrySafe | internal/router/router.go:61-64 | retries of a recorded refresh (or login or logout) return the same answer, token pair included, and leave the token table alone, so they never reach the reuse branch |
| Composition.ReusedKeyAnswersForTheFirst | internal/middlewares/idempotency.go:51-59 | a login under a key that another login was recorded with is not run and gets the first login's answer, whichever users the two are of |
| Composition.UnkeyedRetryLocksOut | api/auth/jwt_controller.go:144-153 | the same retry without a key ends every session of the user |
| Composition.CreateIsRetrySafe | internal/router/router.go:61-64 | a recorded create is not run again under its key and is answered as before |
| Composition.PanickedCreateReplaysSuccess | internal/middlewares/transaction.go:52-59 | a create that panicked is replayed as a success although no user exists |

## Left out

- Users.UsersStayUnique: requests run one after the other; transactions that overlap under MySQL's isolation levels are not modelled.
- RefreshTokens.RefreshTokenRepo.Store: row ids are positions; the gaps AUTO_INCREMENT leaves after refused inserts, DATETIME rounding, collation and column lengths are not modelled.
- Text.TrimSplits: text is a sequence of characters; Go strings that are not valid UTF-8 are not modelled.
- Decimal.ParsePrint: `ParseUint` stands for the library routine, by its documented behaviour.
- JwtController.IssueOutcome: lifetimes are unbounded integers; the 64-bit overflow of a very long configured lifetime is not modelled.
- IdempotencyMiddleware.Middleware.Handle: the sniffing of a missing content type by net/http, and gin's refusal to write a body under statuses 204 and 304 are not modelled; headers other than the content type are not recorded by the source.
- HTTP parsing, routing, logging, Sentry, dependency injection, bootstrap and the CLI: plumbing.
- SHA-256, HMAC, bcrypt and JSON: library code behind the stated assumptions.
- The rate limiter and the JWT guard in front of the user routes: the first counts in a library, the second only passes or refuses.
- Firebase, cloud, payment and mail services, seeds, image helpers, pagination, date helpers and error-code mapping: thin wrappers or easy members.
- Listing and reading users: only reads.
