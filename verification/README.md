# foodtinder voting core in Dafny

A model of the voting backend's core: anonymous sessions that expire one hour
after creation, a 1–5 score per (session, product) pair that re-voting
overwrites, the per-product average, and the HTTP handlers that gate these
calls.

The model is functional. The MongoDB store is an immutable `Store.State`
holding the two collections, "sessions" and "votes". Each collection is a
sequence of documents in natural (insertion) order:

- `FindOne` returns the first matching document.
- `UpdateOne` with upsert overwrites the first document of the pair, or appends one.
- `InsertOne` appends.

Operations that may write return a `Transition`: the store afterwards plus the
`Result`. Read-only operations (`GetSession`, `Validate`, `GetSessionVotes`,
`GetAvgProductVotes`) return only a result, so they cannot change the store.

The following are parameters rather than effects:

- the clock `now`, in whole Unix seconds;
- the freshly generated session id;
- a per-call driver failure `fault: Option<string>`;
- for the average query, whether `cursor.Next` stops on an error (`nextFails`).

A store call that is given a fault changes nothing and fails. `UpsertVote`,
`GetSessionVotes` and `GetAvgProductVotes` return the driver error unchanged.
`GetSession` and `StoreSession` return a new error whose message is prefixed
with "cannot find session, " or "cannot insert session, ". The services do not
always pass a store error on: a lookup failure inside `Voting.Vote` or
`Voting.GetVotes` becomes `InvalidSession`, and `Controller.GetAvgProductVotes`
answers every store failure with 404.

Modules, following the source layout:

- `Wrappers` — `Option`, `Result` (Go's `(value, error)`) and `Outcome` (a lone `error`).
- `Domain` — `UserSession`, `Vote`, `VoteList` (a Go slice: nil or items), `AvgVoteResponse` and the error taxonomy.
- `Store` — the repository of `pkg/store/mongo/mongo.go`.
- `Session` — `create` and `Validate` of `pkg/session/service.go`.
- `Voting` — the service of `pkg/voting/service.go`.
- `Validation` — `ValidateVoteRequest` and `VoteRequest`'s `min=1,max=5` rule.
- `Controller` — the decision logic of the three handlers in `pkg/voting/controller.go`, plus the status mapping of the error handler in `cmd/main.go`.

Behaviour of the code worth knowing, which the model reproduces:

- `ErrInvalidSession` is a plain Go error, not a `*fiber.Error`, so the application's error handler answers it with 500, not 401. `Controller.InvalidSessionAnswers500` states this.
- `GET /v1/votes` on an invalid session returns that same error, so it is also answered with 500.
- `getAvgProductVotes` turns every service error into 404, including driver failures. It does not answer those with 500.
- `VoteRequest.ProductID` carries no validation tag, so any product id passes validation, the empty one included.
- A body-parse failure is answered with a plain 400 only when the partly filled request passes validation. Otherwise the violation list is sent.

## Model

| member | source | states |
|---|---|---|
| Store.FirstSession | pkg/store/mongo/mongo.go:95-96 | The document `FindOne` picks: the first one carrying the id. None exactly when no document carries it. |
| Store.GetSession | pkg/store/mongo/mongo.go:90-105 | A driver failure or an absent id yields the wrapped "cannot find session" error. It succeeds exactly when there is no fault and the id is stored. The success value carries the requested id and the expiry of the first document with that id, the one `FindOne` returns. |
| Store.StoreSession | pkg/store/mongo/mongo.go:109-124 | A failed insert returns the wrapped error and leaves the store unchanged. A successful insert echoes exactly the given id and expiry and adds one session document. The votes are never touched. |
| Store.StoreThenGetSession | pkg/store/mongo/mongo.go:95-124 | Round trip: after storing an unused id, `GetSession` returns exactly what `StoreSession` returned. |
| Store.StoreSessionKeepsOtherLookups | pkg/store/mongo/mongo.go:95-115 | Inserting a session leaves `GetSession` unchanged for every other id. It is also unchanged for a duplicate of an id already stored, because the first document still wins. |
| Store.FirstVote | pkg/store/mongo/mongo.go:211-214 | The document the upsert filter selects: the first one with the (session, product) pair. None exactly when the pair has no document. |
| Store.UpsertVote | pkg/store/mongo/mongo.go:208-233 | Whatever the prior state, a successful upsert returns a vote echoing its inputs. A failed one returns the driver error and changes nothing. Sessions are never touched. |
| Store.UpsertVoteSetsScore | pkg/store/mongo/mongo.go:211-224 | After the upsert, the pair reads back the new score and every other pair reads back as before. Reads are taken through the first-match view `Scores`. |
| Store.UpsertVoteKeepsPairsUnique | pkg/store/mongo/mongo.go:211-224 | If every pair had at most one document before the upsert, that still holds afterwards. Whatever the prior state, the upserted pair then has a document holding the new score, so under uniqueness it has exactly one. |
| Store.SessionVotes | pkg/store/mongo/mongo.go:178-198 | A vote is in the filtered list exactly when it belongs to the session and its document is stored. |
| Store.GetSessionVotes | pkg/store/mongo/mongo.go:175-204 | A driver failure is returned with no list. Otherwise the result is nil exactly when the session has no vote documents. When it is not nil, it holds exactly the votes whose document is stored and whose session is the given one. |
| Store.SessionVotesAgreeWithScores | pkg/store/mongo/mongo.go:178-204 | When every pair has at most one document, a session's listed votes are exactly the `Scores` entries of that session. |
| Store.MatchProductCounts | pkg/store/mongo/mongo.go:131-139 | The `$match` stage selects as many documents as the reference count for the product. Their scores add up to the reference sum. |
| Store.GetAvgProductVotes | pkg/store/mongo/mongo.go:128-171 | An Aggregate or Decode failure is returned unchanged. Otherwise it succeeds exactly when `cursor.Next` does not fail, the product id is non-empty and it has at least one vote. It fails with "no votes found" in every other case. That includes the empty product id, and a failing `cursor.Next`, since the code never checks `cursor.Err()` here. On success the product id is the requested one, the count is the number of votes and the average is their exact sum divided by that count. |
| Store.UpsertVoteAdjustsTotals | pkg/store/mongo/mongo.go:211-224 | The effect of an upsert on the totals the aggregation reads: a first vote for the pair adds one to the count and its score to the sum. A re-vote keeps the count and replaces the old score with the new one. Other products are unaffected. |
| Store.AverageInScoreRange | pkg/store/mongo/mongo.go:133-139 | When every stored score is in 1..5, any reported average lies in 1..5. |
| Session.Create | pkg/session/service.go:28-38 | On success it returns the record for the fresh id, expiring 3600 s after `now`. On failure it returns the store's error unchanged and leaves the store as it was. |
| Session.Validate | pkg/session/service.go:40-51 | A failed lookup returns the store's error. `ErrExpiredSession` is returned exactly when the session is found and `now` is strictly after its expiry. Success is returned exactly when it is found and `now` is at or before its expiry. It returns no store, so it cannot change one. |
| Session.CreateThenValidate | pkg/session/service.go:28-51 | A session created at time c under an unused id validates exactly when `now <= c + 3600`, and is reported expired exactly when `now > c + 3600`. |
| Voting.Vote | pkg/voting/service.go:52-58 | Any validation failure yields `InvalidSession` with the store untouched. The call succeeds exactly when the session validates and the write succeeds. It then echoes the vote, the pair reads back the new score and other pairs are unchanged. When the session validates, the repository's upsert result comes back unchanged, so a write failure returns the driver error, not `InvalidSession`. Any failure leaves the store as it was. If every pair had at most one document before, that still holds afterwards. |
| Voting.GetVotes | pkg/voting/service.go:42-49 | Any validation failure yields `InvalidSession` and no list. After a passing validation a store failure propagates. On success the result is nil exactly when the session has no votes, and otherwise holds exactly that session's stored votes. |
| Voting.GetAvgProductVotes | pkg/voting/service.go:37-39 | There is no session check: the result equals the repository's answer for every possible sessions collection. On success the count is positive and the average is the exact sum divided by the count. |
| Voting.ExpiredAndUnknownLookAlike | pkg/voting/service.go:42-57 | An unknown session and an expired one produce identical results from `Vote` (`InvalidSession`) and from `GetVotes`. |
| Voting.RevoteScenario | pkg/voting/service.go:37-57 | Create a session, then vote 4 and then 2 for "pizza". Listing returns the single vote with score 2, and the average is exactly 2 over 1 vote. |
| Validation.Check | pkg/validation/validation.go:12-32 | One entry per violating field, and an empty list when no rule is broken. Every entry has `Error = true`. An entry is in the list exactly when some violating field reports it, with that field's name, the tag of its first failing rule and its value. |
| Validation.ValidateVoteRequest | pkg/voting/requests.go:3-6 | No violation exactly when the score is in 1..5. A score below 1 yields exactly one entry: `Score`, tag `min`, the score. This includes 0, the value an absent score has. A score above 5 yields exactly one entry: `Score`, tag `max`, the score. |
| Validation.ProductIdUnconstrained | pkg/voting/requests.go:4 | The product id, the empty string included, never changes the validation result. |
| Controller.Status | cmd/main.go:51-63 | A returned error that is not a fiber error becomes status 500. A fiber error keeps its own code: 401 for Unauthorized, 400 for BadRequest, 404 for NotFound. A JSON reply keeps the status it was written with. |
| Controller.UpsertVote | pkg/voting/controller.go:90-121 | The checks run in a fixed order. An empty cookie gives 401 with the store untouched. Otherwise any violation gives 400 with the violation list, even if parsing failed. Otherwise a parse failure gives a plain 400. Only when all checks pass is the service called, and then the store and the reply follow its result. A success reply is 200 with the echoed vote. Stored scores stay in 1..5, and at most one document per pair stays at most one. |
| Controller.GetVotes | pkg/voting/controller.go:61-79 | An empty cookie gives 401. A JSON reply is always 200 with a non-nil list holding exactly the session's stored votes, so a nil list is sent as empty. Every service failure is returned as is, as a non-fiber error, which the error handler answers with 500. |
| Controller.GetAvgProductVotes | pkg/voting/controller.go:37-51 | An empty product id gives 400. Otherwise it answers 404 exactly when the store fails, `cursor.Next` fails, or the product has no votes. A non-empty product id with at least one vote and no failure always gets a JSON reply. A JSON reply is 200 with the product's id, vote count and exact average. |
| Controller.InvalidSessionAnswers500 | pkg/voting/controller.go:112-116 | With a cookie and a well-formed request, a session that fails validation leaves the store untouched and the client sees 500, for both vote submission and vote listing. |

## Left out

- `NewMongoStore`: connection, ping and their timeouts are driver I/O.
- BSON encoding and cursor mechanics. In `GetSessionVotes` a decoding or iteration failure is one more driver fault. In `GetAvgProductVotes` a Decode failure is a driver fault. An iteration failure there is the `nextFails` flag, which ends in "no votes found".
- Natural order: the model fixes it as insertion order. The contracts on vote lists speak of membership only.
- Store.GetAvgProductVotes: the average is the exact `real` sum/count, not MongoDB's float64 `$avg`. Rounding is not modelled.
- `$group` keys on the product id. Because `$match` precedes it, the matched documents share one product id, so the model builds a single group.
- `uuid.New()`: the fresh id is a parameter. `Session.CreateThenValidate` assumes the id is unused.
- `time.Now` and `time.Since`: the clock is the parameter `now`.
- `primitive.DateTime` keeps milliseconds and `Unix()` truncates to seconds. The real service can therefore report a session expired up to one second early. The model works in whole seconds throughout.
- Go's 64-bit `int` and `int64`: these are unbounded integers in the model. Scores are 1..5 and expiries are near the current time, so no wrap-around is reachable.
- `context.Context`, cancellation and the last-write-wins race between concurrent upserts: the model is sequential.
- `ValidateVoteRequest` returns an empty but non-nil slice when nothing fails. The model's sequences do not distinguish nil from empty. Only the length is consulted by the caller.
- Validation.Check: models go-playground's behaviour only for the `min` and `max` tags. It reports the first failing tag of each field, so a field yields at most one entry. With `min=1,max=5` at most one rule can fail, so this is the same as one entry per violated rule.
- Fiber routing, cookie and path-parameter extraction, JSON body parsing and writing: these are inputs and outputs of the controller functions.
- `cmd/main.go` signal handling, listener, graceful shutdown and Swagger are process plumbing. Only its error-to-status rule is modelled.
- `pkg/config/env-vars/envvars.go`: environment loading.
- `pkg/session/controller.go`: the session endpoint clears the old cookie and sets the new one around `Session.Create`. A failed create is logged and answered with a fiber 500 "session could not be created", so the store's own error message never reaches the client. This is cookie handling and logging, so it is not modelled.
- Logging (`fmt.Println`, the go-kit logger) has no effect on results.
