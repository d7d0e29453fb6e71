# Arc Relay, verified

A Dafny model of the parts of Arc Relay where order, time and failure meet: the archive delivery queue with its
circuit breaker, the stdio bridge to an MCP server, the OAuth token manager, the two rate limiters, the transcript
memory (ingest, extraction passes and their scheduling), schema pruning and the tool optimizer around a language
model, the health monitor's recovery budget, requests to remote servers, the effective middleware pipeline, and the
text forms of commands and environment variables.

Concurrent components are state machines. An event is one critical section, one database statement or one exchange
with the outside; `IsRun` says that a sequence of states and events is an execution, and a theorem about a run is a
theorem about every interleaving. The classes beside a machine are the source's objects: their methods change their
fields step by step. Where a class keeps a log (the dispatcher, the bridge, the token manager, the memory service, the
extractor and the health monitor), `Valid()` says that everything the object has done so far is a run of its machine,
so the theorems speak about the object. The limiters and the remote proxy keep no log; each of their methods is proved
equal to one step of the machine. Loops are methods with invariants, proved equal to a function whose own properties
are stated as lemmas. Statements of the database that can fail, answers of remote parties, parsers and clocks are
parameters, so the results hold whatever they answer.

The meaning of a schema is a reading: a set of pairs of a schema and an instance that solves the equations every
keyword sets up, references included. Keywords that pruning does not look into are an arbitrary predicate. Which
keywords demand nothing of an instance is listed apart from pruning, and references by position are JSON pointers, which
`SchemaPointers.PointerRoundTrip` reads back as they are written.

Some properties that the documentation suggests are not true of the code in every case. For these the exact
condition is proved, and beside it stands an input or an execution in which they fail:

- `OAuthRotation.SoundExactly` with `OAuthWarmCache.ColdStartPresentsDiscarded`
- `OAuthAfterRefresh.EmptyExactly` with `OAuthWarmCache.RefreshedYetGone`
- `TokenBucketProofs.EvictionExactly` with `TokenBucketProofs.ComebackBreaksBound`
- `StdioSafety.CutOffExactly` and `StdioSafety.OrphanedExactly` with `StdioSafety.SecondRegistersOverFirst` and
  `StdioSafety.FirstUnlistsSecond`
- `SchemaMeaning.PropertiesExactly` with `SchemaMeaning.TitlePropertyLost`, `SchemaMeaning.ConstantExactly` with
  `SchemaMeaning.ConstantTitleLost`, and `SchemaShape.VanishesExactly` and `SchemaMeaning.LostReferenceExactly` with
  `SchemaWitnesses.IdReferenceLost`, `SchemaWitnesses.NamedTreeLost` and `SchemaWitnesses.PointerLost`
- `MemoryIngest.ReplayAdds` with `MemoryIngest.AnonymousReplayed`
- `MemoryPoison.FullyTriedExactly` with `MemoryPoison.GivenUpAfterOne`
- `MiddlewareConfigs.OneAnswerExactly` with `MiddlewareConfigs.EitherWayRound`
- `HealthBudget.MarkStandsExactly` with `HealthBudget.MarkedAfterReset`
- `RemoteProofs.CoherentExactly` and `RemoteProofs.SendCoherentExactly` with `RemoteProofs.IncoherentSend`, and
  `RemoteProofs.NotifyCoherentExactly` with `RemoteProofs.NotificationHidesRefresh`
- `CommandText.RoundTripExactly` with `CommandText.LoneArgumentLost`, and `EnvText.RoundTripExactly` with
  `EnvText.VariablesLost`

Where code and comment disagree the model follows the code: the comment on schema pruning calls it safe, the comment
on the tool batches speaks of characters where the code counts bytes, the comment on the configuration sort calls it
stable although its input comes out of a Go map in no particular order, and the comment on ingest calls it idempotent
although messages without a uuid are stored again.

The files follow the components. `ArchiveModel`, `ArchiveBreaker`, `ArchiveQueue` and `ArchiveDispatcher` are the
archive; `StdioModel` and `StdioBridge` the bridge; `OAuthModel`, `OAuthRotation`, `OAuthWarmCache`,
`OAuthAfterRefresh`, `OAuthOrigins` and `OAuthManager` the tokens; `TokenBucket` and `SlidingWindow` the limiters;
`MemoryModel`, `MemoryExtract`, `MemoryPoison`, `MemoryExtractor` and `MemoryFairness` the transcript memory;
`SchemaPruning`, `SchemaPointers`, `SchemaReadings`, `SchemaMeaning`, `SchemaWitnesses` and `ToolOptimizer` the
optimizer; `HealthRecovery`, `RemoteSend`, `MiddlewarePipeline`, `CommandText` and `EnvText` the rest. `Options` holds
the optional value they share.

`dafny verify dfyconfig.toml` checks all of it.

## Model

| member | source | states |
|---|---|---|
| ArchiveBreaker.ReachableInv | internal/middleware/archive_dispatcher.go:164-246 | in every reachable state, closed means fewer than five failures in a row and no escalation, open or half-open means at least five with the pause escalated once per failed probe, and the loop is past its gate only while the circuit is not open |
| ArchiveBreaker.NoSendWhileOpen | internal/middleware/archive_dispatcher.go:166-184 | no item leaves the queue while the circuit is open |
| ArchiveBreaker.FailureSpacing | internal/middleware/archive_dispatcher.go:26-39 | after the fifth failure in a row, k more failures without success, reset, passed test or restart take at least the sum of k pauses of 1, 5, 15, 15, ... minutes |
| ArchiveBreaker.RecordExactly | internal/middleware/archive_dispatcher.go:201-244 | a success closes the circuit and forgets the failures; a failure counts, and opens it exactly if it was a probe's or the fifth in a row |
| ArchiveBreaker.BreakerFollowsLog | internal/middleware/archive_dispatcher.go:164-246 | in terms of the log: the circuit is closed exactly while fewer than five failures stand in a row, and an open one counts its pause from the last of them |
| ArchiveBreaker.GateExactly | internal/middleware/archive_dispatcher.go:166-184 | the loop goes on exactly when the circuit is closed, a probe is under way, or 1, 5 or 15 minutes have passed since the last failure; after five failures what goes on is a probe |
| ArchiveQueue.ReadableItems | internal/store/archive_queue.go:82-134 | a dequeued batch is exactly the due rows that decrypt, each once, unaltered |
| ArchiveQueue.OldestFirst | internal/store/archive_queue.go:82-96 | a drain takes pending rows whose second has come, at most fifty, and passes one over only for fifty that are scheduled no later and, for the same second, stored no later |
| ArchiveQueue.InOrder | internal/store/archive_queue.go:82-96 | and takes them in that order |
| ArchiveQueue.SomeSelection | internal/store/archive_queue.go:82-96 | every table has such a selection |
| ArchiveQueue.ReachableInv | internal/store/archive_queue.go:56-175 | in every reachable state the items in the loop's hands have distinct ids that were issued, and ids in the table were issued |
| ArchiveQueue.CarriesSince | internal/middleware/archive_dispatcher.go:98-118 | from acceptance on a payload is in the queue unaltered or has left it |
| ArchiveQueue.OutStaysOut | internal/store/archive_queue.go:137-140 | a payload that left the queue never comes back |
| ArchiveQueue.Conserved | internal/middleware/archive_dispatcher.go:186-305 | whatever statements fail and whenever the process restarts, an accepted payload is queued unaltered or left exactly once, because of a reply below 300 or an explicit clear or prune |
| ArchiveQueue.DepartureOf | internal/store/archive_queue.go:211-217 | a payload that is gone has one step in which it left, of one of those kinds |
| ArchiveQueue.ReplyWasReceived | internal/middleware/archive_dispatcher.go:248-305 | the statement that removes a row acts on the destination's own answer to that row in the same drain |
| ArchiveQueue.OneOutcomePerDrain | internal/middleware/archive_dispatcher.go:201-244 | between two sends of a row a new batch was taken, so a row has at most one outcome per drain |
| ArchiveQueue.BackoffGrows | internal/middleware/archive_dispatcher.go:16-24 | retry delays are 15 seconds, 1, 5 and 15 minutes, an hour and six hours; they never shrink and stay at six hours from the sixth attempt on |
| ArchiveQueue.SettleFollows | internal/middleware/archive_dispatcher.go:248-317 | for every reply: a code below 300 removes the row; a network error, 408, 429 or a code from 500 on leaves it with its message and status, one attempt more and the next delay; anything else holds it |
| ArchiveQueue.RetrySpacing | internal/middleware/archive_dispatcher.go:307-317 | after a network error, 408, 429 or a code from 500 on a row waits its delay less the second lost to truncated timestamps, unless an administrator intervenes, and then has one attempt more |
| ArchiveQueue.HeldUntilRetried | internal/middleware/archive_dispatcher.go:248-305 | a row whose request could not be made, or that met any other code from 300 on, is not sent before somebody retries held rows |
| ArchiveDispatcher.QueueStore.Enqueue | internal/store/archive_queue.go:56-79 | a stored payload is there unaltered, with its destination and no attempts, due at once; no other row changes |
| ArchiveDispatcher.QueueStore.DequeueDue | internal/store/archive_queue.go:82-134 | the readable rows of the selection in its order, the unreadable ones held as far as those writes succeed; when reading breaks off the caller gets nothing and what was held stays held |
| ArchiveDispatcher.QueueStore.MarkDelivered | internal/store/archive_queue.go:137-140 | the row is gone and no other changes |
| ArchiveDispatcher.QueueStore.Reschedule | internal/store/archive_queue.go:143-150 | the row keeps message and status, counts the attempt and is not due before the truncated time; a row that is gone does not come back |
| ArchiveDispatcher.QueueStore.MarkHold | internal/store/archive_queue.go:153-161 | the row keeps its message, counts the attempt and is due at no time |
| ArchiveDispatcher.QueueStore.RetryHeld | internal/store/archive_queue.go:164-175 | no row is held any more: those that were are due now with their message and no attempts, the others are as they were |
| ArchiveDispatcher.QueueStore.RewriteHeldDelivery | internal/store/archive_queue.go:186-205 | every row goes to the new url with the payload and status it had; pending rows that went elsewhere are due now, rows that went there already are as they were |
| ArchiveDispatcher.QueueStore.ClearHeld | internal/store/archive_queue.go:211-217 | exactly the held rows go, the others are as they were |
| ArchiveDispatcher.QueueStore.Prune | internal/store/archive_queue.go:301-308 | exactly the rows created before the cutoff go, the others are as they were |
| ArchiveDispatcher.Dispatcher.ResetCircuit | internal/middleware/archive_dispatcher.go:457-467 | closes the breaker and nothing else |
| ArchiveDispatcher.Dispatcher.TestDelivered | internal/middleware/archive_dispatcher.go:371-378 | a passed test closes the breaker, and forgets failures only if it was not closed |
| ArchiveDispatcher.Dispatcher.Restart | internal/middleware/archive_dispatcher.go:41-96 | a new process on the old table: rows stay, the loop is idle and the breaker closed |
| ArchiveDispatcher.Dispatcher.Maintain | internal/store/archive_queue.go:164-217 | the statements of administrators as one event of the run |
| ArchiveDispatcher.Dispatcher.PassGate | internal/middleware/archive_dispatcher.go:166-184 | goes on exactly when the circuit is not open or its pause of 1, 5 or 15 minutes is over, and then it is half-open |
| ArchiveDispatcher.Dispatcher.StoreOutcome | internal/middleware/archive_dispatcher.go:248-317 | what each status code does to the row, in numbers, and success exactly below 300 |
| ArchiveDispatcher.Dispatcher.SendOne | internal/middleware/archive_dispatcher.go:248-305 | one exchange for the first item of the batch, followed by the statement for its outcome; true exactly for a reply below 300 |
| ArchiveDispatcher.Dispatcher.RecordSend | internal/middleware/archive_dispatcher.go:201-244 | success closes the breaker; a failure counts, and a failed probe or the fifth failure in a row opens it now and ends the batch |
| ArchiveDispatcher.Dispatcher.DrainDue | internal/middleware/archive_dispatcher.go:164-246 | a pass of the loop is a run that sends nothing exactly while paused, sends each taken item at most once, and gives a batch up only on a trip or at an item before which a stop was requested |
| ArchiveDispatcher.Dispatcher.TakeBatch | internal/middleware/archive_dispatcher.go:186-190 | the batch is the readable part of what the query returned |
| ArchiveDispatcher.Dispatcher.DeliverOne | internal/middleware/archive_dispatcher.go:192-244 | one item of the batch: one attempt, its outcome recorded |
| ArchiveDispatcher.Dispatcher.Deliver | internal/middleware/archive_dispatcher.go:192-246 | the loop over the batch ends when it is exhausted, tripped, or at an item before which a stop was requested |
| StdioSafety.ReachableInv | internal/proxy/stdio_bridge.go:44-149 | the joint invariant of callers, reader, closer and channels in every reachable state |
| StdioSafety.ChannelSafety | internal/proxy/stdio_bridge.go:44-77 | no send on a closed channel, no blocking send, no second close, at most one response per channel, duplicate ids included |
| StdioSafety.ReturnsExactly | internal/proxy/stdio_bridge.go:111-120 | a waiting call can return exactly when a response lies in its channel or the channel is closed, with that response or without one, or when its context ends |
| StdioSafety.ListedChannels | internal/proxy/stdio_bridge.go:85-90 | listed channels are open and listed once |
| StdioSafety.AnswersMatch | internal/proxy/stdio_bridge.go:111-119 | an answered caller got a response with its own id |
| StdioSafety.ResponseReachesItsCaller | internal/proxy/stdio_bridge.go:44-77 | with distinct ids in flight a response goes to its caller, who gets it, has it, gave up or was closed out |
| StdioSafety.CutOffExactly | internal/proxy/stdio_bridge.go:85-118 | for every step of anybody else, a listed and unserved caller is cut off if and only if the step is a registration, failed write or cancellation of a call with the same id |
| StdioSafety.OrphanedExactly | internal/proxy/stdio_bridge.go:80-120 | over whole runs, a call in flight is an orphan if and only if such a step happened to it |
| StdioSafety.SecondRegistersOverFirst | internal/proxy/stdio_bridge.go:85-90 | an execution in which the second registration cuts the first caller off |
| StdioSafety.FirstUnlistsSecond | internal/proxy/stdio_bridge.go:114-118 | an execution in which the first caller gives up and cuts the second off |
| StdioSafety.OrphanNeverAnswered | internal/proxy/stdio_bridge.go:80-120 | such a caller is never answered, not even by close; it returns only by its own context or write error |
| StdioSafety.CloseReleases | internal/proxy/stdio_bridge.go:134-149 | with distinct ids every call in flight when the list is drained has its response under way or its channel closed until it returns |
| StdioSafety.LateCallsAreNotReleased | internal/proxy/stdio_bridge.go:80-149 | a call that registers after the drain returns with an answer or by its own context or write error, never because the bridge is closed |
| StdioSafety.OvertakenByClose | internal/proxy/stdio_bridge.go:80-149 | an execution with such a call: it finds the bridge open, the whole of close comes in between, and it waits on an open channel with nothing to receive |
| StdioSafety.ClosedRefuses | internal/proxy/stdio_bridge.go:80-84 | a call that starts on a closed bridge has failed for that reason, stays so, lists nothing and never registers |
| StdioSafety.RefusedOnlyWhenClosed | internal/proxy/stdio_bridge.go:80-84 | and only such a call fails for that reason |
| StdioBridge.Bridge.Start | internal/proxy/stdio_bridge.go:80-84 | the closed check |
| StdioBridge.Bridge.Register | internal/proxy/stdio_bridge.go:85-90 | a new channel of capacity one under the id, replacing any other |
| StdioBridge.Bridge.AbandonWrite | internal/proxy/stdio_bridge.go:93-108 | a failed write unlists the id |
| StdioBridge.Bridge.AbandonWait | internal/proxy/stdio_bridge.go:114-118 | an ended context unlists the id |
| StdioBridge.Bridge.Receive | internal/proxy/stdio_bridge.go:111-113 | the response, with the caller's own id, or none from a closed channel |
| StdioBridge.Bridge.TakeFor | internal/proxy/stdio_bridge.go:57-65 | looks the id up and unlists it in one critical section |
| StdioBridge.Bridge.HandOver | internal/proxy/stdio_bridge.go:67-68 | the channel is open and empty whatever happened since it was taken, so the send succeeds at once |
| StdioBridge.Bridge.SetClosed | internal/proxy/stdio_bridge.go:134-138 | the closed flag |
| StdioBridge.Bridge.DrainPending | internal/proxy/stdio_bridge.go:140-149 | closes every listed channel and empties the list |
| StdioBridge.CloseEach | internal/proxy/stdio_bridge.go:140-149 | every channel closed in the loop was open |
| OAuthSingleFlight.SingleFlight | internal/oauth/oauth.go:399-431 | at most one call leads a refresh of a server, and it is registered exactly while one does |
| OAuthSingleFlight.SharedOutcome | internal/oauth/oauth.go:399-431 | whoever shared a refresh and did not give up returns exactly what its leader has returned |
| OAuthSingleFlight.OutcomeIsFinal | internal/oauth/oauth.go:399-431 | a reported outcome never changes |
| OAuthRotation.SoundExactly | internal/oauth/oauth.go:314-344 | a step keeps every discarded refresh token out of reach if and only if it is not a stale write to the cache |
| OAuthRotation.UnsoundCachePresentsDiscarded | internal/oauth/oauth.go:434-514 | a discarded token in the cache outside an exchange is presented by the next refresh |
| OAuthRotation.NeverPresentedAgain | internal/oauth/oauth.go:434-514 | without stale writes no discarded refresh token is presented, over any run |
| OAuthWarmCache.WarmCacheNeverPresentsDiscarded | internal/oauth/oauth.go:314-344 | with a warm cache and successful saves none is presented either, whatever callbacks and re-registrations happen |
| OAuthWarmCache.ColdStartPresentsDiscarded | internal/oauth/oauth.go:320-332 | an execution from a cold start in which two callers defeat single use |
| OAuthWarmCache.RefreshedYetGone | internal/oauth/oauth.go:334-341 | an execution after which a caller returns from a successful refresh to an empty cache |
| OAuthAfterRefresh.EmptyExactly | internal/oauth/oauth.go:334-341 | a caller that returned from a successful refresh, its own or a shared one, finds the cache empty if and only if, since its leader cached the renewed tokens, a re-registration or a rejected refresh dropped them and no renewal, load or callback has cached any again |
| OAuthAfterRefresh.LostExactly | internal/oauth/oauth.go:334-341 | the same at the end of a run in terms of its log alone |
| OAuthAfterRefresh.CachedBy | internal/oauth/oauth.go:314-344 | cached tokens are those of the last renewal, load or callback that cached any, and nobody dropped them since |
| OAuthAfterRefresh.CachedIsAnswered | internal/oauth/oauth.go:499-510 | every renewal caches the access token of the provider's last answer to that call, and its refresh token, or the presented one if the answer has none |
| OAuthAfterRefresh.RenewedOrLater | internal/oauth/oauth.go:334-341 | what a caller finds after a successful refresh was cached by a renewal or later |
| OAuthOrigins.HeldWasGranted | internal/oauth/oauth.go:299-344 | over any run, what is cached or stored for a server was granted to that server before, access and refresh token together; tokens of two servers or two grants are never mixed |
| OAuthOrigins.PresentedWasGranted | internal/oauth/oauth.go:434-514 | and so is what a refresh presents |
| OAuthManager.Manager.RefreshToken | internal/oauth/oauth.go:399-431 | with any steps of others in between: who finds a refresh in flight never contacts the provider and returns its outcome or the end of its own context; who does not leads, asks at most twice and leaves its outcome done and published; its outcome is no refresh token, misconfiguration or rejection exactly when that is the case, and success only on granted and saved tokens |
| OAuthManager.Manager.Await | internal/oauth/oauth.go:403-411 | the published outcome of a finished refresh, or the end of the context |
| OAuthManager.Manager.DoRefresh | internal/oauth/oauth.go:434-514 | success exactly when the provider grants tokens and the save succeeds, and then the cache holds the granted access token with the granted refresh token or, for want of one, the old; rejection exactly on invalid_grant, failure of the provider on any other error, no refresh token exactly when there is none |
| OAuthManager.Manager.ReadConfiguration | internal/oauth/oauth.go:439-447 | the tokens in the configuration are those stored at that moment |
| OAuthManager.Manager.AskProvider | internal/oauth/oauth.go:449-502 | one or two requests, the second only after the endpoint had moved; the deciding answer leads to the renewed tokens, to rejection or to failure |
| OAuthManager.Manager.RewriteConfiguration | internal/oauth/oauth.go:472-484 | storing new endpoints brings back the tokens read at the start, whatever has been stored since, and touches neither the cache nor another server; a failed write changes nothing |
| OAuthManager.Manager.SaveAndCache | internal/oauth/oauth.go:504-510 | renewed tokens are saved and then cached as they are, and a failed save leaves cache and database alone |
| OAuthManager.Manager.ClearDatabase | internal/oauth/oauth.go:574-586 | the stored tokens of that server go if the write succeeds, and the cache stays |
| OAuthManager.Manager.ClearCached | internal/oauth/oauth.go:588-590 | the cached tokens of that server go and nothing else |
| OAuthManager.Manager.Clear | internal/oauth/oauth.go:574-591 | the two in this order with any steps of others in between: the cache is without tokens of the server at the end, whatever the database did |
| OAuthManager.Manager.CloseDone | internal/oauth/oauth.go:425-428 | the result is closed once: it was open, and its owner closes it with its own outcome |
| OAuthManager.Manager.Load | internal/oauth/oauth.go:320-332 | the tokens found are those in the database when it is read, and they are cached last, whatever happened between reading and caching |
| OAuthManager.Manager.GetAccessToken | internal/oauth/oauth.go:314-344 | a cached token that is not expired is returned and nothing changes; an empty cache is filled from the database, and no tokens means that there are none there; otherwise the token returned is the cached one, and after a refresh it was cached by a renewal or later; a nil pointer is met if and only if the renewed tokens were dropped and none cached again |
| OAuthManager.Manager.HandleCallback | internal/oauth/oauth.go:299-307 | granted tokens end up cached, whatever happens between storing and caching |
| TokenBucketProofs.SameAnswers | internal/server/ratelimit.go:33-73 | when ten minutes fill a bucket, every answer is that of a limiter that never forgets, for any cleanup schedule |
| TokenBucketProofs.AdmittedFromLevel | internal/server/ratelimit.go:33-57 | a trace admits at most the starting level plus what its time yields |
| TokenBucketProofs.BoundHolds | internal/server/ratelimit.go:33-57 | at most burst plus rate times elapsed admissions in any interval |
| TokenBucketProofs.AdmitsExactly | internal/server/ratelimit.go:33-57 | the limiter is as generous as its bound: a call is admitted if and only if no stretch that ends with it would then hold more admissions than the burst plus the rate times its length |
| TokenBucketProofs.ComebackBreaksBound | internal/server/ratelimit.go:60-73 | otherwise a returning user exceeds that bound |
| TokenBucketProofs.EvictionExactly | internal/server/ratelimit.go:33-73 | eviction is invisible and the bound holds if and only if 600 times the rate reaches the burst |
| RateLimiter.RateLimiter.Allow | internal/server/ratelimit.go:33-57 | refill, cap, and one token per admitted call |
| RateLimiter.RateLimiter.Cleanup | internal/server/ratelimit.go:60-73 | forgets exactly the buckets idle for ten minutes |
| SlidingWindowProofs.AnswersIgnoreTrimming | internal/web/handlers.go:112-159 | trimming and cleanup never change an answer: fewer than the maximum in the past window |
| SlidingWindowProofs.RecentKeeps | internal/web/handlers.go:112-125 | the filter keeps exactly the attempts after the cutoff, in their order |
| SlidingWindowProofs.RaceBound | internal/web/device_auth.go:178-182 | with at most k requests between check and record, no window sees more than max + k - 1 records |
| SlidingWindowProofs.RaceBoundIsReached | internal/web/device_auth.go:178-182 | and some run sees that many |
| IpRateLimiter.CompactInPlace | internal/web/handlers.go:112-125 | the in-place filter keeps exactly the recent entries in order |
| IpRateLimiter.IpRateLimiter.Allow | internal/web/handlers.go:112-125 | the answer and the trimmed list |
| IpRateLimiter.IpRateLimiter.Cleanup | internal/web/handlers.go:134-159 | trims every list and drops the empty ones |
| MemoryIngest.AllOrNothing | internal/memory/service.go:74-153 | a call succeeds or changes nothing, with each error under its own condition; a foreign user's call changes nothing; the count reported is the rows added |
| MemoryIngest.InsertAllConcat | internal/store/memory_messages.go:108-135 | splitting a list of messages anywhere gives the same rows |
| MemoryIngest.InsertAddsNew | internal/store/memory_messages.go:52-57 | inserting a chunk appends one row per new message, in order, numbered consecutively and unaltered; new are those without uuid and those whose uuid neither a stored row of the session nor an earlier message has |
| MemoryIngest.StoresTranscript | internal/memory/service.go:74-153 | an accepted call stores exactly the new messages of its transcript and reports how many |
| MemoryIngest.KeysAfter | internal/store/memory_messages.go:52-57 | a chunk leaves the old keys and its own |
| MemoryIngest.ReplayAdds | internal/memory/service.go:74-153 | an accepted chunk sent again at any later time adds exactly its messages without uuid, so nothing if and only if all have one |
| MemoryIngest.AnonymousReplayed | internal/store/memory_messages.go:49-57 | a run in which a message without uuid is sent twice and stored twice |
| MemoryIngest.SplitIsHarmless | internal/memory/service.go:74-153 | a chunk sent in two calls leaves the same messages |
| MemoryIngest.KeysAreUnion | internal/store/memory_messages.go:52-57 | the stored keys are exactly those of the accepted calls |
| MemoryIngest.ReachableRows | internal/store/memory_messages.go:108-135 | ids ascend and no session holds a uuid twice |
| MemoryIngest.SessionsKeepIdentity | internal/store/memory_sessions.go:52-63 | owner and insert-only columns never change and the last activity never goes back |
| MemoryIngest.LastActivityIsLatest | internal/store/memory_sessions.go:122-140 | the last activity is the latest message time of any accepted call of the session, but not before the epoch |
| MemoryIngest.OwnerIsCaller | internal/memory/service.go:108-144 | a new session takes every insert-only column from the caller and the request; an existing one keeps them; it shows what the latest call reported, its extraction and all other sessions are untouched |
| MemoryService.NewestTimestamp | internal/memory/service.go:190-203 | a maximum of the timestamps that parse, absent only when none does |
| MemoryService.Service.constructor | internal/memory/service.go:56-65 | the empty store |
| MemoryService.Service.BulkInsert | internal/store/memory_messages.go:108-135 | the loop stores the new messages, in order and unaltered, and counts them |
| MemoryService.Service.Ingest | internal/memory/service.go:74-153 | the call's outcome and the whole new store, in which an accepted call has exactly its new messages more |
| MemoryService.Service.Transact | internal/memory/service.go:101-144 | parse, ownership, upsert, inserts and stamps commit together or not at all |
| MemoryWatermark.ReachableInv | internal/memory/extractor/extractor.go:144-318 | the window of a pass is the next stretch of its session above the watermark, whatever is ingested meanwhile |
| MemoryWatermark.WatermarkPartitions | internal/store/memory_sessions_extract.go:153-193 | the windows extracted or given up, end to end, are exactly the session's messages up to the watermark |
| MemoryWatermark.AccountedAreOldest | internal/store/memory_messages_range.go:9-34 | and they are its oldest messages |
| MemoryWatermark.WatermarkGrows | internal/store/memory_sessions_extract.go:153-193 | the watermark never goes back |
| MemoryWatermark.AttemptsCountFailures | internal/store/memory_sessions_extract.go:167-178 | the attempt counter is the number of failed passes since the watermark moved |
| MemoryWatermark.PoisonNeedsFailures | internal/memory/extractor/extractor.go:279-302 | a range is given up only after the configured number of failures in a row, and it is the window of the last |
| MemoryPoison.FailedIsRetried | internal/memory/extractor/extractor.go:144-318 | until the watermark moves, a window that failed stays next in line and every later pass includes it |
| MemoryPoison.FailedIsBehind | internal/store/memory_sessions_extract.go:153-193 | once the watermark has moved, it is past everything that failed before |
| MemoryPoison.TriedExactly | internal/memory/extractor/extractor.go:279-302 | a message next in line has been in exactly as many failed passes, over the whole run, as reached its position since the watermark last moved |
| MemoryPoison.FullyTriedExactly | internal/memory/extractor/extractor.go:279-302 | that is the whole row of failures if and only if every failed window in it reached the position |
| MemoryPoison.GivenUpAfter | internal/memory/extractor/extractor.go:279-302 | of a range given up, the first message failed as often as the limit asks for, every message at least once, and each exactly as often as windows reached it |
| MemoryPoison.GivenUpAfterOne | internal/memory/extractor/extractor.go:279-302 | a run with a limit of two in which a message that came between the passes is about to be given up after one failure |
| MemoryExtract.CutAbove | internal/store/memory_messages_range.go:9-34 | the range query returns the suffix above the watermark |
| MemoryExtract.RangeIsWindow | internal/store/memory_messages_range.go:9-34 | a window is the session's messages above the watermark, oldest first, all of them or the first so many (400 unless set), and leaves out none older than one it holds |
| MemoryExtractor.SendChunks | internal/memory/extractor/extractor.go:227-277 | a pass fails exactly when some chunk is late, cut off, refused or unrecorded |
| MemoryExtractor.Extractor.Receive | internal/memory/service.go:74-153 | an ingest during extraction |
| MemoryExtractor.Extractor.ReceiveAll | internal/memory/service.go:74-153 | ingests leave a session's bookkeeping and pass alone |
| MemoryExtractor.Extractor.GetRange | internal/store/memory_messages_range.go:9-34 | the bounded window above the watermark |
| MemoryExtractor.Extractor.BeginAttempt | internal/store/memory_sessions_extract.go:143-151 | stamps the attempt |
| MemoryExtractor.Extractor.CompletePass | internal/store/memory_sessions_extract.go:153-165 | moves the watermark and clears the attempts |
| MemoryExtractor.Extractor.FailPass | internal/store/memory_sessions_extract.go:167-178 | counts the failure and returns the count |
| MemoryExtractor.Extractor.PoisonRange | internal/store/memory_sessions_extract.go:180-193 | moves the watermark past the range and records it |
| MemoryExtractor.Extractor.Extract | internal/memory/extractor/extractor.go:144-318 | the outcome exactly: an error and no change for an unknown session, nothing new exactly when no message is above the watermark, and else completed, contentless, failed or poisoned exactly under the conditions of the source; the watermark moves exactly on completed, contentless and poisoned passes, which clear the attempts, and a failed pass counts one |
| MemoryExtractor.Extractor.Finish | internal/memory/extractor/extractor.go:181-318 | the pass from its loaded window on, with the same exact outcomes |
| MemoryExtractor.Extractor.Settle | internal/memory/extractor/extractor.go:279-302 | the end of a pass: completed exactly when nothing failed, else counted, and given up exactly on the last failure allowed |
| MemoryFairness.EligibleHasWindow | internal/store/memory_sessions_extract.go:68-98 | a session that passes the gate has a window to extract |
| MemoryFairness.EligibleExactly | internal/store/memory_sessions_extract.go:68-98 | over runs, a session passes the gate exactly when it is a main session of a listed platform, active within the maximal age, quiet for the quiet period, has a window to extract, and the pause for one, two or more failed passes in a row is over since the last of them began |
| MemoryFairness.ListedUnlessFull | internal/store/memory_sessions_extract.go:100-127 | a cycle lists eligible sessions only, at most as many as asked for (50 if that is not between 1 and 500), and leaves one out only for a full page attempted earlier or, at the same time, active no less recently |
| MemoryFairness.ListedInOrder | internal/store/memory_sessions_extract.go:100-127 | and in that order |
| MemoryFairness.SomeListing | internal/store/memory_sessions_extract.go:100-127 | every table has such a listing |
| MemoryFairness.PassedOver | internal/store/memory_sessions_extract.go:100-127 | passing a session over moves a full page of sessions from ahead of it to behind it |
| MemoryFairness.WaitingIsBounded | internal/store/memory_sessions_extract.go:100-151 | cycles waited times the page never exceed the sessions ahead at the start plus those that arrived |
| MemoryFairness.NoStarvation | internal/store/memory_sessions_extract.go:100-151 | with a fixed set, a session that stays eligible with n others ahead is listed within n / page + 1 cycles |
| MemoryFairness.StampIsLastBegin | internal/store/memory_sessions_extract.go:143-151 | the stamp of a session is the time its last pass began |
| MemoryFairness.CycleAdvances | internal/store/memory_sessions_extract.go:100-151 | a stretch of a run in which every listed session begins a pass puts all of them behind everything attempted before |
| MemoryFairness.CyclesAreHistory | internal/store/memory_sessions_extract.go:100-151 | so the listings of such a run are a history, and the bounds on waiting hold of it |
| SchemaShape.FixedPoints | internal/mcp/optimize.go:124-205 | pruning is the identity exactly on clean trees |
| SchemaShape.Idempotent | internal/mcp/optimize.go:124-205 | pruning twice is pruning once, for every JSON value |
| SchemaShape.NeverAdds | internal/mcp/optimize.go:124-205 | pruning only leaves members out |
| SchemaShape.SpelledStay | internal/mcp/optimize.go:135-150 | no keyword that holds schemas is removable |
| SchemaShape.KeepsShape | internal/mcp/optimize.go:170-180 | a schema keeps all its property names and positions |
| SchemaShape.KeepsOthers | internal/mcp/optimize.go:135-168 | every keyword that is neither one of the ten annotations nor a vendor extension nor holds schemas stays with its value |
| SchemaShape.GoneExactly | internal/mcp/optimize.go:135-150 | exactly the ten listed keywords and those beginning with `x-` go |
| SchemaShape.StaysExactly | internal/mcp/optimize.go:152-205 | under each of the listed keywords the schemas of a map or list are pruned one by one, and every other value is as it was |
| SchemaShape.Vocabulary | internal/mcp/optimize.go:135-163 | pruning deletes exactly what puts no demand on an instance, and goes into exactly the keywords that hold schemas |
| SchemaShape.WalkPruned | internal/mcp/optimize.go:124-205 | in a pruned document a JSON pointer of any length leads to what pruning made of its target, and nowhere if and only if it led nowhere before or a step of its path was dropped |
| SchemaShape.IdsVanish | internal/mcp/optimize.go:135-142 | in a pruned document no `$id` of the root or of a definition leads anywhere |
| SchemaShape.VanishesExactly | internal/mcp/optimize.go:124-205 | a reference that led somewhere is lost if and only if it goes by `$id` or a step of its path is dropped |
| SchemaMeaning.PruningPreservesMeaning | internal/mcp/optimize.go:124-205 | to every reading of a safe schema that stands alone belongs a reading of its pruned form that accepts the same instances, and the other way round, through recursive references and whatever the remaining keywords mean |
| SchemaMeaning.MeaningIsTheSame | internal/mcp/optimize.go:124-205 | if in addition the pruned form is guarded, any reading of the one agrees with any reading of the other |
| SchemaMeaning.SingleExactly | internal/mcp/optimize.go:156-157 | under each of items, if, then, else and not, a document keeps its meaning if and only if its single schema does when its members are pruned |
| SchemaMeaning.PropertiesExactly | internal/mcp/optimize.go:182-190 | properties there keep their meaning if and only if every one with the name of a removed keyword accepts everything and every one with the name of a keyword that holds schemas accepts the same as before |
| SchemaMeaning.ConstantExactly | internal/mcp/optimize.go:182-190 | a constant there keeps its meaning if and only if there is nothing to prune in its value |
| SchemaMeaning.TitlePropertyLost | internal/mcp/optimize.go:182-193 | an item refused because of its title is accepted after pruning |
| SchemaMeaning.HarmlessTitle | internal/mcp/optimize.go:182-193 | a title property that accepts everything is no loss |
| SchemaMeaning.ConstantTitleLost | internal/mcp/optimize.go:182-193 | a constant item with a title changes its meaning |
| SchemaMeaning.LostReferenceExactly | internal/mcp/optimize.go:135-142 | a document whose own reference is lost keeps its meaning if and only if nothing met both the target and the keywords beside the reference |
| SchemaWitnesses.RecursionKept | internal/mcp/optimize.go:124-205 | a recursive document with a title: both readings exist and agree |
| SchemaWitnesses.NamedTreeLost | internal/mcp/optimize.go:135-142 | a safe recursive document that refers to itself by its `$id` from inside a keyword pruning does not enter: both readings exist and an instance is lost |
| SchemaWitnesses.ReferenceLost | internal/mcp/optimize.go:124-205 | any document of this form whose reference is lost refuses afterwards what the target accepts, and both readings exist |
| SchemaWitnesses.IdReferenceLost | internal/mcp/optimize.go:135-142 | a reference to a definition by `$id`: everything is accepted before and nothing after |
| SchemaWitnesses.PointerLost | internal/mcp/optimize.go:124-168 | a reference into an `x-` member of a definition: the same |
| SchemaReadings.ReadingExtends | internal/mcp/optimize.go:124-205 | a set of verdicts that solves the equations of the schemas that refer like the document extends to a reading of all schemas |
| SchemaReadings.ReadingExists | internal/mcp/optimize.go:124-205 | a document in which at most n references follow one another in place has a reading, recursive references under keywords that go down into the instance included |
| SchemaReadings.ReadingIsUnique | internal/mcp/optimize.go:124-205 | and only one |
| ToolModel.Pigeonhole | internal/mcp/optimize.go:245-263 | as many names as asked for, all known and none twice, are a permutation of distinct names |
| ToolModel.BytesAreEncoded | internal/mcp/optimize.go:273-274 | sizes are bytes of the UTF-8 encoding |
| ToolOptimizer.WeightAdds | internal/mcp/optimize.go:317-327 | the weight of a batch is the sum of the sizes in it, however it is cut |
| ToolOptimizer.BatchesCover | internal/mcp/optimize.go:312-332 | batches are not empty, make up the list, exceed the budget only alone, and could not have taken the next tool |
| ToolOptimizer.BatchBySize | internal/mcp/optimize.go:312-332 | the loop computes those batches |
| ToolOptimizer.CheckNames | internal/mcp/optimize.go:245-263 | accepts exactly lists of the right length with known names, none twice |
| ToolOptimizer.AskAll | internal/mcp/optimize.go:235-243 | the answers in batch order, or failure if any batch fails |
| ToolOptimizer.CollectExactly | internal/mcp/optimize.go:235-243 | there is a result exactly when every batch is answered, and it is the answers in the order of the batches |
| ToolOptimizer.KeepSmaller | internal/mcp/optimize.go:265-278 | an answer that is not strictly smaller gives way to the pruned original of its name |
| ToolOptimizer.GuardHolds | internal/mcp/optimize.go:245-280 | checked and filtered answers name the tools one to one, each the original with its schema pruned or with fewer bytes than that |
| ToolOptimizer.OptimizeTools | internal/mcp/optimize.go:209-281 | succeeds exactly when every batch is answered and the names match, and then the result is guarded, whatever the model says |
| OptimizerResponse.SwapKeepsNames | internal/middleware/optimizer.go:80-96 | the served list has the live names in the live order |
| OptimizerResponse.ServedToolsAreGuarded | internal/middleware/optimizer.go:62-96 | tools served from a list made for the live tools are pruned or strictly smaller |
| OptimizerResponse.ProcessResponse | internal/middleware/optimizer.go:33-121 | replaces the tools under all conditions of the source and keeps names and sibling fields, otherwise changes nothing |
| HealthBudget.OneRecovery | internal/proxy/health.go:161-238 | at most one background recovery per server, and the flag stands for it |
| HealthBudget.AttemptBudget | internal/proxy/health.go:161-238 | at most three attempts between resets, and none may start after the third |
| HealthBudget.AttemptSpacing | internal/proxy/health.go:161-238 | attempts between resets are at least five minutes apart |
| HealthBudget.ErrorNeedsFailures | internal/proxy/health.go:121-154 | a server is marked only after three failing probes in a row, the last just made |
| HealthBudget.MarkStandsExactly | internal/proxy/health.go:131-146 | the count behind the mark still stands if and only if no reset came between count and mark |
| HealthBudget.MarkedAfterReset | internal/proxy/health.go:131-146 | a run in which a manual reset comes between and the server is marked all the same |
| HealthMonitor.HealthMonitor.constructor | internal/proxy/health.go:44-54 | nothing tracked |
| HealthMonitor.HealthMonitor.ResetFailCount | internal/proxy/health.go:240-244 | forgets the failing probes of one server |
| HealthMonitor.HealthMonitor.CheckRunning | internal/proxy/health.go:121-154 | marks exactly on the third or a later failure in a row, whatever resets and recoveries come between count and mark; the count still stands afterwards if and only if none of them reset the server |
| HealthMonitor.HealthMonitor.CountFailure | internal/proxy/health.go:131-135 | counts one failure |
| HealthMonitor.HealthMonitor.TryRecover | internal/proxy/health.go:161-238 | starts exactly when no recovery runs, five minutes have passed since the last attempt and fewer than three were made; then the attempt is counted and stamped, and a retry that succeeds forgets all about the server |
| HealthMonitor.HealthMonitor.BeginAttempt | internal/proxy/health.go:184-210 | stamps and counts the attempt |
| HealthMonitor.HealthMonitor.ResetRecoveryState | internal/proxy/health.go:249-255 | forgets all about one server |
| HealthMonitor.HealthMonitor.FinishBackground | internal/proxy/health.go:212-236 | a background recovery that succeeded forgets all about the server, one that failed nothing |
| HealthMonitor.HealthMonitor.LeaveBackground | internal/proxy/health.go:213-217 | the flag falls and no recovery is left |
| RemoteProofs.OneRequest | internal/proxy/remote_proxy.go:149-224 | without a credential nothing goes out; otherwise the last exchange is the request under its credential and the right session, a reply of 200 returns its body and names the session to keep, and any other returns nothing |
| RemoteProofs.SendReturns | internal/proxy/remote_proxy.go:101-129 | a whole send returns the body of a 200 to its last request and nothing else, and does so whenever credentials are to be had |
| RemoteProofs.NoRetry | internal/proxy/remote_proxy.go:101-129 | without a 401, OAuth, a manager and a successful refresh there is no second request |
| RemoteProofs.AtMostFive | internal/proxy/remote_proxy.go:101-129 | one send makes at most five exchanges for any tokens, statuses and session ids |
| RemoteProofs.FiveHappen | internal/proxy/remote_proxy.go:101-129 | and five do happen |
| RemoteProofs.RetryAfter401 | internal/proxy/remote_proxy.go:101-129 | after a 401 and a refresh a session is opened anew, the request goes out again and its answer is returned |
| RemoteProofs.InitializeIsBare | internal/proxy/remote_proxy.go:183-199 | no initialize carries a session id |
| RemoteProofs.CoherentExactly | internal/proxy/remote_proxy.go:149-224 | a request keeps session and token together unless the token changes twice within it, before the session is re-opened and before the request goes out, and the reply to the request is a success that names a session; then it does not |
| RemoteProofs.SendCoherentExactly | internal/proxy/remote_proxy.go:101-129 | a whole send does if and only if that does not happen in the request, or in its repetition when there is one |
| RemoteProofs.IncoherentSend | internal/proxy/remote_proxy.go:149-224 | and a send from a coherent state in which it does |
| RemoteProofs.NotifyCoherentExactly | internal/proxy/remote_proxy.go:76-98 | a notification does if and only if there is no session or no new token |
| RemoteProofs.NotificationHidesRefresh | internal/proxy/remote_proxy.go:76-98 | after a notification with a new token the next request sends the old session with it instead of opening a new one |
| RemoteProxy.RemoteProxy.ApplyAuth | internal/proxy/remote_proxy.go:42-73 | the credential, and a change exactly when the token differs from a known last one |
| RemoteProxy.RemoteProxy.DoSend | internal/proxy/remote_proxy.go:149-224 | one request, re-opening the session first when the token changed, its body, status and session as the reply says; the calls nest at most two deep because the session is gone before the inner one |
| RemoteProxy.RemoteProxy.Send | internal/proxy/remote_proxy.go:101-129 | the body of a 200 to the last request, or nothing; the retry after a 401; at most five exchanges |
| RemoteProxy.RemoteProxy.SendNotification | internal/proxy/remote_proxy.go:76-98 | the notification and the token it leaves behind |
| MiddlewareConfigs.Index | internal/store/middleware.go:62-79 | the last global and own row of each name |
| MiddlewareConfigs.Merge | internal/store/middleware.go:81-99 | an own row wins and inherits an empty configuration, otherwise an enabled global one applies |
| MiddlewareConfigs.EffectiveExactly | internal/store/middleware.go:81-99 | the last own row applies, with the global configuration if its own is empty or `{}`; without one the last global row if it is enabled; otherwise nothing |
| MiddlewareConfigs.SortedSorts | internal/store/middleware.go:106-111 | ordered by priority, a permutation |
| MiddlewareConfigs.SortedStable | internal/store/middleware.go:106-111 | equal priorities keep their order |
| MiddlewareConfigs.SinkLeft | internal/store/middleware.go:106-111 | the inner loop inserts one row by swaps |
| MiddlewareConfigs.SortByPriority | internal/store/middleware.go:106-111 | the in-place sort computes that order |
| MiddlewareConfigs.Collect | internal/store/middleware.go:101-105 | every merged row once, in any order |
| MiddlewareConfigs.GetForServer | internal/store/middleware.go:48-114 | exactly the effective rows, one per name, ordered by priority |
| MiddlewareConfigs.SomeAnswer | internal/store/middleware.go:48-114 | every table has such an answer |
| MiddlewareConfigs.OneAnswerExactly | internal/store/middleware.go:101-111 | the table determines the answer if and only if no two effective rows share a priority |
| MiddlewareConfigs.EitherWayRound | internal/store/middleware.go:101-111 | a table of two rows with two answers |
| MiddlewarePipeline.BuiltFrom | internal/middleware/middleware.go:203-230 | the stages are the enabled, constructible rows and no others, in the order of the rows |
| MiddlewarePipeline.RanExactly | internal/middleware/middleware.go:63-85 | the outcome is that of the whole pipeline and fixes how many stages ran |
| MiddlewarePipeline.ThroughExactly | internal/middleware/middleware.go:63-85 | a message gets through exactly when each stage accepts what the one before made of it, and comes out as the last made it |
| MiddlewarePipeline.Pipeline.ProcessRequest | internal/middleware/middleware.go:63-72 | the request visits the middleware from first to last, each working on what the one before made, up to and including the first that fails |
| MiddlewarePipeline.Pipeline.ProcessResponse | internal/middleware/middleware.go:76-85 | the response visits it from last to first in the same way |
| MiddlewarePipeline.BuildPipeline | internal/middleware/middleware.go:203-230 | the enabled, constructible rows in their order |
| CommandText.RoundTripExactly | internal/web/handlers.go:3349-3411 | printing then parsing gives the arguments back if and only if none is empty or has a double quote, single quotes occur only beside blanks, and the line neither starts nor ends in other white space |
| CommandText.LoneArgumentLost | internal/web/handlers.go:3349-3411 | every other argument is lost even alone |
| CommandText.ApostropheLost | internal/web/handlers.go:3366-3367 | for instance one with an apostrophe |
| CommandText.Conserved | internal/web/handlers.go:3358-3378 | the parser keeps or eats every character but blanks |
| CommandText.QuotedTogether | internal/web/handlers.go:3358-3378 | either quotation mark groups what it encloses, the other one included |
| CommandText.JoinQuoted | internal/web/handlers.go:3401-3411 | the printer's loop |
| CommandText.ParseCommand | internal/web/handlers.go:3349-3383 | the parser's loop |
| EnvText.RoundTripExactly | internal/web/handlers.go:3332-3420 | printing in any key order then parsing gives the map back if and only if keys and values are trimmed and free of newlines, and keys have no equals sign and no leading hash |
| EnvText.VariablesLost | internal/web/handlers.go:3332-3420 | variables that do not come back |
| EnvText.ParsedIsGood | internal/web/handlers.go:3332-3345 | parsing yields nothing but such maps |
| EnvText.LineSets | internal/web/handlers.go:3334-3343 | a line that is no comment sets the trimmed text before its first equals sign to the trimmed text after it |
| EnvText.LineSetsNothing | internal/web/handlers.go:3334-3343 | blank lines, comments and lines without an equals sign set nothing |
| EnvText.LastLineCounts | internal/web/handlers.go:3334-3343 | of several lines that set a name the last counts |
| EnvText.SplitUnlines | internal/web/handlers.go:3413-3420 | splitting undoes joining for lines without breaks |
| EnvText.EnvToText | internal/web/handlers.go:3413-3420 | the printer's loop |
| EnvText.ParseEnvVars | internal/web/handlers.go:3332-3345 | the parser's loop |

## Left out

- The database is a value: rows are sequences and maps, statements are atomic, and no SQL is parsed. Columns that are only displayed (last error, last attempt time, created and updated times) are left out.
- Encryption of stored payloads and tokens: a row decrypts or it does not.
- The HTTP, JSON-RPC and SSE encodings, and JSON as text: messages are values, and schemas are trees without duplicate members.
- Generated row ids and request ids: an id is given with the event, and enqueued ids are new.
- Clocks are monotone real numbers; wall-clock jumps are left out.
- Text is a sequence of Unicode characters; byte strings that are not UTF-8 are left out.
- ArchiveQueue.Conserved: a reply that the destination sent but that never arrived counts as no reply, so the destination may hold a payload twice (delivery is at least once).
- MemoryFairness.NoStarvation: for cycles that begin a pass over every session they list, on a clock that moves on; a pass over a window without new content completes without a stamp, and then moves its watermark instead.
- Message deletion does not occur outside migrations and is left out.
- SchemaMeaning.PruningPreservesMeaning: a schema stands alone when every reference in it, under whatever keyword, is a JSON pointer whose target is not dropped and has itself nothing to lose, and no schema below its root bears an `$id` unless there are no references at all. The condition is sufficient; exact conditions are proved for the forms of `PropertiesExactly`, `ConstantExactly` and `LostReferenceExactly`. Percent-encoded pointers, `$anchor`, `$dynamicRef`, `$recursiveRef`, remote references, what `#` means under a nested `$id`, a change of dialect by a removed `$schema`, and keywords that depend on annotation results (`unevaluatedProperties`, `unevaluatedItems`) are left out. References by `$id` are modelled for the ids of the root and its definitions.
- SchemaMeaning.PropertiesExactly: the exact conditions are for single schemas that hold only `properties` or only `const`; for all others `PruningPreservesMeaning` gives a sufficient condition and `SingleExactly` reduces the question to the single schema itself.
- SchemaReadings.ReadingExists: for documents in which references do not run in circles without going down into the instance, and for remaining keywords that apply schemas to parts of the instance only; a document that refers to itself under `not` may have no reading, and keywords that apply schemas to other values, such as `propertyNames`, are covered by `PruningPreservesMeaning` alone.
- OptimizerResponse.ServedToolsAreGuarded: equal hashes are taken to mean equal tools.
- RemoteProofs.AtMostFive: concurrent sends on the same proxy are left out.
- RemoteProofs.CoherentExactly: access tokens are not empty.
- MiddlewareConfigs.GetForServer: rows of equal priority come in the order in which a Go map is walked, which is arbitrary, so the contract leaves their order open; `OneAnswerExactly` says when that leaves one answer.
- The other concrete middleware (sanitizer, sizer, alerter, archiver payloads), the web handlers, Docker and container management, the access profiles, full-text search and the command-line tools are not modelled.
