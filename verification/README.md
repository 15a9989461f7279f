# libtradier in Dafny

libtradier is a C++ client for the Tradier brokerage API. Most of it moves JSON between a
network and plain records; a few parts contain real algorithms and protocols. This project
models those parts and proves what they guarantee on every input, every run and every
interleaving:

| file | part of the library |
|---|---|
| `ThreadPool.dfy` | the worker pool, its condition variable and its shutdown |
| `RateLimiter.dfy` | the fixed-window limiter |
| `HttpRetry.dfy` | the request loop with retries, limiter and statistics, and `retryWithBackoff` |
| `BulkConvert.dfy`, `BulkEvents.dfy` | the blocked AVX2 paths against their scalar counterparts |
| `Base64.dfy`, `Query.dfy` | base64, base64url, percent-encoding and GET/DELETE queries |
| `Auth.dfy` | the authorization URL, the OAuth state cache and the PKCE pair |
| `ThreadManager.dfy`, `Logger.dfy` | the thread registry's shutdown and the bounded asynchronous logger |
| `MultiLeg.dfy` | the form of a multi-leg order |

`dafny verify dfyconfig.toml` checks everything.

How the source is represented:

- Concurrent parts are step systems: `Enabled` and `Apply` give one step per section under a
  mutex and per unlocked atomic access, and a theorem quantifies over every sequence of enabled
  steps. Beside each there is a class with the source's fields and one method per section,
  each proved to make exactly its step. Three methods string steps together: a join loop waits
  for threads, so `Pool.ShutdownTail` and `Manager.StopLocked` let the thread being joined run to
  its end at that point (`Pool.RunUntilExit`); what may happen in any other order is covered by
  the theorems over runs.
- Loops and objects are imperative methods and classes proved against small functions, and
  the results are lemmas about those functions.
- C++ strings are sequences of bytes (characters below 256). Integers are unbounded. Delays are
  computed over the reals and truncated toward zero, as `duration_cast` does.
- Clock readings, random bytes, SHA-256, `std::stod`, `std::from_chars`, number formatting, the
  transport and event handlers are parameters. A steady or system clock never goes back.
- Decoders (`Base64.Decode`, `Percent.Decode`, `Query.Parse`) are not in the library; they are
  specifications written from sections 4 and 5 of RFC 4648 and sections 2.1 and 2.3 of RFC 3986.

Properties that one would expect and that the code does not have, each with its exact condition:

- The limiter does not keep "at most n requests in any window length": a run can get 2n
  (`SlidingBoundAttained`), 2n is the most (`SlidingBound`), and n is kept on every run exactly
  when the limit or the window is not positive (`SlidingLimitHoldsIff`). Retries take no grant.
  The repository's README also announces 120 requests a minute as the default; the code starts
  with 60 a minute, switched off, and the model follows the code.
- The two retry loops part on status 429 and on statuses below 200 or from 300 to 399
  (`LoopsAgreeIff`, `LoopsPart`).
- Turning asynchronous logging off does not flush the queue (`Stranded`): the call writes the
  message in flight and no other (`StoppingWrites`), so everything is written on its return
  exactly when the queue was empty at the call and no producer reached the lock during it
  (`FlushedIff`); with producers quiet, exactly when the queue was empty (`FlushedIffQuiet`).
- When SHA-256 fails after a new verifier was drawn, `getAuthorizationUrl` leaves the new verifier
  with the old challenge (`DigestFailureTearsThePair`). One call keeps verifier and challenge
  matched exactly as the last clause of `GetAuthorizationUrl` says, and over every history the pair
  matches exactly when the latest draw since the last clearing had its digest, or the missing
  digest equals the one already held (`PairMatchesIff`).
- A leg's printed side is never the name of its action (`SideIsNotTheAction`).
- AVX2 event processing skips an event whose symbol is not a string where scalar processing
  lets the error escape: AVX2 returns exactly when all types are strings or absent, scalar
  exactly when the symbols are too (`ProcessAvx2`, `ProcessScalar`, `SymbolMatters`). And when
  a bad type stops both at the same event, scalar has handed out the earlier events of its block
  and AVX2 has not (`StoppedApart`); they have made the same calls exactly when there is none, or
  when the event lies behind the last whole block (`StoppedAgreeIff`).

## Model

| member | source | states |
|---|---|---|
| ThreadPool.PoolSafety | include/tradier/common/async.hpp:59-160 | in every interleaving, accepted tasks are exactly the queued, running and finished ones, each once, and leave the queue in acceptance order; the final clearing loop never discards one; a returned `shutdown` has finished them all |
| ThreadPool.AcceptedByRun | include/tradier/common/async.hpp:126-159 | from the list of actions alone: the accepted tasks are those whose `enqueue` reached the lock before the stop flag, in that order; each is followed by one `notify_one`; takes and finishes are counted as they happen |
| ThreadPool.ShutdownRanThemAll | include/tradier/common/async.hpp:98-159 | after a returned `shutdown` exactly those tasks have finished, each once |
| ThreadPool.StepInv | include/tradier/common/async.hpp:63-158 | every step keeps conservation, shutdown order and the wake-up invariant |
| ThreadPool.ExitedStaysEmpty | include/tradier/common/async.hpp:69-71 | once one worker has exited the queue is empty for ever and nothing more is accepted |
| ThreadPool.NoLostWakeup | include/tradier/common/async.hpp:64-77 | while a task is queued and a worker sleeps, every queued task has its own worker at the lock or `notify_one` to come, and a take or a waking notification is enabled, whatever the running tasks do; while nobody sleeps, a take is enabled or all workers are busy |
| ThreadPool.ShutdownBounded | include/tradier/common/async.hpp:98-114 | after the stop flag, the number of worker steps in any run is bounded by 2·queued + what the workers owe |
| ThreadPool.ShutdownProgress | include/tradier/common/async.hpp:60-108 | while a worker remains after the stop flag, a step that decreases the measure is enabled |
| ThreadPool.ShutdownDrains | include/tradier/common/async.hpp:98-123 | from every stopped state the pool reaches the state where all workers have exited and every accepted task has finished |
| ThreadPool.Pool.constructor | include/tradier/common/async.hpp:51-92 | as many ready workers as asked for, one for zero; empty queue, invariant established |
| ThreadPool.Pool.EnqueueTest | include/tradier/common/async.hpp:126-131 | the unlocked test: refused exactly when stopped |
| ThreadPool.Pool.EnqueueLocked | include/tradier/common/async.hpp:140-156 | the locked push: exactly when not stopped the task is admitted, goes to the back of the queue and owes one notification; otherwise nothing changes |
| ThreadPool.Pool.WorkerLocked | include/tradier/common/async.hpp:63-77 | sleep, exit or take the front task, as the wait predicate and the exit test decide |
| ThreadPool.Pool.TaskEnds | include/tradier/common/async.hpp:79-87 | a task that returns or throws is finished and the worker loops |
| ThreadPool.Pool.NotifySomeone | include/tradier/common/async.hpp:158-158 | `notify_one`: some sleeper wakes, or nothing happens when there is none |
| ThreadPool.Pool.SpuriousWake | include/tradier/common/async.hpp:65-67 | a wait may end without a notification |
| ThreadPool.Pool.ShutdownSetFlag | include/tradier/common/async.hpp:103-106 | the flag is set under the lock |
| ThreadPool.Pool.ShutdownNotifyAll | include/tradier/common/async.hpp:108-108 | every sleeper wakes |
| ThreadPool.Pool.ShutdownJoin | include/tradier/common/async.hpp:110-114 | one join, possible once its worker has exited |
| ThreadPool.Pool.RunUntilExit | include/tradier/common/async.hpp:60-88 | while `shutdown` joins, the joined worker takes what is queued and exits after finitely many rounds |
| ThreadPool.Pool.ShutdownClear | include/tradier/common/async.hpp:116-123 | the clearing step finds an empty queue and every accepted task finished |
| ThreadPool.Pool.DiscardQueue | include/tradier/common/async.hpp:116-122 | the clearing loop empties any queue |
| ThreadPool.Pool.ShutdownTail | include/tradier/common/async.hpp:110-123 | from any state of the workers, joining in order and clearing return with all workers exited, nothing dropped and every accepted task finished |
| RateLimiting.SlidingBound | include/tradier/common/async.hpp:339-382 | over every run with a non-decreasing clock, every closed interval of one window length holds at most twice the limit |
| RateLimiting.RunShape | include/tradier/common/async.hpp:343-351 | the invariant behind it: at most the limit in the current window and at most the limit within reach before it |
| RateLimiting.SlidingBoundAttained | include/tradier/common/async.hpp:339-354 | for every positive limit and duration and every time of creation some run reaches exactly twice the limit |
| RateLimiting.SlidingLimitHoldsIff | include/tradier/common/async.hpp:339-354 | whenever the limiter was created, the plain limit holds in every sliding interval of every run exactly when limit or duration is not positive |
| RateLimiting.RefusalIsJustified | include/tradier/common/async.hpp:348-353 | a refusal implies that the limit was used up within the last window length |
| RateLimiting.NothingEverGranted | include/tradier/common/async.hpp:375-381 | without a positive limit no attempt of any run is granted |
| RateLimiting.RateLimiter.constructor | include/tradier/common/async.hpp:334-337 | a window that starts now with nothing granted |
| RateLimiting.RateLimiter.TryAcquire | include/tradier/common/async.hpp:339-354 | one attempt: the grant history grows by this moment exactly when granted |
| RateLimiting.RateLimiter.WaitForSlot | include/tradier/common/async.hpp:356-365 | for a sole caller with a positive limit and an advancing clock the loop terminates with exactly one grant; each wait asks for exactly what is left of the full window |
| RateLimiting.RateLimiter.Bounded | include/tradier/common/async.hpp:324-383 | the sliding bound for whatever calls were made on one limiter object |
| HttpRetry.HttpClient.constructor | src/common/http_client.cpp:145-163 | the defaults: 60 a minute, limiting and retries off, three retries from 1000 ms doubling |
| HttpRetry.HttpClient.PerformRequest | src/common/http_client.cpp:239-394 | by status numbers, the attempt it stops at; its response, the retry schedule up to it, exactly one grant when limiting is on and none otherwise; a reply counts as successful exactly from 200 to 299, else as failed; wait and latency are booked |
| HttpRetry.HttpClient.TakeSlot | src/common/http_client.cpp:250-258 | exactly one grant by either path; it waits, and counts that, exactly when limiting is on and the first attempt is refused |
| HttpRetry.HttpClient.Send | src/common/http_client.cpp:334-377 | the loop stops at the first outcome that needs no retry or at the budget, pausing by the schedule |
| HttpRetry.HttpClient.DeliverAndBook | src/common/http_client.cpp:334-393 | loop, bookkeeping and the entry in the history of requests |
| HttpRetry.HttpClient.Deliver | src/common/http_client.cpp:334-393 | loop and bookkeeping together; an exception skips the closing entries |
| HttpRetry.HttpClient.Record | src/common/http_client.cpp:383-391 | latency, and successful exactly for a status from 200 to 299, else failed |
| HttpRetry.HttpClient.ResetStatistics | src/common/http_client.cpp:234-237 | all counters are zero and the history starts empty again |
| HttpRetry.StatisticsBalance | src/common/http_client.cpp:244-391 | over every sequence of requests: total = successful + failed + exceptions, successful counts the final statuses from 200 to 299, transport calls = total + retried, retries stay within the budgets, waits and answered time are summed |
| HttpRetry.StopsAtUnique | src/common/http_client.cpp:338-377 | the last attempt is characterised uniquely: all before it asked for a retry, and it is the last allowed or asks for none |
| HttpRetry.HttpStopsAt | src/common/http_client.cpp:338-377 | by status numbers: the loop goes on exactly after a failed connection, 429, or 500 and above, within the budget |
| HttpRetry.AsyncStopsAt | include/tradier/common/async.hpp:396-412 | by status numbers: the loop goes on exactly after a failed connection or a status below 200, from 300 to 399, or from 500 |
| HttpRetry.RetryWithBackoff | include/tradier/common/async.hpp:387-416 | the number of calls, the result or the exception that leaves, and the pauses, including the case of no attempt |
| HttpRetry.LoopsAgree | src/common/http_client.cpp:343-373 | on streams of 2xx, 4xx other than 429, 5xx and exceptions both loops stop at the same attempt |
| HttpRetry.LoopsAgreeIff | include/tradier/common/async.hpp:398-412 | they stop at the same attempt exactly when no attempt that both reach before the last allowed one has another status |
| HttpRetry.RunBothLoops | include/tradier/common/async.hpp:387-416 | both loops on one stream: same number of calls exactly when the stream never parts them, and then the same pauses and the same outcome |
| HttpRetry.TotalBackoff | src/common/http_client.cpp:351-354 | for a whole multiplier m and r retries, (m − 1) · total = initial · (m^r − 1) |
| HttpRetry.DelayBracket | src/common/http_client.cpp:351-354 | for every real multiplier each pause is the initial delay multiplied once per earlier retry, moved toward zero by less than one millisecond |
| BulkConvert.BulkScalar | src/simd/streaming_simd.cpp:21-40 | the output is what the contributing elements give, by increasing index, and no other element contributes; the rest of the output is untouched |
| BulkConvert.BulkAvx2 | src/simd/streaming_simd.cpp:44-106 | the same with `from_chars` below the last multiple of four and `stod` after it |
| BulkConvert.Extract | src/simd/streaming_simd.cpp:54-75 | the block buffers hold exactly what each element converts to |
| BulkConvert.Pack | src/simd/streaming_simd.cpp:77-85 | one block appends its valid values |
| BulkConvert.ValuesPicked | src/simd/streaming_simd.cpp:21-106 | a number contributes itself, a non-empty text what it parses to, anything else nothing |
| BulkConvert.AgreeOnInput | src/simd/streaming_simd.cpp:44-106 | both paths give the same values when the parsers agree on the strings in whole blocks |
| BulkConvert.EquivalentIffParsersAgree | src/simd/streaming_simd.cpp:21-106 | the paths agree on every input exactly when the parsers agree on every non-empty string |
| BulkEvents.ProcessScalar | src/simd/streaming_simd.cpp:140-193 | returns exactly on well-typed arrays, having handed out every event in order; otherwise the events before the first ill-typed one |
| BulkEvents.ProcessAvx2 | src/simd/streaming_simd.cpp:197-331 | returns exactly when the types are well-typed, with the count and the calls per handler of scalar processing, rearranged only inside blocks of eight; otherwise exactly the whole blocks, or the blocks and the tail, before the first bad type |
| BulkEvents.Classify | src/simd/streaming_simd.cpp:211-224 | the flags of one block, or the escape at its first type that is not a string |
| BulkEvents.TradePass | src/simd/streaming_simd.cpp:226-251 | the trades of one block in order |
| BulkEvents.QuotePass | src/simd/streaming_simd.cpp:253-280 | the quotes of one block in order |
| BulkEvents.Dispatch | src/simd/streaming_simd.cpp:292-327 | one event goes to at most one handler |
| BulkEvents.TradeReadIff | src/simd/streaming_simd.cpp:155-169 | a value is read as trade e exactly when each key says the field of e: text or absent, number, parsable text, or zero |
| BulkEvents.QuoteReadIff | src/simd/streaming_simd.cpp:171-186 | the same for quotes |
| BulkEvents.SomethingSaid | src/simd/streaming_simd.cpp:118-137 | every JSON value says a trade, a quote or neither |
| BulkEvents.EventsArrive | src/simd/streaming_simd.cpp:140-331 | however a list of events is written, both paths hand each handler exactly its events, in order, with every field as written, and count the calls that returned |
| BulkEvents.PlainEventsArrive | src/simd/streaming_simd.cpp:140-331 | events written plainly, key by key, arrive unchanged |
| BulkEvents.Avx2MatchesScalar | src/simd/streaming_simd.cpp:140-331 | for every array and every pair of handlers: same call sequence per handler, same count, and a permutation of calls that never leaves a block of eight |
| BulkEvents.SidesAlone | src/simd/streaming_simd.cpp:226-280 | what one handler sees does not depend on how its calls are interleaved with the other's |
| BulkEvents.SymbolMatters | src/simd/streaming_simd.cpp:151-152 | an event on which the two paths differ |
| BulkEvents.StoppedAgreeIff | src/simd/streaming_simd.cpp:211-224 | stopped by a type at index k, scalar is ahead by exactly the calls of the block before k, so the paths agree exactly when there are none or k lies in the tail |
| BulkEvents.StoppedApart | src/simd/streaming_simd.cpp:211-224 | an array on which they differ |
| Base64.Base64Encode | src/common/utils.cpp:19-64 | the streaming loop with its three-byte buffer and padded final flush computes the encoding |
| Base64.FullGroup | src/common/utils.cpp:36-45 | a full buffer adds its four characters |
| Base64.FinalFlush | src/common/utils.cpp:48-61 | zero fill, remaining characters and padding |
| Base64.RoundTrip | src/common/utils.cpp:19-64 | the RFC 4648 decoder yields b on s exactly when s is the encoding of b |
| Base64.EncodeLength | src/common/utils.cpp:19-64 | four characters per three bytes, rounded up |
| Base64.Base64UrlEncode | src/auth.cpp:273-321 | the encoding with two characters replaced and the padding erased |
| Base64.UrlRoundTrip | src/auth.cpp:273-321 | length (4n + 2) / 3, url-safe alphabet, and an RFC 4648 decoder that inverts it |
| Base64.UrlInjective | src/auth.cpp:273-321 | different bytes have different url forms |
| Percent.UrlEncode | include/tradier/common/utils.hpp:45-59 | the loop computes the percent-encoding |
| Percent.OneByte | include/tradier/common/utils.hpp:51-56 | one byte is copied exactly when RFC 3986 lists it as unreserved, and otherwise becomes a percent sign and two lower-case hexadecimal digits |
| Percent.EncodeJoin | include/tradier/common/utils.hpp:50-57 | texts are encoded piece by piece |
| Percent.RoundTrip | include/tradier/common/utils.hpp:45-59 | an RFC 3986 decoder inverts it on every byte string |
| Percent.Alphabet | include/tradier/common/utils.hpp:50-56 | only unreserved characters and '%' come out |
| Percent.FixedPoint | include/tradier/common/utils.hpp:51-52 | a text is left alone exactly when all its characters are unreserved |
| Query.BuildUrl | src/common/http_client.cpp:270-279 | the loop appends '?' and the joined pairs, or nothing for no parameters |
| Query.AppendPair | src/common/http_client.cpp:274-278 | one round appends the separator unless first, and the encoded pair |
| Query.QueryRoundTrip | src/common/http_client.cpp:270-279 | splitting on '&' and the first '=' and decoding gives back every pair in order |
| Query.MapRoundTrip | src/common/http_client.cpp:270-279 | for every parameter map the query gives back exactly that map, in key order |
| Query.MapInjective | src/common/http_client.cpp:270-279 | different maps never give the same query |
| Query.EntriesAreTheMap | src/common/http_client.cpp:274-274 | iterating a `std::map` visits its entries once, in the order of `std::string` |
| Query.LessIff | src/common/http_client.cpp:274-274 | the order of `std::string`: the first difference decides, a proper prefix comes first |
| AuthUrl.RandomString | src/auth.cpp:229-241 | one of 66 unreserved characters per random byte, so percent-encoding leaves the string alone |
| AuthUrl.CharsetIs | src/auth.cpp:230-230 | the table is A to Z, a to z, 0 to 9 and the four marks |
| AuthUrl.DrawsDiffer | src/auth.cpp:236-238 | random bytes with different remainders modulo 66 give different characters |
| AuthUrl.StateComesBack | src/auth.cpp:351-364 | for every client id, redirect URI, scope and challenge, `extractStateFromUrl` reads the state back unchanged |
| AuthUrl.ExtractIsLeftmost | src/auth.cpp:776-783 | v is extracted exactly when it is captured by the leftmost match of the expression |
| AuthUrl.FindState | src/auth.cpp:776-783 | the search stops at the state parameter and captures up to the next '&' |
| AuthUrl.SkipParameter | src/auth.cpp:776-783 | a parameter with another name is passed over, whatever its value |
| AuthUrl.QueryComesBack | src/auth.cpp:351-364 | the URL's query parses back to all parameters of the request, in order |
| AuthUrl.ParametersAreWanted | src/auth.cpp:351-362 | names and values of the request, in order, the challenge with method S256 exactly when there is one |
| AuthUrl.EndpointsArePlain | src/auth.cpp:205-223 | neither authorization endpoint contains a delimiter |
| AuthState.AuthService.constructor | src/auth.cpp:225-227 | the endpoint of the environment, written out, and an empty cache, state and pair that agree with an empty history |
| AuthState.AuthService.CleanupExpiredStates | src/auth.cpp:323-334 | exactly the expired entries go |
| AuthState.AuthService.GetAuthorizationUrl | src/auth.cpp:340-365 | on success the URL is the endpoint and a query that parses to response type, client id, redirect URI, scope, current state and, exactly with PKCE, the challenge, which decodes to the digest of the verifier; the state is readable from it; state and verifier come from the random bytes; what each failure leaves behind; exactly when verifier and challenge match |
| AuthState.AuthService.Prepare | src/auth.cpp:343-349 | the state and pair part of it, with each failure |
| AuthState.AuthService.IssueState | src/auth.cpp:343-344 | a new state drawn from the random bytes, current, cached and in the history |
| AuthState.AuthService.CurrentUrl | src/auth.cpp:351-364 | the URL carries exactly the current request, and the current state is read back from it |
| AuthState.AuthService.RecordIssue | src/auth.cpp:344-344 | the cache holds the state at this time, otherwise unchanged, and the history one more issue |
| AuthState.AuthService.DrawPair | src/auth.cpp:347-348 | a new verifier drawn from the random bytes with a challenge that decodes to its digest, or with the old challenge when the digest throws |
| AuthState.DigestFailureTearsThePair | src/auth.cpp:346-349 | a first call whose digest fails leaves a verifier that does not match |
| AuthState.PairMatchesIff | src/auth.cpp:346-349 | over every history, the pair matches exactly when the latest draw since the last clearing was digested, or on a digest collision |
| AuthState.AuthService.PairMatchesNowIff | src/auth.cpp:346-349 | the same for whatever calls were made on one service object |
| AuthState.AuthService.ValidateState | src/auth.cpp:639-653 | accepted exactly when the unpruned history says so, and then consumed |
| AuthState.AuthService.Consume | src/auth.cpp:642-652 | the state leaves the cache, expired or not; accepted exactly when not expired |
| AuthState.LookupDecides | src/auth.cpp:642-652 | the pruned cache decides as the unpruned history does, and still agrees with it afterwards |
| AuthState.AuthService.ClearState | src/auth.cpp:664-669 | cache, current state and PKCE pair are emptied |
| AuthState.AcceptsIff | src/auth.cpp:639-653 | accepted exactly when the latest issue is neither accepted, nor cleared, nor expired |
| AuthState.AcceptedOncePerIssue | src/auth.cpp:639-653 | over every history, at most one acceptance per issue |
| ThreadManager.StopJoinsEverything | src/streaming.cpp:77-162 | in every interleaving ids are distinct, joined threads are the earliest added and have ended, and after the winning `stop` returns every thread ever added is joined and the list is empty |
| ThreadManager.StartedAreJoined | src/streaming.cpp:77-162 | from the list of actions alone: the manager holds the threads started before the first `stop`, one per `addThread` that returned true, numbered by the calls that reached the mutex; a returned `stop` has joined exactly these, all ended |
| ThreadManager.NothingAfterStop | src/streaming.cpp:77-88 | once the flag is set no `addThread` returns true; after the winning `stop` returns the list stays empty |
| ThreadManager.StopAdvances | src/streaming.cpp:123-156 | the winner's steps bring it one closer to returning and no other step delays it |
| ThreadManager.StopCompletes | src/streaming.cpp:123-162 | if the threads end, the winning `stop` returns with all of them joined |
| ThreadManager.Manager.AddThreadTest | src/streaming.cpp:77-81 | the unlocked test |
| ThreadManager.Manager.AddThreadLocked | src/streaming.cpp:83-120 | true exactly when not stopping and the thread starts, and then the thread is listed under the number drawn; otherwise the list is unchanged |
| ThreadManager.Manager.StopExchange | src/streaming.cpp:123-126 | exactly one call wins |
| ThreadManager.Manager.StopTakesLock | src/streaming.cpp:130-130 | the winner takes the mutex |
| ThreadManager.Manager.ThreadFinishes | src/streaming.cpp:92-109 | a function that returns or throws ends its thread |
| ThreadManager.Manager.StopJoinsNext | src/streaming.cpp:135-140 | one join, possible once its thread has ended |
| ThreadManager.Manager.StopClears | src/streaming.cpp:156-156 | the list is emptied and the winner returns |
| ThreadManager.Manager.StopLocked | src/streaming.cpp:130-156 | whatever threads still run, the join loop and the clearing return with every added thread ended and joined |
| Logger.LoggerSafety | src/common/debug.cpp:131-218 | in every interleaving pushed = written ++ in flight ++ queued, the queue is bounded by 10000, every offered message is in exactly one place, drops are counted, and nothing is in flight in direct mode |
| Logger.LoggedByMode | src/common/debug.cpp:203-217 | from the list of actions alone: what is logged in direct mode is printed by its caller, in order, and everything else is offered to the queue |
| Logger.StepInv | src/common/debug.cpp:131-218 | every step keeps flow, accounting and mode invariants |
| Logger.LogsOnlyGrow | src/common/debug.cpp:152-160 | nothing written or pushed is ever lost, repeated or reordered |
| Logger.ConsumerProgress | src/common/debug.cpp:147-162 | while asynchronous logging is on and something is unwritten, a consumer step is enabled, and every enabled consumer step reduces the work left |
| Logger.ConsumerDrains | src/common/debug.cpp:147-162 | left alone, the consumer writes everything pushed, in order, within that bound |
| Logger.Stranded | src/common/debug.cpp:136-161 | a run after which asynchronous logging is off and a pushed message is unwritten |
| Logger.FlushedIff | src/common/debug.cpp:136-161 | once `enableAsyncLogging(false)` has returned, everything pushed is written exactly when the queue was empty at the call and no producer reached the lock during it |
| Logger.FlushedIffQuiet | src/common/debug.cpp:136-161 | with no producer under way or arriving, exactly when the queue was empty at the call |
| Logger.StoppingWrites | src/common/debug.cpp:136-161 | from the stop flag on, every run writes the message in flight and no other, and the queue only gets longer |
| Logger.AsyncLogger.LogTest | src/common/debug.cpp:203-217 | the mode test: direct print or on to the lock |
| Logger.AsyncLogger.LogUnderLock | src/common/debug.cpp:204-214 | push below the bound, count a drop at it |
| Logger.AsyncLogger.ConsumerTest | src/common/debug.cpp:148-148 | the outer loop ends exactly on the stop flag |
| Logger.AsyncLogger.ConsumerUnderLock | src/common/debug.cpp:149-160 | take the front message, or leave the inner loop |
| Logger.AsyncLogger.ConsumerPrints | src/common/debug.cpp:157-157 | the message in flight is written |
| Logger.AsyncLogger.EnableSetsMode | src/common/debug.cpp:132-133 | in direct mode the mode flag is set |
| Logger.AsyncLogger.EnableClearsStop | src/common/debug.cpp:134-134 | the stop flag is cleared |
| Logger.AsyncLogger.EnableSpawns | src/common/debug.cpp:135-135 | one new consumer |
| Logger.AsyncLogger.ResetDroppedMessages | src/common/debug.cpp:174-176 | the counter restarts and the drops so far stay in the account |
| Logger.AsyncLogger.DisableBegins | src/common/debug.cpp:136-138 | the stop flag is set |
| Logger.AsyncLogger.DisableEnds | src/common/debug.cpp:139-143 | after the join the mode is off and the queue is as it was |
| MultiLeg.BuildParams | src/trading.cpp:298-325 | an order without legs is rejected, otherwise the loop builds the form |
| MultiLeg.LegKeyInjective | src/trading.cpp:314-320 | keys of different legs or fields never collide |
| MultiLeg.HeaderKeyDiffers | src/trading.cpp:303-324 | no leg key is a header key |
| MultiLeg.DecimalBack | src/trading.cpp:316-316 | decimal printing can be read back and has no leading zero |
| MultiLeg.ReadBack | src/trading.cpp:314-321 | symbol, side and quantity text of every leg are found under its index, and nothing under any other |
| MultiLeg.LegEntries | src/trading.cpp:314-321 | the three entries of every leg with their keys and sides written out |
| MultiLeg.HeaderReadBack | src/trading.cpp:302-325 | the header entries survive, a net credit wins over a net debit, and the form has exactly those entries and three per leg |
| MultiLeg.HeaderEntries | src/trading.cpp:302-325 | class, type, duration, price and tag with their keys written out |
| MultiLeg.LegsDetermined | src/trading.cpp:302-325 | orders with the same form have the same legs up to how quantities print |
| MultiLeg.SideIsNotTheAction | src/trading.cpp:319-319 | the printed side never names the leg's action, though it tells actions apart |

## Left out

- WebSocket client, streaming session and heartbeats: their order and joining rest on a foreign stream.
- libcurl, OpenSSL, sockets, files and log line formatting: foreign code or I/O.
- POST and PUT bodies and token requests: escaped by libcurl, or not escaped at all.
- JSON response parsing, enum tables, validators and configuration: long but settled by one branch each.
- Date parsing and formatting: local and UTC conversions are mixed, so there is no general round trip.
- `Promise`, `executeAsync` and futures: results depend on object lifetime and on blocking inside workers.
- Move construction and assignment of the concurrent objects, the pool's `initialized_` flag, and the monitoring getters.
- Concurrent calls of the pool's `shutdown`, which race on the thread objects; repeated calls one after another are modelled.
- RateLimiting.RateLimiter.WaitForSlot: termination is for a sole caller, because other callers can take every new window's slots for ever; the sliding bound needs no such assumption.
- HttpRetry.HttpClient.PerformRequest: requires a retry budget of at least zero, because with a negative one the source returns a response it never initialised, and a positive limit when limiting is on, because otherwise the wait never ends.
- HttpRetry.RetryWithBackoff: an HTTP response is taken to be a success exactly when its status is 2xx.
- HttpRetry.RunBothLoops: the same budget restriction as `PerformRequest`.
- BulkEvents.ProcessAvx2: handlers throw only `std::exception`, depend only on their own earlier calls, and numeric fields stay reals instead of being cast to integers.
- BulkEvents.ProcessScalar: the same three assumptions.
- AuthState.AuthService.ValidateState: the configuration stays fixed; `setConfig` between calls can change the expiration of states already issued.
- AuthUrl.QueryComesBack: the scope list is taken already joined by spaces.
- ThreadPool.Pool.RunUntilExit: a running task comes to an end; a pool task that waits for ever blocks its join for ever.
- ThreadManager.Manager.StopLocked: every thread comes to an end, and joins succeed; a thread that stops its own manager makes its join throw and ends the process.
- Logger.LoggerSafety: calls of `enableAsyncLogging` are serialized and thread creation succeeds; level filtering happens before and is not modelled, and no claim is made about how soon the consumer sees the stop flag.
- MultiLeg.BuildParams: account validation and the submission itself; type and duration are given by their printed names.
