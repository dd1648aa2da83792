# Verified models of marty-common's stateful cores

Dafny models of the components of this repository that keep real state, and proofs of what they are for. One group of
files per component: `…Spec` files define states and steps as functions, `…Runs` and similar files prove what holds in
every run, and the file named after the component holds the same code in the form of its source, as classes and loops,
each method proved to do what the functions say.

| component | files |
|---|---|
| rate limiter | `RateLimiterSpec`, `RateLimiterHistory`, `RateLimiterRuns`, `RateLimiterAnswers`, `RateLimiter` |
| idempotency, in process | `Responses`, `IdempotencySpec`, `IdempotencyRuns`, `Idempotency` |
| idempotency, on Redis | `IdempotencyRedisSpec`, `IdempotencyRedisRuns`, `IdempotencyRedisLog`, `IdempotencyRedisReruns`, `IdempotencyRedisAnswers` |
| transactional outbox | `Base64`, `OutboxSpec`, `OutboxFlushes`, `OutboxConservation`, `OutboxPublications`, `OutboxTiming`, `OutboxProgress`, `OutboxDrain`, `Outbox` |
| permission caches | `PermissionCacheSpec`, `PermissionCacheRuns`, `PermissionCacheAges` |
| log fan-out | `LogFanoutSpec`, `LogFanout` |
| environment expansion | `EnvExpansion`, `EnvPlaceholders` |
| X.509 names | `X509Name` |
| signing-service reconciler | `RegistrySpec`, `RegistryMerge`, `RegistryUpdates`, `RegistryDrift`, `Registry` |

`dafny verify dfyconfig.toml` checks everything.

## What is modelled

**Rate limiter.** A client is a bucket of tokens and a deque of grant times. A run is any sequence of calls with a
monotone clock, by any number of clients; the periodic cleanup is part of it. The central result compares the limiter
with a reference that stores nothing but a client's grants and recomputes the token level and the window counts from
them. Times and tokens are reals, costs are not negative and one rule governs all calls of a client. The results about
token levels are for rules with a positive rate and a burst size that is not negative; those about windows hold for
every rule. A rule with rate 0 makes the source divide by zero, and the model says so.

**Idempotency, in process.** The two segments of `dispatch` that run without suspension are atomic steps; handlers of any
number of requests run between them and end with a response, an exception or a cancellation, in any order.

**Idempotency, on Redis.** Each Redis command is a step of its own, of any number of requests, with expiring keys, a
clock, failing commands, renewals whose GET and EXPIRE can be apart, both ways to release the lock, and requests
abandoned anywhere. The log of misses, starts, successes and replays records history and is read by no step.

**Outbox.** The system has committed rows and dead letters, open flushes with row locks and pending changes, and
publications, which stay when a flush is rolled back. Enqueues commit, flushes begin, publish one record, commit or
abort in any order, any number of them at once.

**Permission caches.** A 60 s cache of permission sets over a `cache_ttl` cache of memberships over a source that
changes; loads take several steps each, the last of them the way back to the caller, and interleave with each other,
with failing cache commands and with the two deletions of an invalidation.

**Log fan-out**, **environment expansion**, **X.509 names** and the **reconciler** are modelled branch by branch.

## Where the code differs from what is said of it

- The limiter's forgetting of idle clients can be noticed: if `burst_size > 3600 * requests_per_second`, a client that
  comes back after more than an hour gets a full bucket it has not earned. `ForgettingInvisibleIff` and
  `IntervalBoundedIff` give the exact condition.
- The in-process idempotency cache is said to replay for `ttl` seconds. Expired entries are only evicted every 600 s and
  the lookup does not check their age: an expired entry lets a request run exactly when an eviction is due
  (`ExpiredEntryRunsIff`), and replays of every age below `ttl` + 600 s happen and no older ones (`ReplayAgesIff`). At
  most once per `ttl` holds.
- The Redis form does not read the data key again once it has the lock, so a success can be run again by a request that
  read the data key before that success was stored (`RerunOnlyByEarlierReader`; `RerunHappens` is an instance). `RerunIff` gives the exact
  condition on the state.
- The fallback release compares and deletes in two commands; when the lease ends in between it may delete
  another request's lock (`LateFallbackDelete`), which does harm exactly when that request is inside its lease
  (`DeleteKeepsLeasesIff`, `HarmfulDeleteAdmits`). The script release never does (`ForeignLockSurvives`).
- An invalidation may be undone by a load in flight: exactly when it finds one between its fetch and its last write to
  a cache (`FreshAfterInvalidation`). Loads that are still reading or fetching do no harm.
- `_registry_needs_update` is said to return True if the registries differ. It looks at eight fields of each service, so a
  change to any other field, `auth_reference` for one, is never written back (`DriftGoesUnnoticed`). `MissedUpdateIff`
  describes every registry that is left alone although a build would change it.
- The X.509 printer escapes nothing, unlike section 2.4 of RFC 4514, so names with commas or outer white space do
  not read back; `RoundTripIff` gives the exact condition.
- A second expansion of a configuration text can replace more, because a substituted text may complete a placeholder
  with its neighbours. `IdempotentIffSafe` gives the exact condition on the substituted text; the `…Joins` lemmas are
  instances.

## Model

| member | source | states |
|---|---|---|
| RateLimiterRuns.LimiterRefinesHistory | packages/marty-common/marty_common/middleware/rate_limiter.py:223-279 | with forgetting off, or under the condition of the next row, in every run the verdict and the whole status of every call are those computed from the client's own grants alone: denied calls, other clients, statistics and forgotten buckets leave no trace |
| RateLimiterAnswers.AllowedIffGranted | packages/marty-common/marty_common/middleware/rate_limiter.py:223-279 | in every run every call is answered, and its answer says allowed if and only if the call is added to the grants of its client |
| RateLimiterAnswers.CauseIsNamed | packages/marty-common/marty_common/middleware/rate_limiter.py:246-279 | an answer names burst_limit if and only if the token level that the grants leave is below the cost, otherwise window_limit if a count over the grants of 60 s or 3600 s has reached its limit, otherwise it allows and names nothing |
| RateLimiterAnswers.GrantAnswer | packages/marty-common/marty_common/middleware/rate_limiter.py:264-279 | after a grant the stored tokens are those found less the cost, remaining is their whole part, the reset time is when a refill of that bucket first reaches the burst size, and there is no hint |
| RateLimiterAnswers.BurstAnswer | packages/marty-common/marty_common/middleware/rate_limiter.py:243-254 | after a burst denial the stored tokens are those found, remaining is their whole part, the hint is the time up to the reset time, and a wait that long earns exactly what is missing from the cost |
| RateLimiterAnswers.WindowAnswer | packages/marty-common/marty_common/middleware/rate_limiter.py:196-262 | after a window denial nothing remains and the reset time is an hour after the oldest grant of the last hour, or now if it is the minute window that is full; the hint is the time up to it, none if the reset time is 0 |
| RateLimiterAnswers.TotalCountsGrants | packages/marty-common/marty_common/middleware/rate_limiter.py:264-273 | without forgetting the stored request count of a client is the number of its grants |
| RateLimiterAnswers.ForgottenIff | packages/marty-common/marty_common/middleware/rate_limiter.py:93-102 | a call forgets another client if and only if the last cleanup was more than 300 s ago and its bucket has not been refilled for more than 3600 s |
| RateLimiterRuns.ForgettingInvisibleIff | packages/marty-common/marty_common/middleware/rate_limiter.py:93-102 | forgetting idle clients never changes any status in any run if and only if burst_size ≤ 3600 × rate, or a window limit is not positive |
| RateLimiterRuns.SameGrants | packages/marty-common/marty_common/middleware/rate_limiter.py:93-102 | under that condition a run grants the same calls with and without forgetting |
| RateLimiterRuns.ComebackIsSeen | packages/marty-common/marty_common/middleware/rate_limiter.py:93-102 | otherwise, for every such rule, a concrete run of two calls on which the second is granted with forgetting and denied without |
| RateLimiterRuns.IntervalBoundedIff | packages/marty-common/marty_common/middleware/rate_limiter.py:185-194 | the cost granted in every interval of every run is at most burst + rate × length if and only if that condition holds |
| RateLimiterRuns.RunBudget | packages/marty-common/marty_common/middleware/rate_limiter.py:185-194 | the bound over any interval of any run, cleanup included, under that condition |
| RateLimiterRuns.ComebackOverspends | packages/marty-common/marty_common/middleware/rate_limiter.py:93-102 | without the condition twice the burst is granted in a bit more than an hour |
| RateLimiterRuns.TokensInRange | packages/marty-common/marty_common/middleware/rate_limiter.py:185-194 | stored tokens stay within 0 and the burst size in every run, with and without forgetting, under every rule whose rate and burst are not negative, even on clocks that go back |
| RateLimiterRuns.WindowLimitsHold | packages/marty-common/marty_common/middleware/rate_limiter.py:196-221 | no closed 60 s or 3600 s interval of any run holds more grants than its limit (rounded up), under every rule, whatever is forgotten and however often statistics are read |
| RateLimiterRuns.WindowDecisionCountsHistory | packages/marty-common/marty_common/middleware/rate_limiter.py:196-221 | a call that has its tokens is granted exactly when the counts over the client's whole grant history are below both limits |
| RateLimiterRuns.WindowsTrackHistory | packages/marty-common/marty_common/middleware/rate_limiter.py:268-273 | the invariant behind both: the stored deque is a trimmed form of the grant history, also after statistics calls and forgetting |
| RateLimiterRuns.BurstHintHolds | packages/marty-common/marty_common/middleware/rate_limiter.py:246-254 | after a burst denial with a cost of at most the burst size, the token check passes for a cost no greater from the hinted time on, however often the client polled in vain and whatever was forgotten |
| RateLimiterRuns.HourHintHolds | packages/marty-common/marty_common/middleware/rate_limiter.py:217-219 | after an hour-window denial, a later call strictly after the hint, with only denials in between, finds the hour count of its whole grant history below the limit, exactly when the limit is positive |
| RateLimiterHistory.IntervalBudget | packages/marty-common/marty_common/middleware/rate_limiter.py:185-194 | a history in which each grant was affordable spends at most the burst plus the refill in any interval |
| RateLimiterHistory.PacedWindow | packages/marty-common/marty_common/middleware/rate_limiter.py:196-221 | if each grant found fewer than the limit in the window ending with it, no window of that width holds more, wherever it starts |
| RateLimiterHistory.TrimmedCounts | packages/marty-common/marty_common/middleware/rate_limiter.py:199-206 | popping stale entries off the deque does not change what is counted |
| RateLimiterSpec.RuleIsFirstHighest | packages/marty-common/marty_common/middleware/rate_limiter.py:171-183 | the rule of a client is the first rule for its type or for "default" that none of those outranks, and the default rule when there is none |
| RateLimiter.MemoryBackend.CleanupExpired | packages/marty-common/marty_common/middleware/rate_limiter.py:93-102 | in place, exactly the buckets last refilled before the given time are removed |
| RateLimiter.RateLimiter.RefillBucket | packages/marty-common/marty_common/middleware/rate_limiter.py:185-194 | the bucket becomes its refilled value and only its tokens and refill time change |
| RateLimiter.RateLimiter.PopStale | packages/marty-common/marty_common/middleware/rate_limiter.py:202-203 | the popleft loop drops the stale entries at the front and no others |
| RateLimiter.RateLimiter.CheckWindowLimits | packages/marty-common/marty_common/middleware/rate_limiter.py:196-221 | trims the deque in place and gives the window judgement |
| RateLimiter.RateLimiter.CheckLimit | packages/marty-common/marty_common/middleware/rate_limiter.py:223-279 | stored state and answer after a call are those of the step the runs are made of, the answer written out field by field in the body, all other buckets unchanged |
| RateLimiter.RateLimiter.GetClientStats | packages/marty-common/marty_common/middleware/rate_limiter.py:281-306 | trims one deque, changes nothing else, and reports the totals, the two counts of what is left and the last refill, or that the client is unknown |
| IdempotencyRuns.AtMostOnce | packages/marty-common/marty_common/web_middleware.py:525-562 | in every interleaving no handler for a key starts, or stores again, within ttl of a stored success for it, and handlers for one key never overlap |
| IdempotencyRuns.ExclusiveAlways | packages/marty-common/marty_common/web_middleware.py:537-562 | in-flight and cached keys are disjoint and each in-flight key has exactly one running handler, with that fingerprint, through failures and eviction |
| IdempotencyRuns.ReplaysAreFaithful | packages/marty-common/marty_common/web_middleware.py:392-433 | every replay has the status, from 200 to 299, the body, the content type and the other headers of an earlier run with the same key and fingerprint, stored less than ttl + 600 s before, and "Idempotency-Replayed" set to "true" |
| IdempotencyRuns.CachedSuccessDecides | packages/marty-common/marty_common/web_middleware.py:527-535 | within ttl of a success the same request is answered with its status, body, content type and headers, marked as a replay, one with another fingerprint is refused, and neither runs |
| IdempotencyRuns.RunningDecides | packages/marty-common/marty_common/web_middleware.py:537-540 | while a handler runs, every request with its key is told that it is in progress if the fingerprints are equal and refused as a conflict if not; nobody else is told so |
| IdempotencyRuns.ExpiredEntryRunsIff | packages/marty-common/marty_common/web_middleware.py:262-271 | in every run, a request that finds an entry older than ttl reaches the handler if and only if the last eviction was 600 s ago or more |
| IdempotencyRuns.ReplayAgesIff | packages/marty-common/marty_common/web_middleware.py:527-533 | for every ttl and age, some run replays a response of that age if and only if the age is less than ttl + 600 s |
| IdempotencyRuns.ReplayAfterTtl | packages/marty-common/marty_common/web_middleware.py:262-271 | the run that does, for every such ttl and age: an eviction just before the entry expires puts off the next one |
| IdempotencyRuns.AlwaysInv | packages/marty-common/marty_common/web_middleware.py:525-562 | the invariant of all runs: exclusive claims, sourced cache entries, every started run accounted for |
| Idempotency.IdempotencyMiddleware.EvictExpired | packages/marty-common/marty_common/web_middleware.py:262-271 | at most every 600 s removes exactly the entries older than ttl |
| Idempotency.IdempotencyMiddleware.Begin | packages/marty-common/marty_common/web_middleware.py:525-540 | the segment before the handler: new dictionaries and reply are those of the admission step |
| Idempotency.IdempotencyMiddleware.End | packages/marty-common/marty_common/web_middleware.py:541-562 | the segment after the handler: stores a 2xx response and always gives up the claim |
| IdempotencyRedisRuns.MutualExclusion | packages/marty-common/marty_common/web_middleware.py:458-498 | if no lease of a holder ends, at most one request per key is between taking the lock and having released it, by either release path |
| IdempotencyRedisRuns.LiveLeasesExclude | packages/marty-common/marty_common/web_middleware.py:352-390 | even when other leases have ended, two requests inside their leases never hold one key, as long as each fallback DELETE finds no other request inside its lease for its key |
| IdempotencyRedisRuns.ForeignLockSurvives | packages/marty-common/marty_common/web_middleware.py:368-390 | in no run does a step of one request, the script release included, remove, take or shorten another's live lock; the fallback DELETE is the one exception |
| IdempotencyRedisRuns.DeleteKeepsLeasesIff | packages/marty-common/marty_common/web_middleware.py:386-390 | a fallback DELETE, timely or late, leaves every request inside its lease the owner of its lock if and only if no other request is inside its lease for that key |
| IdempotencyRedisRuns.TimelyDeletesAreHarmless | packages/marty-common/marty_common/web_middleware.py:386-390 | in a run whose DELETEs each come within their own lease that is always so |
| IdempotencyRedisRuns.HarmfulDeleteAdmits | packages/marty-common/marty_common/web_middleware.py:386-390 | from any reachable state, any other DELETE can be followed by two requests inside their leases for one key, unless a response is stored |
| IdempotencyRedisRuns.LateFallbackDelete | packages/marty-common/marty_common/web_middleware.py:386-390 | such a run from the start |
| IdempotencyRedisRuns.LeasesAlways | packages/marty-common/marty_common/web_middleware.py:352-390 | the invariant: a request inside its lease owns the lock of its key, through renewals, releases and harmless DELETEs |
| IdempotencyRedisLog.RerunOnlyByEarlierReader | packages/marty-common/marty_common/web_middleware.py:451-498 | a handler that starts while a success for its key is unexpired belongs to a request that read the data key before that success was stored |
| IdempotencyRedisLog.NonOverlappingSucceedOncePerTtl | packages/marty-common/marty_common/web_middleware.py:451-498 | a request that reads after an earlier success was stored can only start a handler once ttl has passed since |
| IdempotencyRedisLog.ReplaysAreFaithful | packages/marty-common/marty_common/web_middleware.py:451-456 | every replay has the status, from 200 to 299, the body, the content type and the other headers of an unexpired run with the same key and fingerprint, and "Idempotency-Replayed" set to "true" |
| IdempotencyRedisAnswers.ArrivalDecided | packages/marty-common/marty_common/web_middleware.py:451-456 | in every run a request goes on past the data key if and only if all successes for its key have expired; otherwise the latest of them is replayed to its own fingerprint and any other fingerprint is refused as a conflict |
| IdempotencyRedisAnswers.SuccessIsServed | packages/marty-common/marty_common/web_middleware.py:471-495 | a handler that ends with a status from 200 to 299 has its response stored and replayed to the same request; any other end leaves the stored responses as they were |
| IdempotencyRedisAnswers.LockTakenIff | packages/marty-common/marty_common/web_middleware.py:458-465 | a request takes the lock of its key if and only if no request has it, and then for 300 s; no lock ever lasts longer than that from now |
| IdempotencyRedisAnswers.ContenderDecided | packages/marty-common/marty_common/web_middleware.py:465-469 | a request that found the lock taken is refused as a conflict if and only if a request with another fingerprint, not empty, has the lock when it looks; otherwise as in progress |
| IdempotencyRedisAnswers.LostLockNotRenewed | packages/marty-common/marty_common/web_middleware.py:352-366 | a renewal task that once does not find its own lock never renews a lock again, however the run goes on |
| IdempotencyRedisAnswers.FailedRenewalEnds | packages/marty-common/marty_common/web_middleware.py:362-366 | nor does one whose EXPIRE failed |
| IdempotencyRedisAnswers.AbandonedIsDone | packages/marty-common/marty_common/web_middleware.py:471-501 | a request that is cut off takes no further step and leaves its lock to expire |
| IdempotencyRedisReruns.RerunIff | packages/marty-common/marty_common/web_middleware.py:451-498 | in every reachable state with an unexpired success: the run can go on so that a handler for its key starts before that success expires, if and only if some request on the key has just taken the lock, or one has missed the data key and the lock can come free in time: it is free, it ends before then, its owner still holds it, or a fallback DELETE for it is under way |
| IdempotencyRedisReruns.BlockedRun | packages/marty-common/marty_common/web_middleware.py:451-498 | otherwise none starts, however the run goes on, and the state stays so until the success expires |
| IdempotencyRedisLog.RerunHappens | packages/marty-common/marty_common/web_middleware.py:451-483 | an instance from the start: a run, all leases respected, in which a second handler starts while a success is stored |
| IdempotencyRedisLog.AlwaysInv | packages/marty-common/marty_common/web_middleware.py:451-498 | the log invariant behind these, in every interleaving |
| Base64.RoundTrip | packages/marty-common/marty_common/infrastructure/outbox.py:25-34 | decoding the base64 form (section 4 of RFC 4648) of any bytes gives them back |
| OutboxConservation.HeadersRoundTrip | packages/marty-common/marty_common/infrastructure/outbox.py:25-34 | stored headers decode to the enqueued ones, empty ones to none |
| OutboxConservation.EveryEnqueueAccounted | packages/marty-common/marty_common/infrastructure/outbox.py:43-114 | in every reachable state, with flushes aborted anywhere, each committed enqueue is either one row that decodes to its message or exactly one dead letter with its fields, buried at the attempt limit |
| OutboxConservation.FlushesHoldDisjointRows | packages/marty-common/marty_common/infrastructure/outbox.py:62-78 | no two open flushes hold one row, and every held row is committed and pending |
| OutboxConservation.AlwaysInv | packages/marty-common/marty_common/infrastructure/database.py:95-109 | the invariant behind these holds through commits and rollbacks of any number of sessions |
| OutboxPublications.ProcessedIffPublished | packages/marty-common/marty_common/infrastructure/outbox.py:169-192 | a row is processed if and only if a committed flush published it, with the enqueued message, and that publish returned normally |
| OutboxPublications.PublishedOnce | packages/marty-common/marty_common/infrastructure/outbox.py:169-192 | successes in flushes that were not rolled back are unique per row |
| OutboxPublications.FlushPublishesInOrder | packages/marty-common/marty_common/infrastructure/outbox.py:62-78 | one flush publishes in increasing id order |
| OutboxTiming.PublishedWhenDue | packages/marty-common/marty_common/infrastructure/outbox.py:62-78 | in every run each publication is of a committed row that is not processed and whose available_at has been reached |
| OutboxTiming.NotBeforeAsked | packages/marty-common/marty_common/infrastructure/outbox.py:43-60 | in every run a row is published no earlier than its enqueue asked for, or than the enqueue if that gave no time, and is due at exactly that time until its first failure |
| OutboxTiming.DueAfterFailures | packages/marty-common/marty_common/infrastructure/outbox.py:84-99 | the attempts of a pending row are its failures n in committed flushes, and its available_at is the time of the last of them plus the smaller of initial × 2^(n−1) and the maximal delay |
| OutboxTiming.RetriesWait | packages/marty-common/marty_common/infrastructure/outbox.py:181-219 | after the n-th failure of a row at time t in a flush that is not rolled back, every later publication of the row is at t + min(initial × 2^(n−1), maximal delay) or later |
| OutboxFlushes.FirstIdsAreLowest | packages/marty-common/marty_common/infrastructure/outbox.py:66-73 | a claim takes the lowest ids in order, as many as the limit allows, and leaves only larger ones |
| OutboxFlushes.StepKeepsFlushes | packages/marty-common/marty_common/infrastructure/outbox.py:62-114 | every step of the system keeps all open sessions sound and disjoint, whatever other flushes commit or abort |
| OutboxProgress.RetryDelayDoubles | packages/marty-common/marty_common/infrastructure/outbox.py:216-219 | the delay starts at the initial one and doubles with each failure until it stays at the cap |
| OutboxProgress.RetryDelayMonotone | packages/marty-common/marty_common/infrastructure/outbox.py:216-219 | delays never fall, never go below zero and never exceed the cap |
| OutboxProgress.CommitDropsWork | packages/marty-common/marty_common/infrastructure/outbox.py:84-114 | each committed flush lowers the attempts left over all pending rows by at least the rows it claimed |
| OutboxProgress.ClaimsBounded | packages/marty-common/marty_common/infrastructure/outbox.py:169-192 | over a whole run, claims settled by commits plus the attempts left never exceed max_attempts (at least 1) times the number of enqueues |
| OutboxProgress.DrainsWithoutEnqueues | packages/marty-common/marty_common/infrastructure/outbox.py:169-192 | from any reachable state, claims settled by a run without enqueues plus the attempts left never exceed the attempts left before |
| OutboxProgress.SettlingAllDrains | packages/marty-common/marty_common/infrastructure/outbox.py:169-192 | once such a run has settled as many claims as there were attempts left, nothing is pending |
| OutboxDrain.DueRowIsClaimed | packages/marty-common/marty_common/infrastructure/outbox.py:62-78 | with a positive batch size, a row that is not processed, whose available_at has been reached and that no open flush has claimed makes every new claim non-empty |
| OutboxDrain.CanAlwaysDrain | packages/marty-common/marty_common/infrastructure/outbox.py:169-192 | with a positive batch size, every reachable state can go on, without enqueues, to one in which nothing is pending |
| OutboxProgress.NoWorkNothingPending | packages/marty-common/marty_common/infrastructure/outbox.py:84-97 | no attempts are left exactly when nothing is pending |
| Outbox.OutboxSession.Enqueue | packages/marty-common/marty_common/infrastructure/outbox.py:43-60 | adds one pending row, never tried, from which a dispatcher rebuilds the enqueued message, due now unless a time is given; empty headers are stored as none |
| Outbox.OutboxSession.ClaimBatch | packages/marty-common/marty_common/infrastructure/outbox.py:62-78 | every claimed id is of a row that is not processed, due and not locked, in increasing order and within the limit; every such row is claimed, or the limit is reached by smaller ids; the claimed rows are loaded as committed and no others |
| OutboxPublications.MarkSucceeded | packages/marty-common/marty_common/infrastructure/outbox.py:80-82 | a publish that returns makes exactly the next record of the flush count as succeeded; one that fails makes none |
| Outbox.OutboxSession.MarkFailed | packages/marty-common/marty_common/infrastructure/outbox.py:84-99 | counts the failure, then either buries the record or delays it, never both |
| Outbox.OutboxSession.MoveToDeadLetterQueue | packages/marty-common/marty_common/infrastructure/outbox.py:101-114 | adds one dead letter with the topic, key, payload, headers, attempts and creation time of the record and the first 1024 characters of the error, and deletes the record |
| OutboxConservation.NewLetter | packages/marty-common/marty_common/infrastructure/outbox.py:101-114 | each row a committed flush deletes is gone and its dead letter has the content of the enqueued message and the attempt limit as its count |
| Outbox.OutboxSession.Commit | packages/marty-common/marty_common/infrastructure/database.py:95-105 | all pending changes become visible together, new rows under fresh consecutive ids |
| Outbox.OutboxDispatcher.RunWithinTransaction | packages/marty-common/marty_common/infrastructure/database.py:107-109 | unless the handler raises after some number of enqueues or the commit fails, all its rows are committed under fresh consecutive ids; otherwise the database is untouched |
| Outbox.OutboxDispatcher.Settle | packages/marty-common/marty_common/infrastructure/outbox.py:181-191 | the mark after one publish is the step the runs are made of |
| Outbox.OutboxDispatcher.FlushOnce | packages/marty-common/marty_common/infrastructure/outbox.py:169-192 | sends the committed messages in claim order, counts the successes, and commits all marks, or, exactly when it is cut short or the commit fails, changes nothing |
| Outbox.MarkAllSound | packages/marty-common/marty_common/infrastructure/outbox.py:169-192 | after any prefix of a flush the session is sound and the next record still as committed |
| PermissionCacheRuns.SamplesAreTrue | packages/marty-common/marty_common/org_authorization.py:121-144 | whatever caches, loads and answers hold, at the recorded step and time the source was a membership with exactly these permissions, or no membership and they are empty |
| PermissionCacheRuns.AnswersWereHeld | packages/marty-common/marty_common/org_authorization.py:369-395 | every permission in an answer was in the membership the source gave at the step the answer dates from |
| PermissionCacheRuns.NeverMemberNoPermissions | packages/marty-common/marty_common/org_authorization.py:385-387 | a user who was a member at no step is always answered with no permissions |
| PermissionCacheRuns.WhatIsCached | packages/marty-common/marty_common/org_authorization.py:385-395 | in every run the outer cache never holds an empty set and the inner one only what came from a membership |
| PermissionCacheRuns.WithoutCachesEmpty | packages/marty-common/marty_common/org_authorization.py:375-395 | a run in which every cache command fails caches nothing |
| PermissionCacheRuns.WithoutCachesFresh | packages/marty-common/marty_common/org_authorization.py:375-395 | a load whose cache commands all fail answers with what the source gave while it was under way |
| PermissionCacheRuns.BoundedStaleness | packages/marty-common/marty_common/org_authorization.py:369-395 | permissions returned by a check are the source's from at most 60 + ttl seconds before plus the flight of three loads, the answering one included; for membership lookups, ttl plus two flights |
| PermissionCacheAges.AnswerAgesIff | packages/marty-common/marty_common/org_authorization.py:369-395 | these bounds are exact: with a positive ttl, some run whose loads are all that prompt answers with permissions of a given age if and only if the age is below the bound |
| PermissionCacheRuns.FreshAfterInvalidation | packages/marty-common/marty_common/org_authorization.py:146-157 | in every reachable state: however the run goes on from an invalidation, no load begun after it answers with what was fetched before it, if and only if the invalidation finds no load between its fetch and its last cache write |
| PermissionCacheRuns.FreshReplies | packages/marty-common/marty_common/org_authorization.py:146-157 | the answers of loads begun after such an invalidation are what the source gave at a step from then on |
| PermissionCacheRuns.LoadInFlightKeepsStale | packages/marty-common/marty_common/org_authorization.py:159-191 | an instance: a run in which such a load makes a check begun after the invalidation answer with revoked permissions |
| LogFanoutSpec.QueuesAreFaithful | packages/marty-common/marty_common/grpc_logging.py:75-92 | for each subscriber of every run, records taken followed by records queued are, in order, exactly the records of the emissions made while it was subscribed and its own queue held fewer than 1000; no queue exceeds 1000 |
| LogFanoutSpec.OfferedWhileSubscribed | packages/marty-common/marty_common/grpc_logging.py:30-49 | in every run a queue is offered exactly the records of the emissions made while it was subscribed, in order |
| LogFanoutSpec.SubscribedInState | packages/marty-common/marty_common/grpc_logging.py:30-49 | the handler's list holds exactly the queues whose last subscription or unsubscription in the run is their subscription |
| LogFanoutSpec.SubscribersIndependent | packages/marty-common/marty_common/grpc_logging.py:75-92 | a subscriber's queue is the same as if the others did not exist: a slow one never costs another a record |
| LogFanoutSpec.EmitOffersOnce | packages/marty-common/marty_common/grpc_logging.py:75-92 | the emit loop offers the record once to each subscriber and leaves all other queues alone |
| LogFanout.GrpcLogHandler.RemoveClientQueue | packages/marty-common/marty_common/grpc_logging.py:39-49 | removes the first occurrence, or nothing |
| LogFanout.GrpcLogHandler.Emit | packages/marty-common/marty_common/grpc_logging.py:51-98 | every listed queue gets the record as often as it is listed, as far as it has room; nothing else changes |
| LogFanout.StreamLogs | packages/marty-common/marty_common/grpc_logging.py:153-183 | the consumer loop serves exactly what its queue hands out turn by turn, stops at the first timeout that finds the client gone and at no other turn, and leaves the handler's list as it was |
| LogFanout.StreamFaithful | packages/marty-common/marty_common/grpc_logging.py:153-183 | what a stream has served, followed by what waits for it, is in order what was emitted meanwhile, but for records that found its queue full |
| EnvExpansion.UnchangedIffNoPlaceholder | packages/marty-common/marty_common/config/base_config.py:203-221 | a text is left alone in every environment if and only if it holds no complete placeholder |
| EnvPlaceholders.DefaultApplies | packages/marty-common/marty_common/config/base_config.py:203-221 | for every text around it, the first placeholder "${name:-d}" becomes the value of name, or d when name is not set, the text before it stays and the text after it is expanded in turn |
| EnvPlaceholders.VariableApplies | packages/marty-common/marty_common/config/base_config.py:203-221 | the same for "${name}", which becomes the empty text when name is not set |
| EnvPlaceholders.EveryText | packages/marty-common/marty_common/config/base_config.py:203-221 | every text either has no "$" and "{" that something other than "}" and later a "}" follow, and stays as it is, or divides at its first placeholder as in the two rows above |
| EnvPlaceholders.TreeDefaultApplies | packages/marty-common/marty_common/config/base_config.py:187-221 | wherever in a tree a string has such a placeholder, the expanded tree has at that place the string expanded like this |
| EnvPlaceholders.TreeVariableApplies | packages/marty-common/marty_common/config/base_config.py:187-221 | the same for a placeholder without a default |
| EnvExpansion.IdempotentIffSafe | packages/marty-common/marty_common/config/base_config.py:203-221 | expanding twice is expanding once in every environment and text that substitutes only the value v, if and only if v is not empty, does not end in "$", and in "$" followed by v no "$" and "{" is cut off or followed by anything but "}" |
| EnvExpansion.ExpandIdempotent | packages/marty-common/marty_common/config/base_config.py:203-221 | when every substituted text is so, a second expansion, in any environment, changes nothing |
| EnvExpansion.SafeResult | packages/marty-common/marty_common/config/base_config.py:203-221 | then the result holds no placeholder at all, not even one joined from its pieces |
| EnvExpansion.EmptyValueJoins | packages/marty-common/marty_common/config/base_config.py:203-221 | an instance: an empty value joins its neighbours into a placeholder, and a second expansion changes the text |
| EnvExpansion.DollarValueJoins | packages/marty-common/marty_common/config/base_config.py:203-221 | an instance: a "$" value does the same |
| EnvExpansion.BraceValueJoins | packages/marty-common/marty_common/config/base_config.py:203-221 | an instance: a "{" value does the same |
| EnvExpansion.ShapePreserved | packages/marty-common/marty_common/config/base_config.py:187-201 | expansion keeps the shape of every configuration tree: lists, keys, order and values that are not text |
| EnvExpansion.ExpandValueIdempotent | packages/marty-common/marty_common/config/base_config.py:187-201 | expanding a tree twice is expanding it once, under the same condition on every text substituted in it |
| EnvExpansion.TreeUnchangedIff | packages/marty-common/marty_common/config/base_config.py:187-201 | a tree is left alone in every environment if and only if none of its strings holds a complete placeholder |
| X509Name.RoundTripIff | packages/marty-common/marty_common/models/certificates.py:94-143 | reading back a printed name gives that name if and only if no value has a comma or outer white space and no optional part is present but empty |
| X509Name.PlainNameReadsBack | packages/marty-common/marty_common/models/certificates.py:94-143 | without commas and outer white space everything reads back but empty optional parts, whatever "=" signs values hold |
| X509Name.ParsedIsPlain | packages/marty-common/marty_common/models/certificates.py:135-143 | whatever text is parsed, the values found have no comma and no outer white space |
| X509Name.ParsePrintParse | packages/marty-common/marty_common/models/certificates.py:94-143 | printing and parsing what was parsed from any text loses only empty parts |
| X509Name.Print | packages/marty-common/marty_common/models/certificates.py:94-119 | the seven conditional appends, with their labels C, O, OU, CN, ST, L and E, give the printed form the lemmas are about |
| X509Name.Parse | packages/marty-common/marty_common/models/certificates.py:122-143 | the parsing loop, and the name read from the seven labels, give the name the lemmas are about |
| RegistryMerge.RebuildChangesNothing | scripts/seed_marty_org_catalog.py:188-216 | building from a built list gives the same services in the same order |
| RegistryMerge.BuildReconciles | scripts/seed_marty_org_catalog.py:188-216 | each foreign service appears exactly once, as it last was, in order of first occurrence, and none is invented; each catalog service follows with the catalog's fields, the runtime fields only its last existing form has, and no others |
| RegistryMerge.ByIdIndexes | scripts/seed_marty_org_catalog.py:191-191 | the dictionary by id has each identifier that occurs, with the last service that has it |
| RegistryMerge.KeysInOrder | scripts/seed_marty_org_catalog.py:191-191 | and lists identifiers in order of first occurrence |
| RegistryUpdates.NeedsUpdateIff | scripts/seed_marty_org_catalog.py:219-253 | an update is due if and only if one of the three defaults differs from the catalog's, or a catalog service is missing or differs in a checked field; foreign services never cause one |
| RegistryUpdates.AgreeIff | scripts/seed_marty_org_catalog.py:241-253 | the checked fields are the eight listed, and a field that is missing reads like a null one |
| RegistryUpdates.SettlesAfterOneUpdate | scripts/seed_marty_org_catalog.py:219-253 | after one applied update none is due on the next run, whatever the gateway added, reordered or changed outside the checked fields |
| RegistryUpdates.StoredIsServed | scripts/seed_marty_org_catalog.py:188-216 | a gateway that stores the list as sent meets that condition |
| RegistryUpdates.DriftGoesUnnoticed | scripts/seed_marty_org_catalog.py:219-253 | for every catalog and every field that is not checked, a registry with that field changed needs no update although building would not keep the change, unless the field is the server's own |
| RegistryUpdates.SurvivesIff | scripts/seed_marty_org_catalog.py:201-209 | a catalog service survives an update as it is if and only if it has all the catalog's fields and no others but runtime ones |
| RegistryDrift.BuildFixesIff | scripts/seed_marty_org_catalog.py:188-216 | building leaves a list as it is if and only if it holds nothing but services with distinct ids, the foreign ones first, then the catalog's in its order, each surviving as above |
| RegistryDrift.MissedUpdateIff | scripts/seed_marty_org_catalog.py:219-253 | a run leaves a registry alone although a build would change its services if and only if checked fields and defaults agree and its list is not of that form |
| Registry.BuildDesiredRegistry | scripts/seed_marty_org_catalog.py:188-216 | the loops that fill the merged list give the list the lemmas are about |
| Registry.MergeService | scripts/seed_marty_org_catalog.py:201-209 | the loop over the runtime keys never overrides a desired field |
| Registry.RegistryNeedsUpdate | scripts/seed_marty_org_catalog.py:219-253 | the tests in their order, with the loop over the eight keys, decide as the lemmas say |
| Registry.IndexServices | scripts/seed_marty_org_catalog.py:191-191 | fails exactly when some service has no usable identifier |

## Left out

- HTTP, Starlette, Redis, SQLAlchemy and Kafka clients; only the commands and their failures are steps. "Published" means that `publish` returned, which a disabled bus also does.
- Hashing and token generation: cache keys and fingerprints are opaque, lock tokens are fresh. JSON and its stored forms are taken as faithful; malformed payloads in Redis are not part of this model.
- The Redis idempotency form and the permission caches are step systems on values rather than classes: their state lives in Redis and every command is a suspension point, which a method body cannot show.
- Redis rate-limit backend: it drops the window deque. Thread races inside `check_limit`, clocks that go back, changes to the rules during a run, floating-point rounding, and the minute window's reset time, which is always the current time.
- Outbox records are values in a session's map rather than shared objects. Databases without skip-locked claims may let flushes overlap; a commit whose outcome is unknown to the caller is not part of this model.
- `requeue`, the poll loop, start and stop, and the event-bus provider.
- The base64 decoder accepts exactly well-formed text; Python's also skips foreign characters, which no stored header has.
- Outbox.OutboxDispatcher.FlushOnce: the clock readings of the marks are parameters, one per publish.
- LogFanout.StreamLogs: what other threads emit between two takes is a parameter, as is whether the client is still there; formatting of records and queues that fail for reasons other than being full are not part of this model.
- Permission cache: error codes of the membership call are a failure or "not a member"; the membership predicates are single expressions.
- RateLimiterRuns.WindowLimitsHold: for limits that are not whole numbers the bound is the limit rounded up, which is what the code enforces.
- Registry fields that are nested objects, numbers compared across types, and a configuration whose `services` is null; the catalog's concrete entries, since every result is for any catalog with distinct ids.
- Cedar policies, ORM models, gRPC factories, TLS, logging set-up, metrics, notifications, smart-card readers, the passport and biometric dataclasses and the security-scan runner: tables, field copying and I/O.
