# Gateway verification

A Dafny model of the stateful parts of the API gateway and proofs about all of
their runs: the three rate limiters, the circuit breaker, the API-key cache, the
health checker, the load balancers with the proxy's request handling, and the
request-log pipeline.

How the model is laid out:

- Each component has its step functions on plain values and, where the source keeps
  mutable fields, a class whose methods follow the source line by line and are proved
  equal to the step functions. The lemmas then speak about runs: sequences of calls,
  or interleavings of the steps of any number of calls.
- `Redis.dfy` holds what is needed of Redis: a key is absent, or holds a value that
  may expire. A key past its expiry reads as absent.
- Time is an integer number of nanoseconds passed into every operation. One `Allow`
  call reads the clock once. The token bucket's tokens are `real`.
- `Rotation.dfy` (positions on a cycle) and `Histories.dfy` (failures at the end of a
  history) are shared arithmetic; `PendingCalls.dfy` holds what the interleavings share.

Main results, one per component:

- Token bucket: a request is denied exactly when the budget measured from some earlier call
  is used up, for every capacity and rate, counting calls since the last gap of an hour;
  that one-hour Redis expiry is invisible exactly when an hour of refill covers the
  capacity, which holds for every limit the middleware can configure.
- Sliding window: the purged, expiring log decides as the full history would; after a
  denial `Reset` names the earliest instant that succeeds. Command by command, with calls
  that overlap and count up to a delay after their timestamp, a span of window - delay
  grants at most limit + 2 * overlap - 1, which is reached for every limit above one. It is
  limit + overlap - 1 in every schedule exactly when the limit is one, and in a given
  schedule when the key never lapses between a call's ZADD and its EXPIRE.
- Fixed window: exactly the first `limit` requests of a client in a window pass, and a
  span of m windows passes at most (m + 1) * limit.
- Circuit breaker: state and counters are functions of the history of completions, for
  every interleaving of calls in flight.
- API-key cache: in serialized runs a key is accepted exactly when an active row carries its
  hash, and the answer is current unless the row was renamed since it was cached; in
  interleaved ones a served record was active when read and is under five minutes old, and
  five minutes bring agreement.
- Proxy: connection counts are the requests in flight, the breaker inside follows the
  backends' answers, and a request is forwarded exactly when that breaker lets it.
- Health checker, balancers, request log: history-exact health lists, fair rotation,
  loss-free ordered batching.

Properties one might expect that do not hold of the code, each with a failing input or
run and the exact condition under which the code meets it:

| property | fails | holds if and only if |
|---|---|---|
| sliding `Remaining` is what `Allow` has left | `SlidingWindows.RemainingUndercounts` | `SlidingWindows.RemainingDiffersIff` |
| fixed `Remaining` is what `Allow` has left | `FixedWindows.RemainingMisses` | `FixedWindows.RemainingAgreesIff` |
| the bucket is full at the reported reset | `TokenBuckets.ResetFallsShort` | `TokenBuckets.ResetNearlyFull` |
| a lookup through the key cache is current | `ApiKeys.RenameIsServedStale` | `ApiKeys.ValidateAgreesIff` |
| least-connections picks a least loaded target | `LoadBalancers.EmptyNameIsPassedOver` | `LoadBalancers.NextIsLeastIff` |
| overlapping sliding calls add at most overlap - 1 to the limit | `SlidingLapses.LapseBoundIsReached` | `SlidingLapses.OverlapIsAllThatCountsIff` |
| least-connections spreads evenly | `LoadBalancers.SpreadPilesUp` | `LoadBalancers.SpreadIsEvenIff` |

The rename behind `RenameIsServedStale` is open to callers of the service. The gateway's own
handler (internal/handler/apikey.go:86-92) sends only tier and active flag, which invalidate.

The comment in internal/circuitbreaker/state.go:12 speaks of limited requests while
half-open. The code has no such limit, and the model follows the code: for every number
there is a run with that many calls running half-open (`BreakerRuns.HalfOpenHasNoLimit`).

## Model

| member | source | states |
|---|---|---|
| TokenBuckets.TokenBucket.Allow | internal/ratelimit/token_bucket.go:35-76 | decision and stored cell are those of the one-key step, other clients' cells are untouched |
| TokenBuckets.TokenBucket.Remaining | internal/ratelimit/token_bucket.go:78-99 | whole tokens on hand now, the capacity when the key is absent or lapsed |
| TokenBuckets.TokenBucket.Reset | internal/ratelimit/token_bucket.go:110-129 | now plus the whole seconds until full |
| TokenBuckets.AllowIsExact | internal/ratelimit/token_bucket.go:41-75 | in every run, for every capacity and rate: denied if and only if some call j up to this one, with no gap of an hour or more since, has grants since j plus one above capacity + rate * elapsed |
| TokenBuckets.AllowIsExactDespiteGaps | internal/ratelimit/token_bucket.go:41-75 | with a forward clock and capacity <= 3600 * rate the same rule holds whatever the gaps |
| TokenBuckets.IntervalBound | internal/ratelimit/token_bucket.go:54-75 | grants in any closed interval under an hour, and in any at all when capacity <= 3600 * rate, stay within capacity + rate * length |
| TokenBuckets.TtlInvisibleIff | internal/ratelimit/token_bucket.go:65-73 | no run tells the one-hour expiry from none, if and only if capacity <= 3600 * rate |
| TokenBuckets.RemainingIgnoresTtl | internal/ratelimit/token_bucket.go:81-98 | `Remaining` agrees with the never-expiring bucket in every run |
| TokenBuckets.RemainingPredictsAllow | internal/ratelimit/token_bucket.go:54-98 | in a burst after any run, the call with m burst calls before it passes if and only if m is below `Remaining` |
| TokenBuckets.ResetNearlyFull | internal/ratelimit/token_bucket.go:124-128 | at the reported instant more than capacity - rate tokens are there, and the bucket is full if and only if the idle time covers the truncated fraction |
| TokenBuckets.ResetCountsWholeSeconds | internal/ratelimit/token_bucket.go:110-129 | for every capacity and rate `Reset` is now plus the greatest number of whole seconds whose refill fits above the stored tokens, and now, with a full bucket, when there is no key |
| TokenBuckets.ResetFallsShort | internal/ratelimit/token_bucket.go:124-128 | capacity 2, rate 2, one token taken: the reported reset is now, with one token there |
| LimiterFactory.FactoryTtlInvisibleIff | internal/ratelimit/factory.go:13-18 | the derived rate hides the expiry for every limit if and only if the window is at most 1800 seconds |
| LimiterFactory.RateIsLimitPerSecond | internal/ratelimit/factory.go:14-17 | the derived rate is the limit per second rounded toward zero, and one where that is zero, for every limit |
| LimiterFactory.SlidingNameBuildsSlidingLog | internal/ratelimit/factory.go:11-12 | "sliding_window" builds a limiter that grants if and only if fewer than limit grants lie in the window before, so never more than limit in a half-open window |
| LimiterFactory.OtherNamesBuildFixedWindow | internal/ratelimit/factory.go:19-22 | every name but the other two builds a limiter that passes exactly the first limit requests of a client in each window of whole seconds |
| LimiterFactory.DeployedBucketIsExact | internal/ratelimit/factory.go:13-18 | the budget rule decides every call of the bucket built for any limit >= 1 with the one-minute window |
| LimiterFactory.MinuteBound | internal/middleware/ratelimit.go:54-58 | that bucket passes at most limit + max(60, limit) requests in any closed minute |
| SlidingWindows.SlidingWindowLimiter.Allow | internal/ratelimit/sliding_window.go:26-59 | purge, count, add and expire as the one-key step, other clients untouched |
| SlidingWindows.SlidingWindowLimiter.Remaining | internal/ratelimit/sliding_window.go:61-77 | limit minus the entries in the closed window, floored at zero |
| SlidingWindows.SlidingWindowLimiter.Reset | internal/ratelimit/sliding_window.go:87-104 | oldest entry plus the window, or now when there is none |
| SlidingWindows.AllowCountsFullHistory | internal/ratelimit/sliding_window.go:26-58 | granted if and only if fewer than limit earlier grants lie in (now - window, now], over the whole history |
| SlidingWindows.WindowBound | internal/ratelimit/sliding_window.go:30-55 | no half-open span of one window holds more than limit grants |
| SlidingWindows.ResetIsExact | internal/ratelimit/sliding_window.go:87-103 | after a denial, with only earlier retries between, a call passes if and only if it comes at or after the reported reset |
| SlidingWindows.ResetIsFirstGrantPlusWindow | internal/ratelimit/sliding_window.go:87-103 | after any calls, granted, denied or none: one window after the first grant inside the latest call's window while some grant is less than a window old, the present instant otherwise |
| SlidingWindows.RemainingAgreesIff | internal/ratelimit/sliding_window.go:61-77 | `Remaining` is what `Allow` has left if and only if no entry exactly one window old is stored |
| SlidingWindows.RemainingDiffersIff | internal/ratelimit/sliding_window.go:61-77 | `Remaining` differs from what `Allow` has left if and only if a call exactly one window ago was granted, a later one was granted, and none came at this instant |
| SlidingWindows.RemainingUndercounts | internal/ratelimit/sliding_window.go:61-77 | two per ten, grants at 0 and 5: at 10 one is left and `Remaining` says none |
| SlidingOverlaps.OverlapBound | internal/ratelimit/sliding_window.go:33-55 | in every interleaving with at most K calls between count and add, entries plus pending adds stay within limit + K - 1 |
| SlidingOverlaps.OverlapBoundIsReached | internal/ratelimit/sliding_window.go:33-55 | for every limit and K some interleaving stores limit + K - 1 entries |
| SlidingOverlaps.CallAlone | internal/ratelimit/sliding_window.go:33-55 | the steps of a call that nothing interleaves with do what the serialized `Allow` does |
| SlidingDelays.DelayedCallsBound | internal/ratelimit/sliding_window.go:26-59 | each Redis command at its own instant, any interleaving, at most K calls between count and EXPIRE, each counting within d of its timestamp: no half-open span of window - d holds more than limit + 2K - 1 grants |
| SlidingDelays.OutlivedCallsBound | internal/ratelimit/sliding_window.go:26-59 | no more than limit + K - 1 when the key never lapses between a call's ZADD and its EXPIRE |
| SlidingDelays.LimitOneBound | internal/ratelimit/sliding_window.go:46-54 | with a limit of one no more than K, lapses or not |
| SlidingDelays.StalledCallExceedsBound | internal/ratelimit/sliding_window.go:28-55 | for every window and delay a run that meets the conditions of `OutlivedCallsBound` and exceeds it in a span one longer than window - delay |
| SlidingDelays.CallAlone | internal/ratelimit/sliding_window.go:26-59 | the four commands of a call alone grant and leave the key as the serialized `Allow` does, on any key |
| SlidingLapses.LapseBoundIsReached | internal/ratelimit/sliding_window.go:48-54 | in every configuration with limit >= 2 and a window of at least limit + 2K some schedule without delay reaches limit + 2K - 1, because the key lapses between ZADD and EXPIRE |
| SlidingLapses.OverlapIsAllThatCountsIff | internal/ratelimit/sliding_window.go:26-59 | all schedules of a configuration stay within limit + K - 1 if and only if the limit is one |
| FixedWindows.FixedWindowLimiter.Allow | internal/ratelimit/fixed_window.go:27-41 | the store after INCR and the first EXPIRE, granted while the counter is within the limit |
| FixedWindows.FixedWindowLimiter.Remaining | internal/ratelimit/fixed_window.go:43-64 | limit minus what is stored under the key without the fixed segment |
| FixedWindows.FixedWindowLimiter.Reset | internal/ratelimit/fixed_window.go:75-79 | start of the next window |
| FixedWindows.CounterIsAccurate | internal/ratelimit/fixed_window.go:28-38 | in every run of any clients a counter equals the requests of its window and outlives every instant of that window |
| FixedWindows.CounterLapsesAfterFirstHit | internal/ratelimit/fixed_window.go:28-38 | in every run a counter holds its window's requests and lapses one window after the first of them |
| FixedWindows.AllowCountsWindow | internal/ratelimit/fixed_window.go:27-41 | granted if and only if fewer than limit requests of the client came earlier in the window |
| FixedWindows.GrantsAreFirstHits | internal/ratelimit/fixed_window.go:27-41 | of n requests in a window exactly min(n, limit) are granted |
| FixedWindows.SpanBound | internal/ratelimit/fixed_window.go:27-41 | a closed span of m window lengths grants at most (m + 1) * limit |
| FixedWindows.ResetIsExact | internal/ratelimit/fixed_window.go:75-79 | after a denial, with the client's own calls between all earlier and other clients calling freely, the client's call passes if and only if it comes at or after the reported reset |
| FixedWindows.BoundaryBurst | internal/ratelimit/fixed_window.go:27-41 | a run that passes 2 * limit requests within one nanosecond, for every limit |
| FixedWindows.RemainingReads | internal/ratelimit/fixed_window.go:43-64 | for every key `Remaining` is the limit less the window's requests of the client named by the key without a leading "fixed:", or the limit when there is no such client or request |
| FixedWindows.RemainingAgreesIff | internal/ratelimit/fixed_window.go:43-64 | `Remaining` is what `Allow` has left if and only if the client's own requests and those read are equal or both at or above the limit |
| FixedWindows.RemainingAgreesForPlainKeyIff | internal/ratelimit/fixed_window.go:43-64 | for a key without that prefix: if and only if the client made no request in the window |
| FixedWindows.RemainingMisses | internal/ratelimit/fixed_window.go:43-64 | one request of "a" is not seen by `Remaining` of "a" and is charged to "fixed:a" |
| CircuitBreakers.CircuitBreaker.constructor | internal/circuitbreaker/breaker.go:35-53 | positive settings are kept, others become 5 failures, 30 seconds and 1 success; closed with zero counters |
| CircuitBreakers.CircuitBreaker.Enter | internal/circuitbreaker/breaker.go:56-70 | first critical section of a call: admission and the step to half-open |
| CircuitBreakers.CircuitBreaker.RecordFailure | internal/circuitbreaker/breaker.go:88-100 | state after a failed completion |
| CircuitBreakers.CircuitBreaker.RecordSuccess | internal/circuitbreaker/breaker.go:103-118 | state after a successful completion |
| CircuitBreakers.CircuitBreaker.Call | internal/circuitbreaker/breaker.go:56-85 | a call alone: refused without a trace, or both sections with the function's outcome |
| CircuitBreakers.CircuitBreaker.Reset | internal/circuitbreaker/breaker.go:136-144 | closed with zero counters, last failure time kept |
| Histories.TrailingMeansLastFailed | internal/circuitbreaker/breaker.go:88-118 | n is at most the trailing failures if and only if the last n outcomes all failed |
| BreakerRuns.FailureCountIsHistory | internal/circuitbreaker/breaker.go:56-118 | closed if and only if the count is below the threshold, and then the count is the trailing failures since the last success or reset |
| BreakerRuns.TripsExactly | internal/circuitbreaker/breaker.go:88-100 | closed turns open if and only if the completion makes the last maxFailures completions all failures |
| BreakerRuns.LastFailureIsHistory | internal/circuitbreaker/breaker.go:88-90 | the remembered failure time is that of the latest failed completion |
| BreakerRuns.LastChangeIsHistory | internal/circuitbreaker/breaker.go:121-126 | the remembered change time is that of the latest state change or reset |
| BreakerRuns.StaysOpen | internal/circuitbreaker/breaker.go:60-68 | without a reset, until the timeout has passed, the breaker stays open and the failure time never goes back |
| BreakerRuns.RefusedUntilTimeout | internal/circuitbreaker/breaker.go:60-68 | a call entering at or before last failure + timeout never runs and changes nothing |
| BreakerRuns.RefusedExactly | internal/circuitbreaker/breaker.go:56-73 | in every run an entering call is refused if and only if the breaker is open and at most the timeout has passed since the latest failed completion; a refusal changes nothing and an admission starts this call only |
| BreakerRuns.OpenEndsExactly | internal/circuitbreaker/breaker.go:60-68 | open turns half-open if and only if a call enters more than the timeout after the latest failure, and closed only by reset |
| BreakerRuns.HalfOpenSince | internal/circuitbreaker/breaker.go:60-63 | half-open means unbroken half-open since a probe, no failure since, successes counted since and below the goal |
| BreakerRuns.RecoversExactly | internal/circuitbreaker/breaker.go:92-111 | half-open closes exactly at the halfOpenSuccess-th success since the probe or a reset, and opens exactly at a failure |
| BreakerRuns.CountersAreHistory | internal/circuitbreaker/breaker.go:88-118 | in every run and state the two counters are the failures and half-open successes since what last cleared them |
| BreakerRuns.HalfOpenHasNoLimit | internal/circuitbreaker/breaker.go:56-70 | for every sound configuration and every n >= 1 some run from a new breaker leaves it half-open with exactly n calls running |
| ApiKeys.APIKeyService.Create | internal/service/apikey.go:33-62 | a new active row, of the basic tier when none is named, or nothing when the identifier or hash exists |
| ApiKeys.APIKeyService.Validate | internal/service/apikey.go:64-95 | answer and new cache of the lookup through the cache |
| ApiKeys.APIKeyService.InvalidateCache | internal/service/apikey.go:129-138 | a tombstone without expiry under the row's hash, nothing for an unknown id |
| ApiKeys.APIKeyService.Update | internal/service/apikey.go:105-115 | invalidation for tier and active flag, then the row update |
| ApiKeys.APIKeyService.Delete | internal/service/apikey.go:117-122 | invalidation, then the row is gone |
| ApiKeys.APIKeyService.UpdateLastUsed | internal/service/apikey.go:124-127 | only the row's last-used time changes |
| ApiKeys.ValidateIsDirectLookup | internal/service/apikey.go:64-138 | in every serialized run whose updates touch tier or active flag, `Validate` agrees with the active-row lookup by hash |
| ApiKeys.RecordWasCached | internal/service/apikey.go:64-95 | a cached record was written by an earlier `Validate` that missed and read the active row |
| ApiKeys.ValidateAgreesIff | internal/service/apikey.go:64-138 | in every serialized run with any updates a `Validate` that misses agrees with the table, and one that hits agrees if and only if the row has the name it had when cached |
| ApiKeys.UpdateKeepsCoherenceIff | internal/service/apikey.go:105-115 | an update keeps the cache honest if and only if it invalidates, the row is not cached, or nothing visible changes |
| ApiKeys.RenameIsServedStale | internal/service/apikey.go:105-115 | a run in which a rename is not seen through the cache |
| ApiKeyHistories.FindByHashMeans | internal/repository/apikey.go:25-36 | the lookup by hash finds a row if and only if it is active, carries the hash and is in the table |
| ApiKeyHistories.TableIsHistory | internal/service/apikey.go:33-127 | in every serialized run a row exists if and only if it was created under a free identifier and hash and not deleted since; tier, flag, name and last use are those last written, the rest as created |
| ApiKeyHistories.ValidateAcceptsIff | internal/service/apikey.go:64-95 | in every serialized run, whatever is cached, a key is accepted if and only if an active row carries its hash, with that row's identifier, creator, tier and creation time |
| ApiKeyHistories.UpdateIsServed | internal/service/apikey.go:105-115 | the next `Validate` after an update of tier or flag answers nothing if and only if the row is inactive now, and otherwise the written tier |
| ApiKeyHistories.CreatedKeyValidates | internal/service/apikey.go:33-62 | a created key validates with its name, creator, creation time and tier, "basic" for an empty tier |
| ApiKeyHistories.RevocationHolds | internal/service/apikey.go:105-115 | in every serialized run a key whose flag was cleared is refused at every instant until an update sets the flag or a new row takes the hash |
| ApiKeyRaces.HeldRowWasRead | internal/service/apikey.go:80-92 | a row about to be cached was the active row when its call read it |
| ApiKeyRaces.RecordWasWritten | internal/service/apikey.go:90-92 | a cached record was written by such a call and expires five minutes later |
| ApiKeyRaces.ServedRecordWasActive | internal/service/apikey.go:64-95 | in every interleaving a served record was the active row when read and was cached less than five minutes ago |
| ApiKeyRaces.CacheCatchesUp | internal/service/apikey.go:64-138 | five minutes after the last change and after stale holders are done, a started `Validate` agrees with the table |
| ApiKeyRaces.DeletedRowServedForFiveMinutes | internal/service/apikey.go:117-138 | an interleaving that serves a deleted row until exactly five minutes have passed |
| ApiKeyRaces.SerializedRunsAreInterleavings | internal/service/apikey.go:33-138 | every serialized run is an interleaving: the accesses of its requests in order leave the same table and cache |
| HealthChecks.Checker.constructor | internal/healthcheck/checker.go:34-69 | default threshold, every target healthy with no failures, checked now and neither succeeded nor failed yet, empty healthy list |
| HealthChecks.Checker.RecordSuccess | internal/healthcheck/checker.go:158-171 | the target's new status, exactness kept |
| HealthChecks.Checker.RecordFailure | internal/healthcheck/checker.go:174-187 | the target's new status, exactness kept |
| HealthChecks.Checker.UpdateHealthyTargets | internal/healthcheck/checker.go:190-202 | the configured list filtered in order by fewer than maxFailures trailing failed checks |
| HealthChecks.Checker.CheckAll | internal/healthcheck/checker.go:115-128 | after a round in any order the list is that filter of the longer history |
| HealthChecks.Checker.OverallHealth | internal/healthcheck/checker.go:256-271 | classification by list lengths |
| HealthChecks.StatusIsHistory | internal/healthcheck/checker.go:158-187 | after any probes a status counts its target's trailing failures and is healthy if and only if they are below the threshold |
| HealthChecks.TimesAreHistory | internal/healthcheck/checker.go:162-180 | the recorded times are those of the target's latest probe, success and failure |
| HealthChecks.RoundsAreConfluent | internal/healthcheck/checker.go:115-128 | for distinct targets any two orders of a round leave equal statuses |
| HealthChecks.VerdictsAreConfluent | internal/healthcheck/checker.go:115-187 | whatever the order and the instants under the lock, the same outcomes leave the same verdicts and failure counts |
| HealthChecks.OverallMeans | internal/healthcheck/checker.go:256-271 | healthy if and only if there are targets and all pass, unhealthy if and only if none passes |
| LoadBalancers.RoundRobin.Next | internal/loadbalancer/round_robin.go:15-27 | target at the counter modulo the length, counter advanced, empty string for no targets |
| LoadBalancers.ConsecutiveNext | internal/loadbalancer/round_robin.go:15-27 | n calls of `Next` return the closed-form picks and count as `TimesPicked` does |
| LoadBalancers.RoundRobinIsFair | internal/loadbalancer/round_robin.go:15-27 | on any list of m entries n calls return a name at least n / m times per entry it has, rounded down, and at most rounded up |
| LoadBalancers.RoundRobinIsFairToEach | internal/loadbalancer/round_robin.go:15-27 | with distinct names each is returned n / m times rounded down or up |
| LoadBalancers.LeastConnections.Next | internal/loadbalancer/least_connections.go:17-42 | first target with the fewest connections, the list head when that name is empty |
| LoadBalancers.LeastIndex | internal/loadbalancer/least_connections.go:28-34 | an index no other count is below, and every earlier count is above |
| LoadBalancers.LeastConnections.Increment | internal/loadbalancer/least_connections.go:45-49 | one more for the target |
| LoadBalancers.LeastConnections.Decrement | internal/loadbalancer/least_connections.go:52-59 | one less unless the count is not positive |
| LoadBalancers.NextIsLeastIff | internal/loadbalancer/least_connections.go:28-39 | `Next` returns a least loaded target for all counts if and only if an empty name is absent or first |
| LoadBalancers.EmptyNameIsPassedOver | internal/loadbalancer/least_connections.go:28-39 | an idle second target with an empty name is passed over for a busy first one |
| LoadBalancers.SpreadIsEvenIff | internal/loadbalancer/least_connections.go:17-49 | select-then-increment from zero keeps any two counts within one for ever if and only if an empty name is absent or first |
| LoadBalancers.SpreadPilesUp | internal/loadbalancer/least_connections.go:36-39 | over "a" and the empty name two rounds both go to "a" |
| LoadBalancers.SpreadIsRoundRobin | internal/loadbalancer/least_connections.go:17-49 | for distinct targets it picks exactly in round-robin order |
| Proxies.NewWithConfig | internal/proxy/proxy.go:45-68 | the strategy and a proxy for every target if and only if there are targets, the name is one of the six known and all parse; otherwise the first of these to fail, with the first bad target |
| Proxies.Proxy.HandleAlone | internal/proxy/proxy.go:93-185 | one request alone under each strategy: its response in every case, breaker state, rotation counter, and all connection counts back where they were |
| Proxies.HandleInTurn | internal/loadbalancer/factory.go:6-17 | requests in turn through a proxy built by name: an exact rotation for the round-robin names, the drawn targets for "random", a least loaded target each for the least-connections names |
| Proxies.EveryTargetCanBeDrawn | internal/loadbalancer/random.go:19-25 | under the random strategy every healthy target is drawn for some random number |
| ProxyRuns.CountsAreInFlight | internal/proxy/proxy.go:126-136 | in every interleaving each count is the number of requests in flight to the target, refused and panicked ones included |
| ProxyRuns.DecrementGuardNeverBlocks | internal/loadbalancer/least_connections.go:52-59 | whenever a request gives its connection back the count is positive and falls by one |
| ProxyRuns.QuietMeansZero | internal/proxy/proxy.go:126-130 | when all requests are done every count is zero |
| ProxyRuns.DispatchIsLeastLoaded | internal/proxy/proxy.go:95-124 | with named healthy targets that have proxies the request goes to a healthy target with fewest requests in flight |
| ProxyRuns.ProxyRunsAreBreakerRuns | internal/proxy/proxy.go:135-172 | the breaker inside the proxy has the state of a legal breaker run made of the requests' own events |
| ProxyRuns.OpenBreakerShieldsBackend | internal/proxy/proxy.go:135-181 | once open with last failure L and not reset, a request reaching the breaker by L + timeout is not forwarded, in any interleaving |
| ProxyRuns.ForwardedExactly | internal/proxy/proxy.go:135-164 | in every interleaving a counted request reaching the breaker is forwarded if and only if the breaker is not open or more than the timeout has passed since a backend last failed; other requests stay where they are |
| ProxyRuns.BreakerCountsAnswers | internal/proxy/proxy.go:135-172 | in every interleaving the breaker is closed if and only if the backends' answers since the latest reset end in fewer than maxFailures failures, and then counts just those |
| ProxyRuns.PanicReleases | internal/proxy/proxy.go:126-130 | a panicking request gives its connection back and the breaker hears nothing of it |
| ProxyRuns.DispatchedToKnownTarget | internal/proxy/proxy.go:106-124 | every dispatched request has a named target with a proxy |
| ProxyRuns.AloneIsHandleAlone | internal/proxy/proxy.go:93-185 | in every run the steps of a further request alone dispatch, pass the breaker and restore the counts as `HandleAlone` does |
| RequestLogs.RequestLogger.Log | internal/middleware/requestlogger.go:93-100 | the non-blocking send: queued, handed over, or dropped |
| RequestLogs.RequestLogger.OnReceive | internal/middleware/requestlogger.go:27-34 | the oldest queued entry joins the batch, which is flushed at 100 |
| RequestLogs.RequestLogger.OnTick | internal/middleware/requestlogger.go:35-40 | a non-empty batch is flushed |
| RequestLogs.RequestLogger.InsertBatch | internal/middleware/requestlogger.go:47-50 | an empty batch is not inserted |
| RequestLogs.RequestLogger.Work | internal/middleware/requestlogger.go:25-42 | any finite stretch of the worker loop with the sends in it |
| RequestLogs.RunConserves | internal/middleware/requestlogger.go:16-56 | flushed batches, batch and channel concatenate to the accepted entries in order, and flushes have 1 to 100 entries |
| RequestLogs.ShortBatchesLeaveOnTicks | internal/middleware/requestlogger.go:27-40 | a flush off the ticker has exactly 100 entries, one on it fewer |
| RequestLogs.TickEmptiesBatch | internal/middleware/requestlogger.go:35-40 | after every tick the batch is empty, and what was in it has been handed on if and only if there was anything |
| RequestLogs.OffersAreAccountedFor | internal/middleware/requestlogger.go:93-100 | accepted and dropped entries together are the offered ones |
| RequestLogs.DroppedOnlyWhenFull | internal/middleware/requestlogger.go:93-100 | an entry is dropped if and only if the channel is full and no worker takes it directly |
| RequestLogs.DrainFlushesAll | internal/middleware/requestlogger.go:25-42 | a receive per queued entry and a tick bring every accepted entry to the database |

## Left out

- Float64 rounding, overflow of integer counters, backward clock jumps, Redis and database errors: assumed away.
- Redis keeps the expiry it is given to the nanosecond and shares the gateway's clock. EXPIRE as called takes whole
  seconds, so in deployment the sliding-window results need a window of whole seconds.
- Overlapping `Allow` calls on one token bucket, which read and write the whole state and can lose each other's updates.
- Equal sliding-window timestamps in the exactness results; the model merges such entries as Redis does.
- TokenBuckets.TokenBucket.Reset: needs a refill rate other than zero; at zero the source converts an infinite or undefined float64 to an integer, whose value Go leaves to the implementation.
- ApiKeys.APIKeyService.Update: of the open column map only tier, active flag and name, one column standing for those that do not invalidate.
- ApiKeys.UpdateKeepsCoherenceIff: one update from a coherent cache; `ValidateAgreesIff` is the statement over runs.
- HealthChecks.RoundsAreConfluent: fixes each probe's instant across the orders; `VerdictsAreConfluent` frees the instants and leaves the times out.
- ProxyRuns.CountsAreInFlight: the interleaved requests use the least-connections strategy, the only one that counts.
- `Window` and `Limit` of the limiters, which only report configuration.
- Key generation, SHA-256, base64 and JSON: hashes are opaque and encoding drops the hash field.
- The random number generator of the `Random` strategy: a draw is an arbitrary number.
- LoadBalancers.LeastConnections.Next: asks that counts fit a Go int.
- Starting and stopping the health checker, and HTTP probing: a probe is an arbitrary outcome.
- Gin handlers, routing, CORS, request identifiers, header rewriting and forwarding.
- JWT, users, configuration loading, analytics and their SQL.
