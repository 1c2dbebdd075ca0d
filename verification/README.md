# Verified model of the rate-limiting gateway

The gateway contains two small systems whose interesting guarantees are about whole runs, and this
project proves those guarantees.

* **The token bucket.** A pure reference algorithm, its Redis form (an atomic script over one hash per key
  with a time to live, called by any number of gateways that fail open), and the service that picks the
  limit of every request and halves it while the upstream is degraded.
* **The circuit breaker and the upstream-health window.** A three-state breaker whose calls overlap and
  finish in any order, a pair of pruned and expiring sorted sets, and the proxy that feeds both.

Files, in dependency order:

| file | models |
|---|---|
| `Numbers.dfy` | Python's and Lua's roundings, on exact reals |
| `TokenBucket.dfy` | `check_token_bucket` and its runs: closed form, greedy optimality, spending law |
| `RedisLimiter.dfy` | the script and `RedisRateLimiter.check` as classes over a mutable store, proved against the reference; Retry-After |
| `KeyExpiry.dfy` | the store that expires keys against one that never does, and one key of it as a single bucket |
| `ScaledBucket.dfy` | an integer bucket that refines to the rational one |
| `Cluster.dfy` | interleaved clock samples, scripts, Redis errors and abandoned calls; rounding of stored levels |
| `RateLimitService.dfy` | limit resolution, the health factor, degraded runs against healthy ones |
| `CircuitBreaker.dfy` | the breaker class and the machine of overlapping calls; history, blackout, re-close |
| `Outage.dfy` | how many calls reach an upstream that never answers |
| `Probes.dfy` | what HALF_OPEN promises, with and without overlap |
| `UpstreamHealth.dfy` | the health window as a class, refined from the unpruned log; factor and status |
| `Gateway.dfy` | the proxy and the rate-limit middleware over all of these; conservation of outcomes |

Conventions. Token levels, rates and breaker times are exact reals; request clocks are integer seconds, as
in the source. `ForwardTime` adds up only the forward steps of a clock, so the results about traces hold
for clocks in any order and reduce to wall-clock time for ordered ones (`CreditedTime`). Runs are folds over
arbitrary event lists: an event of a call that is not in a position to take that step changes nothing, so a
theorem about every event list is a theorem about every run. Each atomic section of the source (the script,
a Redis pipeline, a locked section of the breaker) is one step. A class method is proved against the function
the runs are built from. Each machine of overlapping calls is itself proved against an account of its event
list (`CircuitBreaker.RunIsItsEvents`, `Cluster.RunIsItsDeeds`, `Gateway.RunIsItsDeeds`), in which a call's
course is decided by its own events: no step is lost, counted twice or held up by another call.

## Where the code and its documentation differ

The model follows the code.

* The breaker's header says one probe is allowed in HALF_OPEN. The code tests only OPEN on the way in, so
  every call arriving in HALF_OPEN is forwarded, and a call from before the opening may complete first:
  `Probes.OverlapBreaksDiscipline` gives a run for every configuration. `Probes.ProbeIsAlone` says exactly
  when the probe is the only call forwarded, and `Probes.ProbeDecides` exactly when its outcome alone decides:
  if and only if nothing was in flight as it entered.
* The limiter's header says the script does the same math as the reference. It does, except for
  `retry_after`, which the reference puts one second later exactly when the wait is a whole number of
  seconds: `RedisLimiter.RedisServer.RunTokenBucketScript` and `RedisLimiter.WaitsMayDiffer`.
* The health recorder says it is called after every upstream request. An exception that is neither a timeout
  nor an httpx request error counts as a breaker failure but is not recorded, and a request cancelled upstream
  is neither: `Gateway.RequestsGoUnrecorded` gives a run of each, and `Gateway.EveryRequestRecorded` says
  exactly when every request has been recorded.

## Model

| member | source | states |
|---|---|---|
| TokenBucket.ClosedForm | app/infra/rate_limiter/algorithms.py:62-95 | from no state, at any fixed capacity and rate and with clocks in any order, a request is admitted if and only if from every earlier arrival on there is room for one more under capacity plus earnings |
| TokenBucket.ClosedFormOrdered | app/infra/rate_limiter/algorithms.py:62-95 | the same in wall-clock differences when clocks do not step back |
| TokenBucket.GreedyOptimality | app/infra/rate_limiter/algorithms.py:69-82 | the bucket keeps the capacity-and-rate envelope on every stretch, and no policy that keeps it has admitted more at any prefix |
| TokenBucket.GreedyLeads | app/infra/rate_limiter/algorithms.py:69-82 | a bucket under looser, possibly changing limits is never behind any affordable policy under tighter ones, in admissions and in admissions plus tokens left |
| TokenBucket.TighterLimitsNeverAdmitMore | app/infra/rate_limiter/algorithms.py:69-95 | of two runs of the bucket over the same clock readings, in any order, the one whose capacities and rates are nowhere higher has admitted no more at any prefix |
| TokenBucket.SpendingIsCovered | app/infra/rate_limiter/algorithms.py:69-95 | from any stored state, with limits changing from request to request, admissions plus the level left never exceed the tokens first offered plus those earned on forward clock steps at the rates then in force, and the level is never negative |
| TokenBucket.RefillAtOneRate | app/infra/rate_limiter/algorithms.py:68-69 | at one rate those earnings are the rate times the clock's span plus every backward step |
| TokenBucket.CreditedTime | app/infra/rate_limiter/algorithms.py:68-69 | time credited is the clock difference plus every backward step, and just the difference for an ordered clock |
| TokenBucket.RemainingIsTheBurstLeft | app/infra/rate_limiter/algorithms.py:74-82 | `remaining` is exactly the number of further requests the same instant still admits, none after a denial |
| RedisLimiter.RedisServer.RunTokenBucketScript | app/infra/rate_limiter/redis_limiter.py:41-102 | on every stored or missing hash, any limit and any clock, the script's decision, remainder and new hash are the reference's, its wait is the reference's less one exactly when the quotient is whole, and the key is re-expired |
| RedisLimiter.WaitsDiffer | app/infra/rate_limiter/redis_limiter.py:86-87 | rounding up equals truncating plus one except at whole quotients, for every state and request |
| RedisLimiter.WaitsMayDiffer | app/infra/rate_limiter/algorithms.py:84-86 | a bucket for which the two waits are one and two seconds |
| RedisLimiter.RedisRateLimiter.Check | app/infra/rate_limiter/redis_limiter.py:120-164 | a delivered reply is the script's; any Redis error lets the request through as degraded, the store being updated or not according to when the error struck |
| RedisLimiter.TtlIsWindowPlusMinute | app/infra/rate_limiter/redis_limiter.py:94-99 | a window refills exactly the capacity, and the time to live is the window plus a minute |
| RedisLimiter.RetryAfterIsExact | app/infra/rate_limiter/redis_limiter.py:82-92 | after a denial a later clock reading is admitted if and only if it is at least the denial's plus the wait; the reference's figure is that or one more, and both are 0 exactly for an admitted request |
| RedisLimiter.PollingIsFree | app/infra/rate_limiter/redis_limiter.py:64-92 | every retry before the announced moment is denied, and none changes any later decision or state at that limit, nor the moment of the first admission |
| RedisLimiter.OnlyEarlyRetriesFail | app/infra/rate_limiter/redis_limiter.py:64-92 | of retries in order at that limit all are denied if and only if all come before the announced moment |
| RedisLimiter.RetriesQuoteOneMoment | app/infra/rate_limiter/redis_limiter.py:82-92 | every early retry is quoted that same moment |
| KeyExpiry.ExpiryKeepsStore | app/infra/rate_limiter/redis_limiter.py:55-67 | over any run on any keys with limits changing from call to call, if the gateways' clocks move on by the window whenever Redis's moves on by the time to live between consecutive calls on one key, expiring keys leaves the same hashes as never expiring them |
| KeyExpiry.ExpiryIsInvisible | app/infra/rate_limiter/redis_limiter.py:94-101 | and every caller gets the same reply |
| KeyExpiry.StoredByLastCall | app/infra/rate_limiter/redis_limiter.py:79-99 | a stored hash carries the clock and expiry of the last call on its key and is never negative |
| KeyExpiry.SlackIsUsedUp | app/infra/rate_limiter/redis_limiter.py:98-99 | for every window, with the gateways' clocks one second short of it, a request the unexpired key denies is admitted if and only if Redis's clock has moved on by the time to live |
| KeyExpiry.KeysAreSeparate | app/infra/rate_limiter/redis_limiter.py:55-81 | whatever happens on other keys, each key holds the reference bucket run over its own calls alone and lets through exactly what that bucket admits |
| KeyExpiry.KeyEnvelope | app/infra/rate_limiter/redis_limiter.py:41-102 | what the expiring store lets through on one key is at most the first call's limit plus what was earned on forward clock steps between calls on it |
| ScaledBucket.ScaledRefinesExact | app/infra/rate_limiter/redis_limiter.py:65-92 | over any run with changing limits, `window` times the stored level is an integer and a bucket kept in those units gives every reply the rational one gives |
| ScaledBucket.ScaledInRange | app/services/rate_limit_service.py:101-104 | that integer lies between 0 and `window` times the limit of the last call |
| Cluster.DistributedEnvelope | app/infra/rate_limiter/redis_limiter.py:133-164 | over any interleaving, by any number of gateways, of clock samples, scripts, Redis errors, abandoned calls and scripts that run late, with limits changing from call to call, requests let through are at most the first script's limit plus earnings on forward clock steps from script to script plus the fail-open replies |
| Cluster.DistributedEnvelopeAtOneLimit | app/infra/rate_limiter/redis_limiter.py:133-164 | at one limit that is the limit plus its rate times the clock's span between first and last script plus every backward jump, plus the fail-open replies |
| Cluster.CallsAreIndependent | app/infra/rate_limiter/redis_limiter.py:133-164 | whatever other calls do, each call's clock reading and limit are held from its own reading to its own script, and a script left on its way until it runs |
| Cluster.RunIsItsDeeds | app/infra/rate_limiter/redis_limiter.py:140-164 | over every run, exactly the scripts sent and not lost have run, in order, and the requests let through are those the bucket granted plus every reply hidden by a Redis error |
| Cluster.SharedBucket | app/infra/rate_limiter/redis_limiter.py:133-164 | the shared bucket is the reference's run over the scripts in their order, each at its own limit, and every admission not granted by it is a fail-open one |
| Cluster.EnvelopeIsReached | app/infra/rate_limiter/redis_limiter.py:65-92 | for every limit, window, number of windows and number of Redis errors an ordered run reaches limit + limit * T / window plus the fail-open replies |
| Cluster.TokensAreNotShared | app/infra/rate_limiter/base.py:66-70 | calls whose clock readings do not advance are granted no more than the tokens first found, whatever their limits, so two cannot share the last |
| Cluster.RoundingDrift | app/infra/rate_limiter/redis_limiter.py:80-91 | if every level written is off by at most a bound and none is negative, n calls at changing limits admit at most n times the bound beyond the envelope |
| Cluster.DriftIsExact | app/infra/rate_limiter/redis_limiter.py:80-91 | as long as no refill is cut off at the capacity, admissions plus the level left are the envelope plus the sum of the errors exactly |
| RateLimitService.DegradationNeverAdmitsMore | app/services/rate_limit_service.py:101-104 | on the same requests, base limits and clocks, lower health factors at any points never admit more by any prefix |
| RateLimitService.LowerFactorLowersLimit | app/services/rate_limit_service.py:102 | the effective limit grows with the health factor, for every base limit |
| RateLimitService.SingleRequestMayGain | app/services/rate_limit_service.py:101-104 | a run in which one request is admitted only because earlier ones were degraded |
| CircuitBreaker.CircuitBreaker.Enter | app/infra/circuit_breaker.py:58-69 | whether a call is forwarded, and the whole state after the way in |
| CircuitBreaker.CircuitBreaker.Fail | app/infra/circuit_breaker.py:74-82 | the whole state after a failed call, in whatever state it finds the breaker |
| CircuitBreaker.CircuitBreaker.Succeed | app/infra/circuit_breaker.py:86-92 | the whole state after a successful call, likewise |
| CircuitBreaker.RunIsItsEvents | app/infra/circuit_breaker.py:57-94 | over every run, the clock, who is upstream, the completions and their times, every tally and the opening time are what the events amount to, and the counter is the failures since the last success that found the breaker not open |
| CircuitBreaker.LetInAfterTimeout | app/infra/circuit_breaker.py:59-69 | in every reachable state a call is forwarded if and only if the breaker is not open or the timeout has passed since the latest failure, then as the probe; otherwise it fails fast and changes nothing |
| CircuitBreaker.OpenIsLeftAlone | app/infra/circuit_breaker.py:86-92 | an open breaker is unchanged by any run in which no call fails or is forwarded, late successes included |
| CircuitBreaker.HistoryDecides | app/infra/circuit_breaker.py:57-94 | in every reachable state the breaker is closed if and only if its counter is below the threshold, and then the counter is the trailing run of failed completions |
| CircuitBreaker.OpensAtThreshold | app/infra/circuit_breaker.py:74-78 | a closed breaker opens exactly when a failed completion brings that run to the threshold, and leaves CLOSED no other way |
| CircuitBreaker.HalfOpenTestIsImplied | app/infra/circuit_breaker.py:76 | in every reachable state the HALF_OPEN test on the failure path is implied by the counter test |
| CircuitBreaker.OpenSinceLastFailure | app/infra/circuit_breaker.py:74-78 | unless closed, the opening time is that of the latest failed completion, late ones included, and in HALF_OPEN the recovery timeout has passed since |
| CircuitBreaker.Blackout | app/infra/circuit_breaker.py:59-69 | from an open breaker, whatever happens before the timeout has passed since the latest failure, nothing is forwarded and it stays open |
| CircuitBreaker.SafeReclose | app/infra/circuit_breaker.py:86-92 | only a success in HALF_OPEN closes the breaker, and no failure completed within the recovery timeout before it |
| CircuitBreaker.ForwardedCallsAccounted | app/infra/circuit_breaker.py:71-94 | every forwarded call is in flight, completed or cancelled |
| Outage.OutageLoadBound | app/infra/circuit_breaker.py:57-83 | with nothing succeeding and at most k in flight, a run shorter than n + 1 recovery timeouts forwards at most threshold - 1 + k(n + 1) calls and one more for each call cancelled |
| Outage.OutageLoadIsReached | app/infra/circuit_breaker.py:57-83 | for every configuration, k, n and number of cancellations a run exactly n timeouts long forwards that many |
| Probes.NeverHalfOpenBetweenCalls | app/infra/circuit_breaker.py:59-61 | if calls never overlap and none is cancelled, HALF_OPEN is never seen between calls |
| Probes.OneProbeEndsTheSpell | app/infra/circuit_breaker.py:58-92 | then an open spell is unchanged until one call is forwarded, and that call's outcome alone closes the breaker or opens it anew |
| Probes.OneAtATimeRecovers | app/infra/circuit_breaker.py:57-94 | for every configuration calls one at a time trip the breaker, and after the timeout a successful probe closes it with a clean counter |
| Probes.HalfOpenForwardsEveryArrival | app/infra/circuit_breaker.py:58-69 | while no completion has ended HALF_OPEN every arriving call is forwarded |
| Probes.ProbeIsAlone | app/infra/circuit_breaker.py:7 | while the probe is out it is the only call forwarded if and only if no other arrives |
| Probes.ProbeDecides | app/infra/circuit_breaker.py:58-92 | from an open breaker that forwards the probe, with no other call arriving, only the probe's own completion can end the spell if and only if nothing was in flight as it entered; and the first completion, whosever, closes the breaker or opens it anew |
| Probes.OverlapBreaksDiscipline | app/infra/circuit_breaker.py:7 | for every configuration, a run with two concurrent HALF_OPEN calls that a late success from before the opening then closes |
| UpstreamHealth.OneResult | app/services/upstream_health.py:42-69 | a result is counted by reads up to 60 seconds after it, and by none once Redis's clock has moved on 180 seconds |
| UpstreamHealth.TwoResults | app/services/upstream_health.py:44-51 | a second result of a kind drops the first exactly if 60 seconds or more ahead of it, or if 180 seconds passed in Redis |
| UpstreamHealth.WindowHoldsSurvivors | app/services/upstream_health.py:42-51 | for writes in any timestamp order, if no write finds its set expired while some write to it was still in the window, the pruned and expiring set holds exactly the scores some write of which is followed by none a window ahead |
| UpstreamHealth.CountedAreSurvivors | app/services/upstream_health.py:62-69 | a read at any clock counts exactly those in its window |
| UpstreamHealth.WindowRefinesLog | app/services/upstream_health.py:62-69 | read later than every write, the count is that of distinct recent timestamps in the unpruned log; at the latest write it misses only the score exactly a window old, and only if that did not survive |
| UpstreamHealth.LastReadVerdict | app/services/upstream_health.py:62-82 | read later than every write, the surviving timestamps' verdict is that of all distinct timestamps of the last window |
| UpstreamHealth.TwoMinutesOfSlack | app/services/upstream_health.py:42-51 | that condition holds whenever Redis's clock does not run back and gains less than two minutes on the processes' |
| UpstreamHealth.BoundaryMayBeLost | app/services/upstream_health.py:49 | a log for which that boundary score is lost |
| UpstreamHealth.FactorThreshold | app/services/upstream_health.py:71-82 | limits are halved if and only if there are ten samples and more than one in five is an error |
| UpstreamHealth.StatusVersusFactor | app/services/upstream_health.py:99-104 | a reported degradation is always enforced, and the two differ if and only if 0 < 5 errors - total <= total / 4000 with ten samples |
| UpstreamHealth.HealthStore.RecordUpstreamResult | app/services/upstream_health.py:42-53 | the two sets stay what the log leaves behind, the log growing by this result unless Redis is down |
| UpstreamHealth.HealthStore.GetHealthFactor | app/services/upstream_health.py:62-85 | the factor is one half if and only if the two sets show ten samples and more than one in five an error, which for a reader at any clock is the verdict of the log's surviving timestamps in its window; 1 when Redis is down |
| UpstreamHealth.HealthStore.GetHealthStatus | app/services/upstream_health.py:90-117 | likewise the reported total, the rate to its nearest four decimals, the verdict and the factor |
| Gateway.Gateway.Begin | app/routes/proxy.py:85-91 | a fast failure is recorded as an error and never forwarded; a forwarded call records nothing yet |
| Gateway.Gateway.Finish | app/routes/proxy.py:92-101 | any response is a breaker success, a health error from 500 up; a mapped error is a failure to both; any other error is a breaker failure only |
| Gateway.Gateway.LimitRequest | app/middleware/rate_limit.py:76-93 | the limit applied is the resolved one, halved if and only if the window, and so the unpruned log, shows degradation, and the whole result and store are the bucket's at that limit or the fail-open reply |
| Gateway.HalvedLimit | app/services/rate_limit_service.py:102 | at factor 0.5 the limit is half the base rounded down, never below one; at 1.0 the base, never below one |
| Gateway.RequestsAreIndependent | app/routes/proxy.py:85-101 | whatever other requests do, each is upstream or owes its good or bad sample as its own events and the breaker's verdict on arrival decide |
| Gateway.RunIsItsDeeds | app/routes/proxy.py:85-101 | over every run, every tally is the number of times its deed was done: each arrival is forwarded or failed fast, each report sent is recorded, each lost one was aborted, and the clock is the time passed |
| Gateway.OnlyAbortsLose | app/routes/proxy.py:85-101 | a run without cancelled requests loses no sample |
| Gateway.Conservation | app/routes/proxy.py:85-101 | over any interleaving, responses are breaker successes, other completions breaker failures, and every answered, mapped-error or fast-failed request has reported, is about to report or lost exactly one health sample of the right kind |
| Gateway.RequestsAccounted | app/routes/proxy.py:85-101 | every request forwarded or failed fast has one sample, sent, pending or lost, or ended in an unmapped error, or is upstream or was cancelled there; error samples and unmapped errors together equal breaker failures, 5xx responses and fast failures |
| Gateway.EveryRequestRecorded | app/services/upstream_health.py:36-40 | samples sent equal requests forwarded and failed fast if and only if none is under way or pending, and none was cancelled, ended in an unmapped error or lost its report |
| Gateway.RequestsGoUnrecorded | app/routes/proxy.py:85-101 | for every configuration, a settled run whose one forwarded request, ending in an unmapped error or cancelled, is never recorded |
| Gateway.BreakerRunsInside | app/routes/proxy.py:86-88 | the breaker's part of such a run is a run of the breaker alone, so its guarantees carry over |

## Left out

- Floating point: levels, rates and error rates are exact; rounding of stored levels appears only as the
  bound of `Cluster.RoundingDrift`, and rounding of the error rate as four exact decimals.
- Redis and asyncio themselves: a script, a pipeline and a locked section are each one step, a key is gone from
  its write time plus its time to live on, and clocks, faults and interleavings are parameters.
- Cluster.DistributedEnvelope: stated for the bucket of one key, never evicted; `KeyExpiry.KeysAreSeparate` and
  `KeyExpiry.ExpiryKeepsStore` make each key of the expiring store such a bucket, and `KeyExpiry.KeyEnvelope`
  states its envelope.
- TokenBucket.GreedyOptimality: for one fixed capacity and rate; with changing limits only the comparison of
  two runs, `TokenBucket.GreedyLeads`, is stated.
- KeyExpiry.ExpiryIsInvisible: for one window length throughout, which is how the service calls the limiter.
- Sorted-set members other than scores: each member is its own score printed, so equal timestamps are one
  member, as in the source.
- The database lookup of an override: its row is a parameter of `RateLimitService.ResolveLimit`.
- Several worker processes: each has its own breaker, and one is modelled.
- Header copying, URL building, JWT, logging, metrics, request ids and the admin routes.
