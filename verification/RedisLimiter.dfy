/** The Redis form of the token bucket, app/infra/rate_limiter/redis_limiter.py: a Lua script that
    reads, updates and re-expires one hash per key, and the limiter that calls it. */
module RedisLimiter {
  import opened Numbers
  import opened TokenBucket

  datatype Hash = Hash(tokens: real, lastRefill: int, expiresAt: real)

  type Buckets = map<string, Hash>

  /** What HGET finds: nothing once the key has expired. */
  function Lookup(buckets: Buckets, key: string, redisNow: real): Option<TokenBucketState> {
    if key in buckets && redisNow < buckets[key].expiresAt
    then Some(TokenBucketState(buckets[key].tokens, buckets[key].lastRefill))
    else None
  }

  function Ttl(capacity: int, rate: PosReal): int {
    Ceil(capacity as real / rate) + 60
  }

  /** The wait the script advertises. */
  function ScriptWait(state: Option<TokenBucketState>, a: Arrival): int {
    if Admits(state, a) then 0 else Ceil((1.0 - CurrentTokens(state, a)) / a.rate)
  }

  datatype Reply = Reply(allowed: bool, remaining: int, retryAfter: int)

  /** What the script tells its caller. */
  function ScriptReply(state: Option<TokenBucketState>, a: Arrival): Reply {
    Reply(Admits(state, a), Remaining(state, a), ScriptWait(state, a))
  }

  class RedisServer {
    var buckets: Buckets

    constructor ()
      ensures buckets == map[]
    {
      buckets := map[];
    }

    /** One atomic run of the script at Redis time `redisNow`: the reference's decision, remainder
        and next state, and its wait less the second it overshoots by when the quotient is whole. */
    method RunTokenBucketScript(key: string, capacity: int, refillRate: PosReal, now: int, redisNow: real)
      returns (allowed: int, remaining: int, retryAfter: int)
      modifies this
      ensures var a := Arrival(now, capacity, refillRate);
              var state := old(Lookup(buckets, key, redisNow));
              var reference := CheckTokenBucket(state, a);
              && allowed == Cost(reference.allowed)
              && remaining == reference.remaining
              && retryAfter == reference.retryAfter
                               - Cost(!reference.allowed && Whole((1.0 - CurrentTokens(state, a)) / refillRate))
              && retryAfter == ScriptWait(state, a)
      ensures var reference := CheckTokenBucket(old(Lookup(buckets, key, redisNow)), Arrival(now, capacity, refillRate));
              buckets == old(buckets)[key := Hash(reference.newState.tokens, reference.newState.lastRefill,
                                                  redisNow + Ttl(capacity, refillRate) as real)]
    {
      hide Ttl, WaitSeconds, Trunc, Ceil, Whole;
      ghost var a := Arrival(now, capacity, refillRate);
      WaitsDiffer(Lookup(buckets, key, redisNow), a);

      var found := Lookup(buckets, key, redisNow);
      var tokens, lastRefill;
      if found.None? {
        tokens := capacity as real;
        lastRefill := now;
      } else {
        tokens := found.value.tokens;
        lastRefill := found.value.lastRefill;
      }
      var elapsed := Max(0, now - lastRefill);
      var refilled := tokens + elapsed as real * refillRate;
      var current := Min(refilled, capacity as real);
      assert current == CurrentTokens(found, a);
      var hash := Hash(tokens, lastRefill, 0.0);
      if current >= 1.0 {
        allowed := 1;
        remaining := (current - 1.0).Floor;
        retryAfter := 0;
        hash := hash.(tokens := current - 1.0);
        hash := hash.(lastRefill := now);
      } else {
        allowed := 0;
        remaining := 0;
        var deficit := 1.0 - current;
        retryAfter := Ceil(deficit / refillRate);
        hash := hash.(tokens := current);
        hash := hash.(lastRefill := now);
      }
      assert TokenBucketState(hash.tokens, hash.lastRefill) == NextState(found, a);
      var ttl := Ttl(capacity, refillRate);
      buckets := buckets[key := hash.(expiresAt := redisNow + ttl as real)];
    }
  }

  /** The script rounds the wait up; the reference truncates and adds one. */
  lemma WaitsDiffer(state: Option<TokenBucketState>, a: Arrival)
    ensures var reference := CheckTokenBucket(state, a);
            ScriptWait(state, a)
            == reference.retryAfter - Cost(!reference.allowed && Whole((1.0 - CurrentTokens(state, a)) / a.rate))
  {
    if !Admits(state, a) {
      var deficit := 1.0 - CurrentTokens(state, a);
      PositiveQuotient(deficit, a.rate);
      CeilOfPositive(deficit / a.rate);
    }
  }

  /** The two do disagree: with an empty bucket and a token a second, the script says one second and the
      reference two. */
  lemma WaitsMayDiffer()
    ensures var state, a := Some(TokenBucketState(0.0, 0)), Arrival(0, 60, 1.0);
            ScriptWait(state, a) == 1 && CheckTokenBucket(state, a).retryAfter == 2
  {
    var state, a := Some(TokenBucketState(0.0, 0)), Arrival(0, 60, 1.0);
    EarnedNothing(a.rate);
    assert CurrentTokens(state, a) == 0.0;
  }

  // ---------------------------------------------------------------- the limiter

  datatype LimitResult = LimitResult(allowed: bool, limit: int, remaining: int, retryAfter: int, degraded: bool)

  /** How a call to Redis may go wrong: an error before the script ran, or after it did. */
  datatype Fault = Healthy | LostBefore | LostAfter

  function Rate(limit: Positive, window: Positive): PosReal {
    QuotientBounds(limit as real, window as real, 0.0);
    limit as real / window as real
  }

  class RedisRateLimiter {
    const redis: RedisServer

    constructor (redis: RedisServer)
      ensures this.redis == redis
    {
      this.redis := redis;
    }

    /** One check.  A Redis error lets the request through, whether or not the script ran. */
    method Check(key: string, limit: Positive, window: Positive, now: int, redisNow: real, fault: Fault)
      returns (r: LimitResult)
      modifies redis
      ensures var a := Arrival(now, limit, Rate(limit, window));
              var state := old(Lookup(redis.buckets, key, redisNow));
              var reply, next := ScriptReply(state, a), NextState(state, a);
              && (fault.Healthy? ==> r == LimitResult(reply.allowed, limit, reply.remaining, reply.retryAfter, false))
              && (!fault.Healthy? ==> r == LimitResult(true, limit, -1, 0, true))
              && redis.buckets ==
                 if fault.LostBefore? then old(redis.buckets)
                 else old(redis.buckets)[key := Hash(next.tokens, next.lastRefill, redisNow + (window + 60) as real)]
    {
      TtlIsWindowPlusMinute(limit, window);
      if fault.LostBefore? {
        return LimitResult(true, limit, -1, 0, true);
      }
      var allowed, remaining, retryAfter := redis.RunTokenBucketScript(key, limit, Rate(limit, window), now, redisNow);
      if fault.LostAfter? {
        return LimitResult(true, limit, -1, 0, true);
      }
      r := LimitResult(allowed != 0, limit, remaining, retryAfter, false);
    }
  }

  /** A whole window refills the whole capacity, so the key outlives a full refill by a minute. */
  lemma TtlIsWindowPlusMinute(limit: Positive, window: Positive)
    ensures Earned(Rate(limit, window), window) == limit as real
    ensures Ttl(limit, Rate(limit, window)) == window + 60
  {
    var l, w := limit as real, window as real;
    assert l / w * w == l;
    var rate := Rate(limit, window);
    QuotientBounds(l, rate, w);
  }

  // ---------------------------------------------------------------- Retry-After

  /** After a denial the first later clock reading that admits a request is exactly the denial's plus
      the advertised wait; the reference's own figure is that or one second more.  Both are nought for an
      admitted request. */
  lemma RetryAfterIsExact(state: Option<TokenBucketState>, a: Arrival, t: int)
    requires a.capacity >= 1 && a.now <= t
    ensures !Admits(state, a) ==>
              (Admits(Some(NextState(state, a)), a.(now := t)) <==> a.now + ScriptWait(state, a) <= t)
    ensures ScriptWait(state, a) >= 0 && (ScriptWait(state, a) == 0 <==> Admits(state, a))
    ensures ScriptWait(state, a) <= CheckTokenBucket(state, a).retryAfter
            <= ScriptWait(state, a) + Cost(!Admits(state, a))
  {
    var deficit := 1.0 - CurrentTokens(state, a);
    QuotientBounds(deficit, a.rate, (t - a.now) as real);
    QuotientBounds(deficit, a.rate, 0.0);
    WaitsDiffer(state, a);
  }

  /** Retries made before the advertised moment. */
  ghost predicate EarlyRetries(state: Option<TokenBucketState>, a: Arrival, polls: seq<Arrival>) {
    && FixedLimit(polls, a.capacity, a.rate)
    && Ordered(polls)
    && forall i | 0 <= i < |polls| :: a.now <= polls[i].now < a.now + ScriptWait(state, a)
  }

  /** Polling is free: every early retry is denied, and none changes whether any later request at the
      same limit is admitted or what it leaves behind; the first admission is still where it was
      announced. */
  lemma PollingIsFree(state: Option<TokenBucketState>, a: Arrival, polls: seq<Arrival>, n: nat, later: Arrival)
    requires a.capacity >= 1 && !Admits(state, a) && EarlyRetries(state, a, polls) && n <= |polls|
    requires later.capacity == a.capacity && later.rate == a.rate
    requires a.now <= later.now && (n > 0 ==> polls[n - 1].now <= later.now)
    ensures var denied := Some(NextState(state, a));
            var polled := StateAfter(denied, polls, n);
            && (forall i | 0 <= i < n :: !AdmittedAt(denied, polls, i))
            && NextState(polled, later) == NextState(denied, later)
            && (Admits(polled, later) <==> a.now + ScriptWait(state, a) <= later.now)
  {
    var denied := Some(NextState(state, a));
    RetryAfterIsExact(state, a, later.now);
    PollsOnlyAccrue(state, a, polls, n, later);
    forall i | 0 <= i < n
      ensures !AdmittedAt(denied, polls, i)
    {
      PollsOnlyAccrue(state, a, polls, i, polls[i]);
      RetryAfterIsExact(state, a, polls[i].now);
    }
  }

  /** And no others are: of retries in order at the same limit, all are denied if and only if all come
      before the announced moment. */
  lemma {:induction false} OnlyEarlyRetriesFail(state: Option<TokenBucketState>, a: Arrival, polls: seq<Arrival>)
    requires a.capacity >= 1 && !Admits(state, a)
    requires FixedLimit(polls, a.capacity, a.rate) && Ordered(polls)
    requires forall i | 0 <= i < |polls| :: a.now <= polls[i].now
    ensures EarlyRetries(state, a, polls)
            <==> forall i | 0 <= i < |polls| :: !AdmittedAt(Some(NextState(state, a)), polls, i)
  {
    hide ScriptWait, NextState, Admits;
    if polls != [] {
      var denied, n := Some(NextState(state, a)), |polls| - 1;
      var earlier := polls[..n];
      OnlyEarlyRetriesFail(state, a, earlier);
      forall i | 0 <= i <= n
        ensures StateAfter(denied, earlier, i) == StateAfter(denied, polls, i)
      {
        PrefixStates(denied, earlier, polls, i);
      }
      assert forall i | 0 <= i < n :: AdmittedAt(denied, earlier, i) == AdmittedAt(denied, polls, i);
      if EarlyRetries(state, a, earlier) {
        PollingIsFree(state, a, earlier, n, polls[n]);
        assert AdmittedAt(denied, polls, n) <==> a.now + ScriptWait(state, a) <= polls[n].now;
      } else {
        var i :| 0 <= i < n && AdmittedAt(denied, earlier, i);
        assert AdmittedAt(denied, polls, i);
      }
    }
  }

  /** ... and every early retry is quoted that same moment. */
  lemma RetriesQuoteOneMoment(state: Option<TokenBucketState>, a: Arrival, polls: seq<Arrival>, n: nat)
    requires a.capacity >= 1 && !Admits(state, a) && EarlyRetries(state, a, polls) && n < |polls|
    ensures polls[n].now + ScriptWait(StateAfter(Some(NextState(state, a)), polls, n), polls[n])
            == a.now + ScriptWait(state, a)
  {
    hide ScriptWait, NextState, Admits;
    var seen, poll := StateAfter(Some(NextState(state, a)), polls, n), polls[n];
    assert !AdmittedAt(Some(NextState(state, a)), polls, n) by {
      PollingIsFree(state, a, polls, n + 1, poll);
    }
    var quoted, announced := poll.now + ScriptWait(seen, poll), a.now + ScriptWait(state, a);
    RetryAfterIsExact(seen, poll, poll.now);
    OneMoment(state, a, polls, n, quoted);
    OneMoment(state, a, polls, n, announced);
  }

  lemma OneMoment(state: Option<TokenBucketState>, a: Arrival, polls: seq<Arrival>, n: nat, t: int)
    requires a.capacity >= 1 && !Admits(state, a) && EarlyRetries(state, a, polls) && n < |polls|
    requires polls[n].now <= t
    ensures var seen := StateAfter(Some(NextState(state, a)), polls, n);
            polls[n].now + ScriptWait(seen, polls[n]) <= t <==> a.now + ScriptWait(state, a) <= t
  {
    hide ScriptWait, NextState, Admits;
    var denied, poll := Some(NextState(state, a)), polls[n];
    PollingIsFree(state, a, polls, n + 1, poll.(now := t));
    assert !AdmittedAt(denied, polls, n);
    RetryAfterIsExact(StateAfter(denied, polls, n), poll, t);
    assert StateAfter(denied, polls, n + 1) == Some(NextState(StateAfter(denied, polls, n), poll));
  }

  lemma {:induction false} PollsOnlyAccrue(state: Option<TokenBucketState>, a: Arrival, polls: seq<Arrival>,
                                           n: nat, later: Arrival)
    requires a.capacity >= 1 && !Admits(state, a) && EarlyRetries(state, a, polls) && n <= |polls|
    requires later.capacity == a.capacity && later.rate == a.rate
    requires a.now <= later.now && (n > 0 ==> polls[n - 1].now <= later.now)
    ensures var denied := Some(NextState(state, a));
            CurrentTokens(StateAfter(denied, polls, n), later) == CurrentTokens(denied, later)
  {
    var denied := Some(NextState(state, a));
    if n > 0 {
      var poll := polls[n - 1];
      PollsOnlyAccrue(state, a, polls, n - 1, poll);
      RetryAfterIsExact(state, a, poll.now);
      EarnedAdds(a.rate, poll.now - a.now, later.now - poll.now);
      assert StateAfter(denied, polls, n) == Some(NextState(StateAfter(denied, polls, n - 1), poll));
    }
  }
}
