/** Expiring idle keys is invisible, and so every key of the store is a bucket of its own:
    app/infra/rate_limiter/redis_limiter.py lines 55-99. */
module KeyExpiry {
  import opened Numbers
  import opened TokenBucket
  import opened RedisLimiter

  /** One run of the script: the gateway's clock and the Redis clock need not agree. */
  datatype Call = Call(key: string, limit: Positive, now: int, redisNow: real)

  function ArrivalOf(c: Call, window: Positive): Arrival {
    Arrival(c.now, c.limit, Rate(c.limit, window))
  }

  /** What is stored under a key, expired or not. */
  function Stored(buckets: Buckets, key: string): Option<TokenBucketState> {
    if key in buckets then Some(TokenBucketState(buckets[key].tokens, buckets[key].lastRefill)) else None
  }

  /** The state the script sees, in a store that expires keys or in one that keeps them for ever. */
  function Seen(buckets: Buckets, c: Call, expiring: bool): Option<TokenBucketState> {
    if expiring then Lookup(buckets, c.key, c.redisNow) else Stored(buckets, c.key)
  }

  /** The hashes after the first n calls. */
  function StoreAfter(calls: seq<Call>, n: nat, window: Positive, expiring: bool): Buckets
    requires n <= |calls|
  {
    if n == 0 then map[]
    else
      var buckets, c := StoreAfter(calls, n - 1, window, expiring), calls[n - 1];
      var next := NextState(Seen(buckets, c, expiring), ArrivalOf(c, window));
      buckets[c.key := Hash(next.tokens, next.lastRefill, c.redisNow + (window + 60) as real)]
  }

  function ReplyTo(calls: seq<Call>, n: nat, window: Positive, expiring: bool): Reply
    requires n < |calls|
  {
    ScriptReply(Seen(StoreAfter(calls, n, window, expiring), calls[n], expiring), ArrivalOf(calls[n], window))
  }

  /** Position of the last call on `key` among the first n, or -1. */
  function LastCall(calls: seq<Call>, n: nat, key: string): (i: int)
    requires n <= |calls|
    ensures -1 <= i < n
    ensures i >= 0 ==> calls[i].key == key
    ensures forall j | i < j < n :: calls[j].key != key
  {
    if n == 0 then -1 else if calls[n - 1].key == key then n - 1 else LastCall(calls, n - 1, key)
  }

  /** Between two consecutive calls on one key, if Redis's clock moves on by the time to live, the gateways'
      move on by at least the window. */
  ghost predicate ClocksAgree(calls: seq<Call>, window: Positive) {
    forall i, j | 0 <= i < j < |calls| && i == LastCall(calls, j, calls[j].key) ::
      calls[j].redisNow - calls[i].redisNow >= (window + 60) as real ==> calls[j].now - calls[i].now >= window
  }

  /** So they do if Redis's clock never gains more than a minute on them. */
  lemma AMinuteOfSlack(calls: seq<Call>, window: Positive)
    requires forall i, j | 0 <= i < j < |calls| && i == LastCall(calls, j, calls[j].key) ::
               calls[j].redisNow - calls[i].redisNow <= (calls[j].now - calls[i].now + 60) as real
    ensures ClocksAgree(calls, window)
  {
  }

  /** A stored hash records the last call on its key and is never overdrawn. */
  lemma {:induction false} StoredByLastCall(calls: seq<Call>, n: nat, window: Positive, key: string)
    requires n <= |calls|
    ensures var buckets, i := StoreAfter(calls, n, window, false), LastCall(calls, n, key);
            && (key in buckets <==> i >= 0)
            && (key in buckets ==>
                  && buckets[key].tokens >= 0.0
                  && buckets[key].lastRefill == calls[i].now
                  && buckets[key].expiresAt == calls[i].redisNow + (window + 60) as real)
  {
    if n > 0 {
      var c := calls[n - 1];
      StoredByLastCall(calls, n - 1, window, key);
      if c.key == key {
        var before := StoreAfter(calls, n - 1, window, false);
        NeverOverdrawn(Seen(before, c, false), ArrivalOf(c, window));
      }
    }
  }

  lemma NeverOverdrawn(state: Option<TokenBucketState>, a: Arrival)
    requires a.capacity >= 1 && (state.Some? ==> state.value.tokens >= 0.0)
    ensures NextState(state, a).tokens >= 0.0
  {
    EarnedGrows(a.rate, a.rate, 0, if state.None? then 0 else Elapsed(state.value.lastRefill, a.now));
    EarnedNothing(a.rate);
  }

  /** A bucket left alone for a whole window is full, whatever limit it is next read at. */
  lemma FullAfterAWindow(state: TokenBucketState, a: Arrival, limit: Positive, window: Positive)
    requires state.tokens >= 0.0 && a.now - state.lastRefill >= window
    requires a.capacity == limit && a.rate == Rate(limit, window)
    ensures CurrentTokens(Some(state), a) == CurrentTokens(None, a)
  {
    TtlIsWindowPlusMinute(limit, window);
    EarnedGrows(a.rate, a.rate, window, a.now - state.lastRefill);
    EarnedNothing(a.rate);
  }

  /** Eviction transparency, one call: the level read is the one a store without expiry would give. */
  lemma SameLevel(calls: seq<Call>, n: nat, window: Positive)
    requires n < |calls| && ClocksAgree(calls, window)
    ensures var buckets, a := StoreAfter(calls, n, window, false), ArrivalOf(calls[n], window);
            CurrentTokens(Seen(buckets, calls[n], true), a) == CurrentTokens(Seen(buckets, calls[n], false), a)
  {
    hide StoreAfter, Rate;
    var buckets, c := StoreAfter(calls, n, window, false), calls[n];
    StoredByLastCall(calls, n, window, c.key);
    if c.key in buckets && c.redisNow >= buckets[c.key].expiresAt {
      var i := LastCall(calls, n, c.key);
      assert calls[n].now - calls[i].now >= window;
      FullAfterAWindow(Stored(buckets, c.key).value, ArrivalOf(c, window), c.limit, window);
    }
  }

  /** The level decides everything else. */
  lemma LevelDecides(state: Option<TokenBucketState>, other: Option<TokenBucketState>, a: Arrival)
    requires CurrentTokens(state, a) == CurrentTokens(other, a)
    ensures NextState(state, a) == NextState(other, a) && ScriptReply(state, a) == ScriptReply(other, a)
  {
  }

  /** Eviction transparency: over any run, on any keys, with limits changing from call to call, the
      store that expires keys holds the same hashes as one that never does. */
  lemma {:induction false} ExpiryKeepsStore(calls: seq<Call>, n: nat, window: Positive)
    requires n <= |calls| && ClocksAgree(calls, window)
    ensures StoreAfter(calls, n, window, true) == StoreAfter(calls, n, window, false)
  {
    hide NextState, CurrentTokens, Seen, ArrivalOf, ClocksAgree;
    if n > 0 {
      ExpiryKeepsStore(calls, n - 1, window);
      SameLevel(calls, n - 1, window);
      var buckets, c := StoreAfter(calls, n - 1, window, false), calls[n - 1];
      LevelDecides(Seen(buckets, c, true), Seen(buckets, c, false), ArrivalOf(c, window));
    }
  }

  /** ... and gives every caller the same answer. */
  lemma ExpiryIsInvisible(calls: seq<Call>, n: nat, window: Positive)
    requires n < |calls| && ClocksAgree(calls, window)
    ensures ReplyTo(calls, n, window, true) == ReplyTo(calls, n, window, false)
  {
    hide StoreAfter, ScriptReply, CurrentTokens, Seen, ArrivalOf, ClocksAgree;
    ExpiryKeepsStore(calls, n, window);
    SameLevel(calls, n, window);
    var buckets, c := StoreAfter(calls, n, window, false), calls[n];
    LevelDecides(Seen(buckets, c, true), Seen(buckets, c, false), ArrivalOf(c, window));
  }

  /** The condition is tight: for every window, with the gateways' clocks moved on by one second less, a
      token not yet earned is handed out if and only if Redis's has moved on by the time to live. */
  lemma SlackIsUsedUp(key: string, window: Positive, redisNow: real)
    ensures var calls := [Call(key, 1, 0, 0.0), Call(key, 1, window - 1, redisNow)];
            && (ReplyTo(calls, 1, window, true).allowed <==> redisNow >= (window + 60) as real)
            && !ReplyTo(calls, 1, window, false).allowed
  {
    hide Rate, ScriptWait;
    var calls := [Call(key, 1, 0, 0.0), Call(key, 1, window - 1, redisNow)];
    var rate := Rate(1, window);
    EarnedNothing(rate);
    TtlIsWindowPlusMinute(1, window);
    EarnedAdds(rate, window - 1, 1);
    assert Earned(rate, 1) == rate;
    forall expiring
      ensures StoreAfter(calls, 1, window, expiring) == map[key := Hash(0.0, 0, (window + 60) as real)]
    {
      assert StoreAfter(calls, 0, window, expiring) == map[];
    }
  }

  // ---------------------------------------------------------------- one key

  /** The calls on one key among the first n, as the checks of a single bucket. */
  function ChecksOn(calls: seq<Call>, n: nat, window: Positive, key: string): (checks: seq<Arrival>)
    requires n <= |calls|
    ensures forall i | 0 <= i < |checks| :: checks[i].capacity >= 1
  {
    if n == 0 then []
    else
      ChecksOn(calls, n - 1, window, key)
      + (if calls[n - 1].key == key then [ArrivalOf(calls[n - 1], window)] else [])
  }

  /** Calls on one key that the store has let through. */
  function AllowedOn(calls: seq<Call>, n: nat, window: Positive, expiring: bool, key: string): nat
    requires n <= |calls|
  {
    if n == 0 then 0
    else
      AllowedOn(calls, n - 1, window, expiring, key)
      + Cost(calls[n - 1].key == key && ReplyTo(calls, n - 1, window, expiring).allowed)
  }

  /** Keys do not interfere: whatever happens on other keys, each one holds the reference bucket run over
      the calls on it alone, and lets through what that bucket admits. */
  lemma {:induction false} KeysAreSeparate(calls: seq<Call>, n: nat, window: Positive, key: string)
    requires n <= |calls|
    ensures var checks := ChecksOn(calls, n, window, key);
            && Stored(StoreAfter(calls, n, window, false), key) == StateAfter(None, checks, |checks|)
            && AllowedOn(calls, n, window, false, key) == Count(Admissions(None, checks), 0, |checks|)
  {
    hide NextState, Admits, ScriptWait, Remaining;
    if n > 0 {
      KeysAreSeparate(calls, n - 1, window, key);
      var earlier, checks, c := ChecksOn(calls, n - 1, window, key), ChecksOn(calls, n, window, key), calls[n - 1];
      if c.key == key {
        OneMoreCheck(None, earlier, ArrivalOf(c, window));
      } else {
        assert checks == earlier;
      }
    }
  }

  lemma {:induction false} ExpiryAdmitsTheSame(calls: seq<Call>, n: nat, window: Positive, key: string)
    requires n <= |calls| && ClocksAgree(calls, window)
    ensures AllowedOn(calls, n, window, true, key) == AllowedOn(calls, n, window, false, key)
  {
    hide ReplyTo, ClocksAgree;
    if n > 0 {
      ExpiryAdmitsTheSame(calls, n - 1, window, key);
      ExpiryIsInvisible(calls, n - 1, window);
    }
  }

  /** The envelope of one key of the store that expires keys: what it lets through is at most the limit of
      the first call on it, plus what was earned on forward clock steps between calls on it. */
  lemma KeyEnvelope(calls: seq<Call>, n: nat, window: Positive, key: string)
    requires n <= |calls| && ClocksAgree(calls, window)
    ensures var checks, allowed := ChecksOn(calls, n, window, key), AllowedOn(calls, n, window, true, key);
            if checks == [] then allowed == 0
            else allowed as real <= checks[0].capacity as real + Refill(checks, |checks| - 1)
  {
    var checks := ChecksOn(calls, n, window, key);
    ExpiryAdmitsTheSame(calls, n, window, key);
    KeysAreSeparate(calls, n, window, key);
    if checks != [] {
      SpendingIsCovered(None, checks, |checks|);
      EarnedNothing(checks[0].rate);
    }
  }
}
