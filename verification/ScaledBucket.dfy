/** The service's buckets never need fractions: with a rate of limit/window tokens a second and integer
    clocks, `window` times the level is an integer.  A bucket kept in those units, charging `window` per
    request and crediting `limit` per second, is the rational one exactly. */
module ScaledBucket {
  import opened Numbers
  import opened TokenBucket
  import opened RedisLimiter

  datatype Request = Request(limit: Positive, now: int)

  datatype Scaled = Scaled(level: int, lastRefill: int)

  /** Integer refill. */
  function ScaledLevel(state: Option<Scaled>, r: Request, window: Positive): int {
    var full := window * r.limit;
    if state.None? then full
    else
      var refilled := state.value.level + Elapsed(state.value.lastRefill, r.now) * r.limit;
      if refilled <= full then refilled else full
  }

  function ScaledNext(state: Option<Scaled>, r: Request, window: Positive): Scaled {
    var level := ScaledLevel(state, r, window);
    Scaled(if level >= window then level - window else level, r.now)
  }

  /** The integer bucket's reply: no rounding but integer division. */
  function ScaledReply(state: Option<Scaled>, r: Request, window: Positive): Reply {
    var level := ScaledLevel(state, r, window);
    if level >= window then Reply(true, (level - window) / window, 0)
    else Reply(false, 0, (window - level + r.limit - 1) / r.limit)
  }

  function ScaledAfter(requests: seq<Request>, n: nat, window: Positive): Option<Scaled>
    requires n <= |requests|
  {
    if n == 0 then None else Some(ScaledNext(ScaledAfter(requests, n - 1, window), requests[n - 1], window))
  }

  /** The same requests as the limiter passes them to the script. */
  function Trace(requests: seq<Request>, window: Positive): (trace: seq<Arrival>)
    ensures |trace| == |requests|
  {
    seq(|requests|, i requires 0 <= i < |requests| =>
      Arrival(requests[i].now, requests[i].limit, Rate(requests[i].limit, window)))
  }

  /** The rational bucket holds level / window tokens. */
  predicate Represents(scaled: Option<Scaled>, exact: Option<TokenBucketState>, window: Positive) {
    match (scaled, exact)
    case (None, None) => true
    case (Some(s), Some(x)) => s.level as real == x.tokens * window as real && s.lastRefill == x.lastRefill
    case _ => false
  }

  lemma ScaledRate(limit: Positive, window: Positive, seconds: int)
    ensures Earned(Rate(limit, window), seconds) * window as real == (seconds * limit) as real
  {
    var rate := Rate(limit, window);
    assert rate * window as real == limit as real;
    assert Earned(rate, seconds) * window as real == seconds as real * (rate * window as real);
    assert (seconds * limit) as real == seconds as real * limit as real;
  }

  lemma LevelsAgree(scaled: Option<Scaled>, exact: Option<TokenBucketState>, r: Request, window: Positive)
    requires Represents(scaled, exact, window)
    ensures var a := Arrival(r.now, r.limit, Rate(r.limit, window));
            ScaledLevel(scaled, r, window) as real == CurrentTokens(exact, a) * window as real
  {
    var a := Arrival(r.now, r.limit, Rate(r.limit, window));
    assert (window * r.limit) as real == r.limit as real * window as real;
    if exact.None? {
      EarnedNothing(a.rate);
    } else {
      var s, x := scaled.value, exact.value;
      var dt := Elapsed(x.lastRefill, r.now);
      ScaledRate(r.limit, window, dt);
      var earned := Earned(a.rate, dt);
      assert (x.tokens + earned) * window as real == x.tokens * window as real + earned * window as real;
      assert (s.level + dt * r.limit) as real == s.level as real + (dt * r.limit) as real;
      ProductOrder(r.limit as real, x.tokens + earned, window as real);
    }
  }

  /** One step: from corresponding states, the same reply and corresponding states again. */
  lemma StepsAgree(scaled: Option<Scaled>, exact: Option<TokenBucketState>, r: Request, window: Positive)
    requires Represents(scaled, exact, window)
    ensures var a := Arrival(r.now, r.limit, Rate(r.limit, window));
            && ScaledReply(scaled, r, window) == ScriptReply(exact, a)
            && Represents(Some(ScaledNext(scaled, r, window)), Some(NextState(exact, a)), window)
  {
    hide Represents, Rate, Earned, CurrentTokens, ScaledLevel, Trunc, Ceil;
    var a := Arrival(r.now, r.limit, Rate(r.limit, window));
    LevelsAgree(scaled, exact, r, window);
    RepliesAgree(scaled, exact, r, a, window);
    StatesAgree(scaled, exact, r, a, window);
  }

  lemma RepliesAgree(scaled: Option<Scaled>, exact: Option<TokenBucketState>, r: Request, a: Arrival, window: Positive)
    requires a.rate == Rate(r.limit, window)
    requires ScaledLevel(scaled, r, window) as real == CurrentTokens(exact, a) * window as real
    ensures ScaledReply(scaled, r, window) == ScriptReply(exact, a)
  {
    hide Rate, CurrentTokens, ScaledLevel, Trunc, Ceil;
    var level, tokens := ScaledLevel(scaled, r, window), CurrentTokens(exact, a);
    DecisionsAgree(level, tokens, window);
    if level >= window {
      AllowedRemainder(level, tokens, window);
    } else {
      DeniedWait(level, tokens, r.limit, window);
    }
  }

  lemma StatesAgree(scaled: Option<Scaled>, exact: Option<TokenBucketState>, r: Request, a: Arrival, window: Positive)
    requires a.now == r.now
    requires ScaledLevel(scaled, r, window) as real == CurrentTokens(exact, a) * window as real
    ensures Represents(Some(ScaledNext(scaled, r, window)), Some(NextState(exact, a)), window)
  {
    hide CurrentTokens, ScaledLevel;
    DecisionsAgree(ScaledLevel(scaled, r, window), CurrentTokens(exact, a), window);
  }

  lemma DecisionsAgree(level: int, tokens: real, window: Positive)
    requires level as real == tokens * window as real
    ensures level >= window <==> tokens >= 1.0
    ensures (level - window) as real == (tokens - 1.0) * window as real
  {
    ProductOrder(1.0, tokens, window as real);
  }

  lemma AllowedRemainder(level: int, tokens: real, window: Positive)
    requires level as real == tokens * window as real && level >= window
    ensures tokens >= 1.0 && Trunc(tokens - 1.0) == (level - window) / window
  {
    DecisionsAgree(level, tokens, window);
    FloorOfQuotient(tokens - 1.0, level - window, window);
  }

  lemma DeniedWait(level: int, tokens: real, limit: Positive, window: Positive)
    requires level as real == tokens * window as real && level < window
    ensures Ceil((1.0 - tokens) / Rate(limit, window)) == (window - level + limit - 1) / limit
  {
    var rate, w := Rate(limit, window), window as real;
    var x := (1.0 - tokens) / rate;
    assert rate * w == limit as real;
    assert (1.0 - tokens) * w == (window - level) as real;
    assert x * limit as real == (window - level) as real by {
      assert x * rate == 1.0 - tokens;
      assert x * (rate * w) == (x * rate) * w;
    }
    CeilOfQuotient(x, window - level, limit);
  }

  lemma CeilOfQuotient(x: real, a: int, b: Positive)
    requires x * b as real == a as real
    ensures Ceil(x) == (a + b - 1) / b
  {
    assert (-x) * b as real == (-a) as real;
    FloorOfQuotient(-x, -a, b);
    NegatedQuotient(a, b);
  }

  lemma NegatedQuotient(a: int, b: Positive)
    ensures -((-a) / b) == (a + b - 1) / b
  {
    var p, q := (-a) / b, (a + b - 1) / b;
    assert p * b <= -a < p * b + b;
    assert q * b <= a + b - 1 < q * b + b;
    assert (p + q) * b == p * b + q * b;
    NoMultipleBetween(p + q, b);
  }

  /** Over any run, with limits changing and clocks in any order, the integer bucket gives every reply
      the rational one gives and stays `window` times its level. */
  lemma {:induction false} ScaledRefinesExact(requests: seq<Request>, n: nat, window: Positive)
    requires n <= |requests|
    ensures Represents(ScaledAfter(requests, n, window), StateAfter(None, Trace(requests, window), n), window)
    ensures n < |requests| ==>
              ScaledReply(ScaledAfter(requests, n, window), requests[n], window)
              == ScriptReply(StateAfter(None, Trace(requests, window), n), Trace(requests, window)[n])
  {
    if n > 0 {
      ScaledRefinesExact(requests, n - 1, window);
      StepsAgree(ScaledAfter(requests, n - 1, window), StateAfter(None, Trace(requests, window), n - 1),
                 requests[n - 1], window);
    }
    if n < |requests| {
      StepsAgree(ScaledAfter(requests, n, window), StateAfter(None, Trace(requests, window), n), requests[n], window);
    }
  }

  /** A stored level is within the capacity of the last call that wrote it. */
  lemma {:induction false} ScaledInRange(requests: seq<Request>, n: nat, window: Positive)
    requires 0 < n <= |requests|
    ensures 0 <= ScaledAfter(requests, n, window).value.level <= window * requests[n - 1].limit
  {
    if n > 1 {
      ScaledInRange(requests, n - 1, window);
    }
  }
}
