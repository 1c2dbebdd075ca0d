/** The pure token bucket of app/infra/rate_limiter/algorithms.py, and what it guarantees over
    whole arrival traces.  Tokens and rates are exact reals. */
module TokenBucket {
  import opened Numbers

  datatype TokenBucketState = TokenBucketState(tokens: real, lastRefill: int)

  datatype TokenBucketResult =
    TokenBucketResult(allowed: bool, newState: TokenBucketState, remaining: int, retryAfter: int)

  /** One request: its clock reading and the capacity and rate in force for it. */
  datatype Arrival = Arrival(now: int, capacity: int, rate: PosReal)

  function Elapsed(since: int, now: int): int {
    Max(0, now - since)
  }

  /** Tokens earned in a stretch of time. */
  function Earned(rate: PosReal, seconds: int): real {
    seconds as real * rate
  }

  lemma EarnedAdds(rate: PosReal, s: int, t: int)
    ensures Earned(rate, s + t) == Earned(rate, s) + Earned(rate, t)
  {
    assert (s + t) as real == s as real + t as real;
  }

  lemma EarnedNothing(rate: PosReal)
    ensures Earned(rate, 0) == 0.0
  {
  }

  lemma EarnedGrows(slow: PosReal, fast: PosReal, s: int, t: int)
    requires slow <= fast && 0 <= s <= t
    ensures 0.0 <= Earned(slow, s) <= Earned(fast, t)
  {
    MulMono(slow, fast, s as real);
    MulMono(s as real, t as real, fast);
  }

  /** The reference's own estimate of the wait for a missing fraction of a token. */
  function WaitSeconds(deficit: real, rate: PosReal): int {
    Trunc(deficit / rate) + 1
  }

  /** The refill phase: tokens available to a request before its decision. */
  function CurrentTokens(state: Option<TokenBucketState>, a: Arrival): real {
    var bucket := if state.None? then TokenBucketState(a.capacity as real, a.now) else state.value;
    var refilled := bucket.tokens + Earned(a.rate, Elapsed(bucket.lastRefill, a.now));
    Min(refilled, a.capacity as real)
  }

  /** The decision phase: a whole token is spent, or nothing is. */
  predicate Admits(state: Option<TokenBucketState>, a: Arrival) {
    CurrentTokens(state, a) >= 1.0
  }

  /** The bucket written back.  A denial advances its clock too. */
  function NextState(state: Option<TokenBucketState>, a: Arrival): TokenBucketState {
    TokenBucketState(CurrentTokens(state, a) - Cost(Admits(state, a)) as real, a.now)
  }

  function Cost(admitted: bool): int {
    if admitted then 1 else 0
  }

  /** Whole tokens left for the response header. */
  function Remaining(state: Option<TokenBucketState>, a: Arrival): int {
    if Admits(state, a) then Trunc(CurrentTokens(state, a) - 1.0) else 0
  }

  function CheckTokenBucket(state: Option<TokenBucketState>, a: Arrival): TokenBucketResult {
    TokenBucketResult(
      Admits(state, a), NextState(state, a), Remaining(state, a),
      if Admits(state, a) then 0 else WaitSeconds(1.0 - CurrentTokens(state, a), a.rate))
  }

  // ---------------------------------------------------------------- runs

  /** The stored state once the first n requests of the trace have been checked. */
  function StateAfter(start: Option<TokenBucketState>, trace: seq<Arrival>, n: nat): Option<TokenBucketState>
    requires n <= |trace|
  {
    if n == 0 then start
    else Some(NextState(StateAfter(start, trace, n - 1), trace[n - 1]))
  }

  predicate AdmittedAt(start: Option<TokenBucketState>, trace: seq<Arrival>, n: nat)
    requires n < |trace|
  {
    Admits(StateAfter(start, trace, n), trace[n])
  }

  function Admissions(start: Option<TokenBucketState>, trace: seq<Arrival>): (bits: seq<bool>)
    ensures |bits| == |trace|
    ensures forall i | 0 <= i < |trace| :: bits[i] == AdmittedAt(start, trace, i)
  {
    seq(|trace|, i requires 0 <= i < |trace| => AdmittedAt(start, trace, i))
  }

  /** Requests admitted at positions from..to (to excluded). */
  function Count(bits: seq<bool>, from: nat, to: nat): (n: nat)
    requires to <= |bits|
  {
    if from >= to then 0 else Count(bits, from, to - 1) + Cost(bits[to - 1])
  }

  /** Clock time credited between positions from and to: the forward steps only. */
  function ForwardTime(trace: seq<Arrival>, from: nat, to: nat): (t: nat)
    requires to < |trace| || from >= to
  {
    if from >= to then 0
    else ForwardTime(trace, from, to - 1) + Elapsed(trace[to - 1].now, trace[to].now)
  }

  /** How far the clock stepped back between positions from and to, in all. */
  function BackwardTime(trace: seq<Arrival>, from: nat, to: nat): (t: nat)
    requires to < |trace| || from >= to
  {
    if from >= to then 0
    else BackwardTime(trace, from, to - 1) + Elapsed(trace[to].now, trace[to - 1].now)
  }

  ghost predicate Ordered(trace: seq<Arrival>) {
    forall i, j | 0 <= i <= j < |trace| :: trace[i].now <= trace[j].now
  }

  ghost predicate FixedLimit(trace: seq<Arrival>, capacity: int, rate: PosReal) {
    forall i | 0 <= i < |trace| :: trace[i].capacity == capacity && trace[i].rate == rate
  }

  lemma {:induction false} CreditedTime(trace: seq<Arrival>, from: nat, to: nat)
    requires from <= to < |trace|
    ensures ForwardTime(trace, from, to) == trace[to].now - trace[from].now + BackwardTime(trace, from, to)
    ensures Ordered(trace) ==> BackwardTime(trace, from, to) == 0
  {
    if from < to {
      CreditedTime(trace, from, to - 1);
    }
  }

  lemma {:induction false} PrefixStates(start: Option<TokenBucketState>, xs: seq<Arrival>, ys: seq<Arrival>, n: nat)
    requires n <= |xs| && n <= |ys| && xs[..n] == ys[..n]
    ensures StateAfter(start, xs, n) == StateAfter(start, ys, n)
  {
    if n > 0 {
      assert xs[n - 1] == xs[..n][n - 1] == ys[n - 1];
      assert xs[..n - 1] == xs[..n][..n - 1] == ys[..n - 1];
      PrefixStates(start, xs, ys, n - 1);
    }
  }

  /** Equal prefixes admit the same requests. */
  lemma {:induction false} PrefixCounts(start: Option<TokenBucketState>, xs: seq<Arrival>, ys: seq<Arrival>, n: nat)
    requires n <= |xs| && n <= |ys| && xs[..n] == ys[..n]
    ensures Count(Admissions(start, xs), 0, n) == Count(Admissions(start, ys), 0, n)
  {
    if n > 0 {
      assert xs[n - 1] == xs[..n][n - 1] == ys[n - 1];
      assert xs[..n - 1] == xs[..n][..n - 1] == ys[..n - 1];
      PrefixStates(start, xs, ys, n - 1);
      PrefixCounts(start, xs, ys, n - 1);
    }
  }

  /** One more request at the end of a run. */
  lemma OneMoreCheck(start: Option<TokenBucketState>, trace: seq<Arrival>, a: Arrival)
    ensures var longer, state := trace + [a], StateAfter(start, trace, |trace|);
            && StateAfter(start, longer, |longer|) == Some(NextState(state, a))
            && Count(Admissions(start, longer), 0, |longer|)
               == Count(Admissions(start, trace), 0, |trace|) + Cost(Admits(state, a))
  {
    hide NextState, Admits;
    var longer := trace + [a];
    assert trace[..|trace|] == trace == longer[..|trace|];
    PrefixStates(start, trace, longer, |trace|);
    PrefixCounts(start, trace, longer, |trace|);
  }

  /** Tokens earned on the forward steps up to position n, each at the rate then in force. */
  function Refill(trace: seq<Arrival>, n: nat): real
    requires n < |trace|
  {
    if n == 0 then 0.0
    else Refill(trace, n - 1) + Earned(trace[n].rate, Elapsed(trace[n - 1].now, trace[n].now))
  }

  /** At one rate that is the rate times the clock's span and backward steps. */
  lemma {:induction false} RefillAtOneRate(trace: seq<Arrival>, n: nat, capacity: int, rate: PosReal)
    requires n < |trace| && FixedLimit(trace, capacity, rate)
    ensures Refill(trace, n) == Earned(rate, ForwardTime(trace, 0, n))
    ensures Refill(trace, n) == Earned(rate, trace[n].now - trace[0].now + BackwardTime(trace, 0, n))
  {
    CreditedTime(trace, 0, n);
    EarnedNothing(rate);
    if n > 0 {
      RefillAtOneRate(trace, n - 1, capacity, rate);
      EarnedAdds(rate, ForwardTime(trace, 0, n - 1), Elapsed(trace[n - 1].now, trace[n].now));
    }
  }

  ghost predicate NonNegativeCapacities(trace: seq<Arrival>) {
    forall i | 0 <= i < |trace| :: trace[i].capacity >= 0
  }

  /** Spending is covered: with limits changing from request to request, what any start state's run has
      admitted, with what is left, never exceeds the tokens first offered plus those earned since. */
  lemma {:induction false} SpendingIsCovered(start: Option<TokenBucketState>, trace: seq<Arrival>, n: nat)
    requires 0 < n <= |trace| && NonNegativeCapacities(trace)
    requires start.Some? ==> start.value.tokens >= 0.0
    ensures var last := StateAfter(start, trace, n).value;
            && last.lastRefill == trace[n - 1].now
            && 0.0 <= last.tokens
            && Count(Admissions(start, trace), 0, n) as real + last.tokens
               <= CurrentTokens(start, trace[0]) + Refill(trace, n - 1)
  {
    var before, a := StateAfter(start, trace, n - 1), trace[n - 1];
    EarnedNothing(a.rate);
    if n == 1 {
      var dt := if start.None? then 0 else Elapsed(start.value.lastRefill, a.now);
      EarnedGrows(a.rate, a.rate, 0, dt);
    } else {
      SpendingIsCovered(start, trace, n - 1);
      EarnedGrows(a.rate, a.rate, 0, Elapsed(trace[n - 2].now, a.now));
    }
    assert StateAfter(start, trace, n) == Some(NextState(before, a));
  }

  // ------------------------------------------------- buckets driven by a policy

  /** Level, before the decision at n, of a bucket whose admissions are dictated by `policy`. */
  function PolicyLevel(trace: seq<Arrival>, policy: seq<bool>, n: nat): real
    requires n < |trace| == |policy|
  {
    var full := trace[n].capacity as real;
    if n == 0 then full
    else
      var left := PolicyLevel(trace, policy, n - 1) - Cost(policy[n - 1]) as real;
      Min(left + Earned(trace[n].rate, Elapsed(trace[n - 1].now, trace[n].now)), full)
  }

  lemma {:induction false} BucketFollowsItself(trace: seq<Arrival>, n: nat)
    requires n < |trace|
    ensures CurrentTokens(StateAfter(None, trace, n), trace[n]) == PolicyLevel(trace, Admissions(None, trace), n)
  {
    EarnedNothing(trace[n].rate);
    if n > 0 {
      BucketFollowsItself(trace, n - 1);
      var before := StateAfter(None, trace, n - 1);
      assert Admissions(None, trace)[n - 1] == AdmittedAt(None, trace, n - 1);
      assert StateAfter(None, trace, n) == Some(NextState(before, trace[n - 1]));
    }
  }

  ghost predicate NoLooser(tight: seq<Arrival>, loose: seq<Arrival>) {
    && |tight| == |loose|
    && forall i | 0 <= i < |tight| ::
         tight[i].now == loose[i].now && tight[i].capacity <= loose[i].capacity && tight[i].rate <= loose[i].rate
  }

  ghost predicate Affordable(trace: seq<Arrival>, policy: seq<bool>)
    requires |trace| == |policy|
  {
    forall i | 0 <= i < |trace| :: policy[i] ==> PolicyLevel(trace, policy, i) >= 1.0
  }

  /** A greedy bucket under looser limits is never behind any affordable policy under tighter ones,
      and has never less in hand, counting what it spent.  Clocks may step back. */
  lemma {:induction false} GreedyLeads(tight: seq<Arrival>, loose: seq<Arrival>, policy: seq<bool>, n: nat)
    requires NoLooser(tight, loose) && |policy| == |tight|
    requires Affordable(tight, policy)
    requires n <= |tight|
    ensures Count(policy, 0, n) <= Count(Admissions(None, loose), 0, n)
    ensures n < |tight| ==>
              Count(policy, 0, n) as real + PolicyLevel(tight, policy, n)
              <= Count(Admissions(None, loose), 0, n) as real + PolicyLevel(loose, Admissions(None, loose), n)
  {
    if n > 0 {
      var greedy := Admissions(None, loose);
      GreedyLeads(tight, loose, policy, n - 1);
      BucketFollowsItself(loose, n - 1);
      assert greedy[n - 1] <==> PolicyLevel(loose, greedy, n - 1) >= 1.0;
      assert policy[n - 1] ==> PolicyLevel(tight, policy, n - 1) >= 1.0;
      if n < |tight| {
        var dt := Elapsed(tight[n - 1].now, tight[n].now);
        EarnedGrows(tight[n].rate, loose[n].rate, dt, dt);
      }
    }
  }

  /** The bucket itself under tighter limits is such a policy: whatever limits change to and whatever the
      clocks do, lowering some of them never lets more requests through by any prefix. */
  lemma TighterLimitsNeverAdmitMore(tight: seq<Arrival>, loose: seq<Arrival>, n: nat)
    requires NoLooser(tight, loose) && n <= |tight|
    ensures Count(Admissions(None, tight), 0, n) <= Count(Admissions(None, loose), 0, n)
  {
    forall i | 0 <= i < |tight| && Admissions(None, tight)[i]
      ensures PolicyLevel(tight, Admissions(None, tight), i) >= 1.0
    {
      BucketFollowsItself(tight, i);
    }
    GreedyLeads(tight, loose, Admissions(None, tight), n);
  }

  /** The level is the lower envelope of one straight line per earlier arrival: it is below each,
      and on one of them. */
  lemma {:induction false} LevelIsLowerEnvelope(trace: seq<Arrival>, policy: seq<bool>, n: nat, capacity: int,
                                                rate: PosReal)
      returns (touch: nat)
    requires n < |trace| == |policy| && FixedLimit(trace, capacity, rate)
    ensures forall k | 0 <= k <= n ::
              PolicyLevel(trace, policy, n)
              <= capacity as real + Earned(rate, ForwardTime(trace, k, n)) - Count(policy, k, n) as real
    ensures touch <= n
    ensures PolicyLevel(trace, policy, n)
            == capacity as real + Earned(rate, ForwardTime(trace, touch, n)) - Count(policy, touch, n) as real
  {
    touch := n;
    EarnedNothing(rate);
    if n > 0 {
      var earlier := LevelIsLowerEnvelope(trace, policy, n - 1, capacity, rate);
      var dt := Elapsed(trace[n - 1].now, trace[n].now);
      var kept := PolicyLevel(trace, policy, n - 1) - Cost(policy[n - 1]) as real + Earned(rate, dt);
      forall k | 0 <= k <= n
        ensures PolicyLevel(trace, policy, n)
                <= capacity as real + Earned(rate, ForwardTime(trace, k, n)) - Count(policy, k, n) as real
      {
        if k < n {
          EarnedAdds(rate, ForwardTime(trace, k, n - 1), dt);
        }
      }
      if kept <= capacity as real {
        touch := earlier;
        EarnedAdds(rate, ForwardTime(trace, touch, n - 1), dt);
      }
    }
  }

  // ------------------------------------------------- main results for a fixed limit

  /** Room for one more request at n, counting from arrival k on, when `seconds` of refill lie between. */
  ghost predicate Room(bits: seq<bool>, k: nat, n: nat, capacity: int, rate: PosReal, seconds: int)
    requires k <= n < |bits|
  {
    (Count(bits, k, n) + 1) as real <= capacity as real + Earned(rate, seconds)
  }

  /** Exact closed form of the decision, for clocks in any order. */
  lemma ClosedForm(trace: seq<Arrival>, n: nat, capacity: int, rate: PosReal)
    requires n < |trace| && FixedLimit(trace, capacity, rate)
    ensures AdmittedAt(None, trace, n)
            <==> forall k | 0 <= k <= n ::
                   Room(Admissions(None, trace), k, n, capacity, rate, ForwardTime(trace, k, n))
  {
    var bits := Admissions(None, trace);
    var touch := LevelIsLowerEnvelope(trace, bits, n, capacity, rate);
    BucketFollowsItself(trace, n);
    if forall k | 0 <= k <= n :: Room(bits, k, n, capacity, rate, ForwardTime(trace, k, n)) {
      assert Room(bits, touch, n, capacity, rate, ForwardTime(trace, touch, n));
    }
  }

  /** The closed form in wall-clock terms when the clock never steps back. */
  lemma ClosedFormOrdered(trace: seq<Arrival>, n: nat, capacity: int, rate: PosReal)
    requires n < |trace| && FixedLimit(trace, capacity, rate) && Ordered(trace)
    ensures AdmittedAt(None, trace, n)
            <==> forall k | 0 <= k <= n ::
                   Room(Admissions(None, trace), k, n, capacity, rate, trace[n].now - trace[k].now)
  {
    hide *;
    ClosedForm(trace, n, capacity, rate);
    var bits := Admissions(None, trace);
    if AdmittedAt(None, trace, n) {
      forall k | 0 <= k <= n
        ensures Room(bits, k, n, capacity, rate, trace[n].now - trace[k].now)
      {
        CreditedTime(trace, k, n);
        assert Room(bits, k, n, capacity, rate, ForwardTime(trace, k, n));
      }
    } else {
      var k: nat :| k <= n && !Room(bits, k, n, capacity, rate, ForwardTime(trace, k, n));
      CreditedTime(trace, k, n);
      assert !Room(bits, k, n, capacity, rate, trace[n].now - trace[k].now);
    }
  }

  /** No stretch of the trace admits more than the capacity plus what was earned during it. */
  ghost predicate FitsEnvelope(trace: seq<Arrival>, bits: seq<bool>, capacity: int, rate: PosReal)
    requires |trace| == |bits|
  {
    forall i, j | 0 <= i < j <= |trace| :: Count(bits, i, j) > 0 ==>
      Count(bits, i, j) as real <= capacity as real + Earned(rate, ForwardTime(trace, i, j - 1))
  }

  /** The bucket keeps the envelope on every stretch. */
  lemma {:induction false} BucketFitsStretch(trace: seq<Arrival>, i: nat, j: nat, capacity: int, rate: PosReal)
    requires i < j <= |trace| && FixedLimit(trace, capacity, rate)
    ensures var admitted := Count(Admissions(None, trace), i, j);
            admitted > 0 ==> admitted as real <= capacity as real + Earned(rate, ForwardTime(trace, i, j - 1))
  {
    var bits := Admissions(None, trace);
    ClosedForm(trace, j - 1, capacity, rate);
    if AdmittedAt(None, trace, j - 1) {
      assert Room(bits, i, j - 1, capacity, rate, ForwardTime(trace, i, j - 1));
    } else if i < j - 1 {
      BucketFitsStretch(trace, i, j - 1, capacity, rate);
      EarnedGrows(rate, rate, ForwardTime(trace, i, j - 2), ForwardTime(trace, i, j - 1));
    }
  }

  lemma EnvelopeMakesAffordable(trace: seq<Arrival>, policy: seq<bool>, capacity: int, rate: PosReal)
    requires |trace| == |policy| && FixedLimit(trace, capacity, rate)
    requires FitsEnvelope(trace, policy, capacity, rate)
    ensures Affordable(trace, policy)
  {
    forall n | 0 <= n < |trace| && policy[n]
      ensures PolicyLevel(trace, policy, n) >= 1.0
    {
      var touch := LevelIsLowerEnvelope(trace, policy, n, capacity, rate);
      assert Count(policy, touch, n + 1) == Count(policy, touch, n) + 1;
    }
  }

  /** Greedy optimality: the bucket keeps the envelope, and at every prefix it has admitted at least
      as many requests as any policy whatsoever that keeps it too. */
  lemma GreedyOptimality(trace: seq<Arrival>, policy: seq<bool>, n: nat, capacity: int, rate: PosReal)
    requires |trace| == |policy| && n <= |trace| && FixedLimit(trace, capacity, rate)
    ensures FitsEnvelope(trace, Admissions(None, trace), capacity, rate)
    ensures FitsEnvelope(trace, policy, capacity, rate)
            ==> Count(policy, 0, n) <= Count(Admissions(None, trace), 0, n)
  {
    forall i, j | 0 <= i < j <= |trace| && Count(Admissions(None, trace), i, j) > 0
      ensures Count(Admissions(None, trace), i, j) as real
              <= capacity as real + Earned(rate, ForwardTime(trace, i, j - 1))
    {
      BucketFitsStretch(trace, i, j, capacity, rate);
    }
    if FitsEnvelope(trace, policy, capacity, rate) {
      EnvelopeMakesAffordable(trace, policy, capacity, rate);
      GreedyLeads(trace, trace, policy, n);
    }
  }

  // ------------------------------------------------- the advertised headers

  /** `remaining` is exactly how many more requests the same instant can still take, none after a denial. */
  lemma {:induction false} RemainingIsTheBurstLeft(state: Option<TokenBucketState>, a: Arrival,
                                                   burst: seq<Arrival>, i: nat)
    requires i < |burst| && forall j | 0 <= j < |burst| :: burst[j] == a
    ensures var first := CheckTokenBucket(state, a);
            var start := Some(first.newState);
            && (AdmittedAt(start, burst, i) <==> i < first.remaining)
            && (i <= first.remaining ==>
                  StateAfter(start, burst, i) == Some(TokenBucketState(first.newState.tokens - i as real, a.now)))
  {
    var first := CheckTokenBucket(state, a);
    var start := Some(first.newState);
    EarnedNothing(a.rate);
    if i > 0 {
      RemainingIsTheBurstLeft(state, a, burst, i - 1);
      if i > first.remaining {
        StaysEmpty(start, burst, i - 1);
      }
    }
  }

  /** Once denied, an unchanged request stays denied. */
  lemma StaysEmpty(start: Option<TokenBucketState>, burst: seq<Arrival>, i: nat)
    requires i + 1 < |burst| && burst[i] == burst[i + 1]
    requires !AdmittedAt(start, burst, i)
    ensures !AdmittedAt(start, burst, i + 1)
  {
    EarnedNothing(burst[i].rate);
    assert StateAfter(start, burst, i + 1) == Some(NextState(StateAfter(start, burst, i), burst[i]));
  }
}
