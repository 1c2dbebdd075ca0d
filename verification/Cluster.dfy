/** Any number of gateways sharing one key: each call reads its gateway's clock first and reaches Redis
    later, so readings arrive out of order, and a Redis error may strike before or after the script.
    app/infra/rate_limiter/redis_limiter.py lines 133-164. */
module Cluster {
  import opened Numbers
  import opened TokenBucket
  import opened RedisLimiter

  /** A check's clock reading and the limit resolved for it. */
  type Check = a: Arrival | a.capacity >= 1 witness Arrival(0, 1, 1.0)

  /** A call reads its clock; its script runs and is answered, or runs and the answer is lost; it fails open
      or its client goes away, in both cases with the script possibly still on its way; a script on its way
      runs after all. */
  datatype Event =
    | Sample(call: nat, check: Check)
    | Execute(call: nat)
    | ExecuteUnheard(call: nat)
    | FailOpen(call: nat)
    | Abandon(call: nat)
    | ExecuteLate(call: nat)

  /** Calls between their clock reading and their script, and calls already over whose script may still
      run; the bucket; the scripts run so far; replies that let a request through, and how many of them were
      fail-open. */
  datatype Cluster = Cluster(
    sampled: map<nat, Check>, orphaned: map<nat, Check>, bucket: Option<TokenBucketState>, scripts: seq<Check>,
    allowed: nat, failedOpen: nat)

  const IDLE := Cluster(map[], map[], None, [], 0, 0)

  function RunScript(s: Cluster, a: Check): Cluster {
    s.(bucket := Some(NextState(s.bucket, a)), scripts := s.scripts + [a])
  }

  /** One atomic step.  A step of a call that is not in a position to take it changes nothing. */
  function Step(s: Cluster, e: Event): Cluster {
    match e
    case Sample(call, check) =>
      if call in s.sampled || call in s.orphaned then s else s.(sampled := s.sampled[call := check])
    case Execute(call) =>
      if call !in s.sampled then s
      else RunScript(s, s.sampled[call]).(sampled := s.sampled - {call},
                                          allowed := s.allowed + Cost(Admits(s.bucket, s.sampled[call])))
    case ExecuteUnheard(call) =>
      if call !in s.sampled then s
      else RunScript(s, s.sampled[call]).(sampled := s.sampled - {call},
                                          allowed := s.allowed + 1, failedOpen := s.failedOpen + 1)
    case FailOpen(call) =>
      if call !in s.sampled then s
      else s.(sampled := s.sampled - {call}, orphaned := s.orphaned[call := s.sampled[call]],
              allowed := s.allowed + 1, failedOpen := s.failedOpen + 1)
    case Abandon(call) =>
      if call !in s.sampled then s
      else s.(sampled := s.sampled - {call}, orphaned := s.orphaned[call := s.sampled[call]])
    case ExecuteLate(call) =>
      if call !in s.orphaned then s
      else RunScript(s, s.orphaned[call]).(orphaned := s.orphaned - {call})
  }

  function Run(events: seq<Event>): Cluster {
    if events == [] then IDLE else Step(Run(events[..|events| - 1]), events[|events| - 1])
  }

  // ---------------------------------------------------------------- what the events amount to

  /** Where a call stands: not made, its clock read and its limit known, or over with its script perhaps
      still on its way. */
  datatype Phase = Away | Waiting(check: Check) | Over(check: Check)

  /** What a step of a call at that point does. */
  datatype Deed = Read(check: Check) | Answered | LostReply | FailedOpen | Left | RanLate | Nothing

  function DeedOf(phase: Phase, e: Event): Deed {
    match (phase, e)
    case (Away, Sample(_, check)) => Read(check)
    case (Waiting(_), Execute(_)) => Answered
    case (Waiting(_), ExecuteUnheard(_)) => LostReply
    case (Waiting(_), FailOpen(_)) => FailedOpen
    case (Waiting(_), Abandon(_)) => Left
    case (Over(_), ExecuteLate(_)) => RanLate
    case _ => Nothing
  }

  /** Where a call stands is decided by its own events alone. */
  function PhaseAfter(events: seq<Event>, call: nat): Phase {
    if events == [] then Away
    else
      var e, phase := events[|events| - 1], PhaseAfter(events[..|events| - 1], call);
      if e.call != call then phase
      else
        match DeedOf(phase, e)
        case Read(check) => Waiting(check)
        case FailedOpen => Over(phase.check)
        case Left => Over(phase.check)
        case Nothing => phase
        case _ => Away
  }

  /** The checks of the scripts that ran, in their order. */
  function Scripts(events: seq<Event>): seq<Check> {
    if events == [] then []
    else
      var before, e := events[..|events| - 1], events[|events| - 1];
      var phase := PhaseAfter(before, e.call);
      var deed := DeedOf(phase, e);
      Scripts(before) + if deed.Answered? || deed.LostReply? || deed.RanLate? then [phase.check] else []
  }

  /** Replies let through because of a Redis error, before the script ran or after it did. */
  function FailOpens(events: seq<Event>): nat {
    if events == [] then 0
    else
      var before, e := events[..|events| - 1], events[|events| - 1];
      var deed := DeedOf(PhaseAfter(before, e.call), e);
      FailOpens(before) + Cost(deed.FailedOpen? || deed.LostReply?)
  }

  /** Replies let through by the reference bucket, fed every script that ran before. */
  function Grants(events: seq<Event>): nat {
    if events == [] then 0
    else
      var before, e := events[..|events| - 1], events[|events| - 1];
      var phase, earlier := PhaseAfter(before, e.call), Scripts(before);
      Grants(before)
      + Cost(DeedOf(phase, e).Answered? && Admits(StateAfter(None, earlier, |earlier|), phase.check))
  }

  /** Calls interleave freely: whatever the others do, each goes through its own course. */
  lemma {:induction false} CallsAreIndependent(events: seq<Event>, call: nat)
    ensures var s, phase := Run(events), PhaseAfter(events, call);
            && (call in s.sampled <==> phase.Waiting?)
            && (call in s.orphaned <==> phase.Over?)
            && (phase.Waiting? ==> s.sampled[call] == phase.check)
            && (phase.Over? ==> s.orphaned[call] == phase.check)
  {
    hide NextState, Admits;
    if events != [] {
      CallsAreIndependent(events[..|events| - 1], call);
    }
  }

  /** Every run is what its events amount to: exactly these scripts have run, and exactly those replies
      let a request through that the bucket granted or a Redis error hid from it. */
  lemma {:induction false} RunIsItsDeeds(events: seq<Event>)
    ensures var s := Run(events);
            && s.scripts == Scripts(events)
            && s.failedOpen == FailOpens(events)
            && s.allowed == Grants(events) + FailOpens(events)
  {
    hide NextState, Admits, StateAfter;
    if events != [] {
      var before, e := events[..|events| - 1], events[|events| - 1];
      RunIsItsDeeds(before);
      CallsAreIndependent(before, e.call);
      SharedBucket(before);
      hide Run, PhaseAfter;
    }
  }

  // ---------------------------------------------------------------- the envelope

  /** The shared bucket is the reference's, fed the scripts in the order they ran, each at its own limit;
      every admission that was not fail-open is one it granted. */
  lemma {:induction false} SharedBucket(events: seq<Event>)
    ensures var s := Run(events);
            && s.bucket == StateAfter(None, s.scripts, |s.scripts|)
            && s.failedOpen <= s.allowed <= s.failedOpen + Count(Admissions(None, s.scripts), 0, |s.scripts|)
  {
    hide NextState, Admits;
    if events != [] {
      var s, e := Run(events[..|events| - 1]), events[|events| - 1];
      SharedBucket(events[..|events| - 1]);
      if !e.Sample? && e.call in s.sampled {
        OneMoreCheck(None, s.scripts, s.sampled[e.call]);
      }
      if e.ExecuteLate? && e.call in s.orphaned {
        OneMoreCheck(None, s.scripts, s.orphaned[e.call]);
      }
    }
  }

  /** The distributed envelope: over any interleaving, with limits changing from call to call, requests let
      through are at most the first script's limit, plus what was earned on forward clock steps from one
      script to the next, plus the fail-open replies. */
  lemma DistributedEnvelope(events: seq<Event>)
    ensures var s := Run(events);
            if s.scripts == [] then s.allowed == s.failedOpen
            else
              (s.allowed - s.failedOpen) as real
              <= s.scripts[0].capacity as real + Refill(s.scripts, |s.scripts| - 1)
  {
    hide Run, Refill, StateAfter, Admissions;
    var s := Run(events);
    SharedBucket(events);
    if s.scripts != [] {
      SpendingIsCovered(None, s.scripts, |s.scripts|);
      EarnedNothing(s.scripts[0].rate);
    }
  }

  /** Every check is made at one limit. */
  ghost predicate OneLimit(events: seq<Event>, limit: Positive, rate: PosReal) {
    forall i | 0 <= i < |events| && events[i].Sample? ::
      events[i].check.capacity == limit && events[i].check.rate == rate
  }

  /** Then the earnings are those of the clock's span between the first script and the last, every backward
      jump between consecutive scripts being earned again. */
  lemma DistributedEnvelopeAtOneLimit(events: seq<Event>, limit: Positive, rate: PosReal)
    requires OneLimit(events, limit, rate) && Run(events).scripts != []
    ensures var s := Run(events);
            var last := |s.scripts| - 1;
            (s.allowed - s.failedOpen) as real
            <= limit as real
               + Earned(rate, s.scripts[last].now - s.scripts[0].now + BackwardTime(s.scripts, 0, last))
  {
    DistributedEnvelope(events);
    ScriptsAtOneLimit(events, limit, rate);
    RefillAtOneRate(Run(events).scripts, |Run(events).scripts| - 1, limit, rate);
  }

  lemma {:induction false} ScriptsAtOneLimit(events: seq<Event>, limit: Positive, rate: PosReal)
    requires OneLimit(events, limit, rate)
    ensures var s := Run(events);
            && FixedLimit(s.scripts, limit, rate)
            && (forall c | c in s.sampled :: s.sampled[c].capacity == limit && s.sampled[c].rate == rate)
            && (forall c | c in s.orphaned :: s.orphaned[c].capacity == limit && s.orphaned[c].rate == rate)
  {
    hide NextState, Admits;
    if events != [] {
      ScriptsAtOneLimit(events[..|events| - 1], limit, rate);
    }
  }

  /** No sharing: calls whose clock readings do not advance from one script to the next are granted no
      more than the tokens first found, whatever their limits.  Two of them cannot both have the last one. */
  lemma TokensAreNotShared(start: Option<TokenBucketState>, trace: seq<Arrival>)
    requires trace != [] && NonNegativeCapacities(trace) && (start.Some? ==> start.value.tokens >= 0.0)
    requires forall i | 0 < i < |trace| :: trace[i].now <= trace[i - 1].now
    ensures Count(Admissions(start, trace), 0, |trace|) as real <= CurrentTokens(start, trace[0])
  {
    SpendingIsCovered(start, trace, |trace|);
    NothingEarned(trace, |trace| - 1);
  }

  lemma {:induction false} NothingEarned(trace: seq<Arrival>, n: nat)
    requires n < |trace| && forall i | 0 < i < |trace| :: trace[i].now <= trace[i - 1].now
    ensures Refill(trace, n) == 0.0
  {
    if n > 0 {
      NothingEarned(trace, n - 1);
      EarnedNothing(trace[n].rate);
    }
  }

  // ---------------------------------------------------------------- the bound is reached

  /** Calls made one at a time. */
  function OneByOne(checks: seq<Check>): seq<Event> {
    if checks == [] then []
    else OneByOne(checks[..|checks| - 1]) + [Sample(0, checks[|checks| - 1]), Execute(0)]
  }

  /** Checks at one limit at the given readings. */
  function TraceOf(readings: seq<int>, limit: Positive, rate: PosReal): (trace: seq<Check>)
    ensures |trace| == |readings| && FixedLimit(trace, limit, rate)
    ensures forall i | 0 <= i < |trace| :: trace[i] == Arrival(readings[i], limit, rate)
  {
    seq(|readings|, i requires 0 <= i < |readings| => Arrival(readings[i], limit, rate))
  }

  lemma TwoMore(events: seq<Event>, d: Event, e: Event)
    ensures Run(events + [d, e]) == Step(Step(Run(events), d), e)
  {
    var once, twice := events + [d], events + [d, e];
    assert twice[..|twice| - 1] == once && once[..|once| - 1] == events;
  }

  /** A call alone in flight. */
  lemma SoloCall(events: seq<Event>, a: Check)
    requires Run(events).sampled == map[] && Run(events).orphaned == map[]
    ensures var s := Run(events);
            Run(events + [Sample(0, a), Execute(0)])
            == Cluster(map[], map[], Some(NextState(s.bucket, a)), s.scripts + [a],
                       s.allowed + Cost(Admits(s.bucket, a)), s.failedOpen)
  {
    hide NextState, Admits;
    TwoMore(events, Sample(0, a), Execute(0));
    assert map[0 := a] - {0} == map[];
  }

  lemma {:induction false} OneByOneRun(checks: seq<Check>)
    ensures var s := Run(OneByOne(checks));
            && s.sampled == map[] && s.orphaned == map[]
            && s.scripts == checks
            && s.bucket == StateAfter(None, checks, |checks|)
            && s.failedOpen == 0
            && s.allowed == Count(Admissions(None, checks), 0, |checks|)
  {
    if checks != [] {
      hide NextState, Admits, Run, StateAfter, Count, Admissions;
      var n := |checks| - 1;
      var earlier, a := checks[..n], checks[n];
      OneByOneRun(earlier);
      SoloCall(OneByOne(earlier), a);
      OneMoreCheck(None, earlier, a);
      assert checks == earlier + [a];
    } else {
      assert Admissions(None, checks) == [];
    }
  }

  /** `limit` readings at the start of every window, `windows + 1` times over. */
  function Bursts(limit: Positive, window: Positive, windows: nat): (readings: seq<int>)
    ensures |readings| == limit * (windows + 1)
    ensures forall i | 0 <= i < |readings| :: readings[i] == BurstReading(limit, window, i)
  {
    seq(limit * (windows + 1), i requires 0 <= i => BurstReading(limit, window, i))
  }

  function BurstReading(limit: Positive, window: Positive, i: nat): int {
    window * (i / limit)
  }

  lemma {:induction false} BurstsAdmitted(limit: Positive, window: Positive, windows: nat, n: nat)
    requires n <= limit * (windows + 1)
    ensures var trace := TraceOf(Bursts(limit, window, windows), limit, Rate(limit, window));
            Count(Admissions(None, trace), 0, n) == n
  {
    hide StateAfter, Admits, Rate, BurstReading, Earned, Ordered, Room;
    if n > 0 {
      var trace, rate := TraceOf(Bursts(limit, window, windows), limit, Rate(limit, window)), Rate(limit, window);
      var bits, m := Admissions(None, trace), n - 1;
      BurstsAdmitted(limit, window, windows, m);
      BurstsOrdered(limit, window, windows);
      forall k | 0 <= k <= m
        ensures Room(bits, k, m, limit, rate, trace[m].now - trace[k].now)
      {
        BurstHasRoom(bits, limit, window, k, m);
      }
      ClosedFormOrdered(trace, m, limit, rate);
    }
  }

  lemma BurstsOrdered(limit: Positive, window: Positive, windows: nat)
    ensures Ordered(TraceOf(Bursts(limit, window, windows), limit, Rate(limit, window)))
  {
    var readings := Bursts(limit, window, windows);
    forall i, j | 0 <= i <= j < |readings|
      ensures readings[i] <= readings[j]
    {
      DivisionGrows(i, j, limit);
      assert window * (i / limit) <= window * (j / limit);
    }
  }

  lemma DivisionGrows(i: nat, j: nat, limit: Positive)
    requires i <= j
    ensures i / limit <= j / limit
  {
    var p, q := i / limit, j / limit;
    assert p * limit <= i <= j < q * limit + limit;
    assert (q + 1 - p) * limit == q * limit + limit - p * limit;
    PositiveFactor(q + 1 - p, limit);
  }

  lemma {:induction false} CountAtMost(bits: seq<bool>, from: nat, to: nat)
    requires from <= to <= |bits|
    ensures Count(bits, from, to) <= to - from
  {
    if from < to {
      CountAtMost(bits, from, to - 1);
    }
  }

  lemma BurstHasRoom(bits: seq<bool>, limit: Positive, window: Positive, k: nat, m: nat)
    requires k <= m < |bits|
    ensures Room(bits, k, m, limit, Rate(limit, window), BurstReading(limit, window, m) - BurstReading(limit, window, k))
  {
    CountAtMost(bits, k, m);
    BurstRoom(limit, window, k, m);
  }

  lemma BurstRoom(limit: Positive, window: Positive, k: nat, m: nat)
    requires k <= m
    ensures (m - k + 1) as real
            <= limit as real + Earned(Rate(limit, window), window * (m / limit) - window * (k / limit))
  {
    var p, q := k / limit, m / limit;
    assert k == p * limit + k % limit && m == q * limit + m % limit;
    assert window * q - window * p == window * (q - p);
    EarnedWindows(limit, window, q - p);
    assert (q - p) * limit == q * limit - p * limit;
  }

  lemma EarnedWindows(limit: Positive, window: Positive, windows: int)
    ensures Earned(Rate(limit, window), window * windows) == (windows * limit) as real
  {
    var w, c := window as real, windows as real;
    TtlIsWindowPlusMinute(limit, window);
    assert (window * windows) as real == w * c;
    assert (windows * limit) as real == c * limit as real;
    assert Earned(Rate(limit, window), window * windows) == c * Earned(Rate(limit, window), window);
  }

  /** Calls that meet a Redis error before their script has run. */
  function Errors(n: nat, check: Check): seq<Event> {
    if n == 0 then [] else Errors(n - 1, check) + [Sample(n - 1, check), FailOpen(n - 1)]
  }

  lemma FailsOpen(s: Cluster, call: nat, check: Check)
    requires s.sampled == map[] && call !in s.orphaned
    ensures Step(Step(s, Sample(call, check)), FailOpen(call))
            == s.(orphaned := s.orphaned[call := check], allowed := s.allowed + 1, failedOpen := s.failedOpen + 1)
  {
    assert map[call := check] - {call} == map[];
  }

  lemma {:induction false} ErrorsFailOpen(events: seq<Event>, n: nat, check: Check)
    requires Run(events).sampled == map[] && Run(events).orphaned == map[]
    ensures var s, t := Run(events), Run(events + Errors(n, check));
            && t == s.(orphaned := t.orphaned, allowed := s.allowed + n, failedOpen := s.failedOpen + n)
            && forall call | call in t.orphaned :: call < n
  {
    hide Run, Step;
    if n == 0 {
      assert events + Errors(0, check) == events;
    } else {
      ErrorsFailOpen(events, n - 1, check);
      var before := events + Errors(n - 1, check);
      TwoMore(before, Sample(n - 1, check), FailOpen(n - 1));
      FailsOpen(Run(before), n - 1, check);
      assert events + Errors(n, check) == before + [Sample(n - 1, check), FailOpen(n - 1)];
    }
  }

  /** Bursts one call at a time, then the errors. */
  function BusiestRun(limit: Positive, window: Positive, windows: nat, errors: nat): seq<Event> {
    var rate := Rate(limit, window);
    OneByOne(TraceOf(Bursts(limit, window, windows), limit, rate)) + Errors(errors, Arrival(0, limit, rate))
  }

  /** With ordered clocks the envelope is limit + limit * T / window and the fail-open replies, and for any
      number of those a run of length T = windows * window reaches it. */
  lemma EnvelopeIsReached(limit: Positive, window: Positive, windows: nat, errors: nat)
    ensures var s := Run(BusiestRun(limit, window, windows, errors));
            var last := |s.scripts| - 1;
            && last >= 0 && Ordered(s.scripts) && s.failedOpen == errors
            && OneLimit(BusiestRun(limit, window, windows, errors), limit, Rate(limit, window))
            && s.scripts[last].now - s.scripts[0].now == window * windows
            && (s.allowed - errors) as real == limit as real + Earned(Rate(limit, window), window * windows)
  {
    hide Run, Step, Errors, OneByOne;
    var readings := Bursts(limit, window, windows);
    var trace := TraceOf(readings, limit, Rate(limit, window));
    OneByOneRun(trace);
    ErrorsFailOpen(OneByOne(trace), errors, Arrival(0, limit, Rate(limit, window)));
    SamplesAtOneLimit(trace, errors, limit, Rate(limit, window));
    BurstsOrdered(limit, window, windows);
    BurstsAdmitted(limit, window, windows, |readings|);
    EarnedWindows(limit, window, windows);
    var last := limit * (windows + 1) - 1;
    assert limit * (windows + 1) == windows * limit + limit;
    LastBurst(limit, windows);
  }

  lemma {:induction false} SamplesAtOneLimit(checks: seq<Check>, errors: nat, limit: Positive, rate: PosReal)
    requires FixedLimit(checks, limit, rate)
    ensures OneLimit(OneByOne(checks) + Errors(errors, Arrival(0, limit, rate)), limit, rate)
    decreases |checks|, errors
  {
    var check, none := Arrival(0, limit, rate), Errors(0, Arrival(0, limit, rate));
    if errors > 0 {
      SamplesAtOneLimit(checks, errors - 1, limit, rate);
      assert OneByOne(checks) + Errors(errors, check)
             == (OneByOne(checks) + Errors(errors - 1, check)) + [Sample(errors - 1, check), FailOpen(errors - 1)];
    } else if checks != [] {
      var n := |checks| - 1;
      SamplesAtOneLimit(checks[..n], 0, limit, rate);
      assert OneByOne(checks) + none == (OneByOne(checks[..n]) + none) + [Sample(0, checks[n]), Execute(0)];
    }
  }

  lemma LastBurst(limit: Positive, windows: nat)
    ensures limit * (windows + 1) >= 1
    ensures (limit * (windows + 1) - 1) / limit == windows && 0 / limit == 0
  {
    var last := limit * (windows + 1) - 1;
    var q := last / limit;
    assert limit * (windows + 1) == windows * limit + limit;
    assert q * limit <= last < q * limit + limit;
    assert (q - windows) * limit == q * limit - windows * limit;
    NoMultipleBetween(q - windows, limit);
  }

  // ---------------------------------------------------------------- rounding in storage

  /** The state read back when each level written is off by the given error. */
  function DriftedAfter(trace: seq<Arrival>, errors: seq<real>, n: nat): Option<TokenBucketState>
    requires n <= |trace| == |errors|
  {
    if n == 0 then None
    else
      var next := NextState(DriftedAfter(trace, errors, n - 1), trace[n - 1]);
      Some(next.(tokens := next.tokens + errors[n - 1]))
  }

  function DriftedCount(trace: seq<Arrival>, errors: seq<real>, n: nat): nat
    requires n <= |trace| == |errors|
  {
    if n == 0 then 0
    else DriftedCount(trace, errors, n - 1) + Cost(Admits(DriftedAfter(trace, errors, n - 1), trace[n - 1]))
  }

  /** The most n roundings of at most `bound` can add. */
  function Slack(n: nat, bound: real): real {
    n as real * bound
  }

  lemma SlackGrows(n: nat, bound: real)
    ensures Slack(n + 1, bound) == Slack(n, bound) + bound && Slack(0, bound) == 0.0
  {
    assert (n + 1) as real == n as real + 1.0;
  }

  /** Rounding drift: if every level written is off by at most `bound` and none is negative, n calls
      admit at most n times `bound` more than the envelope, with limits changing from call to call. */
  lemma RoundingDrift(trace: seq<Arrival>, errors: seq<real>, bound: real, n: nat)
    requires 0 < n <= |trace| == |errors|
    requires forall i | 0 <= i < n :: -bound <= errors[i] <= bound
    requires forall i | 0 < i <= n :: DriftedAfter(trace, errors, i).value.tokens >= 0.0
    ensures DriftedCount(trace, errors, n) as real
            <= trace[0].capacity as real + Refill(trace, n - 1) + Slack(n, bound)
  {
    DriftedSpending(trace, errors, bound, n);
    assert DriftedAfter(trace, errors, n).value.tokens >= 0.0;
  }

  /** The drift itself: as long as no refill is cut off at the capacity, what n calls admit and what they
      leave are exactly the envelope plus the sum of the errors. */
  lemma {:induction false} DriftIsExact(trace: seq<Arrival>, errors: seq<real>, n: nat)
    requires 0 < n <= |trace| == |errors|
    requires forall i | 0 < i < n :: NotCutOff(DriftedAfter(trace, errors, i).value, trace[i])
    ensures DriftedCount(trace, errors, n) as real + DriftedAfter(trace, errors, n).value.tokens
            == trace[0].capacity as real + Refill(trace, n - 1) + Sum(errors, n)
  {
    hide Earned;
    EarnedNothing(trace[0].rate);
    var before := DriftedAfter(trace, errors, n - 1);
    if n > 1 {
      DriftIsExact(trace, errors, n - 1);
      assert NotCutOff(before.value, trace[n - 1]);
      assert before.value.lastRefill == trace[n - 2].now;
    }
    assert DriftedAfter(trace, errors, n).value.tokens
           == NextState(before, trace[n - 1]).tokens + errors[n - 1];
  }

  function Sum(errors: seq<real>, n: nat): real
    requires n <= |errors|
  {
    if n == 0 then 0.0 else Sum(errors, n - 1) + errors[n - 1]
  }

  predicate NotCutOff(state: TokenBucketState, a: Arrival) {
    state.tokens + Earned(a.rate, Elapsed(state.lastRefill, a.now)) <= a.capacity as real
  }

  lemma {:induction false} DriftedSpending(trace: seq<Arrival>, errors: seq<real>, bound: real, n: nat)
    requires 0 < n <= |trace| == |errors|
    requires forall i | 0 <= i < n :: -bound <= errors[i] <= bound
    ensures var last := DriftedAfter(trace, errors, n).value;
            && last.lastRefill == trace[n - 1].now
            && DriftedCount(trace, errors, n) as real + last.tokens
               <= trace[0].capacity as real + Refill(trace, n - 1) + Slack(n, bound)
  {
    hide Earned, Slack;
    EarnedNothing(trace[0].rate);
    SlackGrows(n - 1, bound);
    SlackGrows(0, bound);
    if n > 1 {
      DriftedSpending(trace, errors, bound, n - 1);
    }
    assert DriftedAfter(trace, errors, n).value.tokens
           == NextState(DriftedAfter(trace, errors, n - 1), trace[n - 1]).tokens + errors[n - 1];
  }
}
