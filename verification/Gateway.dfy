/** Where the two systems meet: app/routes/proxy.py lines 84-101 feed the breaker and the health window,
    and app/middleware/rate_limit.py lines 76-93 turn the window into the limit of the next request. */
module Gateway {
  import opened Numbers
  import opened TokenBucket
  import opened RedisLimiter
  import opened RateLimitService
  import opened UpstreamHealth
  import Breaker = CircuitBreaker

  /** How the upstream call ends, if it is not cancelled. */
  datatype Outcome = Response(status: int) | Timeout | RequestError | OtherError

  datatype ProxyResult = Passed(status: int) | UpstreamTimeout | UpstreamError | Unhandled

  /** What the health window is told of an outcome. */
  function HealthSample(outcome: Outcome): Option<bool> {
    match outcome
    case Response(status) => Some(status < 500)
    case Timeout => Some(false)
    case RequestError => Some(false)
    case OtherError => None
  }

  lemma HalvedLimit(base: int)
    ensures EffectiveLimit(base, 0.5) == Max(1, base / 2)
    ensures EffectiveLimit(base, 1.0) == Max(1, base)
  {
    var half := base as real * 0.5;
    assert base == 2 * (base / 2) + base % 2;
    if base >= 0 {
      assert (base / 2) as real <= half < (base / 2 + 1) as real;
    }
  }

  /** One gateway process.  `proxy` is split at its await on the upstream, where other requests run. */
  class Gateway {
    const breaker: Breaker.CircuitBreaker
    const health: HealthStore
    const limiter: RedisRateLimiter

    constructor (breaker: Breaker.CircuitBreaker, health: HealthStore, limiter: RedisRateLimiter)
      ensures this.breaker == breaker && this.health == health && this.limiter == limiter
    {
      this.breaker, this.health, this.limiter := breaker, health, limiter;
    }

    /** A request on its way in.  A fast failure is reported as an error and never reaches the upstream. */
    method Begin(monotonic: real, now: real, redisNow: real, redisUp: bool) returns (forwarded: bool)
      requires health.Valid()
      modifies breaker, health
      ensures health.Valid()
      ensures forwarded == Breaker.Forwards(breaker.cfg, old(breaker.View()), monotonic)
      ensures breaker.View() == Breaker.OnEnter(breaker.cfg, old(breaker.View()), monotonic)
      ensures health.log == old(health.log) + (if forwarded || !redisUp then [] else [Write(false, now, redisNow)])
    {
      forwarded := breaker.Enter(monotonic);
      if !forwarded {
        health.RecordUpstreamResult(false, now, redisNow, redisUp);
      }
    }

    /** The same request once the upstream has answered.  A response of any status is a success to the
        breaker; to the health window one of 500 or more is an error. */
    method Finish(outcome: Outcome, monotonic: real, now: real, redisNow: real, redisUp: bool)
      returns (result: ProxyResult)
      requires health.Valid()
      modifies breaker, health
      ensures health.Valid()
      ensures breaker.View() == if outcome.Response? then Breaker.OnSuccess(old(breaker.View()))
                                else Breaker.OnFailure(breaker.cfg, old(breaker.View()), monotonic)
      ensures var sample := HealthSample(outcome);
              health.log == old(health.log)
                            + (if sample.None? || !redisUp then [] else [Write(sample.value, now, redisNow)])
      ensures match outcome
              case Response(status) => result == Passed(status)
              case Timeout => result == UpstreamTimeout
              case RequestError => result == UpstreamError
              case OtherError => result == Unhandled
    {
      match outcome
      case Response(status) =>
        breaker.Succeed();
        var isServerError := status >= 500;
        health.RecordUpstreamResult(!isServerError, now, redisNow, redisUp);
        result := Passed(status);
      case Timeout =>
        breaker.Fail(monotonic);
        health.RecordUpstreamResult(false, now, redisNow, redisUp);
        result := UpstreamTimeout;
      case RequestError =>
        breaker.Fail(monotonic);
        health.RecordUpstreamResult(false, now, redisNow, redisUp);
        result := UpstreamError;
      case OtherError =>
        breaker.Fail(monotonic);
        result := Unhandled;
    }

    /** The rate-limit check in front of the proxy: the limit applied is the resolved one, halved exactly
        when the window, and while clocks agree the unpruned log, shows the upstream degraded; the answer is
        the bucket's at that limit, or lets the request through on a Redis error. */
    method LimitRequest(userId: string, settings: Settings, tier: string, row: Option<QuotaOverride>,
                        now: real, epoch: int, redisNow: real, redisUp: bool, fault: Fault)
      returns (result: LimitResult)
      requires health.Valid()
      modifies limiter.redis
      ensures health.Valid()
      ensures var base := ResolveLimit(settings, tier, row, now);
              result.limit == Max(1, if redisUp && health.ReadsDegraded(now, redisNow) then base / 2 else base)
      ensures ClocksAgree(health.log) && ReaderAgrees(health.log, now, redisNow) ==>
                (health.ReadsDegraded(now, redisNow) <==> Degraded(health.log, now))
      ensures var a := Arrival(epoch, result.limit, Rate(result.limit, RateLimitService.WINDOW_SECONDS));
              var key, state := "user:" + userId, old(Lookup(limiter.redis.buckets, "user:" + userId, redisNow));
              var reply, next := ScriptReply(state, a), NextState(state, a);
              && result == (if fault.Healthy?
                            then LimitResult(reply.allowed, result.limit, reply.remaining, reply.retryAfter, false)
                            else LimitResult(true, result.limit, -1, 0, true))
              && limiter.redis.buckets ==
                 if fault.LostBefore? then old(limiter.redis.buckets)
                 else old(limiter.redis.buckets)[key := Hash(next.tokens, next.lastRefill, redisNow + 120.0)]
    {
      var factor := health.GetHealthFactor(now, redisNow, redisUp);
      var base := ResolveLimit(settings, tier, row, now);
      var effective := EffectiveLimit(base, factor);
      HalvedLimit(base);
      result := limiter.Check("user:" + userId, effective, RateLimitService.WINDOW_SECONDS, epoch, redisNow, fault);
    }
  }

  // ---------------------------------------------------------------- runs of overlapping requests

  /** Reporting to the health window is a step of its own, after the breaker's. */
  datatype Event =
    | Pass(dt: real)
    | Arrive(call: nat)
    | Complete(call: nat, outcome: Outcome)
    | Report(call: nat)
    | Abort(call: nat)

  /** The breaker's system; requests about to report a success or an error; and tallies of what has been
      reported, how requests ended, and reports lost to cancellation or a Redis error. */
  datatype Traffic = Traffic(
    sys: Breaker.System, good: set<nat>, bad: set<nat>, reportedGood: nat, reportedBad: nat,
    responses: nat, serverErrors: nat, mappedErrors: nat, otherErrors: nat, lostGood: nat, lostBad: nat)

  const QUIET := Traffic(Breaker.INIT, {}, {}, 0, 0, 0, 0, 0, 0, 0, 0)

  predicate Busy(t: Traffic, call: nat) {
    call in t.sys.inFlight || call in t.good || call in t.bad
  }

  function Completed(cfg: Breaker.Config, t: Traffic, call: nat, outcome: Outcome): Traffic {
    var e := if outcome.Response? then Breaker.Succeed(call) else Breaker.Fail(call);
    var sample := HealthSample(outcome);
    t.(sys := Breaker.Step(cfg, t.sys, e),
       good := if sample == Some(true) then t.good + {call} else t.good,
       bad := if sample == Some(false) then t.bad + {call} else t.bad,
       responses := t.responses + Cost(outcome.Response?),
       serverErrors := t.serverErrors + Cost(outcome.Response? && outcome.status >= 500),
       mappedErrors := t.mappedErrors + Cost(outcome.Timeout? || outcome.RequestError?),
       otherErrors := t.otherErrors + Cost(outcome.OtherError?))
  }

  function Step(cfg: Breaker.Config, t: Traffic, e: Event): Traffic {
    match e
    case Pass(dt) => t.(sys := Breaker.Step(cfg, t.sys, Breaker.Tick(dt)))
    case Arrive(call) =>
      if Busy(t, call) then t
      else
        var sys := Breaker.Step(cfg, t.sys, Breaker.Enter(call));
        t.(sys := sys, bad := if call in sys.inFlight then t.bad else t.bad + {call})
    case Complete(call, outcome) =>
      if call !in t.sys.inFlight then t else Completed(cfg, t, call, outcome)
    case Report(call) =>
      if call in t.good then t.(good := t.good - {call}, reportedGood := t.reportedGood + 1)
      else if call in t.bad then t.(bad := t.bad - {call}, reportedBad := t.reportedBad + 1)
      else t
    case Abort(call) =>
      if call in t.good then t.(good := t.good - {call}, lostGood := t.lostGood + 1)
      else if call in t.bad then t.(bad := t.bad - {call}, lostBad := t.lostBad + 1)
      else t.(sys := Breaker.Step(cfg, t.sys, Breaker.Cancel(call)))
  }

  function Run(cfg: Breaker.Config, events: seq<Event>): Traffic {
    if events == [] then QUIET
    else Step(cfg, Run(cfg, events[..|events| - 1]), events[|events| - 1])
  }

  // ---------------------------------------------------------------- what the events amount to

  /** Where a request stands: not here, upstream, or done and owing the health window a sample. */
  datatype Phase = Away | Upstream | OwesGood | OwesBad

  /** Where a request stands is decided by its own events, and by the breaker's verdict as it arrives. */
  function PhaseAfter(cfg: Breaker.Config, events: seq<Event>, call: nat): Phase {
    if events == [] then Away
    else
      var before, e := events[..|events| - 1], events[|events| - 1];
      var phase := PhaseAfter(cfg, before, call);
      if e.Pass? || e.call != call then phase
      else
        var sys := Run(cfg, before).sys;
        match DeedOf(phase, e)
        case Arrived => if Breaker.Forwards(cfg, sys.breaker, sys.clock) then Upstream else OwesBad
        case Answered => OwesGood
        case ServerError => OwesBad
        case MappedError => OwesBad
        case Nothing => phase
        case _ => Away
  }

  /** What a step of a request at that point does. */
  datatype Deed =
    Arrived | Answered | ServerError | MappedError | UnmappedError
    | GoodSample | BadSample | GoodLost | BadLost | Withdrawn | Nothing

  function DeedOf(phase: Phase, e: Event): Deed {
    match (phase, e)
    case (Away, Arrive(_)) => Arrived
    case (Upstream, Complete(_, Response(status))) => if status >= 500 then ServerError else Answered
    case (Upstream, Complete(_, OtherError)) => UnmappedError
    case (Upstream, Complete(_, _)) => MappedError
    case (Upstream, Abort(_)) => Withdrawn
    case (OwesGood, Report(_)) => GoodSample
    case (OwesBad, Report(_)) => BadSample
    case (OwesGood, Abort(_)) => GoodLost
    case (OwesBad, Abort(_)) => BadLost
    case _ => Nothing
  }

  /** How often a deed was done. */
  function Deeds(cfg: Breaker.Config, events: seq<Event>, deed: Deed): nat {
    if events == [] then 0
    else
      var before, e := events[..|events| - 1], events[|events| - 1];
      Deeds(cfg, before, deed) + Cost(!e.Pass? && DeedOf(PhaseAfter(cfg, before, e.call), e) == deed)
  }

  function TimePassed(events: seq<Event>): real {
    if events == [] then 0.0
    else
      var e := events[|events| - 1];
      TimePassed(events[..|events| - 1]) + (if e.Pass? && e.dt > 0.0 then e.dt else 0.0)
  }

  ghost predicate Stands(t: Traffic, call: nat, phase: Phase) {
    && (call in t.sys.inFlight <==> phase == Upstream)
    && (call in t.good <==> phase == OwesGood)
    && (call in t.bad <==> phase == OwesBad)
  }

  /** Requests run side by side: whatever the others do, each goes through its own course. */
  lemma {:induction false} RequestsAreIndependent(cfg: Breaker.Config, events: seq<Event>, call: nat)
    ensures Stands(Run(cfg, events), call, PhaseAfter(cfg, events, call))
  {
    if events != [] {
      RequestsAreIndependent(cfg, events[..|events| - 1], call);
    }
  }

  /** The tally kept of a deed. */
  function TallyOf(t: Traffic, deed: Deed): int {
    match deed
    case Arrived => t.sys.forwarded + t.sys.fastFails
    case Answered => t.responses - t.serverErrors
    case ServerError => t.serverErrors
    case MappedError => t.mappedErrors
    case UnmappedError => t.otherErrors
    case GoodSample => t.reportedGood
    case BadSample => t.reportedBad
    case GoodLost => t.lostGood
    case BadLost => t.lostBad
    case Withdrawn => t.sys.cancelled
    case Nothing => 0
  }

  /** Every tally is the number of times its deed was done: each arrival is taken up, each report sent is
      recorded, only an abort loses one; and the breaker's clock is the time that passed. */
  lemma {:induction false} RunIsItsDeeds(cfg: Breaker.Config, events: seq<Event>, deed: Deed)
    requires deed != Nothing
    ensures TallyOf(Run(cfg, events), deed) == Deeds(cfg, events, deed)
    ensures Run(cfg, events).sys.clock == TimePassed(events)
  {
    if events != [] {
      var before, e := events[..|events| - 1], events[|events| - 1];
      RunIsItsDeeds(cfg, before, deed);
      if !e.Pass? {
        RequestsAreIndependent(cfg, before, e.call);
        StepDoesItsDeed(cfg, Run(cfg, before), e, PhaseAfter(cfg, before, e.call), deed);
        hide Step, TallyOf;
      }
      hide PhaseAfter, DeedOf, Stands;
    }
  }

  lemma StepDoesItsDeed(cfg: Breaker.Config, t: Traffic, e: Event, phase: Phase, deed: Deed)
    requires !e.Pass? && Stands(t, e.call, phase) && deed != Nothing
    ensures TallyOf(Step(cfg, t, e), deed) == TallyOf(t, deed) + Cost(DeedOf(phase, e) == deed)
    ensures Step(cfg, t, e).sys.clock == t.sys.clock
  {
    hide Breaker.OnEnter, Breaker.OnFailure, Breaker.OnSuccess, Breaker.Forwards;
  }

  /** So a run without an abort loses nothing. */
  lemma OnlyAbortsLose(cfg: Breaker.Config, events: seq<Event>)
    requires forall i | 0 <= i < |events| :: !events[i].Abort?
    ensures var t := Run(cfg, events);
            t.lostGood == 0 && t.lostBad == 0 && t.sys.cancelled == 0
  {
    RunIsItsDeeds(cfg, events, GoodLost);
    RunIsItsDeeds(cfg, events, BadLost);
    RunIsItsDeeds(cfg, events, Withdrawn);
    NoSuchDeed(cfg, events, GoodLost);
    NoSuchDeed(cfg, events, BadLost);
    NoSuchDeed(cfg, events, Withdrawn);
  }

  lemma {:induction false} NoSuchDeed(cfg: Breaker.Config, events: seq<Event>, deed: Deed)
    requires deed in [GoodLost, BadLost, Withdrawn]
    requires forall i | 0 <= i < |events| :: !events[i].Abort?
    ensures Deeds(cfg, events, deed) == 0
  {
    if events != [] {
      NoSuchDeed(cfg, events[..|events| - 1], deed);
    }
  }

  // ---------------------------------------------------------------- conservation

  /** Completions the breaker has been told of, by kind. */
  function Tally(history: seq<Breaker.Completion>, ok: bool): nat {
    if history == [] then 0
    else Tally(history[..|history| - 1], ok) + Cost(history[|history| - 1].ok == ok)
  }

  lemma TallyOneMore(history: seq<Breaker.Completion>, c: Breaker.Completion, ok: bool)
    ensures Tally(history + [c], ok) == Tally(history, ok) + Cost(c.ok == ok)
  {
    assert (history + [c])[..|history|] == history;
  }

  /** A request is in flight or about to report, never both, and reports once. */
  ghost predicate Separate(t: Traffic) {
    && (forall c | c in t.sys.inFlight :: c !in t.good && c !in t.bad)
    && (forall c | c in t.good :: c !in t.bad)
  }

  ghost predicate Balanced(t: Traffic) {
    && Tally(t.sys.history, true) == t.responses
    && Tally(t.sys.history, false) == t.mappedErrors + t.otherErrors
    && t.reportedGood + |t.good| + t.lostGood == t.responses - t.serverErrors
    && t.reportedBad + |t.bad| + t.lostBad == t.serverErrors + t.mappedErrors + t.sys.fastFails
  }

  /** What each kind of step means for the breaker's record. */
  lemma BreakerRecord(cfg: Breaker.Config, s: Breaker.System, e: Breaker.Event)
    ensures var t := Breaker.Step(cfg, s, e);
            match e
            case Tick(_) => t.inFlight == s.inFlight && t.history == s.history && t.fastFails == s.fastFails
            case Enter(call) => call !in s.inFlight ==>
              && t.history == s.history
              && ((t.inFlight == s.inFlight + {call} && t.fastFails == s.fastFails)
                  || (t.inFlight == s.inFlight && t.fastFails == s.fastFails + 1))
            case Succeed(call) => call in s.inFlight ==>
              && t.inFlight == s.inFlight - {call} && t.fastFails == s.fastFails
              && t.history == s.history + [Breaker.Completion(true, s.clock)]
            case Fail(call) => call in s.inFlight ==>
              && t.inFlight == s.inFlight - {call} && t.fastFails == s.fastFails
              && t.history == s.history + [Breaker.Completion(false, s.clock)]
            case Cancel(call) => t.inFlight == s.inFlight - {call} && t.history == s.history && t.fastFails == s.fastFails
  {
  }

  lemma CompletionKeepsBalance(cfg: Breaker.Config, t: Traffic, call: nat, outcome: Outcome)
    requires Separate(t) && Balanced(t) && call in t.sys.inFlight
    ensures Separate(Completed(cfg, t, call, outcome)) && Balanced(Completed(cfg, t, call, outcome))
  {
    hide Breaker.Step, Tally;
    var c := Breaker.Completion(outcome.Response?, t.sys.clock);
    TallyOneMore(t.sys.history, c, true);
    TallyOneMore(t.sys.history, c, false);
    BreakerRecord(cfg, t.sys, if outcome.Response? then Breaker.Succeed(call) else Breaker.Fail(call));
  }

  /** An arrival is turned away unseen, forwarded, or failed fast and owed a report. */
  lemma ArrivalCases(cfg: Breaker.Config, t: Traffic, call: nat)
    ensures var u := Step(cfg, t, Arrive(call));
            || u == t
            || (!Busy(t, call)
                && u.sys.history == t.sys.history
                && ((u == t.(sys := u.sys)
                     && u.sys.inFlight == t.sys.inFlight + {call} && u.sys.fastFails == t.sys.fastFails)
                    || (u == t.(sys := u.sys, bad := t.bad + {call})
                        && u.sys.inFlight == t.sys.inFlight && u.sys.fastFails == t.sys.fastFails + 1)))
  {
    BreakerRecord(cfg, t.sys, Breaker.Enter(call));
    hide Breaker.Step;
  }

  lemma ArrivalKeepsBalance(cfg: Breaker.Config, t: Traffic, call: nat)
    requires Separate(t) && Balanced(t)
    ensures Separate(Step(cfg, t, Arrive(call))) && Balanced(Step(cfg, t, Arrive(call)))
  {
    hide Step, Tally;
    ArrivalCases(cfg, t, call);
    if call !in t.bad {
      assert |t.bad + {call}| == |t.bad| + 1;
    }
  }

  /** A report is sent or lost, or a call still upstream is cancelled. */
  lemma ReportCases(cfg: Breaker.Config, t: Traffic, e: Event)
    requires e.Report? || e.Abort?
    ensures var u := Step(cfg, t, e);
            || (u.good == t.good && u.bad == t.bad && u == t.(sys := u.sys)
                && u.sys.inFlight <= t.sys.inFlight && u.sys.history == t.sys.history
                && u.sys.fastFails == t.sys.fastFails)
            || (e.call in t.good
                && u == t.(good := t.good - {e.call}, reportedGood := u.reportedGood, lostGood := u.lostGood)
                && u.reportedGood + u.lostGood == t.reportedGood + t.lostGood + 1)
            || (e.call in t.bad
                && u == t.(bad := t.bad - {e.call}, reportedBad := u.reportedBad, lostBad := u.lostBad)
                && u.reportedBad + u.lostBad == t.reportedBad + t.lostBad + 1)
  {
    if e.call !in t.good && e.call !in t.bad {
      BreakerRecord(cfg, t.sys, Breaker.Cancel(e.call));
    }
    hide Breaker.Step;
  }

  lemma ReportKeepsBalance(cfg: Breaker.Config, t: Traffic, e: Event)
    requires Separate(t) && Balanced(t) && (e.Report? || e.Abort?)
    ensures Separate(Step(cfg, t, e)) && Balanced(Step(cfg, t, e))
  {
    hide Step, Tally;
    ReportCases(cfg, t, e);
  }

  /** Conservation, over any interleaving: every response is one breaker success, every other completion
      one breaker failure; and each request that was answered, failed with a mapped error or failed fast
      owes the health window exactly one sample, an error unless it was a response below 500. */
  lemma {:induction false} Conservation(cfg: Breaker.Config, events: seq<Event>)
    ensures Separate(Run(cfg, events)) && Balanced(Run(cfg, events))
  {
    if events != [] {
      var t, e := Run(cfg, events[..|events| - 1]), events[|events| - 1];
      Conservation(cfg, events[..|events| - 1]);
      if e.Complete? && e.call in t.sys.inFlight {
        CompletionKeepsBalance(cfg, t, e.call, e.outcome);
      } else if e.Arrive? {
        ArrivalKeepsBalance(cfg, t, e.call);
      } else if e.Report? || e.Abort? {
        ReportKeepsBalance(cfg, t, e);
      }
    }
  }

  /** So every request that reached the proxy is accounted for: sampled, about to report, its report lost,
      ended in an unmapped error, still upstream or cancelled there.  Error samples and unmapped errors
      together are the breaker's failures, the 5xx responses and the fast failures. */
  lemma RequestsAccounted(cfg: Breaker.Config, events: seq<Event>)
    ensures var t := Run(cfg, events);
            && t.sys.forwarded + t.sys.fastFails
               == t.reportedGood + t.reportedBad + |t.good| + |t.bad| + t.lostGood + t.lostBad
                  + t.otherErrors + |t.sys.inFlight| + t.sys.cancelled
            && t.reportedBad + |t.bad| + t.lostBad + t.otherErrors
               == Tally(t.sys.history, false) + t.serverErrors + t.sys.fastFails
  {
    hide Run, Breaker.Run;
    Conservation(cfg, events);
    TallyAll(Run(cfg, events).sys.history);
    var inner := BreakerRunsInside(cfg, events);
    Breaker.ForwardedCallsAccounted(cfg, inner);
  }

  /** One health sample for each request so far, forwarded or failed fast, is what the recorder promises.  It
      holds exactly while no request is under way or about to report, and none has been cancelled, ended
      in an unmapped error or lost its report. */
  lemma EveryRequestRecorded(cfg: Breaker.Config, events: seq<Event>)
    ensures var t := Run(cfg, events);
            t.reportedGood + t.reportedBad == t.sys.forwarded + t.sys.fastFails
            <==> && t.sys.inFlight == {} && t.good == {} && t.bad == {}
                 && t.sys.cancelled == 0 && t.otherErrors == 0 && t.lostGood == 0 && t.lostBad == 0
  {
    RequestsAccounted(cfg, events);
  }

  /** So the promise fails: for every configuration a forwarded request that ends in an unmapped error, or is
      cancelled upstream, is settled for good and was never recorded. */
  lemma RequestsGoUnrecorded(cfg: Breaker.Config, events: seq<Event>)
    requires events == [Arrive(0), Complete(0, OtherError)] || events == [Arrive(0), Abort(0)]
    ensures var t := Run(cfg, events);
            && t.sys.forwarded == 1 && t.sys.fastFails == 0
            && t.sys.inFlight == {} && t.good == {} && t.bad == {}
            && t.reportedGood + t.reportedBad + t.lostGood + t.lostBad == 0
            && (events[1].Complete? ==> t.otherErrors == 1) && (events[1].Abort? ==> t.sys.cancelled == 1)
  {
    assert events[..1] == [Arrive(0)] && events[..1][..0] == [];
    var arrived := Run(cfg, events[..1]);
    assert Run(cfg, []) == QUIET;
    assert arrived == Step(cfg, QUIET, Arrive(0));
    assert arrived.sys.inFlight == {0} && {0} - {0} == {};
    assert Run(cfg, events) == Step(cfg, arrived, events[1]);
  }

  lemma {:induction false} TallyAll(history: seq<Breaker.Completion>)
    ensures Tally(history, true) + Tally(history, false) == |history|
  {
    if history != [] {
      TallyAll(history[..|history| - 1]);
    }
  }

  /** A step the breaker takes no part in is one it would ignore. */
  lemma UntakenStep(cfg: Breaker.Config, s: Breaker.System, e: Event)
    ensures Breaker.Step(cfg, s, Breaker.Tick(-1.0)) == s
    ensures e.Complete? && e.call !in s.inFlight ==>
              && Breaker.Step(cfg, s, Breaker.Succeed(e.call)) == s
              && Breaker.Step(cfg, s, Breaker.Fail(e.call)) == s
  {
  }

  /** The breaker's part of any such run is a run of the breaker alone, so all its guarantees carry over. */
  lemma {:induction false} BreakerRunsInside(cfg: Breaker.Config, events: seq<Event>) returns (inner: seq<Breaker.Event>)
    ensures Run(cfg, events).sys == Breaker.Run(cfg, Breaker.INIT, inner)
  {
    if events == [] {
      inner := [];
    } else {
      hide Breaker.Step;
      inner := BreakerRunsInside(cfg, events[..|events| - 1]);
      var t, e := Run(cfg, events[..|events| - 1]), events[|events| - 1];
      var step :=
        match e
        case Pass(dt) => Breaker.Tick(dt)
        case Arrive(call) => if Busy(t, call) then Breaker.Tick(-1.0) else Breaker.Enter(call)
        case Complete(call, outcome) => if outcome.Response? then Breaker.Succeed(call) else Breaker.Fail(call)
        case Report(_) => Breaker.Tick(-1.0)
        case Abort(call) => if call in t.good || call in t.bad then Breaker.Tick(-1.0) else Breaker.Cancel(call);
      assert (inner + [step])[..|inner|] == inner;
      UntakenStep(cfg, t.sys, e);
      inner := inner + [step];
    }
  }
}
