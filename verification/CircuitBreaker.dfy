/** The circuit breaker of app/infra/circuit_breaker.py.  A call passes three critical sections, each one
    atomic step: on the way in, and on the way out after a failure or a success.  The upstream call runs
    between them, so any number of calls overlap and finish in any order, however late. */
module CircuitBreaker {
  import opened Numbers

  datatype Mode = Closed | Open | HalfOpen

  datatype Config = Config(threshold: int, recovery: real)

  datatype BreakerState = BreakerState(mode: Mode, failures: int, openedAt: real)

  const FRESH := BreakerState(Closed, 0, 0.0)

  predicate Forwards(cfg: Config, b: BreakerState, now: real) {
    b.mode == Open ==> now - b.openedAt >= cfg.recovery
  }

  function OnEnter(cfg: Config, b: BreakerState, now: real): BreakerState {
    if b.mode == Open && Forwards(cfg, b, now) then b.(mode := HalfOpen) else b
  }

  function OnFailure(cfg: Config, b: BreakerState, now: real): BreakerState {
    if b.mode == HalfOpen || b.failures + 1 >= cfg.threshold
    then BreakerState(Open, b.failures + 1, now)
    else b.(failures := b.failures + 1)
  }

  function OnSuccess(b: BreakerState): BreakerState {
    match b.mode
    case HalfOpen => b.(mode := Closed, failures := 0)
    case Closed => b.(failures := 0)
    case Open => b
  }

  class CircuitBreaker {
    const cfg: Config
    var mode: Mode
    var failures: int
    var openedAt: real

    function View(): BreakerState
      reads this
    {
      BreakerState(mode, failures, openedAt)
    }

    constructor (cfg: Config)
      ensures this.cfg == cfg && View() == FRESH
    {
      this.cfg := cfg;
      mode, failures, openedAt := Closed, 0, 0.0;
    }

    /** A false result is the fast failure. */
    method Enter(now: real) returns (forwarded: bool)
      modifies this
      ensures forwarded == Forwards(cfg, old(View()), now)
      ensures View() == OnEnter(cfg, old(View()), now)
    {
      if mode == Open {
        if now - openedAt >= cfg.recovery {
          mode := HalfOpen;
        } else {
          return false;
        }
      }
      return true;
    }

    method Fail(now: real)
      modifies this
      ensures View() == OnFailure(cfg, old(View()), now)
    {
      failures := failures + 1;
      if mode == HalfOpen || failures >= cfg.threshold {
        mode := Open;
        openedAt := now;
      }
    }

    method Succeed()
      modifies this
      ensures View() == OnSuccess(old(View()))
    {
      if mode == HalfOpen {
        mode := Closed;
        failures := 0;
      } else if mode == Closed {
        failures := 0;
      }
    }
  }

  // ---------------------------------------------------------------- runs of overlapping calls

  datatype Event =
    | Tick(dt: real)
    | Enter(call: nat)
    | Succeed(call: nat)
    | Fail(call: nat)
    | Cancel(call: nat)

  datatype Completion = Completion(ok: bool, at: real)

  /** The breaker with the calls in flight upstream, every completion it has been told of, and how many
      calls were forwarded, failed fast or were cancelled; `probes` counts the moves to HALF_OPEN. */
  datatype System = System(
    clock: real, breaker: BreakerState, inFlight: set<nat>, history: seq<Completion>,
    forwarded: nat, fastFails: nat, cancelled: nat, probes: nat)

  const INIT := System(0.0, FRESH, {}, [], 0, 0, 0, 0)

  /** One atomic step.  A step of a call that is not in a position to take it changes nothing. */
  function Step(cfg: Config, s: System, e: Event): System {
    match e
    case Tick(dt) => if dt >= 0.0 then s.(clock := s.clock + dt) else s
    case Enter(call) =>
      if call in s.inFlight then s
      else if Forwards(cfg, s.breaker, s.clock) then
        s.(breaker := OnEnter(cfg, s.breaker, s.clock), inFlight := s.inFlight + {call},
           forwarded := s.forwarded + 1, probes := s.probes + (if s.breaker.mode == Open then 1 else 0))
      else s.(fastFails := s.fastFails + 1)
    case Succeed(call) =>
      if call !in s.inFlight then s
      else s.(breaker := OnSuccess(s.breaker), inFlight := s.inFlight - {call},
              history := s.history + [Completion(true, s.clock)])
    case Fail(call) =>
      if call !in s.inFlight then s
      else s.(breaker := OnFailure(cfg, s.breaker, s.clock), inFlight := s.inFlight - {call},
              history := s.history + [Completion(false, s.clock)])
    case Cancel(call) =>
      if call !in s.inFlight then s
      else s.(inFlight := s.inFlight - {call}, cancelled := s.cancelled + 1)
  }

  function Run(cfg: Config, start: System, events: seq<Event>): System {
    if events == [] then start
    else Step(cfg, Run(cfg, start, events[..|events| - 1]), events[|events| - 1])
  }

  lemma {:induction false} RunOn(cfg: Config, start: System, xs: seq<Event>, ys: seq<Event>)
    ensures Run(cfg, start, xs + ys) == Run(cfg, Run(cfg, start, xs), ys)
  {
    if ys == [] {
      assert xs + ys == xs;
    } else {
      var both, n := xs + ys, |ys| - 1;
      assert both[..|both| - 1] == xs + ys[..n];
      RunOn(cfg, start, xs, ys[..n]);
    }
  }

  // ---------------------------------------------------------------- what the events amount to

  /** Calls that ask to enter without being in flight already. */
  function Arrivals(cfg: Config, start: System, events: seq<Event>): nat {
    if events == [] then 0
    else
      var before, e := events[..|events| - 1], events[|events| - 1];
      Arrivals(cfg, start, before)
      + (if e.Enter? && e.call !in Run(cfg, start, before).inFlight then 1 else 0)
  }

  /** A clock that never runs back. */
  function TimePassed(events: seq<Event>): real {
    if events == [] then 0.0
    else
      var e := events[|events| - 1];
      TimePassed(events[..|events| - 1]) + (if e.Tick? && e.dt > 0.0 then e.dt else 0.0)
  }

  /** A call is upstream from when it is let in until its own outcome; other calls have no say in it but
      through the verdict at the door. */
  predicate Upstream(cfg: Config, events: seq<Event>, call: nat) {
    && events != []
    && var before, e := events[..|events| - 1], events[|events| - 1];
       match e
       case Tick(_) => Upstream(cfg, before, call)
       case Enter(c) => Upstream(cfg, before, call) || (c == call && LetIn(cfg, before))
       case _ => e.call != call && Upstream(cfg, before, call)
  }

  /** The verdict at the door: unless open, or once the timeout has passed since the latest failure. */
  predicate LetIn(cfg: Config, events: seq<Event>) {
    var s := Run(cfg, INIT, events);
    s.breaker.mode == Open ==>
      var failure := LastFailure(s.history);
      failure.Some? && TimePassed(events) - failure.value >= cfg.recovery
  }

  /** The outcomes of calls upstream, each at its own moment. */
  function Completions(cfg: Config, events: seq<Event>): seq<Completion> {
    if events == [] then []
    else
      var before, e := events[..|events| - 1], events[|events| - 1];
      Completions(cfg, before)
      + if (e.Succeed? || e.Fail?) && Upstream(cfg, before, e.call)
        then [Completion(e.Succeed?, TimePassed(before))] else []
  }

  function Cancellations(cfg: Config, events: seq<Event>): nat {
    if events == [] then 0
    else
      var before, e := events[..|events| - 1], events[|events| - 1];
      Cancellations(cfg, before) + (if e.Cancel? && Upstream(cfg, before, e.call) then 1 else 0)
  }

  /** Calls let in by an open breaker. */
  function Spells(cfg: Config, events: seq<Event>): nat {
    if events == [] then 0
    else
      var before, e := events[..|events| - 1], events[|events| - 1];
      Spells(cfg, before)
      + if e.Enter? && !Upstream(cfg, before, e.call) && Run(cfg, INIT, before).breaker.mode == Open
           && LetIn(cfg, before)
        then 1 else 0
  }

  /** Failed completions since the last success that found the breaker closed or half open. */
  function FailuresSinceReset(cfg: Config, events: seq<Event>): nat {
    if events == [] then 0
    else
      var before, e := events[..|events| - 1], events[|events| - 1];
      var earlier := FailuresSinceReset(cfg, before);
      match e
      case Fail(call) => if Upstream(cfg, before, call) then earlier + 1 else earlier
      case Succeed(call) =>
        if Upstream(cfg, before, call) && Run(cfg, INIT, before).breaker.mode != Open then 0 else earlier
      case _ => earlier
  }

  /** The moment of the latest failure that left the breaker open. */
  function OpeningTime(cfg: Config, events: seq<Event>): real {
    if events == [] then 0.0
    else
      var before, e := events[..|events| - 1], events[|events| - 1];
      if e.Fail? && Upstream(cfg, before, e.call) && Run(cfg, INIT, events).breaker.mode == Open
      then TimePassed(before) else OpeningTime(cfg, before)
  }

  /** Every run is what its events amount to: the clock, who is upstream, what the breaker was told and
      when, every tally and the opening time; and the counter counts failures since it was reset, late
      ones in OPEN included. */
  lemma {:induction false} RunIsItsEvents(cfg: Config, events: seq<Event>, call: nat)
    ensures var s := Run(cfg, INIT, events);
            && s.clock == TimePassed(events)
            && (call in s.inFlight <==> Upstream(cfg, events, call))
            && s.history == Completions(cfg, events)
            && s.cancelled == Cancellations(cfg, events)
            && s.forwarded + s.fastFails == Arrivals(cfg, INIT, events)
            && s.probes == Spells(cfg, events)
            && s.breaker.failures == FailuresSinceReset(cfg, events)
            && s.breaker.openedAt == OpeningTime(cfg, events)
  {
    if events != [] {
      var before, e := events[..|events| - 1], events[|events| - 1];
      RunIsItsEvents(cfg, before, call);
      if !e.Tick? {
        RunIsItsEvents(cfg, before, e.call);
      }
      OpenSinceLastFailure(cfg, before);
      HistoryDecides(cfg, before);
      assert Run(cfg, INIT, events) == Step(cfg, Run(cfg, INIT, before), e);
      hide Run, LastFailure;
    }
  }

  /** Liveness of the door: in every reachable state a call is let in exactly when the breaker is not open
      or the timeout has passed since the latest failed completion; that call is the probe, and any other
      fails fast and changes nothing else. */
  lemma LetInAfterTimeout(cfg: Config, events: seq<Event>, call: nat)
    requires call !in Run(cfg, INIT, events).inFlight
    ensures var s := Run(cfg, INIT, events);
            s.breaker.mode == Open ==> LastFailure(s.history).Some?
    ensures var s, t := Run(cfg, INIT, events), Step(cfg, Run(cfg, INIT, events), Enter(call));
            if s.breaker.mode == Open ==> s.clock - LastFailure(s.history).value >= cfg.recovery
            then
              && t.forwarded == s.forwarded + 1 && t.inFlight == s.inFlight + {call}
              && t.breaker == s.breaker.(mode := if s.breaker.mode == Closed then Closed else HalfOpen)
            else t == s.(fastFails := s.fastFails + 1)
  {
    OpenSinceLastFailure(cfg, events);
  }

  /** An open breaker is left alone by late successes, cancellations and calls it turns away: only a
      failure or a forwarded call changes anything about it. */
  lemma {:induction false} OpenIsLeftAlone(cfg: Config, start: System, events: seq<Event>)
    requires start.breaker.mode == Open
    requires forall i | 0 <= i < |events| :: !events[i].Fail?
    ensures var t := Run(cfg, start, events);
            && t.forwarded >= start.forwarded
            && (t.forwarded == start.forwarded ==> t.breaker == start.breaker)
  {
    if events != [] {
      OpenIsLeftAlone(cfg, start, events[..|events| - 1]);
    }
  }

  // ---------------------------------------------------------------- what the history decides

  /** A threshold below one acts as one: any failure opens. */
  function Limit(cfg: Config): int {
    Max(1, cfg.threshold)
  }

  /** Length of the run of failures at the end of the history. */
  function TrailingFailures(history: seq<Completion>): (n: nat) {
    if history == [] || history[|history| - 1].ok then 0
    else 1 + TrailingFailures(history[..|history| - 1])
  }

  ghost predicate Consistent(cfg: Config, s: System) {
    && s.breaker.failures >= 0
    && (s.breaker.mode == Closed <==> s.breaker.failures < Limit(cfg))
    && (s.breaker.mode == Closed ==> s.breaker.failures == TrailingFailures(s.history))
  }

  /** History determines the breaker, in every reachable state: it is closed exactly while its counter is
      below the threshold, and then the counter is the trailing run of failed completions. */
  lemma {:induction false} HistoryDecides(cfg: Config, events: seq<Event>)
    ensures Consistent(cfg, Run(cfg, INIT, events))
  {
    if events != [] {
      var before, e := Run(cfg, INIT, events[..|events| - 1]), events[|events| - 1];
      HistoryDecides(cfg, events[..|events| - 1]);
      var after := Step(cfg, before, e);
      if after.history != before.history {
        assert after.history[..|after.history| - 1] == before.history;
      }
    }
  }

  /** A closed breaker leaves that state only by opening, exactly when a failed completion brings the
      trailing run to the threshold. */
  lemma OpensAtThreshold(cfg: Config, events: seq<Event>, e: Event)
    requires Run(cfg, INIT, events).breaker.mode == Closed
    ensures var s, t := Run(cfg, INIT, events), Step(cfg, Run(cfg, INIT, events), e);
            && (t.breaker.mode == Open <==> t.history != s.history && TrailingFailures(t.history) == Limit(cfg))
            && t.breaker.mode != HalfOpen
  {
    HistoryDecides(cfg, events);
    hide Run;
    var s := Run(cfg, INIT, events);
    var t := Step(cfg, s, e);
    if t.history != s.history {
      assert t.history[..|t.history| - 1] == s.history;
    }
  }

  /** The test for HALF_OPEN on the failure path changes nothing: the counter test implies it. */
  lemma HalfOpenTestIsImplied(cfg: Config, events: seq<Event>, now: real)
    ensures var b := Run(cfg, INIT, events).breaker;
            OnFailure(cfg, b, now)
            == if b.failures + 1 >= cfg.threshold then BreakerState(Open, b.failures + 1, now)
               else b.(failures := b.failures + 1)
  {
    HistoryDecides(cfg, events);
  }

  /** Every forwarded call is still in flight, has completed, or was cancelled. */
  lemma {:induction false} ForwardedCallsAccounted(cfg: Config, events: seq<Event>)
    ensures Accounted(Run(cfg, INIT, events))
  {
    hide Step;
    if events != [] {
      hide Accounted;
      ForwardedCallsAccounted(cfg, events[..|events| - 1]);
      StaysAccounted(cfg, Run(cfg, INIT, events[..|events| - 1]), events[|events| - 1]);
    }
  }

  ghost predicate Accounted(s: System) {
    s.forwarded == |s.inFlight| + |s.history| + s.cancelled
  }

  lemma StaysAccounted(cfg: Config, s: System, e: Event)
    requires Accounted(s)
    ensures Accounted(Step(cfg, s, e))
  {
    hide OnEnter, OnFailure, OnSuccess, Forwards;
  }

  // ---------------------------------------------------------------- blackout

  /** Time of the latest failed completion. */
  function LastFailure(history: seq<Completion>): Option<real> {
    if history == [] then None
    else if !history[|history| - 1].ok then Some(history[|history| - 1].at)
    else LastFailure(history[..|history| - 1])
  }

  ghost predicate Timely(cfg: Config, s: System) {
    && (s.breaker.mode != Closed ==>
          && LastFailure(s.history) == Some(s.breaker.openedAt)
          && s.breaker.openedAt <= s.clock
          && (forall i | 0 <= i < |s.history| && !s.history[i].ok :: s.history[i].at <= s.breaker.openedAt))
    && (forall i | 0 <= i < |s.history| :: s.history[i].at <= s.clock)
    && (s.breaker.mode == HalfOpen ==> s.clock - s.breaker.openedAt >= cfg.recovery)
  }

  lemma TimelyStep(cfg: Config, s: System, e: Event)
    requires Timely(cfg, s) && Consistent(cfg, s)
    ensures Timely(cfg, Step(cfg, s, e))
  {
    var t := Step(cfg, s, e);
    if t.history != s.history {
      assert t.history[..|t.history| - 1] == s.history;
      assert forall i | 0 <= i < |s.history| :: t.history[i] == s.history[i];
    }
  }

  /** Unless closed, the breaker's opening time is that of the latest failed completion, late ones
      included; and while HALF_OPEN the recovery timeout has passed since. */
  lemma {:induction false} OpenSinceLastFailure(cfg: Config, events: seq<Event>)
    ensures Timely(cfg, Run(cfg, INIT, events))
  {
    if events != [] {
      OpenSinceLastFailure(cfg, events[..|events| - 1]);
      HistoryDecides(cfg, events[..|events| - 1]);
      TimelyStep(cfg, Run(cfg, INIT, events[..|events| - 1]), events[|events| - 1]);
    }
  }

  /** Blackout: from an open breaker, whatever happens before the recovery timeout has passed since the
      latest failure, nothing is forwarded and it stays open. */
  lemma {:induction false} Blackout(cfg: Config, past: seq<Event>, future: seq<Event>)
    requires Run(cfg, INIT, past).breaker.mode == Open
    ensures var s, t := Run(cfg, INIT, past), Run(cfg, Run(cfg, INIT, past), future);
            && LastFailure(s.history) == Some(s.breaker.openedAt)
            && (t.clock < s.breaker.openedAt + cfg.recovery ==> t.breaker.mode == Open && t.forwarded == s.forwarded)
  {
    OpenSinceLastFailure(cfg, past);
    StillDark(cfg, past, future);
  }

  lemma {:induction false} StillDark(cfg: Config, past: seq<Event>, future: seq<Event>)
    requires Run(cfg, INIT, past).breaker.mode == Open
    ensures var s, t := Run(cfg, INIT, past), Run(cfg, Run(cfg, INIT, past), future);
            && s.clock <= t.clock
            && (t.clock < s.breaker.openedAt + cfg.recovery ==>
                  t.breaker.mode == Open && t.forwarded == s.forwarded && s.breaker.openedAt <= t.breaker.openedAt)
  {
    if future != [] {
      StillDark(cfg, past, future[..|future| - 1]);
      OpenSinceLastFailure(cfg, past);
      RunOn(cfg, INIT, past, future[..|future| - 1]);
      HistoryDecides(cfg, past + future[..|future| - 1]);
    }
  }

  /** Safe re-close: only a success in HALF_OPEN closes the breaker, and no failure has completed within
      the recovery timeout before it. */
  lemma SafeReclose(cfg: Config, events: seq<Event>, e: Event)
    requires Run(cfg, INIT, events).breaker.mode != Closed
    ensures var s, t := Run(cfg, INIT, events), Step(cfg, Run(cfg, INIT, events), e);
            (t.breaker.mode == Closed <==> s.breaker.mode == HalfOpen && e.Succeed? && e.call in s.inFlight)
    ensures var t := Step(cfg, Run(cfg, INIT, events), e);
            t.breaker.mode == Closed ==>
              forall c | c in t.history && !c.ok :: c.at <= t.clock - cfg.recovery
  {
    OpenSinceLastFailure(cfg, events);
    HistoryDecides(cfg, events);
  }
}
