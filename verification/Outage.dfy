/** How much load reaches an upstream that never answers: app/infra/circuit_breaker.py lines 57-83. */
module Outage {
  import opened Numbers
  import opened CircuitBreaker

  ghost predicate NothingSucceeds(events: seq<Event>) {
    forall i | 0 <= i < |events| :: !events[i].Succeed?
  }

  /** Never more than k calls in flight. */
  ghost predicate AtMostInFlight(cfg: Config, start: System, events: seq<Event>, k: nat) {
    forall i | 0 <= i <= |events| :: |Run(cfg, start, events[..i]).inFlight| <= k
  }

  /** k calls for each of n spells. */
  function Calls(k: nat, n: nat): nat {
    k * n
  }

  /** The time n recovery timeouts take. */
  function Timeouts(cfg: Config, n: nat): real {
    n as real * cfg.recovery
  }

  lemma OneMore(cfg: Config, k: nat, n: nat)
    ensures Calls(k, n + 1) == Calls(k, n) + k && Calls(k, 0) == 0
    ensures Timeouts(cfg, n + 1) == Timeouts(cfg, n) + cfg.recovery && Timeouts(cfg, 0) == 0.0
  {
  }

  /** Calls the upstream may have been sent: those up to the first opening, then at most k for each move
      to HALF_OPEN, the moves being at least a recovery timeout apart, and one more in the place of each
      call cancelled. */
  ghost predicate LoadBounded(cfg: Config, s: System, k: nat) {
    match s.breaker.mode
    case Closed =>
      && s.probes == 0 && s.clock >= 0.0
      && s.forwarded == s.breaker.failures + |s.inFlight| + s.cancelled
    case Open =>
      && s.forwarded < Limit(cfg) + Calls(k, s.probes + 1) + s.cancelled
      && s.clock >= s.breaker.openedAt >= Timeouts(cfg, s.probes)
    case HalfOpen =>
      && s.forwarded < Limit(cfg) + Calls(k, s.probes) + |s.inFlight| + s.cancelled
      && s.clock >= Timeouts(cfg, s.probes)
  }

  lemma LoadStep(cfg: Config, s: System, e: Event, k: nat)
    requires cfg.recovery > 0.0 && !e.Succeed?
    requires Consistent(cfg, s) && LoadBounded(cfg, s, k) && |s.inFlight| <= k
    ensures LoadBounded(cfg, Step(cfg, s, e), k)
  {
    hide Calls, Timeouts;
    OneMore(cfg, k, s.probes);
  }

  lemma {:induction false} LoadInvariant(cfg: Config, events: seq<Event>, k: nat)
    requires cfg.recovery > 0.0 && NothingSucceeds(events) && AtMostInFlight(cfg, INIT, events, k)
    ensures LoadBounded(cfg, Run(cfg, INIT, events), k)
  {
    if events != [] {
      var n := |events| - 1;
      forall i | 0 <= i <= n
        ensures |Run(cfg, INIT, events[..n][..i]).inFlight| <= k
      {
        assert events[..n][..i] == events[..i];
      }
      LoadInvariant(cfg, events[..n], k);
      HistoryDecides(cfg, events[..n]);
      LoadStep(cfg, Run(cfg, INIT, events[..n]), events[n], k);
    }
  }

  /** Outage load bound, late failures counted: a run shorter than n + 1 recovery timeouts sends the
      upstream at most threshold - 1 + k * (n + 1) calls, and one more for each call cancelled. */
  lemma OutageLoadBound(cfg: Config, events: seq<Event>, k: nat, n: nat)
    requires cfg.recovery > 0.0 && NothingSucceeds(events) && AtMostInFlight(cfg, INIT, events, k)
    requires Run(cfg, INIT, events).clock < Timeouts(cfg, n + 1)
    ensures var s := Run(cfg, INIT, events);
            s.forwarded <= Limit(cfg) - 1 + Calls(k, n + 1) + s.cancelled
  {
    hide Run, Calls, Timeouts, AtMostInFlight, NothingSucceeds;
    var s := Run(cfg, INIT, events);
    LoadInvariant(cfg, events, k);
    HistoryDecides(cfg, events);
    AtTheEnd(cfg, events, k);
    OneMore(cfg, k, s.probes);
    OneMore(cfg, k, n);
    if s.breaker.mode != Closed {
      FewerSpells(cfg, k, s.probes, n);
    }
  }

  lemma AtTheEnd(cfg: Config, events: seq<Event>, k: nat)
    requires AtMostInFlight(cfg, INIT, events, k)
    ensures |Run(cfg, INIT, events).inFlight| <= k
  {
    assert events[..|events|] == events;
  }

  lemma FewerSpells(cfg: Config, k: nat, probes: nat, n: nat)
    requires cfg.recovery > 0.0 && Timeouts(cfg, probes) < Timeouts(cfg, n + 1)
    ensures probes <= n && Calls(k, probes + 1) <= Calls(k, n + 1)
  {
    ProductOrder(probes as real, (n + 1) as real, cfg.recovery);
  }

  // ---------------------------------------------------------------- the bound is reached

  /** Calls 0..k-1 enter; calls 0..k-1 fail. */
  function EnterAll(k: nat): seq<Event> {
    if k == 0 then [] else EnterAll(k - 1) + [Enter(k - 1)]
  }

  function FailAll(k: nat): seq<Event> {
    if k == 0 then [] else [Fail(k - 1)] + FailAll(k - 1)
  }

  /** n calls one after the other, each cancelled; or each failing. */
  function CancelOneByOne(n: nat): seq<Event> {
    if n == 0 then [] else CancelOneByOne(n - 1) + [Enter(0), Cancel(0)]
  }

  function FailOneByOne(n: nat): seq<Event> {
    if n == 0 then [] else FailOneByOne(n - 1) + [Enter(0), Fail(0)]
  }

  /** k calls let in together fail together. */
  function Burst(k: nat): seq<Event> {
    EnterAll(k) + FailAll(k)
  }

  /** Each time the timeout has passed, another burst. */
  function Rounds(cfg: Config, k: nat, rounds: nat): seq<Event> {
    if rounds == 0 then [] else Rounds(cfg, k, rounds - 1) + ([Tick(cfg.recovery)] + Burst(k))
  }

  function Opening(cfg: Config, k: nat, cancels: nat): seq<Event> {
    CancelOneByOne(cancels) + (FailOneByOne(Limit(cfg) - 1) + Burst(k))
  }

  function WorstCase(cfg: Config, k: nat, rounds: nat, cancels: nat): seq<Event> {
    Opening(cfg, k, cancels) + Rounds(cfg, k, rounds)
  }

  function Ids(k: nat): (ids: set<nat>)
    ensures |ids| == k && forall i: nat :: i in ids <==> i < k
  {
    if k == 0 then {} else Ids(k - 1) + {k - 1}
  }

  lemma OneMoreId(k: nat)
    ensures Ids(k + 1) == Ids(k) + {k} && Ids(k + 1) - {k} == Ids(k) && k !in Ids(k)
  {
  }

  /** A stretch of outage from start to t: nothing succeeds, at most k are in flight, and `sent` calls are
      forwarded, `cancels` of them cancelled. */
  ghost predicate Sends(cfg: Config, start: System, events: seq<Event>, t: System, k: nat, sent: nat, cancels: nat) {
    && NothingSucceeds(events) && AtMostInFlight(cfg, start, events, k)
    && t == Run(cfg, start, events)
    && t.forwarded == start.forwarded + sent && t.cancelled == start.cancelled + cancels
  }

  lemma SendsOn(cfg: Config, start: System, xs: seq<Event>, mid: System, ys: seq<Event>, t: System, k: nat,
                m: nat, n: nat, c: nat, d: nat)
    requires Sends(cfg, start, xs, mid, k, m, c) && Sends(cfg, mid, ys, t, k, n, d)
    ensures Sends(cfg, start, xs + ys, t, k, m + n, c + d)
  {
    RunOn(cfg, start, xs, ys);
    forall i | 0 <= i <= |xs + ys|
      ensures |Run(cfg, start, (xs + ys)[..i]).inFlight| <= k
    {
      if i <= |xs| {
        assert (xs + ys)[..i] == xs[..i];
      } else {
        assert (xs + ys)[..i] == xs + ys[..i - |xs|];
        RunOn(cfg, start, xs, ys[..i - |xs|]);
      }
    }
  }

  lemma SendsNothing(cfg: Config, start: System, k: nat)
    requires |start.inFlight| <= k
    ensures Sends(cfg, start, [], start, k, 0, 0)
  {
    var none: seq<Event> := [];
    assert none[..0] == none;
  }

  lemma SendsStep(cfg: Config, start: System, e: Event, k: nat)
    requires !e.Succeed? && |start.inFlight| <= k && |Step(cfg, start, e).inFlight| <= k
    ensures var t := Step(cfg, start, e);
            Sends(cfg, start, [e], t, k, t.forwarded - start.forwarded, t.cancelled - start.cancelled)
  {
    var events := [e];
    assert events[..0] == [] && events[..1] == events;
    assert Run(cfg, start, []) == start;
    forall i | 0 <= i <= |events|
      ensures |Run(cfg, start, events[..i]).inFlight| <= k
    {
      assert i == 0 || i == 1;
    }
  }

  /** One call at a time enters a closed breaker and leaves, by failing or by being cancelled. */
  lemma EnterAndLeave(cfg: Config, start: System, e: Event, k: nat) returns (t: System)
    requires k > 0 && start.inFlight == {} && start.breaker.mode == Closed
    requires e == Fail(0) || e == Cancel(0)
    ensures Sends(cfg, start, [Enter(0), e], t, k, 1, if e.Cancel? then 1 else 0)
    ensures t.inFlight == {} && t.clock == start.clock
    ensures t.breaker == if e.Cancel? then start.breaker else OnFailure(cfg, start.breaker, start.clock)
  {
    hide Run, Sends, OnFailure;
    var u := Step(cfg, start, Enter(0));
    assert u.inFlight == {0} && u.inFlight - {0} == {};
    t := Step(cfg, u, e);
    SendsStep(cfg, start, Enter(0), k);
    SendsStep(cfg, u, e, k);
    SendsOn(cfg, start, [Enter(0)], u, [e], t, k, 1, 0, 0, t.cancelled - u.cancelled);
    assert [Enter(0)] + [e] == [Enter(0), e];
  }

  lemma {:induction false} CancelSequence(cfg: Config, n: nat, k: nat) returns (t: System)
    requires k > 0
    ensures Sends(cfg, INIT, CancelOneByOne(n), t, k, n, n)
    ensures t.inFlight == {} && t.clock == 0.0 && t.breaker == FRESH
  {
    hide Run, Sends;
    if n == 0 {
      t := INIT;
      SendsNothing(cfg, INIT, k);
    } else {
      var u := CancelSequence(cfg, n - 1, k);
      t := EnterAndLeave(cfg, u, Cancel(0), k);
      SendsOn(cfg, INIT, CancelOneByOne(n - 1), u, [Enter(0), Cancel(0)], t, k, n - 1, 1, n - 1, 1);
    }
  }

  lemma {:induction false} FailSequence(cfg: Config, start: System, n: nat, k: nat) returns (t: System)
    requires n < Limit(cfg) && k > 0
    requires start.inFlight == {} && start.breaker == FRESH
    ensures Sends(cfg, start, FailOneByOne(n), t, k, n, 0)
    ensures t.inFlight == {} && t.clock == start.clock && t.breaker == FRESH.(failures := n)
  {
    hide Run, Sends;
    if n == 0 {
      t := start;
      SendsNothing(cfg, start, k);
    } else {
      var u := FailSequence(cfg, start, n - 1, k);
      t := EnterAndLeave(cfg, u, Fail(0), k);
      SendsOn(cfg, start, FailOneByOne(n - 1), u, [Enter(0), Fail(0)], t, k, n - 1, 1, 0, 0);
    }
  }

  lemma EnterOne(cfg: Config, u: System, call: nat)
    requires call !in u.inFlight && Forwards(cfg, u.breaker, u.clock)
    ensures var t := Step(cfg, u, Enter(call));
            && t.inFlight == u.inFlight + {call}
            && t.forwarded == u.forwarded + 1 && t.cancelled == u.cancelled && t.clock == u.clock
            && Forwards(cfg, t.breaker, t.clock) && t.breaker.failures == u.breaker.failures
  {
  }

  /** An idle breaker that forwards lets all k in together. */
  lemma {:induction false} EnterTogether(cfg: Config, start: System, n: nat, k: nat) returns (t: System)
    requires n <= k && start.inFlight == {}
    requires Forwards(cfg, start.breaker, start.clock)
    ensures Sends(cfg, start, EnterAll(n), t, k, n, 0)
    ensures t.inFlight == Ids(n) && t.clock == start.clock && Forwards(cfg, t.breaker, t.clock)
    ensures t.breaker.failures == start.breaker.failures
  {
    hide Run, Sends, Step, Forwards, Ids;
    if n == 0 {
      t := start;
      SendsNothing(cfg, start, k);
      assert Ids(0) == {};
    } else {
      var u := EnterTogether(cfg, start, n - 1, k);
      t := Step(cfg, u, Enter(n - 1));
      OneMoreId(n - 1);
      EnterOne(cfg, u, n - 1);
      SendsStep(cfg, u, Enter(n - 1), k);
      SendsOn(cfg, start, EnterAll(n - 1), u, [Enter(n - 1)], t, k, n - 1, 1, 0, 0);
    }
  }

  /** Open as of now, and idle. */
  ghost predicate Tripped(cfg: Config, s: System) {
    && s.breaker.mode == Open && s.breaker.openedAt == s.clock
    && s.breaker.failures >= Limit(cfg)
    && s.inFlight == {}
  }

  lemma FailOne(cfg: Config, start: System, call: nat)
    requires call in start.inFlight && start.breaker.failures + 1 >= Limit(cfg)
    ensures var t := Step(cfg, start, Fail(call));
            && t.inFlight == start.inFlight - {call}
            && t.forwarded == start.forwarded && t.cancelled == start.cancelled && t.clock == start.clock
            && t.breaker == BreakerState(Open, start.breaker.failures + 1, start.clock)
  {
  }

  /** Failures beyond the limit leave the breaker open as of now, late ones included. */
  lemma {:induction false} FailTogether(cfg: Config, start: System, n: nat, k: nat) returns (t: System)
    requires n <= k && start.inFlight == Ids(n)
    requires start.breaker.failures + 1 >= Limit(cfg)
    requires n == 0 ==> Tripped(cfg, start)
    ensures Sends(cfg, start, FailAll(n), t, k, 0, 0)
    ensures t.clock == start.clock && Tripped(cfg, t)
    decreases n
  {
    hide Run, Sends, Step, Ids;
    if n == 0 {
      t := start;
      assert Ids(0) == {};
      SendsNothing(cfg, start, k);
    } else {
      var u := Step(cfg, start, Fail(n - 1));
      OneMoreId(n - 1);
      FailOne(cfg, start, n - 1);
      SendsStep(cfg, start, Fail(n - 1), k);
      t := FailTogether(cfg, u, n - 1, k);
      SendsOn(cfg, start, [Fail(n - 1)], u, FailAll(n - 1), t, k, 0, 0, 0, 0);
    }
  }

  /** A burst into an idle breaker one failure short of its limit, or beyond it. */
  lemma BurstTrips(cfg: Config, start: System, k: nat) returns (t: System)
    requires k > 0 && start.inFlight == {}
    requires Forwards(cfg, start.breaker, start.clock) && start.breaker.failures + 1 >= Limit(cfg)
    ensures Sends(cfg, start, Burst(k), t, k, k, 0)
    ensures t.clock == start.clock && Tripped(cfg, t)
  {
    hide Run, Sends;
    var u := EnterTogether(cfg, start, k, k);
    t := FailTogether(cfg, u, k, k);
    SendsOn(cfg, start, EnterAll(k), u, FailAll(k), t, k, k, 0, 0, 0);
  }

  lemma {:induction false} ManyRounds(cfg: Config, start: System, k: nat, rounds: nat) returns (t: System)
    requires k > 0 && cfg.recovery > 0.0
    requires Tripped(cfg, start)
    ensures Sends(cfg, start, Rounds(cfg, k, rounds), t, k, Calls(k, rounds), 0)
    ensures t.clock == start.clock + Timeouts(cfg, rounds) && Tripped(cfg, t)
  {
    hide Run, Sends, Calls, Timeouts, Burst;
    if rounds == 0 {
      t := start;
      SendsNothing(cfg, start, k);
      OneMore(cfg, k, 0);
    } else {
      var u := ManyRounds(cfg, start, k, rounds - 1);
      var ticked := Step(cfg, u, Tick(cfg.recovery));
      SendsStep(cfg, u, Tick(cfg.recovery), k);
      t := BurstTrips(cfg, ticked, k);
      SendsOn(cfg, u, [Tick(cfg.recovery)], ticked, Burst(k), t, k, 0, k, 0, 0);
      SendsOn(cfg, start, Rounds(cfg, k, rounds - 1), u, [Tick(cfg.recovery)] + Burst(k), t, k,
              Calls(k, rounds - 1), k, 0, 0);
      OneMore(cfg, k, rounds - 1);
    }
  }

  lemma FirstOpening(cfg: Config, k: nat, cancels: nat) returns (t: System)
    requires k > 0
    ensures Sends(cfg, INIT, Opening(cfg, k, cancels), t, k, cancels + (Limit(cfg) - 1 + k), cancels)
    ensures t.clock == 0.0 && Tripped(cfg, t)
  {
    hide Run, Sends, Burst;
    var n := Limit(cfg) - 1;
    var idle := CancelSequence(cfg, cancels, k);
    var ready := FailSequence(cfg, idle, n, k);
    t := BurstTrips(cfg, ready, k);
    SendsOn(cfg, idle, FailOneByOne(n), ready, Burst(k), t, k, n, k, 0, 0);
    SendsOn(cfg, INIT, CancelOneByOne(cancels), idle, FailOneByOne(n) + Burst(k), t, k, cancels, n + k, cancels, 0);
  }

  /** No smaller bound holds: for every configuration, every k and n and any number of cancellations, some
      outage exactly n recovery timeouts long sends the upstream that many calls. */
  lemma OutageLoadIsReached(cfg: Config, k: nat, n: nat, cancels: nat)
    requires k > 0 && cfg.recovery > 0.0
    ensures var events := WorstCase(cfg, k, n, cancels);
            var s := Run(cfg, INIT, events);
            && NothingSucceeds(events) && AtMostInFlight(cfg, INIT, events, k)
            && s.clock == Timeouts(cfg, n) && s.cancelled == cancels
            && s.forwarded == Limit(cfg) - 1 + Calls(k, n + 1) + cancels
  {
    hide Run, Calls, Timeouts, AtMostInFlight, NothingSucceeds, Opening, Rounds;
    var u := FirstOpening(cfg, k, cancels);
    var t := ManyRounds(cfg, u, k, n);
    SendsOn(cfg, INIT, Opening(cfg, k, cancels), u, Rounds(cfg, k, n), t, k,
            cancels + (Limit(cfg) - 1 + k), Calls(k, n), cancels, 0);
    OneMore(cfg, k, n);
  }
}
