/** What the breaker's HALF_OPEN state does and does not promise: app/infra/circuit_breaker.py lines 7
    and 58-92. */
module Probes {
  import opened CircuitBreaker

  // ---------------------------------------------------------------- calls that never overlap

  /** Every call enters with none in flight, and none is cancelled. */
  predicate OneAtATime(cfg: Config, start: System, events: seq<Event>) {
    events == []
    || var before, e := events[..|events| - 1], events[|events| - 1];
       && OneAtATime(cfg, start, before)
       && !e.Cancel?
       && (e.Enter? ==> Run(cfg, start, before).inFlight == {})
  }

  /** HALF_OPEN is only ever seen while the one call is in flight. */
  lemma {:induction false} NeverHalfOpenBetweenCalls(cfg: Config, events: seq<Event>)
    requires OneAtATime(cfg, INIT, events)
    ensures var s := Run(cfg, INIT, events);
            && |s.inFlight| <= 1
            && (s.inFlight == {} ==> s.breaker.mode != HalfOpen)
  {
    if events != [] {
      var s, e := Run(cfg, INIT, events[..|events| - 1]), events[|events| - 1];
      NeverHalfOpenBetweenCalls(cfg, events[..|events| - 1]);
      HistoryDecides(cfg, events[..|events| - 1]);
      if (e.Succeed? || e.Fail?) && e.call in s.inFlight {
        assert |s.inFlight - {e.call}| == |s.inFlight| - 1;
      }
    }
  }

  /** How a stretch that began open and idle stands after forwarding `sent` calls. */
  ghost predicate SpellStands(s: System, t: System) {
    && s.forwarded <= t.forwarded
    && |t.inFlight| <= 1
    && (t.forwarded == s.forwarded ==>
          t.breaker == s.breaker && t.inFlight == {} && t.history == s.history)
    && (t.forwarded == s.forwarded + 1 && t.inFlight != {} ==>
          t.breaker == s.breaker.(mode := HalfOpen) && t.history == s.history)
    && (t.forwarded == s.forwarded + 1 && t.inFlight == {} ==>
          && |t.history| == |s.history| + 1 && t.history[..|s.history|] == s.history
          && var verdict := t.history[|s.history|];
             t.breaker == if verdict.ok then BreakerState(Closed, 0, s.breaker.openedAt)
                          else BreakerState(Open, s.breaker.failures + 1, verdict.at))
  }

  /** Probe discipline: from an open, idle breaker with calls one at a time, nothing changes until a call
      is forwarded, and once that single call has completed its outcome alone has decided: closed with a
      clean counter, or open again from its own failure. */
  lemma {:induction false} OneProbeEndsTheSpell(cfg: Config, past: seq<Event>, spell: seq<Event>)
    requires OneAtATime(cfg, Run(cfg, INIT, past), spell)
    requires Run(cfg, INIT, past).breaker.mode == Open && Run(cfg, INIT, past).inFlight == {}
    ensures SpellStands(Run(cfg, INIT, past), Run(cfg, Run(cfg, INIT, past), spell))
  {
    if spell != [] {
      var s := Run(cfg, INIT, past);
      var u, e := Run(cfg, s, spell[..|spell| - 1]), spell[|spell| - 1];
      OneProbeEndsTheSpell(cfg, past, spell[..|spell| - 1]);
      if (e.Succeed? || e.Fail?) && e.call in u.inFlight {
        assert |u.inFlight - {e.call}| == |u.inFlight| - 1;
        assert u.inFlight - {e.call} == {};
      }
    }
  }

  /** Calls that fail one at a time, and after the timeout a probe. */
  function Failures(n: nat): seq<Event> {
    if n == 0 then [] else Failures(n - 1) + [Enter(0), Fail(0)]
  }

  function Recovery(cfg: Config): seq<Event> {
    [Tick(cfg.recovery), Enter(0), Succeed(0)]
  }

  /** Such spells happen: for every configuration calls one at a time trip the breaker and close it again. */
  lemma OneAtATimeRecovers(cfg: Config)
    requires cfg.recovery >= 0.0
    ensures var past, spell := Failures(Limit(cfg)), Recovery(cfg);
            var s := Run(cfg, INIT, past);
            && OneAtATime(cfg, INIT, past) && s.breaker.mode == Open && s.inFlight == {}
            && OneAtATime(cfg, s, spell)
            && Run(cfg, s, spell) == s.(clock := cfg.recovery, breaker := BreakerState(Closed, 0, 0.0),
                                        history := s.history + [Completion(true, cfg.recovery)],
                                        forwarded := s.forwarded + 1, probes := s.probes + 1)
  {
    FailuresOpen(cfg, Limit(cfg));
    var s, spell := Run(cfg, INIT, Failures(Limit(cfg))), Recovery(cfg);
    assert spell[..2][..1] == spell[..1] && spell[..1][..0] == [];
    assert OneAtATime(cfg, s, spell[..0]) && OneAtATime(cfg, s, spell[..1]) && OneAtATime(cfg, s, spell[..2]);
    assert Run(cfg, s, spell[..1]) == Step(cfg, Run(cfg, s, []), Tick(cfg.recovery));
    assert Run(cfg, s, spell[..2]) == Step(cfg, Run(cfg, s, spell[..1]), Enter(0));
    assert {0} - {0} == {};
  }

  lemma {:induction false} FailuresOpen(cfg: Config, n: nat)
    requires n <= Limit(cfg)
    ensures var t := Run(cfg, INIT, Failures(n));
            && OneAtATime(cfg, INIT, Failures(n))
            && t.inFlight == {} && t.clock == 0.0
            && t.breaker == BreakerState(if n < Limit(cfg) then Closed else Open, n, 0.0)
  {
    if n > 0 {
      FailuresOpen(cfg, n - 1);
      var before, events := Failures(n - 1), Failures(n);
      TwoMore(cfg, INIT, before, Enter(0), Fail(0));
      assert events[..|events| - 1] == before + [Enter(0)] && (before + [Enter(0)])[..|before|] == before;
      assert OneAtATime(cfg, INIT, before + [Enter(0)]);
      assert {0} - {0} == {};
    }
  }

  // ---------------------------------------------------------------- calls that overlap

  /** HALF_OPEN has no gate: as long as no completion has ended it, every arrival is forwarded. */
  lemma {:induction false} HalfOpenForwardsEveryArrival(cfg: Config, start: System, events: seq<Event>)
    requires start.breaker.mode == HalfOpen
    requires Run(cfg, start, events).history == start.history
    ensures var t := Run(cfg, start, events);
            && t.breaker == start.breaker
            && t.forwarded == start.forwarded + Arrivals(cfg, start, events)
            && t.fastFails == start.fastFails
  {
    if events != [] {
      var before := events[..|events| - 1];
      HistoryOnlyGrows(cfg, start, before);
      HistoryOnlyGrows(cfg, start, events);
      HalfOpenForwardsEveryArrival(cfg, start, before);
    }
  }

  /** When the documented promise of one probe does hold: from an open breaker whose timeout has passed,
      while the probe is out, it is the only call forwarded if and only if no other call arrives. */
  lemma ProbeIsAlone(cfg: Config, s: System, probe: nat, events: seq<Event>)
    requires s.breaker.mode == Open && Forwards(cfg, s.breaker, s.clock) && probe !in s.inFlight
    requires Run(cfg, Step(cfg, s, Enter(probe)), events).history == s.history
    ensures var t := Run(cfg, Step(cfg, s, Enter(probe)), events);
            && t.breaker.mode == HalfOpen
            && (t.forwarded == s.forwarded + 1 <==> Arrivals(cfg, Step(cfg, s, Enter(probe)), events) == 0)
  {
    HalfOpenForwardsEveryArrival(cfg, Step(cfg, s, Enter(probe)), events);
  }

  /** From u on no call arrives, and e is the first completion. */
  ghost predicate FirstCompletion(cfg: Config, u: System, events: seq<Event>, e: Event) {
    var t := Run(cfg, u, events);
    && t.history == u.history && Arrivals(cfg, u, events) == 0
    && Step(cfg, t, e).history != u.history
  }

  /** Without arrivals calls only leave. */
  lemma {:induction false} CallsOnlyLeave(cfg: Config, u: System, events: seq<Event>)
    requires Arrivals(cfg, u, events) == 0
    ensures Run(cfg, u, events).inFlight <= u.inFlight
  {
    if events != [] {
      CallsOnlyLeave(cfg, u, events[..|events| - 1]);
    }
  }

  /** When the documented promise that the probe decides does hold: with no other call arriving, its own
      completion is the only one that can end the spell if and only if nothing was in flight as it
      entered.  Whichever call it is, the first completion closes the breaker or opens it anew. */
  lemma ProbeDecides(cfg: Config, s: System, probe: nat)
    requires s.breaker.mode == Open && Forwards(cfg, s.breaker, s.clock) && probe !in s.inFlight
    ensures var u := Step(cfg, s, Enter(probe));
            (forall events, e | FirstCompletion(cfg, u, events, e) :: (e.Succeed? || e.Fail?) && e.call == probe)
            <==> s.inFlight == {}
    ensures var u := Step(cfg, s, Enter(probe));
            forall events, e | FirstCompletion(cfg, u, events, e) ::
              Step(cfg, Run(cfg, u, events), e).breaker.mode == if e.Succeed? then Closed else Open
  {
    var u := Step(cfg, s, Enter(probe));
    forall events, e | FirstCompletion(cfg, u, events, e)
      ensures (e.Succeed? || e.Fail?) && e.call in s.inFlight + {probe}
      ensures Step(cfg, Run(cfg, u, events), e).breaker.mode == if e.Succeed? then Closed else Open
    {
      CallsOnlyLeave(cfg, u, events);
      HalfOpenForwardsEveryArrival(cfg, u, events);
    }
    if s.inFlight != {} {
      var late :| late in s.inFlight;
      assert FirstCompletion(cfg, u, [], Succeed(late));
    }
  }

  lemma {:induction false} HistoryOnlyGrows(cfg: Config, start: System, events: seq<Event>)
    ensures |Run(cfg, start, events).history| >= |start.history|
    ensures |Run(cfg, start, events).history| == |start.history| ==> Run(cfg, start, events).history == start.history
    ensures events != [] ==> |Run(cfg, start, events[..|events| - 1]).history| <= |Run(cfg, start, events).history|
  {
    if events != [] {
      HistoryOnlyGrows(cfg, start, events[..|events| - 1]);
    }
  }

  /** The failing calls that trip a fresh breaker while call 1 stays in flight. */
  function Trip(n: nat): seq<Event> {
    if n == 0 then [] else Trip(n - 1) + [Enter(0), Fail(0)]
  }

  lemma {:induction false} TripOpens(cfg: Config, n: nat)
    requires n <= Limit(cfg)
    ensures var t := Run(cfg, INIT, [Enter(1)] + Trip(n));
            && t.inFlight == {1} && t.clock == 0.0 && t.probes == 0
            && t.breaker == BreakerState(if n < Limit(cfg) then Closed else Open, n, 0.0)
  {
    if n == 0 {
      assert [Enter(1)] + Trip(0) == [Enter(1)];
      assert [Enter(1)][..0] == [];
      assert Run(cfg, INIT, [Enter(1)]) == Step(cfg, Run(cfg, INIT, []), Enter(1));
    } else {
      TripOpens(cfg, n - 1);
      var before := [Enter(1)] + Trip(n - 1);
      assert [Enter(1)] + Trip(n) == before + [Enter(0), Fail(0)];
      TwoMore(cfg, INIT, before, Enter(0), Fail(0));
      var u := Run(cfg, INIT, before);
      assert u.inFlight + {0} - {0} == {1};
    }
  }

  lemma TwoMore(cfg: Config, start: System, events: seq<Event>, d: Event, e: Event)
    ensures Run(cfg, start, events + [d, e]) == Step(cfg, Step(cfg, Run(cfg, start, events), d), e)
  {
    var once, twice := events + [d], events + [d, e];
    assert twice[..|twice| - 1] == once && once[..|once| - 1] == events;
  }

  /** For every configuration: a call forwarded before the breaker tripped, then two more, 2 and 3, forwarded
      together in HALF_OPEN. */
  function Overlap(cfg: Config): seq<Event> {
    [Enter(1)] + Trip(Limit(cfg)) + [Tick(cfg.recovery), Enter(2)] + [Tick(0.0), Enter(3)]
  }

  /** With overlapping calls both discipline claims fail: two calls are in flight in one HALF_OPEN spell,
      and the late success of the call that entered before the opening closes the breaker. */
  lemma OverlapBreaksDiscipline(cfg: Config)
    requires cfg.recovery >= 0.0
    ensures var s := Run(cfg, INIT, Overlap(cfg));
            && s.breaker.mode == HalfOpen && s.inFlight == {1, 2, 3} && s.probes == 1
            && Run(cfg, INIT, [Enter(1)] + Trip(Limit(cfg))).breaker.mode == Open
            && 1 in Run(cfg, INIT, [Enter(1)] + Trip(Limit(cfg))).inFlight
            && Step(cfg, s, Succeed(1)).breaker.mode == Closed
  {
    var tripped := [Enter(1)] + Trip(Limit(cfg));
    TripOpens(cfg, Limit(cfg));
    TwoMore(cfg, INIT, tripped, Tick(cfg.recovery), Enter(2));
    TwoMore(cfg, INIT, tripped + [Tick(cfg.recovery), Enter(2)], Tick(0.0), Enter(3));
  }
}
