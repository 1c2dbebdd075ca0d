/** The upstream health window, app/services/upstream_health.py: two sorted sets of timestamps, pruned
    on write and expired when idle, standing for the log of every result. */
module UpstreamHealth {
  import opened Numbers

  const WINDOW_SECONDS := 60.0
  const TTL_SECONDS := 180.0
  const ERROR_THRESHOLD := 0.2
  const DEGRADED_FACTOR := 0.5

  /** A sorted set.  Each member is its own score printed, so the scores say everything. */
  datatype Window = Window(scores: set<real>, expiresAt: real)

  const EMPTY := Window({}, 0.0)

  /** What Redis finds under the key. */
  function Live(w: Window, redisNow: real): set<real> {
    if redisNow < w.expiresAt then w.scores else {}
  }

  /** ZCOUNT since..+inf. */
  function Counted(w: Window, since: real, redisNow: real): set<real> {
    set s | s in Live(w, redisNow) && s >= since
  }

  // ---------------------------------------------------------------- the log

  /** One recorded result: which set it goes to, the writer's clock and Redis's. */
  datatype Write = Write(success: bool, at: real, redisAt: real)

  function Recorded(w: Window, at: real, redisAt: real): Window {
    var kept := set s | s in Live(w, redisAt) + {at} && s > at - WINDOW_SECONDS;
    Window(kept, redisAt + TTL_SECONDS)
  }

  /** The set kept for `success` results after the first n writes. */
  function WindowAfter(log: seq<Write>, n: nat, success: bool): Window
    requires n <= |log|
  {
    if n == 0 then EMPTY
    else if log[n - 1].success != success then WindowAfter(log, n - 1, success)
    else Recorded(WindowAfter(log, n - 1, success), log[n - 1].at, log[n - 1].redisAt)
  }

  /** Where the minute that counts begins. */
  function LastMinute(now: real): real {
    now - 60.0
  }

  /** Position of the last write of a kind among the first n, or -1. */
  function LastWrite(log: seq<Write>, n: nat, success: bool): (i: int)
    requires n <= |log|
    ensures -1 <= i < n
    ensures i >= 0 ==> log[i].success == success
    ensures forall j | i < j < n :: log[j].success != success
  {
    if n == 0 then -1 else if log[n - 1].success == success then n - 1 else LastWrite(log, n - 1, success)
  }

  /** If the set has expired by the given moment, every write of its kind is more than a window old. */
  ghost predicate ExpiresStale(log: seq<Write>, n: nat, success: bool, at: real, redisAt: real)
    requires n <= |log|
  {
    var last := LastWrite(log, n, success);
    last >= 0 && redisAt - log[last].redisAt >= 180.0 ==>
      forall i | 0 <= i < n && log[i].success == success :: log[i].at < LastMinute(at)
  }

  ghost predicate ClocksAgree(log: seq<Write>) {
    forall n | 0 <= n < |log| :: ExpiresStale(log, n, log[n].success, log[n].at, log[n].redisAt)
  }

  ghost predicate ReaderAgrees(log: seq<Write>, now: real, redisNow: real) {
    && ExpiresStale(log, |log|, true, now, redisNow)
    && ExpiresStale(log, |log|, false, now, redisNow)
  }

  /** From a write to a later moment Redis's clock does not run back, and gains less than two minutes on
      the clocks of writers and readers. */
  ghost predicate InStep(w: Write, at: real, redisAt: real) {
    w.redisAt <= redisAt && redisAt - w.redisAt < at - w.at + 120.0
  }

  /** Clocks in step agree. */
  lemma TwoMinutesOfSlack(log: seq<Write>, now: real, redisNow: real)
    requires forall i, j | 0 <= i < j < |log| :: InStep(log[i], log[j].at, log[j].redisAt)
    ensures ClocksAgree(log)
    ensures (forall w | w in log :: InStep(w, now, redisNow)) ==> ReaderAgrees(log, now, redisNow)
  {
    forall n | 0 <= n < |log|
      ensures ExpiresStale(log, n, log[n].success, log[n].at, log[n].redisAt)
    {
      StaleInStep(log, n, log[n].success, log[n].at, log[n].redisAt);
    }
    if forall w | w in log :: InStep(w, now, redisNow) {
      StaleInStep(log, |log|, true, now, redisNow);
      StaleInStep(log, |log|, false, now, redisNow);
    }
  }

  lemma StaleInStep(log: seq<Write>, n: nat, success: bool, at: real, redisAt: real)
    requires n <= |log|
    requires forall i, j | 0 <= i < j < |log| :: InStep(log[i], log[j].at, log[j].redisAt)
    requires forall i | 0 <= i < n :: InStep(log[i], at, redisAt)
    ensures ExpiresStale(log, n, success, at, redisAt)
  {
    var last := LastWrite(log, n, success);
    forall i | 0 <= i < n && log[i].success == success && last >= 0 && redisAt - log[last].redisAt >= 180.0
      ensures log[i].at < LastMinute(at)
    {
      assert i < last ==> InStep(log[i], log[last].at, log[last].redisAt);
      assert InStep(log[i], at, redisAt);
    }
  }

  /** The unpruned log's answer: distinct timestamps from `since` on. */
  function Recent(log: seq<Write>, success: bool, since: real): set<real> {
    set w | w in log && w.success == success && w.at >= since :: w.at
  }

  /** Some write of s is followed by no write of its kind a whole window or more ahead of it. */
  ghost predicate Survives(log: seq<Write>, n: nat, success: bool, s: real)
    requires n <= |log|
  {
    exists i | 0 <= i < n :: StillThere(log, i, n, success, s)
  }

  ghost predicate StillThere(log: seq<Write>, i: nat, n: nat, success: bool, s: real)
    requires i < n <= |log|
  {
    && log[i].success == success && log[i].at == s
    && forall j | i <= j < n && log[j].success == success :: s > LastMinute(log[j].at)
  }

  /** Every score kept was written, and the set outlives its last write by the full time to live. */
  lemma {:induction false} WrittenAndKept(log: seq<Write>, n: nat, success: bool, s: real)
    requires n <= |log|
    ensures var w, last := WindowAfter(log, n, success), LastWrite(log, n, success);
            && (s in w.scores ==> exists i | 0 <= i < n :: log[i].success == success && log[i].at == s)
            && (if last < 0 then w == EMPTY else w.expiresAt == log[last].redisAt + 180.0)
  {
    if n > 0 {
      WrittenAndKept(log, n - 1, success, s);
    }
  }

  /** Whatever is lost to expiry by a moment is a whole window old by then. */
  lemma ExpiredIsStale(log: seq<Write>, n: nat, success: bool, at: real, redisAt: real, s: real)
    requires n <= |log| && ExpiresStale(log, n, success, at, redisAt)
    requires s in WindowAfter(log, n, success).scores && redisAt >= WindowAfter(log, n, success).expiresAt
    ensures s < LastMinute(at)
  {
    WrittenAndKept(log, n, success, s);
  }

  lemma {:induction false} PrefixAgrees(xs: seq<Write>, ys: seq<Write>, n: nat, success: bool)
    requires n <= |xs| && n <= |ys| && xs[..n] == ys[..n]
    ensures WindowAfter(xs, n, success) == WindowAfter(ys, n, success)
  {
    if n > 0 {
      assert xs[n - 1] == xs[..n][n - 1] == ys[n - 1];
      assert xs[..n - 1] == xs[..n][..n - 1] == ys[..n - 1];
      PrefixAgrees(xs, ys, n - 1, success);
    }
  }

  /** What the pruned, expiring set holds, for writes whose timestamps come in any order: exactly the
      survivors of the log.  Expiry itself never removes anything the next write would have kept. */
  lemma {:induction false} WindowHoldsSurvivors(log: seq<Write>, n: nat, success: bool, s: real)
    requires n <= |log| && ClocksAgree(log)
    ensures s in WindowAfter(log, n, success).scores <==> Survives(log, n, success, s)
  {
    hide ExpiresStale, LastWrite;
    if n > 0 {
      hide Survives;
      var e := log[n - 1];
      WindowHoldsSurvivors(log, n - 1, success, s);
      SurvivesOneMore(log, n, success, s);
      var before := WindowAfter(log, n - 1, success);
      if e.success == success && s in before.scores && e.redisAt >= before.expiresAt {
        assert ExpiresStale(log, n - 1, success, e.at, e.redisAt);
        ExpiredIsStale(log, n - 1, success, e.at, e.redisAt, s);
      }
    }
  }

  lemma SurvivesOneMore(log: seq<Write>, n: nat, success: bool, s: real)
    requires 0 < n <= |log|
    ensures var e := log[n - 1];
            Survives(log, n, success, s)
            <==> if e.success != success then Survives(log, n - 1, success, s)
                 else s > LastMinute(e.at) && (s == e.at || Survives(log, n - 1, success, s))
  {
    var e := log[n - 1];
    if Survives(log, n, success, s) {
      var i :| 0 <= i < n && StillThere(log, i, n, success, s);
      if i < n - 1 {
        assert StillThere(log, i, n - 1, success, s);
      }
    }
    if Survives(log, n - 1, success, s) && (e.success == success ==> s > LastMinute(e.at)) {
      var i :| 0 <= i < n - 1 && StillThere(log, i, n - 1, success, s);
      assert StillThere(log, i, n, success, s);
    }
    if e.success == success && s == e.at {
      assert StillThere(log, n - 1, n, success, s);
    }
  }

  /** The log's timestamps in the window of a read at `now` that no write of their kind has pruned. */
  ghost function Surviving(log: seq<Write>, success: bool, now: real): set<real> {
    set s | s in Recent(log, success, LastMinute(now)) && Survives(log, |log|, success, s)
  }

  /** What any read counts, however its clock stands to the writers': the survivors in its window. */
  lemma CountedAreSurvivors(log: seq<Write>, success: bool, now: real, redisNow: real)
    requires ClocksAgree(log) && ReaderAgrees(log, now, redisNow)
    ensures Counted(WindowAfter(log, |log|, success), LastMinute(now), redisNow) == Surviving(log, success, now)
  {
    hide Survives, ClocksAgree, ReaderAgrees, WindowAfter;
    forall s
      ensures s in Counted(WindowAfter(log, |log|, success), LastMinute(now), redisNow)
              <==> s in Surviving(log, success, now)
    {
      CountedSurvives(log, success, now, redisNow, s);
      SurvivorsWritten(log, success, s);
    }
  }

  lemma CountedSurvives(log: seq<Write>, success: bool, now: real, redisNow: real, s: real)
    requires ClocksAgree(log) && ReaderAgrees(log, now, redisNow)
    ensures s in Counted(WindowAfter(log, |log|, success), LastMinute(now), redisNow)
            <==> s >= LastMinute(now) && Survives(log, |log|, success, s)
  {
    var w := WindowAfter(log, |log|, success);
    WindowHoldsSurvivors(log, |log|, success, s);
    if s in w.scores && redisNow >= w.expiresAt {
      ExpiredIsStale(log, |log|, success, now, redisNow, s);
    }
  }

  lemma RecentSurvive(log: seq<Write>, success: bool, now: real, s: real)
    requires s in Recent(log, success, LastMinute(now))
    requires forall w | w in log :: w.at <= now
    requires s > LastMinute(now) || forall w | w in log :: w.at < now
    ensures Survives(log, |log|, success, s)
  {
    var i :| 0 <= i < |log| && log[i].success == success && log[i].at == s;
    assert StillThere(log, i, |log|, success, s);
  }

  lemma SurvivorsWritten(log: seq<Write>, success: bool, s: real)
    ensures Survives(log, |log|, success, s) ==> exists w | w in log :: w.success == success && w.at == s
  {
    if Survives(log, |log|, success, s) {
      var i :| 0 <= i < |log| && StillThere(log, i, |log|, success, s);
      assert log[i] in log;
    }
  }

  /** Read after every write, nothing recent has been pruned. */
  ghost predicate ReadLast(log: seq<Write>, now: real) {
    forall w | w in log :: w.at < now
  }

  lemma LastReadSeesAll(log: seq<Write>, success: bool, now: real)
    requires ReadLast(log, now)
    ensures Surviving(log, success, now) == Recent(log, success, LastMinute(now))
  {
    hide Survives;
    forall s | s in Recent(log, success, LastMinute(now))
      ensures s in Surviving(log, success, now)
    {
      hide Recent;
      RecentSurvive(log, success, now, s);
    }
  }

  /** Window refinement: a read no earlier than any write counts the unpruned log's distinct recent
      timestamps, all but the one exactly a window old when no write of it survives; a read later than
      every write counts them all. */
  lemma WindowRefinesLog(log: seq<Write>, success: bool, now: real, redisNow: real)
    requires ClocksAgree(log) && ReaderAgrees(log, now, redisNow)
    requires forall w | w in log :: w.at <= now
    ensures var boundary := LastMinute(now);
            var counted := Counted(WindowAfter(log, |log|, success), boundary, redisNow);
            && counted == Recent(log, success, boundary)
                          - (if Survives(log, |log|, success, boundary) then {} else {boundary})
            && (ReadLast(log, now) ==> counted == Recent(log, success, boundary))
  {
    hide Counted, Survives, ClocksAgree, ReaderAgrees, WindowAfter, ReadLast;
    var boundary := LastMinute(now);
    CountedAreSurvivors(log, success, now, redisNow);
    if ReadLast(log, now) {
      LastReadSeesAll(log, success, now);
    }
    forall s | s in Recent(log, success, boundary) && s != boundary
      ensures Survives(log, |log|, success, s)
    {
      RecentSurvive(log, success, now, s);
    }
  }

  /** The exception is real: a read at the very instant of a write that pruned its boundary. */
  lemma BoundaryMayBeLost()
    ensures var log := [Write(true, 0.0, 0.0), Write(true, 60.0, 60.0)];
            && ClocksAgree(log) && ReaderAgrees(log, 60.0, 60.0)
            && 0.0 in Recent(log, true, 0.0)
            && 0.0 !in Counted(WindowAfter(log, 2, true), 0.0, 60.0)
  {
    var log := [Write(true, 0.0, 0.0), Write(true, 60.0, 60.0)];
    assert log[0] in log;
    assert WindowAfter(log, 2, true) == Recorded(WindowAfter(log, 1, true), 60.0, 60.0);
  }

  /** The life of one result, in seconds: it is counted by reads up to a minute after it, and by none once
      Redis's clock has moved on three minutes without another of its kind. */
  lemma OneResult(success: bool, at: real, redisAt: real, now: real, redisNow: real)
    ensures var w := WindowAfter([Write(success, at, redisAt)], 1, success);
            Counted(w, now - WINDOW_SECONDS, redisNow)
            == if now <= at + 60.0 && redisNow < redisAt + 180.0 then {at} else {}
  {
    assert WindowAfter([Write(success, at, redisAt)], 0, success) == EMPTY;
  }

  /** A later one of its kind prunes it if a minute or more ahead, and finds it gone after three minutes. */
  lemma TwoResults(success: bool, first: Write, second: Write, s: real)
    requires first.success == second.success == success
    ensures var w := WindowAfter([first, second], 2, success);
            && w.expiresAt == second.redisAt + 180.0
            && (s in w.scores <==>
                  || s == second.at
                  || (s == first.at && second.at < first.at + 60.0 && second.redisAt < first.redisAt + 180.0))
  {
    var log := [first, second];
    assert WindowAfter(log, 0, success) == EMPTY;
    assert WindowAfter(log, 1, success) == Recorded(EMPTY, first.at, first.redisAt);
    assert WindowAfter(log, 2, success) == Recorded(WindowAfter(log, 1, success), second.at, second.redisAt);
  }

  // ---------------------------------------------------------------- the verdict

  function HealthFactor(successes: nat, errors: nat): real {
    var total := successes + errors;
    if total < 10 then 1.0
    else if errors as real / total as real > ERROR_THRESHOLD then DEGRADED_FACTOR
    else 1.0
  }

  /** Ten samples, and more than one in five an error. */
  predicate TooManyErrors(successes: nat, errors: nat) {
    successes + errors >= 10 && 5 * errors > successes + errors
  }

  /** Limits are halved exactly then. */
  lemma FactorThreshold(successes: nat, errors: nat)
    ensures HealthFactor(successes, errors) == if TooManyErrors(successes, errors) then 0.5 else 1.0
  {
    var total := successes + errors;
    if total > 0 {
      QuotientBounds(errors as real, total as real, 0.2);
    }
  }

  datatype Status = Status(degraded: bool, errorRate: real, factor: real, requestsInWindow: nat)

  /** The admin endpoint's view, its rate rounded to four decimals first. */
  function HealthStatus(successes: nat, errors: nat): Status {
    var total := successes + errors;
    var errorRate :=
      if total > 0 then RoundHalfEven(errors as real / total as real * 10000.0) as real / 10000.0 else 0.0;
    var factor := if total >= 10 && errorRate > ERROR_THRESHOLD then DEGRADED_FACTOR else 1.0;
    Status(factor < 1.0, errorRate, factor, total)
  }

  function ErrorRate(successes: nat, errors: nat): real {
    if successes + errors == 0 then 0.0 else errors as real / (successes + errors) as real
  }

  /** What the admin endpoint's figures say about the counts: the rate is the exact one's nearest four
      decimals, the even one of two, and the verdict asks for ten samples and an exact rate above a fifth
      by more than half a unit of the last decimal. */
  ghost predicate ReportsOn(status: Status, successes: nat, errors: nat) {
    var total, ticks := successes + errors, status.errorRate * 10000.0;
    var off := ticks - ErrorRate(successes, errors) * 10000.0;
    && status.requestsInWindow == total
    && Whole(ticks) && -0.5 <= off <= 0.5
    && (off == 0.5 || off == -0.5 ==> ticks.Floor % 2 == 0)
    && (status.degraded <==> total >= 10 && 4000 * (5 * errors - total) > total)
    && status.factor == if status.degraded then 0.5 else 1.0
  }

  lemma StatusReports(successes: nat, errors: nat)
    ensures ReportsOn(HealthStatus(successes, errors), successes, errors)
  {
    hide ErrorRate, HealthStatus, RoundHalfEven;
    VerdictReported(successes, errors);
    RateReported(successes, errors);
  }

  lemma VerdictReported(successes: nat, errors: nat)
    ensures var total, status := successes + errors, HealthStatus(successes, errors);
            && status.requestsInWindow == total
            && (status.degraded <==> total >= 10 && 4000 * (5 * errors - total) > total)
            && status.factor == if status.degraded then 0.5 else 1.0
  {
    StatusVersusFactor(successes, errors);
    FactorThreshold(successes, errors);
    hide RoundHalfEven, HealthFactor;
  }

  lemma RateReported(successes: nat, errors: nat)
    ensures var exact := ErrorRate(successes, errors) * 10000.0;
            HealthStatus(successes, errors).errorRate * 10000.0 == RoundHalfEven(exact) as real
  {
    var exact := ErrorRate(successes, errors) * 10000.0;
    var rounded := RoundHalfEven(exact);
    assert successes + errors == 0 ==> rounded == 0;
    assert HealthStatus(successes, errors).errorRate == rounded as real / 10000.0;
  }

  /** The status never reports degradation that is not enforced, and fails to report it exactly when the
      error rate is above a fifth by at most a twenty-thousandth. */
  lemma StatusVersusFactor(successes: nat, errors: nat)
    ensures var total, status := successes + errors, HealthStatus(successes, errors);
            var enforced := HealthFactor(successes, errors);
            && (status.degraded ==> enforced == 0.5)
            && (status.factor != enforced
                <==> total >= 10 && 0 < 5 * errors - total && 4000 * (5 * errors - total) <= total)
  {
    var total := successes + errors;
    FactorThreshold(successes, errors);
    if total > 0 {
      var q := errors as real / total as real;
      var rounded := RoundHalfEven(q * 10000.0);
      QuotientBounds(errors as real, total as real, 0.20005);
      assert rounded >= 2001 <==> q > 0.20005;
    }
  }

  /** The unpruned log's verdict on the window of a read at `now`. */
  ghost predicate Degraded(log: seq<Write>, now: real) {
    TooManyErrors(|Surviving(log, true, now)|, |Surviving(log, false, now)|)
  }

  /** Read after every write it counts every distinct timestamp of the last window. */
  lemma LastReadVerdict(log: seq<Write>, now: real)
    requires ReadLast(log, now)
    ensures Degraded(log, now)
            <==> TooManyErrors(|Recent(log, true, LastMinute(now))|, |Recent(log, false, LastMinute(now))|)
  {
    LastReadSeesAll(log, true, now);
    LastReadSeesAll(log, false, now);
  }

  // ---------------------------------------------------------------- the store

  class HealthStore {
    var success: Window
    var error: Window
    ghost var log: seq<Write>

    /** The sets are what the log's writes leave behind. */
    ghost predicate Valid()
      reads this
    {
      success == WindowAfter(log, |log|, true) && error == WindowAfter(log, |log|, false)
    }

    constructor ()
      ensures Valid() && log == []
    {
      success, error, log := EMPTY, EMPTY, [];
    }

    /** ZADD, ZREMRANGEBYSCORE and EXPIRE in one pipeline; a Redis error is swallowed. */
    method RecordUpstreamResult(ok: bool, now: real, redisNow: real, redisUp: bool)
      requires Valid()
      modifies this
      ensures Valid()
      ensures log == if redisUp then old(log) + [Write(ok, now, redisNow)] else old(log)
    {
      if !redisUp {
        return;
      }
      var w := if ok then success else error;
      var cutoff := now - WINDOW_SECONDS;
      var scores := Live(w, redisNow) + {now};
      scores := set s | s in scores && s > cutoff;
      w := Window(scores, redisNow + TTL_SECONDS);
      if ok {
        success := w;
      } else {
        error := w;
      }
      log := log + [Write(ok, now, redisNow)];
      PrefixAgrees(old(log), log, |old(log)|, true);
      PrefixAgrees(old(log), log, |old(log)|, false);
    }

    /** The counts the two readers take. */
    method CountWindow(now: real, redisNow: real) returns (successes: nat, errors: nat)
      requires Valid()
      ensures successes == |Counted(WindowAfter(log, |log|, true), LastMinute(now), redisNow)|
      ensures errors == |Counted(WindowAfter(log, |log|, false), LastMinute(now), redisNow)|
    {
      successes := |Counted(success, now - WINDOW_SECONDS, redisNow)|;
      errors := |Counted(error, now - WINDOW_SECONDS, redisNow)|;
    }

    /** The verdict of the two sets as they stand. */
    ghost predicate ReadsDegraded(now: real, redisNow: real)
      reads this
    {
      TooManyErrors(|Counted(success, LastMinute(now), redisNow)|,
                    |Counted(error, LastMinute(now), redisNow)|)
    }

    /** Limits are halved exactly when the sets say so; while clocks agree that is what the whole unpruned
        log says. */
    method GetHealthFactor(now: real, redisNow: real, redisUp: bool) returns (factor: real)
      requires Valid()
      ensures factor == if redisUp && ReadsDegraded(now, redisNow) then 0.5 else 1.0
      ensures ClocksAgree(log) && ReaderAgrees(log, now, redisNow) ==>
                (ReadsDegraded(now, redisNow) <==> Degraded(log, now))
    {
      if ClocksAgree(log) && ReaderAgrees(log, now, redisNow) {
        CountedAreSurvivors(log, true, now, redisNow);
        CountedAreSurvivors(log, false, now, redisNow);
      }
      if !redisUp {
        return 1.0;
      }
      var successes, errors := CountWindow(now, redisNow);
      factor := HealthFactor(successes, errors);
      FactorThreshold(successes, errors);
    }

    /** Likewise the figures reported; none are when Redis is down. */
    method GetHealthStatus(now: real, redisNow: real, redisUp: bool) returns (status: Option<Status>)
      requires Valid()
      ensures status.None? <==> !redisUp
      ensures redisUp ==> ReportsOn(status.value, |Counted(success, LastMinute(now), redisNow)|,
                                    |Counted(error, LastMinute(now), redisNow)|)
      ensures redisUp && ClocksAgree(log) && ReaderAgrees(log, now, redisNow) ==>
                ReportsOn(status.value, |Surviving(log, true, now)|, |Surviving(log, false, now)|)
    {
      if !redisUp {
        return None;
      }
      var successes, errors := CountWindow(now, redisNow);
      status := Some(HealthStatus(successes, errors));
      StatusReports(successes, errors);
      if ClocksAgree(log) && ReaderAgrees(log, now, redisNow) {
        CountedAreSurvivors(log, true, now, redisNow);
        CountedAreSurvivors(log, false, now, redisNow);
      }
    }
  }
}
