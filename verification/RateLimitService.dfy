/** Which limit applies to a request, app/services/rate_limit_service.py, and what halving it while the
    upstream is degraded does to a whole run. */
module RateLimitService {
  import opened Numbers
  import opened TokenBucket
  import opened RedisLimiter

  const WINDOW_SECONDS: Positive := 60

  datatype Settings = Settings(free: int, pro: int, enterprise: int)

  datatype QuotaOverride = QuotaOverride(customLimit: int, expiresAt: Option<real>)

  function TierDefault(settings: Settings, tier: string): int {
    if tier == "pro" then settings.pro
    else if tier == "enterprise" then settings.enterprise
    else settings.free
  }

  /** An override counts while it has not expired. */
  function LookupOverride(row: Option<QuotaOverride>, utcNow: real): Option<int> {
    if row.None? then None
    else if row.value.expiresAt.Some? && row.value.expiresAt.value < utcNow then None
    else Some(row.value.customLimit)
  }

  /** An override that has not expired wins; any tier not known by name is treated as free. */
  function ResolveLimit(settings: Settings, tier: string, row: Option<QuotaOverride>, utcNow: real): (limit: int)
    ensures row.Some? && (row.value.expiresAt == None || utcNow <= row.value.expiresAt.value) ==>
              limit == row.value.customLimit
    ensures row.None? || (row.value.expiresAt.Some? && row.value.expiresAt.value < utcNow) ==>
              && (tier == "pro" ==> limit == settings.pro)
              && (tier == "enterprise" ==> limit == settings.enterprise)
              && (tier !in ["pro", "enterprise"] ==> limit == settings.free)
  {
    var override := LookupOverride(row, utcNow);
    if override.Some? then override.value else TierDefault(settings, tier)
  }

  function EffectiveLimit(base: int, factor: real): Positive {
    Max(1, Trunc(base as real * factor))
  }

  /** One rate-limit check: the clock read, the base limit resolved and the health factor in force. */
  datatype Request = Request(now: int, base: int, factor: real)

  /** What the request becomes for the limiter. */
  function ArrivalOf(r: Request): Arrival {
    var limit := EffectiveLimit(r.base, r.factor);
    Arrival(r.now, limit, Rate(limit, WINDOW_SECONDS))
  }

  function Trace(requests: seq<Request>): (trace: seq<Arrival>)
    ensures |trace| == |requests|
    ensures forall i | 0 <= i < |trace| :: trace[i] == ArrivalOf(requests[i])
  {
    seq(|requests|, i requires 0 <= i < |requests| => ArrivalOf(requests[i]))
  }

  /** The same requests with health factors at most as high. */
  ghost predicate Degrades(degraded: seq<Request>, healthy: seq<Request>) {
    && |degraded| == |healthy|
    && forall i | 0 <= i < |degraded| ::
         && degraded[i].now == healthy[i].now
         && degraded[i].base == healthy[i].base
         && 0.0 <= degraded[i].factor <= healthy[i].factor
  }

  lemma LowerFactorLowersLimit(base: int, low: real, high: real)
    requires 0.0 <= low <= high
    ensures EffectiveLimit(base, low) <= EffectiveLimit(base, high)
  {
    hide Trunc;
    if base >= 0 {
      ScaleGrows(base, low, high);
      TruncGrows(base as real * low, base as real * high);
    } else {
      NegativeBase(base, low);
      NegativeBase(base, high);
    }
  }

  lemma ScaleGrows(base: nat, low: real, high: real)
    requires low <= high
    ensures base as real * low <= base as real * high
  {
    MulMono(low, high, base as real);
  }

  lemma NegativeBase(base: int, factor: real)
    requires base < 0 && 0.0 <= factor
    ensures EffectiveLimit(base, factor) == 1
  {
    MulMono(0.0, factor, -(base as real));
    assert base as real * factor == -(factor * -(base as real));
    TruncGrows(base as real * factor, 0.0);
  }

  lemma RateGrows(low: Positive, high: Positive, window: Positive)
    requires low <= high
    ensures Rate(low, window) <= Rate(high, window)
  {
    QuotientBounds(low as real, window as real, Rate(high, window));
  }

  /** Degradation dominance: lowering the health factor at any points of a run, whatever the base
      limits and clocks, never lets more requests through by any prefix. */
  lemma DegradationNeverAdmitsMore(degraded: seq<Request>, healthy: seq<Request>, n: nat)
    requires Degrades(degraded, healthy) && n <= |degraded|
    ensures Count(Admissions(None, Trace(degraded)), 0, n) <= Count(Admissions(None, Trace(healthy)), 0, n)
  {
    var tight, loose := Trace(degraded), Trace(healthy);
    forall i | 0 <= i < |tight|
      ensures tight[i].now == loose[i].now && tight[i].capacity <= loose[i].capacity && tight[i].rate <= loose[i].rate
    {
      LowerFactorLowersLimit(degraded[i].base, degraded[i].factor, healthy[i].factor);
      RateGrows(tight[i].capacity, loose[i].capacity, WINDOW_SECONDS);
    }
    TighterLimitsNeverAdmitMore(tight, loose, n);
  }

  /** Dominance is about totals only: a single request can get through just because earlier ones
      were turned away. */
  lemma SingleRequestMayGain()
    ensures var degraded := [Request(0, 2, 0.5), Request(0, 2, 0.5), Request(30, 2, 0.5), Request(45, 2, 1.0)];
            var healthy := [Request(0, 2, 1.0), Request(0, 2, 1.0), Request(30, 2, 1.0), Request(45, 2, 1.0)];
            && Degrades(degraded, healthy)
            && AdmittedAt(None, Trace(degraded), 3)
            && !AdmittedAt(None, Trace(healthy), 3)
  {
    var degraded := [Request(0, 2, 0.5), Request(0, 2, 0.5), Request(30, 2, 0.5), Request(45, 2, 1.0)];
    var healthy := [Request(0, 2, 1.0), Request(0, 2, 1.0), Request(30, 2, 1.0), Request(45, 2, 1.0)];
    var d, h := Trace(degraded), Trace(healthy);
    assert Rate(1, 60) == 1.0 / 60.0 && Rate(2, 60) == 1.0 / 30.0;
    assert d[0] == Arrival(0, 1, 1.0 / 60.0) && d[1] == d[0] && d[2] == Arrival(30, 1, 1.0 / 60.0);
    assert h[0] == Arrival(0, 2, 1.0 / 30.0) && h[1] == h[0] && h[2] == Arrival(30, 2, 1.0 / 30.0);
    assert d[3] == h[3] == Arrival(45, 2, 1.0 / 30.0);
    assert StateAfter(None, d, 1) == Some(TokenBucketState(0.0, 0));
    assert StateAfter(None, d, 2) == Some(TokenBucketState(0.0, 0));
    assert StateAfter(None, d, 3) == Some(TokenBucketState(0.5, 30));
    assert StateAfter(None, h, 1) == Some(TokenBucketState(1.0, 0));
    assert StateAfter(None, h, 2) == Some(TokenBucketState(0.0, 0));
    assert StateAfter(None, h, 3) == Some(TokenBucketState(0.0, 30));
  }
}
