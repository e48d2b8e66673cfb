/** Choosing a limiter by name (internal/ratelimit/factory.go) and what the
    derived refill rate means for the token bucket. */
module LimiterFactory {
  import opened Redis
  import opened Rotation
  import opened TokenBuckets
  import SlidingWindows
  import FixedWindows

  const MINUTE: int := 60 * SECOND

  datatype Limiter =
    | Sliding(sliding: SlidingWindows.Config)
    | Bucket(bucket: Config)
    | Fixed(fixed: FixedWindows.Config)

  /** Go's integer division: toward zero. */
  function Quotient(a: int, b: int): int
    requires b > 0
  {
    if a >= 0 then a / b else -(-a / b)
  }

  function RefillRate(limit: int, seconds: int): int
    requires seconds > 0
  {
    var rate := Quotient(limit, seconds);
    if rate == 0 then 1 else rate
  }

  /** A token bucket needs a window of at least a second: its rate divides by the whole seconds. */
  function NewLimiter(algorithm: string, limit: int, window: int): Limiter
    requires algorithm == "token_bucket" ==> window >= SECOND
  {
    if algorithm == "sliding_window" then Sliding(SlidingWindows.Config(limit, window))
    else if algorithm == "token_bucket" then Bucket(Deployed(limit, RefillRate(limit, window / SECOND)))
    else Fixed(FixedWindows.Config(limit, window))
  }

  /** The derived rate is the limit per second, rounded toward zero, and one where that would be zero. */
  lemma {:induction false} RateIsLimitPerSecond(limit: int, seconds: int)
    requires seconds >= 1
    ensures var rate := RefillRate(limit, seconds);
            if limit >= seconds then 1 <= rate && rate * seconds <= limit < (rate + 1) * seconds
            else if limit <= -seconds then rate <= -1 && (rate - 1) * seconds < limit <= rate * seconds
            else rate == 1
  {
    if limit >= 0 {
      QuotientBounds(limit, seconds);
    } else {
      QuotientBounds(-limit, seconds);
      var q := -limit / seconds;
      assert (-q) * seconds == -(q * seconds) && (-q - 1) * seconds == -((q + 1) * seconds);
    }
  }

  lemma {:induction false} QuotientBounds(x: nat, m: nat)
    requires m >= 1
    ensures x / m * m <= x < (x / m + 1) * m
    ensures x >= m <==> x / m >= 1
    ensures x < m ==> x / m == 0
  {
    var q, r := x / m, x % m;
    assert x == q * m + r && (q + 1) * m == q * m + m;
    if x < m {
      Split(x, m, 0, x);
    }
  }

  lemma HalfHours(q: int, seconds: int)
    requires q >= 1 && 1 <= seconds <= 1800
    ensures q * seconds + seconds <= 3600 * q
  {
    assert q * (1800 - seconds) >= 0;
    assert (q - 1) * (1800 - seconds) >= 0;
  }

  lemma RateCoversHour(limit: int, seconds: int)
    requires limit >= 1 && 1 <= seconds <= 1800
    ensures RefillRate(limit, seconds) >= 1 && limit <= 3600 * RefillRate(limit, seconds)
  {
    var q := limit / seconds;
    assert limit < q * seconds + seconds;
    if q >= 1 {
      HalfHours(q, seconds);
    }
  }

  /** The hour of expiry is invisible for every limit exactly when the window is at most half an hour. */
  lemma FactoryTtlInvisibleIff(seconds: int)
    requires seconds >= 1
    ensures (forall limit: int | limit >= 1 :: TtlInvisible(limit, RefillRate(limit, seconds))) <==> seconds <= 1800
  {
    if seconds <= 1800 {
      forall limit: int | limit >= 1 ensures TtlInvisible(limit, RefillRate(limit, seconds)) {
        RateCoversHour(limit, seconds);
        TtlInvisibleIff(limit, RefillRate(limit, seconds));
      }
    } else {
      var limit := 2 * seconds - 1;
      Split(limit, seconds, 1, seconds - 1);
      assert RefillRate(limit, seconds) == 1;
      TtlInvisibleIff(limit, 1);
    }
  }

  /** The bucket the gateway deploys, with its one-minute window: in any closed minute
      at most limit + max(60, limit) requests pass, so at most twice a limit of 60 or more. */
  lemma MinuteBound(limit: int, times: seq<int>, a: int)
    requires limit >= 1 && Nondecreasing(times)
    ensures var limiter := NewLimiter("token_bucket", limit, MINUTE);
            && limiter.Bucket?
            && GrantsWithin(limiter.bucket, times, |times|, a, a + MINUTE) <= limit + 60 * limiter.bucket.refillRate
            && 60 * limiter.bucket.refillRate <= if limit <= 60 then 60 else limit
  {
    var rate := RefillRate(limit, 60);
    RateCoversHour(limit, 60);
    IntervalBound(limit, rate, times, a, a + MINUTE);
    assert MINUTE / SECOND == 60 && MINUTE as real / SECOND as real == 60.0;
    assert Refill(rate, MINUTE) == (60 * rate) as real;
  }

  /** For every limit the middleware can configure, the deployed bucket's decisions
      are those of the exact budget rule. */
  lemma {:induction false} DeployedBucketIsExact(limit: int, times: seq<int>, k: nat)
    requires limit >= 1 && Nondecreasing(times) && k < |times|
    ensures var bucket := NewLimiter("token_bucket", limit, MINUTE).bucket;
            && bucket == Deployed(limit, bucket.refillRate)
            && (!Granted(bucket, times, k)
                <==> exists j: nat :: j <= k && UsedUp(limit, bucket.refillRate, times, j, k))
  {
    RateCoversHour(limit, 60);
    assert MINUTE / SECOND == 60;
    AllowIsExactDespiteGaps(limit, RefillRate(limit, 60), times, k);
  }

  /** "sliding_window" builds the sliding log: a request passes exactly when fewer than `limit`
      earlier ones passed within the window, so no half-open window holds more than `limit`. */
  lemma {:induction false} SlidingNameBuildsSlidingLog(limit: int, window: int, times: seq<int>, k: nat, from: int)
    requires limit >= 0 && SlidingWindows.Increasing(times) && k < |times|
    ensures var limiter := NewLimiter("sliding_window", limit, window);
            && limiter.Sliding?
            && (SlidingWindows.Granted(limiter.sliding, times, k)
                <==> SlidingWindows.GrantsWithin(limiter.sliding, times, k, times[k] - window, times[k]) < limit)
            && SlidingWindows.GrantsWithin(limiter.sliding, times, |times|, from, from + window) <= limit
  {
    var cfg := NewLimiter("sliding_window", limit, window).sliding;
    SlidingWindows.AllowCountsFullHistory(cfg, times, k);
    SlidingWindows.WindowBound(cfg, times, |times|, from);
  }

  /** The client's requests among the first `n` whose second falls into the given window of `seconds`. */
  ghost function RequestsInWindow(
      calls: seq<FixedWindows.Request>, n: nat, key: string, seconds: int, index: int): nat
    requires n <= |calls| && seconds >= 1
  {
    if n == 0 then 0
    else
      RequestsInWindow(calls, n - 1, key, seconds, index)
      + if calls[n - 1].key == key && calls[n - 1].now / SECOND / seconds == index then 1 else 0
  }

  lemma {:induction false} HitsAreRequests(
      cfg: FixedWindows.Config, calls: seq<FixedWindows.Request>, n: nat, key: string, index: int)
    requires FixedWindows.Sound(cfg) && n <= |calls|
    ensures FixedWindows.Hits(cfg, calls, n, key, index)
            == RequestsInWindow(calls, n, key, cfg.window / SECOND, index)
  {
    if n > 0 {
      HitsAreRequests(cfg, calls, n - 1, key, index);
    }
  }

  /** Every name but the other two builds the fixed window: exactly the first `limit` requests
      of a client in each window of that many whole seconds pass. */
  lemma {:induction false} OtherNamesBuildFixedWindow(
      algorithm: string, limit: int, window: int, calls: seq<FixedWindows.Request>, k: nat)
    requires algorithm != "sliding_window" && algorithm != "token_bucket" && window >= SECOND && k < |calls|
    ensures var limiter := NewLimiter(algorithm, limit, window);
            var seconds := window / SECOND;
            && limiter.Fixed? && FixedWindows.Sound(limiter.fixed)
            && (FixedWindows.Granted(limiter.fixed, calls, k)
                <==> RequestsInWindow(calls, k, calls[k].key, seconds, calls[k].now / SECOND / seconds) < limit)
  {
    var cfg := NewLimiter(algorithm, limit, window).fixed;
    FixedWindows.AllowCountsWindow(cfg, calls, k);
    HitsAreRequests(cfg, calls, k, calls[k].key, FixedWindows.IndexOf(cfg, calls[k].now));
  }
}
