/** The token-bucket rate limiter (internal/ratelimit/token_bucket.go).

    `AllowStep` is one `Allow` call on one Redis key. Tokens are `real`. The
    lemmas speak about whole runs: `times[k]` is the instant of the k-th call. */
module TokenBuckets {
  import opened Redis

  const HOUR: int := 3600 * SECOND

  datatype BucketState = BucketState(tokens: real, lastRefill: int)

  /** `ttl` is the expiry handed to Redis; `Forever` describes the ideal bucket that never lapses. */
  datatype Ttl = Forever | Lasting(span: int)
  datatype Config = Config(capacity: int, refillRate: int, ttl: Ttl)

  /** What `NewTokenBucket` builds. */
  function Deployed(capacity: int, refillRate: int): Config {
    Config(capacity, refillRate, Lasting(HOUR))
  }

  function Min(a: real, b: real): real {
    if a <= b then a else b
  }

  /** Tokens gained over `elapsed` nanoseconds. */
  function Refill(rate: int, elapsed: int): real {
    (elapsed as real / SECOND as real) * rate as real
  }

  /** Tokens on hand at `now`, after the refill and before a request takes one. */
  function Available(cfg: Config, cell: Cell<BucketState>, now: int): real {
    if Live(cell, now) then
      Min(cell.value.tokens + Refill(cfg.refillRate, now - cell.value.lastRefill), cfg.capacity as real)
    else
      cfg.capacity as real
  }

  function ExpiryFor(cfg: Config, now: int): Expiry {
    if cfg.ttl.Forever? then Never else At(now + cfg.ttl.span)
  }

  datatype Outcome = Outcome(granted: bool, cell: Cell<BucketState>)

  function AllowStep(cfg: Config, cell: Cell<BucketState>, now: int): Outcome {
    var tokens := Available(cfg, cell, now);
    var left := if tokens >= 1.0 then tokens - 1.0 else tokens;
    Outcome(tokens >= 1.0, Held(BucketState(left, now), ExpiryFor(cfg, now)))
  }

  /** Go's conversion of a float to an integer: toward zero. */
  function Truncate(x: real): int {
    if x >= 0.0 then x.Floor else -((-x).Floor)
  }

  function RemainingAt(cfg: Config, cell: Cell<BucketState>, now: int): int {
    if Live(cell, now) then Truncate(Available(cfg, cell, now)) else cfg.capacity
  }

  /** Seconds until a bucket with these tokens is full. */
  function SecondsToFull(cfg: Config, tokens: real): real
    requires cfg.refillRate != 0
  {
    (cfg.capacity as real - tokens) / cfg.refillRate as real
  }

  function ResetAt(cfg: Config, cell: Cell<BucketState>, now: int): int
    requires cfg.refillRate != 0
  {
    if Live(cell, now) then now + Truncate(SecondsToFull(cfg, cell.value.tokens)) * SECOND else now
  }

  /** The limiter itself: one Redis cell per client key. */
  class TokenBucket {
    const capacity: int
    const refillRate: int
    var cells: map<string, Cell<BucketState>>

    ghost function Cfg(): Config {
      Deployed(capacity, refillRate)
    }

    constructor (capacity: int, refillRate: int)
      ensures this.capacity == capacity && this.refillRate == refillRate
      ensures cells == map[]
    {
      this.capacity := capacity;
      this.refillRate := refillRate;
      cells := map[];
    }

    method Allow(key: string, now: int) returns (granted: bool)
      modifies this
      ensures Outcome(granted, Lookup(cells, key)) == AllowStep(Cfg(), old(Lookup(cells, key)), now)
      ensures forall other | other != key :: Lookup(cells, other) == old(Lookup(cells, other))
    {
      var data := Lookup(cells, key);
      var state := BucketState(capacity as real, now);
      if Live(data, now) {
        state := data.value;
      }
      var tokensToAdd := Refill(refillRate, now - state.lastRefill);
      var refilled := Min(state.tokens + tokensToAdd, capacity as real);
      state := BucketState(refilled, now);
      granted := state.tokens >= 1.0;
      if granted {
        state := state.(tokens := state.tokens - 1.0);
      }
      cells := cells[key := Held(state, At(now + HOUR))];
    }

    method Remaining(key: string, now: int) returns (n: int)
      ensures n == RemainingAt(Cfg(), Lookup(cells, key), now)
    {
      var data := Lookup(cells, key);
      if !Live(data, now) {
        return capacity;
      }
      var tokensToAdd := Refill(refillRate, now - data.value.lastRefill);
      n := Truncate(Min(data.value.tokens + tokensToAdd, capacity as real));
    }

    method Reset(key: string, now: int) returns (at: int)
      requires refillRate != 0
      ensures at == ResetAt(Cfg(), Lookup(cells, key), now)
    {
      var data := Lookup(cells, key);
      if !Live(data, now) {
        return now;
      }
      var tokensNeeded := capacity as real - data.value.tokens;
      at := now + Truncate(tokensNeeded / refillRate as real) * SECOND;
    }
  }

  // ---------------------------------------------------------------- runs

  /** The cell after the first `n` calls of a run that starts with no key. */
  ghost function After(cfg: Config, times: seq<int>, n: nat): Cell<BucketState>
    requires n <= |times|
  {
    if n == 0 then Absent else AllowStep(cfg, After(cfg, times, n - 1), times[n - 1]).cell
  }

  ghost predicate Granted(cfg: Config, times: seq<int>, k: nat)
    requires k < |times|
  {
    AllowStep(cfg, After(cfg, times, k), times[k]).granted
  }

  /** How many of the calls `i .. j-1` were granted. */
  ghost function Grants(cfg: Config, times: seq<int>, i: nat, j: nat): nat
    requires i <= j <= |times|
    decreases j
  {
    if i == j then 0 else Grants(cfg, times, i, j - 1) + if Granted(cfg, times, j - 1) then 1 else 0
  }

  /** How many of the first `n` calls were granted at an instant in the closed interval [a, b]. */
  ghost function GrantsWithin(cfg: Config, times: seq<int>, n: nat, a: int, b: int): nat
    requires n <= |times|
  {
    if n == 0 then 0 else
      GrantsWithin(cfg, times, n - 1, a, b)
      + if Granted(cfg, times, n - 1) && a <= times[n - 1] <= b then 1 else 0
  }

  /** Tokens on hand when the k-th call arrives. */
  ghost function Level(cfg: Config, times: seq<int>, k: nat): real
    requires k < |times|
  {
    Available(cfg, After(cfg, times, k), times[k])
  }

  /** The budget a caller measured from call `j` still has at call `k`. */
  ghost function Budget(cfg: Config, times: seq<int>, j: nat, k: nat): real
    requires j <= k < |times|
  {
    cfg.capacity as real + Refill(cfg.refillRate, times[k] - times[j]) - Grants(cfg, times, j, k) as real
  }

  // ---------------------------------------------------------------- refill arithmetic

  lemma RefillAdds(rate: int, x: int, y: int)
    ensures Refill(rate, x) + Refill(rate, y) == Refill(rate, x + y)
  {
    var u, v, r := x as real / SECOND as real, y as real / SECOND as real, rate as real;
    assert (x + y) as real / SECOND as real == u + v;
    assert u * r + v * r == (u + v) * r;
  }

  lemma RefillMonotone(rate: int, x: int, y: int)
    requires rate >= 0 && x <= y
    ensures Refill(rate, x) <= Refill(rate, y)
  {
    var u, v, r := x as real / SECOND as real, y as real / SECOND as real, rate as real;
    assert u <= v && r >= 0.0;
    assert (v - u) * r >= 0.0;
    assert (v - u) * r == v * r - u * r;
  }

  lemma RefillOverAnHour(rate: int)
    ensures Refill(rate, HOUR) == (3600 * rate) as real
  {
    assert HOUR as real / SECOND as real == 3600.0;
  }

  // ---------------------------------------------------------------- the level is the least budget

  /** The key never lapses from call `j` to call `k`: no gap between calls reaches the expiry. */
  ghost predicate Unbroken(cfg: Config, times: seq<int>, j: nat, k: nat)
    requires j <= k < |times|
  {
    cfg.ttl.Lasting? ==> forall i | j < i <= k :: times[i] - times[i - 1] < cfg.ttl.span
  }

  lemma {:induction false} LevelStep(cfg: Config, times: seq<int>, k: nat)
    requires k + 1 < |times|
    ensures Level(cfg, times, k + 1) ==
            if cfg.ttl.Lasting? && times[k + 1] - times[k] >= cfg.ttl.span then cfg.capacity as real
            else Min(Level(cfg, times, k) - (if Granted(cfg, times, k) then 1.0 else 0.0)
                     + Refill(cfg.refillRate, times[k + 1] - times[k]),
                     cfg.capacity as real)
  {
  }

  lemma {:induction false} BudgetStep(cfg: Config, times: seq<int>, j: nat, k: nat)
    requires j <= k && k + 1 < |times|
    ensures Budget(cfg, times, j, k + 1) ==
            Budget(cfg, times, j, k) - (if Granted(cfg, times, k) then 1.0 else 0.0)
            + Refill(cfg.refillRate, times[k + 1] - times[k])
  {
    RefillAdds(cfg.refillRate, times[k] - times[j], times[k + 1] - times[k]);
    assert Grants(cfg, times, j, k + 1) == Grants(cfg, times, j, k) + if Granted(cfg, times, k) then 1 else 0;
  }

  lemma {:induction false} LevelWithinBudget(cfg: Config, times: seq<int>, j: nat, k: nat)
    requires j <= k < |times| && Unbroken(cfg, times, j, k)
    ensures Level(cfg, times, k) <= Budget(cfg, times, j, k)
    decreases k
  {
    if j < k {
      LevelWithinBudget(cfg, times, j, k - 1);
      LevelStep(cfg, times, k - 1);
      BudgetStep(cfg, times, j, k - 1);
    } else {
      assert Refill(cfg.refillRate, 0) == 0.0;
    }
  }

  lemma {:induction false} LevelIsSomeBudget(cfg: Config, times: seq<int>, k: nat) returns (j: nat)
    requires k < |times|
    ensures j <= k && Unbroken(cfg, times, j, k) && Level(cfg, times, k) == Budget(cfg, times, j, k)
  {
    assert Refill(cfg.refillRate, 0) == 0.0;
    if k == 0 {
      return 0;
    }
    j := LevelIsSomeBudget(cfg, times, k - 1);
    LevelStep(cfg, times, k - 1);
    BudgetStep(cfg, times, j, k - 1);
    if Level(cfg, times, k) == cfg.capacity as real {
      j := k;
    }
  }

  /** Denied exactly when the budget measured from some call the key has lived through is used up. */
  lemma {:induction false} DeniedByBudget(cfg: Config, times: seq<int>, k: nat)
    requires k < |times|
    ensures !Granted(cfg, times, k)
            <==> exists j: nat :: j <= k && Unbroken(cfg, times, j, k) && Budget(cfg, times, j, k) < 1.0
  {
    var w := LevelIsSomeBudget(cfg, times, k);
    forall j: nat | j <= k && Unbroken(cfg, times, j, k) ensures Level(cfg, times, k) <= Budget(cfg, times, j, k) {
      LevelWithinBudget(cfg, times, j, k);
    }
  }

  // ---------------------------------------------------------------- the expiry is invisible

  ghost function Ideal(cfg: Config): Config {
    cfg.(ttl := Forever)
  }

  /** No run on a forward-moving clock can tell the deployed bucket from one that never expires. */
  ghost predicate TtlInvisible(capacity: int, refillRate: int) {
    forall times: seq<int>, k: nat | k < |times| && Nondecreasing(times) ::
      Granted(Deployed(capacity, refillRate), times, k) <==> Granted(Ideal(Deployed(capacity, refillRate)), times, k)
  }

  lemma {:induction false} StoredState(cfg: Config, times: seq<int>, n: nat)
    requires cfg.capacity >= 0 && cfg.refillRate >= 0
    requires Nondecreasing(times) && 0 < n <= |times|
    ensures After(cfg, times, n).Held? && After(cfg, times, n).value.lastRefill == times[n - 1]
    ensures 0.0 <= After(cfg, times, n).value.tokens <= cfg.capacity as real
    ensures After(cfg, times, n).expiry == ExpiryFor(cfg, times[n - 1])
    decreases n, 0
  {
    LevelInRange(cfg, times, n - 1);
  }

  lemma {:induction false} LevelInRange(cfg: Config, times: seq<int>, k: nat)
    requires cfg.capacity >= 0 && cfg.refillRate >= 0
    requires Nondecreasing(times) && k < |times|
    ensures 0.0 <= Level(cfg, times, k) <= cfg.capacity as real
    decreases k, 1
  {
    if k > 0 {
      StoredState(cfg, times, k);
      assert Refill(cfg.refillRate, 0) == 0.0;
      RefillMonotone(cfg.refillRate, 0, times[k] - times[k - 1]);
    }
  }

  /** A key an hour old reads as full, and so does the bucket that kept it. */
  lemma {:induction false} AvailableIgnoresTtl(capacity: int, refillRate: int, tokens: real, t: int, now: int)
    requires refillRate >= 0 && capacity <= 3600 * refillRate && 0.0 <= tokens && t <= now
    ensures var dep := Deployed(capacity, refillRate);
            Available(dep, Held(BucketState(tokens, t), At(t + HOUR)), now)
            == Available(Ideal(dep), Held(BucketState(tokens, t), Never), now)
  {
    if now - t >= HOUR {
      RefillMonotone(refillRate, HOUR, now - t);
      RefillOverAnHour(refillRate);
    }
  }

  lemma {:induction false} SameTokens(capacity: int, refillRate: int, times: seq<int>, n: nat, now: int)
    requires capacity >= 0 && refillRate >= 0 && capacity <= 3600 * refillRate
    requires Nondecreasing(times) && n <= |times| && (n > 0 ==> times[n - 1] <= now)
    ensures var dep, ideal := Deployed(capacity, refillRate), Ideal(Deployed(capacity, refillRate));
            Available(dep, After(dep, times, n), now) == Available(ideal, After(ideal, times, n), now)
  {
    var dep, ideal := Deployed(capacity, refillRate), Ideal(Deployed(capacity, refillRate));
    if n > 0 {
      SameTokens(capacity, refillRate, times, n - 1, times[n - 1]);
      StoredState(dep, times, n);
      StoredState(ideal, times, n);
      AvailableIgnoresTtl(capacity, refillRate, After(dep, times, n).value.tokens, times[n - 1], now);
    }
  }

  lemma {:induction false} SameLevel(capacity: int, refillRate: int, times: seq<int>, k: nat)
    requires capacity >= 0 && refillRate >= 0 && capacity <= 3600 * refillRate
    requires Nondecreasing(times) && k < |times|
    ensures Level(Deployed(capacity, refillRate), times, k) == Level(Ideal(Deployed(capacity, refillRate)), times, k)
  {
    SameTokens(capacity, refillRate, times, k, times[k]);
  }

  lemma {:induction false} SameGrants(capacity: int, refillRate: int, times: seq<int>, i: nat, j: nat)
    requires capacity >= 0 && refillRate >= 0 && capacity <= 3600 * refillRate
    requires Nondecreasing(times) && i <= j <= |times|
    ensures Grants(Deployed(capacity, refillRate), times, i, j)
            == Grants(Ideal(Deployed(capacity, refillRate)), times, i, j)
    decreases j
  {
    if i < j {
      SameGrants(capacity, refillRate, times, i, j - 1);
      SameLevel(capacity, refillRate, times, j - 1);
    }
  }

  /** The expiry does not show in `Remaining` either, whenever it is asked. */
  lemma {:induction false} RemainingIgnoresTtl(capacity: int, refillRate: int, times: seq<int>, n: nat, now: int)
    requires capacity >= 0 && refillRate >= 0 && capacity <= 3600 * refillRate
    requires Nondecreasing(times) && n <= |times| && (n > 0 ==> times[n - 1] <= now)
    ensures var dep, ideal := Deployed(capacity, refillRate), Ideal(Deployed(capacity, refillRate));
            RemainingAt(dep, After(dep, times, n), now) == RemainingAt(ideal, After(ideal, times, n), now)
  {
    SameTokens(capacity, refillRate, times, n, now);
  }

  // ---------------------------------------------------------------- bursts

  lemma SameInstantStep(cfg: Config, times: seq<int>, k: nat)
    requires cfg.capacity >= 0 && cfg.refillRate >= 0 && (cfg.ttl.Lasting? ==> cfg.ttl.span > 0)
    requires Nondecreasing(times) && k + 1 < |times| && times[k + 1] == times[k]
    ensures Level(cfg, times, k + 1)
            == if Level(cfg, times, k) >= 1.0 then Level(cfg, times, k) - 1.0 else Level(cfg, times, k)
  {
    StoredState(cfg, times, k + 1);
    LevelInRange(cfg, times, k);
    assert Refill(cfg.refillRate, 0) == 0.0;
  }

  /** Calls at one instant: each grant takes one token and nothing comes back. */
  lemma {:induction false} BurstLevel(cfg: Config, times: seq<int>, n: nat, m: nat)
    requires cfg.capacity >= 0 && cfg.refillRate >= 0 && (cfg.ttl.Lasting? ==> cfg.ttl.span > 0)
    requires Nondecreasing(times) && n + m < |times|
    requires forall i | n <= i <= n + m :: times[i] == times[n]
    ensures var whole := Level(cfg, times, n).Floor;
            Level(cfg, times, n + m) == Level(cfg, times, n) - (if m <= whole then m else whole) as real
    decreases m
  {
    LevelInRange(cfg, times, n);
    if m > 0 {
      BurstLevel(cfg, times, n, m - 1);
      SameInstantStep(cfg, times, n + m - 1);
    }
  }

  /** `Remaining` is the number of back-to-back calls that will be granted:
      in a burst starting after any run, the call with `m` burst calls before it
      is granted exactly when `m` is below the value `Remaining` reports. */
  lemma {:induction false} RemainingPredictsAllow(cfg: Config, times: seq<int>, n: nat, m: nat)
    requires cfg.capacity >= 0 && cfg.refillRate >= 0 && (cfg.ttl.Lasting? ==> cfg.ttl.span > 0)
    requires Nondecreasing(times) && n + m < |times|
    requires forall i | n <= i <= n + m :: times[i] == times[n]
    ensures Granted(cfg, times, n + m) <==> m < RemainingAt(cfg, After(cfg, times, n), times[n])
  {
    BurstLevel(cfg, times, n, m);
    LevelInRange(cfg, times, n);
  }

  /** With one hour of expiry the limiter behaves as one without, exactly when an
      hour of refill covers the whole capacity. */
  lemma TtlInvisibleIff(capacity: int, refillRate: int)
    requires capacity >= 0 && refillRate >= 0
    ensures TtlInvisible(capacity, refillRate) <==> capacity <= 3600 * refillRate
  {
    if capacity <= 3600 * refillRate {
      forall times: seq<int>, k: nat | k < |times| && Nondecreasing(times)
        ensures Granted(Deployed(capacity, refillRate), times, k)
                <==> Granted(Ideal(Deployed(capacity, refillRate)), times, k)
      {
        SameLevel(capacity, refillRate, times, k);
      }
    } else {
      TtlShows(capacity, refillRate);
    }
  }

  /** Drain the bucket, wait an hour, drain it again: the lapsed key comes back full. */
  lemma TtlShows(capacity: int, refillRate: int)
    requires capacity >= 0 && refillRate >= 0 && capacity > 3600 * refillRate
    ensures !TtlInvisible(capacity, refillRate)
  {
    var dep, ideal := Deployed(capacity, refillRate), Ideal(Deployed(capacity, refillRate));
    var times := seq(2 * capacity, i => if i < capacity then 0 else HOUR);
    var m := 3600 * refillRate;
    assert Nondecreasing(times);
    DrainedBucket(dep, times);
    DrainedBucket(ideal, times);
    RefillOverAnHour(refillRate);
    assert Level(dep, times, capacity) == capacity as real;
    assert Level(ideal, times, capacity) == m as real;
    BurstLevel(dep, times, capacity, m);
    BurstLevel(ideal, times, capacity, m);
    assert Granted(dep, times, capacity + m) && !Granted(ideal, times, capacity + m);
  }

  lemma {:induction false} DrainedBucket(cfg: Config, times: seq<int>)
    requires cfg.capacity > 0 && cfg.refillRate >= 0 && (cfg.ttl.Lasting? ==> cfg.ttl.span > 0)
    requires Nondecreasing(times) && cfg.capacity <= |times|
    requires forall i | 0 <= i < cfg.capacity :: times[i] == times[0]
    ensures After(cfg, times, cfg.capacity).value.tokens == 0.0
  {
    BurstLevel(cfg, times, 0, cfg.capacity - 1);
  }

  // ---------------------------------------------------------------- main results

  /** From call `j` one more grant at call `k` would exceed capacity plus what the rate gives back meanwhile. */
  ghost predicate UsedUp(capacity: int, refillRate: int, times: seq<int>, j: nat, k: nat)
    requires j <= k < |times|
  {
    (Grants(Deployed(capacity, refillRate), times, j, k) + 1) as real
    > capacity as real + Refill(refillRate, times[k] - times[j])
  }

  /** For every capacity and rate: a call is denied exactly when the budget is used up from
      some call with no gap of an hour or more since. */
  lemma {:induction false} AllowIsExact(capacity: int, refillRate: int, times: seq<int>, k: nat)
    requires k < |times|
    ensures !Granted(Deployed(capacity, refillRate), times, k)
            <==> exists j: nat ::
                   && j <= k
                   && (forall i | j < i <= k :: times[i] - times[i - 1] < HOUR)
                   && UsedUp(capacity, refillRate, times, j, k)
  {
    var dep := Deployed(capacity, refillRate);
    DeniedByBudget(dep, times, k);
    forall j: nat | j <= k
      ensures Unbroken(dep, times, j, k) && Budget(dep, times, j, k) < 1.0
              <==> && (forall i | j < i <= k :: times[i] - times[i - 1] < HOUR)
                   && UsedUp(capacity, refillRate, times, j, k)
    {
    }
  }

  /** When an hour of refill covers the capacity the gaps do not matter. */
  lemma {:induction false} AllowIsExactDespiteGaps(capacity: int, refillRate: int, times: seq<int>, k: nat)
    requires capacity >= 0 && refillRate >= 0 && capacity <= 3600 * refillRate
    requires Nondecreasing(times) && k < |times|
    ensures !Granted(Deployed(capacity, refillRate), times, k)
            <==> exists j: nat :: j <= k && UsedUp(capacity, refillRate, times, j, k)
  {
    var ideal := Ideal(Deployed(capacity, refillRate));
    SameLevel(capacity, refillRate, times, k);
    DeniedByBudget(ideal, times, k);
    forall j: nat | j <= k ensures Budget(ideal, times, j, k) < 1.0 <==> UsedUp(capacity, refillRate, times, j, k) {
      SameGrants(capacity, refillRate, times, j, k);
    }
  }

  /** A granted call leaves the budget from `i` within bounds, if the key lived on or the gaps do not matter. */
  lemma {:induction false} GrantLeavesBudget(capacity: int, refillRate: int, times: seq<int>, i: nat, k: nat)
    requires capacity >= 0 && refillRate >= 0 && Nondecreasing(times) && i <= k < |times|
    requires capacity <= 3600 * refillRate || times[k] - times[i] < HOUR
    requires Granted(Deployed(capacity, refillRate), times, k)
    ensures !UsedUp(capacity, refillRate, times, i, k)
  {
    if capacity <= 3600 * refillRate {
      AllowIsExactDespiteGaps(capacity, refillRate, times, k);
    } else {
      AllowIsExact(capacity, refillRate, times, k);
      forall l | i < l <= k ensures times[l] - times[l - 1] < HOUR {
        assert times[i] <= times[l - 1] && times[l] <= times[k];
      }
    }
  }

  lemma {:induction false} GrantsBetweenCalls(capacity: int, refillRate: int, times: seq<int>, i: nat, n: nat)
    requires capacity >= 0 && refillRate >= 0 && Nondecreasing(times) && i < n <= |times|
    requires capacity <= 3600 * refillRate || times[n - 1] - times[i] < HOUR
    ensures Grants(Deployed(capacity, refillRate), times, i, n) as real
            <= capacity as real + Refill(refillRate, times[n - 1] - times[i])
    decreases n
  {
    var dep := Deployed(capacity, refillRate);
    if Granted(dep, times, n - 1) {
      GrantLeavesBudget(capacity, refillRate, times, i, n - 1);
    } else if i < n - 1 {
      GrantsBetweenCalls(capacity, refillRate, times, i, n - 1);
      RefillMonotone(refillRate, times[n - 2] - times[i], times[n - 1] - times[i]);
    } else {
      assert Grants(dep, times, i, n) == Grants(dep, times, i, i) == 0;
      assert Refill(refillRate, 0) == 0.0;
    }
  }

  /** Calls inside [a, b] are consecutive, because the clock moves forward. */
  lemma {:induction false} WithinIsARange(cfg: Config, times: seq<int>, n: nat, a: int, b: int) returns (i: nat, j: nat)
    requires Nondecreasing(times) && n <= |times|
    ensures i <= j <= n && GrantsWithin(cfg, times, n, a, b) == Grants(cfg, times, i, j)
    ensures forall k | i <= k < j :: a <= times[k] <= b
    ensures i == j ==> GrantsWithin(cfg, times, n, a, b) == 0
    ensures i < j < n ==> times[j] > b
  {
    if n == 0 {
      return 0, 0;
    }
    i, j := WithinIsARange(cfg, times, n - 1, a, b);
    if a <= times[n - 1] <= b {
      if i == j {
        i, j := n - 1, n;
        assert Grants(cfg, times, n - 1, n - 1) == 0;
      } else {
        j := n;
      }
    }
  }

  /** In any closed interval shorter than an hour, and in any at all when an hour of refill
      covers the capacity, at most capacity + refillRate * length requests pass. */
  lemma {:induction false} IntervalBound(capacity: int, refillRate: int, times: seq<int>, a: int, b: int)
    requires capacity >= 0 && refillRate >= 0 && Nondecreasing(times) && a <= b
    requires capacity <= 3600 * refillRate || b - a < HOUR
    ensures GrantsWithin(Deployed(capacity, refillRate), times, |times|, a, b) as real
            <= capacity as real + Refill(refillRate, b - a)
  {
    var i, j := WithinIsARange(Deployed(capacity, refillRate), times, |times|, a, b);
    if i < j {
      GrantsBetweenCalls(capacity, refillRate, times, i, j);
      RefillMonotone(refillRate, times[j - 1] - times[i], b - a);
    } else {
      assert Refill(refillRate, 0) == 0.0;
      RefillMonotone(refillRate, 0, b - a);
    }
  }

  /** `Reset` drops the fraction of a second, so the bucket may be short of full at
      the instant it names, by less than one second of refill. It is full there
      exactly when the time since the last refill makes up for the dropped fraction. */
  lemma {:induction false} ResetNearlyFull(capacity: int, refillRate: int, times: seq<int>, now: int)
    requires 0 <= capacity <= 3600 * refillRate && refillRate >= 1
    requires Nondecreasing(times) && |times| > 0 && times[|times| - 1] <= now < times[|times| - 1] + HOUR
    ensures var dep := Deployed(capacity, refillRate);
            var cell := After(dep, times, |times|);
            var wait := SecondsToFull(dep, cell.value.tokens);
            var at := ResetAt(dep, cell, now);
            && now <= at
            && Available(dep, cell, at) > (capacity - refillRate) as real
            && (Available(dep, cell, at) == capacity as real
                <==> wait - wait.Floor as real <= (now - times[|times| - 1]) as real / SECOND as real)
  {
    var dep := Deployed(capacity, refillRate);
    var cell := After(dep, times, |times|);
    StoredState(dep, times, |times|);
    ResetRefill(dep, cell.value.tokens, times[|times| - 1], now);
    var at := ResetAt(dep, cell, now);
    if at - times[|times| - 1] >= HOUR {
      RefillMonotone(refillRate, HOUR, at - times[|times| - 1]);
      RefillOverAnHour(refillRate);
    }
  }

  lemma Scale(x: real, y: real, rate: real)
    requires rate > 0.0
    ensures x <= y ==> x * rate <= y * rate
    ensures x < y ==> x * rate < y * rate
  {
    assert (y - x) * rate == y * rate - x * rate;
    if x < y {
      assert (y - x) * rate > 0.0;
    }
  }

  lemma RealProduct(a: int, b: int)
    ensures (a * b) as real == a as real * b as real
  {
  }

  lemma Divide(missing: real, rate: real, wait: real, seconds: int)
    requires rate >= 1.0 && wait * rate == missing && seconds as real <= wait < (seconds + 1) as real
    ensures seconds as real * rate <= missing < (seconds + 1) as real * rate
  {
    Scale(seconds as real, wait, rate);
    Scale(wait, (seconds + 1) as real, rate);
  }

  lemma {:induction false} WholeSeconds(missing: real, rate: int) returns (seconds: nat)
    requires missing >= 0.0 && rate >= 1
    ensures Truncate(missing / rate as real) == seconds
    ensures (seconds * rate) as real <= missing < ((seconds + 1) * rate) as real
  {
    var wait := missing / rate as real;
    assert wait * rate as real == missing && wait >= 0.0;
    seconds := wait.Floor;
    assert wait < seconds as real + 1.0 == (seconds + 1) as real;
    Divide(missing, rate as real, wait, seconds);
    RealProduct(seconds, rate);
    RealProduct(seconds + 1, rate);
  }

  /** For every capacity and rate: the reported instant is now plus the whole seconds of refill
      that still fit below the capacity, counted from the stored tokens, and now itself when
      there is no key, with the bucket full. */
  lemma {:induction false} ResetCountsWholeSeconds(capacity: int, refillRate: int, times: seq<int>, now: int)
    requires capacity >= 0 && refillRate >= 1 && Nondecreasing(times)
    ensures var dep := Deployed(capacity, refillRate);
            var cell := After(dep, times, |times|);
            var at := ResetAt(dep, cell, now);
            if times == [] || now >= times[|times| - 1] + HOUR
            then at == now && Available(dep, cell, now) == capacity as real
            else
              exists seconds: nat ::
                && at == now + seconds * SECOND
                && (seconds * refillRate) as real <= capacity as real - cell.value.tokens
                && capacity as real - cell.value.tokens < ((seconds + 1) * refillRate) as real
  {
    var dep := Deployed(capacity, refillRate);
    var cell := After(dep, times, |times|);
    if times != [] {
      StoredState(dep, times, |times|);
      if now < times[|times| - 1] + HOUR {
        var seconds: nat := WholeSeconds(capacity as real - cell.value.tokens, refillRate);
        assert ResetAt(dep, cell, now) == now + seconds * SECOND;
      }
    }
  }

  /** Two tokens, two a second, one taken: half a second is dropped and the bucket is not full. */
  lemma ResetFallsShort()
    ensures var dep, cell := Deployed(2, 2), After(Deployed(2, 2), [0], 1);
            ResetAt(dep, cell, 0) == 0 && Available(dep, cell, 0) == 1.0
  {
    var dep, times := Deployed(2, 2), [0];
    assert After(dep, times, 0) == Absent;
    assert After(dep, times, 1) == Held(BucketState(1.0, 0), At(HOUR));
    assert SecondsToFull(dep, 1.0) == 0.5;
    assert Refill(2, 0) == 0.0;
  }

  /** What truncating the wait to whole seconds costs. */
  lemma ResetRefill(cfg: Config, tokens: real, last: int, now: int)
    requires cfg.refillRate >= 1 && tokens <= cfg.capacity as real && last <= now
    ensures var wait := SecondsToFull(cfg, tokens);
            var gained := Refill(cfg.refillRate, now + wait.Floor * SECOND - last);
            && wait >= 0.0
            && tokens + gained > (cfg.capacity - cfg.refillRate) as real
            && (tokens + gained >= cfg.capacity as real
                <==> wait - wait.Floor as real <= (now - last) as real / SECOND as real)
  {
    var rate, wait := cfg.refillRate as real, SecondsToFull(cfg, tokens);
    var idle := (now - last) as real / SECOND as real;
    assert wait * rate == cfg.capacity as real - tokens;
    Scaled(wait, rate);
    var surplus := idle + wait.Floor as real - wait;
    assert (now + wait.Floor * SECOND - last) as real / SECOND as real == idle + wait.Floor as real;
    var gained := Refill(cfg.refillRate, now + wait.Floor * SECOND - last);
    assert gained == (idle + wait.Floor as real) * rate == surplus * rate + wait * rate;
    assert tokens + gained - cfg.capacity as real == surplus * rate;
    assert surplus > -1.0;
    Scaled(surplus, rate);
  }

  lemma Scaled(x: real, rate: real)
    requires rate > 0.0
    ensures x >= 0.0 <==> x * rate >= 0.0
    ensures x > -1.0 ==> x * rate > -rate
  {
    if x > -1.0 {
      assert (x + 1.0) * rate > 0.0;
      assert (x + 1.0) * rate == x * rate + rate;
    }
  }
}
