/** The fixed-window counter (internal/ratelimit/fixed_window.go).

    Redis holds one counter per client key and window number. Runs may mix any
    number of clients; the clock need not even be monotone for the counting result. */
module FixedWindows {
  import opened Redis
  import opened Rotation

  /** `window` is the configured duration in nanoseconds, at least one second. */
  datatype Config = Config(limit: int, window: int)

  /** A counter's Redis key: the client part and the window number. */
  type Name = (string, int)
  type Store = map<Name, Cell<int>>

  datatype Request = Request(key: string, now: nat)

  function WindowSeconds(cfg: Config): int {
    cfg.window / SECOND
  }

  predicate Sound(cfg: Config) {
    cfg.window >= SECOND
  }

  /** The window number of an instant: Unix seconds divided by the window's seconds. */
  function IndexOf(cfg: Config, now: nat): int
    requires Sound(cfg)
  {
    (now / SECOND) / WindowSeconds(cfg)
  }

  /** The key `Allow` writes. */
  function CounterName(cfg: Config, key: string, now: nat): Name
    requires Sound(cfg)
  {
    ("fixed:" + key, IndexOf(cfg, now))
  }

  function Read(store: Store, name: Name): Cell<int> {
    if name in store then store[name] else Absent
  }

  /** INCR, then EXPIRE when the counter is new. */
  function Increment(cfg: Config, cell: Cell<int>, now: nat): Cell<int> {
    if Live(cell, now) then
      Held(cell.value + 1, if cell.value + 1 == 1 then At(now + cfg.window) else cell.expiry)
    else
      Held(1, At(now + cfg.window))
  }

  function StoreStep(cfg: Config, store: Store, r: Request): Store
    requires Sound(cfg)
  {
    var name := CounterName(cfg, r.key, r.now);
    store[name := Increment(cfg, Read(store, name), r.now)]
  }

  function ResetAt(cfg: Config, now: nat): int
    requires Sound(cfg)
  {
    (IndexOf(cfg, now) + 1) * WindowSeconds(cfg) * SECOND
  }

  /** `Remaining` reads a key without the `fixed:` segment. */
  function RemainingAt(cfg: Config, store: Store, key: string, now: nat): int
    requires Sound(cfg)
  {
    var cell := Read(store, (key, IndexOf(cfg, now)));
    if !Live(cell, now) then cfg.limit
    else if cfg.limit - cell.value < 0 then 0 else cfg.limit - cell.value
  }

  class FixedWindowLimiter {
    const limit: int
    const window: int
    var store: Store

    ghost function Cfg(): Config {
      Config(limit, window)
    }

    constructor (limit: int, window: int)
      ensures this.limit == limit && this.window == window && store == map[]
    {
      this.limit := limit;
      this.window := window;
      store := map[];
    }

    method Allow(key: string, now: nat) returns (granted: bool)
      requires Sound(Cfg())
      modifies this
      ensures store == StoreStep(Cfg(), old(store), Request(key, now))
      ensures granted <==> Read(store, CounterName(Cfg(), key, now)).value <= limit
    {
      var currentWindow := (now / SECOND) / (window / SECOND);
      var name := ("fixed:" + key, currentWindow);
      var cell := Read(store, name);
      var count := 1;
      var expiry := Never;
      if Live(cell, now) {
        count := cell.value + 1;
        expiry := cell.expiry;
      }
      if count == 1 {
        expiry := At(now + window);
      }
      store := store[name := Held(count, expiry)];
      granted := count <= limit;
    }

    method Remaining(key: string, now: nat) returns (n: int)
      requires Sound(Cfg())
      ensures n == RemainingAt(Cfg(), store, key, now)
    {
      var currentWindow := (now / SECOND) / (window / SECOND);
      var cell := Read(store, (key, currentWindow));
      if !Live(cell, now) {
        return limit;
      }
      n := limit - cell.value;
      if n < 0 {
        n := 0;
      }
    }

    method Reset(now: nat) returns (at: int)
      requires Sound(Cfg())
      ensures at == ResetAt(Cfg(), now)
    {
      var currentWindow := (now / SECOND) / (window / SECOND);
      var nextWindow := (currentWindow + 1) * (window / SECOND);
      at := nextWindow * SECOND;
    }
  }

  // ---------------------------------------------------------------- runs

  ghost function After(cfg: Config, calls: seq<Request>, n: nat): Store
    requires Sound(cfg) && n <= |calls|
  {
    if n == 0 then map[] else StoreStep(cfg, After(cfg, calls, n - 1), calls[n - 1])
  }

  ghost predicate Granted(cfg: Config, calls: seq<Request>, k: nat)
    requires Sound(cfg) && k < |calls|
  {
    Read(After(cfg, calls, k + 1), CounterName(cfg, calls[k].key, calls[k].now)).value <= cfg.limit
  }

  /** Requests of `key` in window `index` among the first `n` calls. */
  ghost function Hits(cfg: Config, calls: seq<Request>, n: nat, key: string, index: int): nat
    requires Sound(cfg) && n <= |calls|
  {
    if n == 0 then 0 else
      Hits(cfg, calls, n - 1, key, index)
      + if calls[n - 1].key == key && IndexOf(cfg, calls[n - 1].now) == index then 1 else 0
  }

  /** Grants to `key` among the first `n` calls in the windows `from .. to - 1`. */
  ghost function GrantsInWindows(cfg: Config, calls: seq<Request>, n: nat, key: string, from: int, to: int): nat
    requires Sound(cfg) && n <= |calls|
  {
    if n == 0 then 0 else
      GrantsInWindows(cfg, calls, n - 1, key, from, to)
      + if calls[n - 1].key == key && Granted(cfg, calls, n - 1) && from <= IndexOf(cfg, calls[n - 1].now) < to
        then 1 else 0
  }

  /** Grants to `key` among the first `n` calls at instants in the closed interval [a, b]. */
  ghost function GrantsWithin(cfg: Config, calls: seq<Request>, n: nat, key: string, a: int, b: int): nat
    requires Sound(cfg) && n <= |calls|
  {
    if n == 0 then 0 else
      GrantsWithin(cfg, calls, n - 1, key, a, b)
      + if calls[n - 1].key == key && Granted(cfg, calls, n - 1) && a <= calls[n - 1].now <= b then 1 else 0
  }

  // ---------------------------------------------------------------- window arithmetic

  /** One window's length, in whole seconds' worth of nanoseconds. */
  function Period(cfg: Config): int {
    WindowSeconds(cfg) * SECOND
  }

  lemma IndexBounds(cfg: Config, now: nat)
    requires Sound(cfg)
    ensures IndexOf(cfg, now) * Period(cfg) <= now < IndexOf(cfg, now) * Period(cfg) + Period(cfg)
    ensures ResetAt(cfg, now) == IndexOf(cfg, now) * Period(cfg) + Period(cfg)
    ensures 0 < Period(cfg) <= cfg.window
  {
    var s, w := now / SECOND, WindowSeconds(cfg);
    var i := s / w;
    assert i * w <= s < i * w + w;
    assert (i + 1) * w == i * w + w;
    assert i * (w * SECOND) == i * w * SECOND;
  }

  /** Two instants in one window are less than one expiry apart. */
  lemma SameWindowIsClose(cfg: Config, a: nat, b: nat)
    requires Sound(cfg) && IndexOf(cfg, a) == IndexOf(cfg, b)
    ensures b < a + cfg.window
  {
    IndexBounds(cfg, a);
    IndexBounds(cfg, b);
  }

  lemma IndexUnique(cfg: Config, now: nat, j: int)
    requires Sound(cfg) && j * Period(cfg) <= now < j * Period(cfg) + Period(cfg)
    ensures IndexOf(cfg, now) == j
  {
    var i := IndexOf(cfg, now);
    IndexBounds(cfg, now);
    if i < j {
      Multiples(i, j, Period(cfg));
    } else if j < i {
      Multiples(j, i, Period(cfg));
    }
  }

  lemma ResetStartsNextWindow(cfg: Config, a: nat, b: nat)
    requires Sound(cfg) && a <= b
    ensures b < ResetAt(cfg, a) <==> IndexOf(cfg, b) == IndexOf(cfg, a)
    ensures IndexOf(cfg, a) <= IndexOf(cfg, b)
  {
    IndexBounds(cfg, a);
    IndexBounds(cfg, b);
    if IndexOf(cfg, b) < IndexOf(cfg, a) {
      Multiples(IndexOf(cfg, b), IndexOf(cfg, a), Period(cfg));
    } else if IndexOf(cfg, b) > IndexOf(cfg, a) {
      Multiples(IndexOf(cfg, a), IndexOf(cfg, b), Period(cfg));
    }
  }

  /** An instant before the reset `a` reports is in an earlier window than one at or after it. */
  lemma EarlierWindow(cfg: Config, a: nat, b: nat, c: nat)
    requires Sound(cfg) && (b <= a || b < ResetAt(cfg, a)) && a <= c && ResetAt(cfg, a) <= c
    ensures IndexOf(cfg, b) < IndexOf(cfg, c)
  {
    ResetStartsNextWindow(cfg, a, c);
    if a <= b {
      ResetStartsNextWindow(cfg, a, b);
    } else {
      ResetStartsNextWindow(cfg, b, a);
    }
  }

  lemma IndexAfterWindows(cfg: Config, a: nat, m: nat)
    requires Sound(cfg)
    ensures 0 <= m * Period(cfg)
    ensures IndexOf(cfg, a + m * Period(cfg)) == IndexOf(cfg, a) + m
  {
    var i := IndexOf(cfg, a);
    IndexBounds(cfg, a);
    assert m * Period(cfg) >= 0;
    assert (i + m) * Period(cfg) == i * Period(cfg) + m * Period(cfg);
    IndexUnique(cfg, a + m * Period(cfg), i + m);
  }

  lemma NamesDiffer(a: string, b: string)
    requires a != b
    ensures "fixed:" + a != "fixed:" + b
  {
    assert ("fixed:" + a)[6..] == a && ("fixed:" + b)[6..] == b;
  }

  // ---------------------------------------------------------------- counting

  /** A counter holds the number of requests of its window and outlives the window. */
  ghost predicate Accurate(cfg: Config, cell: Cell<int>, hits: nat, index: int)
    requires Sound(cfg)
  {
    if hits == 0 then cell.Absent?
    else
      && cell.Held? && cell.value == hits && cell.expiry.At?
      && forall t: nat | IndexOf(cfg, t) == index :: t < cell.expiry.instant
  }

  lemma {:induction false} CounterIsAccurate(cfg: Config, calls: seq<Request>, n: nat, key: string, index: int)
    requires Sound(cfg) && n <= |calls|
    ensures Accurate(cfg, Read(After(cfg, calls, n), ("fixed:" + key, index)), Hits(cfg, calls, n, key, index), index)
  {
    if n > 0 {
      CounterIsAccurate(cfg, calls, n - 1, key, index);
      var r := calls[n - 1];
      if r.key != key {
        NamesDiffer(r.key, key);
      } else if IndexOf(cfg, r.now) == index {
        forall t: nat | IndexOf(cfg, t) == index ensures t < r.now + cfg.window {
          SameWindowIsClose(cfg, r.now, t);
        }
      }
    }
  }

  // ---------------------------------------------------------------- main results

  /** When the client's first request of a window came, among the first `n` calls. */
  ghost function FirstHit(cfg: Config, calls: seq<Request>, n: nat, key: string, index: int): int
    requires Sound(cfg) && n <= |calls| && Hits(cfg, calls, n, key, index) > 0
  {
    if Hits(cfg, calls, n - 1, key, index) > 0 then FirstHit(cfg, calls, n - 1, key, index) else calls[n - 1].now
  }

  /** In every run a counter lapses exactly one window after the request that started it. */
  lemma {:induction false} CounterLapsesAfterFirstHit(cfg: Config, calls: seq<Request>, n: nat, key: string, index: int)
    requires Sound(cfg) && n <= |calls| && Hits(cfg, calls, n, key, index) > 0
    ensures Read(After(cfg, calls, n), ("fixed:" + key, index))
            == Held(Hits(cfg, calls, n, key, index), At(FirstHit(cfg, calls, n, key, index) + cfg.window))
  {
    CounterIsAccurate(cfg, calls, n - 1, key, index);
    if calls[n - 1].key != key {
      NamesDiffer(calls[n - 1].key, key);
    }
    if Hits(cfg, calls, n - 1, key, index) > 0 {
      CounterLapsesAfterFirstHit(cfg, calls, n - 1, key, index);
    }
  }

  /** A request is granted exactly when fewer than `limit` requests of the same
      client came before it in the same window: the first `limit` pass, the rest do not. */
  lemma {:induction false} AllowCountsWindow(cfg: Config, calls: seq<Request>, k: nat)
    requires Sound(cfg) && k < |calls|
    ensures Granted(cfg, calls, k)
            <==> Hits(cfg, calls, k, calls[k].key, IndexOf(cfg, calls[k].now)) < cfg.limit
  {
    CounterIsAccurate(cfg, calls, k + 1, calls[k].key, IndexOf(cfg, calls[k].now));
  }

  lemma {:induction false} GrantsAreFirstHits(cfg: Config, calls: seq<Request>, n: nat, key: string, index: int)
    requires Sound(cfg) && n <= |calls| && cfg.limit >= 0
    ensures var hits := Hits(cfg, calls, n, key, index);
            GrantsInWindows(cfg, calls, n, key, index, index + 1) == if hits <= cfg.limit then hits else cfg.limit
  {
    if n > 0 {
      GrantsAreFirstHits(cfg, calls, n - 1, key, index);
      AllowCountsWindow(cfg, calls, n - 1);
    }
  }

  lemma {:induction false} WindowsAddUp(
      cfg: Config, calls: seq<Request>, n: nat, key: string, from: int, mid: int, to: int)
    requires Sound(cfg) && n <= |calls| && from <= mid <= to
    ensures GrantsInWindows(cfg, calls, n, key, from, to)
            == GrantsInWindows(cfg, calls, n, key, from, mid) + GrantsInWindows(cfg, calls, n, key, mid, to)
  {
    if n > 0 {
      WindowsAddUp(cfg, calls, n - 1, key, from, mid, to);
    }
  }

  lemma {:induction false} NoWindowsNoGrants(cfg: Config, calls: seq<Request>, n: nat, key: string, from: int)
    requires Sound(cfg) && n <= |calls|
    ensures GrantsInWindows(cfg, calls, n, key, from, from) == 0
  {
    if n > 0 {
      NoWindowsNoGrants(cfg, calls, n - 1, key, from);
    }
  }

  lemma {:induction false} WindowsBound(cfg: Config, calls: seq<Request>, n: nat, key: string, from: int, q: nat)
    requires Sound(cfg) && n <= |calls| && cfg.limit >= 0
    ensures GrantsInWindows(cfg, calls, n, key, from, from + q) <= q * cfg.limit
    decreases q
  {
    if q == 0 {
      NoWindowsNoGrants(cfg, calls, n, key, from);
    } else {
      WindowsBound(cfg, calls, n, key, from, q - 1);
      WindowsAddUp(cfg, calls, n, key, from, from + q - 1, from + q);
      GrantsAreFirstHits(cfg, calls, n, key, from + q - 1);
      assert q * cfg.limit == (q - 1) * cfg.limit + cfg.limit;
    }
  }

  lemma {:induction false} SpanInWindows(cfg: Config, calls: seq<Request>, n: nat, key: string, a: nat, b: nat)
    requires Sound(cfg) && n <= |calls|
    ensures GrantsWithin(cfg, calls, n, key, a, b)
            <= GrantsInWindows(cfg, calls, n, key, IndexOf(cfg, a), IndexOf(cfg, b) + 1)
  {
    if n > 0 {
      SpanInWindows(cfg, calls, n - 1, key, a, b);
      if a <= calls[n - 1].now <= b {
        ResetStartsNextWindow(cfg, a, calls[n - 1].now);
        ResetStartsNextWindow(cfg, calls[n - 1].now, b);
      }
    }
  }

  /** A closed span of `m` window lengths, wherever it starts, grants at most (m + 1) * limit. */
  lemma SpanBound(cfg: Config, calls: seq<Request>, key: string, a: nat, m: nat)
    requires Sound(cfg) && cfg.limit >= 0
    ensures GrantsWithin(cfg, calls, |calls|, key, a, a + m * Period(cfg)) <= (m + 1) * cfg.limit
  {
    IndexAfterWindows(cfg, a, m);
    var b := a + m * Period(cfg);
    SpanInWindows(cfg, calls, |calls|, key, a, b);
    WindowsBound(cfg, calls, |calls|, key, IndexOf(cfg, a), m + 1);
  }

  ghost predicate Forward(calls: seq<Request>) {
    forall i, j | 0 <= i <= j < |calls| :: calls[i].now <= calls[j].now
  }

  lemma {:induction false} HitsGrow(cfg: Config, calls: seq<Request>, k: nat, m: nat, key: string, index: int)
    requires Sound(cfg) && k <= m <= |calls|
    ensures Hits(cfg, calls, k, key, index) <= Hits(cfg, calls, m, key, index)
    decreases m
  {
    if k < m {
      HitsGrow(cfg, calls, k, m - 1, key, index);
    }
  }

  lemma {:induction false} NoHitsYet(cfg: Config, calls: seq<Request>, m: nat, key: string, index: int)
    requires Sound(cfg) && m <= |calls|
    requires forall i | 0 <= i < m && calls[i].key == key :: IndexOf(cfg, calls[i].now) != index
    ensures Hits(cfg, calls, m, key, index) == 0
  {
    if m > 0 {
      NoHitsYet(cfg, calls, m - 1, key, index);
    }
  }

  lemma {:induction false} NoHitsSinceReset(cfg: Config, calls: seq<Request>, k: nat, m: nat)
    requires Sound(cfg) && Forward(calls) && k < m < |calls| && calls[m].now >= ResetAt(cfg, calls[k].now)
    requires forall i | k < i < m && calls[i].key == calls[k].key :: calls[i].now < ResetAt(cfg, calls[k].now)
    ensures Hits(cfg, calls, m, calls[k].key, IndexOf(cfg, calls[m].now)) == 0
  {
    forall i | 0 <= i < m && calls[i].key == calls[k].key
      ensures IndexOf(cfg, calls[i].now) != IndexOf(cfg, calls[m].now)
    {
      EarlierWindow(cfg, calls[k].now, calls[i].now, calls[m].now);
    }
    NoHitsYet(cfg, calls, m, calls[k].key, IndexOf(cfg, calls[m].now));
  }

  /** After a denial at call `k`, with the client's calls in between all before the instant
      `Reset` names and other clients calling as they like, the client's call `m` is granted
      exactly when it comes at or after that instant. */
  lemma {:induction false} ResetIsExact(cfg: Config, calls: seq<Request>, k: nat, m: nat)
    requires Sound(cfg) && cfg.limit >= 1 && Forward(calls) && k < m < |calls|
    requires calls[m].key == calls[k].key && !Granted(cfg, calls, k)
    requires forall i | k < i < m && calls[i].key == calls[k].key :: calls[i].now < ResetAt(cfg, calls[k].now)
    ensures Granted(cfg, calls, m) <==> calls[m].now >= ResetAt(cfg, calls[k].now)
  {
    var key, index := calls[k].key, IndexOf(cfg, calls[m].now);
    AllowCountsWindow(cfg, calls, k);
    AllowCountsWindow(cfg, calls, m);
    ResetStartsNextWindow(cfg, calls[k].now, calls[m].now);
    if calls[m].now < ResetAt(cfg, calls[k].now) {
      HitsGrow(cfg, calls, k, m, key, index);
    } else {
      NoHitsSinceReset(cfg, calls, k, m);
    }
  }

  // ---------------------------------------------------------------- what the limiter does not promise

  lemma {:induction false} BurstHits(cfg: Config, key: string, calls: seq<Request>, n: nat)
    requires Sound(cfg) && cfg.limit >= 1 && n <= |calls| == 2 * cfg.limit
    requires forall i | 0 <= i < |calls| ::
               calls[i].key == key && IndexOf(cfg, calls[i].now) == if i < cfg.limit then 0 else 1
    ensures Hits(cfg, calls, n, key, 0) == if n <= cfg.limit then n else cfg.limit
    ensures Hits(cfg, calls, n, key, 1) == if n <= cfg.limit then 0 else n - cfg.limit
  {
    if n > 0 {
      BurstHits(cfg, key, calls, n - 1);
    }
  }

  lemma {:induction false} AllGranted(cfg: Config, key: string, calls: seq<Request>, n: nat, a: int, b: int)
    requires Sound(cfg) && n <= |calls|
    requires forall i | 0 <= i < |calls| :: calls[i].key == key && a <= calls[i].now <= b && Granted(cfg, calls, i)
    ensures GrantsWithin(cfg, calls, n, key, a, b) == n
  {
    if n > 0 {
      AllGranted(cfg, key, calls, n - 1, a, b);
    }
  }

  /** Twice the limit can pass within one nanosecond, across a window boundary. */
  lemma {:induction false} BoundaryBurst(cfg: Config, key: string) returns (calls: seq<Request>, a: nat)
    requires Sound(cfg) && cfg.limit >= 1
    ensures Forward(calls) && GrantsWithin(cfg, calls, |calls|, key, a, a + 1) == 2 * cfg.limit
  {
    IndexBounds(cfg, 0);
    a := Period(cfg) - 1;
    calls := seq(2 * cfg.limit, i => Request(key, if i < cfg.limit then a else a + 1));
    IndexUnique(cfg, a, 0);
    IndexUnique(cfg, a + 1, 1);
    forall k | 0 <= k < |calls| ensures Granted(cfg, calls, k) {
      BurstHits(cfg, key, calls, k);
      AllowCountsWindow(cfg, calls, k);
    }
    AllGranted(cfg, key, calls, |calls|, a, a + 1);
  }

  const PREFIX: string := "fixed:"

  predicate Prefixed(key: string) {
    |key| >= |PREFIX| && key[..|PREFIX|] == PREFIX
  }

  /** What `Remaining` counts against `key`: the requests of the client whose counter it
      happens to read, the one named by the rest of the key after "fixed:". */
  ghost function Seen(cfg: Config, calls: seq<Request>, n: nat, key: string, index: int): nat
    requires Sound(cfg) && n <= |calls|
  {
    if Prefixed(key) then Hits(cfg, calls, n, key[|PREFIX|..], index) else 0
  }

  function Left(limit: int, used: nat): int {
    if limit - used < 0 then 0 else limit - used
  }

  lemma {:induction false} OnlyPrefixedNames(cfg: Config, calls: seq<Request>, n: nat, key: string, index: int)
    requires Sound(cfg) && n <= |calls| && !Prefixed(key)
    ensures Read(After(cfg, calls, n), (key, index)).Absent?
  {
    if n > 0 {
      OnlyPrefixedNames(cfg, calls, n - 1, key, index);
      assert Prefixed("fixed:" + calls[n - 1].key);
    }
  }

  /** For every key: the limit less the requests of the client whose counter is read. */
  lemma {:induction false} RemainingReads(cfg: Config, calls: seq<Request>, n: nat, key: string, now: nat)
    requires Sound(cfg) && n <= |calls|
    ensures var seen := Seen(cfg, calls, n, key, IndexOf(cfg, now));
            RemainingAt(cfg, After(cfg, calls, n), key, now) == if seen == 0 then cfg.limit else Left(cfg.limit, seen)
  {
    if Prefixed(key) {
      assert key == "fixed:" + key[|PREFIX|..];
      CounterIsAccurate(cfg, calls, n, key[|PREFIX|..], IndexOf(cfg, now));
    } else {
      OnlyPrefixedNames(cfg, calls, n, key, IndexOf(cfg, now));
    }
  }

  /** `Remaining` does not read the counter `Allow` keeps for the client. For every key it
      reports what `Allow` has left exactly when the client's own requests of the window and
      those of the client whose counter is read are equal, or both use up the limit. */
  lemma {:induction false} RemainingAgreesIff(cfg: Config, calls: seq<Request>, n: nat, key: string, now: nat)
    requires Sound(cfg) && n <= |calls| && cfg.limit >= 1
    ensures var own := Hits(cfg, calls, n, key, IndexOf(cfg, now));
            var seen := Seen(cfg, calls, n, key, IndexOf(cfg, now));
            RemainingAt(cfg, After(cfg, calls, n), key, now) == Left(cfg.limit, own)
            <==> own == seen || (own >= cfg.limit && seen >= cfg.limit)
  {
    RemainingReads(cfg, calls, n, key, now);
  }

  /** For a key that does not start with "fixed:", exactly when the client has made no
      request in the current window. */
  lemma {:induction false} RemainingAgreesForPlainKeyIff(
      cfg: Config, calls: seq<Request>, n: nat, key: string, now: nat)
    requires Sound(cfg) && n <= |calls| && cfg.limit >= 1 && !Prefixed(key)
    ensures var own := Hits(cfg, calls, n, key, IndexOf(cfg, now));
            RemainingAt(cfg, After(cfg, calls, n), key, now) == Left(cfg.limit, own) <==> own == 0
  {
    RemainingAgreesIff(cfg, calls, n, key, now);
  }

  /** One request of client "a": `Remaining` still reports the whole limit for "a", and
      takes the request off the allowance of "fixed:a", who has made none. */
  lemma {:induction false} RemainingMisses(cfg: Config, now: nat)
    requires Sound(cfg) && cfg.limit >= 1
    ensures var calls := [Request("a", now)];
            && RemainingAt(cfg, After(cfg, calls, 1), "a", now) == cfg.limit
            && Left(cfg.limit, Hits(cfg, calls, 1, "a", IndexOf(cfg, now))) == cfg.limit - 1
            && RemainingAt(cfg, After(cfg, calls, 1), "fixed:a", now) == cfg.limit - 1
            && Left(cfg.limit, Hits(cfg, calls, 1, "fixed:a", IndexOf(cfg, now))) == cfg.limit
  {
    var calls, index := [Request("a", now)], IndexOf(cfg, now);
    assert Hits(cfg, calls, 0, "a", index) == 0 && Hits(cfg, calls, 0, "fixed:a", index) == 0;
    RemainingReads(cfg, calls, 1, "a", now);
    assert Prefixed("fixed:a") && "fixed:a"[|PREFIX|..] == "a";
    RemainingReads(cfg, calls, 1, "fixed:a", now);
  }
}
