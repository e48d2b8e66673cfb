/** The sliding-window log (internal/ratelimit/sliding_window.go), one call at a time.

    The Redis sorted set keeps a member per granted request whose name and score
    are both the request's timestamp: an ascending list without repetitions. */
module SlidingWindows {
  import opened Redis

  /** Granted timestamps, newest on the outside. */
  datatype Log = Empty | Entry(older: Log, at: int)

  datatype Config = Config(limit: int, window: int)
  datatype Outcome = Outcome(granted: bool, cell: Cell<Log>)

  /** ZCARD. */
  function Size(log: Log): nat {
    if log.Empty? then 0 else Size(log.older) + 1
  }

  /** ZREMRANGEBYSCORE key 0 upTo: both ends inclusive. */
  function Purge(log: Log, upTo: int): Log {
    if log.Empty? then Empty
    else if 0 <= log.at <= upTo then Purge(log.older, upTo)
    else Entry(Purge(log.older, upTo), log.at)
  }

  /** ZADD key score member, with score and member both `t`. */
  function Insert(log: Log, t: int): Log {
    if log.Empty? || log.at < t then Entry(log, t)
    else if log.at == t then log
    else Entry(Insert(log.older, t), log.at)
  }

  /** ZCOUNT key from to: both ends inclusive. */
  function CountBetween(log: Log, from: int, to: int): nat {
    if log.Empty? then 0
    else CountBetween(log.older, from, to) + if from <= log.at <= to then 1 else 0
  }

  /** ZRANGE key 0 0. */
  function Oldest(log: Log): int
    requires log.Entry?
  {
    if log.older.Empty? then log.at else Oldest(log.older)
  }

  function Members(cell: Cell<Log>, now: int): Log {
    if Live(cell, now) then cell.value else Empty
  }

  function AllowStep(cfg: Config, cell: Cell<Log>, now: int): Outcome {
    var kept := Purge(Members(cell, now), now - cfg.window);
    if Size(kept) < cfg.limit then
      Outcome(true, Held(Insert(kept, now), At(now + cfg.window)))
    else
      Outcome(false, if Live(cell, now) then Held(kept, cell.expiry) else Absent)
  }

  function ResetAt(cfg: Config, cell: Cell<Log>, now: int): int {
    if Members(cell, now).Empty? then now else Oldest(Members(cell, now)) + cfg.window
  }

  function RemainingAt(cfg: Config, cell: Cell<Log>, now: int): int {
    var left := cfg.limit - CountBetween(Members(cell, now), now - cfg.window, now);
    if left < 0 then 0 else left
  }

  class SlidingWindowLimiter {
    const limit: int
    const window: int
    var cells: map<string, Cell<Log>>

    ghost function Cfg(): Config {
      Config(limit, window)
    }

    constructor (limit: int, window: int)
      ensures this.limit == limit && this.window == window && cells == map[]
    {
      this.limit := limit;
      this.window := window;
      cells := map[];
    }

    method Allow(key: string, now: int) returns (granted: bool)
      modifies this
      ensures Outcome(granted, Lookup(cells, key)) == AllowStep(Cfg(), old(Lookup(cells, key)), now)
      ensures forall other | other != key :: Lookup(cells, other) == old(Lookup(cells, other))
    {
      var windowStart := now - window;
      var data := Lookup(cells, key);
      var entries := Purge(Members(data, now), windowStart);
      if Live(data, now) {
        cells := cells[key := data.(value := entries)];
      } else {
        cells := cells[key := Absent];
      }
      var count := Size(entries);
      if count < limit {
        cells := cells[key := Held(Insert(entries, now), At(now + window))];
        return true;
      }
      return false;
    }

    method Reset(key: string, now: int) returns (at: int)
      ensures at == ResetAt(Cfg(), Lookup(cells, key), now)
    {
      var entries := Members(Lookup(cells, key), now);
      if entries.Empty? {
        return now;
      }
      at := Oldest(entries) + window;
    }

    method Remaining(key: string, now: int) returns (n: int)
      ensures n == RemainingAt(Cfg(), Lookup(cells, key), now)
    {
      var count := CountBetween(Members(Lookup(cells, key), now), now - window, now);
      n := limit - count;
      if n < 0 {
        n := 0;
      }
    }
  }

  // ---------------------------------------------------------------- runs

  ghost predicate Increasing(times: seq<int>) {
    && (forall i, j | 0 <= i < j < |times| :: times[i] < times[j])
    && (forall i | 0 <= i < |times| :: 0 <= times[i])
  }

  ghost function After(cfg: Config, times: seq<int>, n: nat): Cell<Log>
    requires n <= |times|
  {
    if n == 0 then Absent else AllowStep(cfg, After(cfg, times, n - 1), times[n - 1]).cell
  }

  ghost predicate Granted(cfg: Config, times: seq<int>, k: nat)
    requires k < |times|
  {
    AllowStep(cfg, After(cfg, times, k), times[k]).granted
  }

  /** Every grant the first `n` calls ever received; nothing is forgotten. */
  ghost function FullLog(cfg: Config, times: seq<int>, n: nat): Log
    requires n <= |times|
  {
    if n == 0 then Empty
    else if Granted(cfg, times, n - 1) then Entry(FullLog(cfg, times, n - 1), times[n - 1])
    else FullLog(cfg, times, n - 1)
  }

  /** How many of the first `n` calls were granted after `from`, up to and including `to`. */
  ghost function GrantsWithin(cfg: Config, times: seq<int>, n: nat, from: int, to: int): nat
    requires n <= |times|
  {
    if n == 0 then 0 else
      GrantsWithin(cfg, times, n - 1, from, to)
      + if Granted(cfg, times, n - 1) && from < times[n - 1] <= to then 1 else 0
  }

  // ---------------------------------------------------------------- sorted-set facts

  ghost predicate Ascending(log: Log) {
    log.Entry? ==> Ascending(log.older) && (log.older.Entry? ==> log.older.at < log.at)
  }

  ghost predicate InRange(log: Log, lo: int, hi: int) {
    log.Entry? ==> lo <= log.at <= hi && InRange(log.older, lo, hi)
  }

  ghost predicate Has(log: Log, t: int) {
    log.Entry? && (log.at == t || Has(log.older, t))
  }

  lemma {:induction false} PurgeBounds(log: Log, upTo: int, hi: int)
    requires InRange(log, 0, hi)
    ensures InRange(Purge(log, upTo), 0, hi) && InRange(Purge(log, upTo), upTo + 1, hi)
  {
    if log.Entry? {
      PurgeBounds(log.older, upTo, hi);
    }
  }

  lemma {:induction false} AscendingBounds(log: Log)
    requires Ascending(log) && log.Entry?
    ensures InRange(log, Oldest(log), log.at) && InRange(log.older, Oldest(log), log.at - 1)
  {
    if log.older.Entry? {
      AscendingBounds(log.older);
      Widen(log.older, Oldest(log), log.older.at, Oldest(log), log.at - 1);
      Widen(log.older, Oldest(log), log.older.at, Oldest(log), log.at);
      Widen(log.older.older, Oldest(log), log.older.at - 1, Oldest(log), log.at);
    }
  }

  lemma {:induction false} Widen(log: Log, lo: int, hi: int, lo': int, hi': int)
    requires InRange(log, lo, hi) && lo' <= lo && hi <= hi'
    ensures InRange(log, lo', hi')
  {
    if log.Entry? {
      Widen(log.older, lo, hi, lo', hi');
    }
  }

  lemma {:induction false} PurgeAscending(log: Log, upTo: int)
    requires Ascending(log)
    ensures Ascending(Purge(log, upTo))
    ensures log.Entry? && Purge(log, upTo).Entry? ==> Purge(log, upTo).at <= log.at
  {
    if log.Entry? {
      PurgeAscending(log.older, upTo);
    }
  }

  lemma {:induction false} PurgeTwice(log: Log, a: int, b: int)
    requires a <= b
    ensures Purge(Purge(log, a), b) == Purge(log, b)
  {
    if log.Entry? {
      PurgeTwice(log.older, a, b);
    }
  }

  lemma {:induction false} PurgeAll(log: Log, upTo: int)
    requires InRange(log, 0, upTo)
    ensures Purge(log, upTo) == Empty
  {
    if log.Entry? {
      PurgeAll(log.older, upTo);
    }
  }

  lemma {:induction false} PurgeNone(log: Log, upTo: int, hi: int)
    requires InRange(log, upTo + 1, hi)
    ensures Purge(log, upTo) == log
  {
    if log.Entry? {
      PurgeNone(log.older, upTo, hi);
    }
  }

  lemma {:induction false} PurgeShrinks(log: Log, upTo: int)
    ensures Size(Purge(log, upTo)) <= Size(log)
    ensures log.Entry? && 0 <= Oldest(log) <= upTo ==> Size(Purge(log, upTo)) < Size(log)
  {
    if log.Entry? {
      PurgeShrinks(log.older, upTo);
    }
  }

  // ---------------------------------------------------------------- the store against the full log

  /** The store at `now` agrees with the full log on everything inside the window,
      and the key outlives every logged grant by one window. */
  ghost predicate Tracks(cfg: Config, cell: Cell<Log>, log: Log, now: int) {
    && Purge(Members(cell, now), now - cfg.window) == Purge(log, now - cfg.window)
    && (cell.Held? ==> cell.expiry.At? && InRange(log, 0, cell.expiry.instant - cfg.window))
  }

  lemma {:induction false} TracksAs(cfg: Config, cell: Cell<Log>, log: Log, now: int, members: Log)
    requires Members(cell, now) == members
    requires Purge(members, now - cfg.window) == Purge(log, now - cfg.window)
    requires cell.Held? ==> cell.expiry.At? && InRange(log, 0, cell.expiry.instant - cfg.window)
    ensures Tracks(cfg, cell, log, now)
  {
  }

  /** A store that tracks the log steps as the log tells. */
  lemma {:induction false} StepByLog(cfg: Config, cell: Cell<Log>, log: Log, t: int)
    requires Tracks(cfg, cell, log, t)
    ensures var kept := Purge(log, t - cfg.window);
            AllowStep(cfg, cell, t)
            == if Size(kept) < cfg.limit then Outcome(true, Held(Insert(kept, t), At(t + cfg.window)))
               else Outcome(false, if Live(cell, t) then Held(kept, cell.expiry) else Absent)
  {
  }

  /** Purging and expiry lose nothing that a later call still has to count. */
  lemma {:induction false} StepTracks(cfg: Config, cell: Cell<Log>, log: Log, t: int, now: int)
    requires Tracks(cfg, cell, log, t) && 0 <= t <= now
    requires InRange(log, 0, t - 1)
    ensures AllowStep(cfg, cell, t).granted ==> Tracks(cfg, AllowStep(cfg, cell, t).cell, Entry(log, t), now)
    ensures !AllowStep(cfg, cell, t).granted ==> Tracks(cfg, AllowStep(cfg, cell, t).cell, log, now)
  {
    StepByLog(cfg, cell, log, t);
    if Size(Purge(log, t - cfg.window)) < cfg.limit {
      GrantTracks(cfg, log, t, now);
    } else {
      DenialTracks(cfg, cell, log, t, now);
    }
  }

  lemma {:induction false} DenialTracks(cfg: Config, cell: Cell<Log>, log: Log, t: int, now: int)
    requires Tracks(cfg, cell, log, t) && t <= now
    ensures Tracks(cfg, if Live(cell, t) then Held(Purge(log, t - cfg.window), cell.expiry) else Absent, log, now)
  {
    var from := now - cfg.window;
    var kept := Purge(log, t - cfg.window);
    PurgeTwice(log, t - cfg.window, from);
    if Live(cell, t) && now < cell.expiry.instant {
      TracksAs(cfg, Held(kept, cell.expiry), log, now, kept);
    } else if Live(cell, t) {
      Widen(log, 0, cell.expiry.instant - cfg.window, 0, from);
      PurgeAll(log, from);
      TracksAs(cfg, Held(kept, cell.expiry), log, now, Empty);
    } else {
      assert kept == Empty;
      TracksAs(cfg, Absent, log, now, Empty);
    }
  }

  lemma {:induction false} PurgeKeepsNewest(log: Log, t: int, from: int)
    requires from < t
    ensures Purge(Entry(log, t), from) == Entry(Purge(log, from), t)
  {
  }

  lemma {:induction false} NewestTracksLive(cfg: Config, kept: Log, log: Log, t: int, now: int)
    requires 0 <= t && now < t + cfg.window && InRange(log, 0, t)
    requires Purge(kept, now - cfg.window) == Purge(log, now - cfg.window)
    ensures Tracks(cfg, Held(Entry(kept, t), At(t + cfg.window)), Entry(log, t), now)
  {
    PurgeKeepsNewest(kept, t, now - cfg.window);
    PurgeKeepsNewest(log, t, now - cfg.window);
    TracksAs(cfg, Held(Entry(kept, t), At(t + cfg.window)), Entry(log, t), now, Entry(kept, t));
  }

  lemma {:induction false} NewestTracks(cfg: Config, kept: Log, log: Log, t: int, now: int)
    requires 0 <= t <= now && InRange(log, 0, t - 1) && kept == Purge(log, t - cfg.window)
    ensures Tracks(cfg, Held(Entry(kept, t), At(t + cfg.window)), Entry(log, t), now)
  {
    Widen(log, 0, t - 1, 0, t);
    if now < t + cfg.window {
      PurgeTwice(log, t - cfg.window, now - cfg.window);
      NewestTracksLive(cfg, kept, log, t, now);
    } else {
      Widen(log, 0, t - 1, 0, now - cfg.window);
      PurgeAll(log, now - cfg.window);
      TracksAs(cfg, Held(Entry(kept, t), At(t + cfg.window)), Entry(log, t), now, Empty);
    }
  }

  lemma {:induction false} GrantTracks(cfg: Config, log: Log, t: int, now: int)
    requires 0 <= t <= now && InRange(log, 0, t - 1)
    ensures Tracks(cfg, Held(Insert(Purge(log, t - cfg.window), t), At(t + cfg.window)), Entry(log, t), now)
  {
    var kept := Purge(log, t - cfg.window);
    PurgeBounds(log, t - cfg.window, t - 1);
    assert Insert(kept, t) == Entry(kept, t);
    NewestTracks(cfg, kept, log, t, now);
  }

  lemma {:induction false} LogBounds(cfg: Config, times: seq<int>, n: nat, t: int)
    requires Increasing(times) && n <= |times| && (n > 0 ==> times[n - 1] < t)
    ensures InRange(FullLog(cfg, times, n), 0, t - 1)
  {
    if n > 0 {
      LogBounds(cfg, times, n - 1, t);
    }
  }

  lemma {:induction false} StoreTracksLog(cfg: Config, times: seq<int>, n: nat, now: int)
    requires Increasing(times) && n <= |times| && (n > 0 ==> times[n - 1] <= now)
    ensures Tracks(cfg, After(cfg, times, n), FullLog(cfg, times, n), now)
  {
    if n > 0 {
      StoreTracksLog(cfg, times, n - 1, times[n - 1]);
      LogBounds(cfg, times, n - 1, times[n - 1]);
      StepTracks(cfg, After(cfg, times, n - 1), FullLog(cfg, times, n - 1), times[n - 1], now);
    }
  }

  lemma {:induction false} RecentLogSize(cfg: Config, times: seq<int>, n: nat, from: int, to: int)
    requires Increasing(times) && n <= |times| && (n > 0 ==> times[n - 1] <= to)
    ensures Size(Purge(FullLog(cfg, times, n), from)) == GrantsWithin(cfg, times, n, from, to)
  {
    if n > 0 {
      RecentLogSize(cfg, times, n - 1, from, to);
    }
  }

  lemma {:induction false} GrantedByLog(cfg: Config, times: seq<int>, k: nat)
    requires Increasing(times) && k < |times|
    ensures Granted(cfg, times, k) <==> Size(Purge(FullLog(cfg, times, k), times[k] - cfg.window)) < cfg.limit
  {
    StoreTracksLog(cfg, times, k, times[k]);
  }

  // ---------------------------------------------------------------- main results

  /** `Allow` grants exactly when fewer than `limit` earlier grants lie in the
      window (now - window, now], counted over the whole history. */
  lemma {:induction false} AllowCountsFullHistory(cfg: Config, times: seq<int>, k: nat)
    requires Increasing(times) && k < |times|
    ensures Granted(cfg, times, k)
            <==> GrantsWithin(cfg, times, k, times[k] - cfg.window, times[k]) < cfg.limit
  {
    GrantedByLog(cfg, times, k);
    RecentLogSize(cfg, times, k, times[k] - cfg.window, times[k]);
  }

  /** A span that starts earlier and covers every call counts at least as many grants. */
  lemma {:induction false} WithinMonotone(
      cfg: Config, times: seq<int>, n: nat, from: int, to: int, from': int, to': int)
    requires n <= |times| && from' <= from && forall i | 0 <= i < n :: times[i] <= to'
    ensures GrantsWithin(cfg, times, n, from, to) <= GrantsWithin(cfg, times, n, from', to')
  {
    if n > 0 {
      WithinMonotone(cfg, times, n - 1, from, to, from', to');
    }
  }

  lemma {:induction false} GrantFits(cfg: Config, times: seq<int>, k: nat, from: int)
    requires Increasing(times) && k < |times| && Granted(cfg, times, k) && times[k] <= from + cfg.window
    ensures GrantsWithin(cfg, times, k, from, from + cfg.window) < cfg.limit
  {
    AllowCountsFullHistory(cfg, times, k);
    WithinMonotone(cfg, times, k, from, from + cfg.window, times[k] - cfg.window, times[k]);
  }

  /** No half-open span of one window's length, wherever it starts, holds more than `limit` grants. */
  lemma {:induction false} WindowBound(cfg: Config, times: seq<int>, n: nat, from: int)
    requires Increasing(times) && n <= |times| && cfg.limit >= 0
    ensures GrantsWithin(cfg, times, n, from, from + cfg.window) <= cfg.limit
  {
    if n > 0 {
      WindowBound(cfg, times, n - 1, from);
      if Granted(cfg, times, n - 1) && from < times[n - 1] <= from + cfg.window {
        GrantFits(cfg, times, n - 1, from);
      }
    }
  }

  // ---------------------------------------------------------------- Reset

  /** A stored set never outgrows the limit and stays in order. */
  ghost predicate Orderly(cfg: Config, cell: Cell<Log>, hi: int) {
    cell.Held? ==> Size(cell.value) <= cfg.limit && Ascending(cell.value) && InRange(cell.value, 0, hi)
  }

  lemma {:induction false} OrderlyStep(cfg: Config, cell: Cell<Log>, t: int)
    requires cfg.limit >= 0 && 0 <= t && Orderly(cfg, cell, t - 1)
    ensures Orderly(cfg, AllowStep(cfg, cell, t).cell, t)
  {
    var entries := Members(cell, t);
    PurgeBounds(entries, t - cfg.window, t - 1);
    PurgeAscending(entries, t - cfg.window);
    PurgeShrinks(entries, t - cfg.window);
    Widen(Purge(entries, t - cfg.window), 0, t - 1, 0, t);
  }

  lemma {:induction false} StoreOrderly(cfg: Config, times: seq<int>, n: nat, hi: int)
    requires Increasing(times) && n <= |times| && cfg.limit >= 0 && (n > 0 ==> times[n - 1] <= hi)
    ensures Orderly(cfg, After(cfg, times, n), hi)
  {
    if n > 0 {
      StoreOrderly(cfg, times, n - 1, times[n - 1] - 1);
      OrderlyStep(cfg, After(cfg, times, n - 1), times[n - 1]);
      if After(cfg, times, n).Held? {
        Widen(After(cfg, times, n).value, 0, times[n - 1], 0, hi);
      }
    }
  }

  /** The store a denial leaves behind, and the instant `Reset` then names. */
  ghost predicate Full(cfg: Config, cell: Cell<Log>, reset: int) {
    && cell.Held? && cell.expiry.At? && Size(cell.value) == cfg.limit >= 1
    && Ascending(cell.value) && 0 <= Oldest(cell.value)
    && reset == Oldest(cell.value) + cfg.window <= cell.expiry.instant
  }

  /** A retry before the reported reset changes nothing and is denied; one at or after it is granted. */
  lemma RetryAfterDenial(cfg: Config, cell: Cell<Log>, reset: int, now: int)
    requires Full(cfg, cell, reset)
    ensures now < reset ==> AllowStep(cfg, cell, now) == Outcome(false, cell)
    ensures now >= reset ==> AllowStep(cfg, cell, now).granted
  {
    if now < reset {
      AscendingBounds(cell.value);
      Widen(cell.value, Oldest(cell.value), cell.value.at, now - cfg.window + 1, cell.value.at);
      PurgeNone(cell.value, now - cfg.window, cell.value.at);
    } else {
      PurgeShrinks(cell.value, now - cfg.window);
    }
  }

  lemma {:induction false} OldestInRange(log: Log, lo: int, hi: int)
    requires log.Entry? && InRange(log, lo, hi)
    ensures lo <= Oldest(log) <= hi
  {
    if log.older.Entry? {
      OldestInRange(log.older, lo, hi);
    }
  }

  lemma {:induction false} DenialLeavesFull(cfg: Config, cell: Cell<Log>, log: Log, t: int, after: Cell<Log>)
    requires cfg.limit >= 1 && 0 <= t && Orderly(cfg, cell, t - 1)
    requires Tracks(cfg, cell, log, t) && InRange(log, 0, t - 1) && AllowStep(cfg, cell, t) == Outcome(false, after)
    ensures Full(cfg, after, ResetAt(cfg, after, t)) && t < ResetAt(cfg, after, t)
  {
    var kept := Purge(log, t - cfg.window);
    StepByLog(cfg, cell, log, t);
    OrderlyStep(cfg, cell, t);
    PurgeBounds(log, t - cfg.window, t - 1);
    PurgeBounds(log, t - cfg.window, cell.expiry.instant - cfg.window);
    OldestInRange(kept, t - cfg.window + 1, t - 1);
    OldestInRange(kept, 0, cell.expiry.instant - cfg.window);
  }

  lemma {:induction false} StoreBeforeCall(cfg: Config, times: seq<int>, k: nat)
    requires cfg.limit >= 0 && Increasing(times) && k < |times|
    ensures Orderly(cfg, After(cfg, times, k), times[k] - 1)
    ensures Tracks(cfg, After(cfg, times, k), FullLog(cfg, times, k), times[k])
    ensures InRange(FullLog(cfg, times, k), 0, times[k] - 1)
  {
    StoreOrderly(cfg, times, k, times[k] - 1);
    StoreTracksLog(cfg, times, k, times[k]);
    LogBounds(cfg, times, k, times[k]);
  }

  lemma {:induction false} FullAfterDenial(cfg: Config, times: seq<int>, k: nat)
    requires cfg.limit >= 1 && Increasing(times) && k < |times| && !Granted(cfg, times, k)
    ensures var after := After(cfg, times, k + 1);
            Full(cfg, after, ResetAt(cfg, after, times[k])) && times[k] < ResetAt(cfg, after, times[k])
  {
    StoreBeforeCall(cfg, times, k);
    DenialLeavesFull(cfg, After(cfg, times, k), FullLog(cfg, times, k), times[k], After(cfg, times, k + 1));
  }

  lemma {:induction false} RetriesChangeNothing(cfg: Config, times: seq<int>, k: nat, m: nat, reset: int)
    requires k < m <= |times| && Full(cfg, After(cfg, times, k + 1), reset)
    requires forall i | k < i < m :: times[i] < reset
    ensures After(cfg, times, m) == After(cfg, times, k + 1)
    decreases m
  {
    if m > k + 1 {
      RetriesChangeNothing(cfg, times, k, m - 1, reset);
      RetryAfterDenial(cfg, After(cfg, times, k + 1), reset, times[m - 1]);
    }
  }

  /** After a denial at call `k`, `Reset` names the earliest instant that can succeed:
      with any retries in between all before it, call `m` is granted exactly when it
      comes at or after that instant. */
  lemma {:induction false} ResetIsExact(cfg: Config, times: seq<int>, k: nat, m: nat)
    requires cfg.limit >= 1 && Increasing(times) && k < m < |times|
    requires !Granted(cfg, times, k)
    requires times[m - 1] < ResetAt(cfg, After(cfg, times, k + 1), times[k])
    ensures Granted(cfg, times, m) <==> times[m] >= ResetAt(cfg, After(cfg, times, k + 1), times[k])
  {
    var cell := After(cfg, times, k + 1);
    var reset := ResetAt(cfg, cell, times[k]);
    FullAfterDenial(cfg, times, k);
    RetriesChangeNothing(cfg, times, k, m, reset);
    RetryAfterDenial(cfg, cell, reset, times[m]);
  }

  // ---------------------------------------------------------------- Remaining

  lemma {:induction false} CountAgainstPurge(log: Log, from: int, now: int)
    requires Ascending(log) && InRange(log, 0, now)
    ensures CountBetween(log, from, now) == Size(Purge(log, from)) + if Has(log, from) then 1 else 0
    ensures CountBetween(log, from, now) <= Size(log)
  {
    if log.Entry? {
      CountAgainstPurge(log.older, from, now);
      if log.at == from {
        AscendingBounds(log);
        NotBelow(log.older, from, Oldest(log));
      }
    }
  }

  lemma {:induction false} NotBelow(log: Log, t: int, lo: int)
    requires InRange(log, lo, t - 1)
    ensures !Has(log, t)
  {
    if log.Entry? {
      NotBelow(log.older, t, lo);
    }
  }

  lemma {:induction false} RemainingAgainstPurge(cfg: Config, cell: Cell<Log>, now: int)
    requires cfg.limit >= 0 && Orderly(cfg, cell, now)
    ensures RemainingAt(cfg, cell, now) == cfg.limit - Size(Purge(Members(cell, now), now - cfg.window))
            <==> !Has(Members(cell, now), now - cfg.window)
  {
    CountAgainstPurge(Members(cell, now), now - cfg.window, now);
  }

  /** `Remaining` also counts an entry exactly one window old, which `Allow` purges.
      What it reports for a reachable store is what `Allow` has left exactly when no
      such entry is stored. */
  lemma {:induction false} RemainingAgreesIff(cfg: Config, times: seq<int>, n: nat, now: int)
    requires cfg.limit >= 1 && Increasing(times) && n <= |times| && (n > 0 ==> times[n - 1] <= now)
    ensures RemainingAt(cfg, After(cfg, times, n), now)
            == cfg.limit - GrantsWithin(cfg, times, n, now - cfg.window, now)
            <==> !Has(Members(After(cfg, times, n), now), now - cfg.window)
  {
    StoreTracksLog(cfg, times, n, now);
    RecentLogSize(cfg, times, n, now - cfg.window, now);
    StoreOrderly(cfg, times, n, now);
    RemainingAgainstPurge(cfg, After(cfg, times, n), now);
  }

  /** Some call was granted at `e`, and a later one was granted too. */
  ghost predicate GrantedThenAnother(cfg: Config, times: seq<int>, n: nat, e: int)
    requires n <= |times|
  {
    exists k: nat, m: nat :: k < m < n && Granted(cfg, times, k) && times[k] == e && Granted(cfg, times, m)
  }

  ghost predicate NoCallAt(times: seq<int>, n: nat, now: int)
    requires n <= |times|
  {
    forall i | 0 <= i < n :: times[i] != now
  }

  /** An entry exactly one window old is still stored, seen from the history: some call was
      granted at that instant, a later one was granted too, and none has come just now. */
  ghost predicate EdgeGrantPending(cfg: Config, times: seq<int>, n: nat, now: int)
    requires n <= |times|
  {
    GrantedThenAnother(cfg, times, n, now - cfg.window) && NoCallAt(times, n, now)
  }

  lemma {:induction false} InsertHas(log: Log, t: int, e: int)
    ensures Has(Insert(log, t), e) <==> Has(log, e) || e == t
  {
    if log.Entry? && t < log.at {
      InsertHas(log.older, t, e);
    }
  }

  lemma {:induction false} PurgeHas(log: Log, upTo: int, e: int)
    ensures Has(Purge(log, upTo), e) <==> Has(log, e) && !(0 <= e <= upTo)
  {
    if log.Entry? {
      PurgeHas(log.older, upTo, e);
    }
  }

  lemma {:induction false} InRangeHas(log: Log, lo: int, hi: int, e: int)
    requires InRange(log, lo, hi) && Has(log, e)
    ensures lo <= e <= hi
  {
    if log.at != e {
      InRangeHas(log.older, lo, hi, e);
    }
  }

  /** The full log holds exactly the granted instants. */
  lemma {:induction false} LogHas(cfg: Config, times: seq<int>, n: nat, e: int)
    requires n <= |times|
    ensures Has(FullLog(cfg, times, n), e) <==> exists k: nat :: k < n && Granted(cfg, times, k) && times[k] == e
  {
    if n > 0 {
      LogHas(cfg, times, n - 1, e);
      if Granted(cfg, times, n - 1) && times[n - 1] == e {
        assert n - 1 < n;
      }
    }
  }

  /** The key lapses one window after the newest grant. */
  ghost predicate ExpiresWithNewest(cfg: Config, cell: Cell<Log>, log: Log) {
    cell.Held? ==> log.Entry? && cell.expiry == At(log.at + cfg.window)
  }

  lemma {:induction false} ExpiryIsNewest(cfg: Config, times: seq<int>, n: nat)
    requires n <= |times|
    ensures ExpiresWithNewest(cfg, After(cfg, times, n), FullLog(cfg, times, n))
  {
    if n > 0 {
      ExpiryIsNewest(cfg, times, n - 1);
    }
  }

  /** One call before `e` is a window old neither purges `e` nor finds its key lapsed. */
  lemma {:induction false} StepKeepsEntry(cfg: Config, cell: Cell<Log>, log: Log, t: int, e: int)
    requires t < e + cfg.window && ExpiresWithNewest(cfg, cell, log) && InRange(log, 0, t - 1)
    requires (cell.Held? && Has(cell.value, e)) <==> Has(log, e)
    requires Has(log, e) ==> e <= log.at
    ensures var out := AllowStep(cfg, cell, t);
            (out.cell.Held? && Has(out.cell.value, e)) <==> Has(log, e) || (out.granted && e == t)
  {
    var members := Members(cell, t);
    PurgeHas(members, t - cfg.window, e);
    InsertHas(Purge(members, t - cfg.window), t, e);
  }

  lemma {:induction false} NewestIsLast(cfg: Config, times: seq<int>, n: nat, e: int)
    requires Increasing(times) && n <= |times| && Has(FullLog(cfg, times, n), e)
    ensures e <= FullLog(cfg, times, n).at
  {
    LogAscends(cfg, times, n);
    AscendingBounds(FullLog(cfg, times, n));
    InRangeHas(FullLog(cfg, times, n), Oldest(FullLog(cfg, times, n)), FullLog(cfg, times, n).at, e);
  }

  lemma {:induction false} LogAscends(cfg: Config, times: seq<int>, n: nat)
    requires Increasing(times) && n <= |times|
    ensures Ascending(FullLog(cfg, times, n))
    ensures FullLog(cfg, times, n).Entry? ==> n > 0 && FullLog(cfg, times, n).at <= times[n - 1]
  {
    if n > 0 {
      LogAscends(cfg, times, n - 1);
    }
  }

  lemma {:induction false} StoreKeepsEntry(cfg: Config, times: seq<int>, n: nat, e: int)
    requires Increasing(times) && n <= |times| && (n > 0 ==> times[n - 1] < e + cfg.window)
    ensures (After(cfg, times, n).Held? && Has(After(cfg, times, n).value, e)) <==> Has(FullLog(cfg, times, n), e)
  {
    if n > 0 {
      StoreKeepsEntry(cfg, times, n - 1, e);
      ExpiryIsNewest(cfg, times, n - 1);
      LogBounds(cfg, times, n - 1, times[n - 1]);
      if Has(FullLog(cfg, times, n - 1), e) {
        NewestIsLast(cfg, times, n - 1, e);
      }
      StepKeepsEntry(cfg, After(cfg, times, n - 1), FullLog(cfg, times, n - 1), times[n - 1], e);
    }
  }

  /** A call at `now` leaves nothing one window old behind. */
  lemma {:induction false} CallClearsEdge(cfg: Config, cell: Cell<Log>, now: int)
    requires Orderly(cfg, cell, now - 1) && 0 <= now && cfg.limit >= 0
    ensures !Has(Members(AllowStep(cfg, cell, now).cell, now), now - cfg.window)
  {
    var e := now - cfg.window;
    var members := Members(cell, now);
    PurgeHas(members, e, e);
    InsertHas(Purge(members, e), now, e);
    if Has(members, e) {
      InRangeHas(members, 0, now - 1, e);
    }
  }

  lemma {:induction false} NewerGrantExists(cfg: Config, times: seq<int>, n: nat, e: int)
    requires Increasing(times) && n <= |times| && Has(FullLog(cfg, times, n), e) && FullLog(cfg, times, n).at > e
    ensures GrantedThenAnother(cfg, times, n, e)
  {
    var newest := FullLog(cfg, times, n).at;
    LogHas(cfg, times, n, e);
    LogHas(cfg, times, n, newest);
    var k: nat :| k < n && Granted(cfg, times, k) && times[k] == e;
    var m: nat :| m < n && Granted(cfg, times, m) && times[m] == newest;
    assert k < m;
  }

  /** Newest grant after `e`, and `e` granted: two grants in that order. */
  lemma {:induction false} NewerGrant(cfg: Config, times: seq<int>, n: nat, e: int)
    requires Increasing(times) && n <= |times|
    ensures Has(FullLog(cfg, times, n), e) && FullLog(cfg, times, n).at > e
            <==> GrantedThenAnother(cfg, times, n, e)
  {
    if Has(FullLog(cfg, times, n), e) && FullLog(cfg, times, n).at > e {
      NewerGrantExists(cfg, times, n, e);
    }
    if k: nat, m: nat :| k < m < n && Granted(cfg, times, k) && times[k] == e && Granted(cfg, times, m) {
      LogHas(cfg, times, n, e);
      LogHas(cfg, times, n, times[m]);
      NewestIsLast(cfg, times, n, times[m]);
    }
  }

  /** The key of an entry one window old is live exactly when a newer grant renewed it. */
  lemma {:induction false} EdgeIsLive(cfg: Config, cell: Cell<Log>, log: Log, now: int)
    requires ExpiresWithNewest(cfg, cell, log)
    requires (cell.Held? && Has(cell.value, now - cfg.window)) <==> Has(log, now - cfg.window)
    ensures Has(Members(cell, now), now - cfg.window)
            <==> Has(log, now - cfg.window) && log.at > now - cfg.window
  {
  }

  lemma {:induction false} EdgeIsInLog(cfg: Config, times: seq<int>, n: nat, now: int)
    requires Increasing(times) && n <= |times| && (n > 0 ==> times[n - 1] < now)
    ensures Has(Members(After(cfg, times, n), now), now - cfg.window)
            <==> Has(FullLog(cfg, times, n), now - cfg.window) && FullLog(cfg, times, n).at > now - cfg.window
  {
    StoreKeepsEntry(cfg, times, n, now - cfg.window);
    ExpiryIsNewest(cfg, times, n);
    EdgeIsLive(cfg, After(cfg, times, n), FullLog(cfg, times, n), now);
  }

  lemma {:induction false} EdgeBetweenCalls(cfg: Config, times: seq<int>, n: nat, now: int)
    requires Increasing(times) && n <= |times| && (n > 0 ==> times[n - 1] < now)
    ensures Has(Members(After(cfg, times, n), now), now - cfg.window)
            <==> GrantedThenAnother(cfg, times, n, now - cfg.window)
  {
    EdgeIsInLog(cfg, times, n, now);
    NewerGrant(cfg, times, n, now - cfg.window);
  }

  lemma {:induction false} EdgeAfterCall(cfg: Config, times: seq<int>, n: nat, now: int)
    requires cfg.limit >= 1 && Increasing(times) && 0 < n <= |times| && times[n - 1] == now
    ensures !Has(Members(After(cfg, times, n), now), now - cfg.window)
    ensures !NoCallAt(times, n, now)
  {
    StoreOrderly(cfg, times, n - 1, now - 1);
    CallClearsEdge(cfg, After(cfg, times, n - 1), now);
  }

  lemma {:induction false} EdgeEntryIsHistory(cfg: Config, times: seq<int>, n: nat, now: int)
    requires cfg.limit >= 1 && Increasing(times) && n <= |times| && (n > 0 ==> times[n - 1] <= now)
    ensures Has(Members(After(cfg, times, n), now), now - cfg.window) <==> EdgeGrantPending(cfg, times, n, now)
  {
    if n > 0 && times[n - 1] == now {
      EdgeAfterCall(cfg, times, n, now);
    } else {
      assert NoCallAt(times, n, now);
      EdgeBetweenCalls(cfg, times, n, now);
    }
  }

  /** Said of the calls alone: `Remaining` differs from what `Allow` has left exactly when a
      grant is one window old to the instant, another came after it, and no call came at `now`. */
  lemma {:induction false} RemainingDiffersIff(cfg: Config, times: seq<int>, n: nat, now: int)
    requires cfg.limit >= 1 && Increasing(times) && n <= |times| && (n > 0 ==> times[n - 1] <= now)
    ensures RemainingAt(cfg, After(cfg, times, n), now)
            != cfg.limit - GrantsWithin(cfg, times, n, now - cfg.window, now)
            <==> EdgeGrantPending(cfg, times, n, now)
  {
    RemainingAgreesIff(cfg, times, n, now);
    EdgeEntryIsHistory(cfg, times, n, now);
  }

  /** Two a window of ten: grants at 0 and 5 leave one at instant 10, yet `Remaining` says none. */
  lemma RemainingUndercounts()
    ensures var cfg, times := Config(2, 10), [0, 5];
            && Increasing(times) && Granted(cfg, times, 0) && Granted(cfg, times, 1)
            && RemainingAt(cfg, After(cfg, times, 2), 10) == 0
            && cfg.limit - GrantsWithin(cfg, times, 2, 0, 10) == 1
  {
    var cfg, times := Config(2, 10), [0, 5];
    var c1 := Held(Entry(Empty, 0), At(10));
    var c2 := Held(Entry(Entry(Empty, 0), 5), At(15));
    assert AllowStep(cfg, Absent, 0) == Outcome(true, c1);
    assert After(cfg, times, 1) == c1;
    assert Purge(c1.value, -5) == c1.value;
    assert AllowStep(cfg, c1, 5) == Outcome(true, c2);
    assert After(cfg, times, 2) == c2;
    assert GrantsWithin(cfg, times, 1, 0, 10) == 0;
    assert CountBetween(c2.value.older, 0, 10) == 1;
  }

  // ---------------------------------------------------------------- Reset after any call

  /** After a call the store is the part of the full log inside that call's window. */
  lemma {:induction false} StoreIsRecentLog(cfg: Config, times: seq<int>, n: nat)
    requires cfg.limit >= 1 && cfg.window >= 1 && Increasing(times) && 0 < n <= |times|
    ensures After(cfg, times, n).Held?
    ensures After(cfg, times, n).value == Purge(FullLog(cfg, times, n), times[n - 1] - cfg.window)
  {
    var cell, log, t := After(cfg, times, n - 1), FullLog(cfg, times, n - 1), times[n - 1];
    StoreTracksLog(cfg, times, n - 1, t);
    LogBounds(cfg, times, n - 1, t);
    StepByLog(cfg, cell, log, t);
    PurgeBounds(log, t - cfg.window, t - 1);
    PurgeKeepsNewest(log, t, t - cfg.window);
  }

  lemma {:induction false} NoRecentGrant(cfg: Config, times: seq<int>, n: nat, from: int, j: nat)
    requires n <= |times| && Purge(FullLog(cfg, times, n), from).Empty? && j < n && Granted(cfg, times, j)
    ensures times[j] <= from
  {
    LogHas(cfg, times, n, times[j]);
    PurgeHas(FullLog(cfg, times, n), from, times[j]);
  }

  ghost predicate FirstGrantAfter(cfg: Config, times: seq<int>, from: int, i: nat)
    requires i < |times|
  {
    && Granted(cfg, times, i) && times[i] > from
    && forall j: nat | j < i && Granted(cfg, times, j) :: times[j] <= from
  }

  lemma {:induction false} LastIsFirstGrant(cfg: Config, times: seq<int>, n: nat, from: int)
    requires n < |times| && Granted(cfg, times, n) && times[n] > from && Purge(FullLog(cfg, times, n), from).Empty?
    ensures FirstGrantAfter(cfg, times, from, n)
  {
    forall j: nat | j < n && Granted(cfg, times, j) ensures times[j] <= from {
      NoRecentGrant(cfg, times, n, from, j);
    }
  }

  lemma PurgeOfEntry(log: Log, t: int, from: int)
    requires 0 <= t && Purge(Entry(log, t), from).Entry?
    ensures Purge(log, from).Entry? ==> Oldest(Purge(Entry(log, t), from)) == Oldest(Purge(log, from))
    ensures Purge(log, from).Empty? ==> t > from && Oldest(Purge(Entry(log, t), from)) == t
  {
  }

  /** The oldest entry the purge leaves is the first grant after `from`. */
  lemma {:induction false} OldestIsFirstGrant(cfg: Config, times: seq<int>, n: nat, from: int) returns (i: nat)
    requires Increasing(times) && n <= |times| && Purge(FullLog(cfg, times, n), from).Entry?
    ensures i < n && FirstGrantAfter(cfg, times, from, i)
    ensures Oldest(Purge(FullLog(cfg, times, n), from)) == times[i]
  {
    var log := FullLog(cfg, times, n - 1);
    if Granted(cfg, times, n - 1) {
      PurgeOfEntry(log, times[n - 1], from);
    }
    if Purge(log, from).Entry? {
      i := OldestIsFirstGrant(cfg, times, n - 1, from);
    } else {
      i := n - 1;
      LastIsFirstGrant(cfg, times, n - 1, from);
    }
  }

  ghost predicate GrantAfter(cfg: Config, times: seq<int>, n: nat, from: int)
    requires n <= |times|
  {
    exists k: nat :: k < n && Granted(cfg, times, k) && times[k] > from
  }

  lemma {:induction false} GrantAfterIsNewest(cfg: Config, times: seq<int>, n: nat, from: int)
    requires Increasing(times) && n <= |times| && FullLog(cfg, times, n).Entry?
    ensures GrantAfter(cfg, times, n, from) <==> FullLog(cfg, times, n).at > from
  {
    LogHas(cfg, times, n, FullLog(cfg, times, n).at);
    if k: nat :| k < n && Granted(cfg, times, k) && times[k] > from {
      LogHas(cfg, times, n, times[k]);
      NewestIsLast(cfg, times, n, times[k]);
    }
  }

  /** The key lives exactly while some grant is less than a window old. */
  lemma {:induction false} LivesWithGrants(cfg: Config, times: seq<int>, n: nat, now: int)
    requires cfg.limit >= 1 && cfg.window >= 1 && Increasing(times) && 0 < n <= |times|
    ensures Live(After(cfg, times, n), now) <==> GrantAfter(cfg, times, n, now - cfg.window)
  {
    StoreIsRecentLog(cfg, times, n);
    ExpiryIsNewest(cfg, times, n);
    GrantAfterIsNewest(cfg, times, n, now - cfg.window);
  }

  lemma {:induction false} RecentLogIsNonempty(cfg: Config, times: seq<int>, n: nat, from: int)
    requires n <= |times| && GrantAfter(cfg, times, n, from)
    ensures Purge(FullLog(cfg, times, n), from).Entry?
  {
    var k: nat :| k < n && Granted(cfg, times, k) && times[k] > from;
    LogHas(cfg, times, n, times[k]);
    PurgeHas(FullLog(cfg, times, n), from, times[k]);
  }

  lemma {:induction false} ResetOfLiveKey(cfg: Config, times: seq<int>, n: nat, now: int) returns (i: nat)
    requires cfg.limit >= 1 && cfg.window >= 1 && Increasing(times) && 0 < n <= |times| && times[n - 1] <= now
    requires GrantAfter(cfg, times, n, now - cfg.window)
    ensures i < n && FirstGrantAfter(cfg, times, times[n - 1] - cfg.window, i)
    ensures ResetAt(cfg, After(cfg, times, n), now) == times[i] + cfg.window
  {
    LivesWithGrants(cfg, times, n, now);
    StoreIsRecentLog(cfg, times, n);
    assert GrantAfter(cfg, times, n, times[n - 1] - cfg.window);
    RecentLogIsNonempty(cfg, times, n, times[n - 1] - cfg.window);
    i := OldestIsFirstGrant(cfg, times, n, times[n - 1] - cfg.window);
  }

  /** Whenever it is asked, after calls granted or denied or none: as long as some grant is less
      than a window old, `Reset` names one window after the first grant inside the window of
      the latest call; otherwise the present instant. */
  lemma {:induction false} ResetIsFirstGrantPlusWindow(cfg: Config, times: seq<int>, n: nat, now: int)
    requires cfg.limit >= 1 && cfg.window >= 1 && Increasing(times) && n <= |times|
    requires n > 0 ==> times[n - 1] <= now
    ensures var reset := ResetAt(cfg, After(cfg, times, n), now);
            if GrantAfter(cfg, times, n, now - cfg.window) then
              n > 0 && exists i: nat ::
                i < n && FirstGrantAfter(cfg, times, times[n - 1] - cfg.window, i) && reset == times[i] + cfg.window
            else reset == now
  {
    if GrantAfter(cfg, times, n, now - cfg.window) {
      var i := ResetOfLiveKey(cfg, times, n, now);
    } else if n > 0 {
      LivesWithGrants(cfg, times, n, now);
    }
  }
}
