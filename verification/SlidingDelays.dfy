/** The sliding-window limiter command by command (internal/ratelimit/sliding_window.go:26-59).

    A call reads the clock, then sends four Redis commands: the purge, the count, the add
    and the expiry. Each takes effect at an instant of its own, and the commands of any
    number of calls interleave. The clock moves forward and the key lapses when told to. */
module SlidingDelays {
  import opened PendingCalls
  import opened Redis
  import opened SlidingWindows

  /** `PurgeOld` is ZREMRANGEBYSCORE of a call stamped `stamp`, `CountLive` is ZCARD,
      `AddEntry` is ZADD and `Renew` is EXPIRE. */
  datatype Step =
    | PurgeOld(stamp: int, at: int)
    | CountLive(stamp: int, at: int)
    | AddEntry(stamp: int, at: int)
    | Renew(stamp: int, at: int)

  /** `purged`, `counted`, `added`: timestamps of the calls that have come so far and no
      further; `counted` and `added` hold granted calls only. The rest is bookkeeping.
      `taken`: all timestamps. `grants`: the granted ones. `lost`: the entries that were added
      and not renewed when the key last lapsed. */
  datatype State = State(
    cell: Cell<Log>,
    purged: Log,
    counted: Log,
    added: Log,
    lost: Log,
    taken: Log,
    grants: Log,
    clock: int)

  const START: State := State(Absent, Empty, Empty, Empty, Empty, Empty, Empty, 0)

  /** No two calls read the same instant, and a call acts no earlier than its timestamp. */
  ghost predicate Enabled(s: State, step: Step) {
    && s.clock <= step.at
    && match step
       case PurgeOld(stamp, at) => 0 <= stamp <= at && !Has(s.taken, stamp)
       case CountLive(stamp, _) => Has(s.purged, stamp)
       case AddEntry(stamp, _) => Has(s.counted, stamp)
       case Renew(stamp, _) => Has(s.added, stamp)
  }

  ghost predicate Lapses(s: State, at: int) {
    s.cell.Held? && !Live(s.cell, at)
  }

  /** The clock moves on to `at`, and the key lapses if its time has come. */
  ghost function Advance(s: State, at: int): State {
    if Lapses(s, at) then s.(cell := Absent, lost := s.added, clock := at) else s.(clock := at)
  }

  function Remove(log: Log, t: int): Log {
    if log.Empty? then Empty else if log.at == t then log.older else Entry(Remove(log.older, t), log.at)
  }

  /** What is stored under a key that has not lapsed. */
  function Stored(cell: Cell<Log>): Log {
    if cell.Held? then cell.value else Empty
  }

  /** A sorted set that becomes empty takes its key, and the expiry, with it. */
  function Trimmed(cell: Cell<Log>, upTo: int): Cell<Log> {
    var kept := Purge(Stored(cell), upTo);
    if kept.Empty? then Absent else Held(kept, cell.expiry)
  }

  /** A command on a key whose lapse, if due, has happened. */
  ghost function Act(cfg: Config, s: State, step: Step): State {
    match step
    case PurgeOld(stamp, _) =>
      s.(cell := Trimmed(s.cell, stamp - cfg.window),
         purged := Insert(s.purged, stamp),
         taken := Insert(s.taken, stamp))
    case CountLive(stamp, _) =>
      var decided := s.(purged := Remove(s.purged, stamp));
      if Size(Stored(s.cell)) < cfg.limit
      then decided.(counted := Entry(s.counted, stamp), grants := Insert(s.grants, stamp))
      else decided
    case AddEntry(stamp, _) =>
      s.(cell := Held(Insert(Stored(s.cell), stamp), if s.cell.Held? then s.cell.expiry else Never),
         counted := Remove(s.counted, stamp),
         added := Entry(s.added, stamp))
    case Renew(stamp, at) =>
      s.(cell := if s.cell.Held? then s.cell.(expiry := At(at + cfg.window)) else Absent,
         added := Remove(s.added, stamp))
  }

  ghost function Next(cfg: Config, s: State, step: Step): State {
    Act(cfg, Advance(s, step.at), step)
  }

  ghost function After(cfg: Config, run: Schedule<Step>): State {
    if run.Idle? then START else Next(cfg, After(cfg, run.before), run.step)
  }

  /** Granted calls that have not sent their EXPIRE. */
  ghost function Unfinished(s: State): nat {
    Size(s.counted) + Size(s.added)
  }

  /** The schedule can happen, with at most `overlap` calls between count and expiry. */
  ghost predicate Legal(cfg: Config, overlap: nat, run: Schedule<Step>) {
    run.Then? ==>
      && Legal(cfg, overlap, run.before)
      && Enabled(After(cfg, run.before), run.step)
      && Unfinished(After(cfg, run)) <= overlap
  }

  /** Every call counts at most `delay` after its timestamp. */
  ghost predicate CountsWithin(run: Schedule<Step>, delay: nat) {
    run.Then? ==>
      CountsWithin(run.before, delay) && (run.step.CountLive? ==> run.step.at <= run.step.stamp + delay)
  }

  /** The key never lapses between a call's add and its renewal. */
  ghost predicate KeyOutlivesAdds(cfg: Config, run: Schedule<Step>) {
    run.Then? ==>
      && KeyOutlivesAdds(cfg, run.before)
      && (Lapses(After(cfg, run.before), run.step.at) ==> After(cfg, run.before).added.Empty?)
  }

  // ---------------------------------------------------------------- one call alone

  /** The next call has the key to itself, and an instant no other has read. */
  ghost predicate Sequential(s: State, now: int) {
    && s.purged.Empty? && s.counted.Empty? && s.added.Empty?
    && 0 <= now && s.clock <= now && !Has(s.taken, now) && !Has(s.grants, now)
  }

  /** A call whose commands all come at its timestamp, with no other in between, does what
      `AllowStep` says: granted alike, and the key left alike. */
  lemma {:induction false} CallAlone(cfg: Config, s: State, now: int)
    requires cfg.limit >= 1 && Sequential(s, now)
    ensures var purged := Next(cfg, s, PurgeOld(now, now));
            var counted := Next(cfg, purged, CountLive(now, now));
            var added := Next(cfg, counted, AddEntry(now, now));
            var renewed := Next(cfg, added, Renew(now, now));
            var out := AllowStep(cfg, s.cell, now);
            && Enabled(s, PurgeOld(now, now)) && Enabled(purged, CountLive(now, now))
            && (out.granted <==> Has(counted.grants, now))
            && (!out.granted ==> counted.cell == out.cell && counted.counted.Empty?)
            && (out.granted ==>
                  && Enabled(counted, AddEntry(now, now)) && Enabled(added, Renew(now, now))
                  && (cfg.window >= 1 ==> renewed.cell == out.cell)
                  && renewed.counted.Empty? && renewed.added.Empty?)
  {
    InsertHas(s.grants, now, now);
  }

  // ---------------------------------------------------------------- sorted-set facts

  lemma {:induction false} RemoveHas(log: Log, t: int, g: int)
    ensures g != t ==> (Has(Remove(log, t), g) <==> Has(log, g))
    ensures Has(Remove(log, t), g) ==> Has(log, g)
  {
    if log.Entry? && log.at != t {
      RemoveHas(log.older, t, g);
    }
  }

  lemma {:induction false} RemoveSize(log: Log, t: int)
    requires Has(log, t)
    ensures Size(Remove(log, t)) == Size(log) - 1
  {
    if log.at != t {
      RemoveSize(log.older, t);
    }
  }

  lemma {:induction false} RemoveAscending(log: Log, t: int)
    requires Ascending(log)
    ensures Ascending(Remove(log, t)) && !Has(Remove(log, t), t)
    ensures log.Entry? && Remove(log, t).Entry? ==> Remove(log, t).at <= log.at
  {
    if log.Entry? {
      if log.at != t {
        RemoveAscending(log.older, t);
      } else {
        AscendingBounds(log);
        NotBelow(log.older, t, Oldest(log));
      }
    }
  }

  lemma {:induction false} InsertAscending(log: Log, t: int)
    requires Ascending(log)
    ensures Ascending(Insert(log, t))
    ensures Insert(log, t).at == if log.Entry? && log.at > t then log.at else t
  {
    if log.Entry? && t < log.at {
      InsertAscending(log.older, t);
    }
  }

  ghost function Join(a: Log, b: Log): Log {
    if b.Empty? then a else Entry(Join(a, b.older), b.at)
  }

  lemma {:induction false} JoinHas(a: Log, b: Log, g: int)
    ensures Has(Join(a, b), g) <==> Has(a, g) || Has(b, g)
    ensures Size(Join(a, b)) == Size(a) + Size(b)
  {
    if b.Entry? {
      JoinHas(a, b.older, g);
    }
  }

  ghost predicate AllIn(log: Log, pool: Log) {
    log.Entry? ==> Has(pool, log.at) && AllIn(log.older, pool)
  }

  lemma {:induction false} AllInWithout(log: Log, pool: Log, t: int)
    requires AllIn(log, pool) && !Has(log, t)
    ensures AllIn(log, Remove(pool, t))
  {
    if log.Entry? {
      AllInWithout(log.older, pool, t);
      RemoveHas(pool, t, log.at);
    }
  }

  /** Distinct timestamps that all occur in a pool are no more than the pool holds. */
  lemma {:induction false} Pigeonhole(log: Log, pool: Log)
    requires Ascending(log) && AllIn(log, pool)
    ensures Size(log) <= Size(pool)
  {
    if log.Entry? {
      AscendingBounds(log);
      NotBelow(log.older, log.at, Oldest(log));
      AllInWithout(log.older, pool, log.at);
      Pigeonhole(log.older, Remove(pool, log.at));
      RemoveSize(pool, log.at);
    }
  }

  lemma {:induction false} CountIsRecent(log: Log, from: int, lo: int, hi: int)
    requires from < lo
    ensures CountBetween(log, lo, hi) <= Size(Purge(log, from))
  {
    if log.Entry? {
      CountIsRecent(log.older, from, lo, hi);
    }
  }

  lemma {:induction false} CountAfterInsert(log: Log, t: int, lo: int, hi: int)
    ensures !(lo <= t <= hi) ==> CountBetween(Insert(log, t), lo, hi) == CountBetween(log, lo, hi)
  {
    if log.Entry? && t < log.at {
      CountAfterInsert(log.older, t, lo, hi);
    }
  }

  // ---------------------------------------------------------------- every call is in one place

  ghost predicate Tidy(s: State) {
    Ascending(s.purged) && Ascending(s.grants)
  }

  /** What is known of one timestamp. */
  ghost predicate Placed(s: State, g: int) {
    && (Has(s.taken, g) ==> 0 <= g <= s.clock)
    && (Has(s.purged, g) ==> Has(s.taken, g) && !Has(s.grants, g))
    && (Has(s.counted, g) || Has(s.added, g) || Has(s.lost, g) ==> Has(s.grants, g))
    && (Has(s.grants, g) ==> Has(s.taken, g))
  }

  /** A granted timestamp inside the window is stored, on its way, or lost in a lapse. */
  ghost predicate Known(cfg: Config, s: State, g: int) {
    Has(s.grants, g) && g > s.clock - cfg.window ==>
      Has(Stored(s.cell), g) || Has(s.counted, g) || Has(s.added, g) || Has(s.lost, g)
  }

  /** An added timestamp inside the window is stored or lost. */
  ghost predicate Landed(cfg: Config, s: State, g: int) {
    Has(s.added, g) && g > s.clock - cfg.window ==> Has(Stored(s.cell), g) || Has(s.lost, g)
  }

  /** What the next lapse would forget is still on its way, and what the last one lost is old by then. */
  ghost predicate Renewed(cfg: Config, s: State, g: int) {
    s.cell.Held? && s.cell.expiry.At? ==>
      && (Has(s.grants, g) && g > s.cell.expiry.instant - cfg.window ==> Has(s.counted, g) || Has(s.added, g))
      && (Has(s.lost, g) ==> g <= s.cell.expiry.instant - cfg.window)
  }

  ghost predicate Inv(cfg: Config, s: State, g: int) {
    Tidy(s) && Placed(s, g) && Known(cfg, s, g) && Landed(cfg, s, g) && Renewed(cfg, s, g)
  }

  lemma AdvanceKeeps(cfg: Config, s: State, at: int, g: int)
    requires Inv(cfg, s, g) && s.clock <= at
    ensures Inv(cfg, Advance(s, at), g)
  {
  }

  lemma PurgeKeeps(cfg: Config, s: State, step: Step, g: int)
    requires step.PurgeOld? && Inv(cfg, s, g) && Enabled(s, step) && s.clock == step.at
    ensures Inv(cfg, Act(cfg, s, step), g)
  {
    PurgeHas(Stored(s.cell), step.stamp - cfg.window, g);
    InsertHas(s.purged, step.stamp, g);
    InsertHas(s.taken, step.stamp, g);
    InsertAscending(s.purged, step.stamp);
  }

  lemma CountKeeps(cfg: Config, s: State, step: Step, g: int)
    requires step.CountLive? && Inv(cfg, s, g) && Enabled(s, step) && s.clock == step.at
    ensures Inv(cfg, Act(cfg, s, step), g)
  {
    RemoveHas(s.purged, step.stamp, g);
    RemoveAscending(s.purged, step.stamp);
    InsertHas(s.grants, step.stamp, g);
    InsertAscending(s.grants, step.stamp);
  }

  lemma AddKeeps(cfg: Config, s: State, step: Step, g: int)
    requires step.AddEntry? && Inv(cfg, s, g) && Enabled(s, step) && s.clock == step.at
    ensures Inv(cfg, Act(cfg, s, step), g)
  {
    InsertHas(Stored(s.cell), step.stamp, g);
    RemoveHas(s.counted, step.stamp, g);
  }

  lemma RenewKeeps(cfg: Config, s: State, step: Step, g: int)
    requires step.Renew? && Inv(cfg, s, g) && Enabled(s, step) && s.clock == step.at
    ensures Inv(cfg, Act(cfg, s, step), g)
  {
    RemoveHas(s.added, step.stamp, g);
  }

  lemma StepKeeps(cfg: Config, s: State, step: Step, g: int)
    requires Inv(cfg, s, g) && Enabled(s, step)
    ensures Inv(cfg, Next(cfg, s, step), g)
  {
    var ready := Advance(s, step.at);
    AdvanceKeeps(cfg, s, step.at, g);
    match step
    case PurgeOld(_, _) => PurgeKeeps(cfg, ready, step, g);
    case CountLive(_, _) => CountKeeps(cfg, ready, step, g);
    case AddEntry(_, _) => AddKeeps(cfg, ready, step, g);
    case Renew(_, _) => RenewKeeps(cfg, ready, step, g);
  }

  lemma {:induction false} RunKeeps(cfg: Config, overlap: nat, run: Schedule<Step>, g: int)
    requires Legal(cfg, overlap, run)
    ensures Inv(cfg, After(cfg, run), g)
  {
    if run.Then? {
      RunKeeps(cfg, overlap, run.before, g);
      StepKeeps(cfg, After(cfg, run.before), run.step, g);
    }
  }

  // ---------------------------------------------------------------- counting what is known

  lemma {:induction false} RecentAllIn(log: Log, from: int, pool: Log)
    requires forall g | Has(log, g) :: 0 <= g && (g > from ==> Has(pool, g))
    ensures AllIn(Purge(log, from), pool)
  {
    if log.Entry? {
      assert Has(log, log.at);
      forall g | Has(log.older, g) ensures 0 <= g && (g > from ==> Has(pool, g)) {
        assert Has(log, g);
      }
      RecentAllIn(log.older, from, pool);
    }
  }

  /** The lost entries that are inside the window. */
  ghost function Missing(cfg: Config, s: State): Log {
    Purge(s.lost, s.clock - cfg.window)
  }

  lemma RecentGrants(cfg: Config, s: State)
    requires forall g :: Inv(cfg, s, g)
    ensures var from := s.clock - cfg.window;
            Size(Purge(s.grants, from)) <= Size(Stored(s.cell)) + Unfinished(s) + Size(Missing(cfg, s))
  {
    var from := s.clock - cfg.window;
    var underway, missing := Join(s.counted, s.added), Missing(cfg, s);
    var pool := Join(Stored(s.cell), Join(underway, missing));
    forall g | Has(s.grants, g) ensures 0 <= g && (g > from ==> Has(pool, g)) {
      assert Inv(cfg, s, g);
      PurgeHas(s.lost, from, g);
      JoinHas(s.counted, s.added, g);
      JoinHas(underway, missing, g);
      JoinHas(Stored(s.cell), Join(underway, missing), g);
    }
    RecentAllIn(s.grants, from, pool);
    assert Inv(cfg, s, 0);
    PurgeAscending(s.grants, from);
    Pigeonhole(Purge(s.grants, from), pool);
    JoinHas(s.counted, s.added, 0);
    JoinHas(underway, missing, 0);
    JoinHas(Stored(s.cell), Join(underway, missing), 0);
  }

  lemma {:induction false} InsertRecent(log: Log, t: int, from: int)
    ensures Size(Purge(Insert(log, t), from)) <= Size(Purge(log, from)) + 1
  {
    if log.Entry? && t < log.at {
      InsertRecent(log.older, t, from);
    }
  }

  lemma GrantFits(cfg: Config, overlap: nat, s: State, step: Step)
    requires forall g :: Inv(cfg, s, g)
    requires step.CountLive? && s.clock == step.at
    requires Act(cfg, s, step).grants != s.grants && Unfinished(Act(cfg, s, step)) <= overlap
    ensures Size(Purge(Act(cfg, s, step).grants, step.at - cfg.window)) 
            <= cfg.limit + overlap - 1 + Size(Missing(cfg, s))
  {
    RecentGrants(cfg, s);
    InsertRecent(s.grants, step.stamp, step.at - cfg.window);
  }

  // ---------------------------------------------------------------- grants per span

  /** At no time are more than `most` of the entries inside the window lost. */
  ghost predicate LosesAtMost(cfg: Config, run: Schedule<Step>, most: nat) {
    Size(Missing(cfg, After(cfg, run))) <= most && (run.Then? ==> LosesAtMost(cfg, run.before, most))
  }

  lemma {:induction false} LossesAreUnfinished(cfg: Config, overlap: nat, run: Schedule<Step>)
    requires Legal(cfg, overlap, run)
    ensures LosesAtMost(cfg, run, overlap)
    ensures Unfinished(After(cfg, run)) <= overlap && Size(After(cfg, run).lost) <= overlap
  {
    PurgeShrinks(After(cfg, run).lost, After(cfg, run).clock - cfg.window);
    if run.Then? {
      LossesAreUnfinished(cfg, overlap, run.before);
    }
  }

  lemma {:induction false} NothingIsLost(cfg: Config, run: Schedule<Step>)
    requires KeyOutlivesAdds(cfg, run)
    ensures LosesAtMost(cfg, run, 0) && After(cfg, run).lost.Empty?
  {
    if run.Then? {
      NothingIsLost(cfg, run.before);
    }
  }

  /** With a limit of one a grant finds no key, so whatever a lapse loses is a window old. */
  ghost predicate OldWhenLost(cfg: Config, s: State, g: int) {
    && (s.cell.Held? ==> s.cell.value.Entry?)
    && (s.cell.Held? && s.cell.expiry.At? && Has(s.grants, g) ==> g <= s.cell.expiry.instant - cfg.window)
    && (Has(s.lost, g) ==> g <= s.clock - cfg.window)
  }

  lemma AdvanceKeepsOld(cfg: Config, s: State, at: int, g: int)
    requires OldWhenLost(cfg, s, g) && Placed(s, g) && s.clock <= at
    ensures OldWhenLost(cfg, Advance(s, at), g)
  {
  }

  lemma ActKeepsOld(cfg: Config, s: State, step: Step, g: int)
    requires cfg.limit == 1 && OldWhenLost(cfg, s, g) && Placed(s, g) && Enabled(s, step) && s.clock == step.at
    ensures OldWhenLost(cfg, Act(cfg, s, step), g)
  {
  }

  lemma {:induction false} RunKeepsOld(cfg: Config, overlap: nat, run: Schedule<Step>, g: int)
    requires cfg.limit == 1 && Legal(cfg, overlap, run)
    ensures OldWhenLost(cfg, After(cfg, run), g)
  {
    if run.Then? {
      var s := After(cfg, run.before);
      RunKeepsOld(cfg, overlap, run.before, g);
      RunKeeps(cfg, overlap, run.before, g);
      AdvanceKeeps(cfg, s, run.step.at, g);
      AdvanceKeepsOld(cfg, s, run.step.at, g);
      ActKeepsOld(cfg, Advance(s, run.step.at), run.step, g);
    }
  }

  lemma {:induction false} AllOld(log: Log, from: int)
    requires forall g | Has(log, g) :: 0 <= g <= from
    ensures Purge(log, from) == Empty
  {
    if log.Entry? {
      assert Has(log, log.at);
      forall g | Has(log.older, g) ensures 0 <= g <= from {
        assert Has(log, g);
      }
      AllOld(log.older, from);
    }
  }

  lemma {:induction false} LimitOneLosesNothing(cfg: Config, overlap: nat, run: Schedule<Step>)
    requires cfg.limit == 1 && Legal(cfg, overlap, run)
    ensures LosesAtMost(cfg, run, 0)
  {
    var s := After(cfg, run);
    forall g | Has(s.lost, g) ensures 0 <= g <= s.clock - cfg.window {
      RunKeepsOld(cfg, overlap, run, g);
      RunKeeps(cfg, overlap, run, g);
    }
    AllOld(s.lost, s.clock - cfg.window);
    if run.Then? {
      LimitOneLosesNothing(cfg, overlap, run.before);
    }
  }

  lemma {:induction false} LastGrantFits(cfg: Config, overlap: nat, run: Schedule<Step>, most: nat)
    requires Legal(cfg, overlap, run) && run.Then? && LosesAtMost(cfg, run, most)
    requires run.step.CountLive? && After(cfg, run).grants != After(cfg, run.before).grants
    ensures Size(Purge(After(cfg, run).grants, run.step.at - cfg.window)) <= cfg.limit + overlap - 1 + most
  {
    var s := After(cfg, run.before);
    var ready := Advance(s, run.step.at);
    forall g ensures Inv(cfg, ready, g) {
      RunKeeps(cfg, overlap, run.before, g);
      AdvanceKeeps(cfg, s, run.step.at, g);
    }
    GrantFits(cfg, overlap, ready, run.step);
  }

  lemma {:induction false} SpanBound(
      cfg: Config, overlap: nat, delay: nat, run: Schedule<Step>, most: nat, a: int)
    requires cfg.limit >= 1 && Legal(cfg, overlap, run) && CountsWithin(run, delay) && LosesAtMost(cfg, run, most)
    ensures CountBetween(After(cfg, run).grants, a + 1, a + cfg.window - delay) <= cfg.limit + overlap - 1 + most
  {
    if run.Then? {
      SpanBound(cfg, overlap, delay, run.before, most, a);
      var before, after := After(cfg, run.before).grants, After(cfg, run).grants;
      if before != after {
        CountAfterInsert(before, run.step.stamp, a + 1, a + cfg.window - delay);
        if a < run.step.stamp <= a + cfg.window - delay {
          LastGrantFits(cfg, overlap, run, most);
          CountIsRecent(after, run.step.at - cfg.window, a + 1, a + cfg.window - delay);
        }
      }
    }
  }

  /** However the commands interleave: when every call counts within `delay` of its timestamp
      and at most `overlap` calls are between count and expiry, no half-open span of
      window - delay holds more than limit + 2 * overlap - 1 granted timestamps. */
  lemma {:induction false} DelayedCallsBound(cfg: Config, overlap: nat, delay: nat, run: Schedule<Step>, a: int)
    requires cfg.limit >= 1 && Legal(cfg, overlap, run) && CountsWithin(run, delay)
    ensures CountBetween(After(cfg, run).grants, a + 1, a + cfg.window - delay) <= cfg.limit + 2 * overlap - 1
  {
    LossesAreUnfinished(cfg, overlap, run);
    SpanBound(cfg, overlap, delay, run, overlap, a);
  }

  /** When the key never lapses between a call's add and its expiry, limit + overlap - 1. */
  lemma {:induction false} OutlivedCallsBound(cfg: Config, overlap: nat, delay: nat, run: Schedule<Step>, a: int)
    requires cfg.limit >= 1 && Legal(cfg, overlap, run) && CountsWithin(run, delay) && KeyOutlivesAdds(cfg, run)
    ensures CountBetween(After(cfg, run).grants, a + 1, a + cfg.window - delay) <= cfg.limit + overlap - 1
  {
    NothingIsLost(cfg, run);
    SpanBound(cfg, overlap, delay, run, 0, a);
  }

  /** With a limit of one the lapses do not matter: at most `overlap`. */
  lemma {:induction false} LimitOneBound(cfg: Config, overlap: nat, delay: nat, run: Schedule<Step>, a: int)
    requires cfg.limit == 1 && Legal(cfg, overlap, run) && CountsWithin(run, delay)
    ensures CountBetween(After(cfg, run).grants, a + 1, a + cfg.window - delay) <= overlap
  {
    LimitOneLosesNothing(cfg, overlap, run);
    SpanBound(cfg, overlap, delay, run, 0, a);
  }

  /** A run that meets every condition of `OutlivedCallsBound` and ends in `s`. */
  ghost predicate Sound(cfg: Config, overlap: nat, delay: nat, run: Schedule<Step>, s: State) {
    Legal(cfg, overlap, run) && CountsWithin(run, delay) && KeyOutlivesAdds(cfg, run) && After(cfg, run) == s
  }

  lemma ExtendSound(cfg: Config, overlap: nat, delay: nat, run: Schedule<Step>, s: State, step: Step, next: State)
    requires Sound(cfg, overlap, delay, run, s) && Enabled(s, step) && Next(cfg, s, step) == next
    requires Unfinished(next) <= overlap && (step.CountLive? ==> step.at <= step.stamp + delay)
    requires Lapses(s, step.at) ==> s.added.Empty?
    ensures Sound(cfg, overlap, delay, Then(run, step), next)
  {
  }

  /** One call alone: all its commands at instant 1. */
  lemma FirstCall(window: int, delay: nat) returns (run: Schedule<Step>)
    requires window >= 1
    ensures var one := Entry(Empty, 1);
            Sound(Config(1, window), 1, delay, run,
                  State(Held(one, At(1 + window)), Empty, Empty, Empty, Empty, one, one, 1))
  {
    var cfg, one := Config(1, window), Entry(Empty, 1);
    var s1 := State(Absent, one, Empty, Empty, Empty, one, Empty, 1);
    var s2 := State(Absent, Empty, one, Empty, Empty, one, one, 1);
    var s3 := State(Held(one, Never), Empty, Empty, one, Empty, one, one, 1);
    var s4 := State(Held(one, At(1 + window)), Empty, Empty, Empty, Empty, one, one, 1);
    ExtendSound(cfg, 1, delay, Idle, START, PurgeOld(1, 1), s1);
    var r1 := Then(Idle, PurgeOld(1, 1));
    ExtendSound(cfg, 1, delay, r1, s1, CountLive(1, 1), s2);
    var r2 := Then(r1, CountLive(1, 1));
    ExtendSound(cfg, 1, delay, r2, s2, AddEntry(1, 1), s3);
    var r3 := Then(r2, AddEntry(1, 1));
    ExtendSound(cfg, 1, delay, r3, s3, Renew(1, 1), s4);
    run := Then(r3, Renew(1, 1));
  }

  /** Nor may that span be longer: with a limit of one and calls that never overlap, a count
      `delay` late finds the key just lapsed, and two timestamps window - delay apart are granted. */
  lemma StalledCallExceedsBound(window: int, delay: nat) returns (run: Schedule<Step>)
    requires 1 <= delay < window
    ensures var cfg := Config(1, window);
            && Legal(cfg, 1, run) && CountsWithin(run, delay) && KeyOutlivesAdds(cfg, run)
            && CountBetween(After(cfg, run).grants, 1, 1 + window - delay) == 2
  {
    var cfg, late, one := Config(1, window), 1 + window - delay, Entry(Empty, 1);
    var two := Entry(one, late);
    var s4 := State(Held(one, At(1 + window)), Empty, Empty, Empty, Empty, one, one, 1);
    var s5 := State(Absent, Entry(Empty, late), Empty, Empty, Empty, two, one, 1 + window);
    var s6 := State(Absent, Empty, Entry(Empty, late), Empty, Empty, two, two, 1 + window);
    var r4 := FirstCall(window, delay);
    ExtendSound(cfg, 1, delay, r4, s4, PurgeOld(late, 1 + window), s5);
    var r5 := Then(r4, PurgeOld(late, 1 + window));
    ExtendSound(cfg, 1, delay, r5, s5, CountLive(late, 1 + window), s6);
    run := Then(r5, CountLive(late, 1 + window));
    assert CountBetween(one, 1, late) == 1;
  }
}
