/** The sliding-window limiter under concurrency (internal/ratelimit/sliding_window.go:33-55).

    `Allow` reaches Redis several times, so overlapping calls interleave at the
    purge, the count and the add. `Lapse` is the key expiring, at any moment. */
module SlidingOverlaps {
  import opened PendingCalls
  import opened Redis
  import opened SlidingWindows

  /** `CountLive(i)` and `AddEntry(i)` let any waiting call go next, whatever the arrival order. */
  datatype Step = PurgeOld(now: int) | CountLive(i: nat) | AddEntry(i: nat) | Lapse

  /** `purged`: timestamps of the calls about to count. `admitted`: timestamps of the
      calls that counted below the limit and have not added their entry yet. */
  datatype State = State(log: Log, purged: seq<int>, admitted: seq<int>)

  const START: State := State(Empty, [], [])

  predicate Enabled(s: State, step: Step) {
    match step
    case PurgeOld(_) => true
    case CountLive(i) => i < |s.purged|
    case AddEntry(i) => i < |s.admitted|
    case Lapse => true
  }

  /** A step that is not enabled has no effect; `Legal` schedules contain none. */
  function Next(cfg: Config, s: State, step: Step): State {
    if !Enabled(s, step) then s else
    match step
    case PurgeOld(now) =>
      s.(log := Purge(s.log, now - cfg.window), purged := s.purged + [now])
    case CountLive(i) =>
      if Size(s.log) < cfg.limit
      then s.(purged := Without(s.purged, i), admitted := s.admitted + [s.purged[i]])
      else s.(purged := Without(s.purged, i))
    case AddEntry(i) =>
      s.(log := Insert(s.log, s.admitted[i]), admitted := Without(s.admitted, i))
    case Lapse =>
      s.(log := Empty)
  }

  ghost function After(cfg: Config, run: Schedule<Step>): State {
    if run.Idle? then START else Next(cfg, After(cfg, run.before), run.step)
  }

  /** The schedule can happen, and never has more than `overlap` calls between count and add. */
  ghost predicate Legal(cfg: Config, overlap: nat, run: Schedule<Step>) {
    run.Then? ==>
      && Legal(cfg, overlap, run.before)
      && Enabled(After(cfg, run.before), run.step)
      && |After(cfg, run).admitted| <= overlap
  }

  lemma {:induction false} InsertSize(log: Log, t: int)
    ensures Size(Insert(log, t)) <= Size(log) + 1
  {
    if log.Entry? && t < log.at {
      InsertSize(log.older, t);
    }
  }

  /** Stored entries plus pending adds stay within limit + overlap - 1, in every interleaving. */
  lemma {:induction false} OverlapBound(cfg: Config, overlap: nat, run: Schedule<Step>)
    requires cfg.limit >= 1 && overlap >= 1 && Legal(cfg, overlap, run)
    ensures Size(After(cfg, run).log) + |After(cfg, run).admitted| <= cfg.limit + overlap - 1
  {
    if run.Then? {
      OverlapBound(cfg, overlap, run.before);
      var s := After(cfg, run.before);
      match run.step
      case PurgeOld(now) => PurgeShrinks(s.log, now - cfg.window);
      case CountLive(_) =>
      case AddEntry(i) => InsertSize(s.log, s.admitted[i]);
      case Lapse =>
    }
  }

  /** A call that nothing interleaves with does what `AllowStep` says, on a key that does not lapse. */
  lemma {:induction false} CallAlone(cfg: Config, log: Log, now: int)
    ensures var purged := Next(cfg, State(log, [], []), PurgeOld(now));
            var counted := Next(cfg, purged, CountLive(0));
            var out := AllowStep(cfg, Held(log, Never), now);
            && (counted.admitted == [now] <==> out.granted) && (counted.admitted == [] <==> !out.granted)
            && Next(cfg, counted, AddEntry(0)) == State(out.cell.value, [], [])
  {
    assert Without([now], 0) == [];
  }

  // ---------------------------------------------------------------- the bound is reached

  /** The timestamps lo, lo + 1, .., hi - 1. */
  ghost function Stamps(lo: int, hi: int): seq<int>
    decreases hi - lo
  {
    if hi <= lo then [] else [lo] + Stamps(lo + 1, hi)
  }

  lemma {:induction false} StampsSnoc(lo: int, hi: int)
    requires lo <= hi
    ensures Stamps(lo, hi + 1) == Stamps(lo, hi) + [hi] && |Stamps(lo, hi)| == hi - lo
    decreases hi - lo
  {
    if lo < hi {
      StampsSnoc(lo + 1, hi);
    }
  }

  ghost function FirstEntries(n: nat): Log {
    if n == 0 then Empty else Entry(FirstEntries(n - 1), n - 1)
  }

  lemma {:induction false} FirstEntriesSize(n: nat)
    ensures Size(FirstEntries(n)) == n
  {
    if n > 0 {
      FirstEntriesSize(n - 1);
    }
  }

  ghost predicate LeadsTo(cfg: Config, overlap: nat, run: Schedule<Step>, s: State) {
    Legal(cfg, overlap, run) && After(cfg, run) == s
  }

  /** Some legal schedule leads to `s`. */
  ghost predicate Reaches(cfg: Config, overlap: nat, s: State) {
    exists run :: LeadsTo(cfg, overlap, run, s)
  }

  lemma Extend(cfg: Config, overlap: nat, s: State, step: Step, s': State)
    requires Reaches(cfg, overlap, s)
    requires Enabled(s, step) && Next(cfg, s, step) == s' && |s'.admitted| <= overlap
    ensures Reaches(cfg, overlap, s')
  {
    var run :| LeadsTo(cfg, overlap, run, s);
    assert LeadsTo(cfg, overlap, Then(run, step), s');
  }

  lemma {:induction false} CountFirst(cfg: Config, overlap: nat, log: Log, calls: seq<int>, rest: seq<int>,
                   pending: seq<int>, pending': seq<int>)
    requires Reaches(cfg, overlap, State(log, calls, pending)) && Size(log) < cfg.limit && |pending| < overlap
    requires calls != [] && rest == calls[1..] && pending' == pending + [calls[0]]
    ensures Reaches(cfg, overlap, State(log, rest, pending'))
  {
    assert Without(calls, 0) == rest;
    Extend(cfg, overlap, State(log, calls, pending), CountLive(0), State(log, rest, pending'));
  }

  lemma {:induction false} AddFirst(
      cfg: Config, overlap: nat, log: Log, log': Log, calls: seq<int>, rest: seq<int>, waiting: seq<int>)
    requires Reaches(cfg, overlap, State(log, waiting, calls)) && |calls| <= overlap + 1
    requires calls != [] && rest == calls[1..] && log' == Insert(log, calls[0])
    ensures Reaches(cfg, overlap, State(log', waiting, rest))
  {
    assert Without(calls, 0) == rest;
    Extend(cfg, overlap, State(log, waiting, calls), AddEntry(0), State(log', waiting, rest));
  }

  lemma {:induction false} AllPurge(cfg: Config, overlap: nat, m: nat)
    ensures Reaches(cfg, overlap, State(Empty, Stamps(0, m), []))
  {
    if m == 0 {
      assert LeadsTo(cfg, overlap, Idle, START);
    } else {
      AllPurge(cfg, overlap, m - 1);
      StampsSnoc(0, m - 1);
      Extend(cfg, overlap, State(Empty, Stamps(0, m - 1), []), PurgeOld(m - 1), State(Empty, Stamps(0, m), []));
    }
  }

  lemma CountThenAdd(cfg: Config, overlap: nat, m: nat, j: nat)
    requires overlap >= 1 && j + 1 < cfg.limit && j < m
    requires Reaches(cfg, overlap, State(FirstEntries(j), Stamps(j, m), []))
    ensures Reaches(cfg, overlap, State(FirstEntries(j + 1), Stamps(j + 1, m), []))
  {
    FirstEntriesSize(j);
    AddNext(j);
    CountFirst(cfg, overlap, FirstEntries(j), Stamps(j, m), Stamps(j + 1, m), [], [j]);
    AddFirst(cfg, overlap, FirstEntries(j), FirstEntries(j + 1), [j], [], Stamps(j + 1, m));
  }

  lemma {:induction false} FillOneByOne(cfg: Config, overlap: nat, m: nat, j: nat)
    requires overlap >= 1 && j < cfg.limit && j <= m
    ensures Reaches(cfg, overlap, State(FirstEntries(j), Stamps(j, m), []))
    decreases j
  {
    if j == 0 {
      AllPurge(cfg, overlap, m);
    } else {
      FillOneByOne(cfg, overlap, m, j - 1);
      CountThenAdd(cfg, overlap, m, j - 1);
    }
  }

  lemma StampsSplit(base: nat, lo: nat, hi: nat)
    requires base <= lo < hi
    ensures Stamps(lo, hi) != [] && Stamps(lo, hi)[0] == lo && Stamps(lo, hi)[1..] == Stamps(lo + 1, hi)
    ensures |Stamps(base, lo)| == lo - base && Stamps(base, lo + 1) == Stamps(base, lo) + [lo]
  {
    StampsSnoc(base, lo);
  }

  lemma AddNext(n: nat)
    ensures Insert(FirstEntries(n), n) == FirstEntries(n + 1)
  {
  }

  /** `base` entries are stored; of the calls up to `hi`, those before `lo` have counted. */
  ghost function Counting(base: nat, lo: nat, hi: nat): State {
    State(FirstEntries(base), Stamps(lo, hi), Stamps(base, lo))
  }

  /** All calls up to `hi` have counted, and those before `lo` have added their entries. */
  ghost function Adding(lo: nat, hi: nat): State {
    State(FirstEntries(lo), [], Stamps(lo, hi))
  }

  lemma {:induction false} OneMoreCounts(cfg: Config, overlap: nat, base: nat, lo: nat, hi: nat)
    requires base + 1 == cfg.limit && base <= lo < hi == base + overlap
    requires Reaches(cfg, overlap, Counting(base, lo, hi))
    ensures Reaches(cfg, overlap, Counting(base, lo + 1, hi))
  {
    FirstEntriesSize(base);
    StampsSplit(base, lo, hi);
    CountFirst(cfg, overlap, FirstEntries(base), Stamps(lo, hi), Stamps(lo + 1, hi),
               Stamps(base, lo), Stamps(base, lo + 1));
  }

  lemma {:induction false} AllCount(cfg: Config, overlap: nat, base: nat, lo: nat, hi: nat)
    requires base + 1 == cfg.limit && base <= lo <= hi == base + overlap
    requires Reaches(cfg, overlap, Counting(base, lo, hi))
    ensures Reaches(cfg, overlap, Counting(base, hi, hi))
    decreases hi - lo
  {
    if lo < hi {
      OneMoreCounts(cfg, overlap, base, lo, hi);
      AllCount(cfg, overlap, base, lo + 1, hi);
    }
  }

  lemma {:induction false} OneMoreAdds(cfg: Config, overlap: nat, lo: nat, hi: nat)
    requires lo < hi <= lo + overlap + 1
    requires Reaches(cfg, overlap, Adding(lo, hi))
    ensures Reaches(cfg, overlap, Adding(lo + 1, hi))
  {
    StampsSnoc(lo, hi);
    AddNext(lo);
    AddFirst(cfg, overlap, FirstEntries(lo), FirstEntries(lo + 1), Stamps(lo, hi), Stamps(lo + 1, hi), []);
  }

  lemma {:induction false} AllAdd(cfg: Config, overlap: nat, lo: nat, hi: nat)
    requires lo <= hi <= lo + overlap && Reaches(cfg, overlap, Adding(lo, hi))
    ensures Reaches(cfg, overlap, Adding(hi, hi))
    decreases hi - lo
  {
    if lo < hi {
      OneMoreAdds(cfg, overlap, lo, hi);
      AllAdd(cfg, overlap, lo + 1, hi);
    }
  }

  lemma CountingIsAdding(base: nat, hi: nat)
    ensures Counting(base, hi, hi) == Adding(base, hi)
  {
  }

  /** Some schedule stores exactly limit + overlap - 1 entries: the bound cannot be improved. */
  lemma OverlapBoundIsReached(cfg: Config, overlap: nat) returns (run: Schedule<Step>)
    requires cfg.limit >= 1 && overlap >= 1
    ensures Legal(cfg, overlap, run) && Size(After(cfg, run).log) == cfg.limit + overlap - 1
  {
    var base, full := cfg.limit - 1, cfg.limit - 1 + overlap;
    FillOneByOne(cfg, overlap, full, base);
    AllCount(cfg, overlap, base, base, full);
    CountingIsAdding(base, full);
    AllAdd(cfg, overlap, base, full);
    FirstEntriesSize(full);
    run :| LeadsTo(cfg, overlap, run, Adding(full, full));
  }
}
