/** A schedule that reaches the bound of `SlidingDelays.DelayedCallsBound`.

    One call at instant 0 sets the key to lapse after a window. Just before that, `overlap`
    calls count together and add their entries; the key lapses, and their renewals come too
    late. The new key then takes limit - 1 calls one by one and `overlap` more together. */
module SlidingLapses {
  import opened PendingCalls
  import opened Redis
  import opened SlidingWindows
  import opened SlidingDelays

  ghost predicate LeadsTo(cfg: Config, overlap: nat, run: Schedule<Step>, s: State) {
    Legal(cfg, overlap, run) && CountsWithin(run, 0) && SlidingDelays.After(cfg, run) == s
  }

  ghost predicate Reaches(cfg: Config, overlap: nat, s: State) {
    exists run :: LeadsTo(cfg, overlap, run, s)
  }

  /** One step on from `s`, with no delay before a count. */
  ghost predicate Follows(cfg: Config, overlap: nat, s: State, step: Step, next: State) {
    && Enabled(s, step) && Next(cfg, s, step) == next
    && Unfinished(next) <= overlap && (step.CountLive? ==> step.at <= step.stamp)
  }

  lemma ReachNext(cfg: Config, overlap: nat, s: State, step: Step, next: State)
    requires Reaches(cfg, overlap, s) && Follows(cfg, overlap, s, step, next)
    ensures Reaches(cfg, overlap, next)
  {
    var run :| LeadsTo(cfg, overlap, run, s);
    assert LeadsTo(cfg, overlap, Then(run, step), next);
  }

  // ---------------------------------------------------------------- one call

  /** A call stamped `t` would find no other between purge and count, the key alive, and nothing to purge. */
  ghost predicate Ready(cfg: Config, s: State, t: int) {
    && s.purged.Empty? && s.taken == s.grants && InRange(s.grants, 0, t - 1) && 0 <= t && s.clock <= t
    && !Lapses(s, t) && (s.cell.Held? ==> s.cell.value.Entry?)
    && InRange(Stored(s.cell), t - cfg.window + 1, t - 1) && Size(Stored(s.cell)) < cfg.limit
  }

  ghost function Purged(s: State, t: int): State {
    s.(purged := Entry(Empty, t), taken := Entry(s.grants, t), clock := t)
  }

  ghost function Counted(s: State, t: int): State {
    s.(counted := Entry(s.counted, t), taken := Entry(s.grants, t), grants := Entry(s.grants, t), clock := t)
  }

  ghost function Added(s: State, t: int): State {
    var expiry := if s.cell.Held? then s.cell.expiry else Never;
    Counted(s, t).(cell := Held(Entry(Stored(s.cell), t), expiry), counted := Empty, added := Entry(Empty, t))
  }

  ghost function Done(cfg: Config, s: State, t: int): State {
    Added(s, t).(cell := Held(Entry(Stored(s.cell), t), At(t + cfg.window)), added := Empty)
  }

  lemma CountFollows(cfg: Config, overlap: nat, s: State, t: int)
    requires Ready(cfg, s, t) && Unfinished(s) < overlap
    ensures Follows(cfg, overlap, s, PurgeOld(t, t), Purged(s, t))
    ensures Follows(cfg, overlap, Purged(s, t), CountLive(t, t), Counted(s, t))
  {
    NotBelow(s.grants, t, 0);
    PurgeNone(Stored(s.cell), t - cfg.window, t - 1);
  }

  lemma FinishFollows(cfg: Config, overlap: nat, s: State, t: int)
    requires Ready(cfg, s, t) && s.counted.Empty? && s.added.Empty? && overlap >= 1
    ensures Follows(cfg, overlap, Counted(s, t), AddEntry(t, t), Added(s, t))
    ensures Follows(cfg, overlap, Added(s, t), Renew(t, t), Done(cfg, s, t))
  {
  }

  lemma ReachCounted(cfg: Config, overlap: nat, s: State, t: int, next: State)
    requires Reaches(cfg, overlap, s) && Ready(cfg, s, t) && Unfinished(s) < overlap && Counted(s, t) == next
    ensures Reaches(cfg, overlap, next)
  {
    CountFollows(cfg, overlap, s, t);
    ReachNext(cfg, overlap, s, PurgeOld(t, t), Purged(s, t));
    ReachNext(cfg, overlap, Purged(s, t), CountLive(t, t), next);
  }

  /** A call that runs all its commands at its timestamp. */
  lemma ReachDone(cfg: Config, overlap: nat, s: State, t: int, next: State)
    requires Reaches(cfg, overlap, s) && Ready(cfg, s, t) && s.counted.Empty? && s.added.Empty? && overlap >= 1
    requires Done(cfg, s, t) == next
    ensures Reaches(cfg, overlap, next)
  {
    ReachCounted(cfg, overlap, s, t, Counted(s, t));
    FinishFollows(cfg, overlap, s, t);
    ReachNext(cfg, overlap, Counted(s, t), AddEntry(t, t), Added(s, t));
    ReachNext(cfg, overlap, Added(s, t), Renew(t, t), next);
  }

  // ---------------------------------------------------------------- consecutive timestamps

  /** The timestamps lo, lo + 1, .. hi - 1. */
  ghost function Span(lo: int, hi: int): Log
    decreases hi - lo
  {
    if hi <= lo then Empty else Entry(Span(lo, hi - 1), hi - 1)
  }

  lemma {:induction false} SpanFacts(lo: int, hi: int, from: int, to: int)
    requires lo <= hi && from <= lo && hi <= to + 1
    ensures Size(Span(lo, hi)) == hi - lo && InRange(Span(lo, hi), from, to)
    decreases hi - lo
  {
    if lo < hi {
      SpanFacts(lo, hi - 1, from, to);
    }
  }

  lemma {:induction false} SpanRemoveFirst(lo: int, hi: int)
    requires lo < hi
    ensures Has(Span(lo, hi), lo) && Remove(Span(lo, hi), lo) == Span(lo + 1, hi)
    decreases hi - lo
  {
    if lo + 1 < hi {
      SpanRemoveFirst(lo, hi - 1);
    }
  }

  /** Timestamp 0, then lo .. hi - 1. */
  ghost function ZeroAnd(lo: int, hi: int): Log {
    Join(Entry(Empty, 0), Span(lo, hi))
  }

  lemma {:induction false} ZeroAndFacts(lo: int, hi: int)
    requires 1 <= lo <= hi
    ensures InRange(ZeroAnd(lo, hi), 0, hi - 1) && ZeroAnd(lo, hi + 1) == Entry(ZeroAnd(lo, hi), hi)
    decreases hi - lo
  {
    if lo < hi {
      ZeroAndFacts(lo, hi - 1);
      Widen(ZeroAnd(lo, hi - 1), 0, hi - 2, 0, hi - 1);
    }
  }

  lemma {:induction false} ZeroAndCount(lo: int, hi: int, to: int)
    requires 1 <= lo <= hi <= to + 1
    ensures CountBetween(ZeroAnd(lo, hi), lo, to) == hi - lo
    decreases hi - lo
  {
    if lo < hi {
      ZeroAndCount(lo, hi - 1, to);
    }
  }

  // ---------------------------------------------------------------- the schedule

  /** `base` is the first timestamp after 0. */
  datatype Worst = Worst(cfg: Config, overlap: nat, base: int) {
    ghost predicate Valid() {
      cfg.limit >= 2 && overlap >= 1 && base == cfg.window - overlap && cfg.window >= cfg.limit + 2 * overlap
    }

    ghost predicate CanReach(s: State) {
      Reaches(cfg, overlap, s)
    }

    /** `n` calls stamped just before the key lapses have counted. */
    ghost function Crowd(n: nat): State {
      var all := ZeroAnd(base, base + n);
      var cell := Held(Entry(Empty, 0), At(cfg.window));
      State(cell, Empty, Span(base, base + n), Empty, Empty, all, all, if n == 0 then 0 else base + n - 1)
    }

    /** `n` of them have added their entries. */
    ghost function Adding(n: nat): State {
      var all := ZeroAnd(base, cfg.window);
      var cell := Held(ZeroAnd(base, base + n), At(cfg.window));
      State(cell, Empty, Span(base + n, cfg.window), Span(base, base + n), Empty, all, all, cfg.window - 1)
    }

    /** The key has lapsed; all but `n` of them have renewed in vain. */
    ghost function Lapsed(n: nat): State {
      var all := ZeroAnd(base, cfg.window);
      State(Absent, Empty, Empty, Span(base, base + n), Span(base, cfg.window), all, all, cfg.window)
    }

    /** `n` calls that do not overlap have filled the new key. */
    ghost function Refilled(n: nat): State {
      var end := cfg.window + n;
      var all := ZeroAnd(base, end);
      var cell := if n == 0 then Absent else Held(Span(cfg.window, end), At(end - 1 + cfg.window));
      State(cell, Empty, Empty, Empty, Span(base, cfg.window), all, all, if n == 0 then end else end - 1)
    }

    /** The new key is one short of the limit, and `n` calls have counted together. */
    ghost function Crowded(n: nat): State {
      var full := cfg.window + cfg.limit - 1;
      var all := ZeroAnd(base, full + n);
      var cell := Held(Span(cfg.window, full), At(full - 1 + cfg.window));
      State(cell, Empty, Span(full, full + n), Empty, Span(base, cfg.window), all, all, full + n - 1)
    }
  }

  lemma FirstCallIsDone(w: Worst)
    requires w.Valid()
    ensures Ready(w.cfg, START, 0) && Done(w.cfg, START, 0) == w.Crowd(0)
  {
  }

  lemma PhasesMeet(w: Worst)
    requires w.Valid()
    ensures w.Crowd(w.overlap) == w.Adding(0)
    ensures w.Lapsed(0) == w.Refilled(0)
    ensures w.Refilled(w.cfg.limit - 1) == w.Crowded(0)
  {
  }

  lemma CrowdGrows(w: Worst, n: nat)
    requires w.Valid() && n < w.overlap
    ensures Ready(w.cfg, w.Crowd(n), w.base + n) && Unfinished(w.Crowd(n)) == n
    ensures Counted(w.Crowd(n), w.base + n) == w.Crowd(n + 1)
  {
    SpanFacts(w.base, w.base + n, w.base, w.base + n);
    ZeroAndFacts(w.base, w.base + n);
  }

  lemma OneMoreCounts(w: Worst, n: nat)
    requires w.Valid() && 0 < n <= w.overlap && w.CanReach(w.Crowd(n - 1))
    ensures w.CanReach(w.Crowd(n))
  {
    CrowdGrows(w, n - 1);
    ReachCounted(w.cfg, w.overlap, w.Crowd(n - 1), w.base + n - 1, w.Crowd(n));
  }

  lemma {:induction false} ReachCrowd(w: Worst, n: nat)
    requires w.Valid() && n <= w.overlap
    ensures w.CanReach(w.Crowd(n))
  {
    if n == 0 {
      FirstCallIsDone(w);
      assert LeadsTo(w.cfg, w.overlap, Idle, START);
      ReachDone(w.cfg, w.overlap, START, 0, w.Crowd(0));
    } else {
      ReachCrowd(w, n - 1);
      OneMoreCounts(w, n);
    }
  }

  lemma AddingFollows(w: Worst, n: nat)
    requires w.Valid() && n < w.overlap
    ensures Follows(w.cfg, w.overlap, w.Adding(n), AddEntry(w.base + n, w.cfg.window - 1), w.Adding(n + 1))
  {
    var t := w.base + n;
    SpanRemoveFirst(t, w.cfg.window);
    ZeroAndFacts(w.base, t);
    SpanFacts(t + 1, w.cfg.window, 0, w.cfg.window);
    SpanFacts(w.base, t + 1, 0, w.cfg.window);
  }

  lemma OneMoreAdds(w: Worst, n: nat)
    requires w.Valid() && 0 < n <= w.overlap && w.CanReach(w.Adding(n - 1))
    ensures w.CanReach(w.Adding(n))
  {
    AddingFollows(w, n - 1);
    ReachNext(w.cfg, w.overlap, w.Adding(n - 1), AddEntry(w.base + n - 1, w.cfg.window - 1), w.Adding(n));
  }

  lemma {:induction false} ReachAdding(w: Worst, n: nat)
    requires w.Valid() && n <= w.overlap
    ensures w.CanReach(w.Adding(n))
  {
    if n == 0 {
      ReachCrowd(w, w.overlap);
      PhasesMeet(w);
    } else {
      ReachAdding(w, n - 1);
      OneMoreAdds(w, n);
    }
  }

  lemma LapsedFollows(w: Worst, n: nat)
    requires w.Valid() && n < w.overlap
    ensures Follows(w.cfg, w.overlap, if n + 1 == w.overlap then w.Adding(w.overlap) else w.Lapsed(n + 1),
                    Renew(w.base + n, w.cfg.window), w.Lapsed(n))
  {
    SpanFacts(w.base, w.base + n, 0, w.cfg.window);
  }

  lemma {:induction false} ReachLapsed(w: Worst, n: nat)
    requires w.Valid() && n < w.overlap
    ensures w.CanReach(w.Lapsed(n))
    decreases w.overlap - n
  {
    LapsedFollows(w, n);
    if n + 1 == w.overlap {
      ReachAdding(w, w.overlap);
      ReachNext(w.cfg, w.overlap, w.Adding(w.overlap), Renew(w.base + n, w.cfg.window), w.Lapsed(n));
    } else {
      ReachLapsed(w, n + 1);
      ReachNext(w.cfg, w.overlap, w.Lapsed(n + 1), Renew(w.base + n, w.cfg.window), w.Lapsed(n));
    }
  }

  lemma RefilledGrows(w: Worst, n: nat)
    requires w.Valid() && n < w.cfg.limit - 1
    ensures Ready(w.cfg, w.Refilled(n), w.cfg.window + n)
    ensures Done(w.cfg, w.Refilled(n), w.cfg.window + n) == w.Refilled(n + 1)
  {
    var t := w.cfg.window + n;
    ZeroAndFacts(w.base, t);
    SpanFacts(w.cfg.window, t, n + 1, t - 1);
  }

  lemma OneMoreRefills(w: Worst, n: nat)
    requires w.Valid() && 0 < n < w.cfg.limit && w.CanReach(w.Refilled(n - 1))
    ensures w.CanReach(w.Refilled(n))
  {
    RefilledGrows(w, n - 1);
    ReachDone(w.cfg, w.overlap, w.Refilled(n - 1), w.cfg.window + n - 1, w.Refilled(n));
  }

  lemma {:induction false} ReachRefilled(w: Worst, n: nat)
    requires w.Valid() && n < w.cfg.limit
    ensures w.CanReach(w.Refilled(n))
  {
    if n == 0 {
      ReachLapsed(w, 0);
      PhasesMeet(w);
    } else {
      ReachRefilled(w, n - 1);
      OneMoreRefills(w, n);
    }
  }

  lemma CrowdedGrows(w: Worst, n: nat)
    requires w.Valid() && n < w.overlap
    ensures var t := w.cfg.window + w.cfg.limit - 1 + n;
            && Ready(w.cfg, w.Crowded(n), t) && Unfinished(w.Crowded(n)) == n
            && Counted(w.Crowded(n), t) == w.Crowded(n + 1)
  {
    var full := w.cfg.window + w.cfg.limit - 1;
    var t := full + n;
    ZeroAndFacts(w.base, t);
    SpanFacts(w.cfg.window, full, t - w.cfg.window + 1, t - 1);
    SpanFacts(full, t, 0, t);
  }

  lemma OneMoreCrowds(w: Worst, n: nat)
    requires w.Valid() && 0 < n <= w.overlap && w.CanReach(w.Crowded(n - 1))
    ensures w.CanReach(w.Crowded(n))
  {
    CrowdedGrows(w, n - 1);
    ReachCounted(w.cfg, w.overlap, w.Crowded(n - 1), w.cfg.window + w.cfg.limit - 1 + n - 1, w.Crowded(n));
  }

  lemma {:induction false} ReachCrowded(w: Worst, n: nat)
    requires w.Valid() && n <= w.overlap
    ensures w.CanReach(w.Crowded(n))
  {
    if n == 0 {
      ReachRefilled(w, w.cfg.limit - 1);
      PhasesMeet(w);
    } else {
      ReachCrowded(w, n - 1);
      OneMoreCrowds(w, n);
    }
  }

  /** In every configuration whose limit is above one and whose window has room for the
      timestamps, some schedule without delay grants limit + 2 * overlap - 1 timestamps in a row. */
  lemma LapseBoundIsReached(cfg: Config, overlap: nat, span: int) returns (run: Schedule<Step>, a: int)
    requires cfg.limit >= 2 && overlap >= 1 && cfg.limit + 2 * overlap <= span <= cfg.window
    ensures Legal(cfg, overlap, run) && CountsWithin(run, 0)
    ensures CountBetween(SlidingDelays.After(cfg, run).grants, a + 1, a + span) == cfg.limit + 2 * overlap - 1
  {
    var base := cfg.window - overlap;
    var w := Worst(cfg, overlap, base);
    a := base - 1;
    ReachCrowded(w, overlap);
    run :| LeadsTo(cfg, overlap, run, w.Crowded(overlap));
    ZeroAndCount(base, cfg.window + cfg.limit - 1 + overlap, a + span);
  }

  lemma {:induction false} CountsWithinMore(run: Schedule<Step>, delay: nat)
    requires CountsWithin(run, 0)
    ensures CountsWithin(run, delay)
  {
    if run.Then? {
      CountsWithinMore(run.before, delay);
    }
  }

  ghost predicate WithinOverlap(cfg: Config, overlap: nat, delay: nat, run: Schedule<Step>, a: int) {
    CountBetween(SlidingDelays.After(cfg, run).grants, a + 1, a + cfg.window - delay) <= cfg.limit + overlap - 1
  }

  /** Every schedule keeps every span of window - delay within limit + overlap - 1 grants. */
  ghost predicate OverlapIsAllThatCounts(cfg: Config, overlap: nat, delay: nat) {
    forall run, a: int | Legal(cfg, overlap, run) && CountsWithin(run, delay) ::
      WithinOverlap(cfg, overlap, delay, run, a)
  }

  /** That holds exactly when the limit is one. */
  lemma OverlapIsAllThatCountsIff(cfg: Config, overlap: nat, delay: nat)
    requires cfg.limit >= 1 && overlap >= 1 && cfg.limit + 2 * overlap <= cfg.window - delay
    ensures OverlapIsAllThatCounts(cfg, overlap, delay) <==> cfg.limit == 1
  {
    if cfg.limit == 1 {
      forall run, a: int | Legal(cfg, overlap, run) && CountsWithin(run, delay)
        ensures WithinOverlap(cfg, overlap, delay, run, a)
      {
        LimitOneBound(cfg, overlap, delay, run, a);
      }
    } else {
      var run, a := LapseBoundIsReached(cfg, overlap, cfg.window - delay);
      CountsWithinMore(run, delay);
      assert !WithinOverlap(cfg, overlap, delay, run, a);
    }
  }
}
