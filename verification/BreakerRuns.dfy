/** Whole runs of the circuit breaker: every interleaving of any number of calls and resets. */
module BreakerRuns {
  import opened CircuitBreakers
  import opened Histories

  datatype Event =
    | Enter(call: nat, at: int)
    | Finish(call: nat, ok: bool, at: int)
    | Reset(at: int)

  /** `running`: calls that were admitted and whose function has not returned. */
  datatype System = System(breaker: Breaker, running: set<nat>)

  /** Only a running call can finish, and a call enters once. */
  ghost predicate Enabled(sys: System, e: Event) {
    && (e.Enter? ==> e.call !in sys.running)
    && (e.Finish? ==> e.call in sys.running)
  }

  ghost function Step(cfg: Config, sys: System, e: Event): System {
    match e
    case Enter(call, at) =>
      System(EnterStep(cfg, sys.breaker, at),
             if Admits(cfg, sys.breaker, at) then sys.running + {call} else sys.running)
    case Finish(call, ok, at) =>
      System(FinishStep(cfg, sys.breaker, ok, at), sys.running - {call})
    case Reset(at) =>
      System(ResetStep(sys.breaker, at), sys.running)
  }

  ghost function After(cfg: Config, start: int, es: seq<Event>, n: nat): System
    requires n <= |es|
  {
    if n == 0 then System(Fresh(start), {}) else Step(cfg, After(cfg, start, es, n - 1), es[n - 1])
  }

  /** The breaker after the first `n` events. */
  ghost function At(cfg: Config, start: int, es: seq<Event>, n: nat): Breaker
    requires n <= |es|
  {
    After(cfg, start, es, n).breaker
  }

  /** Every event of the run can happen when it does. */
  ghost predicate Legal(cfg: Config, start: int, es: seq<Event>) {
    forall n: nat | n < |es| :: Happens(cfg, start, es, n)
  }

  ghost predicate Happens(cfg: Config, start: int, es: seq<Event>, n: nat)
    requires n < |es|
  {
    Enabled(After(cfg, start, es, n), es[n])
  }

  /** The clock moves forward. */
  ghost predicate Forward(es: seq<Event>) {
    forall i, j | 0 <= i <= j < |es| :: es[i].at <= es[j].at
  }

  // ---------------------------------------------------------------- histories

  /** Outcomes of the completed calls since the latest reset. */
  ghost function Completions(es: seq<Event>, n: nat): seq<bool>
    requires n <= |es|
  {
    if n == 0 then []
    else match es[n - 1]
      case Enter(_, _) => Completions(es, n - 1)
      case Finish(_, ok, _) => Completions(es, n - 1) + [ok]
      case Reset(_) => []
  }

  /** When the latest failed completion happened, the zero time if there is none. */
  ghost function LatestFailure(es: seq<Event>, n: nat): int
    requires n <= |es|
  {
    if n == 0 then ZERO_TIME
    else if es[n - 1].Finish? && !es[n - 1].ok then es[n - 1].at
    else LatestFailure(es, n - 1)
  }

  /** Successful completions among the events `p .. n-1`. */
  ghost function Successes(es: seq<Event>, p: nat, n: nat): nat
    requires p <= n <= |es|
    decreases n
  {
    if p == n then 0 else Successes(es, p, n - 1) + if es[n - 1].Finish? && es[n - 1].ok then 1 else 0
  }

  /** When the state last changed or was reset. */
  ghost function LatestChange(cfg: Config, start: int, es: seq<Event>, n: nat): int
    requires n <= |es|
  {
    if n == 0 then start
    else if es[n - 1].Reset? || At(cfg, start, es, n).state != At(cfg, start, es, n - 1).state then es[n - 1].at
    else LatestChange(cfg, start, es, n - 1)
  }

  // ---------------------------------------------------------------- tripping

  ghost predicate Counting(cfg: Config, b: Breaker, trailing: nat) {
    && (b.state == Closed <==> b.failureCount < cfg.maxFailures)
    && (b.state == Closed ==> b.failureCount == trailing)
  }

  lemma FinishCounts(cfg: Config, b: Breaker, trailing: nat, ok: bool, now: int)
    requires Sound(cfg) && Counting(cfg, b, trailing)
    ensures Counting(cfg, FinishStep(cfg, b, ok, now), if ok then 0 else trailing + 1)
  {
  }

  lemma EventCounts(cfg: Config, start: int, es: seq<Event>, n: nat)
    requires Sound(cfg) && 0 < n <= |es|
    requires Counting(cfg, At(cfg, start, es, n - 1), TrailingFailures(Completions(es, n - 1)))
    ensures Counting(cfg, At(cfg, start, es, n), TrailingFailures(Completions(es, n)))
  {
    var b, outcomes := At(cfg, start, es, n - 1), Completions(es, n - 1);
    match es[n - 1]
    case Enter(_, at) =>
      assert At(cfg, start, es, n) == EnterStep(cfg, b, at);
    case Finish(_, ok, at) =>
      TrailingAppend(outcomes, ok);
      FinishCounts(cfg, b, TrailingFailures(outcomes), ok, at);
    case Reset(at) =>
      assert At(cfg, start, es, n) == ResetStep(b, at);
  }

  /** Closed exactly below the threshold, and then counting the failures at the end of the history. */
  lemma {:induction false} FailureCountIsHistory(cfg: Config, start: int, es: seq<Event>, n: nat)
    requires Sound(cfg) && n <= |es|
    ensures Counting(cfg, At(cfg, start, es, n), TrailingFailures(Completions(es, n)))
  {
    if n > 0 {
      FailureCountIsHistory(cfg, start, es, n - 1);
      EventCounts(cfg, start, es, n);
    }
  }

  /** A closed breaker opens exactly at a completion that makes the last `maxFailures`
      completions since the latest reset all failures. */
  lemma TripsExactly(cfg: Config, start: int, es: seq<Event>, n: nat)
    requires Sound(cfg) && n < |es| && At(cfg, start, es, n).state == Closed
    ensures At(cfg, start, es, n + 1).state == Open
            <==> es[n].Finish? && LastAllFailed(Completions(es, n + 1), cfg.maxFailures)
    ensures At(cfg, start, es, n + 1).state != HalfOpen
  {
    FailureCountIsHistory(cfg, start, es, n);
    FailureCountIsHistory(cfg, start, es, n + 1);
    TrailingMeansLastFailed(Completions(es, n + 1), cfg.maxFailures);
    if es[n].Finish? {
      TrailingAppend(Completions(es, n), es[n].ok);
    }
  }

  // ---------------------------------------------------------------- the open period

  lemma {:induction false} LastFailureIsHistory(cfg: Config, start: int, es: seq<Event>, n: nat)
    requires n <= |es|
    ensures At(cfg, start, es, n).lastFailureTime == LatestFailure(es, n)
  {
    if n > 0 {
      LastFailureIsHistory(cfg, start, es, n - 1);
    }
  }

  lemma {:induction false} LastChangeIsHistory(cfg: Config, start: int, es: seq<Event>, n: nat)
    requires n <= |es|
    ensures At(cfg, start, es, n).lastStateChange == LatestChange(cfg, start, es, n)
  {
    if n > 0 {
      LastChangeIsHistory(cfg, start, es, n - 1);
    }
  }

  /** An open breaker's last failure is a real one, in the past of every later event. */
  lemma {:induction false} OpenHasPastFailure(cfg: Config, start: int, es: seq<Event>, i: nat, k: nat)
    requires Sound(cfg) && Forward(es) && i <= k < |es| && At(cfg, start, es, i).state != Closed
    ensures At(cfg, start, es, i).lastFailureTime <= es[k].at
  {
    if i > 0 && At(cfg, start, es, i - 1).state != Closed {
      OpenHasPastFailure(cfg, start, es, i - 1, k);
    }
  }

  /** Until the timeout has passed since the last failure, nothing but a reset ends the
      open state, calls that arrive leave no trace, and late results only extend the period. */
  lemma {:induction false} StaysOpen(cfg: Config, start: int, es: seq<Event>, i: nat, n: nat)
    requires Sound(cfg) && Forward(es) && i <= n <= |es| && At(cfg, start, es, i).state == Open
    requires forall k | i <= k < n :: !es[k].Reset? && es[k].at <= At(cfg, start, es, i).lastFailureTime + cfg.timeout
    ensures At(cfg, start, es, n).state == Open
    ensures At(cfg, start, es, i).lastFailureTime <= At(cfg, start, es, n).lastFailureTime
    decreases n
  {
    if i < n {
      StaysOpen(cfg, start, es, i, n - 1);
      OpenHasPastFailure(cfg, start, es, n - 1, n - 1);
    }
  }

  /** A call that arrives no later than the timeout after the failure that an open
      breaker remembers is refused: it never runs and changes nothing. */
  lemma RefusedUntilTimeout(cfg: Config, start: int, es: seq<Event>, i: nat, k: nat)
    requires Sound(cfg) && Forward(es) && i <= k < |es|
    requires At(cfg, start, es, i).state == Open && Enabled(After(cfg, start, es, k), es[k])
    requires forall j | i <= j < k :: !es[j].Reset?
    requires es[k].Enter? && es[k].at <= At(cfg, start, es, i).lastFailureTime + cfg.timeout
    ensures After(cfg, start, es, k + 1) == After(cfg, start, es, k)
    ensures es[k].call !in After(cfg, start, es, k + 1).running
  {
    StaysOpen(cfg, start, es, i, k);
  }

  /** And no longer than that: an open breaker turns half-open, admitting the call, exactly
      when more than the timeout has passed since the latest failed completion in the
      history; only a reset takes it straight to closed. */
  lemma OpenEndsExactly(cfg: Config, start: int, es: seq<Event>, k: nat)
    requires k < |es| && At(cfg, start, es, k).state == Open && Enabled(After(cfg, start, es, k), es[k])
    ensures At(cfg, start, es, k + 1).state == HalfOpen
            <==> es[k].Enter? && es[k].at - LatestFailure(es, k) > cfg.timeout
    ensures At(cfg, start, es, k + 1).state == Closed <==> es[k].Reset?
    ensures es[k].Enter? ==>
              (es[k].call in After(cfg, start, es, k + 1).running <==> At(cfg, start, es, k + 1).state == HalfOpen)
  {
    LastFailureIsHistory(cfg, start, es, k);
  }

  /** A call that enters is refused exactly when the breaker is open and no more than the
      timeout has passed since the latest failed completion in the history. An admitted call
      runs; a refused one changes nothing; the other calls go on as they were. */
  lemma {:induction false} RefusedExactly(cfg: Config, start: int, es: seq<Event>, k: nat)
    requires k < |es| && es[k].Enter? && Enabled(After(cfg, start, es, k), es[k])
    ensures var before, after := After(cfg, start, es, k), After(cfg, start, es, k + 1);
            var refused := before.breaker.state == Open && es[k].at - LatestFailure(es, k) <= cfg.timeout;
            && (es[k].call !in after.running <==> refused)
            && (refused ==> after == before)
            && after.running - {es[k].call} == before.running
  {
    LastFailureIsHistory(cfg, start, es, k);
  }

  // ---------------------------------------------------------------- recovery

  /** A half-open breaker was opened by a probe: from that admission on it has stayed
      half-open, nothing failed, and the successes counted are those completed since. */
  lemma {:induction false} HalfOpenSince(cfg: Config, start: int, es: seq<Event>, n: nat) returns (probe: nat)
    requires Sound(cfg) && n <= |es| && At(cfg, start, es, n).state == HalfOpen
    ensures probe < n && es[probe].Enter? && At(cfg, start, es, probe).state == Open
    ensures forall k | probe < k <= n :: At(cfg, start, es, k).state == HalfOpen
    ensures forall k | probe < k < n :: !es[k].Reset? && (es[k].Finish? ==> es[k].ok)
    ensures At(cfg, start, es, n).successCount == Successes(es, probe + 1, n) < cfg.halfOpenSuccess
  {
    if At(cfg, start, es, n - 1).state == HalfOpen {
      probe := HalfOpenSince(cfg, start, es, n - 1);
    } else {
      probe := n - 1;
    }
  }

  /** Half-open ends exactly so: closed at the `halfOpenSuccess`-th success since the
      probe, or by a reset; open at the first failure. */
  lemma RecoversExactly(cfg: Config, start: int, es: seq<Event>, n: nat) returns (probe: nat)
    requires Sound(cfg) && n < |es| && At(cfg, start, es, n).state == HalfOpen
    ensures probe < n && es[probe].Enter? && At(cfg, start, es, probe).state == Open
    ensures forall k | probe < k <= n :: At(cfg, start, es, k).state == HalfOpen
    ensures At(cfg, start, es, n + 1).state == Closed
            <==> es[n].Reset? || (es[n].Finish? && es[n].ok && Successes(es, probe + 1, n + 1) == cfg.halfOpenSuccess)
    ensures At(cfg, start, es, n + 1).state == Open <==> es[n].Finish? && !es[n].ok
  {
    probe := HalfOpenSince(cfg, start, es, n);
  }

  // ---------------------------------------------------------------- the counters in every state

  /** Failed completions since the failure count was last cleared: by a reset, or by a success
      that found or left the breaker closed. */
  ghost function FailuresCounted(cfg: Config, start: int, es: seq<Event>, n: nat): nat
    requires n <= |es|
  {
    if n == 0 || es[n - 1].Reset? then 0
    else if !es[n - 1].Finish? then FailuresCounted(cfg, start, es, n - 1)
    else if !es[n - 1].ok then FailuresCounted(cfg, start, es, n - 1) + 1
    else if At(cfg, start, es, n).state == Closed then 0
    else FailuresCounted(cfg, start, es, n - 1)
  }

  /** Successes while half-open since the success count was last cleared: by a reset, by the
      breaker turning half-open, or by a failure while half-open. */
  ghost function SuccessesCounted(cfg: Config, start: int, es: seq<Event>, n: nat): nat
    requires n <= |es|
  {
    if n == 0 || es[n - 1].Reset? then 0
    else
      var before, after := At(cfg, start, es, n - 1).state, At(cfg, start, es, n).state;
      if before == HalfOpen && es[n - 1].Finish? && es[n - 1].ok then SuccessesCounted(cfg, start, es, n - 1) + 1
      else if before != after && (before == HalfOpen || after == HalfOpen) then 0
      else SuccessesCounted(cfg, start, es, n - 1)
  }

  /** In every run and every state both counters are those histories. */
  lemma {:induction false} CountersAreHistory(cfg: Config, start: int, es: seq<Event>, n: nat)
    requires Sound(cfg) && n <= |es|
    ensures At(cfg, start, es, n).failureCount == FailuresCounted(cfg, start, es, n)
    ensures At(cfg, start, es, n).successCount == SuccessesCounted(cfg, start, es, n)
  {
    if n > 0 {
      CountersAreHistory(cfg, start, es, n - 1);
    }
  }

  // ---------------------------------------------------------------- longer runs

  lemma {:induction false} PrefixRun(cfg: Config, start: int, es: seq<Event>, e: Event, n: nat)
    requires n <= |es|
    ensures After(cfg, start, es + [e], n) == After(cfg, start, es, n)
  {
    if n > 0 {
      PrefixRun(cfg, start, es, e, n - 1);
    }
  }

  lemma {:induction false} ExtendRun(cfg: Config, start: int, es: seq<Event>, e: Event)
    requires Legal(cfg, start, es) && Enabled(After(cfg, start, es, |es|), e)
    ensures Legal(cfg, start, es + [e])
    ensures After(cfg, start, es + [e], |es| + 1) == Step(cfg, After(cfg, start, es, |es|), e)
  {
    forall n: nat | n < |es + [e]| ensures Happens(cfg, start, es + [e], n) {
      PrefixRun(cfg, start, es, e, n);
      assert n < |es| ==> Happens(cfg, start, es, n);
    }
    assert After(cfg, start, es + [e], |es|) == After(cfg, start, es, |es|) by {
      PrefixRun(cfg, start, es, e, |es|);
    }
  }

  // ---------------------------------------------------------------- no limit on probes

  /** Some legal run with a forward clock, over by `now`, ends in `sys`. */
  ghost predicate Reaches(cfg: Config, start: int, now: int, sys: System) {
    exists es :: Leads(cfg, start, now, sys, es)
  }

  ghost predicate Leads(cfg: Config, start: int, now: int, sys: System, es: seq<Event>) {
    && Legal(cfg, start, es) && Forward(es) && (forall k | 0 <= k < |es| :: es[k].at <= now)
    && After(cfg, start, es, |es|) == sys
  }

  lemma ReachNext(cfg: Config, start: int, now: int, sys: System, e: Event, sys': System)
    requires Reaches(cfg, start, now, sys) && now <= e.at && Enabled(sys, e) && Step(cfg, sys, e) == sys'
    ensures Reaches(cfg, start, e.at, sys')
  {
    var es :| Leads(cfg, start, now, sys, es);
    ExtendRun(cfg, start, es, e);
    assert Leads(cfg, start, e.at, sys', es + [e]);
  }

  /** Closed, with `failures` failed calls so far, all at the start. */
  ghost function Failing(start: int, failures: nat): System {
    System(Breaker(Closed, failures, 0, if failures == 0 then ZERO_TIME else start, start), {})
  }

  lemma {:induction false} ReachFailing(cfg: Config, start: int, failures: nat)
    requires Sound(cfg) && failures < cfg.maxFailures
    ensures Reaches(cfg, start, start, Failing(start, failures))
  {
    if failures == 0 {
      assert Leads(cfg, start, start, Failing(start, 0), []);
    } else {
      ReachFailing(cfg, start, failures - 1);
      var before := Failing(start, failures - 1);
      ReachNext(cfg, start, start, before, Enter(0, start), before.(running := {0}));
      assert {0} - {0} == {};
      ReachNext(cfg, start, start, before.(running := {0}), Finish(0, false, start), Failing(start, failures));
    }
  }

  lemma ReachOpen(cfg: Config, start: int) returns (tripped: Breaker)
    requires Sound(cfg)
    ensures Reaches(cfg, start, start, System(tripped, {}))
    ensures tripped.state == Open && tripped.lastFailureTime == start
  {
    ReachFailing(cfg, start, cfg.maxFailures - 1);
    var before := Failing(start, cfg.maxFailures - 1);
    tripped := OnFailure(cfg, before.breaker, start);
    ReachNext(cfg, start, start, before, Enter(0, start), before.(running := {0}));
    assert {0} - {0} == {};
    ReachNext(cfg, start, start, before.(running := {0}), Finish(0, false, start), System(tripped, {}));
  }

  /** The calls 0 .. n-1. */
  ghost function FirstCalls(n: nat): (calls: set<nat>)
    ensures |calls| == n && forall c | c in calls :: c < n
  {
    if n == 0 then {} else FirstCalls(n - 1) + {n - 1}
  }

  lemma ReachProbe(cfg: Config, start: int, now: int) returns (b: Breaker)
    requires Sound(cfg) && now == start + cfg.timeout + 1
    ensures Reaches(cfg, start, now, System(b, {0})) && b.state == HalfOpen
  {
    var tripped := ReachOpen(cfg, start);
    b := EnterStep(cfg, tripped, now);
    assert {} + {0} == {0};
    ReachNext(cfg, start, start, System(tripped, {}), Enter(0, now), System(b, {0}));
  }

  lemma ReachOneMore(cfg: Config, start: int, now: int, b: Breaker, running: set<nat>, call: nat)
    requires Reaches(cfg, start, now, System(b, running)) && b.state == HalfOpen && call !in running
    ensures Reaches(cfg, start, now, System(b, running + {call}))
  {
    ReachNext(cfg, start, now, System(b, running), Enter(call, now), System(b, running + {call}));
  }

  lemma {:induction false} ReachCrowd(cfg: Config, start: int, now: int, n: nat) returns (b: Breaker)
    requires Sound(cfg) && n >= 1 && now == start + cfg.timeout + 1
    ensures Reaches(cfg, start, now, System(b, FirstCalls(n))) && b.state == HalfOpen
  {
    if n == 1 {
      b := ReachProbe(cfg, start, now);
      assert FirstCalls(1) == {0};
    } else {
      b := ReachCrowd(cfg, start, now, n - 1);
      ReachOneMore(cfg, start, now, b, FirstCalls(n - 1), n - 1);
    }
  }

  /** There is no limit on the calls a half-open breaker lets through: for every number of
      calls, some run from a new breaker leaves it half-open with that many running. */
  lemma HalfOpenHasNoLimit(cfg: Config, start: int, n: nat) returns (es: seq<Event>)
    requires Sound(cfg) && n >= 1
    ensures Legal(cfg, start, es) && Forward(es)
    ensures At(cfg, start, es, |es|).state == HalfOpen && |After(cfg, start, es, |es|).running| == n
  {
    var b := ReachCrowd(cfg, start, start + cfg.timeout + 1, n);
    es :| Leads(cfg, start, start + cfg.timeout + 1, System(b, FirstCalls(n)), es);
  }
}
