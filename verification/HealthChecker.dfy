/** Health checks of the backend targets (internal/healthcheck/checker.go).

    A round probes every target in a goroutine of its own; the results are recorded
    under a lock, in whatever order the goroutines get it. A probe is an arbitrary
    success or failure. */
module HealthChecks {
  import opened Histories

  datatype Status = Status(
    isHealthy: bool,
    lastCheck: int,
    lastSuccess: int,
    lastFailure: int,
    failureCount: int)

  datatype Probe = Probe(target: string, ok: bool, at: int)

  datatype Overall = Healthy | Degraded | Unhealthy

  function RecordOne(maxFailures: int, s: Status, p: Probe): Status {
    if p.ok then s.(lastCheck := p.at, lastSuccess := p.at, failureCount := 0, isHealthy := true)
    else
      var counted := s.(lastCheck := p.at, lastFailure := p.at, failureCount := s.failureCount + 1);
      if s.isHealthy && counted.failureCount >= maxFailures then counted.(isHealthy := false) else counted
  }

  /** The statuses after the first `n` probes of a sequence are recorded. */
  function RecordAll(maxFailures: int, statuses: map<string, Status>, probes: seq<Probe>, n: nat)
    : (r: map<string, Status>)
    requires n <= |probes| && forall i | 0 <= i < |probes| :: probes[i].target in statuses
    ensures r.Keys == statuses.Keys
  {
    if n == 0 then statuses
    else
      var before := RecordAll(maxFailures, statuses, probes, n - 1);
      before[probes[n - 1].target := RecordOne(maxFailures, before[probes[n - 1].target], probes[n - 1])]
  }

  function Classify(healthy: nat, total: nat): Overall {
    if healthy == 0 then Unhealthy else if healthy < total then Degraded else Healthy
  }

  // ---------------------------------------------------------------- the history

  /** The outcomes of one target's checks within the recorded history. */
  ghost function Outcomes(log: seq<Probe>, target: string): seq<bool> {
    if log == [] then []
    else
      var last := |log| - 1;
      if log[last].target == target then Outcomes(log[..last], target) + [log[last].ok]
      else Outcomes(log[..last], target)
  }

  /** Fewer than `maxFailures` failures since the target's last success. */
  ghost predicate Passing(maxFailures: int, log: seq<Probe>, target: string) {
    TrailingFailures(Outcomes(log, target)) < maxFailures
  }

  /** The first `n` configured targets that pass, in configured order. */
  ghost function PassingTargets(maxFailures: int, log: seq<Probe>, targets: seq<string>, n: nat): seq<string>
    requires n <= |targets|
  {
    if n == 0 then []
    else
      var before := PassingTargets(maxFailures, log, targets, n - 1);
      if Passing(maxFailures, log, targets[n - 1]) then before + [targets[n - 1]] else before
  }

  /** A status counts exactly the failures at the end of its target's history. */
  ghost predicate Exact(maxFailures: int, s: Status, log: seq<Probe>, target: string) {
    && s.failureCount == TrailingFailures(Outcomes(log, target))
    && (s.isHealthy <==> Passing(maxFailures, log, target))
  }

  lemma RecordingIsExact(maxFailures: int, s: Status, log: seq<Probe>, p: Probe, target: string)
    requires maxFailures >= 1 && Exact(maxFailures, s, log, target)
    ensures Exact(maxFailures, if p.target == target then RecordOne(maxFailures, s, p) else s, log + [p], target)
  {
    assert (log + [p])[..|log|] == log;
    if p.target == target {
      TrailingAppend(Outcomes(log, target), p.ok);
    }
  }

  ghost predicate AllExact(maxFailures: int, statuses: map<string, Status>, log: seq<Probe>) {
    forall t | t in statuses :: Exact(maxFailures, statuses[t], log, t)
  }

  lemma RecordingKeepsAllExact(maxFailures: int, statuses: map<string, Status>, log: seq<Probe>, p: Probe)
    requires maxFailures >= 1 && AllExact(maxFailures, statuses, log) && p.target in statuses
    ensures AllExact(maxFailures, statuses[p.target := RecordOne(maxFailures, statuses[p.target], p)], log + [p])
  {
    var after := statuses[p.target := RecordOne(maxFailures, statuses[p.target], p)];
    forall t | t in after ensures Exact(maxFailures, after[t], log + [p], t) {
      RecordingIsExact(maxFailures, statuses[t], log, p, t);
    }
  }

  // ---------------------------------------------------------------- one round

  ghost predicate Covers(statuses: map<string, Status>, probes: seq<Probe>) {
    forall i | 0 <= i < |probes| :: probes[i].target in statuses
  }

  ghost function Names(probes: seq<Probe>): seq<string> {
    seq(|probes|, i requires 0 <= i < |probes| => probes[i].target)
  }

  /** One result for every configured target, in any order. */
  ghost predicate IsRound(targets: seq<string>, results: seq<Probe>) {
    multiset(Names(results)) == multiset(targets)
  }

  lemma RoundCovers(targets: seq<string>, results: seq<Probe>, statuses: map<string, Status>)
    requires IsRound(targets, results) && forall i | 0 <= i < |targets| :: targets[i] in statuses
    ensures Covers(statuses, results)
  {
    forall i | 0 <= i < |results| ensures results[i].target in statuses {
      assert Names(results)[i] in multiset(Names(results));
      assert results[i].target in multiset(targets);
    }
  }

  lemma Longer(log: seq<Probe>, results: seq<Probe>, i: nat)
    requires i <= |results|
    ensures i < |results| ==> log + results[..i] + [results[i]] == log + results[..i + 1]
    ensures i == |results| ==> log + results[..i] == log + results
  {
    assert i == |results| ==> results[..i] == results;
  }

  // ---------------------------------------------------------------- the checker

  class Checker {
    const targets: seq<string>
    const maxFailures: int
    var healthStatus: map<string, Status>
    var healthyTargets: seq<string>
    /** Every probe recorded so far, in the order of recording. */
    ghost var log: seq<Probe>

    ghost predicate Valid()
      reads this
    {
      && maxFailures >= 1
      && (forall i | 0 <= i < |targets| :: targets[i] in healthStatus)
      && AllExact(maxFailures, healthStatus, log)
    }

    constructor (targets: seq<string>, maxFailures: int, now: int, zero: int)
      ensures Valid() && log == [] && healthyTargets == []
      ensures this.targets == targets && this.maxFailures == if maxFailures <= 0 then 3 else maxFailures
      ensures forall t | t in healthStatus :: t in targets && healthStatus[t] == Status(true, now, zero, zero, 0)
    {
      this.targets := targets;
      this.maxFailures := if maxFailures <= 0 then 3 else maxFailures;
      this.healthyTargets := [];
      this.log := [];
      var statuses: map<string, Status> := map[];
      for i := 0 to |targets|
        invariant forall j | 0 <= j < i :: targets[j] in statuses
        invariant forall t | t in statuses :: t in targets && statuses[t] == Status(true, now, zero, zero, 0)
      {
        statuses := statuses[targets[i] := Status(true, now, zero, zero, 0)];
      }
      this.healthStatus := statuses;
    }

    method RecordSuccess(target: string, now: int)
      requires Valid() && target in healthStatus
      modifies this`healthStatus, this`log
      ensures Valid() && log == old(log) + [Probe(target, true, now)]
      ensures var p := Probe(target, true, now);
              healthStatus == old(healthStatus)[target := RecordOne(maxFailures, old(healthStatus)[target], p)]
    {
      var p := Probe(target, true, now);
      ghost var recorded := healthStatus[target := RecordOne(maxFailures, healthStatus[target], p)];
      assert AllExact(maxFailures, recorded, log + [p]) by {
        RecordingKeepsAllExact(maxFailures, healthStatus, log, p);
      }
      var status := healthStatus[target];
      status := status.(lastCheck := now, lastSuccess := now, failureCount := 0);
      if !status.isHealthy {
        status := status.(isHealthy := true);
      }
      healthStatus := healthStatus[target := status];
      assert healthStatus == recorded;
      log := log + [p];
    }

    method RecordFailure(target: string, now: int)
      requires Valid() && target in healthStatus
      modifies this`healthStatus, this`log
      ensures Valid() && log == old(log) + [Probe(target, false, now)]
      ensures var p := Probe(target, false, now);
              healthStatus == old(healthStatus)[target := RecordOne(maxFailures, old(healthStatus)[target], p)]
    {
      var p := Probe(target, false, now);
      ghost var recorded := healthStatus[target := RecordOne(maxFailures, healthStatus[target], p)];
      assert AllExact(maxFailures, recorded, log + [p]) by {
        RecordingKeepsAllExact(maxFailures, healthStatus, log, p);
      }
      var status := healthStatus[target];
      status := status.(lastCheck := now, lastFailure := now, failureCount := status.failureCount + 1);
      if status.isHealthy && status.failureCount >= maxFailures {
        status := status.(isHealthy := false);
      }
      healthStatus := healthStatus[target := status];
      assert healthStatus == recorded;
      log := log + [p];
    }

    method UpdateHealthyTargets()
      requires Valid()
      modifies this`healthyTargets
      ensures healthyTargets == PassingTargets(maxFailures, log, targets, |targets|)
    {
      var healthy := [];
      for i := 0 to |targets|
        invariant healthy == PassingTargets(maxFailures, log, targets, i)
      {
        if healthStatus[targets[i]].isHealthy {
          healthy := healthy + [targets[i]];
        }
      }
      healthyTargets := healthy;
    }

    /** One round. `results` lists the probes in the order their goroutines take the lock. */
    method CheckAll(results: seq<Probe>)
      requires Valid() && IsRound(targets, results)
      modifies this
      ensures Valid() && log == old(log) + results
      ensures Covers(old(healthStatus), results)
      ensures healthStatus == RecordAll(maxFailures, old(healthStatus), results, |results|)
      ensures healthyTargets == PassingTargets(maxFailures, log, targets, |targets|)
    {
      RoundCovers(targets, results, healthStatus);
      RecordResults(results);
      UpdateHealthyTargets();
    }

    /** What `checkTarget` does once its probe has an outcome. */
    method RecordResult(p: Probe)
      requires Valid() && p.target in healthStatus
      modifies this`healthStatus, this`log
      ensures Valid() && log == old(log) + [p]
      ensures healthStatus == old(healthStatus)[p.target := RecordOne(maxFailures, old(healthStatus)[p.target], p)]
    {
      if p.ok {
        RecordSuccess(p.target, p.at);
      } else {
        RecordFailure(p.target, p.at);
      }
    }

    method RecordResults(results: seq<Probe>)
      requires Valid() && Covers(healthStatus, results)
      modifies this`healthStatus, this`log
      ensures Valid() && log == old(log) + results
      ensures healthStatus == RecordAll(maxFailures, old(healthStatus), results, |results|)
    {
      for i := 0 to |results|
        invariant Valid()
        invariant log == old(log) + results[..i]
        invariant healthStatus == RecordAll(maxFailures, old(healthStatus), results, i)
      {
        RecordResult(results[i]);
        Longer(old(log), results, i);
      }
      Longer(old(log), results, |results|);
    }

    method OverallHealth() returns (overall: Overall)
      ensures overall == Classify(|healthyTargets|, |targets|)
    {
      var totalTargets := |targets|;
      var healthyCount := |healthyTargets|;
      if healthyCount == 0 {
        return Unhealthy;
      }
      if healthyCount < totalTargets {
        return Degraded;
      }
      return Healthy;
    }
  }

  // ---------------------------------------------------------------- every run

  /** From a new checker, after any number of recorded probes in any order, each status
      counts exactly the failures at the end of its target's own history. */
  lemma {:induction false} StatusIsHistory(
      maxFailures: int, initial: map<string, Status>, log: seq<Probe>, n: nat, target: string)
    requires maxFailures >= 1 && n <= |log| && Covers(initial, log) && target in initial
    requires initial[target].isHealthy && initial[target].failureCount == 0
    ensures Exact(maxFailures, RecordAll(maxFailures, initial, log, n)[target], log[..n], target)
  {
    if n > 0 {
      StatusIsHistory(maxFailures, initial, log, n - 1, target);
      assert log[..n] == log[..n - 1] + [log[n - 1]];
      var before := RecordAll(maxFailures, initial, log, n - 1);
      RecordingIsExact(maxFailures, before[target], log[..n - 1], log[n - 1], target);
    }
  }

  /** When `target` was last probed with an outcome in `outcomes`, or `never`. */
  ghost function LatestProbe(log: seq<Probe>, n: nat, target: string, outcomes: set<bool>, never: int): int
    requires n <= |log|
  {
    if n == 0 then never
    else if log[n - 1].target == target && log[n - 1].ok in outcomes then log[n - 1].at
    else LatestProbe(log, n - 1, target, outcomes, never)
  }

  /** The three recorded times are those of the target's latest probe, success and failure. */
  lemma {:induction false} TimesAreHistory(
      maxFailures: int, initial: map<string, Status>, log: seq<Probe>, n: nat, target: string)
    requires n <= |log| && Covers(initial, log) && target in initial
    ensures var s := RecordAll(maxFailures, initial, log, n)[target];
            && s.lastCheck == LatestProbe(log, n, target, {true, false}, initial[target].lastCheck)
            && s.lastSuccess == LatestProbe(log, n, target, {true}, initial[target].lastSuccess)
            && s.lastFailure == LatestProbe(log, n, target, {false}, initial[target].lastFailure)
  {
    if n > 0 {
      TimesAreHistory(maxFailures, initial, log, n - 1, target);
    }
  }

  // ---------------------------------------------------------------- order does not matter

  ghost predicate DistinctTargets(probes: seq<Probe>) {
    forall i, j | 0 <= i < j < |probes| :: probes[i].target != probes[j].target
  }

  /** With distinct targets each status depends on its own probe alone. */
  lemma {:induction false} RecordedOnce(
      maxFailures: int, statuses: map<string, Status>, probes: seq<Probe>, n: nat, k: nat)
    requires Covers(statuses, probes) && DistinctTargets(probes) && k < |probes| && n <= |probes|
    ensures var before := statuses[probes[k].target];
            RecordAll(maxFailures, statuses, probes, n)[probes[k].target]
            == if k < n then RecordOne(maxFailures, before, probes[k]) else before
  {
    if n > 0 {
      RecordedOnce(maxFailures, statuses, probes, n - 1, k);
    }
  }

  lemma {:induction false} NotRecorded(
      maxFailures: int, statuses: map<string, Status>, probes: seq<Probe>, n: nat, target: string)
    requires Covers(statuses, probes) && n <= |probes| && target in statuses
    requires forall i | 0 <= i < |probes| :: probes[i].target != target
    ensures RecordAll(maxFailures, statuses, probes, n)[target] == statuses[target]
  {
    if n > 0 {
      NotRecorded(maxFailures, statuses, probes, n - 1, target);
    }
  }

  /** Two orders of one round's results leave the same statuses, hence the same healthy list. */
  lemma {:induction false} RoundsAreConfluent(
      maxFailures: int, statuses: map<string, Status>, a: seq<Probe>, b: seq<Probe>)
    requires Covers(statuses, a) && Covers(statuses, b)
    requires DistinctTargets(a) && DistinctTargets(b) && multiset(a) == multiset(b)
    ensures RecordAll(maxFailures, statuses, a, |a|) == RecordAll(maxFailures, statuses, b, |b|)
  {
    var ra, rb := RecordAll(maxFailures, statuses, a, |a|), RecordAll(maxFailures, statuses, b, |b|);
    forall t | t in statuses ensures ra[t] == rb[t] {
      if i :| 0 <= i < |a| && a[i].target == t {
        assert a[i] in multiset(a);
        assert a[i] in multiset(b);
        var j :| 0 <= j < |b| && b[j] == a[i];
        RecordedOnce(maxFailures, statuses, a, |a|, i);
        RecordedOnce(maxFailures, statuses, b, |b|, j);
      } else {
        forall j | 0 <= j < |b| ensures b[j].target != t {
          assert b[j] in multiset(b);
          assert b[j] in multiset(a);
        }
        NotRecorded(maxFailures, statuses, a, |a|, t);
        NotRecorded(maxFailures, statuses, b, |b|, t);
      }
    }
  }

  /** The same probes with every instant forgotten. */
  ghost function Untimed(probes: seq<Probe>): seq<Probe> {
    seq(|probes|, i requires 0 <= i < |probes| => Probe(probes[i].target, probes[i].ok, 0))
  }

  ghost predicate SameVerdict(s: Status, t: Status) {
    s.isHealthy == t.isHealthy && s.failureCount == t.failureCount
  }

  ghost predicate SameOutcomes(a: seq<Probe>, b: seq<Probe>) {
    |a| == |b| && forall i | 0 <= i < |a| :: a[i].target == b[i].target && a[i].ok == b[i].ok
  }

  lemma SameVerdictAfter(maxFailures: int, s: Status, t: Status, p: Probe, q: Probe)
    requires SameVerdict(s, t) && p.ok == q.ok
    ensures SameVerdict(RecordOne(maxFailures, s, p), RecordOne(maxFailures, t, q))
  {
  }

  lemma {:induction false} InstantsDoNotMatter(
      maxFailures: int, statuses: map<string, Status>, a: seq<Probe>, b: seq<Probe>, n: nat, target: string)
    requires Covers(statuses, a) && Covers(statuses, b) && SameOutcomes(a, b) && n <= |a| && target in statuses
    ensures SameVerdict(RecordAll(maxFailures, statuses, a, n)[target], RecordAll(maxFailures, statuses, b, n)[target])
  {
    if n > 0 {
      InstantsDoNotMatter(maxFailures, statuses, a, b, n - 1, target);
      var ra, rb := RecordAll(maxFailures, statuses, a, n - 1), RecordAll(maxFailures, statuses, b, n - 1);
      SameVerdictAfter(maxFailures, ra[target], rb[target], a[n - 1], b[n - 1]);
    }
  }

  lemma UntimedIsSame(statuses: map<string, Status>, probes: seq<Probe>)
    requires Covers(statuses, probes) && DistinctTargets(probes)
    ensures SameOutcomes(probes, Untimed(probes))
    ensures Covers(statuses, Untimed(probes)) && DistinctTargets(Untimed(probes))
  {
  }

  lemma {:induction false} ConfluentThrough(maxFailures: int, statuses: map<string, Status>,
                         a: seq<Probe>, b: seq<Probe>, a': seq<Probe>, b': seq<Probe>, target: string)
    requires Covers(statuses, a) && Covers(statuses, b) && Covers(statuses, a') && Covers(statuses, b')
    requires SameOutcomes(a, a') && SameOutcomes(b, b') && target in statuses
    requires DistinctTargets(a') && DistinctTargets(b') && multiset(a') == multiset(b')
    ensures SameVerdict(RecordAll(maxFailures, statuses, a, |a|)[target],
                        RecordAll(maxFailures, statuses, b, |b|)[target])
  {
    InstantsDoNotMatter(maxFailures, statuses, a, a', |a|, target);
    InstantsDoNotMatter(maxFailures, statuses, b, b', |b|, target);
    RoundsAreConfluent(maxFailures, statuses, a', b');
  }

  /** Two orders of one round's outcomes, each recorded at whatever instants its goroutines
      get the lock, leave every target with the same verdict and the same failure count. */
  lemma {:induction false} VerdictsAreConfluent(
      maxFailures: int, statuses: map<string, Status>, a: seq<Probe>, b: seq<Probe>, target: string)
    requires Covers(statuses, a) && Covers(statuses, b) && target in statuses
    requires DistinctTargets(a) && DistinctTargets(b) && multiset(Untimed(a)) == multiset(Untimed(b))
    ensures SameVerdict(RecordAll(maxFailures, statuses, a, |a|)[target],
                        RecordAll(maxFailures, statuses, b, |b|)[target])
  {
    UntimedIsSame(statuses, a);
    UntimedIsSame(statuses, b);
    ConfluentThrough(maxFailures, statuses, a, b, Untimed(a), Untimed(b), target);
  }

  // ---------------------------------------------------------------- what the classification says

  lemma {:induction false} PassingCount(maxFailures: int, log: seq<Probe>, targets: seq<string>, n: nat)
    requires n <= |targets|
    ensures |PassingTargets(maxFailures, log, targets, n)| <= n
    ensures |PassingTargets(maxFailures, log, targets, n)| == n
            <==> forall i | 0 <= i < n :: Passing(maxFailures, log, targets[i])
    ensures |PassingTargets(maxFailures, log, targets, n)| == 0
            <==> forall i | 0 <= i < n :: !Passing(maxFailures, log, targets[i])
  {
    if n > 0 {
      PassingCount(maxFailures, log, targets, n - 1);
    }
  }

  /** After a round: healthy when there are targets and all pass, unhealthy when none
      does, degraded when some do and some do not. */
  lemma {:induction false} OverallMeans(maxFailures: int, log: seq<Probe>, targets: seq<string>)
    ensures var overall := Classify(|PassingTargets(maxFailures, log, targets, |targets|)|, |targets|);
            && (overall == Healthy
                <==> targets != [] && forall i | 0 <= i < |targets| :: Passing(maxFailures, log, targets[i]))
            && (overall == Unhealthy
                <==> forall i | 0 <= i < |targets| :: !Passing(maxFailures, log, targets[i]))
  {
    PassingCount(maxFailures, log, targets, |targets|);
    if targets != [] && forall i | 0 <= i < |targets| :: Passing(maxFailures, log, targets[i]) {
      assert Passing(maxFailures, log, targets[0]);
    }
  }
}
