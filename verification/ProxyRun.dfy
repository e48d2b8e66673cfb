/** Requests through the proxy together (internal/proxy/proxy.go:93-185).

    Any number of `Handle` calls are in progress at once; each is a sequence of steps and the
    steps interleave freely. The strategy is least-connections, the one that counts. */
module ProxyRuns {
  import opened LoadBalancers
  import opened CircuitBreakers
  import opened BreakerRuns
  import opened Histories
  import opened PendingCalls

  /** How far a `Handle` call has come. `Leaving` covers every way out: the function
      returned, it panicked, or the open breaker refused the call. */
  datatype Phase = Selected | Counted | Running | Leaving | Gone

  datatype Handle = Handle(target: string, phase: Phase)

  /** `handles` holds every dispatched request so far; `calls` the breaker's critical
      sections in the order they ran, numbered by request. */
  datatype State = State(connections: Connections, breaker: Breaker, handles: seq<Handle>, calls: seq<Event>)

  datatype Step =
    | Select(healthy: seq<string>)
    | CountUp(i: nat)
    | EnterBreaker(i: nat, at: int)
    | Return(i: nat, ok: bool, at: int)
    | Panic(i: nat)
    | CountDown(i: nat)
    | ResetBreaker(at: int)

  /** Whether a request is dispatched at all, and where to. */
  predicate Dispatches(s: State, proxies: set<string>, healthy: seq<string>) {
    var target := NextTarget(s.connections, healthy);
    healthy != [] && target != "" && target in proxies
  }

  predicate InPhase(s: State, i: nat, phase: Phase) {
    i < |s.handles| && s.handles[i].phase == phase
  }

  function Moved(s: State, i: nat, phase: Phase): seq<Handle>
    requires i < |s.handles|
  {
    s.handles[i := s.handles[i].(phase := phase)]
  }

  /** A step of a request that is not at that point has no effect. */
  function Next(cfg: Config, proxies: set<string>, s: State, step: Step): State {
    match step
    case Select(healthy) =>
      if !Dispatches(s, proxies, healthy) then s
      else s.(handles := s.handles + [Handle(NextTarget(s.connections, healthy), Selected)])
    case CountUp(i) =>
      if !InPhase(s, i, Selected) then s
      else s.(connections := Incremented(s.connections, s.handles[i].target), handles := Moved(s, i, Counted))
    case EnterBreaker(i, at) =>
      if !InPhase(s, i, Counted) then s
      else
        s.(breaker := EnterStep(cfg, s.breaker, at),
           handles := Moved(s, i, if Admits(cfg, s.breaker, at) then Running else Leaving),
           calls := s.calls + [Enter(i, at)])
    case Return(i, ok, at) =>
      if !InPhase(s, i, Running) then s
      else
        s.(breaker := FinishStep(cfg, s.breaker, ok, at),
           handles := Moved(s, i, Leaving),
           calls := s.calls + [Finish(i, ok, at)])
    case Panic(i) =>
      if !InPhase(s, i, Running) then s else s.(handles := Moved(s, i, Leaving))
    case CountDown(i) =>
      if !InPhase(s, i, Leaving) then s
      else s.(connections := Decremented(s.connections, s.handles[i].target), handles := Moved(s, i, Gone))
    case ResetBreaker(at) =>
      s.(breaker := ResetStep(s.breaker, at), calls := s.calls + [Reset(at)])
  }

  ghost function After(cfg: Config, proxies: set<string>, start: int, run: Schedule<Step>): State {
    if run.Idle? then State(map[], Fresh(start), [], [])
    else Next(cfg, proxies, After(cfg, proxies, start, run.before), run.step)
  }

  // ---------------------------------------------------------------- conservation

  /** The request's connection is counted and not yet given back. */
  predicate Holds(h: Handle, target: string) {
    h.target == target && h.phase != Selected && h.phase != Gone
  }

  /** How many of the first `n` requests hold a connection to `target`. */
  ghost function InFlight(handles: seq<Handle>, n: nat, target: string): nat
    requires n <= |handles|
  {
    if n == 0 then 0 else InFlight(handles, n - 1, target) + if Holds(handles[n - 1], target) then 1 else 0
  }

  lemma {:induction false} InFlightAfterMove(handles: seq<Handle>, i: nat, h: Handle, n: nat, target: string)
    requires i < |handles| && n <= |handles|
    ensures InFlight(handles[i := h], n, target)
            == InFlight(handles, n, target)
               + (if i < n && Holds(h, target) then 1 else 0) - (if i < n && Holds(handles[i], target) then 1 else 0)
  {
    if n > 0 {
      InFlightAfterMove(handles, i, h, n - 1, target);
    }
  }

  lemma {:induction false} InFlightAfterAppend(handles: seq<Handle>, h: Handle, n: nat, target: string)
    requires n <= |handles|
    ensures InFlight(handles + [h], n, target) == InFlight(handles, n, target)
  {
    if n > 0 {
      InFlightAfterAppend(handles, h, n - 1, target);
    }
  }

  lemma {:induction false} HolderIsCounted(handles: seq<Handle>, i: nat, n: nat, target: string)
    requires i < n <= |handles| && Holds(handles[i], target)
    ensures InFlight(handles, n, target) > 0
    decreases n
  {
    if i < n - 1 {
      HolderIsCounted(handles, i, n - 1, target);
    }
  }

  ghost predicate Conserved(s: State, target: string) {
    Count(s.connections, target) == InFlight(s.handles, |s.handles|, target)
  }

  lemma CountUpConserves(s: State, i: nat, target: string)
    requires Conserved(s, target) && InPhase(s, i, Selected)
    ensures Count(Incremented(s.connections, s.handles[i].target), target)
            == InFlight(Moved(s, i, Counted), |s.handles|, target)
  {
    InFlightAfterMove(s.handles, i, s.handles[i].(phase := Counted), |s.handles|, target);
  }

  lemma CountDownConserves(s: State, i: nat, target: string)
    requires Conserved(s, target) && InPhase(s, i, Leaving)
    ensures Count(Decremented(s.connections, s.handles[i].target), target)
            == InFlight(Moved(s, i, Gone), |s.handles|, target)
  {
    InFlightAfterMove(s.handles, i, s.handles[i].(phase := Gone), |s.handles|, target);
    if s.handles[i].target == target {
      HolderIsCounted(s.handles, i, |s.handles|, target);
    }
  }

  lemma StepConserves(cfg: Config, proxies: set<string>, s: State, step: Step, target: string)
    requires Conserved(s, target)
    ensures Conserved(Next(cfg, proxies, s, step), target)
  {
    var n := |s.handles|;
    match step
    case Select(healthy) =>
      InFlightAfterAppend(s.handles, Handle(NextTarget(s.connections, healthy), Selected), n, target);
    case CountUp(i) =>
      if InPhase(s, i, Selected) { CountUpConserves(s, i, target); }
    case EnterBreaker(i, at) =>
      if i < n {
        var phase := if Admits(cfg, s.breaker, at) then Running else Leaving;
        InFlightAfterMove(s.handles, i, s.handles[i].(phase := phase), n, target);
      }
    case Return(i, _, _) =>
      if i < n { InFlightAfterMove(s.handles, i, s.handles[i].(phase := Leaving), n, target); }
    case Panic(i) =>
      if i < n { InFlightAfterMove(s.handles, i, s.handles[i].(phase := Leaving), n, target); }
    case CountDown(i) =>
      if InPhase(s, i, Leaving) { CountDownConserves(s, i, target); }
    case ResetBreaker(_) =>
  }

  /** In every interleaving each target's count is the number of requests in flight to it,
      refused and panicked ones included. */
  lemma {:induction false} CountsAreInFlight(
      cfg: Config, proxies: set<string>, start: int, run: Schedule<Step>, target: string)
    ensures Conserved(After(cfg, proxies, start, run), target)
  {
    if run.Then? {
      CountsAreInFlight(cfg, proxies, start, run.before, target);
      StepConserves(cfg, proxies, After(cfg, proxies, start, run.before), run.step, target);
    }
  }

  /** So the guard in `Decrement` never holds a decrement back. */
  lemma {:induction false} DecrementGuardNeverBlocks(
      cfg: Config, proxies: set<string>, start: int, run: Schedule<Step>, i: nat)
    requires InPhase(After(cfg, proxies, start, run), i, Leaving)
    ensures var s := After(cfg, proxies, start, run);
            var after := After(cfg, proxies, start, Then(run, CountDown(i)));
            Count(s.connections, s.handles[i].target) > 0
            && Count(after.connections, s.handles[i].target) == Count(s.connections, s.handles[i].target) - 1
  {
    var s := After(cfg, proxies, start, run);
    CountsAreInFlight(cfg, proxies, start, run, s.handles[i].target);
    HolderIsCounted(s.handles, i, |s.handles|, s.handles[i].target);
  }

  ghost predicate AllGone(handles: seq<Handle>) {
    forall i | 0 <= i < |handles| :: handles[i].phase == Gone
  }

  lemma {:induction false} NoneInFlight(handles: seq<Handle>, n: nat, target: string)
    requires n <= |handles| && AllGone(handles)
    ensures InFlight(handles, n, target) == 0
  {
    if n > 0 {
      NoneInFlight(handles, n - 1, target);
    }
  }

  /** When every request is done, every count is back to zero. */
  lemma {:induction false} QuietMeansZero(
      cfg: Config, proxies: set<string>, start: int, run: Schedule<Step>, target: string)
    requires AllGone(After(cfg, proxies, start, run).handles)
    ensures Count(After(cfg, proxies, start, run).connections, target) == 0
  {
    CountsAreInFlight(cfg, proxies, start, run, target);
    NoneInFlight(After(cfg, proxies, start, run).handles, |After(cfg, proxies, start, run).handles|, target);
  }

  // ---------------------------------------------------------------- selection

  /** With healthy targets that all have a proxy and a non-empty name, the request is
      dispatched, and to a healthy target with the fewest connections in flight. */
  lemma {:induction false} DispatchIsLeastLoaded(
      cfg: Config, proxies: set<string>, start: int, run: Schedule<Step>, healthy: seq<string>)
    requires healthy != [] && forall i | 0 <= i < |healthy| :: healthy[i] in proxies && healthy[i] != ""
    ensures var s := After(cfg, proxies, start, run);
            var s' := After(cfg, proxies, start, Then(run, Select(healthy)));
            && |s'.handles| == |s.handles| + 1
            && var target := s'.handles[|s.handles|].target;
               && target in healthy
               && forall j | 0 <= j < |healthy| ::
                    InFlight(s.handles, |s.handles|, target) <= InFlight(s.handles, |s.handles|, healthy[j])
  {
    var s := After(cfg, proxies, start, run);
    var least := healthy[LeastIndex(s.connections, healthy, |healthy|)];
    assert least == NextTarget(s.connections, healthy);
    CountsAreInFlight(cfg, proxies, start, run, least);
    forall j | 0 <= j < |healthy|
      ensures InFlight(s.handles, |s.handles|, least) <= InFlight(s.handles, |s.handles|, healthy[j])
    {
      CountsAreInFlight(cfg, proxies, start, run, healthy[j]);
    }
  }

  // ---------------------------------------------------------------- the breaker inside

  /** The breaker's own view of the requests: the running ones are admitted, and those that
      have not reached it are unknown to it. */
  ghost predicate Mirrors(sys: System, s: State) {
    && sys.breaker == s.breaker
    && (forall i: nat | i < |s.handles| && s.handles[i].phase == Running :: i in sys.running)
    && (forall i: nat | i in sys.running ::
          i < |s.handles| && s.handles[i].phase != Selected && s.handles[i].phase != Counted)
  }

  /** The breaker event a step amounts to, if any. */
  function CallOf(s: State, step: Step): seq<Event> {
    match step
    case EnterBreaker(i, at) => if InPhase(s, i, Counted) then [Enter(i, at)] else []
    case Return(i, ok, at) => if InPhase(s, i, Running) then [Finish(i, ok, at)] else []
    case Select(_) => []
    case CountUp(_) => []
    case Panic(_) => []
    case CountDown(_) => []
    case ResetBreaker(at) => [Reset(at)]
  }

  lemma SilentStepMirrors(cfg: Config, proxies: set<string>, sys: System, s: State, step: Step)
    requires Mirrors(sys, s) && CallOf(s, step) == []
    ensures Mirrors(sys, Next(cfg, proxies, s, step)) && Next(cfg, proxies, s, step).calls == s.calls
  {
  }

  lemma CallMirrors(cfg: Config, proxies: set<string>, sys: System, s: State, step: Step)
    requires Mirrors(sys, s) && CallOf(s, step) != []
    ensures var e := CallOf(s, step)[0];
            && Enabled(sys, e) && Next(cfg, proxies, s, step).calls == s.calls + [e]
            && Mirrors(BreakerRuns.Step(cfg, sys, e), Next(cfg, proxies, s, step))
  {
  }

  /** Through the proxy the breaker sees a legal run of its own: whatever holds in every
      breaker run holds of the gateway. */
  lemma {:induction false} ProxyRunsAreBreakerRuns(cfg: Config, proxies: set<string>, start: int, run: Schedule<Step>)
    ensures var s := After(cfg, proxies, start, run);
            Legal(cfg, start, s.calls) && Mirrors(BreakerRuns.After(cfg, start, s.calls, |s.calls|), s)
  {
    if run.Then? {
      ProxyRunsAreBreakerRuns(cfg, proxies, start, run.before);
      var s := After(cfg, proxies, start, run.before);
      var sys := BreakerRuns.After(cfg, start, s.calls, |s.calls|);
      if CallOf(s, run.step) == [] {
        SilentStepMirrors(cfg, proxies, sys, s, run.step);
      } else {
        CallMirrors(cfg, proxies, sys, s, run.step);
        ExtendRun(cfg, start, s.calls, CallOf(s, run.step)[0]);
      }
    }
  }

  /** Open with last failure at L after event `p`, not reset since, and the clock at or before L + timeout. */
  ghost predicate WithinOpenPeriod(cfg: Config, start: int, es: seq<Event>, p: nat, at: int) {
    && p <= |es| && BreakerRuns.At(cfg, start, es, p).state == Open
    && (forall k | p <= k < |es| :: !es[k].Reset?)
    && Forward(es) && (forall k | 0 <= k < |es| :: es[k].at <= at)
    && at <= BreakerRuns.At(cfg, start, es, p).lastFailureTime + cfg.timeout
  }

  lemma StillRefusing(cfg: Config, start: int, es: seq<Event>, p: nat, at: int)
    requires Sound(cfg) && WithinOpenPeriod(cfg, start, es, p, at)
    ensures !Admits(cfg, BreakerRuns.At(cfg, start, es, |es|), at)
  {
    StaysOpen(cfg, start, es, p, |es|);
  }

  /** Say the breaker was open, with last failure at L, at some point of the run and has not
      been reset since. A request that reaches it at or before L + timeout is not forwarded:
      it leaves with the breaker untouched and its connection still to be given back. */
  lemma {:induction false} OpenBreakerShieldsBackend(
      cfg: Config, proxies: set<string>, start: int, run: Schedule<Step>, p: nat, i: nat, at: int)
    requires Sound(cfg) && InPhase(After(cfg, proxies, start, run), i, Counted)
    requires WithinOpenPeriod(cfg, start, After(cfg, proxies, start, run).calls, p, at)
    ensures var s := After(cfg, proxies, start, run);
            var s' := After(cfg, proxies, start, Then(run, EnterBreaker(i, at)));
            InPhase(s', i, Leaving) && s'.breaker == s.breaker && s'.connections == s.connections
  {
    ProxyRunsAreBreakerRuns(cfg, proxies, start, run);
    StillRefusing(cfg, start, After(cfg, proxies, start, run).calls, p, at);
  }

  // ---------------------------------------------------------------- what the breaker hears

  /** The step brings the result of a running request. */
  ghost predicate Returns(s: State, step: Step) {
    step.Return? && InPhase(s, step.i, Running)
  }

  /** What the backends answered since the latest reset, in order. */
  ghost function Answers(cfg: Config, proxies: set<string>, start: int, run: Schedule<Step>): seq<bool> {
    if run.Idle? || run.step.ResetBreaker? then []
    else if Returns(After(cfg, proxies, start, run.before), run.step)
    then Answers(cfg, proxies, start, run.before) + [run.step.ok]
    else Answers(cfg, proxies, start, run.before)
  }

  /** When a backend last answered with a failure, the zero time if none has. */
  ghost function LatestFailedAnswer(cfg: Config, proxies: set<string>, start: int, run: Schedule<Step>): int {
    if run.Idle? then ZERO_TIME
    else if Returns(After(cfg, proxies, start, run.before), run.step) && !run.step.ok then run.step.at
    else LatestFailedAnswer(cfg, proxies, start, run.before)
  }

  lemma {:induction false} CompletionsOfPrefix(es: seq<Event>, e: Event, n: nat)
    requires n <= |es|
    ensures Completions(es + [e], n) == Completions(es, n) && LatestFailure(es + [e], n) == LatestFailure(es, n)
  {
    if n > 0 {
      CompletionsOfPrefix(es, e, n - 1);
    }
  }

  lemma {:induction false} OneMoreCall(es: seq<Event>, e: Event)
    ensures Completions(es + [e], |es| + 1)
            == if e.Reset? then []
               else if e.Finish? then Completions(es, |es|) + [e.ok]
               else Completions(es, |es|)
    ensures LatestFailure(es + [e], |es| + 1) == if e.Finish? && !e.ok then e.at else LatestFailure(es, |es|)
  {
    CompletionsOfPrefix(es, e, |es|);
  }

  lemma CallIsRecorded(cfg: Config, proxies: set<string>, s: State, step: Step)
    ensures Next(cfg, proxies, s, step).calls == s.calls + CallOf(s, step)
  {
  }

  lemma {:induction false} OneMoreAnswer(cfg: Config, proxies: set<string>, start: int, run: Schedule<Step>)
    requires run.Then?
    ensures var before, failed := Answers(cfg, proxies, start, run.before),
                                  LatestFailedAnswer(cfg, proxies, start, run.before);
            var call := CallOf(After(cfg, proxies, start, run.before), run.step);
            && Answers(cfg, proxies, start, run)
               == (if call == [] || call[0].Enter? then before
                   else if call[0].Finish? then before + [call[0].ok] else [])
            && LatestFailedAnswer(cfg, proxies, start, run)
               == if call != [] && call[0].Finish? && !call[0].ok then call[0].at else failed
  {
  }

  lemma {:induction false} CallsAreAnswers(cfg: Config, proxies: set<string>, start: int, run: Schedule<Step>)
    ensures var calls := After(cfg, proxies, start, run).calls;
            && Completions(calls, |calls|) == Answers(cfg, proxies, start, run)
            && LatestFailure(calls, |calls|) == LatestFailedAnswer(cfg, proxies, start, run)
  {
    if run.Then? {
      CallsAreAnswers(cfg, proxies, start, run.before);
      var s := After(cfg, proxies, start, run.before);
      CallIsRecorded(cfg, proxies, s, run.step);
      OneMoreAnswer(cfg, proxies, start, run);
      if CallOf(s, run.step) != [] {
        OneMoreCall(s.calls, CallOf(s, run.step)[0]);
      }
    }
  }

  /** In every interleaving of requests the breaker is closed exactly while the answers since the
      latest reset end in fewer than maxFailures failures, and then counts just those. */
  lemma {:induction false} BreakerCountsAnswers(cfg: Config, proxies: set<string>, start: int, run: Schedule<Step>)
    requires Sound(cfg)
    ensures Counting(cfg, After(cfg, proxies, start, run).breaker,
                     TrailingFailures(Answers(cfg, proxies, start, run)))
  {
    var calls := After(cfg, proxies, start, run).calls;
    ProxyRunsAreBreakerRuns(cfg, proxies, start, run);
    CallsAreAnswers(cfg, proxies, start, run);
    FailureCountIsHistory(cfg, start, calls, |calls|);
  }

  /** A counted request that reaches the breaker is forwarded exactly when the breaker is not open
      or more than the timeout has passed since a backend last failed; otherwise it leaves.
      Either way every other request stays where it is. */
  lemma {:induction false} ForwardedExactly(
      cfg: Config, proxies: set<string>, start: int, run: Schedule<Step>, i: nat, at: int)
    requires InPhase(After(cfg, proxies, start, run), i, Counted)
    ensures var s := After(cfg, proxies, start, run);
            var s' := After(cfg, proxies, start, Then(run, EnterBreaker(i, at)));
            && (InPhase(s', i, Running)
                <==> s.breaker.state != Open || at - LatestFailedAnswer(cfg, proxies, start, run) > cfg.timeout)
            && (!InPhase(s', i, Running) ==> InPhase(s', i, Leaving) && s'.breaker == s.breaker)
            && |s'.handles| == |s.handles| && s'.handles[i].target == s.handles[i].target
            && s'.connections == s.connections
            && forall j | 0 <= j < |s.handles| && j != i :: s'.handles[j] == s.handles[j]
  {
    var calls := After(cfg, proxies, start, run).calls;
    ProxyRunsAreBreakerRuns(cfg, proxies, start, run);
    CallsAreAnswers(cfg, proxies, start, run);
    LastFailureIsHistory(cfg, start, calls, |calls|);
  }

  /** A panic of the forwarded request gives the connection back and tells the breaker nothing. */
  lemma {:induction false} PanicReleases(
      cfg: Config, proxies: set<string>, start: int, run: Schedule<Step>, i: nat)
    requires InPhase(After(cfg, proxies, start, run), i, Running)
    ensures var s := After(cfg, proxies, start, run);
            var end := After(cfg, proxies, start, Then(Then(run, Panic(i)), CountDown(i)));
            && InPhase(end, i, Gone) && end.breaker == s.breaker && end.calls == s.calls
            && Count(end.connections, s.handles[i].target) == Count(s.connections, s.handles[i].target) - 1
  {
    DecrementGuardNeverBlocks(cfg, proxies, start, Then(run, Panic(i)), i);
  }

  /** Every dispatched request goes to a named target that has a proxy. */
  lemma {:induction false} DispatchedToKnownTarget(
      cfg: Config, proxies: set<string>, start: int, run: Schedule<Step>, i: nat)
    requires i < |After(cfg, proxies, start, run).handles|
    ensures var target := After(cfg, proxies, start, run).handles[i].target;
            target != "" && target in proxies
  {
    if i < |After(cfg, proxies, start, run.before).handles| {
      DispatchedToKnownTarget(cfg, proxies, start, run.before, i);
    }
  }

  // ---------------------------------------------------------------- a request alone, step by step

  /** All the steps of one request, with no other in between. */
  ghost function Alone(run: Schedule<Step>, i: nat, healthy: seq<string>, ok: bool, enteredAt: int, finishedAt: int)
    : Schedule<Step>
  {
    Then(Then(Then(Then(Then(run, Select(healthy)), CountUp(i)), EnterBreaker(i, enteredAt)),
              Return(i, ok, finishedAt)), CountDown(i))
  }

  lemma {:induction false} StepsOfOne(cfg: Config, proxies: set<string>, s: State, healthy: seq<string>, ok: bool,
                                      enteredAt: int, finishedAt: int)
    requires Dispatches(s, proxies, healthy) && Count(s.connections, NextTarget(s.connections, healthy)) >= 0
    ensures var i, target := |s.handles|, NextTarget(s.connections, healthy);
            var s1 := Next(cfg, proxies, s, Select(healthy));
            var s2 := Next(cfg, proxies, s1, CountUp(i));
            var s3 := Next(cfg, proxies, s2, EnterBreaker(i, enteredAt));
            var s4 := Next(cfg, proxies, s3, Return(i, ok, finishedAt));
            var s5 := Next(cfg, proxies, s4, CountDown(i));
            && s5.handles == s.handles + [Handle(target, Gone)]
            && (forall t :: Count(s5.connections, t) == Count(s.connections, t))
            && (InPhase(s3, i, Running) <==> Admits(cfg, s.breaker, enteredAt))
            && s5.breaker == if Admits(cfg, s.breaker, enteredAt)
                             then FinishStep(cfg, EnterStep(cfg, s.breaker, enteredAt), ok, finishedAt)
                             else s.breaker
  {
  }

  lemma {:induction false} OneMoreStep(
      cfg: Config, proxies: set<string>, start: int, run: Schedule<Step>, step: Step)
    ensures After(cfg, proxies, start, Then(run, step)) == Next(cfg, proxies, After(cfg, proxies, start, run), step)
  {
  }

  lemma {:induction false} AloneUnrolls(
      cfg: Config, proxies: set<string>, start: int, run: Schedule<Step>,
      healthy: seq<string>, ok: bool, enteredAt: int, finishedAt: int)
    ensures var s := After(cfg, proxies, start, run);
            var i := |s.handles|;
            var s2 := Next(cfg, proxies, Next(cfg, proxies, s, Select(healthy)), CountUp(i));
            var s3 := Next(cfg, proxies, s2, EnterBreaker(i, enteredAt));
            After(cfg, proxies, start, Alone(run, i, healthy, ok, enteredAt, finishedAt))
            == Next(cfg, proxies, Next(cfg, proxies, s3, Return(i, ok, finishedAt)), CountDown(i))
  {
    var i := |After(cfg, proxies, start, run).handles|;
    var r1 := Then(run, Select(healthy));
    var r2 := Then(r1, CountUp(i));
    var r3 := Then(r2, EnterBreaker(i, enteredAt));
    OneMoreStep(cfg, proxies, start, run, Select(healthy));
    OneMoreStep(cfg, proxies, start, r1, CountUp(i));
    OneMoreStep(cfg, proxies, start, r2, EnterBreaker(i, enteredAt));
    OneMoreStep(cfg, proxies, start, r3, Return(i, ok, finishedAt));
    OneMoreStep(cfg, proxies, start, Then(r3, Return(i, ok, finishedAt)), CountDown(i));
  }

  /** In every run, one more request that nothing interleaves with does what `HandleAlone` does:
      it is dispatched under the same condition to the same target, reaches the backend exactly
      when the breaker admits it, and leaves counts and breaker as `HandleAlone` would. */
  lemma {:induction false} AloneIsHandleAlone(
      cfg: Config, proxies: set<string>, start: int, run: Schedule<Step>,
      healthy: seq<string>, ok: bool, enteredAt: int, finishedAt: int)
    ensures var s := After(cfg, proxies, start, run);
            var target := NextTarget(s.connections, healthy);
            var end := After(cfg, proxies, start, Alone(run, |s.handles|, healthy, ok, enteredAt, finishedAt));
            if healthy == [] || target == "" || target !in proxies then end == s
            else
              && end.handles == s.handles + [Handle(target, Gone)]
              && (forall t :: Count(end.connections, t) == Count(s.connections, t))
              && end.breaker == if Admits(cfg, s.breaker, enteredAt)
                                then FinishStep(cfg, EnterStep(cfg, s.breaker, enteredAt), ok, finishedAt)
                                else s.breaker
  {
    var s := After(cfg, proxies, start, run);
    AloneUnrolls(cfg, proxies, start, run, healthy, ok, enteredAt, finishedAt);
    if Dispatches(s, proxies, healthy) {
      CountsAreInFlight(cfg, proxies, start, run, NextTarget(s.connections, healthy));
      StepsOfOne(cfg, proxies, s, healthy, ok, enteredAt, finishedAt);
    }
  }
}
