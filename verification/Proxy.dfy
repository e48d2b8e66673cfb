/** The proxy (internal/proxy/proxy.go): how it is built, and one request at a time: select a
    target, count the connection, pass the circuit breaker, and give the connection back. */
module Proxies {
  import opened LoadBalancers
  import opened CircuitBreakers
  import Rotation

  /** The names a configuration may use; no name at all means round robin. */
  ghost predicate KnownStrategy(name: string) {
    name in ["", "round-robin", "round_robin", "random", "least-connection", "least_connections"]
  }

  datatype BuildError = NoTargets | UnknownStrategy | BadTarget(target: string)

  datatype Built = Refused(error: BuildError) | Built(strategy: Strategy, proxies: set<string>)

  /** `NewWithConfig`: the named strategy and one reverse proxy per target, or the first thing wrong. */
  method NewWithConfig(targets: seq<string>, strategyName: string, parses: string -> bool) returns (built: Built)
    ensures built.Built? <==>
            && targets != []
            && KnownStrategy(strategyName)
            && forall i | 0 <= i < |targets| :: parses(targets[i])
    ensures built.Built? ==>
              && built.strategy == NewStrategy(strategyName)
              && built.proxies == set t | t in targets
    ensures built == Refused(NoTargets) <==> targets == []
    ensures built == Refused(UnknownStrategy) <==> targets != [] && !KnownStrategy(strategyName)
    ensures built.Refused? && built.error.BadTarget? ==>
              exists i | 0 <= i < |targets| ::
                && targets[i] == built.error.target
                && !parses(targets[i])
                && forall j | 0 <= j < i :: parses(targets[j])
  {
    if |targets| == 0 {
      return Refused(NoTargets);
    }
    var strategy := NewStrategy(strategyName);
    if strategy == Unknown {
      return Refused(UnknownStrategy);
    }
    var proxies := {};
    for i := 0 to |targets|
      invariant forall j | 0 <= j < i :: parses(targets[j])
      invariant proxies == set t | t in targets[..i]
    {
      if !parses(targets[i]) {
        return Refused(BadTarget(targets[i]));
      }
      proxies := proxies + {targets[i]};
      assert targets[..i + 1] == targets[..i] + [targets[i]];
    }
    assert targets[..|targets|] == targets;
    return Built(strategy, proxies);
  }

  // ---------------------------------------------------------------- one request alone

  datatype Response = NoHealthyTargets | NoTarget | NoProxy | Unavailable | Forwarded(target: string, ok: bool)

  /** What the strategy selects from a non-empty list: `current` is the rotation counter,
      `draw` the random number. */
  function Choice(
      strategy: Strategy, current: nat, draw: nat, connections: Connections, healthy: seq<string>): string
    requires healthy != []
  {
    match strategy
    case ByRotation => healthy[current % |healthy|]
    case AtRandom => healthy[draw % |healthy|]
    case ByConnections => NextTarget(connections, healthy)
    case Unknown => ""
  }

  /** Of the two balancers the strategy uses at most one. */
  class Proxy {
    const proxies: set<string>
    const strategy: Strategy
    const rotation: RoundRobin
    const loadBalancer: LeastConnections
    const circuitBreaker: CircuitBreaker

    constructor (proxies: set<string>, strategy: Strategy, rotation: RoundRobin,
                 loadBalancer: LeastConnections, circuitBreaker: CircuitBreaker)
      ensures this.proxies == proxies && this.strategy == strategy && this.rotation == rotation
      ensures this.loadBalancer == loadBalancer && this.circuitBreaker == circuitBreaker
    {
      this.proxies := proxies;
      this.strategy := strategy;
      this.rotation := rotation;
      this.loadBalancer := loadBalancer;
      this.circuitBreaker := circuitBreaker;
    }

    method Select(healthy: seq<string>, draw: nat) returns (target: string)
      requires healthy != [] && InRange(loadBalancer.connections)
      modifies rotation
      ensures target == Choice(strategy, old(rotation.current), draw, loadBalancer.connections, healthy)
      ensures rotation.current == old(rotation.current) + if strategy == ByRotation then 1 else 0
    {
      match strategy
      case ByRotation => target := rotation.Next(healthy);
      case AtRandom => target := healthy[draw % |healthy|];
      case ByConnections => target := loadBalancer.Next(healthy);
      case Unknown => target := "";
    }

    /** `Handle` with no other request in between; `ok` is what the backend would answer.
        Whatever the outcome, every count ends where it began. */
    method HandleAlone(healthy: seq<string>, draw: nat, ok: bool, enteredAt: int, finishedAt: int)
      returns (response: Response)
      requires InRange(loadBalancer.connections)
      requires forall t | t in loadBalancer.connections :: 0 <= loadBalancer.connections[t]
      modifies rotation, loadBalancer, circuitBreaker
      ensures forall t :: Count(loadBalancer.connections, t) == old(Count(loadBalancer.connections, t))
      ensures rotation.current
              == old(rotation.current) + if healthy != [] && strategy == ByRotation then 1 else 0
      ensures healthy == [] ==> response == NoHealthyTargets
      ensures healthy != [] ==>
                var target := old(Choice(strategy, rotation.current, draw, loadBalancer.connections, healthy));
                var admitted := old(Admits(circuitBreaker.Cfg(), circuitBreaker.Snapshot(), enteredAt));
                response == if target == "" then NoTarget
                            else if target !in proxies then NoProxy
                            else if !admitted then Unavailable
                            else Forwarded(target, ok)
      ensures !response.Forwarded? ==> circuitBreaker.Snapshot() == old(circuitBreaker.Snapshot())
      ensures response.Forwarded? ==>
                var entered := EnterStep(circuitBreaker.Cfg(), old(circuitBreaker.Snapshot()), enteredAt);
                circuitBreaker.Snapshot() == FinishStep(circuitBreaker.Cfg(), entered, ok, finishedAt)
    {
      if |healthy| == 0 {
        return NoHealthyTargets;
      }
      var target := Select(healthy, draw);
      if target == "" {
        return NoTarget;
      }
      if target !in proxies {
        return NoProxy;
      }
      if strategy == ByConnections {
        loadBalancer.Increment(target);
      }
      var result := circuitBreaker.Call(ok, enteredAt, finishedAt);
      if strategy == ByConnections {
        loadBalancer.Decrement(target);
      }
      if result == CircuitOpen {
        return Unavailable;
      }
      return Forwarded(target, ok);
    }
  }

  /** Counts in a Go int's range that are not negative. */
  ghost predicate Countable(connections: Connections) {
    InRange(connections) && forall t | t in connections :: 0 <= connections[t]
  }

  ghost predicate SameCounts(a: Connections, b: Connections) {
    forall t :: Count(a, t) == Count(b, t)
  }

  lemma SameCountsCountable(a: Connections, b: Connections)
    requires Countable(a) && SameCounts(a, b)
    ensures Countable(b)
  {
    forall t | t in b ensures 0 <= b[t] <= MAX_INT {
      assert Count(a, t) == Count(b, t);
    }
  }

  /** Who was served, as each strategy promises: an even rotation, the drawn targets, least loaded ones. */
  ghost predicate ServedBy(strategy: Strategy, start: nat, draws: seq<nat>, connections: Connections,
                           healthy: seq<string>, served: seq<string>)
    requires healthy != []
  {
    && |served| <= |draws|
    && (strategy == ByRotation ==> forall t :: multiset(served)[t] == TimesPicked(start, |served|, healthy, t))
    && (strategy == AtRandom ==> forall k | 0 <= k < |served| :: served[k] == healthy[draws[k] % |healthy|])
    && (strategy == ByConnections ==> forall k | 0 <= k < |served| :: IsLeast(connections, healthy, served[k]))
  }

  lemma LeastByCounts(a: Connections, b: Connections, healthy: seq<string>)
    requires healthy != [] && "" !in healthy && SameCounts(a, b)
    ensures IsLeast(a, healthy, NextTarget(b, healthy))
  {
    var least := healthy[LeastIndex(b, healthy, |healthy|)];
    assert least in healthy && NextTarget(b, healthy) == least;
    forall j | 0 <= j < |healthy| ensures Count(a, least) <= Count(a, healthy[j]) {
      assert Count(b, least) <= Count(b, healthy[j]);
    }
  }

  lemma OneMorePick(start: nat, healthy: seq<string>, served: seq<string>)
    requires healthy != []
    ensures (forall t :: multiset(served)[t] == TimesPicked(start, |served|, healthy, t)) ==>
              var target := healthy[(start + |served|) % |healthy|];
              forall t :: multiset(served + [target])[t] == TimesPicked(start, |served| + 1, healthy, t)
  {
  }

  lemma OneMoreServed(strategy: Strategy, start: nat, draws: seq<nat>, connections: Connections, now: Connections,
                      healthy: seq<string>, served: seq<string>)
    requires healthy != [] && "" !in healthy && SameCounts(connections, now)
    requires ServedBy(strategy, start, draws, connections, healthy, served) && |served| < |draws|
    ensures var target := Choice(strategy, start + |served|, draws[|served|], now, healthy);
            ServedBy(strategy, start, draws, connections, healthy, served + [target])
  {
    LeastByCounts(connections, now, healthy);
    OneMorePick(start, healthy, served);
  }

  /** A request that a closed breaker lets through and the backend answers well. */
  method ServeOne(p: Proxy, healthy: seq<string>, draw: nat, at: int) returns (target: string)
    requires p.strategy != Unknown && p.circuitBreaker.state == Closed
    requires healthy != [] && "" !in healthy && forall i | 0 <= i < |healthy| :: healthy[i] in p.proxies
    requires Countable(p.loadBalancer.connections)
    modifies p.rotation, p.loadBalancer, p.circuitBreaker
    ensures p.circuitBreaker.state == Closed
    ensures SameCounts(old(p.loadBalancer.connections), p.loadBalancer.connections)
    ensures target == old(Choice(p.strategy, p.rotation.current, draw, p.loadBalancer.connections, healthy))
    ensures p.rotation.current == old(p.rotation.current) + if p.strategy == ByRotation then 1 else 0
  {
    LeastByCounts(p.loadBalancer.connections, p.loadBalancer.connections, healthy);
    var response := p.HandleAlone(healthy, draw, true, at, at);
    target := response.target;
  }

  /** Requests one after the other, all answered well, on a closed breaker: with every healthy
      target named and proxied, all are forwarded, and to whom the name of the strategy says. */
  method HandleInTurn(p: Proxy, name: string, healthy: seq<string>, draws: seq<nat>, at: int)
    returns (served: seq<string>)
    requires p.strategy == NewStrategy(name) && KnownStrategy(name) && p.circuitBreaker.state == Closed
    requires healthy != [] && "" !in healthy && forall i | 0 <= i < |healthy| :: healthy[i] in p.proxies
    requires Countable(p.loadBalancer.connections)
    modifies p.rotation, p.loadBalancer, p.circuitBreaker
    ensures |served| == |draws|
    ensures name == "round-robin" || name == "round_robin" || name == "" ==>
              forall t :: multiset(served)[t] == TimesPicked(old(p.rotation.current), |draws|, healthy, t)
    ensures name == "random" ==> forall k | 0 <= k < |served| :: served[k] == healthy[draws[k] % |healthy|]
    ensures name == "least-connection" || name == "least_connections" ==>
              forall k | 0 <= k < |served| :: IsLeast(old(p.loadBalancer.connections), healthy, served[k])
  {
    served := [];
    for i := 0 to |draws|
      invariant |served| == i && p.circuitBreaker.state == Closed
      invariant Countable(p.loadBalancer.connections)
      invariant SameCounts(old(p.loadBalancer.connections), p.loadBalancer.connections)
      invariant p.strategy == ByRotation ==> p.rotation.current == old(p.rotation.current) + i
      invariant ServedBy(p.strategy, old(p.rotation.current), draws, old(p.loadBalancer.connections), healthy, served)
    {
      ghost var first, before := old(p.loadBalancer.connections), p.loadBalancer.connections;
      OneMoreServed(p.strategy, old(p.rotation.current), draws, first, before, healthy, served);
      var target := ServeOne(p, healthy, draws[i], at);
      SameCountsCountable(before, p.loadBalancer.connections);
      served := served + [target];
    }
  }

  /** With the random strategy every healthy target can be drawn. */
  lemma {:induction false} EveryTargetCanBeDrawn(healthy: seq<string>, k: nat, current: nat, connections: Connections)
    requires k < |healthy|
    ensures exists draw: nat :: Choice(AtRandom, current, draw, connections, healthy) == healthy[k]
  {
    Rotation.Split(k, |healthy|, 0, k);
    assert Choice(AtRandom, current, k, connections, healthy) == healthy[k];
  }
}
