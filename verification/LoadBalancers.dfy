/** The round-robin and least-connections strategies (internal/loadbalancer). */
module LoadBalancers {
  import opened Rotation

  datatype Strategy = ByRotation | AtRandom | ByConnections | Unknown

  function NewStrategy(name: string): Strategy {
    match name
    case "round-robin" | "round_robin" | "" => ByRotation
    case "random" => AtRandom
    case "least-connection" | "least_connections" => ByConnections
    case _ => Unknown
  }

  // ---------------------------------------------------------------- round robin

  class RoundRobin {
    var current: nat

    constructor ()
      ensures current == 0
    {
      current := 0;
    }

    method Next(targets: seq<string>) returns (target: string)
      modifies this
      ensures targets == [] ==> target == "" && current == old(current)
      ensures targets != [] ==> target == targets[old(current) % |targets|] && current == old(current) + 1
    {
      if |targets| == 0 {
        return "";
      }
      target := targets[current % |targets|];
      current := current + 1;
    }
  }

  ghost predicate Distinct(targets: seq<string>) {
    forall i, j | 0 <= i < j < |targets| :: targets[i] != targets[j]
  }

  /** What the k-th of consecutive `Next` calls returns, counting from 0. */
  ghost function Pick(start: nat, k: nat, targets: seq<string>): string
    requires targets != []
  {
    targets[(start + k) % |targets|]
  }

  /** How many of the first `n` calls return `target`. */
  ghost function TimesPicked(start: nat, n: nat, targets: seq<string>, target: string): nat
    requires targets != []
  {
    if n == 0 then 0
    else TimesPicked(start, n - 1, targets, target) + if Pick(start, n - 1, targets) == target then 1 else 0
  }

  /** `n` calls in a row on one list. */
  method ConsecutiveNext(rr: RoundRobin, targets: seq<string>, n: nat) returns (picked: seq<string>)
    requires targets != []
    modifies rr
    ensures rr.current == old(rr.current) + n
    ensures |picked| == n && forall k: nat | k < n :: picked[k] == Pick(old(rr.current), k, targets)
    ensures forall target :: multiset(picked)[target] == TimesPicked(old(rr.current), n, targets, target)
  {
    picked := [];
    for i := 0 to n
      invariant rr.current == old(rr.current) + i
      invariant |picked| == i && forall k: nat | k < i :: picked[k] == Pick(old(rr.current), k, targets)
      invariant forall target :: multiset(picked)[target] == TimesPicked(old(rr.current), i, targets, target)
    {
      var target := rr.Next(targets);
      assert target == Pick(old(rr.current), i, targets);
      picked := picked + [target];
    }
  }

  /** How many of the first `p` entries of the list are `target`. */
  ghost function Occurrences(targets: seq<string>, target: string, p: nat): nat
    requires p <= |targets|
  {
    if p == 0 then 0 else Occurrences(targets, target, p - 1) + if targets[p - 1] == target then 1 else 0
  }

  /** Visits to those of the first `p` positions that hold `target`. */
  ghost function VisitsTo(start: nat, n: nat, targets: seq<string>, target: string, p: nat): nat
    requires p <= |targets|
  {
    if p == 0 then 0
    else
      VisitsTo(start, n, targets, target, p - 1)
      + if targets[p - 1] == target then Visits(start, n, |targets|, p - 1) else 0
  }

  lemma {:induction false} OneMoreVisit(start: nat, n: nat, targets: seq<string>, target: string, p: nat)
    requires n > 0 && targets != [] && p <= |targets|
    ensures var pos := (start + n - 1) % |targets|;
            VisitsTo(start, n, targets, target, p)
            == VisitsTo(start, n - 1, targets, target, p) + if pos < p && targets[pos] == target then 1 else 0
  {
    if p > 0 {
      OneMoreVisit(start, n, targets, target, p - 1);
    }
  }

  lemma {:induction false} NoVisits(start: nat, targets: seq<string>, target: string, p: nat)
    requires p <= |targets|
    ensures VisitsTo(start, 0, targets, target, p) == 0
  {
    if p > 0 {
      NoVisits(start, targets, target, p - 1);
    }
  }

  lemma {:induction false} PicksAreVisits(start: nat, n: nat, targets: seq<string>, target: string)
    requires targets != []
    ensures TimesPicked(start, n, targets, target) == VisitsTo(start, n, targets, target, |targets|)
  {
    if n == 0 {
      NoVisits(start, targets, target, |targets|);
    } else {
      PicksAreVisits(start, n - 1, targets, target);
      OneMoreVisit(start, n, targets, target, |targets|);
    }
  }

  lemma OneMore(copies: nat, each: nat)
    ensures (copies + 1) * each == copies * each + each
  {
  }

  lemma {:induction false} VisitsPerOccurrence(
      start: nat, n: nat, targets: seq<string>, target: string, p: nat, floor: nat, ceiling: nat)
    requires p <= |targets|
    requires forall pos: nat | pos < |targets| :: floor <= Visits(start, n, |targets|, pos) <= ceiling
    ensures var copies := Occurrences(targets, target, p);
            copies * floor <= VisitsTo(start, n, targets, target, p) <= copies * ceiling
  {
    if p > 0 {
      VisitsPerOccurrence(start, n, targets, target, p - 1, floor, ceiling);
      var copies := Occurrences(targets, target, p - 1);
      OneMore(copies, floor);
      OneMore(copies, ceiling);
    }
  }

  /** From any counter value, n consecutive calls on a fixed list of m entries return every
      target n / m times per entry it has, each entry rounded down or, when m does not divide n, up. */
  lemma {:induction false} RoundRobinIsFair(start: nat, n: nat, targets: seq<string>, target: string)
    requires targets != []
    ensures var floor := n / |targets|;
            var ceiling := if n % |targets| == 0 then floor else floor + 1;
            var copies := Occurrences(targets, target, |targets|);
            copies * floor <= TimesPicked(start, n, targets, target) <= copies * ceiling
  {
    PicksAreVisits(start, n, targets, target);
    var floor := n / |targets|;
    var ceiling := if n % |targets| == 0 then floor else floor + 1;
    forall pos: nat | pos < |targets| ensures floor <= Visits(start, n, |targets|, pos) <= ceiling {
      VisitsAreFair(start, n, |targets|, pos);
    }
    VisitsPerOccurrence(start, n, targets, target, |targets|, floor, ceiling);
  }

  lemma {:induction false} DistinctOccursOnce(targets: seq<string>, pos: nat, p: nat)
    requires Distinct(targets) && pos < |targets| && p <= |targets|
    ensures Occurrences(targets, targets[pos], p) == if pos < p then 1 else 0
  {
    if p > 0 {
      DistinctOccursOnce(targets, pos, p - 1);
    }
  }

  /** With distinct targets, each is returned n / m times, rounded down or up. */
  lemma {:induction false} RoundRobinIsFairToEach(start: nat, n: nat, targets: seq<string>, pos: nat)
    requires Distinct(targets) && pos < |targets|
    ensures var times := TimesPicked(start, n, targets, targets[pos]);
            times == n / |targets| || (n % |targets| != 0 && times == n / |targets| + 1)
  {
    RoundRobinIsFair(start, n, targets, targets[pos]);
    DistinctOccursOnce(targets, pos, |targets|);
  }

  // ---------------------------------------------------------------- least connections

  const MAX_INT: int := 0x7FFF_FFFF_FFFF_FFFF

  type Connections = map<string, int>

  /** A missing key reads as zero. */
  function Count(conns: Connections, target: string): int {
    if target in conns then conns[target] else 0
  }

  /** The first of the first `n` targets with the fewest connections. */
  function LeastIndex(conns: Connections, targets: seq<string>, n: nat): (i: nat)
    requires 0 < n <= |targets|
    ensures i < n
    ensures forall j | 0 <= j < n :: Count(conns, targets[i]) <= Count(conns, targets[j])
    ensures forall j | 0 <= j < i :: Count(conns, targets[i]) < Count(conns, targets[j])
  {
    if n == 1 then 0
    else
      var best := LeastIndex(conns, targets, n - 1);
      if Count(conns, targets[n - 1]) < Count(conns, targets[best]) then n - 1 else best
  }

  /** An empty name selected by the search is taken for "nothing selected". */
  function NextTarget(conns: Connections, targets: seq<string>): string {
    if targets == [] then ""
    else
      var least := targets[LeastIndex(conns, targets, |targets|)];
      if least == "" then targets[0] else least
  }

  function Incremented(conns: Connections, target: string): Connections {
    conns[target := Count(conns, target) + 1]
  }

  function Decremented(conns: Connections, target: string): Connections {
    if Count(conns, target) > 0 then conns[target := Count(conns, target) - 1] else conns
  }

  /** Counts are Go ints. */
  ghost predicate InRange(conns: Connections) {
    forall t | t in conns :: conns[t] <= MAX_INT
  }

  class LeastConnections {
    var connections: Connections

    constructor ()
      ensures connections == map[]
    {
      connections := map[];
    }

    method Next(targets: seq<string>) returns (selected: string)
      requires InRange(connections)
      ensures selected == NextTarget(connections, targets)
    {
      if |targets| == 0 {
        return "";
      }
      selected := "";
      var minConn := MAX_INT;
      for i := 0 to |targets|
        invariant i == 0 ==> selected == "" && minConn == MAX_INT
        invariant i > 0 ==>
                    var least := LeastIndex(connections, targets, i);
                    && minConn == Count(connections, targets[least])
                    && (selected == targets[least] || (selected == "" && least == 0))
      {
        var conn := Count(connections, targets[i]);
        if conn < minConn {
          minConn := conn;
          selected := targets[i];
        }
      }
      if selected == "" {
        selected := targets[0];
      }
    }

    method Increment(target: string)
      modifies this
      ensures connections == Incremented(old(connections), target)
    {
      connections := connections[target := Count(connections, target) + 1];
    }

    method Decrement(target: string)
      modifies this
      ensures connections == Decremented(old(connections), target)
    {
      if Count(connections, target) > 0 {
        connections := connections[target := Count(connections, target) - 1];
      }
    }
  }

  /** The empty name, if configured at all, comes first. */
  predicate EmptyNameFirst(targets: seq<string>) {
    "" in targets ==> targets[0] == ""
  }

  ghost predicate IsLeast(conns: Connections, targets: seq<string>, target: string) {
    target in targets && forall j | 0 <= j < |targets| :: Count(conns, target) <= Count(conns, targets[j])
  }

  /** `Next` picks a target with the fewest connections, whatever the counts, exactly
      when an empty target name is absent or first in the list. */
  lemma NextIsLeastIff(targets: seq<string>)
    requires targets != []
    ensures (forall conns: Connections :: IsLeast(conns, targets, NextTarget(conns, targets)))
            <==> EmptyNameFirst(targets)
  {
    if EmptyNameFirst(targets) {
      forall conns: Connections ensures IsLeast(conns, targets, NextTarget(conns, targets)) {
        var i := LeastIndex(conns, targets, |targets|);
        assert targets[i] in targets;
      }
    } else {
      var k :| 0 <= k < |targets| && targets[k] == "";
      var conns: Connections := map t | t in targets && t != "" :: 1;
      var i := LeastIndex(conns, targets, |targets|);
      assert Count(conns, targets[k]) == 0;
      assert targets[i] == "";
      assert Count(conns, targets[0]) == 1;
      assert !IsLeast(conns, targets, NextTarget(conns, targets));
    }
  }

  /** Target "a" busy, the empty name second and idle: `Next` still picks "a". */
  lemma EmptyNameIsPassedOver()
    ensures var conns, targets: seq<string> := map["a" := 1], ["a", ""];
            NextTarget(conns, targets) == "a" && !IsLeast(conns, targets, "a")
  {
    var conns, targets: seq<string> := map["a" := 1], ["a", ""];
    assert Count(conns, targets[1]) == 0 && Count(conns, targets[0]) == 1;
    assert LeastIndex(conns, targets, 1) == 0;
    assert LeastIndex(conns, targets, 2) == 1;
  }

  // ---------------------------------------------------------------- spreading load

  /** The counts after `n` rounds of select-then-increment with nothing released. */
  ghost function Spread(targets: seq<string>, n: nat): Connections
    requires targets != []
  {
    if n == 0 then map[]
    else
      var before := Spread(targets, n - 1);
      Incremented(before, NextTarget(before, targets))
  }

  lemma {:induction false} WithinOne(targets: seq<string>, n: nat, i: nat, j: nat)
    requires targets != [] && EmptyNameFirst(targets) && i < |targets| && j < |targets|
    ensures Count(Spread(targets, n), targets[i]) - Count(Spread(targets, n), targets[j]) <= 1
  {
    if n > 0 {
      WithinOne(targets, n - 1, i, j);
      var before := Spread(targets, n - 1);
      var least := LeastIndex(before, targets, |targets|);
      assert targets[least] in targets;
      assert NextTarget(before, targets) == targets[least];
    }
  }

  /** How many of the first `p` entries have no connections. */
  ghost function IdleEntries(conns: Connections, targets: seq<string>, p: nat): nat
    requires p <= |targets|
  {
    if p == 0 then 0 else IdleEntries(conns, targets, p - 1) + if Count(conns, targets[p - 1]) == 0 then 1 else 0
  }

  lemma {:induction false} IdleEntriesFall(conns: Connections, targets: seq<string>, k: nat, p: nat)
    requires k < |targets| && p <= |targets| && Count(conns, targets[k]) == 0
    ensures var after := IdleEntries(Incremented(conns, targets[k]), targets, p);
            after <= IdleEntries(conns, targets, p) && (k < p ==> after < IdleEntries(conns, targets, p))
  {
    if p > 0 {
      IdleEntriesFall(conns, targets, k, p - 1);
    }
  }

  /** An empty name that is not first has never been picked. */
  ghost predicate EmptyNameIdle(conns: Connections, targets: seq<string>) {
    Count(conns, "") == 0 && forall i | 0 <= i < |targets| :: Count(conns, targets[i]) >= 0
  }

  lemma {:induction false} EmptyNameStaysIdle(targets: seq<string>, n: nat)
    requires targets != [] && targets[0] != ""
    ensures EmptyNameIdle(Spread(targets, n), targets)
  {
    if n > 0 {
      EmptyNameStaysIdle(targets, n - 1);
    }
  }

  /** A round makes an idle entry busy, or goes to the first target when that is busy already. */
  lemma {:induction false} RoundFillsOrPiles(conns: Connections, targets: seq<string>, k: nat)
    requires k < |targets| && targets[0] != "" && targets[k] == "" && EmptyNameIdle(conns, targets)
    ensures var next := Incremented(conns, NextTarget(conns, targets));
            || Count(next, targets[0]) > 1
            || IdleEntries(next, targets, |targets|) < IdleEntries(conns, targets, |targets|)
  {
    var least := LeastIndex(conns, targets, |targets|);
    assert Count(conns, targets[least]) <= Count(conns, targets[k]);
    if targets[least] == "" {
      assert Count(conns, targets[least]) < Count(conns, targets[0]);
    } else {
      IdleEntriesFall(conns, targets, least, |targets|);
    }
  }

  /** Once every other target is busy the first one takes all that follows. */
  lemma {:induction false} FirstPilesUp(targets: seq<string>, k: nat, n: nat) returns (m: nat)
    requires targets != [] && targets[0] != "" && k < |targets| && targets[k] == ""
    ensures Count(Spread(targets, m), targets[0]) > 1
    decreases IdleEntries(Spread(targets, n), targets, |targets|)
  {
    EmptyNameStaysIdle(targets, n);
    RoundFillsOrPiles(Spread(targets, n), targets, k);
    if Count(Spread(targets, n + 1), targets[0]) > 1 {
      m := n + 1;
    } else {
      m := FirstPilesUp(targets, k, n + 1);
    }
  }

  /** The counts of any two listed targets differ by at most one after `n` rounds. */
  ghost predicate Even(targets: seq<string>, n: nat)
    requires targets != []
  {
    forall i, j | 0 <= i < |targets| && 0 <= j < |targets| ::
      Count(Spread(targets, n), targets[i]) - Count(Spread(targets, n), targets[j]) <= 1
  }

  /** Without releases the counts stay within one of each other for ever, exactly when an
      empty target name is absent or first in the list. */
  lemma {:induction false} SpreadIsEvenIff(targets: seq<string>)
    requires targets != []
    ensures (forall n: nat :: Even(targets, n)) <==> EmptyNameFirst(targets)
  {
    if EmptyNameFirst(targets) {
      forall n: nat ensures Even(targets, n) {
        forall i, j | 0 <= i < |targets| && 0 <= j < |targets|
          ensures Count(Spread(targets, n), targets[i]) - Count(Spread(targets, n), targets[j]) <= 1
        {
          WithinOne(targets, n, i, j);
        }
      }
    } else {
      var k :| 0 <= k < |targets| && targets[k] == "";
      var m := FirstPilesUp(targets, k, 0);
      EmptyNameStaysIdle(targets, m);
      assert Count(Spread(targets, m), targets[0]) - Count(Spread(targets, m), targets[k]) > 1;
      assert !Even(targets, m);
    }
  }

  /** Two rounds over "a" and the empty name: both go to "a". */
  lemma SpreadPilesUp()
    ensures var targets: seq<string> := ["a", ""];
            Count(Spread(targets, 2), "a") == 2 && Count(Spread(targets, 2), "") == 0 && !Even(targets, 2)
  {
    var targets: seq<string> := ["a", ""];
    var one: Connections := map["a" := 1];
    assert LeastIndex(map[], targets, 1) == 0 && LeastIndex(map[], targets, 2) == 0;
    assert Spread(targets, 0) == map[];
    assert Spread(targets, 1) == one;
    assert LeastIndex(one, targets, 1) == 0 && LeastIndex(one, targets, 2) == 1;
    assert NextTarget(one, targets) == "a";
    assert Count(Spread(targets, 2), targets[0]) == 2 && Count(Spread(targets, 2), targets[1]) == 0;
  }

  lemma {:induction false} FirstLeastIsUnique(conns: Connections, targets: seq<string>, i: nat)
    requires i < |targets|
    requires forall j | 0 <= j < |targets| :: Count(conns, targets[i]) <= Count(conns, targets[j])
    requires forall j | 0 <= j < i :: Count(conns, targets[i]) < Count(conns, targets[j])
    ensures LeastIndex(conns, targets, |targets|) == i
  {
  }

  /** Counts of a rotation that has taken `n` steps. */
  ghost predicate RotatedBy(conns: Connections, targets: seq<string>, n: nat) {
    forall i: nat | i < |targets| :: Count(conns, targets[i]) == CountBelow(n, |targets|, i)
  }

  lemma RotationPicksNext(conns: Connections, targets: seq<string>, n: nat)
    requires targets != [] && "" !in targets && RotatedBy(conns, targets, n)
    ensures NextTarget(conns, targets) == targets[n % |targets|]
  {
    FirstLeastIsUnique(conns, targets, n % |targets|);
    assert targets[n % |targets|] in targets;
  }

  lemma {:induction false} RotationAdvances(conns: Connections, targets: seq<string>, n: nat)
    requires targets != [] && Distinct(targets) && "" !in targets && RotatedBy(conns, targets, n)
    ensures RotatedBy(Incremented(conns, NextTarget(conns, targets)), targets, n + 1)
  {
    RotationPicksNext(conns, targets, n);
    var next := Incremented(conns, targets[n % |targets|]);
    forall i: nat | i < |targets| ensures Count(next, targets[i]) == CountBelow(n + 1, |targets|, i) {
      NextCount(n, |targets|, i);
    }
  }

  lemma {:induction false} NothingRotated(targets: seq<string>)
    requires targets != []
    ensures RotatedBy(map[], targets, 0)
  {
    Split(0, |targets|, 0, 0);
  }

  lemma {:induction false} SpreadRotates(targets: seq<string>, n: nat)
    requires targets != [] && Distinct(targets) && "" !in targets
    ensures RotatedBy(Spread(targets, n), targets, n)
  {
    if n == 0 {
      NothingRotated(targets);
    } else {
      SpreadRotates(targets, n - 1);
      RotationAdvances(Spread(targets, n - 1), targets, n - 1);
    }
  }

  /** From zero and without releases, least-connections picks exactly as round robin does. */
  lemma {:induction false} SpreadIsRoundRobin(targets: seq<string>, n: nat)
    requires targets != [] && Distinct(targets) && "" !in targets
    ensures NextTarget(Spread(targets, n), targets) == Pick(0, n, targets)
    ensures forall i: nat | i < |targets| :: Count(Spread(targets, n), targets[i]) == CountBelow(n, |targets|, i)
  {
    SpreadRotates(targets, n);
    RotationPicksNext(Spread(targets, n), targets, n);
  }
}
