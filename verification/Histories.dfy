/** Histories of outcomes, `true` for a success: how many of the latest failed. */
module Histories {

  /** Length of the run of failures at the end. */
  function TrailingFailures(outcomes: seq<bool>): nat {
    if outcomes == [] || outcomes[|outcomes| - 1] then 0
    else TrailingFailures(outcomes[..|outcomes| - 1]) + 1
  }

  ghost predicate LastAllFailed(outcomes: seq<bool>, n: nat) {
    n <= |outcomes| && forall i | |outcomes| - n <= i < |outcomes| :: !outcomes[i]
  }

  lemma {:induction false} TrailingMeansLastFailed(outcomes: seq<bool>, n: nat)
    ensures n <= TrailingFailures(outcomes) <==> LastAllFailed(outcomes, n)
  {
    if outcomes != [] && n > 0 {
      var last := |outcomes| - 1;
      TrailingMeansLastFailed(outcomes[..last], n - 1);
      if LastAllFailed(outcomes[..last], n - 1) && !outcomes[last] {
        forall i | |outcomes| - n <= i < |outcomes| ensures !outcomes[i] {
          if i < last { assert outcomes[i] == outcomes[..last][i]; }
        }
      }
      if LastAllFailed(outcomes, n) {
        forall i | last - (n - 1) <= i < last ensures !outcomes[..last][i] {
          assert outcomes[..last][i] == outcomes[i];
        }
      }
    }
  }

  lemma {:induction false} TrailingAppend(outcomes: seq<bool>, ok: bool)
    ensures TrailingFailures(outcomes + [ok]) == if ok then 0 else TrailingFailures(outcomes) + 1
  {
    assert (outcomes + [ok])[..|outcomes|] == outcomes;
  }
}
