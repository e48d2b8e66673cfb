/** Calls that wait between two of their steps, in schedules where any of them may go next. */
module PendingCalls {

  /** Any finite schedule of steps, last step outermost. */
  datatype Schedule<+T> = Idle | Then(before: Schedule<T>, step: T)

  function Without<T>(calls: seq<T>, i: nat): seq<T>
    requires i < |calls|
  {
    calls[..i] + calls[i + 1..]
  }

  lemma WithoutIndex<T>(calls: seq<T>, i: nat, k: nat)
    requires i < |calls| && k < |calls| - 1
    ensures Without(calls, i)[k] == calls[if k < i then k else k + 1]
  {
  }
}
