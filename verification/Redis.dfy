/** What the gateway relies on in Redis: a key is absent, or holds a value that
    may carry an expiry instant. Instants are integer nanoseconds. */
module Redis {

  const SECOND: int := 1_000_000_000

  datatype Expiry = Never | At(instant: int)

  datatype Cell<+V> = Absent | Held(value: V, expiry: Expiry)

  /** A key past its expiry reads exactly as an absent one. */
  predicate Live<V>(cell: Cell<V>, now: int) {
    cell.Held? && (cell.expiry.At? ==> now < cell.expiry.instant)
  }

  /** The cell stored under `key`; keys never written are absent. */
  function Lookup<V>(cells: map<string, Cell<V>>, key: string): Cell<V> {
    if key in cells then cells[key] else Absent
  }

  /** A clock that never goes backwards. */
  ghost predicate Nondecreasing(times: seq<int>) {
    forall i, j | 0 <= i <= j < |times| :: times[i] <= times[j]
  }
}
