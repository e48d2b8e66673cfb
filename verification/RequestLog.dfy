/** The request-log pipeline (internal/middleware/requestlogger.go): requests offer entries
    to a bounded channel without blocking, one worker collects them into batches and hands
    a batch to `insertBatch` when it is full or when the ticker fires. */
module RequestLogs {

  const BATCH_SIZE: nat := 100

  /** `flushed`: the batches given to `insertBatch`, oldest first. `accepted` and `dropped`:
      the entries that did and did not get into the channel, in order of arrival. */
  datatype Pipeline<T> = Pipeline(
    capacity: nat,
    channel: seq<T>,
    batch: seq<T>,
    flushed: seq<seq<T>>,
    accepted: seq<T>,
    dropped: seq<T>)

  /** `Offer(e, waiting)`: a request logs `e`; `waiting` says whether the worker is blocked in
      its select, which matters only to an unbuffered channel. */
  datatype Step<T> = Offer(entry: T, waiting: bool) | Receive | Tick

  function Flush<T>(p: Pipeline<T>): Pipeline<T> {
    p.(flushed := p.flushed + [p.batch], batch := [])
  }

  /** The worker gets an entry. */
  function Take<T>(p: Pipeline<T>, entry: T): Pipeline<T> {
    var longer := p.(batch := p.batch + [entry]);
    if |longer.batch| >= BATCH_SIZE then Flush(longer) else longer
  }

  function Next<T>(p: Pipeline<T>, step: Step<T>): Pipeline<T> {
    match step
    case Offer(entry, waiting) =>
      if |p.channel| < p.capacity then p.(channel := p.channel + [entry], accepted := p.accepted + [entry])
      else if p.capacity == 0 && waiting then Take(p.(accepted := p.accepted + [entry]), entry)
      else p.(dropped := p.dropped + [entry])
    case Receive =>
      if p.channel == [] then p else Take(p.(channel := p.channel[1..]), p.channel[0])
    case Tick =>
      if |p.batch| > 0 then Flush(p) else p
  }

  function Empty<T>(capacity: nat): Pipeline<T> {
    Pipeline(capacity, [], [], [], [], [])
  }

  /** The pipeline as it runs; the worker and the requests act on the same fields. */
  class RequestLogger<T> {
    const capacity: nat
    var channel: seq<T>
    var batch: seq<T>
    var flushed: seq<seq<T>>
    ghost var accepted: seq<T>
    ghost var dropped: seq<T>

    ghost function Snapshot(): Pipeline<T>
      reads this
    {
      Pipeline(capacity, channel, batch, flushed, accepted, dropped)
    }

    constructor (bufferSize: nat)
      ensures Snapshot() == Empty(bufferSize)
    {
      capacity := bufferSize;
      channel, batch, flushed := [], [], [];
      accepted, dropped := [], [];
    }

    /** An empty batch is not inserted. */
    method InsertBatch(logs: seq<T>)
      modifies this`flushed
      ensures flushed == old(flushed) + if logs == [] then [] else [logs]
    {
      if |logs| == 0 {
        return;
      }
      flushed := flushed + [logs];
    }

    method Append(entry: T)
      modifies this`batch, this`flushed
      ensures Snapshot() == Take(old(Snapshot()), entry)
    {
      batch := batch + [entry];
      if |batch| >= BATCH_SIZE {
        InsertBatch(batch);
        batch := [];
      }
    }

    /** The non-blocking send of a request. */
    method Log(entry: T, workerWaiting: bool)
      modifies this
      ensures Snapshot() == Next(old(Snapshot()), Offer(entry, workerWaiting))
    {
      if |channel| < capacity {
        channel := channel + [entry];
        accepted := accepted + [entry];
      } else if capacity == 0 && workerWaiting {
        accepted := accepted + [entry];
        Append(entry);
      } else {
        dropped := dropped + [entry];
      }
    }

    method OnTick()
      modifies this`batch, this`flushed
      ensures Snapshot() == Next(old(Snapshot()), Tick)
    {
      if |batch| > 0 {
        InsertBatch(batch);
        batch := [];
      }
    }

    method OnReceive()
      modifies this`channel, this`batch, this`flushed
      ensures Snapshot() == Next(old(Snapshot()), Receive)
    {
      if channel == [] {
        return;
      }
      var log := channel[0];
      channel := channel[1..];
      Append(log);
    }

    /** A finite stretch of the worker's endless loop, with the sends that fall into it. */
    method Work(steps: seq<Step<T>>)
      modifies this
      ensures Snapshot() == After(old(Snapshot()), steps, |steps|)
    {
      for i := 0 to |steps|
        invariant Snapshot() == After(old(Snapshot()), steps, i)
      {
        match steps[i]
        case Offer(entry, waiting) => Log(entry, waiting);
        case Receive => OnReceive();
        case Tick => OnTick();
      }
    }
  }

  // ---------------------------------------------------------------- runs

  ghost function After<T>(p: Pipeline<T>, steps: seq<Step<T>>, n: nat): Pipeline<T>
    requires n <= |steps|
  {
    if n == 0 then p else Next(After(p, steps, n - 1), steps[n - 1])
  }

  ghost function Flatten<T>(batches: seq<seq<T>>): seq<T> {
    if batches == [] then [] else Flatten(batches[..|batches| - 1]) + batches[|batches| - 1]
  }

  lemma {:induction false} FlattenAppend<T>(batches: seq<seq<T>>, batch: seq<T>)
    ensures Flatten(batches + [batch]) == Flatten(batches) + batch
  {
    assert (batches + [batch])[..|batches|] == batches;
  }

  /** Everything accepted is, in order, in a flushed batch, the current batch or the channel. */
  ghost predicate Conserved<T>(p: Pipeline<T>) {
    Flatten(p.flushed) + p.batch + p.channel == p.accepted
  }

  ghost predicate Sized<T>(p: Pipeline<T>) {
    && |p.channel| <= p.capacity && |p.batch| < BATCH_SIZE
    && forall i | 0 <= i < |p.flushed| :: 1 <= |p.flushed[i]| <= BATCH_SIZE
  }

  lemma FlushConserves<T>(p: Pipeline<T>)
    ensures Flatten(Flush(p).flushed) + Flush(p).batch == Flatten(p.flushed) + p.batch
  {
    FlattenAppend(p.flushed, p.batch);
  }

  lemma TakeConserves<T>(p: Pipeline<T>, entry: T)
    ensures Flatten(Take(p, entry).flushed) + Take(p, entry).batch == Flatten(p.flushed) + p.batch + [entry]
  {
    var longer := p.(batch := p.batch + [entry]);
    assert Flatten(longer.flushed) + longer.batch == Flatten(p.flushed) + p.batch + [entry];
    FlushConserves(longer);
  }

  lemma ReceiveConserves<T>(p: Pipeline<T>)
    requires Conserved(p) && p.channel != []
    ensures Conserved(Next(p, Receive))
  {
    assert p.channel == [p.channel[0]] + p.channel[1..];
    TakeConserves(p.(channel := p.channel[1..]), p.channel[0]);
  }

  lemma OfferConserves<T>(p: Pipeline<T>, entry: T, waiting: bool)
    requires Conserved(p) && |p.channel| <= p.capacity
    ensures Conserved(Next(p, Offer(entry, waiting)))
  {
    if p.capacity == 0 && waiting {
      TakeConserves(p.(accepted := p.accepted + [entry]), entry);
    }
  }

  lemma StepIsConserved<T>(p: Pipeline<T>, step: Step<T>)
    requires Conserved(p) && |p.channel| <= p.capacity
    ensures Conserved(Next(p, step))
  {
    match step
    case Offer(entry, waiting) => OfferConserves(p, entry, waiting);
    case Receive => if p.channel != [] { ReceiveConserves(p); }
    case Tick => FlushConserves(p);
  }

  lemma StepIsSized<T>(p: Pipeline<T>, step: Step<T>)
    requires Sized(p)
    ensures Sized(Next(p, step))
  {
  }

  lemma StepConserves<T>(p: Pipeline<T>, step: Step<T>)
    requires Conserved(p) && Sized(p)
    ensures Conserved(Next(p, step)) && Sized(Next(p, step))
  {
    StepIsConserved(p, step);
    StepIsSized(p, step);
  }

  /** A batch leaves short of 100 entries only on a tick; otherwise it leaves full, and at once. */
  lemma ShortBatchesLeaveOnTicks<T>(capacity: nat, steps: seq<Step<T>>, n: nat)
    requires n < |steps|
    ensures var p := After(Empty(capacity), steps, n);
            var after := After(Empty(capacity), steps, n + 1);
            && |after.flushed| <= |p.flushed| + 1
            && (|after.flushed| > |p.flushed| ==>
                  after.batch == [] && (|after.flushed[|p.flushed|]| == 100 <==> !steps[n].Tick?))
  {
    RunConserves(capacity, steps, n);
  }

  /** In every run nothing accepted is lost, duplicated or reordered, and every batch
      handed on has 1 to 100 entries. */
  lemma {:induction false} RunConserves<T>(capacity: nat, steps: seq<Step<T>>, n: nat)
    requires n <= |steps|
    ensures var p := After(Empty(capacity), steps, n);
            Conserved(p) && Sized(p) && p.capacity == capacity
  {
    if n > 0 {
      RunConserves(capacity, steps, n - 1);
      StepConserves(After(Empty(capacity), steps, n - 1), steps[n - 1]);
    }
  }

  /** Every tick leaves an empty batch, and hands on exactly what was in it, if anything. */
  lemma {:induction false} TickEmptiesBatch<T>(capacity: nat, steps: seq<Step<T>>, n: nat)
    requires n < |steps| && steps[n].Tick?
    ensures var p := After(Empty(capacity), steps, n);
            var after := After(Empty(capacity), steps, n + 1);
            && after.batch == [] && after.channel == p.channel
            && (|after.flushed| > |p.flushed| <==> p.batch != [])
            && Flatten(after.flushed) == Flatten(p.flushed) + p.batch
  {
    var p := After(Empty(capacity), steps, n);
    FlattenAppend(p.flushed, p.batch);
  }

  /** The entries offered by the first `n` steps. */
  ghost function Offered<T>(steps: seq<Step<T>>, n: nat): seq<T>
    requires n <= |steps|
  {
    if n == 0 then []
    else if steps[n - 1].Offer? then Offered(steps, n - 1) + [steps[n - 1].entry]
    else Offered(steps, n - 1)
  }

  lemma OfferIsAccountedFor<T>(p: Pipeline<T>, step: Step<T>)
    ensures var after := Next(p, step);
            multiset(after.accepted) + multiset(after.dropped)
            == multiset(p.accepted) + multiset(p.dropped) + if step.Offer? then multiset{step.entry} else multiset{}
  {
  }

  /** Every offered entry is accepted or dropped, and not both. */
  lemma {:induction false} OffersAreAccountedFor<T>(capacity: nat, steps: seq<Step<T>>, n: nat)
    requires n <= |steps|
    ensures var p := After(Empty(capacity), steps, n);
            multiset(p.accepted) + multiset(p.dropped) == multiset(Offered(steps, n))
  {
    if n > 0 {
      OffersAreAccountedFor(capacity, steps, n - 1);
      OfferIsAccountedFor(After(Empty(capacity), steps, n - 1), steps[n - 1]);
    }
  }

  /** An entry is dropped exactly when it meets a full channel that cannot hand it straight
      to a waiting worker; with a buffered channel, exactly when the buffer is full. */
  lemma DroppedOnlyWhenFull<T>(capacity: nat, steps: seq<Step<T>>, n: nat)
    requires n < |steps|
    ensures var p := After(Empty(capacity), steps, n);
            var after := After(Empty(capacity), steps, n + 1);
            after.dropped != p.dropped
            <==> steps[n].Offer? && |p.channel| == capacity && !(capacity == 0 && steps[n].waiting)
  {
    RunConserves(capacity, steps, n);
  }

  // ---------------------------------------------------------------- draining

  ghost function Receives<T>(p: Pipeline<T>, n: nat): Pipeline<T> {
    if n == 0 then p else Next(Receives(p, n - 1), Receive)
  }

  lemma {:induction false} ReceivesDrain<T>(p: Pipeline<T>, n: nat)
    requires n <= |p.channel| && Conserved(p) && Sized(p)
    ensures var q := Receives(p, n);
            Conserved(q) && Sized(q) && |q.channel| == |p.channel| - n && q.accepted == p.accepted
  {
    if n > 0 {
      ReceivesDrain(p, n - 1);
      StepConserves(Receives(p, n - 1), Receive);
    }
  }

  /** One receive per queued entry and one tick bring every accepted entry to `insertBatch`. */
  lemma {:induction false} DrainFlushesAll<T>(capacity: nat, steps: seq<Step<T>>)
    ensures var p := After(Empty(capacity), steps, |steps|);
            Flatten(Next(Receives(p, |p.channel|), Tick).flushed) == p.accepted
  {
    var p := After(Empty(capacity), steps, |steps|);
    RunConserves(capacity, steps, |steps|);
    ReceivesDrain(p, |p.channel|);
    var q := Receives(p, |p.channel|);
    StepConserves(q, Tick);
  }
}
