/** The API-key cache under concurrency: every cache access and every database access
    is a step of its own, and the steps of any number of calls interleave freely.

    `Update` and `Delete` write a tombstone before they write the row. Here their
    two halves may come in any order and any number, so the results cover that
    order as well. */
module ApiKeyRaces {
  import opened Redis
  import opened ApiKeys
  import opened PendingCalls

  /** A `Validate` that read `row` from the database and has not written the cache yet. */
  datatype Holding = Holding(hash: string, row: Row)

  /** `missed`: hashes of the `Validate` calls that missed the cache and have not queried yet.
      `clearing`: hashes of the invalidations that found their row and have not written yet. */
  datatype State = State(service: Service, missed: seq<string>, holding: seq<Holding>, clearing: seq<string>)

  datatype Event =
    | ReadCache(hash: string, now: int)
    | ReadRow(i: nat, now: int)
    | WriteCache(i: nat, now: int)
    | FindKey(id: string, now: int)
    | WriteTombstone(i: nat, now: int)
    | WriteRow(id: string, updates: Updates, now: int)
    | RemoveRow(id: string, now: int)
    | AddRow(row: Row, now: int)
    | TouchLastUsed(id: string, now: int)

  const START: State := State(Service(Table(map[], map[]), map[]), [], [], [])

  predicate Enabled(s: State, e: Event) {
    && (e.ReadRow? ==> e.i < |s.missed|)
    && (e.WriteCache? ==> e.i < |s.holding|)
    && (e.WriteTombstone? ==> e.i < |s.clearing|)
  }

  function SetCache(s: State, hash: string, cell: Cell<Cached>): State {
    s.(service := s.service.(cache := s.service.cache[hash := cell]))
  }

  function SetTable(s: State, table: Table): State {
    s.(service := s.service.(table := table))
  }

  /** An event that names no waiting call has no effect. */
  function Next(s: State, e: Event): State {
    if !Enabled(s, e) then s else
    match e
    case ReadCache(hash, now) =>
      if Hit(s.service, hash, now) then s else s.(missed := s.missed + [hash])
    case ReadRow(i, _) =>
      var waiting := s.(missed := Without(s.missed, i));
      (match FindByHash(s.service.table, s.missed[i])
       case None => waiting
       case Some(row) => waiting.(holding := s.holding + [Holding(s.missed[i], row)]))
    case WriteCache(i, now) =>
      var h := s.holding[i];
      SetCache(s, h.hash, Held(Record(Json(h.row)), At(now + CACHE_TTL))).(holding := Without(s.holding, i))
    case FindKey(id, _) =>
      (match FindByID(s.service.table, id)
       case None => s
       case Some(row) => s.(clearing := s.clearing + [row.keyHash]))
    case WriteTombstone(i, _) =>
      SetCache(s, s.clearing[i], Held(Tombstone, Never)).(clearing := Without(s.clearing, i))
    case WriteRow(id, updates, _) => SetTable(s, UpdateRow(s.service.table, id, updates))
    case RemoveRow(id, _) => SetTable(s, DeleteRow(s.service.table, id))
    case AddRow(row, _) =>
      if Insert(s.service.table, row).Some? then SetTable(s, Insert(s.service.table, row).value) else s
    case TouchLastUsed(id, now) => SetTable(s, TouchRow(s.service.table, id, now))
  }

  ghost function After(es: seq<Event>, n: nat): State
    requires n <= |es|
  {
    if n == 0 then START else Next(After(es, n - 1), es[n - 1])
  }

  ghost function CellAt(es: seq<Event>, n: nat, hash: string): Cell<Cached>
    requires n <= |es|
  {
    Lookup(After(es, n).service.cache, hash)
  }

  ghost function RowAt(es: seq<Event>, n: nat, hash: string): Option<Row>
    requires n <= |es|
  {
    FindByHash(After(es, n).service.table, hash)
  }

  ghost predicate Forward(es: seq<Event>) {
    forall i, j | 0 <= i <= j < |es| :: es[i].now <= es[j].now
  }

  // ---------------------------------------------------------------- where a cached record comes from

  /** A row held after an event was held before it, or the event just read it. */
  lemma HeldBefore(s: State, e: Event, k: nat) returns (k': nat)
    requires k < |Next(s, e).holding|
    ensures k' < |s.holding| ==> s.holding[k'] == Next(s, e).holding[k]
    ensures k' >= |s.holding| ==>
              && e.ReadRow? && e.i < |s.missed| && Next(s, e).holding[k].hash == s.missed[e.i]
              && FindByHash(s.service.table, s.missed[e.i]) == Some(Next(s, e).holding[k].row)
  {
    k' := k;
    if e.WriteCache? && e.i < |s.holding| {
      WithoutIndex(s.holding, e.i, k);
      k' := if k < e.i then k else k + 1;
    }
  }

  /** Every held row was the active row when its `Validate` read it. */
  lemma {:induction false} HeldRowWasRead(es: seq<Event>, n: nat, k: nat) returns (read: nat)
    requires n <= |es| && k < |After(es, n).holding|
    ensures read < n && es[read].ReadRow?
    ensures RowAt(es, read, After(es, n).holding[k].hash) == Some(After(es, n).holding[k].row)
  {
    var k' := HeldBefore(After(es, n - 1), es[n - 1], k);
    if k' < |After(es, n - 1).holding| {
      read := HeldRowWasRead(es, n - 1, k');
    } else {
      read := n - 1;
    }
  }

  lemma OthersKeepCell(s: State, e: Event, hash: string)
    requires !(e.WriteCache? && e.i < |s.holding| && s.holding[e.i].hash == hash)
    ensures var cell := Lookup(Next(s, e).service.cache, hash);
            cell == Lookup(s.service.cache, hash) || cell == Held(Tombstone, Never)
  {
  }

  /** Every cached record was written by a `Validate` that held its row, and expires
      five minutes after that write. */
  lemma {:induction false} RecordWasWritten(es: seq<Event>, n: nat, hash: string) returns (write: nat)
    requires n <= |es| && CellAt(es, n, hash).Held? && CellAt(es, n, hash).value.Record?
    ensures write < n && es[write].WriteCache? && es[write].i < |After(es, write).holding|
    ensures After(es, write).holding[es[write].i].hash == hash
    ensures CellAt(es, n, hash)
            == Held(Record(Json(After(es, write).holding[es[write].i].row)), At(es[write].now + CACHE_TTL))
  {
    var before, e := After(es, n - 1), es[n - 1];
    if e.WriteCache? && e.i < |before.holding| && before.holding[e.i].hash == hash {
      write := n - 1;
    } else {
      OthersKeepCell(before, e, hash);
      write := RecordWasWritten(es, n - 1, hash);
    }
  }

  /** Whatever the interleaving, a record served from the cache was the active row when
      some `Validate` read it, and was cached less than five minutes before. */
  lemma ServedRecordWasActive(es: seq<Event>, k: nat) returns (read: nat, write: nat)
    requires Forward(es) && k < |es| && es[k].ReadCache? && Hit(After(es, k).service, es[k].hash, es[k].now)
    ensures read < write < k && es[read].ReadRow? && es[write].WriteCache?
    ensures RowAt(es, read, es[k].hash).Some?
    ensures CellAt(es, k, es[k].hash).value.row == Json(RowAt(es, read, es[k].hash).value)
    ensures es[write].now <= es[k].now < es[write].now + CACHE_TTL
  {
    write := RecordWasWritten(es, k, es[k].hash);
    read := HeldRowWasRead(es, write, es[write].i);
  }

  // ---------------------------------------------------------------- when the cache has caught up

  /** Under `hash`, everything cached or about to be cached shows the active row, except
      records that lapse by `deadline`. */
  ghost predicate Settling(s: State, hash: string, row: Option<Row>, deadline: int) {
    HoldingSettles(s, hash, row) && CellSettles(s, hash, row, deadline)
  }

  ghost predicate HoldingSettles(s: State, hash: string, row: Option<Row>) {
    forall k | 0 <= k < |s.holding| && s.holding[k].hash == hash :: Agree(row, Some(s.holding[k].row))
  }

  ghost predicate CellSettles(s: State, hash: string, row: Option<Row>, deadline: int) {
    var cell := Lookup(s.service.cache, hash);
    cell.Held? && cell.value.Record? ==>
      Agree(row, Some(cell.value.row)) || (cell.expiry.At? && cell.expiry.instant <= deadline)
  }

  lemma StepSettlesCell(s: State, e: Event, hash: string, row: Option<Row>, deadline: int)
    requires Settling(s, hash, row, deadline)
    ensures CellSettles(Next(s, e), hash, row, deadline)
  {
  }

  lemma StepSettlesHolding(s: State, e: Event, hash: string, row: Option<Row>)
    requires HoldingSettles(s, hash, row) && Agree(row, FindByHash(s.service.table, hash))
    ensures HoldingSettles(Next(s, e), hash, row)
  {
    if e.WriteCache? && e.i < |s.holding| {
      forall k | 0 <= k < |s.holding| - 1 && Without(s.holding, e.i)[k].hash == hash
        ensures Agree(row, Some(Without(s.holding, e.i)[k].row))
      {
        WithoutIndex(s.holding, e.i, k);
      }
    }
  }

  lemma StepSettles(s: State, e: Event, hash: string, row: Option<Row>, deadline: int)
    requires Settling(s, hash, row, deadline) && Agree(row, FindByHash(s.service.table, hash))
    ensures Settling(Next(s, e), hash, row, deadline)
  {
    StepSettlesCell(s, e, hash, row, deadline);
    StepSettlesHolding(s, e, hash, row);
  }

  lemma {:induction false} RunSettles(es: seq<Event>, from: nat, n: nat, hash: string, row: Option<Row>, deadline: int)
    requires from <= n <= |es| && Settling(After(es, from), hash, row, deadline)
    requires forall i | from <= i < n :: Agree(row, RowAt(es, i, hash))
    ensures Settling(After(es, n), hash, row, deadline)
    decreases n
  {
    if from < n {
      RunSettles(es, from, n - 1, hash, row, deadline);
      assert Agree(row, RowAt(es, n - 1, hash));
      StepSettles(After(es, n - 1), es[n - 1], hash, row, deadline);
    }
  }

  /** Say the row under a hash does not change from event `from` on, and no `Validate`
      holds an older version of it then. Five minutes after that point every newly
      started `Validate` is answered as the database would answer it: a cache hit
      shows the active row. (A miss reads that row itself.) */
  lemma CacheCatchesUp(es: seq<Event>, from: nat, k: nat, hash: string)
    requires Forward(es) && 0 < from <= k < |es|
    requires forall i | from <= i <= k :: Agree(RowAt(es, from, hash), RowAt(es, i, hash))
    requires forall j | 0 <= j < |After(es, from).holding| && After(es, from).holding[j].hash == hash ::
               Agree(RowAt(es, from, hash), Some(After(es, from).holding[j].row))
    requires es[k].ReadCache? && es[k].hash == hash && es[k].now >= es[from - 1].now + CACHE_TTL
    ensures Agree(ValidateResult(After(es, k).service, hash, es[k].now), RowAt(es, k, hash))
  {
    var row, deadline := RowAt(es, from, hash), es[from - 1].now + CACHE_TTL;
    var cell := CellAt(es, from, hash);
    if cell.Held? && cell.value.Record? {
      var write := RecordWasWritten(es, from, hash);
    }
    RunSettles(es, from, k, hash, row, deadline);
  }

  /** The wait cannot be shortened: a `Validate` that read the row before a whole `Delete`
      and caches it after keeps it served for the full five minutes. */
  ghost function RaceWithDelete(row: Row, now: int): seq<Event> {
    [ AddRow(row, 0), ReadCache(row.keyHash, 0), ReadRow(0, 0),
      FindKey(row.id, 0), WriteTombstone(0, 0), RemoveRow(row.id, 0),
      WriteCache(0, 0), ReadCache(row.keyHash, now) ]
  }

  lemma Unroll(es: seq<Event>, n: nat, s: State, s': State)
    requires n < |es| && After(es, n) == s && Next(s, es[n]) == s'
    ensures After(es, n + 1) == s'
  {
  }

  /** The `Validate` half: after three events the row is held and nothing is cached. */
  lemma RowIsHeld(row: Row, now: int, t: Table)
    requires row.isActive && t == Table(map[row.id := row], map[row.keyHash := row.id])
    ensures After(RaceWithDelete(row, now), 3) == State(Service(t, map[]), [], [Holding(row.keyHash, row)], [])
  {
    var es := RaceWithDelete(row, now);
    var s1 := State(Service(t, map[]), [], [], []);
    Unroll(es, 0, START, s1);
    Unroll(es, 1, s1, s1.(missed := [row.keyHash]));
    assert Without([row.keyHash], 0) == [];
    Unroll(es, 2, s1.(missed := [row.keyHash]), s1.(holding := [Holding(row.keyHash, row)]));
  }

  /** The `Delete` half: the tombstone is written and the row is gone. */
  lemma RowIsGone(row: Row, now: int, cache: map<string, Cell<Cached>>)
    requires row.isActive && cache == map[row.keyHash := Held(Tombstone, Never)]
    ensures After(RaceWithDelete(row, now), 6)
            == State(Service(Table(map[], map[]), cache), [], [Holding(row.keyHash, row)], [])
  {
    var es := RaceWithDelete(row, now);
    var t := Table(map[row.id := row], map[row.keyHash := row.id]);
    RowIsHeld(row, now, t);
    var s3 := State(Service(t, map[]), [], [Holding(row.keyHash, row)], []);
    Unroll(es, 3, s3, s3.(clearing := [row.keyHash]));
    assert Without([row.keyHash], 0) == [];
    Unroll(es, 4, s3.(clearing := [row.keyHash]), s3.(service := Service(t, cache)));
    assert DeleteRow(t, row.id) == Table(map[], map[]);
    Unroll(es, 5, s3.(service := Service(t, cache)), s3.(service := Service(Table(map[], map[]), cache)));
  }

  lemma DeletedRowServedForFiveMinutes(row: Row, now: int)
    requires row.isActive && 0 <= now
    ensures var es := RaceWithDelete(row, now);
            && Forward(es)
            && RowAt(es, 7, row.keyHash) == None
            && (Hit(After(es, 7).service, row.keyHash, now) <==> now < 5 * 60 * SECOND)
  {
    var es := RaceWithDelete(row, now);
    var cache := map[row.keyHash := Held(Tombstone, Never)];
    RowIsGone(row, now, cache);
    var s6 := State(Service(Table(map[], map[]), cache), [], [Holding(row.keyHash, row)], []);
    assert Without(s6.holding, 0) == [];
    var cached := cache[row.keyHash := Held(Record(Json(row)), At(CACHE_TTL))];
    Unroll(es, 6, s6, State(Service(Table(map[], map[]), cached), [], [], []));
  }

  // ---------------------------------------------------------------- requests that do not overlap

  /** No call is between two of its steps. */
  ghost predicate Quiet(s: State) {
    s.missed == [] && s.holding == [] && s.clearing == []
  }

  /** The accesses of one request, in the order the source makes them. */
  ghost function Accesses(r: Request): seq<Event> {
    match r.op
    case Create(row) => [AddRow(row, r.now)]
    case Validate(hash) => [ReadCache(hash, r.now), ReadRow(0, r.now), WriteCache(0, r.now)]
    case Update(id, u) =>
      if Invalidates(u) then [FindKey(id, r.now), WriteTombstone(0, r.now), WriteRow(id, u, r.now)]
      else [WriteRow(id, u, r.now)]
    case Delete(id) => [FindKey(id, r.now), WriteTombstone(0, r.now), RemoveRow(id, r.now)]
    case Touch(id) => [TouchLastUsed(id, r.now)]
  }

  ghost function Perform(s: State, es: seq<Event>): State {
    if es == [] then s else Next(Perform(s, es[..|es| - 1]), es[|es| - 1])
  }

  lemma {:induction false} PerformOne(s: State, a: Event)
    ensures Perform(s, [a]) == Next(s, a)
  {
    assert [a][..0] == [];
  }

  lemma {:induction false} PerformThree(s: State, a: Event, b: Event, c: Event)
    ensures Perform(s, [a, b, c]) == Next(Next(Next(s, a), b), c)
  {
    assert [a, b, c][..2] == [a, b];
    assert [a, b][..1] == [a];
    PerformOne(s, a);
  }

  lemma {:induction false} ValidateAlone(s: State, hash: string, now: int)
    requires Quiet(s)
    ensures Next(Next(Next(s, ReadCache(hash, now)), ReadRow(0, now)), WriteCache(0, now))
            == s.(service := AfterValidate(s.service, hash, now))
  {
    assert Without([hash], 0) == [];
    if FindByHash(s.service.table, hash).Some? {
      assert Without([Holding(hash, FindByHash(s.service.table, hash).value)], 0) == [];
    }
  }

  lemma {:induction false} ClearAlone(s: State, id: string, now: int)
    requires Quiet(s)
    ensures Next(Next(s, FindKey(id, now)), WriteTombstone(0, now)) == s.(service := Invalidate(s.service, id))
  {
    if id in s.service.table.rows {
      assert Without([s.service.table.rows[id].keyHash], 0) == [];
    }
  }

  /** A request whose accesses are not interleaved with others does what the serialized model says. */
  lemma {:induction false} RequestAlone(s: State, r: Request)
    requires Quiet(s)
    ensures Perform(s, Accesses(r)) == s.(service := Step(s.service, r))
  {
    match r.op
    case Create(row) => PerformOne(s, AddRow(row, r.now));
    case Validate(hash) =>
      ValidateAlone(s, hash, r.now);
      PerformThree(s, ReadCache(hash, r.now), ReadRow(0, r.now), WriteCache(0, r.now));
    case Update(id, u) =>
      ClearAlone(s, id, r.now);
      PerformOne(s, WriteRow(id, u, r.now));
      PerformThree(s, FindKey(id, r.now), WriteTombstone(0, r.now), WriteRow(id, u, r.now));
    case Delete(id) =>
      ClearAlone(s, id, r.now);
      PerformThree(s, FindKey(id, r.now), WriteTombstone(0, r.now), RemoveRow(id, r.now));
    case Touch(id) => PerformOne(s, TouchLastUsed(id, r.now));
  }

  /** The accesses of the first `n` requests, one request after the other. */
  ghost function Serialized(requests: seq<Request>, n: nat): seq<Event>
    requires n <= |requests|
  {
    if n == 0 then [] else Serialized(requests, n - 1) + Accesses(requests[n - 1])
  }

  lemma {:induction false} PerformAppend(s: State, es: seq<Event>, more: seq<Event>)
    ensures Perform(s, es + more) == Perform(Perform(s, es), more)
    decreases |more|
  {
    if more == [] {
      assert es + more == es;
    } else {
      var last := |more| - 1;
      PerformAppend(s, es, more[..last]);
      assert (es + more)[..|es + more| - 1] == es + more[..last];
    }
  }

  lemma {:induction false} RunIsPerform(es: seq<Event>, n: nat)
    requires n <= |es|
    ensures After(es, n) == Perform(START, es[..n])
  {
    if n > 0 {
      RunIsPerform(es, n - 1);
      assert es[..n][..n - 1] == es[..n - 1];
    }
  }

  /** The events lead from the start to this table and cache, with no call waiting. */
  ghost predicate LeadsTo(es: seq<Event>, service: Service) {
    Perform(START, es) == START.(service := service)
  }

  lemma {:induction false} OneMoreRequest(es: seq<Event>, service: Service, r: Request, es': seq<Event>, next: Service)
    requires LeadsTo(es, service) && es' == es + Accesses(r) && next == Step(service, r)
    ensures LeadsTo(es', next)
  {
    PerformAppend(START, es, Accesses(r));
    RequestAlone(START.(service := service), r);
  }

  lemma {:induction false} PerformSerialized(requests: seq<Request>, n: nat)
    requires n <= |requests|
    ensures LeadsTo(Serialized(requests, n), ApiKeys.After(requests, n))
  {
    if n > 0 {
      PerformSerialized(requests, n - 1);
      OneMoreRequest(Serialized(requests, n - 1), ApiKeys.After(requests, n - 1), requests[n - 1],
                     Serialized(requests, n), ApiKeys.After(requests, n));
    }
  }

  /** Every serialized run is one of the interleavings: its accesses in order leave the same
      table and cache, with no call waiting. */
  lemma {:induction false} SerializedRunsAreInterleavings(requests: seq<Request>)
    ensures var es := Serialized(requests, |requests|);
            After(es, |es|) == START.(service := ApiKeys.After(requests, |requests|))
  {
    var es := Serialized(requests, |requests|);
    PerformSerialized(requests, |requests|);
    RunIsPerform(es, |es|);
    assert es[..|es|] == es;
  }
}
