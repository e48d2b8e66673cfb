/** API keys: a five-minute Redis cache in front of the key table
    (internal/service/apikey.go, internal/repository/apikey.go).

    Key hashes are opaque; the table carries the unique index the schema declares. */
module ApiKeys {
  import opened Redis

  datatype Option<+T> = None | Some(value: T)

  const CACHE_TTL: int := 300 * SECOND

  datatype Row = Row(
    id: string,
    keyHash: string,
    name: string,
    createdBy: string,
    tier: string,
    isActive: bool,
    createdAt: int,
    lastUsedAt: Option<int>)

  /** The JSON form leaves the hash out. */
  function Json(row: Row): Row {
    row.(keyHash := "")
  }

  /** What callers of `Validate` rely on: everything but the hash and the last-used time. */
  function Essence(row: Row): Row {
    row.(keyHash := "", lastUsedAt := None)
  }

  /** The empty string marks an invalidated entry. */
  datatype Cached = Tombstone | Record(row: Row)

  datatype Table = Table(rows: map<string, Row>, byHash: map<string, string>)

  ghost predicate Indexed(t: Table) {
    && (forall h | h in t.byHash :: t.byHash[h] in t.rows && t.rows[t.byHash[h]].keyHash == h)
    && (forall id | id in t.rows :: t.rows[id].keyHash in t.byHash && t.byHash[t.rows[id].keyHash] == id)
  }

  function FindByHash(t: Table, hash: string): Option<Row> {
    if hash in t.byHash && t.byHash[hash] in t.rows && t.rows[t.byHash[hash]].isActive
    then Some(t.rows[t.byHash[hash]]) else None
  }

  function FindByID(t: Table, id: string): Option<Row> {
    if id in t.rows then Some(t.rows[id]) else None
  }

  /** The columns an update sets; `name` stands for the columns that trigger no invalidation. */
  datatype Updates = Updates(tier: Option<string>, isActive: Option<bool>, name: Option<string>)

  function Apply(row: Row, u: Updates): Row {
    row.(tier := if u.tier.Some? then u.tier.value else row.tier,
         isActive := if u.isActive.Some? then u.isActive.value else row.isActive,
         name := if u.name.Some? then u.name.value else row.name)
  }

  /** The tier column's default stands in for an empty tier. */
  function NewRow(id: string, keyHash: string, name: string, createdBy: string, tier: string, now: int): Row {
    Row(id, keyHash, name, createdBy, if tier == "" then "basic" else tier, true, now, None)
  }

  /** Both unique constraints are enforced by the database. */
  function Insert(t: Table, row: Row): Option<Table> {
    if row.id in t.rows || row.keyHash in t.byHash then None
    else Some(Table(t.rows[row.id := row], t.byHash[row.keyHash := row.id]))
  }

  function UpdateRow(t: Table, id: string, u: Updates): Table {
    if id in t.rows then t.(rows := t.rows[id := Apply(t.rows[id], u)]) else t
  }

  function TouchRow(t: Table, id: string, now: int): Table {
    if id in t.rows then t.(rows := t.rows[id := t.rows[id].(lastUsedAt := Some(now))]) else t
  }

  function DeleteRow(t: Table, id: string): Table {
    if id in t.rows then Table(t.rows - {id}, t.byHash - {t.rows[id].keyHash}) else t
  }

  datatype Service = Service(table: Table, cache: map<string, Cell<Cached>>)

  predicate Hit(s: Service, hash: string, now: int) {
    Live(Lookup(s.cache, hash), now) && Lookup(s.cache, hash).value.Record?
  }

  function Invalidate(s: Service, id: string): Service {
    match FindByID(s.table, id)
    case None => s
    case Some(row) => s.(cache := s.cache[row.keyHash := Held(Tombstone, Never)])
  }

  function ValidateResult(s: Service, hash: string, now: int): Option<Row> {
    if Hit(s, hash, now) then Some(Lookup(s.cache, hash).value.row) else FindByHash(s.table, hash)
  }

  function AfterValidate(s: Service, hash: string, now: int): Service {
    if Hit(s, hash, now) then s
    else match FindByHash(s.table, hash)
      case None => s
      case Some(row) => s.(cache := s.cache[hash := Held(Record(Json(row)), At(now + CACHE_TTL))])
  }

  predicate Invalidates(u: Updates) {
    u.tier.Some? || u.isActive.Some?
  }

  function AfterUpdate(s: Service, id: string, u: Updates): Service {
    var cleared := if Invalidates(u) then Invalidate(s, id) else s;
    cleared.(table := UpdateRow(s.table, id, u))
  }

  function AfterDelete(s: Service, id: string): Service {
    Invalidate(s, id).(table := DeleteRow(s.table, id))
  }

  class APIKeyService {
    var table: Table
    var cache: map<string, Cell<Cached>>

    ghost function Snapshot(): Service
      reads this
    {
      Service(table, cache)
    }

    constructor ()
      ensures Snapshot() == Service(Table(map[], map[]), map[])
    {
      table := Table(map[], map[]);
      cache := map[];
    }

    /** The fresh identifier, the hash of the random key and the clock are parameters. */
    method Create(id: string, keyHash: string, name: string, createdBy: string, tier: string, now: int)
      returns (ok: bool)
      modifies this
      ensures cache == old(cache)
      ensures var inserted := Insert(old(table), NewRow(id, keyHash, name, createdBy, tier, now));
              ok == inserted.Some? && table == if ok then inserted.value else old(table)
    {
      var storedTier := tier;
      if tier == "" {
        storedTier := "basic";
      }
      var row := Row(id, keyHash, name, createdBy, storedTier, true, now, None);
      var inserted := Insert(table, row);
      if inserted.None? {
        return false;
      }
      table := inserted.value;
      return true;
    }

    method Validate(keyHash: string, now: int) returns (row: Option<Row>)
      modifies this
      ensures row == ValidateResult(old(Snapshot()), keyHash, now)
      ensures Snapshot() == AfterValidate(old(Snapshot()), keyHash, now)
    {
      var cached := Lookup(cache, keyHash);
      if Live(cached, now) && cached.value != Tombstone {
        return Some(cached.value.row);
      }
      row := FindByHash(table, keyHash);
      if row.None? {
        return None;
      }
      cache := cache[keyHash := Held(Record(Json(row.value)), At(now + CACHE_TTL))];
    }

    method InvalidateCache(id: string)
      modifies this
      ensures Snapshot() == Invalidate(old(Snapshot()), id)
    {
      var row := FindByID(table, id);
      if row.None? {
        return;
      }
      cache := cache[row.value.keyHash := Held(Tombstone, Never)];
    }

    method Update(id: string, updates: Updates)
      modifies this
      ensures Snapshot() == AfterUpdate(old(Snapshot()), id, updates)
    {
      if updates.tier.Some? {
        InvalidateCache(id);
      }
      if updates.isActive.Some? {
        InvalidateCache(id);
      }
      table := UpdateRow(table, id, updates);
    }

    method Delete(id: string)
      modifies this
      ensures Snapshot() == AfterDelete(old(Snapshot()), id)
    {
      InvalidateCache(id);
      table := DeleteRow(table, id);
    }

    method UpdateLastUsed(id: string, now: int)
      modifies this
      ensures Snapshot() == old(Snapshot()).(table := TouchRow(old(table), id, now))
    {
      table := TouchRow(table, id, now);
    }
  }

  // ---------------------------------------------------------------- serialized runs

  datatype Op =
    | Create(row: Row)
    | Validate(hash: string)
    | Update(id: string, updates: Updates)
    | Delete(id: string)
    | Touch(id: string)

  datatype Request = Request(op: Op, now: int)

  ghost function Step(s: Service, r: Request): Service {
    match r.op
    case Create(row) => if Insert(s.table, row).Some? then s.(table := Insert(s.table, row).value) else s
    case Validate(hash) => AfterValidate(s, hash, r.now)
    case Update(id, updates) => AfterUpdate(s, id, updates)
    case Delete(id) => AfterDelete(s, id)
    case Touch(id) => s.(table := TouchRow(s.table, id, r.now))
  }

  ghost function After(requests: seq<Request>, n: nat): Service
    requires n <= |requests|
  {
    if n == 0 then Service(Table(map[], map[]), map[]) else Step(After(requests, n - 1), requests[n - 1])
  }

  /** Equal as far as callers can rely on, or both absent. */
  ghost predicate Agree(a: Option<Row>, b: Option<Row>) {
    a.Some? == b.Some? && (a.Some? ==> Essence(a.value) == Essence(b.value))
  }

  /** A live cached record under `hash` is the active row. */
  ghost predicate Coherent(s: Service, hash: string, now: int) {
    Hit(s, hash, now) ==> Agree(Some(Lookup(s.cache, hash).value.row), FindByHash(s.table, hash))
  }

  lemma DeleteIndexed(t: Table, id: string)
    requires Indexed(t)
    ensures Indexed(DeleteRow(t, id))
  {
  }

  lemma InsertIndexed(t: Table, row: Row)
    requires Indexed(t) && Insert(t, row).Some?
    ensures Indexed(Insert(t, row).value)
  {
  }

  /** Rewriting a row in place keeps its identifier and hash. */
  lemma RewriteIndexed(t: Table, id: string, row: Row)
    requires Indexed(t) && id in t.rows && row.keyHash == t.rows[id].keyHash
    ensures Indexed(t.(rows := t.rows[id := row]))
  {
  }

  lemma StepIndexed(s: Service, r: Request)
    requires Indexed(s.table)
    ensures Indexed(Step(s, r).table)
  {
    match r.op
    case Create(row) =>
      if Insert(s.table, row).Some? { InsertIndexed(s.table, row); }
    case Validate(_) =>
    case Update(id, u) =>
      if id in s.table.rows { RewriteIndexed(s.table, id, Apply(s.table.rows[id], u)); }
    case Delete(id) => DeleteIndexed(s.table, id);
    case Touch(id) =>
      if id in s.table.rows { RewriteIndexed(s.table, id, s.table.rows[id].(lastUsedAt := Some(r.now))); }
  }

  lemma UpdateCoherent(s: Service, id: string, u: Updates, hash: string, now: int)
    requires Indexed(s.table) && Coherent(s, hash, now) && Invalidates(u)
    ensures Coherent(AfterUpdate(s, id, u), hash, now)
  {
  }

  lemma DeleteCoherent(s: Service, id: string, hash: string, now: int)
    requires Indexed(s.table) && Coherent(s, hash, now)
    ensures Coherent(AfterDelete(s, id), hash, now)
  {
  }

  lemma StepCoherent(s: Service, r: Request, hash: string, now: int)
    requires Indexed(s.table) && Coherent(s, hash, now) && Coherent(s, hash, r.now) && r.now <= now
    requires r.op.Update? ==> Invalidates(r.op.updates)
    ensures Coherent(Step(s, r), hash, now)
  {
    match r.op
    case Create(_) =>
    case Validate(_) =>
    case Update(id, u) => UpdateCoherent(s, id, u, hash, now);
    case Delete(id) => DeleteCoherent(s, id, hash, now);
    case Touch(_) =>
  }

  ghost predicate Forward(requests: seq<Request>) {
    forall i, j | 0 <= i <= j < |requests| :: requests[i].now <= requests[j].now
  }

  lemma {:induction false} TableIndexed(requests: seq<Request>, n: nat)
    requires n <= |requests|
    ensures Indexed(After(requests, n).table)
  {
    if n > 0 {
      TableIndexed(requests, n - 1);
      StepIndexed(After(requests, n - 1), requests[n - 1]);
    }
  }

  lemma {:induction false} RunCoherent(requests: seq<Request>, n: nat, hash: string, now: int)
    requires n <= |requests| && Forward(requests) && (n > 0 ==> requests[n - 1].now <= now)
    requires forall i | 0 <= i < n && requests[i].op.Update? :: Invalidates(requests[i].op.updates)
    ensures Coherent(After(requests, n), hash, now)
  {
    if n > 0 {
      RunCoherent(requests, n - 1, hash, now);
      RunCoherent(requests, n - 1, hash, requests[n - 1].now);
      TableIndexed(requests, n - 1);
      StepCoherent(After(requests, n - 1), requests[n - 1], hash, now);
    }
  }

  /** In every serialized run whose updates each touch the tier or the active flag,
      `Validate` answers what a direct lookup of the active row by hash would. */
  lemma {:induction false} ValidateIsDirectLookup(requests: seq<Request>, k: nat)
    requires k < |requests| && Forward(requests) && requests[k].op.Validate?
    requires forall i | 0 <= i < k && requests[i].op.Update? :: Invalidates(requests[i].op.updates)
    ensures var s := After(requests, k);
            Agree(ValidateResult(s, requests[k].op.hash, requests[k].now), FindByHash(s.table, requests[k].op.hash))
  {
    RunCoherent(requests, k, requests[k].op.hash, requests[k].now);
  }

  // ---------------------------------------------------------------- every update allowed

  ghost predicate AgreeButName(a: Row, b: Row) {
    Essence(a).(name := "") == Essence(b).(name := "")
  }

  /** Whatever the updates, a live cached record differs from the active row in the name at most. */
  ghost predicate CoherentButName(s: Service, hash: string, now: int) {
    Hit(s, hash, now) ==>
      var row := FindByHash(s.table, hash);
      row.Some? && AgreeButName(Lookup(s.cache, hash).value.row, row.value)
  }

  lemma UpdateCoherentButName(s: Service, id: string, u: Updates, hash: string, now: int)
    requires Indexed(s.table) && CoherentButName(s, hash, now)
    ensures CoherentButName(AfterUpdate(s, id, u), hash, now)
  {
  }

  lemma DeleteCoherentButName(s: Service, id: string, hash: string, now: int)
    requires Indexed(s.table) && CoherentButName(s, hash, now)
    ensures CoherentButName(AfterDelete(s, id), hash, now)
  {
  }

  lemma StepCoherentButName(s: Service, r: Request, hash: string, now: int)
    requires Indexed(s.table) && CoherentButName(s, hash, now) && r.now <= now
    ensures CoherentButName(Step(s, r), hash, now)
  {
    match r.op
    case Create(_) =>
    case Validate(_) =>
    case Update(id, u) => UpdateCoherentButName(s, id, u, hash, now);
    case Delete(id) => DeleteCoherentButName(s, id, hash, now);
    case Touch(_) =>
  }

  lemma {:induction false} RunCoherentButName(requests: seq<Request>, n: nat, hash: string, now: int)
    requires n <= |requests| && Forward(requests) && (n > 0 ==> requests[n - 1].now <= now)
    ensures CoherentButName(After(requests, n), hash, now)
  {
    if n > 0 {
      RunCoherentButName(requests, n - 1, hash, now);
      TableIndexed(requests, n - 1);
      StepCoherentButName(After(requests, n - 1), requests[n - 1], hash, now);
    }
  }

  /** The request that caches the active row under `hash`. */
  ghost predicate Caches(s: Service, r: Request, hash: string) {
    r.op == Validate(hash) && !Hit(s, hash, r.now) && FindByHash(s.table, hash).Some?
  }

  lemma OthersKeepRecord(s: Service, r: Request, hash: string)
    requires !Caches(s, r, hash)
    ensures var cell := Lookup(Step(s, r).cache, hash);
            cell == Lookup(s.cache, hash) || cell == Held(Tombstone, Never)
  {
  }

  /** Every cached record was written by a `Validate` that missed and read the active row. */
  lemma {:induction false} RecordWasCached(requests: seq<Request>, n: nat, hash: string) returns (w: nat)
    requires n <= |requests|
    requires Lookup(After(requests, n).cache, hash).Held? && Lookup(After(requests, n).cache, hash).value.Record?
    ensures w < n && Caches(After(requests, w), requests[w], hash)
    ensures Lookup(After(requests, n).cache, hash).value.row == Json(FindByHash(After(requests, w).table, hash).value)
  {
    var before := After(requests, n - 1);
    if Caches(before, requests[n - 1], hash) {
      w := n - 1;
    } else {
      OthersKeepRecord(before, requests[n - 1], hash);
      w := RecordWasCached(requests, n - 1, hash);
    }
  }

  /** In every serialized run, with any updates: a `Validate` that misses agrees with the
      direct lookup; one that hits agrees exactly when the active row still has the name it
      had at the earlier `Validate` that cached it. */
  lemma {:induction false} ValidateAgreesIff(requests: seq<Request>, k: nat) returns (w: nat)
    requires k < |requests| && Forward(requests) && requests[k].op.Validate?
    ensures var s, hash, now := After(requests, k), requests[k].op.hash, requests[k].now;
            var agrees := Agree(ValidateResult(s, hash, now), FindByHash(s.table, hash));
            if !Hit(s, hash, now) then agrees
            else
              && w < k && Caches(After(requests, w), requests[w], hash) && FindByHash(s.table, hash).Some?
              && (agrees <==> FindByHash(s.table, hash).value.name
                              == FindByHash(After(requests, w).table, hash).value.name)
  {
    var s, hash, now := After(requests, k), requests[k].op.hash, requests[k].now;
    w := 0;
    if Hit(s, hash, now) {
      w := RecordWasCached(requests, k, hash);
      RunCoherentButName(requests, k, hash, now);
    }
  }

  /** An update keeps the cache honest exactly when it invalidates, or the row is not
      served from the cache, or it changes nothing a caller can see. */
  lemma UpdateKeepsCoherenceIff(s: Service, id: string, u: Updates, now: int)
    requires Indexed(s.table) && id in s.table.rows
    requires Coherent(s, s.table.rows[id].keyHash, now)
    ensures var row := s.table.rows[id];
            Coherent(AfterUpdate(s, id, u), row.keyHash, now)
            <==> Invalidates(u) || !Hit(s, row.keyHash, now) || u.name.None? || u.name.value == row.name
  {
  }

  ghost function Renaming(row: Row, rename: Updates): seq<Request> {
    [Request(Create(row), 0), Request(Validate(row.keyHash), 1), Request(Update(row.id, rename), 2)]
  }

  /** A name-only update is not seen through the cache. */
  lemma RenameIsServedStale(row: Row, newName: string)
    requires row.isActive && newName != row.name
    ensures var rename := Updates(None, None, Some(newName));
            var s := After(Renaming(row, rename), 3);
            && FindByHash(s.table, row.keyHash).Some? && FindByHash(s.table, row.keyHash).value.name == newName
            && ValidateResult(s, row.keyHash, 3) == Some(Json(row))
  {
    var rename := Updates(None, None, Some(newName));
    var requests := Renaming(row, rename);
    var s0 := After(requests, 0);
    var s1 := After(requests, 1);
    var s2 := After(requests, 2);
    assert s1 == Step(s0, requests[0]);
    assert FindByHash(s1.table, row.keyHash) == Some(row);
    assert s2 == Step(s1, requests[1]);
    assert s2.cache[row.keyHash] == Held(Record(Json(row)), At(1 + CACHE_TTL));
    assert After(requests, 3) == Step(s2, requests[2]);
  }
}
