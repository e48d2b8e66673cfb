/** The API-key table and the answers of `Validate` as functions of the requests so far
    (internal/service/apikey.go, internal/repository/apikey.go), in serialized runs. */
module ApiKeyHistories {
  import opened Redis
  import opened ApiKeys

  // ---------------------------------------------------------------- what the table holds

  /** The lookup by hash finds exactly the active row that carries the hash. */
  lemma {:induction false} FindByHashMeans(t: Table, hash: string, row: Row)
    requires Indexed(t)
    ensures FindByHash(t, hash) == Some(row)
            <==> row.isActive && row.keyHash == hash && exists id :: id in t.rows && t.rows[id] == row
  {
    if FindByHash(t, hash) == Some(row) {
      assert t.byHash[hash] in t.rows;
    }
  }

  /** The request creates its row: neither the identifier nor the hash is in use. */
  ghost predicate Takes(s: Service, r: Request) {
    && r.op.Create? && r.op.row.id !in s.table.rows
    && forall id | id in s.table.rows :: s.table.rows[id].keyHash != r.op.row.keyHash
  }

  lemma {:induction false} InsertsIff(s: Service, r: Request)
    requires Indexed(s.table) && r.op.Create?
    ensures Insert(s.table, r.op.row).Some? <==> Takes(s, r)
    ensures Takes(s, r) ==> Step(s, r).table.rows == s.table.rows[r.op.row.id := r.op.row]
    ensures !Takes(s, r) ==> Step(s, r) == s
  {
  }

  ghost predicate Changes(r: Request, id: string) {
    r.op.Update? && r.op.id == id
  }

  /** The tier last written: by an update since request `c`, or by the creation itself. */
  ghost function LatestTier(requests: seq<Request>, c: nat, n: nat, id: string): string
    requires c < n <= |requests| && requests[c].op.Create?
    decreases n
  {
    if n == c + 1 then requests[c].op.row.tier
    else if Changes(requests[n - 1], id) && requests[n - 1].op.updates.tier.Some?
    then requests[n - 1].op.updates.tier.value
    else LatestTier(requests, c, n - 1, id)
  }

  ghost function LatestActive(requests: seq<Request>, c: nat, n: nat, id: string): bool
    requires c < n <= |requests| && requests[c].op.Create?
    decreases n
  {
    if n == c + 1 then requests[c].op.row.isActive
    else if Changes(requests[n - 1], id) && requests[n - 1].op.updates.isActive.Some?
    then requests[n - 1].op.updates.isActive.value
    else LatestActive(requests, c, n - 1, id)
  }

  ghost function LatestName(requests: seq<Request>, c: nat, n: nat, id: string): string
    requires c < n <= |requests| && requests[c].op.Create?
    decreases n
  {
    if n == c + 1 then requests[c].op.row.name
    else if Changes(requests[n - 1], id) && requests[n - 1].op.updates.name.Some?
    then requests[n - 1].op.updates.name.value
    else LatestName(requests, c, n - 1, id)
  }

  ghost function LatestUse(requests: seq<Request>, c: nat, n: nat, id: string): Option<int>
    requires c < n <= |requests| && requests[c].op.Create?
    decreases n
  {
    if n == c + 1 then requests[c].op.row.lastUsedAt
    else if requests[n - 1].op == Touch(id) then Some(requests[n - 1].now)
    else LatestUse(requests, c, n - 1, id)
  }

  /** Request `c` created the row `id`, and nothing has deleted it since. */
  ghost predicate Origin(requests: seq<Request>, c: nat, n: nat, id: string)
    requires n <= |requests|
  {
    && c < n && Takes(After(requests, c), requests[c]) && requests[c].op.row.id == id
    && forall j | c < j < n :: requests[j].op != Delete(id)
  }

  /** The row as the history since its creation tells it. */
  ghost function RowSince(requests: seq<Request>, c: nat, n: nat, id: string): Row
    requires c < n <= |requests| && requests[c].op.Create?
  {
    requests[c].op.row.(
      tier := LatestTier(requests, c, n, id),
      isActive := LatestActive(requests, c, n, id),
      name := LatestName(requests, c, n, id),
      lastUsedAt := LatestUse(requests, c, n, id))
  }

  /** What one request leaves of a row it does not delete. */
  lemma {:induction false} StepRow(s: Service, r: Request, id: string)
    requires Indexed(s.table) && id in s.table.rows && r.op != Delete(id)
    ensures id in Step(s, r).table.rows
    ensures var row := s.table.rows[id];
            Step(s, r).table.rows[id] == row.(
              tier := if Changes(r, id) && r.op.updates.tier.Some? then r.op.updates.tier.value else row.tier,
              isActive :=
                if Changes(r, id) && r.op.updates.isActive.Some? then r.op.updates.isActive.value else row.isActive,
              name := if Changes(r, id) && r.op.updates.name.Some? then r.op.updates.name.value else row.name,
              lastUsedAt := if r.op == Touch(id) then Some(r.now) else row.lastUsedAt)
  {
  }

  lemma {:induction false} RowMoves(requests: seq<Request>, c: nat, n: nat, id: string)
    requires c < n < |requests| && requests[c].op.Create? && requests[n].op != Delete(id)
    requires id in After(requests, n).table.rows && After(requests, n).table.rows[id] == RowSince(requests, c, n, id)
    ensures id in After(requests, n + 1).table.rows
    ensures After(requests, n + 1).table.rows[id] == RowSince(requests, c, n + 1, id)
  {
    TableIndexed(requests, n);
    StepRow(After(requests, n), requests[n], id);
  }

  lemma {:induction false} NewRowIsThere(requests: seq<Request>, c: nat)
    requires c < |requests| && Takes(After(requests, c), requests[c])
    ensures var id := requests[c].op.row.id;
            id in After(requests, c + 1).table.rows && After(requests, c + 1).table.rows[id] == requests[c].op.row
  {
    TableIndexed(requests, c);
    InsertsIff(After(requests, c), requests[c]);
  }

  /** A row that was created and not deleted is there, as its history tells. */
  lemma {:induction false} OriginGivesRow(requests: seq<Request>, c: nat, n: nat, id: string)
    requires n <= |requests| && Origin(requests, c, n, id)
    ensures id in After(requests, n).table.rows && After(requests, n).table.rows[id] == RowSince(requests, c, n, id)
    decreases n
  {
    if n == c + 1 {
      NewRowIsThere(requests, c);
    } else {
      OriginGivesRow(requests, c, n - 1, id);
      RowMoves(requests, c, n - 1, id);
    }
  }

  /** A row after a request was there before, or the request created it. */
  lemma {:induction false} RowBefore(s: Service, r: Request, id: string)
    requires Indexed(s.table) && id in Step(s, r).table.rows
    ensures id in s.table.rows || (Takes(s, r) && r.op.row.id == id)
    ensures id in s.table.rows ==> r.op != Delete(id)
  {
    if r.op.Create? {
      InsertsIff(s, r);
    }
  }

  /** And every row there is was so created. */
  lemma {:induction false} RowHasOrigin(requests: seq<Request>, n: nat, id: string) returns (c: nat)
    requires n <= |requests| && id in After(requests, n).table.rows
    ensures Origin(requests, c, n, id)
  {
    TableIndexed(requests, n - 1);
    RowBefore(After(requests, n - 1), requests[n - 1], id);
    if id in After(requests, n - 1).table.rows {
      c := RowHasOrigin(requests, n - 1, id);
    } else {
      c := n - 1;
    }
  }

  /** In every serialized run the table holds a row exactly when it was created under a free
      identifier and hash and not deleted since; its tier, active flag, name and last use are
      those last written, and the rest is as created. */
  lemma {:induction false} TableIsHistory(requests: seq<Request>, n: nat, id: string)
    requires n <= |requests|
    ensures id in After(requests, n).table.rows <==> exists c: nat :: Origin(requests, c, n, id)
    ensures forall c: nat | Origin(requests, c, n, id) ::
              After(requests, n).table.rows[id] == RowSince(requests, c, n, id)
  {
    if id in After(requests, n).table.rows {
      var c := RowHasOrigin(requests, n, id);
    }
    forall c: nat | Origin(requests, c, n, id)
      ensures id in After(requests, n).table.rows && After(requests, n).table.rows[id] == RowSince(requests, c, n, id)
    {
      OriginGivesRow(requests, c, n, id);
    }
  }

  // ---------------------------------------------------------------- which keys are accepted

  /** An active row carries the hash. */
  ghost predicate HasActiveRow(t: Table, hash: string) {
    exists id :: id in t.rows && t.rows[id].keyHash == hash && t.rows[id].isActive
  }

  lemma {:induction false} FoundIffActiveRow(t: Table, hash: string)
    requires Indexed(t)
    ensures FindByHash(t, hash).Some? <==> HasActiveRow(t, hash)
  {
  }

  /** In every serialized run, with any updates and however warm the cache: a key is accepted
      exactly when the table holds an active row with its hash, and the answer carries that
      row's identifier, creator, tier and creation time. */
  lemma {:induction false} ValidateAcceptsIff(requests: seq<Request>, n: nat, hash: string, now: int)
    requires n <= |requests| && Forward(requests) && (n > 0 ==> requests[n - 1].now <= now)
    ensures var s := After(requests, n);
            var answer := ValidateResult(s, hash, now);
            && (answer.Some? <==> HasActiveRow(s.table, hash))
            && forall id | answer.Some? && id in s.table.rows && s.table.rows[id].keyHash == hash ::
                 var row := s.table.rows[id];
                 && row.isActive && answer.value.isActive
                 && answer.value.id == row.id && answer.value.createdBy == row.createdBy
                 && answer.value.tier == row.tier && answer.value.createdAt == row.createdAt
  {
    TableIndexed(requests, n);
    RunCoherentButName(requests, n, hash, now);
    FoundIffActiveRow(After(requests, n).table, hash);
  }

  /** What the next `Validate` answers after an update of tier or active flag, at any instant:
      nothing when the row is inactive now, and otherwise the row with what was written. */
  lemma {:induction false} UpdateIsServed(s: Service, id: string, u: Updates, now: int)
    requires Indexed(s.table) && id in s.table.rows && (u.tier.Some? || u.isActive.Some?)
    ensures var row := s.table.rows[id];
            var answer := ValidateResult(AfterUpdate(s, id, u), row.keyHash, now);
            && (answer.None? <==> u.isActive == Some(false) || (u.isActive.None? && !row.isActive))
            && (answer.Some? && u.tier.Some? ==> answer.value.tier == u.tier.value)
            && (answer.Some? && u.tier.None? ==> answer.value.tier == row.tier)
            && (answer.Some? ==> answer.value.id == row.id && answer.value.createdBy == row.createdBy)
  {
  }

  /** A created key validates, with the name, creator and tier it was given; an empty tier is "basic". */
  lemma {:induction false} CreatedKeyValidates(
      requests: seq<Request>, n: nat, id: string, hash: string, name: string, createdBy: string, tier: string, now: int)
    requires n < |requests| && Forward(requests) && requests[n].now <= now
    requires requests[n].op == Create(NewRow(id, hash, name, createdBy, tier, requests[n].now))
    requires Takes(After(requests, n), requests[n])
    ensures var answer := ValidateResult(After(requests, n + 1), hash, now);
            && answer.Some? && answer.value.isActive && answer.value.createdAt == requests[n].now
            && answer.value.id == id && answer.value.name == name && answer.value.createdBy == createdBy
            && answer.value.tier == if tier == "" then "basic" else tier
  {
    var s := After(requests, n);
    TableIndexed(requests, n);
    RunCoherentButName(requests, n, hash, now);
    InsertsIff(s, requests[n]);
    FoundIffActiveRow(s.table, hash);
    assert After(requests, n + 1) == Step(s, requests[n]);
    assert !Hit(s, hash, now);
  }

  /** No active row carries the hash, and no record is cached under it. */
  ghost predicate Revoked(s: Service, hash: string) {
    && !HasActiveRow(s.table, hash)
    && !(Lookup(s.cache, hash).Held? && Lookup(s.cache, hash).value.Record?)
  }

  /** The request can bring a key back: it sets the flag of the row, or creates a row with the hash. */
  ghost predicate Revives(r: Request, id: string, hash: string) {
    || (Changes(r, id) && r.op.updates.isActive == Some(true))
    || (r.op.Create? && r.op.row.keyHash == hash)
  }

  /** Only row `id` carries the hash. */
  ghost predicate OnlyRow(t: Table, id: string, hash: string) {
    forall other | other in t.rows && t.rows[other].keyHash == hash :: other == id
  }

  lemma {:induction false} RowStaysInactive(s: Service, r: Request, id: string, hash: string, other: string)
    requires Indexed(s.table) && OnlyRow(s.table, id, hash) && !HasActiveRow(s.table, hash) && !Revives(r, id, hash)
    requires other in Step(s, r).table.rows && Step(s, r).table.rows[other].keyHash == hash
    ensures other == id && !Step(s, r).table.rows[other].isActive
  {
    RowBefore(s, r, other);
    if other in s.table.rows {
      StepRow(s, r, other);
    } else {
      InsertsIff(s, r);
    }
  }

  lemma {:induction false} StaysRevoked(s: Service, r: Request, id: string, hash: string)
    requires Indexed(s.table) && Revoked(s, hash) && OnlyRow(s.table, id, hash) && !Revives(r, id, hash)
    ensures Revoked(Step(s, r), hash) && OnlyRow(Step(s, r).table, id, hash)
  {
    FoundIffActiveRow(s.table, hash);
    OthersKeepRecord(s, r, hash);
    forall other | other in Step(s, r).table.rows && Step(s, r).table.rows[other].keyHash == hash
      ensures other == id && !Step(s, r).table.rows[other].isActive
    {
      RowStaysInactive(s, r, id, hash, other);
    }
  }

  lemma {:induction false} UpdateRevokes(s: Service, r: Request, id: string)
    requires Indexed(s.table) && id in s.table.rows && Changes(r, id) && r.op.updates.isActive == Some(false)
    ensures Revoked(Step(s, r), s.table.rows[id].keyHash) && OnlyRow(Step(s, r).table, id, s.table.rows[id].keyHash)
  {
  }

  /** In every serialized run: once an update clears the active flag of a row, its key is refused
      at every instant, until an update sets the flag again or a new row takes the hash. */
  lemma {:induction false} RevocationHolds(requests: seq<Request>, i: nat, n: nat, id: string)
    requires i < n <= |requests| && id in After(requests, i).table.rows
    requires Changes(requests[i], id) && requests[i].op.updates.isActive == Some(false)
    requires forall j | i < j < n :: !Revives(requests[j], id, After(requests, i).table.rows[id].keyHash)
    ensures var s, hash := After(requests, n), After(requests, i).table.rows[id].keyHash;
            && Revoked(s, hash) && OnlyRow(s.table, id, hash)
            && forall now :: ValidateResult(s, hash, now) == None
    decreases n
  {
    var hash := After(requests, i).table.rows[id].keyHash;
    TableIndexed(requests, n - 1);
    TableIndexed(requests, n);
    if n > i + 1 {
      RevocationHolds(requests, i, n - 1, id);
      StaysRevoked(After(requests, n - 1), requests[n - 1], id, hash);
    } else {
      UpdateRevokes(After(requests, i), requests[i], id);
    }
    FoundIffActiveRow(After(requests, n).table, hash);
  }
}
