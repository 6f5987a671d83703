/**
 The two metadata stores. `MemoryMetadata` is the simple specification; `PostgresMetadata`
 keeps rows whose sizes are signed 64-bit integers and answers whole lists with one query.
 */
module Metadata {
  import opened Wrappers
  import opened Digests
  import opened Uploads
  import Publishing

  const I64_LIMIT: nat := 0x8000_0000_0000_0000
  const ACCESS_REFRESH_SECONDS: nat := 3600

  type Key = (string, Digest)
  type ActionResult = Publishing.ActionResult

  datatype Manifest = Manifest(selector: string, predictions: set<string>)
  datatype ManifestRecord = ManifestRecord(etag: string, manifest: Manifest)

  datatype CommitOutcome = ResultCreated | ResultExists | ResultConflict
  datatype ManifestOutcome = ManifestCreated | ManifestUpdated | ManifestStale

  // ------------------------------------------------------------ the in-memory store

  datatype Memory = Memory(visible: set<Key>, results: map<Key, ActionResult>, manifests: map<Key, ManifestRecord>)

  function VisibleIn(m: Memory, namespace: string): Digest -> bool {
    (d: Digest) => (namespace, d) in m.visible
  }

  function Visible(m: Memory, namespace: string, digests: seq<Digest>): seq<Digest> {
    Keep(digests, VisibleIn(m, namespace))
  }

  function Get(m: Memory, namespace: string, action: Digest): Option<ActionResult> {
    if (namespace, action) in m.results then Some(m.results[(namespace, action)]) else None
  }

  function GetBatch(m: Memory, namespace: string, actions: seq<Digest>): (r: seq<ActionResult>)
    ensures |r| <= |actions|
  {
    if actions == [] then []
    else
      var before, last := GetBatch(m, namespace, actions[..|actions| - 1]), Get(m, namespace, actions[|actions| - 1]);
      if last.Some? then before + [last.value] else before
  }

  /** Write-once: the first value stays, and a repeat of it is told apart from a conflict. */
  function Commit(m: Memory, key: Key, result: ActionResult): (Memory, CommitOutcome) {
    if key !in m.results then (m.(results := m.results[key := result]), ResultCreated)
    else (m, if m.results[key] == result then ResultExists else ResultConflict)
  }

  /** Compare and swap on the entity tag; None expects no manifest at all. */
  function CommitManifest(m: Memory, key: Key, expected: Option<string>, record: ManifestRecord)
      : (Memory, ManifestOutcome)
  {
    var current := if key in m.manifests then Some(m.manifests[key].etag) else None;
    if current != expected then (m, ManifestStale)
    else (m.(manifests := m.manifests[key := record]), if expected.Some? then ManifestUpdated else ManifestCreated)
  }

  class MemoryMetadata {
    var entries: map<Key, seq<Byte>>
    var blobs: set<Key>
    var manifests: map<Key, ManifestRecord>
    const encode: ActionResult -> seq<Byte>
    const decode: seq<Byte> -> Option<ActionResult>

    /** Entries are stored encoded; serialisation loses nothing. */
    ghost predicate Valid()
      reads this
    {
      && (forall r: ActionResult :: decode(encode(r)) == Some(r))
      && (forall key :: key in entries ==>
            decode(entries[key]).Some? && encode(decode(entries[key]).value) == entries[key])
    }

    ghost function View(): Memory
      requires Valid()
      reads this
    {
      Memory(blobs, map key | key in entries :: decode(entries[key]).value, manifests)
    }

    method RegisterBlob(namespace: string, digest: Digest)
      requires Valid()
      modifies this
      ensures Valid() && View() == old(View()).(visible := old(View()).visible + {(namespace, digest)})
    {
      blobs := blobs + {(namespace, digest)};
    }

    method GetBatchLoop(namespace: string, actions: seq<Digest>) returns (results: seq<ActionResult>)
      requires Valid()
      ensures results == GetBatch(View(), namespace, actions)
    {
      results := [];
      for i := 0 to |actions|
        invariant results == GetBatch(View(), namespace, actions[..i])
      {
        assert actions[..i + 1][..i] == actions[..i];
        var key := (namespace, actions[i]);
        if key in entries {
          results := results + [decode(entries[key]).value];
        }
      }
      assert actions[..|actions|] == actions;
    }

    /** The lock is held throughout; encoded bytes are compared, which is comparing results. */
    method CommitLocked(namespace: string, action: Digest, result: ActionResult) returns (outcome: CommitOutcome)
      requires Valid()
      modifies this
      ensures Valid() && (View(), outcome) == Commit(old(View()), (namespace, action), result)
    {
      var encoded, key := encode(result), (namespace, action);
      if key !in entries {
        entries := entries[key := encoded];
        outcome := ResultCreated;
        assert View().results == old(View()).results[key := result];
      } else if entries[key] == encoded {
        outcome := ResultExists;
      } else {
        outcome := ResultConflict;
      }
    }

    method CommitManifestLocked(namespace: string, digest: Digest, expected: Option<string>, record: ManifestRecord)
        returns (outcome: ManifestOutcome)
      requires Valid()
      modifies this
      ensures Valid() && (View(), outcome) == CommitManifest(old(View()), (namespace, digest), expected, record)
    {
      var key := (namespace, digest);
      var matches := if key in manifests then expected == Some(manifests[key].etag) else expected == None;
      if !matches {
        return ManifestStale;
      }
      outcome := if key in manifests then ManifestUpdated else ManifestCreated;
      manifests := manifests[key := record];
    }
  }

  // ------------------------------------------------------------------- PostgreSQL rows

  datatype RowKey = RowKey(namespace: string, algorithm: string, hash: string, size: int)
  datatype BlobRow = BlobRow(createdAt: nat, accessedAt: nat)
  datatype ManifestRow = ManifestRow(record: ManifestRecord, updatedAt: nat)

  datatype Tables = Tables(blobs: map<RowKey, BlobRow>, results: map<RowKey, ActionResult>,
      manifests: map<RowKey, ManifestRow>)

  datatype DbError = CheckViolated | InvalidOrdinal | Disappeared

  /** Rust's `size as i64` on a u64. */
  function Wrap(size: nat): int {
    if size < I64_LIMIT then size else size - U64_LIMIT
  }

  function RowOf(namespace: string, d: Digest): RowKey {
    RowKey(namespace, d.algorithm, d.hash, Wrap(d.size))
  }

  /** The primary keys respect `CHECK (size >= 0)`. */
  ghost predicate TablesOk(t: Tables) {
    && (forall k :: k in t.blobs ==> 0 <= k.size < I64_LIMIT)
    && (forall k :: k in t.results ==> 0 <= k.size < I64_LIMIT)
    && (forall k :: k in t.manifests ==> 0 <= k.size < I64_LIMIT)
  }

  /** The size converts to i64. */
  predicate Fits(d: Digest) {
    d.size < I64_LIMIT
  }

  function Representable(digests: seq<Digest>): seq<Digest> {
    Keep(digests, Fits)
  }

  /** The join: one-based ordinals of the requested rows that exist, in ascending order. */
  function Ordinals(t: Tables, namespace: string, requested: seq<Digest>): seq<int> {
    if requested == [] then []
    else
      var before, n := Ordinals(t, namespace, requested[..|requested| - 1]), |requested|;
      if RowOf(namespace, requested[n - 1]) in t.blobs then before + [n] else before
  }

  /** Mapping ordinals back to the filtered request, refusing any that do not index it. */
  function PickOrdinals(requested: seq<Digest>, ordinals: seq<int>): Result<seq<Digest>, DbError> {
    if ordinals == [] then Ok([])
    else
      var before :- PickOrdinals(requested, ordinals[..|ordinals| - 1]);
      var index := ordinals[|ordinals| - 1] - 1;
      if 0 <= index < |requested| then Ok(before + [requested[index]]) else Err(InvalidOrdinal)
  }

  function PgVisible(t: Tables, namespace: string, digests: seq<Digest>): Result<seq<Digest>, DbError> {
    var requested := Representable(digests);
    if requested == [] then Ok([]) else PickOrdinals(requested, Ordinals(t, namespace, requested))
  }

  function PgGet(t: Tables, namespace: string, action: Digest): Option<ActionResult> {
    if RowOf(namespace, action) in t.results then Some(t.results[RowOf(namespace, action)]) else None
  }

  /** One correlated probe per representable request, missing rows skipped. */
  function Probes(t: Tables, namespace: string, requested: seq<Digest>): seq<ActionResult> {
    if requested == [] then []
    else
      var before, last := Probes(t, namespace, requested[..|requested| - 1]),
          PgGet(t, namespace, requested[|requested| - 1]);
      if last.Some? then before + [last.value] else before
  }

  function PgGetBatch(t: Tables, namespace: string, actions: seq<Digest>): seq<ActionResult> {
    Probes(t, namespace, Representable(actions))
  }

  function PgGetManifest(t: Tables, namespace: string, key: Digest): Option<ManifestRecord> {
    if RowOf(namespace, key) in t.manifests then Some(t.manifests[RowOf(namespace, key)].record) else None
  }

  // ------------------------------------------------------------------- the two agree

  /** The tables hold exactly what the memory holds, for every digest a request can name. */
  ghost predicate Agree(m: Memory, t: Tables) {
    && TablesOk(t)
    && (forall n, d: Digest :: d.size < U64_LIMIT ==> ((n, d) in m.visible <==> RowOf(n, d) in t.blobs))
    && (forall n, d: Digest :: d.size < U64_LIMIT ==> Get(m, n, d) == PgGet(t, n, d))
    && (forall n, d: Digest :: d.size < U64_LIMIT ==>
          (if (n, d) in m.manifests then Some(m.manifests[(n, d)]) else None) == PgGetManifest(t, n, d))
  }

  /** The wrapping cast never sends two requests to one row, and oversized ones to none. */
  lemma RowOfInjective(n: string, d: Digest, n': string, d': Digest)
    requires d.size < U64_LIMIT && d'.size < U64_LIMIT && RowOf(n, d) == RowOf(n', d')
    ensures n == n' && d == d'
  {
  }

  ghost predicate InRange(digests: seq<Digest>) {
    forall i :: 0 <= i < |digests| ==> digests[i].size < U64_LIMIT
  }

  lemma {:induction false} OrdinalsPick(t: Tables, namespace: string, requested: seq<Digest>, all: seq<Digest>)
    requires requested <= all
    ensures PickOrdinals(all, Ordinals(t, namespace, requested)).Ok?
    ensures PickOrdinals(all, Ordinals(t, namespace, requested)).value == Held(t, namespace, requested)
  {
    if requested != [] {
      var init, n := requested[..|requested| - 1], |requested|;
      OrdinalsPick(t, namespace, init, all);
      var before := Ordinals(t, namespace, init);
      if RowOf(namespace, requested[n - 1]) in t.blobs {
        var ordinals := before + [n];
        assert ordinals[..|ordinals| - 1] == before;
      }
    }
  }

  function RowIn(t: Tables, namespace: string): Digest -> bool {
    (d: Digest) => RowOf(namespace, d) in t.blobs
  }

  /** The requested digests that have a row. */
  function Held(t: Tables, namespace: string, requested: seq<Digest>): seq<Digest> {
    Keep(requested, RowIn(t, namespace))
  }

  /** Dropping what no row can hold and then looking up is looking up. */
  lemma HeldIsVisible(m: Memory, t: Tables, namespace: string, digests: seq<Digest>)
    requires Agree(m, t) && InRange(digests)
    ensures Held(t, namespace, Representable(digests)) == Visible(m, namespace, digests)
  {
    hide Agree, Keep, RowOf;
    forall i | 0 <= i < |digests|
      ensures VisibleIn(m, namespace)(digests[i]) <==> Fits(digests[i]) && RowIn(t, namespace)(digests[i])
    {
      AgreeAt(m, t, namespace, digests[i]);
    }
    KeepTwice(digests, Fits, RowIn(t, namespace), VisibleIn(m, namespace));
  }

  lemma AgreeAt(m: Memory, t: Tables, n: string, d: Digest)
    requires Agree(m, t) && d.size < U64_LIMIT
    ensures (n, d) in m.visible <==> RowOf(n, d) in t.blobs
    ensures Get(m, n, d) == PgGet(t, n, d)
    ensures (if (n, d) in m.manifests then Some(m.manifests[(n, d)]) else None) == PgGetManifest(t, n, d)
    ensures d.size >= I64_LIMIT ==> RowOf(n, d) !in t.blobs && RowOf(n, d) !in t.results && RowOf(n, d) !in t.manifests
  {
    hide Get, PgGet, PgGetManifest;
  }

  /** One query answers any list, duplicates and order included, exactly as the memory does. */
  lemma VisibleAgrees(m: Memory, t: Tables, namespace: string, digests: seq<Digest>)
    requires Agree(m, t) && InRange(digests)
    ensures PgVisible(t, namespace, digests) == Ok(Visible(m, namespace, digests))
  {
    hide Agree, Representable, Ordinals, PickOrdinals;
    var requested := Representable(digests);
    OrdinalsPick(t, namespace, requested, requested);
    HeldIsVisible(m, t, namespace, digests);
  }

  lemma ProbesSnoc(t: Tables, namespace: string, requested: seq<Digest>, d: Digest)
    ensures Probes(t, namespace, requested + [d]) ==
            Probes(t, namespace, requested) + if PgGet(t, namespace, d).Some? then [PgGet(t, namespace, d).value]
                else []
  {
    hide PgGet;
    assert (requested + [d])[..|requested|] == requested;
    assert Probes(t, namespace, requested) + [] == Probes(t, namespace, requested);
  }

  lemma {:induction false} GetBatchAgrees(m: Memory, t: Tables, namespace: string, actions: seq<Digest>)
    requires Agree(m, t) && InRange(actions)
    ensures PgGetBatch(t, namespace, actions) == GetBatch(m, namespace, actions)
  {
    hide Agree, PgGet, Get;
    if actions != [] {
      var init, last := actions[..|actions| - 1], actions[|actions| - 1];
      GetBatchAgrees(m, t, namespace, init);
      AgreeAt(m, t, namespace, last);
      if last.size < I64_LIMIT {
        ProbesSnoc(t, namespace, Representable(init), last);
      } else {
        assert PgGet(t, namespace, last) == None by { Unrepresented(m, t, namespace, last); }
      }
    }
  }

  lemma Unrepresented(m: Memory, t: Tables, n: string, d: Digest)
    requires Agree(m, t) && I64_LIMIT <= d.size < U64_LIMIT
    ensures PgGet(t, n, d) == None && PgGetManifest(t, n, d) == None
  {
    hide Agree;
    AgreeAt(m, t, n, d);
  }

  /** The requested actions with and without a result, in request order. */
  function HeldActions(m: Memory, namespace: string, actions: seq<Digest>): seq<Digest> {
    Keep(actions, (d: Digest) => Get(m, namespace, d).Some?)
  }

  function MissedActions(m: Memory, namespace: string, actions: seq<Digest>): seq<Digest> {
    Keep(actions, (d: Digest) => Get(m, namespace, d).None?)
  }

  /** Results are stored under the action they name, as publishing guarantees. */
  ghost predicate NamesActions(m: Memory) {
    forall key :: key in m.results ==> m.results[key].action == key.1
  }

  lemma {:induction false} BatchSplits(m: Memory, namespace: string, actions: seq<Digest>)
    requires NamesActions(m)
    ensures |GetBatch(m, namespace, actions)| == |HeldActions(m, namespace, actions)|
    ensures forall i :: 0 <= i < |GetBatch(m, namespace, actions)| ==>
              GetBatch(m, namespace, actions)[i].action == HeldActions(m, namespace, actions)[i]
    ensures |HeldActions(m, namespace, actions)| + |MissedActions(m, namespace, actions)| == |actions|
  {
    if actions != [] {
      BatchSplits(m, namespace, actions[..|actions| - 1]);
    }
  }

  /** One batch query answers exactly the held actions, each record naming its own, in request
      order; the miss count is the number of the others, so the subtraction cannot underflow. */
  lemma BatchAccountsForAll(m: Memory, t: Tables, namespace: string, actions: seq<Digest>)
    requires Agree(m, t) && InRange(actions) && NamesActions(m)
    ensures var results, held := PgGetBatch(t, namespace, actions), HeldActions(m, namespace, actions);
            && |actions| - |results| == |MissedActions(m, namespace, actions)|
            && |results| == |held| && forall i :: 0 <= i < |held| ==> results[i].action == held[i]
  {
    hide Agree, PgGetBatch, GetBatch, HeldActions, MissedActions;
    GetBatchAgrees(m, t, namespace, actions);
    BatchSplits(m, namespace, actions);
  }

  // ----------------------------------------------------------- statements that write

  class PostgresMetadata {
    var tables: Tables

    /** The insert-or-update of a blob row. An upload that wrote the object restarts its age. */
    method RegisterBlob(now: nat, namespace: string, digest: Digest, stored: PutOutcome)
        returns (r: Result<(), DbError>)
      requires TablesOk(tables) && digest.size < U64_LIMIT
      modifies this
      ensures TablesOk(tables)
      ensures r.Ok? <==> digest.size < I64_LIMIT
      ensures r.Err? ==> tables == old(tables)
      ensures r.Ok? ==> tables == Registered(old(tables), now, namespace, digest, stored)
    {
      var key := RowOf(namespace, digest);
      if key.size < 0 {
        return Err(CheckViolated);
      }
      var createdAt := if key in tables.blobs && stored != Created then tables.blobs[key].createdAt else now;
      tables := tables.(blobs := tables.blobs[key := BlobRow(createdAt, now)]);
      r := Ok(());
    }

    /** One conditional statement; the row count tells whether it applied. */
    method CommitManifestStatement(now: nat, namespace: string, digest: Digest, expected: Option<string>,
                                   record: ManifestRecord)
        returns (r: Result<ManifestOutcome, DbError>)
      requires TablesOk(tables) && digest.size < U64_LIMIT
      modifies this
      ensures TablesOk(tables)
      ensures r == PgCommitManifest(old(tables), now, namespace, digest, expected, record).0
      ensures tables == PgCommitManifest(old(tables), now, namespace, digest, expected, record).1
    {
      var key, affected := RowOf(namespace, digest), 0;
      if expected.Some? {
        if key in tables.manifests && tables.manifests[key].record.etag == expected.value {
          tables := tables.(manifests := tables.manifests[key := ManifestRow(record, now)]);
          affected := 1;
        }
      } else {
        if key.size < 0 {
          return Err(CheckViolated);
        }
        if key !in tables.manifests {
          tables := tables.(manifests := tables.manifests[key := ManifestRow(record, now)]);
          affected := 1;
        }
      }
      return Ok(if affected == 0 then ManifestStale else if expected.Some? then ManifestUpdated else ManifestCreated);
    }

    /** The sweep transaction: aged blob rows, then results left dangling, then stale manifests. */
    method Sweep(now: nat, age: nat) returns (outcome: SweepOutcome)
      requires TablesOk(tables)
      modifies this
      ensures TablesOk(tables) && tables == Swept(old(tables), now, age)
      ensures outcome == SweepOutcome(|old(tables).blobs.Keys - tables.blobs.Keys|,
                                      |old(tables).results.Keys - tables.results.Keys|,
                                      |old(tables).manifests.Keys - tables.manifests.Keys|)
    {
      var blobs := AgedBlobs(tables, now, age);
      tables := tables.(blobs := tables.blobs - blobs);
      var results := DanglingResults(tables);
      tables := tables.(results := tables.results - results);
      var manifests := AgedManifests(tables, now, age);
      tables := tables.(manifests := tables.manifests - manifests);
      outcome := SweepOutcome(|blobs|, |results|, |manifests|);
      RemovedKeys(old(tables).blobs, blobs);
      RemovedKeys(old(tables).results, results);
      RemovedKeys(old(tables).manifests, manifests);
    }

    /** Recording an access: one statement over the representable digests. */
    method TouchBlobs(now: nat, namespace: string, digests: seq<Digest>)
      requires TablesOk(tables) && InRange(digests)
      modifies this
      ensures tables == Touched(old(tables), now, namespace, digests)
    {
      var requested := Representable(digests);
      if requested == [] {
        TouchNothing(tables, now, namespace, digests);
        return;
      }
      var stale := StaleRows(tables, now, namespace, requested);
      tables := tables.(blobs := map k | k in tables.blobs ::
          if k in stale then tables.blobs[k].(accessedAt := now) else tables.blobs[k]);
      TouchRepresented(old(tables), now, namespace, digests);
    }
  }

  function Registered(t: Tables, now: nat, namespace: string, digest: Digest, stored: PutOutcome): Tables {
    var key := RowOf(namespace, digest);
    var createdAt := if key in t.blobs && stored != Created then t.blobs[key].createdAt else now;
    t.(blobs := t.blobs[key := BlobRow(createdAt, now)])
  }

  function PgCommitManifest(t: Tables, now: nat, namespace: string, digest: Digest, expected: Option<string>,
                            record: ManifestRecord)
      : (Result<ManifestOutcome, DbError>, Tables)
  {
    var key := RowOf(namespace, digest);
    if expected.None? && key.size < 0 then (Err(CheckViolated), t)
    else
      var current := if key in t.manifests then Some(t.manifests[key].record.etag) else None;
      if current != expected then (Ok(ManifestStale), t)
      else (Ok(if expected.Some? then ManifestUpdated else ManifestCreated),
            t.(manifests := t.manifests[key := ManifestRow(record, now)]))
  }

  /** Registering keeps the stores in agreement, whatever the put did to the object's age. */
  lemma RegisterAgrees(m: Memory, t: Tables, now: nat, namespace: string, digest: Digest, stored: PutOutcome)
    requires Agree(m, t) && digest.size < I64_LIMIT
    ensures Agree(m.(visible := m.visible + {(namespace, digest)}), Registered(t, now, namespace, digest, stored))
  {
    var m', t' := m.(visible := m.visible + {(namespace, digest)}), Registered(t, now, namespace, digest, stored);
    forall n, d: Digest | d.size < U64_LIMIT
      ensures (n, d) in m'.visible <==> RowOf(n, d) in t'.blobs
      ensures Get(m', n, d) == PgGet(t', n, d)
    {
      AgreeAt(m, t, n, d);
      if RowOf(n, d) == RowOf(namespace, digest) {
        RowOfInjective(n, d, namespace, digest);
      }
    }
  }

  /** The conditional statement is the locked compare-and-swap: same answer and same effect,
      except that creating a key beyond i64 is a constraint error instead of a success. */
  lemma CommitManifestAgrees(m: Memory, t: Tables, now: nat, namespace: string, digest: Digest,
                             expected: Option<string>, record: ManifestRecord)
    requires Agree(m, t) && digest.size < U64_LIMIT
    ensures var memory := CommitManifest(m, (namespace, digest), expected, record);
            var rows := PgCommitManifest(t, now, namespace, digest, expected, record);
            if digest.size < I64_LIMIT || expected.Some? then rows.0 == Ok(memory.1) && Agree(memory.0, rows.1)
            else memory.1 == ManifestCreated && rows == (Err(CheckViolated), t)
  {
    AgreeAt(m, t, namespace, digest);
    var memory := CommitManifest(m, (namespace, digest), expected, record);
    var rows := PgCommitManifest(t, now, namespace, digest, expected, record);
    if digest.size < I64_LIMIT && memory.1 != ManifestStale {
      ManifestWritten(m, t, now, namespace, digest, record);
    }
  }

  lemma ManifestWritten(m: Memory, t: Tables, now: nat, namespace: string, digest: Digest, record: ManifestRecord)
    requires Agree(m, t) && digest.size < I64_LIMIT
    ensures Agree(m.(manifests := m.manifests[(namespace, digest) := record]),
                  t.(manifests := t.manifests[RowOf(namespace, digest) := ManifestRow(record, now)]))
  {
    var m' := m.(manifests := m.manifests[(namespace, digest) := record]);
    var t' := t.(manifests := t.manifests[RowOf(namespace, digest) := ManifestRow(record, now)]);
    forall n, d: Digest | d.size < U64_LIMIT
      ensures (if (n, d) in m'.manifests then Some(m'.manifests[(n, d)]) else None) == PgGetManifest(t', n, d)
      ensures Get(m', n, d) == PgGet(t', n, d)
    {
      AgreeAt(m, t, n, d);
      if RowOf(n, d) == RowOf(namespace, digest) {
        RowOfInjective(n, d, namespace, digest);
      }
    }
  }

  /** The insert and, on conflict, the select of a result commit with nothing in between. */
  function PgCommit(t: Tables, namespace: string, action: Digest, result: ActionResult)
      : (Tables, Result<CommitOutcome, DbError>)
  {
    var key := RowOf(namespace, action);
    if key.size < 0 then (t, Err(CheckViolated))
    else if key !in t.results then (t.(results := t.results[key := result]), Ok(ResultCreated))
    else (t, Ok(if t.results[key] == result then ResultExists else ResultConflict))
  }

  lemma CommitAgrees(m: Memory, t: Tables, namespace: string, action: Digest, result: ActionResult)
    requires Agree(m, t) && action.size < I64_LIMIT
    ensures var (after, outcome) := Commit(m, (namespace, action), result);
            var (rows, answer) := PgCommit(t, namespace, action, result);
            answer == Ok(outcome) && Agree(after, rows)
  {
    AgreeAt(m, t, namespace, action);
    if (namespace, action) !in m.results {
      ResultWritten(m, t, namespace, action, result);
    }
    hide Agree;
  }

  lemma ResultWritten(m: Memory, t: Tables, namespace: string, action: Digest, result: ActionResult)
    requires Agree(m, t) && action.size < I64_LIMIT
    ensures Agree(m.(results := m.results[(namespace, action) := result]),
                  t.(results := t.results[RowOf(namespace, action) := result]))
  {
    var m' := m.(results := m.results[(namespace, action) := result]);
    var t' := t.(results := t.results[RowOf(namespace, action) := result]);
    forall n, d: Digest | d.size < U64_LIMIT
      ensures Get(m', n, d) == PgGet(t', n, d)
    {
      AgreeAt(m, t, n, d);
      if RowOf(n, d) == RowOf(namespace, action) {
        RowOfInjective(n, d, namespace, action);
      }
    }
  }

  // ------------------------------------------------------ the two over any run of writes

  datatype Write =
    | RegisterBlob(now: nat, namespace: string, digest: Digest, stored: PutOutcome)
    | CommitResult(namespace: string, digest: Digest, result: ActionResult)
    | SwapManifest(now: nat, namespace: string, digest: Digest, expected: Option<string>, record: ManifestRecord)

  datatype Answer = Visibly | Decided(outcome: CommitOutcome) | Swapped(manifest: ManifestOutcome)

  function InMemory(m: Memory, w: Write): (Memory, Answer) {
    match w
    case RegisterBlob(_, namespace, d, _) => (m.(visible := m.visible + {(namespace, d)}), Visibly)
    case CommitResult(namespace, d, result) =>
      var (after, outcome) := Commit(m, (namespace, d), result);
      (after, Decided(outcome))
    case SwapManifest(_, namespace, d, expected, record) =>
      var (after, outcome) := CommitManifest(m, (namespace, d), expected, record);
      (after, Swapped(outcome))
  }

  function InRows(t: Tables, w: Write): (Tables, Result<Answer, DbError>) {
    match w
    case RegisterBlob(now, namespace, d, stored) =>
      if RowOf(namespace, d).size < 0 then (t, Err(CheckViolated))
          else (Registered(t, now, namespace, d, stored), Ok(Visibly))
    case CommitResult(namespace, d, result) =>
      var (after, outcome) := PgCommit(t, namespace, d, result);
      (after, if outcome.Ok? then Ok(Decided(outcome.value)) else Err(outcome.error))
    case SwapManifest(now, namespace, d, expected, record) =>
      var (outcome, after) := PgCommitManifest(t, now, namespace, d, expected, record);
      (after, if outcome.Ok? then Ok(Swapped(outcome.value)) else Err(outcome.error))
  }

  lemma WriteAgrees(m: Memory, t: Tables, w: Write)
    requires Agree(m, t) && w.digest.size < I64_LIMIT
    ensures InRows(t, w).1 == Ok(InMemory(m, w).1) && Agree(InMemory(m, w).0, InRows(t, w).0)
  {
    hide Agree, Registered, Commit, PgCommit, CommitManifest, PgCommitManifest;
    match w
    case RegisterBlob(now, namespace, d, stored) => RegisterAgrees(m, t, now, namespace, d, stored);
    case CommitResult(namespace, d, result) => CommitAgrees(m, t, namespace, d, result);
    case SwapManifest(now, namespace, d, expected, record) =>
        CommitManifestAgrees(m, t, now, namespace, d, expected, record);
  }

  function MemoryAfter(writes: seq<Write>): Memory {
    if writes == [] then Memory({}, map[], map[])
    else InMemory(MemoryAfter(writes[..|writes| - 1]), writes[|writes| - 1]).0
  }

  function RowsAfter(writes: seq<Write>): Tables {
    if writes == [] then Tables(map[], map[], map[])
    else InRows(RowsAfter(writes[..|writes| - 1]), writes[|writes| - 1]).0
  }

  lemma {:induction false} WritesAgree(writes: seq<Write>)
    requires forall i :: 0 <= i < |writes| ==> writes[i].digest.size < I64_LIMIT
    ensures Agree(MemoryAfter(writes), RowsAfter(writes))
  {
    hide InMemory, InRows;
    if writes != [] {
      WritesAgree(writes[..|writes| - 1]);
      WriteAgrees(MemoryAfter(writes[..|writes| - 1]), RowsAfter(writes[..|writes| - 1]), writes[|writes| - 1]);
    }
  }

  /** From two empty stores, after any sequence of representable writes, every query of any u64
      digests is answered alike, and so is the next write. */
  lemma StoresAreAlike(writes: seq<Write>, namespace: string, digests: seq<Digest>, d: Digest, w: Write)
    requires forall i :: 0 <= i < |writes| ==> writes[i].digest.size < I64_LIMIT
    requires InRange(digests) && d.size < U64_LIMIT && w.digest.size < I64_LIMIT
    ensures var m, t := MemoryAfter(writes), RowsAfter(writes);
            && PgVisible(t, namespace, digests) == Ok(Visible(m, namespace, digests))
            && PgGetBatch(t, namespace, digests) == GetBatch(m, namespace, digests)
            && PgGet(t, namespace, d) == Get(m, namespace, d)
            && PgGetManifest(t, namespace, d) ==
                  (if (namespace, d) in m.manifests then Some(m.manifests[(namespace, d)]) else None)
            && InRows(t, w).1 == Ok(InMemory(m, w).1)
  {
    hide Agree, MemoryAfter, RowsAfter, PgVisible, Visible, PgGetBatch, GetBatch, PgGet, Get, PgGetManifest, InRows,
        InMemory;
    WritesAgree(writes);
    var m, t := MemoryAfter(writes), RowsAfter(writes);
    VisibleAgrees(m, t, namespace, digests);
    GetBatchAgrees(m, t, namespace, digests);
    AgreeAt(m, t, namespace, d);
    WriteAgrees(m, t, w);
  }

  // ------------------------------------------------------------------------- sweeping

  datatype SweepOutcome = SweepOutcome(blobs: nat, results: nat, manifests: nat)

  predicate Aged(at: nat, now: nat, age: nat) {
    at + age < now
  }

  /** A present top-level reference with no blob row in the result's namespace. */
  predicate Lost(blobs: map<RowKey, BlobRow>, namespace: string, reference: Option<Digest>) {
    reference.Some? &&
    RowKey(namespace, reference.value.algorithm, reference.value.hash, reference.value.size) !in blobs
  }

  predicate Dangling(blobs: map<RowKey, BlobRow>, key: RowKey, result: ActionResult) {
    Lost(blobs, key.namespace, result.metadata) || Lost(blobs, key.namespace, result.outputRoot)
  }

  function AgedBlobs(t: Tables, now: nat, age: nat): (r: set<RowKey>)
    ensures r <= t.blobs.Keys
  {
    set k | k in t.blobs && Aged(t.blobs[k].createdAt, now, age)
  }

  function DanglingResults(t: Tables): (r: set<RowKey>)
    ensures r <= t.results.Keys
  {
    set k | k in t.results && Dangling(t.blobs, k, t.results[k])
  }

  function AgedManifests(t: Tables, now: nat, age: nat): (r: set<RowKey>)
    ensures r <= t.manifests.Keys
  {
    set k | k in t.manifests && Aged(t.manifests[k].updatedAt, now, age)
  }

  function Swept(t: Tables, now: nat, age: nat): Tables {
    var blobs := t.(blobs := t.blobs - AgedBlobs(t, now, age));
    var results := blobs.(results := blobs.results - DanglingResults(blobs));
    results.(manifests := results.manifests - AgedManifests(results, now, age))
  }

  lemma RemovedKeys<K, V>(m: map<K, V>, doomed: set<K>)
    requires doomed <= m.Keys
    ensures m.Keys - (m - doomed).Keys == doomed
  {
  }

  /** What a sweep removes, and what it leaves alone. */
  lemma SweepRemovesExactly(t: Tables, now: nat, age: nat)
    ensures var s := Swept(t, now, age);
            && (forall k :: k in t.blobs ==> (k in s.blobs <==> t.blobs[k].createdAt + age >= now))
            && (forall k :: k in t.results ==>
                  (k in s.results <==>
                     && !Lost(s.blobs, k.namespace, t.results[k].metadata)
                     && !Lost(s.blobs, k.namespace, t.results[k].outputRoot)))
            && (forall k :: k in t.manifests ==> (k in s.manifests <==> t.manifests[k].updatedAt + age >= now))
            && (forall k :: k in s.blobs ==> k in t.blobs && s.blobs[k] == t.blobs[k])
            && (forall k :: k in s.results ==> k in t.results && s.results[k] == t.results[k])
            && (forall k :: k in s.manifests ==> k in t.manifests && s.manifests[k] == t.manifests[k])
  {
  }

  /** A client asking for this reference in this namespace is told that it is there. */
  ghost predicate Servable(t: Tables, namespace: string, reference: Option<Digest>) {
    reference.Some? ==> PgVisible(t, namespace, [reference.value]) == Ok([reference.value])
  }

  /** References that the size column can hold, as those of every published result. */
  predicate Referable(result: ActionResult) {
    && (result.metadata.Some? ==> result.metadata.value.size < I64_LIMIT)
    && (result.outputRoot.Some? ==> result.outputRoot.value.size < I64_LIMIT)
  }

  lemma VisibleOne(t: Tables, namespace: string, d: Digest)
    requires d.size < I64_LIMIT
    ensures PgVisible(t, namespace, [d]) == Ok(if RowOf(namespace, d) in t.blobs then [d] else [])
  {
    hide Ordinals, PickOrdinals, RowOf;
    KeepOne(d, Fits);
    KeepOne(d, RowIn(t, namespace));
    OrdinalsPick(t, namespace, [d], [d]);
  }

  lemma LostIsUnanswered(t: Tables, namespace: string, reference: Option<Digest>)
    requires reference.Some? ==> reference.value.size < I64_LIMIT
    ensures Lost(t.blobs, namespace, reference) <==> !Servable(t, namespace, reference)
  {
    if reference.Some? {
      VisibleOne(t, namespace, reference.value);
      assert [reference.value] != [];
    }
    hide PgVisible;
  }

  /** In terms of what clients see: a result survives a sweep if and only if the visibility query
      afterwards still finds its metadata and its output root, where it has them. */
  lemma SweptResultsAreServable(t: Tables, now: nat, age: nat, k: RowKey)
    requires k in t.results && Referable(t.results[k])
    ensures var s := Swept(t, now, age);
            k in s.results <==>
            Servable(s, k.namespace, t.results[k].metadata) && Servable(s, k.namespace, t.results[k].outputRoot)
  {
    hide Swept, Lost, Servable;
    var s := Swept(t, now, age);
    SweepRemovesExactly(t, now, age);
    LostIsUnanswered(s, k.namespace, t.results[k].metadata);
    LostIsUnanswered(s, k.namespace, t.results[k].outputRoot);
  }

  /** After a sweep no result refers to a missing top-level object, and a result whose
      references all survive is kept however old it is. Repeating the sweep changes nothing. */
  lemma SweepIsIdempotent(t: Tables, now: nat, age: nat)
    ensures Swept(Swept(t, now, age), now, age) == Swept(t, now, age)
    ensures forall k :: k in Swept(t, now, age).results ==> !Dangling(Swept(t, now, age).blobs, k, t.results[k])
  {
    var s := Swept(t, now, age);
    var again := Swept(s, now, age);
    assert again.blobs == s.blobs;
    assert again.results == s.results;
    assert again.manifests == s.manifests;
  }

  // ------------------------------------------------------------------------- touching

  /** The existing rows named by the digests whose recorded access is over an hour old. */
  function StaleRows(t: Tables, now: nat, namespace: string, digests: seq<Digest>): set<RowKey> {
    set i | 0 <= i < |digests| && RowOf(namespace, digests[i]) in t.blobs
            && Aged(t.blobs[RowOf(namespace, digests[i])].accessedAt, now, ACCESS_REFRESH_SECONDS)
         :: RowOf(namespace, digests[i])
  }

  /** The intended effect, with no filtering: stale rows named by the request move to now. */
  function Touched(t: Tables, now: nat, namespace: string, digests: seq<Digest>): Tables {
    var stale := StaleRows(t, now, namespace, digests);
    t.(blobs := map k | k in t.blobs :: if k in stale then t.blobs[k].(accessedAt := now) else t.blobs[k])
  }

  /** Filtering first loses nothing: an unrepresentable digest names no row. */
  lemma TouchRepresented(t: Tables, now: nat, namespace: string, digests: seq<Digest>)
    requires TablesOk(t) && InRange(digests)
    ensures StaleRows(t, now, namespace, Representable(digests)) == StaleRows(t, now, namespace, digests)
  {
    hide Keep;
    KeepMembers(digests, Fits);
    var few := Representable(digests);
    forall k ensures k in StaleRows(t, now, namespace, few) ==> k in StaleRows(t, now, namespace, digests) {
      if k in StaleRows(t, now, namespace, few) {
        var i :| 0 <= i < |few| && RowOf(namespace, few[i]) == k;
        assert few[i] in few;
      }
    }
    forall k ensures k in StaleRows(t, now, namespace, digests) ==> k in StaleRows(t, now, namespace, few) {
      if k in StaleRows(t, now, namespace, digests) {
        var i :| 0 <= i < |digests| && RowOf(namespace, digests[i]) == k;
        assert digests[i] in few;
      }
    }
  }

  lemma TouchNothing(t: Tables, now: nat, namespace: string, digests: seq<Digest>)
    requires TablesOk(t) && InRange(digests) && Representable(digests) == []
    ensures Touched(t, now, namespace, digests) == t
  {
    TouchRepresented(t, now, namespace, digests);
    assert Touched(t, now, namespace, digests).blobs == t.blobs;
  }

  /** Serving a blob never changes what a sweep removes: the two commute. */
  lemma TouchCommutesWithSweep(t: Tables, now: nat, namespace: string, digests: seq<Digest>, later: nat, age: nat)
    ensures Swept(Touched(t, now, namespace, digests), later, age) ==
            Touched(Swept(t, later, age), now, namespace, digests)
  {
    hide Swept, Touched, TouchedRow, Lost;
    var touched, swept := Touched(t, now, namespace, digests), Swept(t, later, age);
    var left, right := Swept(touched, later, age), Touched(swept, now, namespace, digests);
    TouchedRows(t, now, namespace, digests);
    TouchedRows(swept, now, namespace, digests);
    SweepRemovesExactly(t, later, age);
    SweepRemovesExactly(touched, later, age);
    assert left.blobs == right.blobs;
    forall key: RowKey, reference
      ensures Lost(left.blobs, key.namespace, reference) <==> Lost(swept.blobs, key.namespace, reference)
    {
      LostByKeys(left.blobs, swept.blobs, key.namespace, reference);
    }
    assert left.results == right.results;
    assert left.manifests == right.manifests;
  }

  lemma LostByKeys(a: map<RowKey, BlobRow>, b: map<RowKey, BlobRow>, namespace: string, reference: Option<Digest>)
    requires a.Keys == b.Keys
    ensures Lost(a, namespace, reference) <==> Lost(b, namespace, reference)
  {
  }

  function TouchedRow(k: RowKey, row: BlobRow, now: nat, namespace: string, digests: seq<Digest>): BlobRow {
    if Aged(row.accessedAt, now, ACCESS_REFRESH_SECONDS) &&
       (exists i :: 0 <= i < |digests| && RowOf(namespace, digests[i]) == k)
    then row.(accessedAt := now) else row
  }

  lemma TouchedRows(t: Tables, now: nat, namespace: string, digests: seq<Digest>)
    ensures var s := Touched(t, now, namespace, digests);
            && s.results == t.results && s.manifests == t.manifests && s.blobs.Keys == t.blobs.Keys
            && (forall k :: k in t.blobs ==> s.blobs[k] == TouchedRow(k, t.blobs[k], now, namespace, digests))
            && (forall k :: k in t.blobs ==> s.blobs[k].createdAt == t.blobs[k].createdAt)
  {
  }
}
