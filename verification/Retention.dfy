/**
 Ages. The object store's lifecycle rule deletes objects by age, the sweep deletes rows by
 `created_at`; clients upload and read from any number of namespaces in between.
 */
module Retention {
  import opened Digests
  import opened Uploads
  import opened Metadata

  /** `objects` gives the instant each object present was written. */
  datatype State = State(now: nat, objects: map<Digest, nat>, tables: Tables)

  datatype Step =
    | Tick(seconds: nat)
    | Upload(namespace: string, digest: Digest)
    | Touch(namespace: string, digests: seq<Digest>)
    | Expire(digest: Digest)
    | RunSweep(age: nat)
    | Rewrite(results: map<RowKey, ActionResult>, manifests: map<RowKey, ManifestRow>)

  const EMPTY := Tables(map[], map[], map[])

  /** Put if absent, then register what the put did. A size beyond i64 is stored and then
      refused by the row's constraint. */
  function Uploaded(s: State, namespace: string, digest: Digest): State {
    var outcome := if digest in s.objects then AlreadyExists else Created;
    var objects := if digest in s.objects then s.objects else s.objects[digest := s.now];
    if digest.size >= I64_LIMIT then s.(objects := objects)
    else State(s.now, objects, Registered(s.tables, s.now, namespace, digest, outcome))
  }

  /** `Rewrite` stands for whatever commits do to the other two tables. */
  function Next(s: State, step: Step): State {
    match step
    case Tick(seconds) => s.(now := s.now + seconds)
    case Upload(namespace, digest) => Uploaded(s, namespace, digest)
    case Touch(namespace, digests) => s.(tables := Touched(s.tables, s.now, namespace, digests))
    case Expire(digest) => s.(objects := s.objects - {digest})
    case RunSweep(age) => s.(tables := Swept(s.tables, s.now, age))
    case Rewrite(results, manifests) => s.(tables := s.tables.(results := results, manifests := manifests))
  }

  /** The state after the first `n` steps. */
  function After(steps: seq<Step>, n: nat): State
    requires n <= |steps|
  {
    if n == 0 then State(0, map[], EMPTY) else Next(After(steps, n - 1), steps[n - 1])
  }

  lemma Unfold(steps: seq<Step>, i: nat)
    requires i < |steps|
    ensures After(steps, i + 1) == Next(After(steps, i), steps[i])
  {
  }

  function DigestOf(row: RowKey): Digest
    requires row.size >= 0
  {
    Digest(row.algorithm, row.hash, row.size)
  }

  /** A key that a row can have: the size column holds a non-negative i64. */
  predicate Storable(row: RowKey) {
    0 <= row.size < I64_LIMIT
  }

  lemma RowOfDigest(namespace: string, digest: Digest)
    requires digest.size < I64_LIMIT
    ensures var row := RowOf(namespace, digest);
            row.namespace == namespace && Storable(row) && DigestOf(row) == digest
  {
  }

  lemma DigestOfRow(row: RowKey, namespace: string, digest: Digest)
    requires Storable(row) && digest.size < I64_LIMIT
    ensures row == RowOf(namespace, digest) <==> row.namespace == namespace && DigestOf(row) == digest
  {
  }

  // ------------------------------------------------------------------ one step's effect

  /** What a step does to a row that is there afterwards: it keeps its age, or it is (re)started
      by an upload of its own that found the row or the object missing. */
  lemma RowAfter(s: State, step: Step, row: RowKey)
    requires row in Next(s, step).tables.blobs
    ensures var s' := Next(s, step);
            || (row in s.tables.blobs && s'.tables.blobs[row].createdAt == s.tables.blobs[row].createdAt)
            || (step.Upload? && step.digest.size < I64_LIMIT && row == RowOf(step.namespace, step.digest)
                && (row !in s.tables.blobs || step.digest !in s.objects)
                && s'.tables.blobs[row].createdAt == s'.now && step.digest in s'.objects)
  {
    match step
    case Touch(namespace, digests) =>
      TouchedRows(s.tables, s.now, namespace, digests);
    case RunSweep(age) =>
      SweepRemovesExactly(s.tables, s.now, age);
    case Upload(_, _) =>
    case Tick(_) =>
    case Expire(_) =>
    case Rewrite(_, _) =>
  }

  /** An upload that creates the object restarts its own row. */
  lemma CreatingRestarts(s: State, namespace: string, digest: Digest)
    requires digest !in s.objects && digest.size < I64_LIMIT
    ensures var s', row := Next(s, Upload(namespace, digest)), RowOf(namespace, digest);
            row in s'.tables.blobs && s'.tables.blobs[row].createdAt == s.now
  {
  }

  /** Objects come from uploads that find them missing and go by expiry alone. */
  lemma ObjectAfter(s: State, step: Step, d: Digest)
    ensures var s' := Next(s, step);
            && (d in s.objects && step == Expire(d) ==> d !in s'.objects)
            && (d in s.objects && step != Expire(d) ==> d in s'.objects && s'.objects[d] == s.objects[d])
            && (d !in s.objects ==> (d in s'.objects <==> step.Upload? && step.digest == d))
            && (d !in s.objects && d in s'.objects ==> s'.objects[d] == s.now == s'.now)
  {
    hide Touched, Swept, Registered;
  }

  ghost predicate NotFuture(s: State) {
    && (forall d :: d in s.objects ==> s.objects[d] <= s.now)
    && (forall row :: row in s.tables.blobs ==> s.tables.blobs[row].createdAt <= s.now)
  }

  lemma NotFutureStep(s: State, step: Step)
    requires NotFuture(s)
    ensures NotFuture(Next(s, step))
  {
    var s' := Next(s, step);
    assert s.now <= s'.now;
    hide Next;
    forall row | row in s'.tables.blobs
      ensures s'.tables.blobs[row].createdAt <= s'.now
    {
      RowAfter(s, step, row);
    }
    forall d | d in s'.objects
      ensures s'.objects[d] <= s'.now
    {
      ObjectAfter(s, step, d);
    }
  }

  lemma {:induction false} NeverFuture(steps: seq<Step>, n: nat)
    requires n <= |steps|
    ensures NotFuture(After(steps, n))
  {
    if n > 0 {
      hide NotFuture, Next;
      NeverFuture(steps, n - 1);
      NotFutureStep(After(steps, n - 1), steps[n - 1]);
    }
  }

  // ------------------------------------------------ created_at is when it was stored

  /** At some instant up to now the clock showed this time and the object was there. */
  ghost predicate StoredAt(steps: seq<Step>, n: nat, digest: Digest, at: nat)
    requires n <= |steps|
  {
    exists i :: 0 <= i <= n && After(steps, i).now == at && digest in After(steps, i).objects
  }

  /** Over any run and any namespaces, each row's age is an instant its object was stored. */
  lemma {:induction false} CreatedAtIsStored(steps: seq<Step>, n: nat, row: RowKey)
    requires n <= |steps| && row in After(steps, n).tables.blobs
    ensures Storable(row) && StoredAt(steps, n, DigestOf(row), After(steps, n).tables.blobs[row].createdAt)
  {
    if n > 0 {
      var s, step := After(steps, n - 1), steps[n - 1];
      RowAfter(s, step, row);
      Unfold(steps, n - 1);
      hide After, Next, RowOf;
      var at := After(steps, n).tables.blobs[row].createdAt;
      if row in s.tables.blobs && at == s.tables.blobs[row].createdAt {
        CreatedAtIsStored(steps, n - 1, row);
        var i :| 0 <= i <= n - 1 && After(steps, i).now == at && DigestOf(row) in After(steps, i).objects;
      } else {
        RowOfDigest(step.namespace, step.digest);
      }
    }
  }

  lemma SweptRow(steps: seq<Step>, age: nat, row: RowKey)
    ensures var s, s' := After(steps, |steps|), Next(After(steps, |steps|), RunSweep(age));
            row in s'.tables.blobs <==> row in s.tables.blobs && s.tables.blobs[row].createdAt + age >= s.now
  {
    var s := After(steps, |steps|);
    SweepRemovesExactly(s.tables, s.now, age);
    hide After, Swept;
  }

  /** After a sweep of age S, every surviving row's object was there at most S ago. */
  lemma SurvivorsAreRecent(steps: seq<Step>, age: nat, row: RowKey)
    requires row in Next(After(steps, |steps|), RunSweep(age)).tables.blobs
    ensures Storable(row)
    ensures exists i :: 0 <= i <= |steps| && DigestOf(row) in After(steps, i).objects
                        && After(steps, i).now + age >= After(steps, |steps|).now
  {
    hide After, Next;
    SweptRow(steps, age, row);
    CreatedAtIsStored(steps, |steps|, row);
    var at := After(steps, |steps|).tables.blobs[row].createdAt;
    var i :| 0 <= i <= |steps| && After(steps, i).now == at && DigestOf(row) in After(steps, i).objects;
  }

  // --------------------------------------------------- rows younger than their objects

  /** This step is an upload from another namespace that writes the row's object anew, later
      than the row's age, while the row is there. */
  predicate Overtaking(s: State, step: Step, row: RowKey)
    requires Storable(row)
  {
    && step.Upload? && step.digest == DigestOf(row) && step.namespace != row.namespace
    && DigestOf(row) !in s.objects
    && row in s.tables.blobs && s.tables.blobs[row].createdAt < s.now
  }

  /** Since step `i` the object has not expired and the row has not been dropped. */
  ghost predicate Unbroken(steps: seq<Step>, i: nat, n: nat, row: RowKey)
    requires n <= |steps| && Storable(row)
  {
    && (forall k :: i < k < n ==> steps[k] != Expire(DigestOf(row)))
    && (forall k :: i <= k <= n ==> row in After(steps, k).tables.blobs)
  }

  ghost predicate Overtaken(steps: seq<Step>, n: nat, row: RowKey)
    requires n <= |steps| && Storable(row)
  {
    exists i :: 0 <= i < n && Overtaking(After(steps, i), steps[i], row) && Unbroken(steps, i, n, row)
  }

  /** The row is there and its age is before the present object's. */
  predicate Older(s: State, row: RowKey)
    requires Storable(row)
  {
    && row in s.tables.blobs && DigestOf(row) in s.objects
    && s.tables.blobs[row].createdAt < s.objects[DigestOf(row)]
  }

  /** How one step makes a row older than its object, or leaves it so. */
  lemma OlderStep(s: State, step: Step, row: RowKey)
    requires Storable(row) && NotFuture(s)
    ensures var d, s' := DigestOf(row), Next(s, step);
            Older(s', row) <==>
            Overtaking(s, step, row) || (Older(s, row) && step != Expire(d) && row in s'.tables.blobs)
  {
    var d, s' := DigestOf(row), Next(s, step);
    ObjectAfter(s, step, d);
    NotFutureStep(s, step);
    if row in s'.tables.blobs {
      RowAfter(s, step, row);
    }
    if step.Upload? && step.digest.size < I64_LIMIT {
      DigestOfRow(row, step.namespace, step.digest);
    }
    if step.Upload? && step.digest == d && d !in s.objects && row in s.tables.blobs {
      UploadKeepsRow(s, step.namespace, d, row);
      CreatingRestarts(s, step.namespace, d);
    }
    hide Next, RowOf;
  }

  lemma UploadKeepsRow(s: State, namespace: string, digest: Digest, row: RowKey)
    requires row in s.tables.blobs
    ensures row in Next(s, Upload(namespace, digest)).tables.blobs
    ensures row != RowOf(namespace, digest) ==>
              Next(s, Upload(namespace, digest)).tables.blobs[row] == s.tables.blobs[row]
  {
  }

  /** How one more step makes a row overtaken, or leaves it so. */
  lemma OvertakenNext(steps: seq<Step>, n: nat, row: RowKey)
    requires 0 < n <= |steps| && Storable(row)
    ensures var d, s, step := DigestOf(row), After(steps, n - 1), steps[n - 1];
            Overtaken(steps, n, row) <==>
            Overtaking(s, step, row) || (Overtaken(steps, n - 1, row) && step != Expire(d)
                && row in After(steps, n).tables.blobs)
  {
    hide After, Next, Overtaking, Unbroken;
    var d, s, step := DigestOf(row), After(steps, n - 1), steps[n - 1];
    if Overtaken(steps, n, row) {
      var i :| 0 <= i < n && Overtaking(After(steps, i), steps[i], row) && Unbroken(steps, i, n, row);
      UnbrokenNext(steps, i, n, row);
    }
    if Overtaking(s, step, row) {
      OvertakingHasRow(s, step, row);
      Unfold(steps, n - 1);
      UnbrokenNext(steps, n - 1, n, row);
    } else if Overtaken(steps, n - 1, row) && step != Expire(d) && row in After(steps, n).tables.blobs {
      var i :| 0 <= i < n - 1 && Overtaking(After(steps, i), steps[i], row) && Unbroken(steps, i, n - 1, row);
      UnbrokenNext(steps, i, n, row);
    }
  }

  lemma UnbrokenNext(steps: seq<Step>, i: nat, n: nat, row: RowKey)
    requires i < n <= |steps| && Storable(row)
    ensures Unbroken(steps, i, n, row) <==>
            && (if i == n - 1 then row in After(steps, i).tables.blobs
                else Unbroken(steps, i, n - 1, row) && steps[n - 1] != Expire(DigestOf(row)))
            && row in After(steps, n).tables.blobs
  {
    hide After, Next;
    if Unbroken(steps, i, n, row) {
      assert row in After(steps, i).tables.blobs && row in After(steps, n).tables.blobs;
      assert i < n - 1 ==> steps[n - 1] != Expire(DigestOf(row));
    }
  }

  lemma OvertakingHasRow(s: State, step: Step, row: RowKey)
    requires Storable(row) && Overtaking(s, step, row)
    ensures row in s.tables.blobs && row in Next(s, step).tables.blobs
  {
  }

  lemma NothingOlderAtStart(steps: seq<Step>, row: RowKey)
    requires Storable(row)
    ensures !Older(After(steps, 0), row) && !Overtaken(steps, 0, row)
  {
  }

  /** Exactly when a row is older than its present object: another namespace's upload wrote that
      object while the row was already there, with no expiry and no drop of the row since. */
  lemma {:induction false} OlderIffOvertaken(steps: seq<Step>, n: nat, row: RowKey)
    requires n <= |steps| && Storable(row)
    ensures Older(After(steps, n), row) <==> Overtaken(steps, n, row)
  {
    hide After, Next, Overtaken, Older, Overtaking, NotFuture;
    if n == 0 {
      NothingOlderAtStart(steps, row);
    } else {
      OlderIffOvertaken(steps, n - 1, row);
      OvertakenNext(steps, n, row);
      NeverFuture(steps, n - 1);
      OlderStep(After(steps, n - 1), steps[n - 1], row);
      Unfold(steps, n - 1);
    }
  }

  /** The lifecycle rule has caught up: nothing older than its age is left. */
  ghost predicate LifecycleApplied(s: State, age: nat) {
    forall d :: d in s.objects ==> s.objects[d] + age >= s.now
  }

  /** With a lifecycle age no longer than the sweep's that has been applied, a row is dropped
      only when its object is gone or the row was overtaken. */
  lemma DroppedIsGoneOrOvertaken(steps: seq<Step>, lifecycle: nat, age: nat, row: RowKey)
    requires var s := After(steps, |steps|);
             row in s.tables.blobs && row !in Next(s, RunSweep(age)).tables.blobs && LifecycleApplied(s, lifecycle)
    requires lifecycle <= age
    ensures Storable(row) && (DigestOf(row) !in After(steps, |steps|).objects || Overtaken(steps, |steps|, row))
  {
    hide After, Next, Overtaken;
    SweptRow(steps, age, row);
    CreatedAtIsStored(steps, |steps|, row);
    OlderIffOvertaken(steps, |steps|, row);
  }

  /** And that is exact: a present row of a present object can be dropped by some sweep whose age
      has not yet expired the object if and only if the row was overtaken. */
  lemma AtRiskIffOvertaken(steps: seq<Step>, row: RowKey)
    requires var s := After(steps, |steps|); row in s.tables.blobs && Storable(row) && DigestOf(row) in s.objects
    ensures (exists age: nat :: var s := After(steps, |steps|);
               s.objects[DigestOf(row)] + age >= s.now && row !in Next(s, RunSweep(age)).tables.blobs) <==>
            Overtaken(steps, |steps|, row)
  {
    hide After, Next, Overtaken;
    var s := After(steps, |steps|);
    OlderIffOvertaken(steps, |steps|, row);
    NeverFuture(steps, |steps|);
    var age := s.now - s.objects[DigestOf(row)];
    SweptRow(steps, age, row);
    forall other: nat
      ensures row in Next(s, RunSweep(other)).tables.blobs <==> s.tables.blobs[row].createdAt + other >= s.now
    {
      SweptRow(steps, other, row);
    }
  }

  // ------------------------------------------------------ one namespace per object

  /** Every upload of the object in the run comes from this namespace. */
  ghost predicate OnlyFrom(steps: seq<Step>, digest: Digest, namespace: string) {
    forall i :: 0 <= i < |steps| && steps[i].Upload? && steps[i].digest == digest ==> steps[i].namespace == namespace
  }

  /** With one uploading namespace no row is older than its present object. */
  lemma RowsFollowObjects(steps: seq<Step>, row: RowKey)
    requires Storable(row) && OnlyFrom(steps, DigestOf(row), row.namespace)
    ensures !Older(After(steps, |steps|), row) && !Overtaken(steps, |steps|, row)
  {
    hide After;
    OlderIffOvertaken(steps, |steps|, row);
  }

  /** One namespace, and a lifecycle age no longer than the sweep's that has been applied:
      a row is dropped only when its object is gone. */
  lemma SweepDropsOnlyExpired(steps: seq<Step>, lifecycle: nat, age: nat, row: RowKey)
    requires var s := After(steps, |steps|);
             row in s.tables.blobs && row !in Next(s, RunSweep(age)).tables.blobs && LifecycleApplied(s, lifecycle)
    requires Storable(row) ==> OnlyFrom(steps, DigestOf(row), row.namespace)
    requires lifecycle <= age
    ensures Storable(row) && DigestOf(row) !in After(steps, |steps|).objects
  {
    hide After, Next, Overtaken, OnlyFrom;
    DroppedIsGoneOrOvertaken(steps, lifecycle, age, row);
    RowsFollowObjects(steps, row);
  }

  /** With two namespaces that fails: the second writes the expired object anew while the
      first namespace's row keeps its old age, and the sweep drops a row whose object is there. */
  lemma SharedObjectLosesARow(digest: Digest, age: nat) returns (steps: seq<Step>, row: RowKey)
    requires digest.size < I64_LIMIT
    ensures var s := After(steps, |steps|);
            && row in s.tables.blobs && row !in Next(s, RunSweep(age)).tables.blobs
            && LifecycleApplied(s, age) && Storable(row) && DigestOf(row) in s.objects
  {
    row := RowOf("a", digest);
    RowOfDigest("a", digest);
    var other := RowOf("b", digest);
    steps := [Upload("a", digest), Expire(digest), Tick(age + 1), Upload("b", digest)];
    var later := age + 1;
    assert After(steps, 0) == State(0, map[], EMPTY);
    Unfold(steps, 0);
    Unfold(steps, 1);
    Unfold(steps, 2);
    Unfold(steps, 3);
    hide After;
    assert After(steps, 1) == State(0, map[digest := 0], EMPTY.(blobs := map[row := BlobRow(0, 0)]));
    assert After(steps, 3) == State(later, map[], EMPTY.(blobs := map[row := BlobRow(0, 0)]));
    assert After(steps, 4) == State(later, map[digest := later],
                                    EMPTY.(blobs := map[row := BlobRow(0, 0), other := BlobRow(later, later)]));
    SweptRow(steps, age, row);
  }

  // ----------------------------------------------------------- reads never move ages

  function WithoutReads(steps: seq<Step>): seq<Step> {
    if steps == [] then []
    else
      var before, last := WithoutReads(steps[..|steps| - 1]), steps[|steps| - 1];
      if last.Touch? then before else before + [last]
  }

  /** Equal but for the recorded accesses. */
  ghost predicate SameAges(s: State, r: State) {
    && s.now == r.now && s.objects == r.objects
    && s.tables.results == r.tables.results && s.tables.manifests == r.tables.manifests
    && SameRows(s.tables.blobs, r.tables.blobs)
  }

  ghost predicate SameRows(a: map<RowKey, BlobRow>, b: map<RowKey, BlobRow>) {
    && (forall row :: row in a <==> row in b)
    && (forall row :: row in a ==> a[row].createdAt == b[row].createdAt)
  }

  lemma SweptSameAges(a: Tables, b: Tables, now: nat, age: nat)
    requires a.results == b.results && a.manifests == b.manifests && SameRows(a.blobs, b.blobs)
    ensures var a', b' := Swept(a, now, age), Swept(b, now, age);
            a'.results == b'.results && a'.manifests == b'.manifests && SameRows(a'.blobs, b'.blobs)
  {
    SweepRemovesExactly(a, now, age);
    SweepRemovesExactly(b, now, age);
    var a', b' := Swept(a, now, age), Swept(b, now, age);
    hide Swept;
    assert SameRows(a'.blobs, b'.blobs);
    forall row: RowKey, reference ensures Lost(a'.blobs, row.namespace, reference) <==>
        Lost(b'.blobs, row.namespace, reference) {
    }
    assert a'.results == b'.results;
    assert a'.manifests == b'.manifests;
  }

  lemma TouchSameAges(s: State, r: State, namespace: string, digests: seq<Digest>)
    requires SameAges(s, r)
    ensures SameAges(Next(s, Touch(namespace, digests)), r)
  {
    TouchedRows(s.tables, s.now, namespace, digests);
    hide Touched;
  }

  lemma NextSameAges(s: State, r: State, step: Step)
    requires SameAges(s, r) && !step.Touch?
    ensures SameAges(Next(s, step), Next(r, step))
  {
    if step.RunSweep? {
      SweptSameAges(s.tables, r.tables, s.now, step.age);
    }
    hide Swept;
  }

  /** A run's first steps do not depend on the rest. */
  lemma {:induction false} AfterPrefix(steps: seq<Step>, more: seq<Step>, n: nat)
    requires n <= |steps|
    ensures After(steps + more, n) == After(steps, n)
  {
    if n > 0 {
      hide Next;
      AfterPrefix(steps, more, n - 1);
    }
  }

  /** Serving blobs is invisible to retention: erasing every read from any run leaves the
      same objects, rows and ages, the same results and the same manifests. */
  lemma {:induction false} ReadsChangeNoAge(steps: seq<Step>)
    ensures SameAges(After(steps, |steps|), After(WithoutReads(steps), |WithoutReads(steps)|))
  {
    if steps != [] {
      var init, last := steps[..|steps| - 1], steps[|steps| - 1];
      hide SameAges, Next;
      ReadsChangeNoAge(init);
      assert steps == init + [last];
      AfterPrefix(init, [last], |init|);
      var kept := WithoutReads(init);
      if last.Touch? {
        TouchSameAges(After(init, |init|), After(kept, |kept|), last.namespace, last.digests);
      } else {
        AfterPrefix(kept, [last], |kept|);
        NextSameAges(After(init, |init|), After(kept, |kept|), last);
      }
    }
  }
}
