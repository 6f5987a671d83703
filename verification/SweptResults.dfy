/**
 Published results under sweeps: exactly which rows a result needs, what becomes of it when one
 of them goes, and what every run, sweeps included, guarantees.
 */
module SweptResults {
  import opened Wrappers
  import opened Digests
  import Directories
  import opened TreeWalk
  import opened Uploads
  import opened Publishing

  // ----------------------------------------------------------- what sweeps may remove

  ghost predicate TreeNeeds(src: Source, root: Digest, d: Digest) {
    exists dir :: Reaches(src, root, dir) && (d == dir || d in FilesIn(src, dir))
  }

  ghost predicate MetadataNeeds(codec: Codec, s: Store, action: Digest, m: Digest, d: Digest) {
    || d == m
    || (&& action in s.objects && m in s.objects && codec.describe(s.objects[action]).Some?
        && var refs := References(codec, codec.describe(s.objects[action]).value, s.objects[m]);
           refs.Some? && d in refs.value)
  }

  /** What a result refers to: the descriptor, the metadata and the streams it names, and every
      reachable directory with its files. Visibility plays no part in this. */
  ghost predicate Needs(codec: Codec, s: Store, namespace: string, r: ActionResult, d: Digest) {
    || d == r.action
    || (r.metadata.Some? && MetadataNeeds(codec, s, r.action, r.metadata.value, d))
    || (r.outputRoot.Some? && TreeNeeds(SourceOf(codec, s, namespace), r.outputRoot.value, d))
  }

  /** The same objects, with some rows taken away. */
  ghost predicate FewerRows(s: Store, s': Store) {
    s'.objects == s.objects && s'.rows <= s.rows
  }

  lemma SameGraph(codec: Codec, s: Store, s': Store, namespace: string, d: Digest)
    requires s'.objects == s.objects
    ensures var src, src' := SourceOf(codec, s, namespace), SourceOf(codec, s', namespace);
            && src'.fetch(d) == src.fetch(d) && Parsed(src', d) == Parsed(src, d)
            && Children(src', d) == Children(src, d) && FilesIn(src', d) == FilesIn(src, d)
  {
  }

  lemma SamePath(codec: Codec, s: Store, s': Store, namespace: string, p: seq<Digest>)
    requires s'.objects == s.objects
    ensures IsPath(SourceOf(codec, s', namespace), p) <==> IsPath(SourceOf(codec, s, namespace), p)
  {
    hide Children, Parsed, FilesIn;
    forall d ensures Children(SourceOf(codec, s', namespace), d) == Children(SourceOf(codec, s, namespace), d) {
      SameGraph(codec, s, s', namespace, d);
    }
  }

  lemma SameReach(codec: Codec, s: Store, s': Store, namespace: string)
    requires s'.objects == s.objects
    ensures var src, src' := SourceOf(codec, s, namespace), SourceOf(codec, s', namespace);
            && (forall a, b :: Reaches(src', a, b) <==> Reaches(src, a, b))
            && (forall a, b :: Descends(src', a, b) <==> Descends(src, a, b))
  {
    hide IsPath, SourceOf;
    var src, src' := SourceOf(codec, s, namespace), SourceOf(codec, s', namespace);
    forall p, a, b ensures Links(src', p, a, b) <==> Links(src, p, a, b) {
      SamePath(codec, s, s', namespace, p);
    }
  }

  /** A good directory stays good exactly when its own row and its files' rows are kept. */
  lemma NodeFewer(codec: Codec, s: Store, s': Store, namespace: string, d: Digest)
    requires FewerRows(s, s') && GoodNode(SourceOf(codec, s, namespace), d)
    ensures GoodNode(SourceOf(codec, s', namespace), d) <==>
            && (namespace, d) in s'.rows
            && forall f :: f in FilesIn(SourceOf(codec, s, namespace), d) ==> (namespace, f) in s'.rows
  {
    hide Directories.EntriesValid, Digest.Valid;
    var src, src' := SourceOf(codec, s, namespace), SourceOf(codec, s', namespace);
    SameGraph(codec, s, s', namespace, d);
    var dir := Parsed(src, d).value;
    var files := FilesIn(src, d);
    assert |files| == |dir.files| && forall i :: 0 <= i < |files| ==> files[i] == dir.files[i].digest;
    if forall f :: f in files ==> (namespace, f) in s'.rows {
      forall i | 0 <= i < |dir.files|
        ensures FileOk(src, dir.files[i].digest) ==> FileOk(src', dir.files[i].digest)
      {
        assert files[i] in files;
      }
    }
    if GoodNode(src', d) {
      forall f | f in files
        ensures (namespace, f) in s'.rows
      {
        var i :| 0 <= i < |files| && files[i] == f;
        assert FileOk(src', dir.files[i].digest);
      }
    }
  }

  lemma TreeFewer(codec: Codec, s: Store, s': Store, namespace: string, root: Digest)
    requires FewerRows(s, s') && TreeOk(SourceOf(codec, s, namespace), root)
    ensures TreeOk(SourceOf(codec, s', namespace), root) <==>
            forall d :: TreeNeeds(SourceOf(codec, s, namespace), root, d) ==> (namespace, d) in s'.rows
  {
    hide SourceOf, Reaches, Descends, GoodNode, FilesIn;
    var src, src' := SourceOf(codec, s, namespace), SourceOf(codec, s', namespace);
    SameReach(codec, s, s', namespace);
    forall dir | Reaches(src, root, dir)
      ensures GoodNode(src', dir) <==>
              (namespace, dir) in s'.rows && forall f :: f in FilesIn(src, dir) ==> (namespace, f) in s'.rows
    {
      NodeFewer(codec, s, s', namespace, dir);
    }
    if forall d :: TreeNeeds(src, root, d) ==> (namespace, d) in s'.rows {
      forall dir | Reaches(src', root, dir)
        ensures GoodNode(src', dir)
      {
        assert TreeNeeds(src, root, dir);
        forall f | f in FilesIn(src, dir)
          ensures (namespace, f) in s'.rows
        {
          assert TreeNeeds(src, root, f);
        }
      }
      var nodes: set<Digest> :| |nodes| <= MAX_NODES && Covers(src, root, nodes);
      assert Covers(src', root, nodes);
    }
  }

  lemma MetadataFewer(codec: Codec, s: Store, s': Store, namespace: string, action: Digest, m: Digest)
    requires FewerRows(s, s') && action in s.objects && codec.describe(s.objects[action]).Some?
    requires MetadataComplete(codec, s, namespace, codec.describe(s.objects[action]).value, m)
    ensures MetadataComplete(codec, s', namespace, codec.describe(s.objects[action]).value, m) <==>
            forall d :: MetadataNeeds(codec, s, action, m, d) ==> (namespace, d) in s'.rows
  {
    hide Digest.Valid, References;
  }

  /** Taking rows away leaves a complete result complete exactly when none of them was needed. */
  lemma CompleteFewer(codec: Codec, s: Store, s': Store, namespace: string, r: ActionResult)
    requires FewerRows(s, s') && Complete(codec, s, namespace, r)
    ensures Complete(codec, s', namespace, r) <==>
            forall d :: Needs(codec, s, namespace, r, d) ==> (namespace, d) in s'.rows
  {
    hide TreeOk, TreeNeeds, MetadataNeeds, MetadataComplete, SourceOf, Digest.Valid;
    if r.metadata.Some? {
      MetadataFewer(codec, s, s', namespace, r.action, r.metadata.value);
    }
    if r.outputRoot.Some? {
      TreeFewer(codec, s, s', namespace, r.outputRoot.value);
    }
    assert Needs(codec, s, namespace, r, r.action);
  }

  // -------------------------------------- the same run as if no row were ever removed

  /** Every row registered so far, removed since or not. */
  function Ever(run: seq<State>, i: nat): Rows
    requires i < |run|
  {
    if i == 0 then run[0].store.rows else Ever(run, i - 1) + run[i].store.rows
  }

  function WithRows(s: State, rows: Rows): State {
    s.(store := s.store.(rows := rows))
  }

  /** A check that passes also passes, in the same way, with more rows. */
  lemma TurnGrows(codec: Codec, s: Store, s': Store, p: Publisher)
    requires p.todo != [] && s'.objects == s.objects && s.rows <= s'.rows && Turn(codec, s, p).Some?
    ensures Turn(codec, s', p) == Turn(codec, s, p)
  {
    hide Digest.Valid, Readable, References, ShapeOk, Files, Kids;
    assert Passes(codec, s', p);
    assert Added(codec, s', p) == Added(codec, s, p);
  }

  lemma ConsistentSubset(codec: Codec, s: State, s': State)
    requires Consistent(codec, s) && Extends(s.store, s'.store)
    requires forall key :: key in s'.store.results ==>
               key in s.store.results && s'.store.results[key] == s.store.results[key]
    requires forall id :: id in s'.publishers ==> id in s.publishers && s'.publishers[id] == s.publishers[id]
    ensures Consistent(codec, s')
  {
    hide Sure, Backed, Extends;
    forall key | key in s'.store.results
      ensures exists order :: Backed(codec, s'.store, key.0, s'.store.results[key], order)
    {
      var order :| Backed(codec, s.store, key.0, s.store.results[key], order);
      BackedGrows(codec, s.store, s'.store, key.0, s.store.results[key], order);
    }
    forall id | id in s'.publishers
      ensures Sure(codec, s'.store, s'.publishers[id])
    {
      SureGrows(codec, s.store, s'.store, s.publishers[id]);
    }
  }

  /** Steps other than checks and sweeps do not look at rows. */
  lemma BlindStep(codec: Codec, s: State, step: Step, s': State, rows: Rows)
    requires Next(codec, s, step, s') && s.store.rows <= rows && !step.Check? && !step.Sweep?
    ensures Next(codec, WithRows(s, rows), step, WithRows(s', rows + s'.store.rows))
  {
    hide Authentic, NewPublisher, Digest.Kind;
    if step.Register? {
      var u := s.uploads[step.id];
      assert rows + (s.store.rows + {(u.namespace, u.digest)}) == rows + {(u.namespace, u.digest)};
    } else {
      assert rows + s'.store.rows == rows;
    }
  }

  lemma VirtualStep(codec: Codec, s: State, step: Step, s': State, rows: Rows)
    requires Next(codec, s, step, s') && s.store.rows <= rows && Consistent(codec, WithRows(s, rows))
    ensures Consistent(codec, WithRows(s', rows + s'.store.rows))
  {
    hide Consistent, Turn, NewPublisher, Authentic;
    var v, v' := WithRows(s, rows), WithRows(s', rows + s'.store.rows);
    match step {
      case Check(id) =>
        assert rows + s'.store.rows == rows;
        if Turn(codec, s.store, s.publishers[id]).Some? {
          TurnGrows(codec, s.store, v.store, s.publishers[id]);
          assert Next(codec, v, step, v');
          hide Next;
          ConsistentStep(codec, v, step, v');
        } else {
          ConsistentSubset(codec, v, v');
        }
      case Sweep(gone, results) =>
        assert rows + s'.store.rows == rows;
        ConsistentSubset(codec, v, v');
      case _ =>
        BlindStep(codec, s, step, s', rows);
        hide Next;
        ConsistentStep(codec, v, step, v');
    }
  }

  lemma {:induction false} VirtualRun(codec: Codec, run: seq<State>, steps: seq<Step>, i: nat)
    requires IsRun(codec, run, steps) && i < |run|
    ensures run[i].store.rows <= Ever(run, i) && Consistent(codec, WithRows(run[i], Ever(run, i)))
  {
    hide Next, Sure, Backed;
    if i > 0 {
      VirtualRun(codec, run, steps, i - 1);
      assert Next(codec, run[i - 1], steps[i - 1], run[(i - 1) + 1]);
      VirtualStep(codec, run[i - 1], steps[i - 1], run[i], Ever(run, i - 1));
    }
  }

  // --------------------------------------------------- what stays published, exactly

  /** A sweep removed this row and it has not been registered since. */
  ghost predicate SweptSince(run: seq<State>, steps: seq<Step>, i: nat, row: (string, Digest))
    requires i < |run| && |run| == |steps| + 1
  {
    exists k :: 0 <= k < i && SweptAt(run, steps, k, row) && GoneSince(run, k, i, row)
  }

  predicate SweptAt(run: seq<State>, steps: seq<Step>, k: nat, row: (string, Digest))
    requires k < |run| && |run| == |steps| + 1
  {
    k < |steps| && steps[k].Sweep? && row in steps[k].rows && row in run[k].store.rows
  }

  ghost predicate GoneSince(run: seq<State>, k: nat, i: nat, row: (string, Digest))
    requires i < |run|
  {
    forall m :: k < m <= i ==> row !in run[m].store.rows
  }

  lemma OnlySweepsRemove(codec: Codec, s: State, step: Step, s': State, row: (string, Digest))
    requires Next(codec, s, step, s') && row in s.store.rows && row !in s'.store.rows
    ensures step.Sweep? && row in step.rows
  {
    hide Authentic, Turn, NewPublisher;
  }

  /** A row once registered is missing exactly after such a sweep. */
  lemma {:induction false} MissingIffSwept(codec: Codec, run: seq<State>, steps: seq<Step>, i: nat,
                                           row: (string, Digest))
    requires IsRun(codec, run, steps) && i < |run| && row in Ever(run, i)
    ensures row !in run[i].store.rows <==> SweptSince(run, steps, i, row)
  {
    hide Next;
    if i > 0 && row !in run[i].store.rows {
      if row in run[i - 1].store.rows {
        assert Next(codec, run[i - 1], steps[i - 1], run[(i - 1) + 1]);
        OnlySweepsRemove(codec, run[i - 1], steps[i - 1], run[i], row);
        assert SweptAt(run, steps, i - 1, row) && GoneSince(run, i - 1, i, row);
      } else {
        MissingIffSwept(codec, run, steps, i - 1, row);
        var k :| 0 <= k < i - 1 && SweptAt(run, steps, k, row) && GoneSince(run, k, i - 1, row);
        assert GoneSince(run, k, i, row);
      }
    }
  }

  /** In every run, sweeps included, a committed result is complete if and only if no row it
      needs has been swept and not registered again. */
  lemma CompleteIffUnswept(codec: Codec, run: seq<State>, steps: seq<Step>, i: nat, key: (string, Digest))
    requires IsRun(codec, run, steps) && i < |run| && key in run[i].store.results
    ensures var s, r := run[i].store, run[i].store.results[key];
            && r.action == key.1
            && (Complete(codec, s, key.0, r) <==>
                forall d :: Needs(codec, s, key.0, r, d) ==> !SweptSince(run, steps, i, (key.0, d)))
  {
    hide Next, Complete, Needs, SweptSince, Ever;
    VirtualRun(codec, run, steps, i);
    var s, r := run[i].store, run[i].store.results[key];
    var v := s.(rows := Ever(run, i));
    assert v == WithRows(run[i], Ever(run, i)).store;
    CommittedIsBacked(codec, v, key);
    CompleteFewer(codec, v, v, key.0, r);
    CompleteFewer(codec, v, s, key.0, r);
    forall d
      ensures Needs(codec, s, key.0, r, d) <==> Needs(codec, v, key.0, r, d)
      ensures Needs(codec, v, key.0, r, d) ==> ((key.0, d) in s.rows <==> !SweptSince(run, steps, i, (key.0, d)))
    {
      SameNeeds(codec, v, s, key.0, r, d);
      if Needs(codec, v, key.0, r, d) {
        MissingIffSwept(codec, run, steps, i, (key.0, d));
      }
    }
  }

  lemma CommittedIsBacked(codec: Codec, s: Store, key: (string, Digest))
    requires AllBacked(codec, s) && key in s.results
    ensures s.results[key].action == key.1 && Complete(codec, s, key.0, s.results[key])
  {
    hide Backed, Complete;
    var order :| Backed(codec, s, key.0, s.results[key], order);
    BackedIsComplete(codec, s, key.0, s.results[key], order);
  }

  lemma SameNeeds(codec: Codec, s: Store, s': Store, namespace: string, r: ActionResult, d: Digest)
    requires s'.objects == s.objects
    ensures Needs(codec, s', namespace, r, d) <==> Needs(codec, s, namespace, r, d)
  {
    hide Reaches, SourceOf, FilesIn, References;
    SameReach(codec, s, s', namespace);
    forall dir ensures FilesIn(SourceOf(codec, s', namespace), dir) == FilesIn(SourceOf(codec, s, namespace), dir) {
      SameGraph(codec, s, s', namespace, dir);
    }
  }

  /** In every interleaving in which no sweep removes a row the result needs, a committed result
      is complete, at the moment it is committed and ever after. */
  lemma CommittedIsComplete(codec: Codec, run: seq<State>, steps: seq<Step>, i: nat, key: (string, Digest))
    requires IsRun(codec, run, steps) && i < |run| && key in run[i].store.results
    requires forall k, d :: 0 <= k < i && steps[k].Sweep? && (key.0, d) in steps[k].rows ==>
               !Needs(codec, run[i].store, key.0, run[i].store.results[key], d)
    ensures run[i].store.results[key].action == key.1
    ensures Complete(codec, run[i].store, key.0, run[i].store.results[key])
    ensures var s, r := run[i].store, run[i].store.results[key];
            && key.1 in s.objects && codec.describe(s.objects[key.1]).Some?
            && (codec.describe(s.objects[key.1]).value in {BuildScript, Cc, Rustc} ==>
                  CompilerComplete(codec, s, key.0, codec.describe(s.objects[key.1]).value, r))
  {
    hide Next, Complete, Needs, CompilerComplete;
    CompleteIffUnswept(codec, run, steps, i, key);
    CompleteCompiler(codec, run[i].store, key.0, run[i].store.results[key]);
  }

  /** What a compiler's result always comes with: metadata, whose two streams can be fetched,
      and a visible output root. */
  predicate CompilerComplete(codec: Codec, s: Store, namespace: string, kind: ActionKind, r: ActionResult) {
    && r.metadata.Some? && (namespace, r.metadata.value) in s.rows && r.metadata.value in s.objects
    && r.outputRoot.Some? && (namespace, r.outputRoot.value) in s.rows && r.outputRoot.value in s.objects
    && var streams := codec.streams(kind, s.objects[r.metadata.value]);
       && streams.Some?
       && streams.value.0.Valid() && (namespace, streams.value.0) in s.rows
       && streams.value.1.Valid() && (namespace, streams.value.1) in s.rows
  }

  lemma CompleteCompiler(codec: Codec, s: Store, namespace: string, r: ActionResult)
    requires Complete(codec, s, namespace, r)
    ensures r.action in s.objects && codec.describe(s.objects[r.action]).Some?
    ensures var kind := codec.describe(s.objects[r.action]).value;
            kind != Task ==> CompilerComplete(codec, s, namespace, kind, r)
  {
    hide Digest.Valid, Directories.EntriesValid;
    var kind := codec.describe(s.objects[r.action]).value;
    if kind != Task {
      var refs := References(codec, kind, s.objects[r.metadata.value]).value;
      assert refs[0] in refs && refs[1] in refs;
      var src := SourceOf(codec, s, namespace);
      ReachesSelf(src, r.outputRoot.value);
      assert GoodNode(src, r.outputRoot.value);
    }
  }

  lemma TaskChecks(codec: Codec, s: Store, namespace: string, action: Digest)
    requires Usable(s, namespace, action) && action.size <= MAX_OBJECT_BYTES
    requires action in s.objects && codec.describe(s.objects[action]) == Some(Task)
    ensures var p := NewPublisher(namespace, ActionResult(1, action, None, None));
            && p.todo == [SeeAction, ReadAction] && p.namespace == namespace
                  && p.result == ActionResult(1, action, None, None)
            && Turn(codec, s, p) == Some(p.(todo := [ReadAction]))
            && Turn(codec, s, p.(todo := [ReadAction])) == Some(p.(todo := [], kind := Some(Task)))
  {
    hide Digest.Valid, Readable, References;
    var p := NewPublisher(namespace, ActionResult(1, action, None, None));
    assert p.todo == [SeeAction, ReadAction];
    assert Added(codec, s, p) + p.todo[1..] == [ReadAction];
    var q := p.(todo := [ReadAction]);
    assert Added(codec, s, q) + q.todo[1..] == [];
  }

  /** A sweep between the checks and the commit does break it: for any task action there is a
      run that ends with its result committed and its descriptor no longer visible. */
  lemma SweepBreaksCompleteness(codec: Codec, namespace: string, action: Digest, bytes: seq<Byte>)
      returns (run: seq<State>, steps: seq<Step>)
    requires Authentic(codec.hasher, action, bytes) && action.size <= MAX_OBJECT_BYTES
             && codec.describe(bytes) == Some(Task)
    requires action.Kind() == Some(Blake3)
    ensures IsRun(codec, run, steps)
    ensures var last := run[|run| - 1].store;
            (namespace, action) in last.results && !Complete(codec, last, namespace, last.results[(namespace, action)])
  {
    hide Turn, NewPublisher, Complete;
    var row, result := (namespace, action), ActionResult(1, action, None, None);
    var u := Uploader(namespace, action, bytes, false);
    var s3 := State(Store(map[action := bytes], {row}, map[]), map[], map[]);
    assert Usable(s3.store, namespace, action);
    hide Authentic, Digest.Valid;
    TaskChecks(codec, s3.store, namespace, action);
    var p := NewPublisher(namespace, result);
    var s0 := State(Store(map[], {}, map[]), map[], map[]);
    var s1 := s0.(uploads := map[0 := u]);
    var s2 := State(Store(map[action := bytes], {}, map[]), map[0 := u.(stored := true)], map[]);
    var s4 := s3.(publishers := map[0 := p]);
    var s5 := s3.(publishers := map[0 := p.(todo := [ReadAction])]);
    var s6 := s3.(publishers := map[0 := p.(todo := [], kind := Some(Task))]);
    var s7 := s6.(store := s6.store.(rows := {}));
    var s8 := State(s7.store.(results := map[row := result]), map[], map[]);
    steps := [StartUpload(0, u), PutObject(0), Register(0), StartPublish(0, namespace, result), Check(0), Check(0),
        Sweep({row}, {}), Commit(0)];
    run := [s0, s1, s2, s3, s4, s5, s6, s7, s8];
    UploadSteps(codec, s0, s1, s2, s3, u);
    CheckSteps(codec, s3, s4, s5, s6, namespace, action);
    SweepStep(codec, s6, s7, row);
    FinalCommit(codec, s7, row, p.(todo := [], kind := Some(Task)), s8);
    hide Next, Init, Usable;
    assert Init(s0) by { StartsEmpty(s0); }
    NotComplete(codec, s8.store, namespace, result);
  }

  lemma StartsEmpty(s: State)
    requires s == State(Store(map[], {}, map[]), map[], map[])
    ensures Init(s)
  {
  }

  lemma CheckSteps(codec: Codec, s3: State, s4: State, s5: State, s6: State, namespace: string, action: Digest)
    requires action.Kind() == Some(Blake3) && s3.publishers == map[]
    requires var p := NewPublisher(namespace, ActionResult(1, action, None, None));
             && p.todo == [SeeAction, ReadAction]
             && Turn(codec, s3.store, p) == Some(p.(todo := [ReadAction]))
             && Turn(codec, s3.store, p.(todo := [ReadAction])) == Some(p.(todo := [], kind := Some(Task)))
             && s4 == s3.(publishers := map[0 := p])
             && s5 == s3.(publishers := map[0 := p.(todo := [ReadAction])])
             && s6 == s3.(publishers := map[0 := p.(todo := [], kind := Some(Task))])
    ensures Next(codec, s3, StartPublish(0, namespace, ActionResult(1, action, None, None)), s4)
    ensures Next(codec, s4, Check(0), s5) && Next(codec, s5, Check(0), s6)
  {
    hide Turn, NewPublisher, Digest.Kind;
    var p := NewPublisher(namespace, ActionResult(1, action, None, None));
    assert s3.publishers[0 := p] == map[0 := p];
    assert s4.publishers[0 := p.(todo := [ReadAction])] == s5.publishers;
    assert s5.publishers[0 := p.(todo := [], kind := Some(Task))] == s6.publishers;
  }

  lemma SweepStep(codec: Codec, s: State, s': State, row: (string, Digest))
    requires s.store.rows == {row} && s.store.results == map[] && s' == s.(store := s.store.(rows := {}))
    ensures Next(codec, s, Sweep({row}, {}), s')
  {
    assert s.store.rows - {row} == {} && s.store.results - {} == map[];
  }

  lemma NotComplete(codec: Codec, s: Store, namespace: string, r: ActionResult)
    requires (namespace, r.action) !in s.rows
    ensures !Complete(codec, s, namespace, r)
  {
  }

  lemma UploadSteps(codec: Codec, s0: State, s1: State, s2: State, s3: State, u: Uploader)
    requires Authentic(codec.hasher, u.digest, u.bytes) && !u.stored
    requires s0 == State(Store(map[], {}, map[]), map[], map[]) && s1 == s0.(uploads := map[0 := u])
    requires s2 == State(Store(map[u.digest := u.bytes], {}, map[]), map[0 := u.(stored := true)], map[])
    requires s3 == State(Store(map[u.digest := u.bytes], {(u.namespace, u.digest)}, map[]), map[], map[])
    ensures Next(codec, s0, StartUpload(0, u), s1) && Next(codec, s1, PutObject(0), s2)
            && Next(codec, s2, Register(0), s3)
  {
    hide Authentic;
    assert s2.uploads - {0} == map[];
  }

  lemma FinalCommit(codec: Codec, s: State, key: (string, Digest), p: Publisher, s': State)
    requires s.publishers == map[0 := p] && p.todo == [] && key == (p.namespace, p.result.action)
             && key !in s.store.results
    requires s.store.results == map[] && s' == State(s.store.(results := map[key := p.result]), s.uploads, map[])
    ensures Next(codec, s, Commit(0), s')
  {
    assert s.publishers - {0} == map[];
  }
}
