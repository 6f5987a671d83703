/**
 Uploads and publications as interleaved processes over one store.

 `put_action_result` is a stack of separate reads: every metadata query and every object fetch
 is its own atomic step, and any other client's steps may fall between two of them. A request
 may also fail or be abandoned at any point.
 */
module Publishing {
  import opened Wrappers
  import opened Digests
  import opened Directories
  import opened TreeWalk
  import opened Uploads

  datatype ActionKind = BuildScript | Cc | Rustc | Task

  datatype ActionResult = ActionResult(version: nat, action: Digest, metadata: Option<Digest>,
      outputRoot: Option<Digest>)

  /** Hashing and the JSON schemas. `describe` and `streams` are None for bytes that are not a
      canonical, schema-valid descriptor or metadata object of the kind asked for. */
  datatype Codec = Codec(hasher: Hasher,
                         parse: seq<Byte> -> Option<Directory>,
                         encode: Directory -> seq<Byte>,
                         describe: seq<Byte> -> Option<ActionKind>,
                         streams: (ActionKind, seq<Byte>) -> Option<(Digest, Digest)>)

  type Rows = set<(string, Digest)>
  type Objects = map<Digest, seq<Byte>>

  datatype Store = Store(objects: Objects, rows: Rows, results: map<(string, Digest), ActionResult>)

  /** One namespace of the store, as the tree walk sees it. */
  function SourceOf(codec: Codec, s: Store, namespace: string): Source {
    Source((d: Digest) => Got((namespace, d) in s.rows),
           (d: Digest) => Got(if d in s.objects then Some(s.objects[d]) else None),
           codec.parse, codec.encode)
  }

  predicate Usable(s: Store, namespace: string, d: Digest) {
    d.Valid() && (namespace, d) in s.rows
  }

  /** Output blobs a metadata object refers to: both streams for compilers, none for tasks. */
  function References(codec: Codec, kind: ActionKind, bytes: seq<Byte>): Option<seq<Digest>> {
    match codec.streams(kind, bytes)
    case None => None
    case Some((stdout, stderr)) => Some(if kind == Task then [] else [stdout, stderr])
  }

  predicate ShapeOk(r: ActionResult, kind: ActionKind) {
    kind == Task || (r.metadata.Some? && r.outputRoot.Some?)
  }

  // -------------------------------------------------------------- one publication

  datatype Job =
    | SeeAction
    | ReadAction
    | SeeMetadata
    | ReadMetadata
    | Open(digest: Digest)
    | SeeDirectory(digest: Digest)
    | ReadDirectory(digest: Digest)
    | Require(digest: Digest)
    | Close(digest: Digest)

  /** `order` is history: the directories seen, in the order they were closed. */
  datatype Publisher = Publisher(namespace: string, result: ActionResult, todo: seq<Job>, kind: Option<ActionKind>,
                                 visiting: set<Digest>, seen: set<Digest>, order: seq<Digest>)
  {
    function Found(): set<Digest> {
      visiting + seen
    }
  }

  function NewPublisher(namespace: string, result: ActionResult): Publisher {
    var metadata := if result.metadata.Some? then [SeeMetadata, ReadMetadata] else [];
    var tree := if result.outputRoot.Some? then [Open(result.outputRoot.value)] else [];
    Publisher(namespace, result, [SeeAction, ReadAction] + metadata + tree, None, {}, {}, [])
  }

  function Requires(digests: seq<Digest>): (jobs: seq<Job>)
    ensures |jobs| == |digests| && forall i :: 0 <= i < |jobs| ==> jobs[i] == Require(digests[i])
  {
    seq(|digests|, i requires 0 <= i < |digests| => Require(digests[i]))
  }

  /** The last child is opened first, as popping the source's stack does. */
  function Opens(digests: seq<Digest>): (jobs: seq<Job>)
    ensures |jobs| == |digests| && forall i :: 0 <= i < |jobs| ==> jobs[i] == Open(digests[|digests| - 1 - i])
  {
    seq(|digests|, i requires 0 <= i < |digests| => Open(digests[|digests| - 1 - i]))
  }

  function FileDigests(dir: Directory): seq<Digest> {
    seq(|dir.files|, i requires 0 <= i < |dir.files| => dir.files[i].digest)
  }

  function KidDigests(dir: Directory): seq<Digest> {
    seq(|dir.directories|, i requires 0 <= i < |dir.directories| => dir.directories[i].digest)
  }

  /** A stored, canonical, well-formed directory object. */
  predicate Readable(codec: Codec, objects: Objects, d: Digest) {
    && d in objects
    && var parsed := codec.parse(objects[d]);
       && parsed.Some? && codec.encode(parsed.value) == objects[d]
       && parsed.value.version == 1 && EntriesValid(parsed.value)
  }

  function Kids(codec: Codec, objects: Objects, d: Digest): seq<Digest>
    requires Readable(codec, objects, d)
  {
    KidDigests(codec.parse(objects[d]).value)
  }

  function Files(codec: Codec, objects: Objects, d: Digest): seq<Digest>
    requires Readable(codec, objects, d)
  {
    FileDigests(codec.parse(objects[d]).value)
  }

  /** Whether the front job's read lets the request go on. */
  predicate Passes(codec: Codec, s: Store, p: Publisher)
    requires p.todo != []
  {
    match p.todo[0]
    case SeeAction =>
      Usable(s, p.namespace, p.result.action) && p.result.action.size <= MAX_OBJECT_BYTES
    case ReadAction =>
      && p.result.action in s.objects
      && var kind := codec.describe(s.objects[p.result.action]);
         kind.Some? && ShapeOk(p.result, kind.value)
    case SeeMetadata =>
      && p.result.metadata.Some? && Usable(s, p.namespace, p.result.metadata.value)
      && p.result.metadata.value.size <= MAX_OBJECT_BYTES
    case ReadMetadata =>
      && p.kind.Some? && p.result.metadata.Some? && p.result.metadata.value in s.objects
      && References(codec, p.kind.value, s.objects[p.result.metadata.value]).Some?
    case Open(d) =>
      d in p.seen || (d !in p.visiting && |p.seen| + |p.visiting| + 1 <= MAX_NODES && d.size <= MAX_OBJECT_BYTES)
    case SeeDirectory(d) => (p.namespace, d) in s.rows
    case ReadDirectory(d) => Readable(codec, s.objects, d)
    case Require(d) => Usable(s, p.namespace, d)
    case Close(_) => true
  }

  /** The checks the front job brings with it, to be made before the rest. */
  function Added(codec: Codec, s: Store, p: Publisher): seq<Job>
    requires p.todo != [] && Passes(codec, s, p)
  {
    match p.todo[0]
    case ReadMetadata => Requires(References(codec, p.kind.value, s.objects[p.result.metadata.value]).value)
    case Open(d) => if d in p.seen then [] else [SeeDirectory(d), ReadDirectory(d)]
    case ReadDirectory(d) => Requires(Files(codec, s.objects, d)) + Opens(Kids(codec, s.objects, d)) + [Close(d)]
    case _ => []
  }

  /** One atomic read; None when the check it serves refuses the request. */
  function Turn(codec: Codec, s: Store, p: Publisher): Option<Publisher>
    requires p.todo != []
  {
    if !Passes(codec, s, p) then None
    else
      var next := p.(todo := Added(codec, s, p) + p.todo[1..]);
      match p.todo[0]
      case ReadAction => Some(next.(kind := codec.describe(s.objects[p.result.action])))
      case Open(d) => Some(next.(visiting := if d in p.seen then p.visiting else p.visiting + {d}))
      case Close(d) =>
        Some(next.(visiting := p.visiting - {d}, seen := p.seen + {d}, order := if d in p.seen then p.order
            else p.order + [d]))
      case _ => Some(next)
  }

  // ------------------------------------------------- what a publication has established

  /** A check is either still to be made or its outcome holds. */
  predicate Owed(p: Publisher, job: Job, fact: bool) {
    job in p.todo || fact
  }

  ghost predicate ActionSure(codec: Codec, s: Store, p: Publisher) {
    && Owed(p, SeeAction, Usable(s, p.namespace, p.result.action) && p.result.action.size <= MAX_OBJECT_BYTES)
    && Owed(p, ReadAction, p.kind.Some?)
    && (p.kind.Some? ==>
          && p.result.action in s.objects && codec.describe(s.objects[p.result.action]) == p.kind
          && ShapeOk(p.result, p.kind.value))
  }

  ghost predicate StreamsSure(codec: Codec, s: Store, p: Publisher) {
    && p.kind.Some? && p.result.metadata.Some? && p.result.metadata.value in s.objects
    && var refs := References(codec, p.kind.value, s.objects[p.result.metadata.value]);
       && refs.Some?
       && forall d :: d in refs.value ==> Owed(p, Require(d), Usable(s, p.namespace, d))
  }

  ghost predicate MetadataSure(codec: Codec, s: Store, p: Publisher) {
    p.result.metadata.Some? ==>
      && Owed(p, SeeMetadata, Usable(s, p.namespace, p.result.metadata.value)
                              && p.result.metadata.value.size <= MAX_OBJECT_BYTES)
      && Owed(p, ReadMetadata, StreamsSure(codec, s, p))
  }

  ghost predicate ContentsSure(codec: Codec, s: Store, p: Publisher, d: Digest) {
    && Readable(codec, s.objects, d)
    && (forall f :: f in Files(codec, s.objects, d) ==> Owed(p, Require(f), Usable(s, p.namespace, f)))
    && (forall c :: c in Kids(codec, s.objects, d) ==> Owed(p, Open(c), c in p.Found()))
  }

  ghost predicate DirectorySure(codec: Codec, s: Store, p: Publisher, d: Digest) {
    && d.size <= MAX_OBJECT_BYTES
    && Owed(p, SeeDirectory(d), (p.namespace, d) in s.rows)
    && Owed(p, ReadDirectory(d), ContentsSure(codec, s, p, d))
  }

  /** Directories are read and closed only after they were opened. */
  ghost predicate JobsFound(p: Publisher) {
    forall job :: job in p.todo && (job.ReadDirectory? || job.Close?) ==> job.digest in p.Found()
  }

  ghost predicate TreeSure(codec: Codec, s: Store, p: Publisher) {
    && JobsFound(p)
    && (p.result.outputRoot.Some? ==> Owed(p, Open(p.result.outputRoot.value), p.result.outputRoot.value in p.Found()))
    && (forall d :: d in p.Found() ==> DirectorySure(codec, s, p, d))
  }

  // The depth-first order, which makes the tree acyclic.

  predicate About(job: Job, d: Digest) {
    job == Open(d) || job == ReadDirectory(d) || job == Close(d)
  }

  ghost predicate Ahead(todo: seq<Job>, j: nat, d: Digest) {
    exists i :: 0 <= i < j <= |todo| && About(todo[i], d)
  }

  /** Before a directory is closed, each child is finished or still ahead. */
  ghost predicate CloseSure(codec: Codec, s: Store, p: Publisher, j: nat)
    requires j < |p.todo|
  {
    p.todo[j].Close? ==>
      && Readable(codec, s.objects, p.todo[j].digest)
      && forall c :: c in Kids(codec, s.objects, p.todo[j].digest) ==> c in p.seen || Ahead(p.todo, j, c)
  }

  /** Children are closed before their parents. */
  ghost predicate OrderSure(codec: Codec, s: Store, order: seq<Digest>) {
    && (forall i, j :: 0 <= i < j < |order| ==> order[i] != order[j])
    && (forall i :: 0 <= i < |order| ==> ChildrenFirst(codec, s, order, i))
  }

  ghost predicate ChildrenFirst(codec: Codec, s: Store, order: seq<Digest>, i: nat)
    requires i < |order|
  {
    Readable(codec, s.objects, order[i]) && forall c :: c in Kids(codec, s.objects, order[i]) ==> c in order[..i]
  }

  ghost predicate SetsSure(p: Publisher) {
    && (forall d :: d in p.seen <==> d in p.order)
    && (forall d :: d in p.visiting ==> ReadDirectory(d) in p.todo || Close(d) in p.todo)
    && |p.seen| + |p.visiting| <= MAX_NODES
  }

  ghost predicate WalkSure(codec: Codec, s: Store, p: Publisher) {
    && SetsSure(p) && OrderSure(codec, s, p.order)
    && forall j :: 0 <= j < |p.todo| ==> CloseSure(codec, s, p, j)
  }

  ghost predicate Sure(codec: Codec, s: Store, p: Publisher) {
    ActionSure(codec, s, p) && MetadataSure(codec, s, p) && TreeSure(codec, s, p) && WalkSure(codec, s, p)
  }

  /** A store that only gained objects and rows. */
  ghost predicate Extends(s: Store, s': Store) {
    && s.rows <= s'.rows
    && forall d :: d in s.objects ==> d in s'.objects && s'.objects[d] == s.objects[d]
  }

  lemma ContentsSureGrows(codec: Codec, s: Store, s': Store, p: Publisher, d: Digest)
    requires Extends(s, s') && ContentsSure(codec, s, p, d)
    ensures ContentsSure(codec, s', p, d)
  {
    hide EntriesValid, Digest.Valid;
  }

  lemma ReadableGrows(codec: Codec, s: Store, s': Store, d: Digest)
    requires Extends(s, s') && Readable(codec, s.objects, d)
    ensures Readable(codec, s'.objects, d) && Kids(codec, s'.objects, d) == Kids(codec, s.objects, d)
    ensures Files(codec, s'.objects, d) == Files(codec, s.objects, d)
  {
    hide EntriesValid;
  }

  lemma OrderGrows(codec: Codec, s: Store, s': Store, order: seq<Digest>)
    requires Extends(s, s') && OrderSure(codec, s, order)
    ensures OrderSure(codec, s', order)
  {
    hide Readable, Kids, Extends;
    forall i | 0 <= i < |order|
      ensures ChildrenFirst(codec, s', order, i)
    {
      assert ChildrenFirst(codec, s, order, i);
      ReadableGrows(codec, s, s', order[i]);
    }
  }

  lemma WalkGrows(codec: Codec, s: Store, s': Store, p: Publisher)
    requires Extends(s, s') && WalkSure(codec, s, p)
    ensures WalkSure(codec, s', p)
  {
    hide Readable, Kids, Extends, SetsSure, OrderSure;
    OrderGrows(codec, s, s', p.order);
    forall j | 0 <= j < |p.todo|
      ensures CloseSure(codec, s', p, j)
    {
      assert CloseSure(codec, s, p, j);
      if p.todo[j].Close? {
        ReadableGrows(codec, s, s', p.todo[j].digest);
      }
    }
  }

  /** Other clients' uploads never undo what a publication has checked. */
  lemma SureGrows(codec: Codec, s: Store, s': Store, p: Publisher)
    requires Extends(s, s') && Sure(codec, s, p)
    ensures Sure(codec, s', p)
  {
    hide Digest.Valid, ContentsSure, Readable, WalkSure;
    WalkGrows(codec, s, s', p);
    assert ActionSure(codec, s', p);
    assert MetadataSure(codec, s', p);
    forall d | d in p.Found()
      ensures DirectorySure(codec, s', p, d)
    {
      assert DirectorySure(codec, s, p, d);
      if ReadDirectory(d) !in p.todo {
        ContentsSureGrows(codec, s, s', p, d);
      }
    }
  }

  // ------------------------------------------------------ every turn keeps its promises

  /** Jobs leave the list only by being taken from its front, and nothing found is lost. */
  ghost predicate Proceeds(p: Publisher, p': Publisher) {
    && p.todo != [] && p'.namespace == p.namespace && p'.result == p.result
    && (forall job :: job in p.todo ==> job == p.todo[0] || job in p'.todo)
    && p.Found() <= p'.Found()
    && (p.kind.Some? ==> p'.kind == p.kind)
  }

  lemma TurnProceeds(codec: Codec, s: Store, p: Publisher)
    requires p.todo != [] && Turn(codec, s, p).Some? && ActionSure(codec, s, p)
    ensures Proceeds(p, Turn(codec, s, p).value)
  {
    hide Added, Usable, References, Readable, ShapeOk;
    assert p.todo == [p.todo[0]] + p.todo[1..];
  }

  lemma ActionTurn(codec: Codec, s: Store, p: Publisher)
    requires p.todo != [] && Turn(codec, s, p).Some? && ActionSure(codec, s, p)
    requires Proceeds(p, Turn(codec, s, p).value)
    ensures ActionSure(codec, s, Turn(codec, s, p).value)
  {
    hide Readable, References, Digest.Valid;
  }

  /** Facts about outstanding requirements survive a turn that is not about them. */
  lemma RequireTurn(codec: Codec, s: Store, p: Publisher, d: Digest)
    requires p.todo != [] && Turn(codec, s, p).Some? && Proceeds(p, Turn(codec, s, p).value)
    requires Owed(p, Require(d), Usable(s, p.namespace, d))
    ensures Owed(Turn(codec, s, p).value, Require(d), Usable(s, p.namespace, d))
  {
    hide Readable, References, Digest.Valid, Proceeds;
    if Require(d) in p.todo && p.todo[0] != Require(d) {
      assert Require(d) in Turn(codec, s, p).value.todo by { ProceedsKeeps(p, Turn(codec, s, p).value, Require(d)); }
    }
  }

  lemma ProceedsKeeps(p: Publisher, p': Publisher, job: Job)
    requires Proceeds(p, p') && job in p.todo && job != p.todo[0]
    ensures job in p'.todo
  {
  }

  lemma MetadataTurn(codec: Codec, s: Store, p: Publisher)
    requires p.todo != [] && Turn(codec, s, p).Some? && MetadataSure(codec, s, p)
    requires Proceeds(p, Turn(codec, s, p).value)
    ensures MetadataSure(codec, s, Turn(codec, s, p).value)
  {
    hide Readable, Digest.Valid, Usable;
    var p' := Turn(codec, s, p).value;
    if p.result.metadata.Some? {
      if p.todo[0] == ReadMetadata {
        var refs := References(codec, p.kind.value, s.objects[p.result.metadata.value]).value;
        forall d | d in refs
          ensures Require(d) in p'.todo
        {
          var i :| 0 <= i < |refs| && refs[i] == d;
          assert Added(codec, s, p)[i] == Require(d) && p'.todo[i] == Require(d);
        }
      } else if ReadMetadata !in p.todo {
        var refs := References(codec, p.kind.value, s.objects[p.result.metadata.value]).value;
        forall d | d in refs
          ensures Owed(p', Require(d), Usable(s, p.namespace, d))
        {
          RequireTurn(codec, s, p, d);
        }
      }
    }
  }

  lemma OpenTurn(codec: Codec, s: Store, p: Publisher, d: Digest)
    requires p.todo != [] && Turn(codec, s, p).Some? && Proceeds(p, Turn(codec, s, p).value)
    requires Owed(p, Open(d), d in p.Found())
    ensures Owed(Turn(codec, s, p).value, Open(d), d in Turn(codec, s, p).value.Found())
  {
    hide Readable, References, Digest.Valid, Usable;
  }

  lemma ContentsTurn(codec: Codec, s: Store, p: Publisher, d: Digest)
    requires p.todo != [] && Turn(codec, s, p).Some? && Proceeds(p, Turn(codec, s, p).value)
    requires ContentsSure(codec, s, p, d)
    ensures ContentsSure(codec, s, Turn(codec, s, p).value, d)
  {
    hide Readable, References, Digest.Valid, Usable, Proceeds, Turn, Owed;
    var p' := Turn(codec, s, p).value;
    assert p'.namespace == p.namespace by { ProceedsSame(p, p'); }
    forall f | f in Files(codec, s.objects, d)
      ensures Owed(p', Require(f), Usable(s, p'.namespace, f))
    {
      RequireTurn(codec, s, p, f);
    }
    forall c | c in Kids(codec, s.objects, d)
      ensures Owed(p', Open(c), c in p'.Found())
    {
      OpenTurn(codec, s, p, c);
    }
  }

  lemma ProceedsSame(p: Publisher, p': Publisher)
    requires Proceeds(p, p')
    ensures p'.namespace == p.namespace && p'.result == p.result && p.Found() <= p'.Found()
  {
  }

  lemma QueuedJobs(files: seq<Digest>, kids: seq<Digest>, rest: seq<Job>)
    ensures var todo := Requires(files) + Opens(kids) + rest;
            && (forall f :: f in files ==> Require(f) in todo)
            && (forall c :: c in kids ==> Open(c) in todo)
  {
    var todo := Requires(files) + Opens(kids) + rest;
    forall f | f in files
      ensures Require(f) in todo
    {
      var i :| 0 <= i < |files| && files[i] == f;
      assert todo[i] == Require(f);
    }
    forall c | c in kids
      ensures Open(c) in todo
    {
      var i :| 0 <= i < |kids| && kids[i] == c;
      assert todo[|files| + (|kids| - 1 - i)] == Open(c);
    }
  }

  /** Reading a directory queues exactly what its contents still need. */
  lemma ReadTurn(codec: Codec, s: Store, p: Publisher, d: Digest)
    requires p.todo != [] && p.todo[0] == ReadDirectory(d) && Turn(codec, s, p).Some?
    ensures ContentsSure(codec, s, Turn(codec, s, p).value, d)
  {
    hide Readable, References, Digest.Valid, Usable, Files, Kids, Requires, Opens;
    var p' := Turn(codec, s, p).value;
    var files, kids := Files(codec, s.objects, d), Kids(codec, s.objects, d);
    var rest := [Close(d)] + p.todo[1..];
    assert p'.todo == Requires(files) + Opens(kids) + rest;
    hide Turn;
    QueuedJobs(files, kids, rest);
  }

  lemma DirectoryTurn(codec: Codec, s: Store, p: Publisher, d: Digest)
    requires p.todo != [] && Turn(codec, s, p).Some? && Proceeds(p, Turn(codec, s, p).value)
    requires JobsFound(p) && (d in p.Found() ==> DirectorySure(codec, s, p, d))
    requires d in Turn(codec, s, p).value.Found()
    ensures DirectorySure(codec, s, Turn(codec, s, p).value, d)
  {
    hide Readable, References, Digest.Valid, Usable, ContentsSure;
    var p' := Turn(codec, s, p).value;
    if d !in p.Found() {
      OnlyOpenFinds(codec, s, p, d);
    } else if p.todo[0] == ReadDirectory(d) {
      ReadTurn(codec, s, p, d);
    } else if ReadDirectory(d) !in p.todo {
      ContentsTurn(codec, s, p, d);
    }
  }

  lemma OnlyOpenFinds(codec: Codec, s: Store, p: Publisher, d: Digest)
    requires p.todo != [] && Turn(codec, s, p).Some? && JobsFound(p)
    requires d !in p.Found() && d in Turn(codec, s, p).value.Found()
    ensures var p' := Turn(codec, s, p).value;
            d.size <= MAX_OBJECT_BYTES && SeeDirectory(d) in p'.todo && ReadDirectory(d) in p'.todo
  {
    hide Readable, References, Digest.Valid, Usable, Files, Kids, ShapeOk, JobsFound;
    var p' := Turn(codec, s, p).value;
    if p.todo[0].Close? {
      FrontFound(p);
    }
    assert Added(codec, s, p) == [SeeDirectory(d), ReadDirectory(d)];
    assert p'.todo[0] == SeeDirectory(d) && p'.todo[1] == ReadDirectory(d);
  }

  lemma FrontFound(p: Publisher)
    requires JobsFound(p) && p.todo != [] && (p.todo[0].Close? || p.todo[0].ReadDirectory?)
    ensures p.todo[0].digest in p.Found()
  {
    assert p.todo[0] in p.todo;
  }

  /** Only opening queues a read, and only reading queues a close. */
  lemma NewJob(codec: Codec, s: Store, p: Publisher, job: Job)
    requires p.todo != [] && Turn(codec, s, p).Some?
    requires job in Turn(codec, s, p).value.todo && job !in p.todo[1..] && (job.ReadDirectory? || job.Close?)
    ensures job.ReadDirectory? ==> p.todo[0] == Open(job.digest) && job.digest in Turn(codec, s, p).value.visiting
    ensures job.Close? ==> p.todo[0] == ReadDirectory(job.digest)
  {
    hide Passes, Files, Kids, References;
    assert job in Added(codec, s, p);
  }

  lemma JobsFoundTurn(codec: Codec, s: Store, p: Publisher)
    requires p.todo != [] && Turn(codec, s, p).Some? && JobsFound(p) && Proceeds(p, Turn(codec, s, p).value)
    ensures JobsFound(Turn(codec, s, p).value)
  {
    hide Turn, Proceeds;
    var p' := Turn(codec, s, p).value;
    ProceedsSame(p, p');
    forall job | job in p'.todo && (job.ReadDirectory? || job.Close?)
      ensures job.digest in p'.Found()
    {
      if job in p.todo[1..] {
        assert job in p.todo;
      } else {
        NewJob(codec, s, p, job);
        if job.Close? {
          FrontFound(p);
        }
      }
    }
  }

  lemma TreeTurn(codec: Codec, s: Store, p: Publisher)
    requires p.todo != [] && Turn(codec, s, p).Some? && TreeSure(codec, s, p)
    requires Proceeds(p, Turn(codec, s, p).value)
    ensures TreeSure(codec, s, Turn(codec, s, p).value)
  {
    hide Turn, DirectorySure, Owed, Proceeds, JobsFound;
    var p' := Turn(codec, s, p).value;
    ProceedsSame(p, p');
    JobsFoundTurn(codec, s, p);
    if p.result.outputRoot.Some? {
      OpenTurn(codec, s, p, p.result.outputRoot.value);
    }
    forall d | d in p'.Found()
      ensures DirectorySure(codec, s, p', d)
    {
      DirectoryTurn(codec, s, p, d);
    }
  }

  lemma AheadStays(todo: seq<Job>, added: seq<Job>, j: nat, c: Digest)
    requires 0 < j < |todo| && Ahead(todo, j, c)
    ensures About(todo[0], c) || Ahead(added + todo[1..], j - 1 + |added|, c)
  {
    var i :| 0 <= i < j <= |todo| && About(todo[i], c);
    if i > 0 {
      assert (added + todo[1..])[i - 1 + |added|] == todo[i];
    }
  }

  lemma AheadAdded(added: seq<Job>, rest: seq<Job>, k: nat, j: nat, c: Digest)
    requires k < |added| && About(added[k], c) && k < j <= |added| + |rest|
    ensures Ahead(added + rest, j, c)
  {
    assert (added + rest)[k] == added[k];
  }

  /** Taking the front job leaves what it was about finished, or ahead of everything below. */
  lemma FrontAhead(codec: Codec, s: Store, p: Publisher, j: nat, c: Digest)
    requires p.todo != [] && Turn(codec, s, p).Some? && About(p.todo[0], c) && 0 < j < |p.todo|
    ensures var p' := Turn(codec, s, p).value;
            c in p'.seen || Ahead(p'.todo, j - 1 + |Added(codec, s, p)|, c)
  {
    hide Passes, Files, Kids, References, Ahead;
    var added := Added(codec, s, p);
    match p.todo[0]
    case Open(d) =>
      if d !in p.seen {
        AheadAdded(added, p.todo[1..], 1, j - 1 + |added|, c);
      }
    case ReadDirectory(d) =>
      AheadAdded(added, p.todo[1..], |added| - 1, j - 1 + |added|, c);
    case Close(d) =>
  }

  lemma TurnShape(codec: Codec, s: Store, p: Publisher)
    requires p.todo != [] && Turn(codec, s, p).Some?
    ensures Passes(codec, s, p) && p.seen <= Turn(codec, s, p).value.seen
    ensures Turn(codec, s, p).value.todo == Added(codec, s, p) + p.todo[1..]
  {
    hide Passes, Added;
  }

  lemma CloseTurn(codec: Codec, s: Store, p: Publisher, k: nat)
    requires p.todo != [] && Turn(codec, s, p).Some? && k < |Turn(codec, s, p).value.todo|
    requires forall j :: 0 <= j < |p.todo| ==> CloseSure(codec, s, p, j)
    ensures CloseSure(codec, s, Turn(codec, s, p).value, k)
  {
    hide Turn, Passes, Kids, Readable, Ahead, Added;
    TurnShape(codec, s, p);
    var p', added := Turn(codec, s, p).value, Added(codec, s, p);
    if p'.todo[k].Close? {
      if k < |added| {
        NewClose(codec, s, p, k);
      } else {
        var j := k - |added| + 1;
        assert p.todo[j] == p'.todo[k] && CloseSure(codec, s, p, j);
        forall c | c in Kids(codec, s.objects, p.todo[j].digest) && c !in p'.seen
          ensures Ahead(p'.todo, k, c)
        {
          AheadStays(p.todo, added, j, c);
          if About(p.todo[0], c) {
            FrontAhead(codec, s, p, j, c);
          }
        }
      }
    }
  }

  lemma NewClose(codec: Codec, s: Store, p: Publisher, k: nat)
    requires p.todo != [] && Turn(codec, s, p).Some? && k < |Added(codec, s, p)| && Added(codec, s, p)[k].Close?
    ensures var p' := Turn(codec, s, p).value;
            k < |p'.todo| && CloseSure(codec, s, p', k)
  {
    hide Turn, Kids, Files, Readable, References, Ahead;
    TurnShape(codec, s, p);
    var p', added, d := Turn(codec, s, p).value, Added(codec, s, p), p.todo[0].digest;
    var files, kids := Files(codec, s.objects, d), Kids(codec, s.objects, d);
    assert added[k] == Close(d) && k == |files| + |kids|;
    forall c | c in kids
      ensures Ahead(p'.todo, k, c)
    {
      var i :| 0 <= i < |kids| && kids[i] == c;
      assert added[|files| + (|kids| - 1 - i)] == Open(c);
      AheadAdded(added, p.todo[1..], |files| + (|kids| - 1 - i), k, c);
    }
  }

  lemma OrderTurn(codec: Codec, s: Store, p: Publisher)
    requires p.todo != [] && Turn(codec, s, p).Some? && WalkSure(codec, s, p)
    ensures OrderSure(codec, s, Turn(codec, s, p).value.order)
  {
    hide Passes, Kids, Readable, Added;
    if p.todo[0].Close? && p.todo[0].digest !in p.seen {
      var d := p.todo[0].digest;
      var order := p.order + [d];
      assert CloseSure(codec, s, p, 0);
      forall i | 0 <= i < |order|
        ensures ChildrenFirst(codec, s, order, i)
      {
        if i < |p.order| {
          assert ChildrenFirst(codec, s, p.order, i);
          assert order[..i] == p.order[..i];
        } else {
          assert order[..i] == p.order;
        }
      }
    }
  }

  lemma SetsTurn(codec: Codec, s: Store, p: Publisher)
    requires p.todo != [] && Turn(codec, s, p).Some? && SetsSure(p) && JobsFound(p)
    requires Proceeds(p, Turn(codec, s, p).value)
    ensures SetsSure(Turn(codec, s, p).value)
  {
    hide Turn, JobsFound, Proceeds;
    BudgetTurn(codec, s, p);
    forall d | d in Turn(codec, s, p).value.visiting
      ensures var todo := Turn(codec, s, p).value.todo; ReadDirectory(d) in todo || Close(d) in todo
    {
      VisitingTurn(codec, s, p, d);
    }
  }

  /** What a turn does to the sets: open one more within the budget, close one, or nothing. */
  lemma TurnSets(codec: Codec, s: Store, p: Publisher)
    requires p.todo != [] && Turn(codec, s, p).Some?
    ensures var p' := Turn(codec, s, p).value;
            match p.todo[0]
            case Open(d) =>
              && p'.seen == p.seen && p'.order == p.order
              && (p'.visiting == p.visiting || (p'.visiting == p.visiting + {d}
                    && |p.seen| + |p.visiting| + 1 <= MAX_NODES))
            case Close(d) =>
              && p'.seen == p.seen + {d} && p'.visiting == p.visiting - {d}
              && p'.order == if d in p.seen then p.order else p.order + [d]
            case _ => p'.seen == p.seen && p'.visiting == p.visiting && p'.order == p.order
  {
    hide Added, Usable, Readable, References, ShapeOk;
  }

  lemma MovesOver(visiting: set<Digest>, seen: set<Digest>, d: Digest)
    requires d in visiting || d in seen
    ensures |seen + {d}| + |visiting - {d}| <= |seen| + |visiting|
  {
    if d in seen {
      assert seen + {d} == seen;
      SubsetIsSmaller(visiting - {d}, visiting);
    } else {
      assert |seen + {d}| == |seen| + 1 && |visiting - {d}| == |visiting| - 1;
    }
  }

  /** Each newly opened directory was counted against the node budget; closing moves it over. */
  lemma BudgetTurn(codec: Codec, s: Store, p: Publisher)
    requires p.todo != [] && Turn(codec, s, p).Some? && SetsSure(p) && JobsFound(p)
    ensures var p' := Turn(codec, s, p).value;
            (forall d :: d in p'.seen <==> d in p'.order) && |p'.seen| + |p'.visiting| <= MAX_NODES
  {
    hide Turn, JobsFound;
    TurnSets(codec, s, p);
    if p.todo[0].Close? {
      FrontFound(p);
      MovesOver(p.visiting, p.seen, p.todo[0].digest);
    }
  }

  lemma VisitingTurn(codec: Codec, s: Store, p: Publisher, d: Digest)
    requires p.todo != [] && Turn(codec, s, p).Some? && Proceeds(p, Turn(codec, s, p).value)
             && d in Turn(codec, s, p).value.visiting
    requires d in p.visiting ==> ReadDirectory(d) in p.todo || Close(d) in p.todo
    ensures var p' := Turn(codec, s, p).value; ReadDirectory(d) in p'.todo || Close(d) in p'.todo
  {
    hide Passes, Kids, Files, References;
    var p', added := Turn(codec, s, p).value, Added(codec, s, p);
    if p.todo[0] == Open(d) && d !in p.visiting {
      assert p'.todo[1] == ReadDirectory(d);
    } else if p.todo[0] == ReadDirectory(d) {
      assert p'.todo[|added| - 1] == Close(d);
    }
  }

  lemma WalkTurn(codec: Codec, s: Store, p: Publisher)
    requires p.todo != [] && Turn(codec, s, p).Some? && WalkSure(codec, s, p) && JobsFound(p)
    requires Proceeds(p, Turn(codec, s, p).value)
    ensures WalkSure(codec, s, Turn(codec, s, p).value)
  {
    hide Turn, Proceeds, JobsFound, OrderSure, CloseSure, SetsSure;
    SetsTurn(codec, s, p);
    OrderTurn(codec, s, p);
    forall k | 0 <= k < |Turn(codec, s, p).value.todo|
      ensures CloseSure(codec, s, Turn(codec, s, p).value, k)
    {
      CloseTurn(codec, s, p, k);
    }
  }

  lemma SureTurn(codec: Codec, s: Store, p: Publisher)
    requires p.todo != [] && Turn(codec, s, p).Some? && Sure(codec, s, p)
    ensures Sure(codec, s, Turn(codec, s, p).value)
  {
    assert JobsFound(p);
    hide Turn, ActionSure, MetadataSure, TreeSure, WalkSure, Proceeds;
    TurnProceeds(codec, s, p);
    WalkTurn(codec, s, p);
    ActionTurn(codec, s, p);
    MetadataTurn(codec, s, p);
    TreeTurn(codec, s, p);
  }

  lemma StartJobs(namespace: string, result: ActionResult)
    ensures var p := NewPublisher(namespace, result);
            && SeeAction in p.todo && ReadAction in p.todo
            && (result.metadata.Some? ==> SeeMetadata in p.todo && ReadMetadata in p.todo)
            && (result.outputRoot.Some? ==> Open(result.outputRoot.value) in p.todo)
            && forall job :: job in p.todo ==> !job.ReadDirectory? && !job.Close?
  {
    var p := NewPublisher(namespace, result);
    assert p.todo[0] == SeeAction && p.todo[1] == ReadAction;
    var n := if result.metadata.Some? then 2 else 0;
    if result.metadata.Some? {
      assert p.todo[2] == SeeMetadata && p.todo[3] == ReadMetadata;
    }
    if result.outputRoot.Some? {
      assert p.todo[2 + n] == Open(result.outputRoot.value);
    }
  }

  lemma SureAtStart(codec: Codec, s: Store, namespace: string, result: ActionResult)
    ensures Sure(codec, s, NewPublisher(namespace, result))
  {
    var p := NewPublisher(namespace, result);
    assert p.kind == None && p.order == [] && p.seen == {} && p.visiting == {} && p.result == result;
    hide NewPublisher, Readable, Usable, References;
    StartJobs(namespace, result);
  }

  // -------------------------------------------------------------- what is published

  /** Everything a committed result needs is visible in its namespace: the descriptor, the
      metadata, both output streams of compiler kinds, and an output tree that a walk of this
      very store would accept. */
  ghost predicate Complete(codec: Codec, s: Store, namespace: string, r: ActionResult) {
    && Usable(s, namespace, r.action) && r.action.size <= MAX_OBJECT_BYTES && r.action in s.objects
    && var kind := codec.describe(s.objects[r.action]);
       && kind.Some? && ShapeOk(r, kind.value)
       && (r.metadata.Some? ==> MetadataComplete(codec, s, namespace, kind.value, r.metadata.value))
       && (r.outputRoot.Some? ==> TreeOk(SourceOf(codec, s, namespace), r.outputRoot.value))
  }

  ghost predicate MetadataComplete(codec: Codec, s: Store, namespace: string, kind: ActionKind, m: Digest) {
    && Usable(s, namespace, m) && m.size <= MAX_OBJECT_BYTES && m in s.objects
    && var refs := References(codec, kind, s.objects[m]);
       refs.Some? && forall d :: d in refs.value ==> Usable(s, namespace, d)
  }

  ghost predicate NodeBacked(codec: Codec, s: Store, namespace: string, d: Digest) {
    && d.size <= MAX_OBJECT_BYTES && (namespace, d) in s.rows && Readable(codec, s.objects, d)
    && forall f :: f in Files(codec, s.objects, d) ==> Usable(s, namespace, f)
  }

  ghost predicate TreeBacked(codec: Codec, s: Store, namespace: string, order: seq<Digest>) {
    && OrderSure(codec, s, order) && |set d | d in order| <= MAX_NODES
    && forall d :: d in order ==> NodeBacked(codec, s, namespace, d)
  }

  /** The same, with the tree's nodes listed children first; this form is what steps preserve. */
  ghost predicate Backed(codec: Codec, s: Store, namespace: string, r: ActionResult, order: seq<Digest>) {
    && Usable(s, namespace, r.action) && r.action.size <= MAX_OBJECT_BYTES && r.action in s.objects
    && var kind := codec.describe(s.objects[r.action]);
       && kind.Some? && ShapeOk(r, kind.value)
       && (r.metadata.Some? ==> MetadataComplete(codec, s, namespace, kind.value, r.metadata.value))
       && (r.outputRoot.Some? ==> r.outputRoot.value in order)
       && TreeBacked(codec, s, namespace, order)
  }

  lemma BackedIsGood(codec: Codec, s: Store, namespace: string, d: Digest)
    requires NodeBacked(codec, s, namespace, d)
    ensures var src := SourceOf(codec, s, namespace);
            GoodNode(src, d) && Children(src, d) == Kids(codec, s.objects, d)
  {
    hide EntriesValid, Digest.Valid;
    var src := SourceOf(codec, s, namespace);
    var dir := codec.parse(s.objects[d]).value;
    assert Parsed(src, d) == Some(dir);
    var files := Files(codec, s.objects, d);
    forall i | 0 <= i < |dir.files|
      ensures FileOk(src, dir.files[i].digest)
    {
      assert files[i] in files;
    }
  }

  lemma BackedTreeIsOk(codec: Codec, s: Store, namespace: string, root: Digest, order: seq<Digest>)
    requires TreeBacked(codec, s, namespace, order) && root in order
    ensures TreeOk(SourceOf(codec, s, namespace), root)
  {
    hide NodeBacked, GoodNode, Children, Kids, Readable, SourceOf, TreeOk;
    var src, seen := SourceOf(codec, s, namespace), set d | d in order;
    forall d | d in order
      ensures GoodNode(src, d)
    {
      BackedIsGood(codec, s, namespace, d);
    }
    forall i, c | 0 <= i < |order| && c in Children(src, order[i])
      ensures Before(order, i, c)
    {
      BackedIsGood(codec, s, namespace, order[i]);
      assert ChildrenFirst(codec, s, order, i);
    }
    OrderedIsOk(src, root, seen, order);
  }

  lemma BackedIsComplete(codec: Codec, s: Store, namespace: string, r: ActionResult, order: seq<Digest>)
    requires Backed(codec, s, namespace, r, order)
    ensures Complete(codec, s, namespace, r)
  {
    hide TreeBacked, TreeOk, Usable, MetadataComplete;
    if r.outputRoot.Some? {
      BackedTreeIsOk(codec, s, namespace, r.outputRoot.value, order);
    }
  }

  /** When nothing is left to check, everything holds at once, though it was read piecemeal. */
  lemma DoneIsBacked(codec: Codec, s: Store, p: Publisher)
    requires Sure(codec, s, p) && p.todo == []
    ensures Backed(codec, s, p.namespace, p.result, p.order)
  {
    hide EntriesValid, Digest.Valid, Readable, Usable, References, OrderSure;
    assert p.visiting == {} && p.Found() == p.seen;
    assert (set d | d in p.order) == p.seen;
    forall d | d in p.order
      ensures NodeBacked(codec, s, p.namespace, d)
    {
      assert d in p.Found() && DirectorySure(codec, s, p, d);
    }
  }

  lemma BackedGrows(codec: Codec, s: Store, s': Store, namespace: string, r: ActionResult, order: seq<Digest>)
    requires Extends(s, s') && Backed(codec, s, namespace, r, order)
    ensures Backed(codec, s', namespace, r, order)
  {
    hide TreeBacked, Digest.Valid, References;
    TreeBackedGrows(codec, s, s', namespace, order);
  }

  lemma NodeBackedGrows(codec: Codec, s: Store, s': Store, namespace: string, d: Digest)
    requires Extends(s, s') && NodeBacked(codec, s, namespace, d)
    ensures NodeBacked(codec, s', namespace, d)
  {
    hide Readable, Files, Digest.Valid;
    ReadableGrows(codec, s, s', d);
  }

  lemma TreeBackedGrows(codec: Codec, s: Store, s': Store, namespace: string, order: seq<Digest>)
    requires Extends(s, s') && TreeBacked(codec, s, namespace, order)
    ensures TreeBacked(codec, s', namespace, order)
  {
    hide NodeBacked, OrderSure, Extends;
    OrderGrows(codec, s, s', order);
    forall d | d in order
      ensures NodeBacked(codec, s', namespace, d)
    {
      NodeBackedGrows(codec, s, s', namespace, d);
    }
  }

  // -------------------------------------------------------------------- all clients

  /** An upload whose body has been verified, before or after its object is stored. */
  datatype Uploader = Uploader(namespace: string, digest: Digest, bytes: seq<Byte>, stored: bool)

  datatype State = State(store: Store, uploads: map<nat, Uploader>, publishers: map<nat, Publisher>)

  datatype Step =
    | StartUpload(id: nat, upload: Uploader)
    | PutObject(id: nat)
    | Register(id: nat)
    | StartPublish(id: nat, namespace: string, result: ActionResult)
    | Check(id: nat)
    | Commit(id: nat)
    | Abandon(id: nat)
    | Sweep(rows: Rows, results: set<(string, Digest)>)

  predicate Init(s: State) {
    s == State(Store(map[], {}, map[]), map[], map[])
  }

  predicate Next(codec: Codec, s: State, step: Step, s': State) {
    match step
    case StartUpload(id, u) =>
      && id !in s.uploads && !u.stored && Authentic(codec.hasher, u.digest, u.bytes)
      && s' == s.(uploads := s.uploads[id := u])
    case PutObject(id) =>
      && id in s.uploads && !s.uploads[id].stored
      && var u := s.uploads[id];
         var objects := if u.digest in s.store.objects then s.store.objects else s.store.objects[u.digest := u.bytes];
         s' == s.(store := s.store.(objects := objects), uploads := s.uploads[id := u.(stored := true)])
    case Register(id) =>
      && id in s.uploads && s.uploads[id].stored
      && var u := s.uploads[id];
         s' == s.(store := s.store.(rows := s.store.rows + {(u.namespace, u.digest)}), uploads := s.uploads - {id})
    case StartPublish(id, namespace, result) =>
      && id !in s.publishers && result.version == 1 && result.action.Kind() == Some(Blake3)
      && s' == s.(publishers := s.publishers[id := NewPublisher(namespace, result)])
    case Check(id) =>
      && id in s.publishers && s.publishers[id].todo != []
      && var p := Turn(codec, s.store, s.publishers[id]);
         s' == s.(publishers := if p.Some? then s.publishers[id := p.value] else s.publishers - {id})
    case Commit(id) =>
      && id in s.publishers && s.publishers[id].todo == []
      && var p := s.publishers[id];
         var key := (p.namespace, p.result.action);
         var results := if key in s.store.results then s.store.results else s.store.results[key := p.result];
         s' == s.(store := s.store.(results := results), publishers := s.publishers - {id})
    case Abandon(id) =>
      s' == s.(uploads := s.uploads - {id}, publishers := s.publishers - {id})
    case Sweep(rows, results) =>
      s' == s.(store := s.store.(rows := s.store.rows - rows, results := s.store.results - results))
  }

  ghost predicate IsRun(codec: Codec, run: seq<State>, steps: seq<Step>) {
    && |run| == |steps| + 1 && Init(run[0])
    && forall i :: 0 <= i < |steps| ==> Next(codec, run[i], steps[i], run[i + 1])
  }

  /** Visible means stored, and stored means authentic; uploads in flight are verified. */
  ghost predicate Genuine(codec: Codec, s: State) {
    && SoundStore(codec.hasher, s.store.objects, s.store.rows)
    && forall id :: id in s.uploads ==>
         && Authentic(codec.hasher, s.uploads[id].digest, s.uploads[id].bytes)
         && (s.uploads[id].stored ==> s.uploads[id].digest in s.store.objects)
  }

  lemma GenuineStep(codec: Codec, s: State, step: Step, s': State)
    requires Genuine(codec, s) && Next(codec, s, step, s')
    ensures Genuine(codec, s')
  {
    hide Authentic, Turn, NewPublisher;
  }

  ghost predicate AllBacked(codec: Codec, s: Store) {
    forall key :: key in s.results ==>
      && s.results[key].action == key.1
      && exists order :: Backed(codec, s, key.0, s.results[key], order)
  }

  ghost predicate Consistent(codec: Codec, s: State) {
    && AllBacked(codec, s.store)
    && forall id :: id in s.publishers ==> Sure(codec, s.store, s.publishers[id])
  }

  lemma AllBackedGrows(codec: Codec, s: Store, s': Store)
    requires Extends(s, s') && s'.results == s.results && AllBacked(codec, s)
    ensures AllBacked(codec, s')
  {
    hide Backed;
    forall key | key in s.results
      ensures exists order :: Backed(codec, s', key.0, s.results[key], order)
    {
      var order :| Backed(codec, s, key.0, s.results[key], order);
      BackedGrows(codec, s, s', key.0, s.results[key], order);
    }
  }

  lemma ConsistentGrows(codec: Codec, s: State, s': State)
    requires Consistent(codec, s) && Extends(s.store, s'.store) && s'.store.results == s.store.results
    requires s'.publishers == s.publishers
    ensures Consistent(codec, s')
  {
    hide Sure, AllBacked;
    AllBackedGrows(codec, s.store, s'.store);
    forall id | id in s.publishers
      ensures Sure(codec, s'.store, s.publishers[id])
    {
      SureGrows(codec, s.store, s'.store, s.publishers[id]);
    }
  }

  lemma ConsistentCommit(codec: Codec, s: State, id: nat, s': State)
    requires Consistent(codec, s) && Next(codec, s, Commit(id), s')
    ensures Consistent(codec, s')
  {
    hide Sure, Backed;
    var p := s.publishers[id];
    DoneIsBacked(codec, s.store, p);
    forall key | key in s'.store.results
      ensures s'.store.results[key].action == key.1
      ensures exists order :: Backed(codec, s'.store, key.0, s'.store.results[key], order)
    {
      var r := s'.store.results[key];
      var order :| Backed(codec, s.store, key.0, r, order);
      BackedGrows(codec, s.store, s'.store, key.0, r, order);
    }
    forall other | other in s'.publishers
      ensures Sure(codec, s'.store, s'.publishers[other])
    {
      SureGrows(codec, s.store, s'.store, s.publishers[other]);
    }
  }

  lemma ConsistentStep(codec: Codec, s: State, step: Step, s': State)
    requires Consistent(codec, s) && Next(codec, s, step, s') && !step.Sweep?
    ensures Consistent(codec, s')
  {
    hide Sure, AllBacked, Turn, NewPublisher, Authentic;
    match step {
      case PutObject(_) => ConsistentGrows(codec, s, s');
      case Register(_) => ConsistentGrows(codec, s, s');
      case Commit(id) => ConsistentCommit(codec, s, id, s');
      case StartPublish(id, namespace, result) => SureAtStart(codec, s.store, namespace, result);
      case Check(id) =>
        if Turn(codec, s.store, s.publishers[id]).Some? {
          SureTurn(codec, s.store, s.publishers[id]);
        }
      case _ =>
    }
  }

  // ------------------------------------------------------------------- whole runs

  /** In every run, sweeps included, whatever is visible is a valid digest whose object is
      stored with exactly the bytes it names. */
  lemma {:induction false} VisibleIsAuthentic(codec: Codec, run: seq<State>, steps: seq<Step>, i: nat)
    requires IsRun(codec, run, steps) && i < |run|
    ensures Genuine(codec, run[i])
    ensures forall row :: row in run[i].store.rows ==>
              row.1 in run[i].store.objects && Authentic(codec.hasher, row.1, run[i].store.objects[row.1])
  {
    hide Next, Authentic;
    if i > 0 {
      VisibleIsAuthentic(codec, run, steps, i - 1);
      assert Next(codec, run[i - 1], steps[i - 1], run[(i - 1) + 1]);
      GenuineStep(codec, run[i - 1], steps[i - 1], run[i]);
    }
  }

  /** Visibility is per namespace: a digest is visible only where it was uploaded to. */
  lemma {:induction false} VisibleWasUploaded(codec: Codec, run: seq<State>, steps: seq<Step>, i: nat,
                                              row: (string, Digest))
      returns (k: nat)
    requires IsRun(codec, run, steps) && i < |run| && row in run[i].store.rows
    ensures k < i && steps[k].StartUpload? && (steps[k].upload.namespace, steps[k].upload.digest) == row
  {
    hide Next;
    assert i > 0 by { assert run[0].store.rows == {}; }
    assert Next(codec, run[i - 1], steps[i - 1], run[(i - 1) + 1]);
    RowFrom(codec, run[i - 1], steps[i - 1], run[i], row);
    if row in run[i - 1].store.rows {
      k := VisibleWasUploaded(codec, run, steps, i - 1, row);
    } else {
      k := UploadWasStarted(codec, run, steps, i - 1, steps[i - 1].id);
    }
  }

  lemma RowFrom(codec: Codec, s: State, step: Step, s': State, row: (string, Digest))
    requires Next(codec, s, step, s')
    ensures row in s'.store.rows && row !in s.store.rows ==>
              step.Register? && step.id in s.uploads && (s.uploads[step.id].namespace, s.uploads[step.id].digest) == row
  {
    hide Authentic, Turn, NewPublisher, Digest.Kind;
  }

  lemma UploadFrom(codec: Codec, s: State, step: Step, s': State, id: nat)
    requires Next(codec, s, step, s') && id in s'.uploads
    ensures if id in s.uploads then s'.uploads[id] == s.uploads[id].(stored := s'.uploads[id].stored)
            else step == StartUpload(id, s'.uploads[id])
  {
    hide Authentic, Turn, NewPublisher, Digest.Kind;
  }

  lemma {:induction false} UploadWasStarted(codec: Codec, run: seq<State>, steps: seq<Step>, i: nat, id: nat)
                                            returns (k: nat)
    requires IsRun(codec, run, steps) && i < |run| && id in run[i].uploads
    ensures k < i && steps[k].StartUpload? && steps[k].upload == run[i].uploads[id].(stored := steps[k].upload.stored)
  {
    hide Next;
    assert i > 0 by { assert run[0].uploads == map[]; }
    assert Next(codec, run[i - 1], steps[i - 1], run[(i - 1) + 1]);
    UploadFrom(codec, run[i - 1], steps[i - 1], run[i], id);
    if id in run[i - 1].uploads {
      k := UploadWasStarted(codec, run, steps, i - 1, id);
    } else {
      k := i - 1;
    }
  }

  /** A finished upload is visible in its namespace, with its object, at once. */
  lemma RegisteredIsVisible(codec: Codec, run: seq<State>, steps: seq<Step>, i: nat)
    requires IsRun(codec, run, steps) && i < |steps| && steps[i].Register?
    ensures steps[i].id in run[i].uploads
    ensures var u, store := run[i].uploads[steps[i].id], run[i + 1].store;
            (u.namespace, u.digest) in store.rows && u.digest in store.objects
  {
    hide Authentic;
    VisibleIsAuthentic(codec, run, steps, i);
    assert Next(codec, run[i], steps[i], run[i + 1]);
  }

  lemma ResultFrom(codec: Codec, s: State, step: Step, s': State, key: (string, Digest))
    requires Next(codec, s, step, s')
    ensures key in s.store.results && !(step.Sweep? && key in step.results) ==>
              key in s'.store.results && s'.store.results[key] == s.store.results[key]
    ensures key in s'.store.results && key !in s.store.results ==>
              && step.Commit? && step.id in s.publishers && s.publishers[step.id].todo == []
              && s'.store.results[key] == s.publishers[step.id].result
              && key == (s.publishers[step.id].namespace, s.publishers[step.id].result.action)
  {
    hide Authentic, Turn, NewPublisher, Digest.Kind;
  }

  /** A committed result is never replaced: it stays what it was until a sweep removes it. */
  lemma {:induction false} CommittedStays(codec: Codec, run: seq<State>, steps: seq<Step>, i: nat, j: nat,
                                          key: (string, Digest))
    requires IsRun(codec, run, steps) && i <= j < |run| && key in run[i].store.results
    requires forall k :: i <= k < j && steps[k].Sweep? ==> key !in steps[k].results
    ensures key in run[j].store.results && run[j].store.results[key] == run[i].store.results[key]
  {
    hide Next;
    if i < j {
      CommittedStays(codec, run, steps, i, j - 1, key);
      assert Next(codec, run[j - 1], steps[j - 1], run[(j - 1) + 1]);
      ResultFrom(codec, run[j - 1], steps[j - 1], run[j], key);
    }
  }

  /** The file objects a stored directory lists. */
  function FilesIn(src: Source, d: Digest): seq<Digest> {
    match Parsed(src, d)
    case None => []
    case Some(dir) => FileDigests(dir)
  }
}
