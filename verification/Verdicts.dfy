/**
 When a publication is refused. The publishing theorems say what a commit implies; these say
 that nothing but a real defect stops one: a check that fails shows that the result is not
 complete at that moment, and on a store that holds still the checks come to an end.
 */
module Verdicts {
  import opened Wrappers
  import opened Digests
  import opened TreeWalk
  import opened Publishing

  predicate TreeJob(job: Job) {
    job.Open? || job.SeeDirectory? || job.ReadDirectory? || job.Close?
  }

  /** A job that keeps its directory open. */
  predicate Holder(job: Job) {
    job.ReadDirectory? || job.Close?
  }

  // ------------------------------------------------------------ the list of open checks

  ghost predicate NoReads(jobs: seq<Job>) {
    forall job :: job in jobs ==> !job.SeeDirectory? && !job.ReadDirectory?
  }

  /** A directory is read as soon as it has been opened. */
  ghost predicate ReadsFirst(todo: seq<Job>) {
    todo != [] ==>
      if todo[0].SeeDirectory? then |todo| >= 2 && todo[1] == ReadDirectory(todo[0].digest) && NoReads(todo[2..])
      else NoReads(todo[1..])
  }

  predicate Clash(x: Job, y: Job) {
    || (Holder(x) && Holder(y) && x.digest == y.digest)
    || (x.ReadMetadata? && y.ReadMetadata?)
  }

  ghost predicate NoClash(todo: seq<Job>) {
    forall i, j :: 0 <= i < j < |todo| ==> !Clash(todo[i], todo[j])
  }

  ghost predicate HoldersOpen(p: Publisher) {
    forall job :: job in p.todo && (job.SeeDirectory? || Holder(job)) ==> job.digest in p.visiting
  }

  ghost predicate OpenHeld(p: Publisher) {
    forall d :: d in p.visiting ==> ReadDirectory(d) in p.todo || Close(d) in p.todo
  }

  /** The descriptor comes first. */
  ghost predicate ActionFirst(p: Publisher) {
    p.kind.None? ==>
      && p.todo != []
      && (p.todo[0] == ReadAction || (|p.todo| >= 2 && p.todo[0] == SeeAction && p.todo[1] == ReadAction))
  }

  ghost predicate Orderly(p: Publisher) {
    && p.visiting !! p.seen && |p.seen| + |p.visiting| <= MAX_NODES
    && ReadsFirst(p.todo) && NoClash(p.todo) && HoldersOpen(p) && OpenHeld(p) && ActionFirst(p)
  }

  lemma ConcatIn(a: seq<Job>, b: seq<Job>)
    ensures forall job :: job in a + b <==> job in a || job in b
  {
  }

  lemma SplitFront(todo: seq<Job>)
    requires todo != []
    ensures forall job :: job in todo <==> job == todo[0] || job in todo[1..]
  {
    assert todo == [todo[0]] + todo[1..];
  }

  lemma NoClashConcat(a: seq<Job>, b: seq<Job>)
    requires NoClash(a) && NoClash(b) && forall x, y :: x in a && y in b ==> !Clash(x, y)
    ensures NoClash(a + b)
  {
    hide Clash;
    forall i, j | 0 <= i < j < |a + b|
      ensures !Clash((a + b)[i], (a + b)[j])
    {
      if j < |a| {
        assert (a + b)[i] == a[i] && (a + b)[j] == a[j];
      } else if i < |a| {
        assert (a + b)[i] == a[i] && (a + b)[j] == b[j - |a|] && a[i] in a && b[j - |a|] in b;
      } else {
        assert (a + b)[i] == b[i - |a|] && (a + b)[j] == b[j - |a|];
      }
    }
  }

  lemma NoClashTail(todo: seq<Job>)
    requires todo != [] && NoClash(todo)
    ensures NoClash(todo[1..]) && forall y :: y in todo[1..] ==> !Clash(todo[0], y)
  {
    hide Clash;
    var rest := todo[1..];
    forall y | y in rest
      ensures !Clash(todo[0], y)
    {
      var j :| 0 <= j < |rest| && rest[j] == y;
      assert todo[j + 1] == y;
    }
    forall i, j | 0 <= i < j < |rest|
      ensures !Clash(rest[i], rest[j])
    {
      assert rest[i] == todo[i + 1] && rest[j] == todo[j + 1];
    }
  }

  /** Reads that are not at the front do not exist. */
  lemma RestHasNoReads(todo: seq<Job>)
    requires todo != [] && ReadsFirst(todo)
    ensures ReadsFirst(todo[1..])
    ensures !todo[0].SeeDirectory? ==> NoReads(todo[1..])
    ensures !todo[0].SeeDirectory? && !todo[0].ReadDirectory? ==> NoReads(todo)
  {
    var rest := todo[1..];
    if todo[0].SeeDirectory? {
      assert rest[1..] == todo[2..] && rest[0] == todo[1];
    } else {
      SplitFront(todo);
      if rest != [] {
        SplitFront(rest);
        assert rest[0] in rest;
      }
    }
  }

  lemma QuietFirst(added: seq<Job>, rest: seq<Job>)
    requires NoReads(added) && NoReads(rest)
    ensures ReadsFirst(added + rest)
  {
    ConcatIn(added, rest);
    if added + rest != [] {
      SplitFront(added + rest);
    }
  }

  predicate Quiet(job: Job) {
    job.Require? || job.Open?
  }

  lemma QuietNoClash(jobs: seq<Job>)
    requires forall job :: job in jobs ==> Quiet(job)
    ensures NoClash(jobs) && NoReads(jobs)
  {
    forall i, j | 0 <= i < j < |jobs|
      ensures !Clash(jobs[i], jobs[j])
    {
      assert jobs[i] in jobs;
    }
  }

  lemma OpeningJobs(d: Digest, rest: seq<Job>)
    requires NoClash(rest) && NoReads(rest) && Close(d) !in rest
    ensures ReadsFirst([SeeDirectory(d), ReadDirectory(d)] + rest)
            && NoClash([SeeDirectory(d), ReadDirectory(d)] + rest)
  {
    var added := [SeeDirectory(d), ReadDirectory(d)];
    assert (added + rest)[2..] == rest;
    forall x, y | x in added && y in rest
      ensures !Clash(x, y)
    {
    }
    assert NoClash(added);
    NoClashConcat(added, rest);
  }

  /** A turn that only takes the front job, possibly leaving requirements in its place. */
  lemma OrderlyPlain(p: Publisher, p': Publisher, added: seq<Job>)
    requires Orderly(p) && p.todo != [] && p'.todo == added + p.todo[1..] && !Holder(p.todo[0])
    requires p'.seen == p.seen && p'.visiting == p.visiting && (p.kind.Some? ==> p'.kind.Some?)
    requires (forall job :: job in added ==> job.Require?) && (p.todo[0].SeeDirectory? ==> added == [])
    requires p.kind.None? ==> added == [] && (p.todo[0] == SeeAction || p'.kind.Some?)
    ensures Orderly(p')
  {
    var rest := p.todo[1..];
    RestHasNoReads(p.todo);
    NoClashTail(p.todo);
    SplitFront(p.todo);
    ConcatIn(added, rest);
    if p.todo[0].SeeDirectory? {
      assert added + rest == rest;
    } else {
      QuietFirst(added, rest);
    }
    QuietNoClash(added);
    NoClashConcat(added, rest);
    hide NoClash, ReadsFirst;
  }

  lemma OrderlyOpen(p: Publisher, p': Publisher, d: Digest)
    requires Orderly(p) && p.todo != [] && p.todo[0] == Open(d) && d !in p.seen && d !in p.visiting
    requires p'.todo == [SeeDirectory(d), ReadDirectory(d)] + p.todo[1..] && p'.kind == p.kind
    requires p'.seen == p.seen && p'.visiting == p.visiting + {d} && |p.seen| + |p.visiting| + 1 <= MAX_NODES
    ensures Orderly(p')
  {
    hide NoClash, ReadsFirst, NoReads, HoldersOpen, OpenHeld;
    var rest := p.todo[1..];
    RestHasNoReads(p.todo);
    NoClashTail(p.todo);
    OpeningHolds(p, p', d);
    OpeningJobs(d, rest);
    assert |p.visiting + {d}| == |p.visiting| + 1;
  }

  lemma OpeningHolds(p: Publisher, p': Publisher, d: Digest)
    requires HoldersOpen(p) && OpenHeld(p) && p.todo != [] && p.todo[0] == Open(d) && d !in p.visiting
    requires p'.todo == [SeeDirectory(d), ReadDirectory(d)] + p.todo[1..] && p'.visiting == p.visiting + {d}
    ensures HoldersOpen(p') && OpenHeld(p') && Close(d) !in p.todo[1..]
  {
    var added, rest := [SeeDirectory(d), ReadDirectory(d)], p.todo[1..];
    SplitFront(p.todo);
    ConcatIn(added, rest);
    assert ReadDirectory(d) in added;
  }

  lemma OrderlyRead(p: Publisher, p': Publisher, d: Digest, quiet: seq<Job>)
    requires Orderly(p) && p.todo != [] && p.todo[0] == ReadDirectory(d)
    requires (forall job :: job in quiet ==> Quiet(job)) && p'.todo == (quiet + [Close(d)]) + p.todo[1..]
    requires p'.seen == p.seen && p'.visiting == p.visiting && p'.kind == p.kind
    ensures Orderly(p')
  {
    hide NoClash, ReadsFirst, NoReads, HoldersOpen, OpenHeld, Quiet;
    RestHasNoReads(p.todo);
    NoClashTail(p.todo);
    ReadingJobs(d, quiet, p.todo[1..]);
    ReadingHolds(p, p', d, quiet);
  }

  lemma ReadingJobs(d: Digest, quiet: seq<Job>, rest: seq<Job>)
    requires (forall job :: job in quiet ==> Quiet(job)) && NoReads(rest) && NoClash(rest)
    requires forall y :: y in rest ==> !Clash(ReadDirectory(d), y)
    ensures ReadsFirst((quiet + [Close(d)]) + rest) && NoClash((quiet + [Close(d)]) + rest)
  {
    var added := quiet + [Close(d)];
    ConcatIn(quiet, [Close(d)]);
    QuietNoClash(quiet);
    NoClashConcat(quiet, [Close(d)]);
    QuietFirst(added, rest);
    forall x, y | x in added && y in rest
      ensures !Clash(x, y)
    {
      assert !Clash(ReadDirectory(d), y);
    }
    NoClashConcat(added, rest);
  }

  lemma ReadingHolds(p: Publisher, p': Publisher, d: Digest, quiet: seq<Job>)
    requires HoldersOpen(p) && OpenHeld(p) && p.todo != [] && p.todo[0] == ReadDirectory(d)
    requires (forall job :: job in quiet ==> Quiet(job)) && p'.todo == (quiet + [Close(d)]) + p.todo[1..]
    requires p'.visiting == p.visiting
    ensures HoldersOpen(p') && OpenHeld(p')
  {
    SplitFront(p.todo);
    ConcatIn(quiet, [Close(d)]);
    ConcatIn(quiet + [Close(d)], p.todo[1..]);
  }

  lemma OrderlyClose(p: Publisher, p': Publisher, d: Digest)
    requires Orderly(p) && p.todo != [] && p.todo[0] == Close(d) && p'.todo == p.todo[1..] && p'.kind == p.kind
    requires p'.seen == p.seen + {d} && p'.visiting == p.visiting - {d}
    ensures Orderly(p') && |p'.seen| + |p'.visiting| == |p.seen| + |p.visiting|
  {
    RestHasNoReads(p.todo);
    NoClashTail(p.todo);
    SplitFront(p.todo);
    hide NoClash, ReadsFirst;
  }

  // ------------------------------------------------------------------ every turn is one

  /** Smaller in the order that makes the checks end: the node budget left, then whether the
      metadata is unread, then whether a directory is being read, then the checks left. */
  predicate Less(p': Publisher, p: Publisher) {
    var n', n := |p'.seen| + |p'.visiting|, |p.seen| + |p.visiting|;
    || n' > n
    || (n' == n && Unread(p') < Unread(p))
    || (n' == n && Unread(p') == Unread(p) && Reading(p') < Reading(p))
    || (n' == n && Unread(p') == Unread(p) && Reading(p') == Reading(p) && |p'.todo| < |p.todo|)
  }

  function Unread(p: Publisher): nat {
    if ReadMetadata in p.todo then 1 else 0
  }

  function Reading(p: Publisher): nat {
    if p.todo != [] && (p.todo[0].SeeDirectory? || p.todo[0].ReadDirectory?) then 1 else 0
  }

  lemma PlainIsLess(p: Publisher, p': Publisher, added: seq<Job>)
    requires Orderly(p) && p.todo != [] && p'.todo == added + p.todo[1..] && !Holder(p.todo[0])
    requires p'.seen == p.seen && p'.visiting == p.visiting
    requires (forall job :: job in added ==> job.Require?) && (added == [] || p.todo[0] == ReadMetadata)
    ensures Less(p', p)
  {
    hide HoldersOpen, OpenHeld, ReadsFirst, NoClash;
    var rest := p.todo[1..];
    RestHasNoReads(p.todo);
    NoClashTail(p.todo);
    SplitFront(p.todo);
    ConcatIn(added, rest);
    if added == [] {
      assert p'.todo == rest;
      assert rest != [] ==> rest[0] in p.todo;
    } else {
      assert Clash(ReadMetadata, ReadMetadata);
    }
  }

  lemma ReadIsLess(p: Publisher, p': Publisher, d: Digest, quiet: seq<Job>)
    requires Orderly(p) && p.todo != [] && p.todo[0] == ReadDirectory(d)
    requires (forall job :: job in quiet ==> Quiet(job)) && p'.todo == (quiet + [Close(d)]) + p.todo[1..]
    requires p'.seen == p.seen && p'.visiting == p.visiting
    ensures Less(p', p)
  {
    var added, rest := quiet + [Close(d)], p.todo[1..];
    SplitFront(p.todo);
    ConcatIn(quiet, [Close(d)]);
    ConcatIn(added, rest);
    assert p'.todo[0] == added[0] && added[0] in added;
  }

  lemma CloseIsLess(p: Publisher, p': Publisher, d: Digest)
    requires Orderly(p) && p.todo != [] && p.todo[0] == Close(d) && p'.todo == p.todo[1..]
    requires |p'.seen| + |p'.visiting| == |p.seen| + |p.visiting|
    ensures Less(p', p)
  {
    RestHasNoReads(p.todo);
    SplitFront(p.todo);
    assert p'.todo != [] ==> p'.todo[0] in p.todo[1..];
  }

  lemma KindTurn(codec: Codec, s: Store, p: Publisher)
    requires p.todo != [] && Turn(codec, s, p).Some?
    ensures Turn(codec, s, p).value.kind ==
            if p.todo[0] == ReadAction then codec.describe(s.objects[p.result.action]) else p.kind
    ensures p.todo[0] == ReadAction ==> Turn(codec, s, p).value.kind.Some?
    ensures Turn(codec, s, p).value.namespace == p.namespace && Turn(codec, s, p).value.result == p.result
  {
    hide Added, Usable, Readable, References, ShapeOk;
  }

  /** The jobs of a directory read: requirements and children, then its own closing. */
  function Contents(codec: Codec, s: Store, d: Digest): (jobs: seq<Job>)
    requires Readable(codec, s.objects, d)
    ensures forall job :: job in jobs ==> Quiet(job)
  {
    Requires(Files(codec, s.objects, d)) + Opens(Kids(codec, s.objects, d))
  }

  lemma AddedJobs(codec: Codec, s: Store, p: Publisher)
    requires p.todo != [] && Passes(codec, s, p)
    ensures var added := Added(codec, s, p);
            match p.todo[0]
            case ReadMetadata =>
              && p.kind.Some? && p.result.metadata.Some? && p.result.metadata.value in s.objects
              && References(codec, p.kind.value, s.objects[p.result.metadata.value]).Some?
              && added == Requires(References(codec, p.kind.value, s.objects[p.result.metadata.value]).value)
            case Open(d) => added == if d in p.seen then [] else [SeeDirectory(d), ReadDirectory(d)]
            case ReadDirectory(d) => Readable(codec, s.objects, d) && added == Contents(codec, s, d) + [Close(d)]
            case _ => added == []
  {
    hide Usable, ShapeOk, Readable, Files, Kids, Requires, Opens, References;
  }

  lemma OpenPasses(codec: Codec, s: Store, p: Publisher, d: Digest)
    requires p.todo != [] && Passes(codec, s, p) && p.todo[0] == Open(d) && d !in p.seen
    ensures d !in p.visiting && |p.seen| + |p.visiting| + 1 <= MAX_NODES
    ensures Turn(codec, s, p).Some? ==> Turn(codec, s, p).value.visiting == p.visiting + {d}
  {
    hide Usable, ShapeOk, Readable, References, Added;
  }

  /** Every passing check keeps the list in order and brings the end nearer. */
  lemma TurnIsOrderly(codec: Codec, s: Store, p: Publisher)
    requires Orderly(p) && p.todo != [] && Turn(codec, s, p).Some?
    ensures Orderly(Turn(codec, s, p).value) && Less(Turn(codec, s, p).value, p)
  {
    hide Turn, Passes, Added, Contents, Requires, ReadsFirst, NoClash, HoldersOpen, OpenHeld, Less;
    var p' := Turn(codec, s, p).value;
    TurnShape(codec, s, p);
    TurnSets(codec, s, p);
    KindTurn(codec, s, p);
    AddedJobs(codec, s, p);
    match p.todo[0] {
      case Open(d) =>
        if d in p.seen {
          OpenSeen(codec, s, p, d);
          OrderlyPlain(p, p', []);
          PlainIsLess(p, p', []);
        } else {
          OpenPasses(codec, s, p, d);
          OrderlyOpen(p, p', d);
          OpenIsLess(p, p', d);
        }
      case ReadDirectory(d) =>
        OrderlyRead(p, p', d, Contents(codec, s, d));
        ReadIsLess(p, p', d, Contents(codec, s, d));
      case Close(d) =>
        assert [] + p.todo[1..] == p.todo[1..];
        OrderlyClose(p, p', d);
        CloseIsLess(p, p', d);
      case _ =>
        var added := Added(codec, s, p);
        OrderlyPlain(p, p', added);
        PlainIsLess(p, p', added);
    }
  }

  lemma OpenSeen(codec: Codec, s: Store, p: Publisher, d: Digest)
    requires p.todo != [] && Turn(codec, s, p).Some? && p.todo[0] == Open(d) && d in p.seen
    ensures Turn(codec, s, p).value.visiting == p.visiting
  {
    hide Added, Passes;
  }

  lemma OpenIsLess(p: Publisher, p': Publisher, d: Digest)
    requires p'.seen == p.seen && p'.visiting == p.visiting + {d} && d !in p.visiting
    ensures Less(p', p)
  {
    assert |p.visiting + {d}| == |p.visiting| + 1;
  }

  // -------------------------------------------------------- every check serves the result

  /** Whatever lies above a directory's closing descends from it. */
  ghost predicate Stacked(src: Source, todo: seq<Job>) {
    forall i, j :: 0 <= i < j < |todo| && TreeJob(todo[i]) && todo[j].Close? ==>
      Descends(src, todo[j].digest, todo[i].digest)
  }

  ghost predicate JobServes(codec: Codec, s: Store, p: Publisher, job: Job) {
    && (TreeJob(job) ==> FromRoot(codec, s, p, job.digest))
    && (job.Require? ==> Wanted(codec, s, p, job.digest))
    && (job.SeeMetadata? || job.ReadMetadata? ==> p.result.metadata.Some?)
  }

  /** A stream that the metadata names, or a file of a reachable directory. */
  ghost predicate Wanted(codec: Codec, s: Store, p: Publisher, d: Digest) {
    || StreamOf(codec, s, p.result, d)
    || (exists dir :: FromRoot(codec, s, p, dir) && d in FilesIn(SourceOf(codec, s, p.namespace), dir))
  }

  ghost predicate StreamOf(codec: Codec, s: Store, r: ActionResult, d: Digest) {
    && r.metadata.Some? && r.action in s.objects && r.metadata.value in s.objects
    && codec.describe(s.objects[r.action]).Some?
    && var refs := References(codec, codec.describe(s.objects[r.action]).value, s.objects[r.metadata.value]);
       refs.Some? && d in refs.value
  }

  ghost predicate FromRoot(codec: Codec, s: Store, p: Publisher, d: Digest) {
    p.result.outputRoot.Some? && Reaches(SourceOf(codec, s, p.namespace), p.result.outputRoot.value, d)
  }

  ghost predicate KindRead(codec: Codec, s: Store, p: Publisher) {
    p.kind.Some? ==>
      p.result.action in s.objects && codec.describe(s.objects[p.result.action]) == p.kind
          && ShapeOk(p.result, p.kind.value)
  }

  /** What the checks so far have found in the objects; rows play no part in it. */
  ghost predicate Justified(codec: Codec, s: Store, p: Publisher) {
    && (forall job :: job in p.todo ==> JobServes(codec, s, p, job))
    && (forall d :: d in p.Found() ==> FromRoot(codec, s, p, d))
    && Stacked(SourceOf(codec, s, p.namespace), p.todo)
    && KindRead(codec, s, p)
  }

  lemma StackedTail(src: Source, todo: seq<Job>)
    requires todo != [] && Stacked(src, todo)
    ensures Stacked(src, todo[1..])
    ensures TreeJob(todo[0]) ==> forall y :: y in todo[1..] && y.Close? ==> Descends(src, y.digest, todo[0].digest)
  {
    hide Descends;
    var rest := todo[1..];
    forall y | y in rest && y.Close? && TreeJob(todo[0])
      ensures Descends(src, y.digest, todo[0].digest)
    {
      var j :| 0 <= j < |rest| && rest[j] == y;
      assert todo[j + 1] == y;
    }
    forall i, j | 0 <= i < j < |rest| && TreeJob(rest[i]) && rest[j].Close?
      ensures Descends(src, rest[j].digest, rest[i].digest)
    {
      assert rest[i] == todo[i + 1] && rest[j] == todo[j + 1];
    }
  }

  lemma StackedConcat(src: Source, a: seq<Job>, b: seq<Job>)
    requires Stacked(src, a) && Stacked(src, b)
    requires forall x, y :: x in a && y in b && TreeJob(x) && y.Close? ==> Descends(src, y.digest, x.digest)
    ensures Stacked(src, a + b)
  {
    hide Descends;
    forall i, j | 0 <= i < j < |a + b| && TreeJob((a + b)[i]) && (a + b)[j].Close?
      ensures Descends(src, (a + b)[j].digest, (a + b)[i].digest)
    {
      if j < |a| {
        assert (a + b)[i] == a[i] && (a + b)[j] == a[j];
      } else if i < |a| {
        assert (a + b)[i] == a[i] && (a + b)[j] == b[j - |a|] && a[i] in a && b[j - |a|] in b;
      } else {
        assert (a + b)[i] == b[i - |a|] && (a + b)[j] == b[j - |a|];
      }
    }
  }

  /** What a readable directory lists is what the graph says it lists. */
  lemma ReadableGraph(codec: Codec, s: Store, namespace: string, d: Digest)
    requires Readable(codec, s.objects, d)
    ensures var src := SourceOf(codec, s, namespace);
            Children(src, d) == Kids(codec, s.objects, d) && FilesIn(src, d) == Files(codec, s.objects, d)
  {
    hide Publishing.Usable;
  }

  lemma DescendsFurther(src: Source, a: Digest, b: Digest, c: Digest)
    requires Descends(src, a, b) && c in Children(src, b)
    ensures Descends(src, a, c)
  {
    DescendsReaches(src, a, b);
    StepFurther(src, a, b, c);
  }

  lemma ChildDescends(src: Source, d: Digest, c: Digest)
    requires c in Children(src, d)
    ensures Descends(src, d, c)
  {
    ReachesSelf(src, d);
    StepFurther(src, d, d, c);
  }

  /** Requirements have no place in the stack order. */
  lemma RequiresStacked(src: Source, jobs: seq<Job>)
    requires forall job :: job in jobs ==> job.Require?
    ensures Stacked(src, jobs)
  {
    hide Descends;
    assert forall i :: 0 <= i < |jobs| ==> jobs[i] in jobs;
  }

  lemma ContentsServe(codec: Codec, s: Store, p: Publisher, d: Digest)
    requires Readable(codec, s.objects, d) && FromRoot(codec, s, p, d)
    ensures forall job :: job in Contents(codec, s, d) ==> JobServes(codec, s, p, job)
  {
    hide Readable, Reaches, Kids, Files, Descends;
    var src := SourceOf(codec, s, p.namespace);
    var root := p.result.outputRoot.value;
    ReadableGraph(codec, s, p.namespace, d);
    forall job | job in Contents(codec, s, d)
      ensures JobServes(codec, s, p, job)
    {
      if job.Open? {
        assert job.digest in Kids(codec, s.objects, d);
        StepFurther(src, root, d, job.digest);
      } else {
        assert job.digest in FilesIn(src, d);
      }
    }
  }

  lemma ContentsStacked(codec: Codec, s: Store, namespace: string, d: Digest)
    requires Readable(codec, s.objects, d)
    ensures Stacked(SourceOf(codec, s, namespace), Contents(codec, s, d) + [Close(d)])
    ensures forall job :: job in Contents(codec, s, d) && job.Open? ==>
              job.digest in Children(SourceOf(codec, s, namespace), d)
  {
    hide Readable, Descends, Kids, Files, Children;
    var src, jobs := SourceOf(codec, s, namespace), Contents(codec, s, d);
    ReadableGraph(codec, s, namespace, d);
    assert forall job :: job in jobs && job.Open? ==> job.digest in Kids(codec, s.objects, d);
    assert Stacked(src, jobs) by { assert forall i :: 0 <= i < |jobs| ==> jobs[i] in jobs && !jobs[i].Close?; }
    forall x, y | x in jobs && y in [Close(d)] && TreeJob(x) && y.Close?
      ensures Descends(src, y.digest, x.digest)
    {
      ChildDescends(src, d, x.digest);
    }
    StackedConcat(src, jobs, [Close(d)]);
  }

  /** The jobs a turn adds serve the result and take their place in the stack. */
  lemma AddedServes(codec: Codec, s: Store, p: Publisher)
    requires Justified(codec, s, p) && p.todo != [] && Passes(codec, s, p)
    ensures var src, added := SourceOf(codec, s, p.namespace), Added(codec, s, p);
            && (forall job :: job in added ==> JobServes(codec, s, p, job))
            && Stacked(src, added)
            && forall x, y :: x in added && y in p.todo[1..] && TreeJob(x) && y.Close? ==>
                  Descends(src, y.digest, x.digest)
  {
    hide Passes, Added, Contents, Requires, Descends, SourceOf, Readable, FromRoot, Wanted, KindRead, JobServes,
        Stacked;
    var src, added := SourceOf(codec, s, p.namespace), Added(codec, s, p);
    AddedJobs(codec, s, p);
    StackedTail(src, p.todo);
    assert p.todo[0] in p.todo;
    assert JobServes(codec, s, p, p.todo[0]);
    match p.todo[0] {
      case ReadMetadata =>
        StreamsServe(codec, s, p);
        RequiresStacked(src, added);
      case Open(d) =>
        OpeningServes(codec, s, p, d);
      case ReadDirectory(d) =>
        ReadingServes(codec, s, p, d);
      case _ =>
        RequiresStacked(src, added);
    }
  }

  lemma StreamsServe(codec: Codec, s: Store, p: Publisher)
    requires KindRead(codec, s, p) && p.kind.Some? && p.result.metadata.Some? && p.result.metadata.value in s.objects
    requires References(codec, p.kind.value, s.objects[p.result.metadata.value]).Some?
    ensures forall job :: job in Requires(References(codec, p.kind.value, s.objects[p.result.metadata.value]).value) ==>
              job.Require? && JobServes(codec, s, p, job)
  {
    hide References, FromRoot;
  }

  lemma OpeningServes(codec: Codec, s: Store, p: Publisher, d: Digest)
    requires JobServes(codec, s, p, Open(d))
    ensures JobServes(codec, s, p, SeeDirectory(d)) && JobServes(codec, s, p, ReadDirectory(d))
    ensures Stacked(SourceOf(codec, s, p.namespace), [SeeDirectory(d), ReadDirectory(d)])
    ensures Stacked(SourceOf(codec, s, p.namespace), [])
  {
    hide FromRoot, Descends;
  }

  lemma ReadingServes(codec: Codec, s: Store, p: Publisher, d: Digest)
    requires JobServes(codec, s, p, ReadDirectory(d)) && Readable(codec, s.objects, d) && p.todo != []
    requires forall y :: y in p.todo[1..] && y.Close? ==> Descends(SourceOf(codec, s, p.namespace), y.digest, d)
    ensures var src, added := SourceOf(codec, s, p.namespace), Contents(codec, s, d) + [Close(d)];
            && (forall job :: job in added ==> JobServes(codec, s, p, job))
            && Stacked(src, added)
            && forall x, y :: x in added && y in p.todo[1..] && TreeJob(x) && y.Close? ==>
                  Descends(src, y.digest, x.digest)
  {
    hide Contents, Descends, SourceOf, Readable, FromRoot, Wanted, Stacked, Children;
    var src, jobs := SourceOf(codec, s, p.namespace), Contents(codec, s, d);
    ContentsServe(codec, s, p, d);
    ContentsStacked(codec, s, p.namespace, d);
    ConcatIn(jobs, [Close(d)]);
    forall x, y | x in jobs + [Close(d)] && y in p.todo[1..] && TreeJob(x) && y.Close?
      ensures Descends(src, y.digest, x.digest)
    {
      if x in jobs {
        DescendsFurther(src, y.digest, d, x.digest);
      }
    }
  }

  lemma FoundTurn(codec: Codec, s: Store, p: Publisher)
    requires p.todo != [] && Turn(codec, s, p).Some?
    ensures forall d :: d in Turn(codec, s, p).value.Found() ==>
              d in p.Found() || (TreeJob(p.todo[0]) && d == p.todo[0].digest)
  {
    hide Turn;
    TurnSets(codec, s, p);
  }

  lemma KindReadTurn(codec: Codec, s: Store, p: Publisher)
    requires p.todo != [] && Turn(codec, s, p).Some? && KindRead(codec, s, p)
    ensures KindRead(codec, s, Turn(codec, s, p).value)
  {
    hide Added, Publishing.Usable, Readable, References;
  }

  lemma SameServes(codec: Codec, s: Store, p: Publisher, p': Publisher)
    requires p'.namespace == p.namespace && p'.result == p.result
    ensures forall job :: JobServes(codec, s, p', job) <==> JobServes(codec, s, p, job)
    ensures forall d :: FromRoot(codec, s, p', d) <==> FromRoot(codec, s, p, d)
  {
    hide Reaches, StreamOf;
  }

  lemma TurnIsJustified(codec: Codec, s: Store, p: Publisher)
    requires Justified(codec, s, p) && p.todo != [] && Turn(codec, s, p).Some?
    ensures Justified(codec, s, Turn(codec, s, p).value)
  {
    hide Turn, Passes, Added, JobServes, FromRoot, Stacked, KindRead, SourceOf, Publisher.Found;
    var p', src := Turn(codec, s, p).value, SourceOf(codec, s, p.namespace);
    TurnShape(codec, s, p);
    var added, rest := Added(codec, s, p), p.todo[1..];
    AddedServes(codec, s, p);
    KindTurn(codec, s, p);
    KindReadTurn(codec, s, p);
    SameServes(codec, s, p, p');
    SplitFront(p.todo);
    ConcatIn(added, rest);
    StackedTail(src, p.todo);
    StackedConcat(src, added, rest);
    FoundTurn(codec, s, p);
    FrontFromRoot(codec, s, p);
  }

  lemma FrontFromRoot(codec: Codec, s: Store, p: Publisher)
    requires Justified(codec, s, p) && p.todo != []
    ensures TreeJob(p.todo[0]) ==> FromRoot(codec, s, p, p.todo[0].digest)
  {
    hide FromRoot, Stacked;
    assert p.todo[0] in p.todo;
    assert JobServes(codec, s, p, p.todo[0]);
  }

  // -------------------------------------------------------------- what a refusal shows

  /** An acceptable tree has everything the walk asks for. */
  lemma TreeGives(codec: Codec, s: Store, p: Publisher, d: Digest)
    requires Complete(codec, s, p.namespace, p.result) && FromRoot(codec, s, p, d)
    ensures d.size <= MAX_OBJECT_BYTES && (p.namespace, d) in s.rows && Readable(codec, s.objects, d)
    ensures !Descends(SourceOf(codec, s, p.namespace), d, d)
    ensures forall f :: f in FilesIn(SourceOf(codec, s, p.namespace), d) ==> Publishing.Usable(s, p.namespace, f)
  {
    hide Reaches, Descends, Digest.Valid, MetadataComplete;
    var src := SourceOf(codec, s, p.namespace);
    assert GoodNode(src, d);
    var dir := Parsed(src, d).value;
    var files := FilesIn(src, d);
    forall f | f in files
      ensures Publishing.Usable(s, p.namespace, f)
    {
      var i :| 0 <= i < |files| && files[i] == f;
      assert FileOk(src, dir.files[i].digest);
    }
  }

  lemma WantedIsUsable(codec: Codec, s: Store, p: Publisher, d: Digest)
    requires Complete(codec, s, p.namespace, p.result) && Wanted(codec, s, p, d)
    ensures Publishing.Usable(s, p.namespace, d)
  {
    hide FromRoot, Digest.Valid, References, TreeOk, SourceOf, FilesIn;
    if !StreamOf(codec, s, p.result, d) {
      var dir :| FromRoot(codec, s, p, dir) && d in FilesIn(SourceOf(codec, s, p.namespace), dir);
      TreeGives(codec, s, p, dir);
    }
  }

  /** Opening is refused only for a cycle, an overfull graph or an oversized directory. */
  lemma OpenRefused(codec: Codec, s: Store, p: Publisher, d: Digest)
    requires Orderly(p) && Justified(codec, s, p) && p.todo != [] && p.todo[0] == Open(d) && !Passes(codec, s, p)
    ensures !Complete(codec, s, p.namespace, p.result)
  {
    hide Complete, FromRoot, ReadsFirst, NoClash, KindRead, JobServes, HoldersOpen;
    FrontFromRoot(codec, s, p);
    if Complete(codec, s, p.namespace, p.result) {
      TreeGives(codec, s, p, d);
      if d in p.visiting {
        CycleAhead(codec, s, p, d);
      } else {
        assert |p.Found() + {d}| == |p.seen| + |p.visiting| + 1;
        OverfullTree(codec, s, p, p.Found() + {d});
      }
      assert false;
    }
  }

  lemma CycleAhead(codec: Codec, s: Store, p: Publisher, d: Digest)
    requires Orderly(p) && Justified(codec, s, p) && p.todo != [] && p.todo[0] == Open(d) && d in p.visiting
    ensures Descends(SourceOf(codec, s, p.namespace), d, d)
  {
    hide Descends, SourceOf, KindRead, JobServes, FromRoot, NoClash, HoldersOpen;
    RestHasNoReads(p.todo);
    assert ReadDirectory(d) !in p.todo;
    var j :| 0 <= j < |p.todo| && p.todo[j] == Close(d);
    assert TreeJob(p.todo[0]);
  }

  lemma OverfullTree(codec: Codec, s: Store, p: Publisher, nodes: set<Digest>)
    requires |nodes| > MAX_NODES && nodes != {} && forall d :: d in nodes ==> FromRoot(codec, s, p, d)
    ensures !Complete(codec, s, p.namespace, p.result)
  {
    hide Reaches, TreeOk, MetadataComplete;
    var d :| d in nodes;
    assert FromRoot(codec, s, p, d);
    OverfullIsRefused(SourceOf(codec, s, p.namespace), p.result.outputRoot.value, nodes);
  }

  /** A check that fails shows that the result is not complete at that store. */
  lemma RefusedIsIncomplete(codec: Codec, s: Store, p: Publisher)
    requires Orderly(p) && Justified(codec, s, p) && p.todo != [] && !Passes(codec, s, p)
    ensures !Complete(codec, s, p.namespace, p.result)
  {
    hide Orderly, FromRoot, Readable, References, Digest.Valid, Stacked, TreeOk, Publishing.Usable, ShapeOk, Wanted;
    assert p.todo[0] in p.todo;
    assert JobServes(codec, s, p, p.todo[0]);
    FrontFromRoot(codec, s, p);
    match p.todo[0] {
      case Open(d) => OpenRefused(codec, s, p, d);
      case SeeDirectory(d) =>
        if Complete(codec, s, p.namespace, p.result) {
          TreeGives(codec, s, p, d);
        }
      case ReadDirectory(d) =>
        if Complete(codec, s, p.namespace, p.result) {
          TreeGives(codec, s, p, d);
        }
      case Require(d) =>
        if Complete(codec, s, p.namespace, p.result) {
          WantedIsUsable(codec, s, p, d);
        }
      case ReadMetadata =>
        KindIsRead(p);
      case _ =>
    }
  }

  lemma KindIsRead(p: Publisher)
    requires Orderly(p) && p.todo != [] && p.todo[0] != SeeAction && p.todo[0] != ReadAction
    ensures p.kind.Some?
  {
  }

  // -------------------------------------------------------- a store that holds still

  /** The first list of checks: descriptor, metadata, root, none of them yet under way. */
  predicate Fresh(result: ActionResult, todo: seq<Job>, i: nat)
    requires i < |todo|
  {
    match todo[i]
    case SeeAction => true
    case ReadAction => true
    case SeeMetadata => result.metadata.Some?
    case ReadMetadata => result.metadata.Some? && i == 3
    case Open(d) => result.outputRoot == Some(d)
    case _ => false
  }

  lemma StartList(namespace: string, result: ActionResult)
    ensures var p := NewPublisher(namespace, result);
            && p.kind.None? && p.seen == {} && p.visiting == {} && p.namespace == namespace && p.result == result
            && |p.todo| >= 2 && p.todo[0] == SeeAction && p.todo[1] == ReadAction
            && forall i :: 0 <= i < |p.todo| ==> Fresh(result, p.todo, i)
  {
  }

  lemma StartOrder(p: Publisher)
    requires p.kind.None? && p.seen == {} && p.visiting == {}
    requires |p.todo| >= 2 && p.todo[0] == SeeAction && p.todo[1] == ReadAction
    requires forall i :: 0 <= i < |p.todo| ==> Fresh(p.result, p.todo, i)
    ensures Orderly(p)
  {
    forall job | job in p.todo
      ensures !job.SeeDirectory? && !Holder(job)
    {
      var i :| 0 <= i < |p.todo| && p.todo[i] == job;
      assert Fresh(p.result, p.todo, i);
    }
    SplitFront(p.todo);
    forall i, j | 0 <= i < j < |p.todo|
      ensures !Clash(p.todo[i], p.todo[j])
    {
      assert Fresh(p.result, p.todo, i) && Fresh(p.result, p.todo, j);
    }
    hide Clash, Fresh;
  }

  lemma StartServes(codec: Codec, s: Store, p: Publisher)
    requires p.kind.None? && p.seen == {} && p.visiting == {}
    requires forall i :: 0 <= i < |p.todo| ==> Fresh(p.result, p.todo, i)
    ensures Justified(codec, s, p)
  {
    hide Reaches, Descends, Wanted, SourceOf;
    var src := SourceOf(codec, s, p.namespace);
    if p.result.outputRoot.Some? {
      ReachesSelf(src, p.result.outputRoot.value);
    }
    forall job | job in p.todo
      ensures JobServes(codec, s, p, job)
    {
      var i :| 0 <= i < |p.todo| && p.todo[i] == job;
      assert Fresh(p.result, p.todo, i);
    }
    assert forall j :: 0 <= j < |p.todo| ==> Fresh(p.result, p.todo, j) && !p.todo[j].Close?;
  }

  lemma StartIsOrderly(codec: Codec, s: Store, namespace: string, result: ActionResult)
    ensures Orderly(NewPublisher(namespace, result)) && Justified(codec, s, NewPublisher(namespace, result))
  {
    hide NewPublisher, Orderly, Justified, Fresh;
    var p := NewPublisher(namespace, result);
    StartList(namespace, result);
    StartOrder(p);
    StartServes(codec, s, p);
  }

  /** `put_action_result` up to its commit, with no one else about: the checks end, and they
      accept exactly the complete results. */
  method ValidateResult(codec: Codec, s: Store, namespace: string, result: ActionResult) returns (accepted: bool)
    ensures accepted <==> Complete(codec, s, namespace, result)
  {
    hide Turn, Orderly, Justified, Sure, Complete, Backed, NewPublisher, Less;
    var p := NewPublisher(namespace, result);
    NewIsFor(namespace, result);
    StartIsOrderly(codec, s, namespace, result);
    SureAtStart(codec, s, namespace, result);
    while p.todo != []
      invariant p.namespace == namespace && p.result == result
      invariant Orderly(p) && Justified(codec, s, p) && Sure(codec, s, p)
      decreases Budget(p), Unread(p), Reading(p), |p.todo|
    {
      var next := Turn(codec, s, p);
      if next.None? {
        NoneIsRefused(codec, s, p);
        RefusedIsIncomplete(codec, s, p);
        return false;
      }
      KindTurn(codec, s, p);
      TurnIsOrderly(codec, s, p);
      TurnIsJustified(codec, s, p);
      SureTurn(codec, s, p);
      LessIsLess(p, next.value);
      p := next.value;
    }
    DoneIsBacked(codec, s, p);
    BackedIsComplete(codec, s, namespace, result, p.order);
    accepted := true;
  }

  function Budget(p: Publisher): nat {
    if |p.seen| + |p.visiting| <= MAX_NODES then MAX_NODES - |p.seen| - |p.visiting| else 0
  }

  lemma LessIsLess(p: Publisher, p': Publisher)
    requires Orderly(p) && Orderly(p') && Less(p', p)
    ensures || Budget(p') < Budget(p)
            || (Budget(p') == Budget(p) && Unread(p') < Unread(p))
            || (Budget(p') == Budget(p) && Unread(p') == Unread(p) && Reading(p') < Reading(p))
            || (Budget(p') == Budget(p) && Unread(p') == Unread(p) && Reading(p') == Reading(p) && |p'.todo| < |p.todo|)
  {
  }

  lemma NewIsFor(namespace: string, result: ActionResult)
    ensures NewPublisher(namespace, result).namespace == namespace && NewPublisher(namespace, result).result == result
  {
  }

  lemma NoneIsRefused(codec: Codec, s: Store, p: Publisher)
    requires p.todo != []
    ensures Turn(codec, s, p).None? <==> !Passes(codec, s, p)
  {
    hide Passes, Added;
  }

  // ------------------------------------------------------------------ among other clients

  ghost predicate ObjectsGrow(s: Store, s': Store) {
    forall d :: d in s.objects ==> d in s'.objects && s'.objects[d] == s.objects[d]
  }

  lemma NodeGrows(codec: Codec, s: Store, s': Store, namespace: string, d: Digest, c: Digest)
    requires ObjectsGrow(s, s')
    ensures c in Children(SourceOf(codec, s, namespace), d) ==> c in Children(SourceOf(codec, s', namespace), d)
    ensures c in FilesIn(SourceOf(codec, s, namespace), d) ==> c in FilesIn(SourceOf(codec, s', namespace), d)
  {
  }

  lemma LinksGrow(codec: Codec, s: Store, s': Store, namespace: string, path: seq<Digest>, a: Digest, b: Digest)
    requires ObjectsGrow(s, s') && Links(SourceOf(codec, s, namespace), path, a, b)
    ensures Links(SourceOf(codec, s', namespace), path, a, b)
  {
    hide Children, SourceOf, FilesIn, ObjectsGrow;
    var src, src' := SourceOf(codec, s, namespace), SourceOf(codec, s', namespace);
    forall i | 0 <= i < |path| - 1
      ensures path[i + 1] in Children(src', path[i])
    {
      assert path[i + 1] in Children(src, path[i]);
      NodeGrows(codec, s, s', namespace, path[i], path[i + 1]);
    }
  }

  lemma GraphGrows(codec: Codec, s: Store, s': Store, namespace: string)
    requires ObjectsGrow(s, s')
    ensures var src, src' := SourceOf(codec, s, namespace), SourceOf(codec, s', namespace);
            && (forall a, b :: Reaches(src, a, b) ==> Reaches(src', a, b))
            && (forall a, b :: Descends(src, a, b) ==> Descends(src', a, b))
            && (forall d, f :: f in FilesIn(src, d) ==> f in FilesIn(src', d))
  {
    hide Links, SourceOf, FilesIn, ObjectsGrow;
    var src, src' := SourceOf(codec, s, namespace), SourceOf(codec, s', namespace);
    forall path, a, b | Links(src, path, a, b)
      ensures Links(src', path, a, b)
    {
      LinksGrow(codec, s, s', namespace, path, a, b);
    }
    forall d, f | f in FilesIn(src, d)
      ensures f in FilesIn(src', d)
    {
      NodeGrows(codec, s, s', namespace, d, f);
    }
  }

  lemma JobServesGrows(codec: Codec, s: Store, s': Store, p: Publisher, job: Job)
    requires ObjectsGrow(s, s') && JobServes(codec, s, p, job)
    ensures JobServes(codec, s', p, job)
  {
    hide Reaches, Descends, FilesIn, SourceOf, References;
    GraphGrows(codec, s, s', p.namespace);
  }

  /** What the checks have found stays found, whatever others upload and sweep. */
  lemma JustifiedGrows(codec: Codec, s: Store, s': Store, p: Publisher)
    requires ObjectsGrow(s, s') && Justified(codec, s, p)
    ensures Justified(codec, s', p)
  {
    hide Reaches, Descends, SourceOf, JobServes, FilesIn;
    GraphGrows(codec, s, s', p.namespace);
    forall job | job in p.todo
      ensures JobServes(codec, s', p, job)
    {
      JobServesGrows(codec, s, s', p, job);
    }
  }

  ghost predicate AllJustified(codec: Codec, s: State) {
    forall id :: id in s.publishers ==> Orderly(s.publishers[id]) && Justified(codec, s.store, s.publishers[id])
  }

  /** What a step does to publications: one starts, one takes a turn, or some end. */
  lemma PublishersAfter(codec: Codec, s: State, step: Step, s': State)
    requires Next(codec, s, step, s')
    ensures ObjectsGrow(s.store, s'.store)
    ensures forall id :: id in s'.publishers ==>
              || (id in s.publishers && s'.publishers[id] == s.publishers[id])
              || (step.StartPublish? && s'.publishers[id] == NewPublisher(step.namespace, step.result))
              || (step == Check(id) && id in s.publishers && s.publishers[id].todo != [] && s'.store == s.store
                  && Turn(codec, s.store, s.publishers[id]) == Some(s'.publishers[id]))
  {
    hide Turn, NewPublisher, Uploads.Authentic, Digest.Kind;
  }

  lemma JustifiedStep(codec: Codec, s: State, step: Step, s': State)
    requires Next(codec, s, step, s') && AllJustified(codec, s)
    ensures AllJustified(codec, s')
  {
    hide Next, Turn, NewPublisher, Orderly, Justified, ObjectsGrow;
    PublishersAfter(codec, s, step, s');
    forall id | id in s'.publishers
      ensures Orderly(s'.publishers[id]) && Justified(codec, s'.store, s'.publishers[id])
    {
      if id in s.publishers && s'.publishers[id] == s.publishers[id] {
        JustifiedGrows(codec, s.store, s'.store, s.publishers[id]);
      } else if step.StartPublish? {
        StartIsOrderly(codec, s'.store, step.namespace, step.result);
      } else {
        TurnIsOrderly(codec, s.store, s.publishers[id]);
        TurnIsJustified(codec, s.store, s.publishers[id]);
      }
    }
  }

  lemma {:induction false} RunIsJustified(codec: Codec, run: seq<State>, steps: seq<Step>, i: nat)
    requires IsRun(codec, run, steps) && i < |run|
    ensures AllJustified(codec, run[i])
  {
    hide Next, Orderly, Justified;
    if i > 0 {
      RunIsJustified(codec, run, steps, i - 1);
      assert Next(codec, run[i - 1], steps[i - 1], run[(i - 1) + 1]);
      JustifiedStep(codec, run[i - 1], steps[i - 1], run[i]);
    }
  }

  /** In every run, sweeps included, a request that a check turned away was for a result that was
      not complete on the store as it then was. */
  lemma DroppedIsIncomplete(codec: Codec, run: seq<State>, steps: seq<Step>, i: nat, id: nat)
    requires IsRun(codec, run, steps) && i < |steps| && steps[i] == Check(id)
    requires id in run[i].publishers && id !in run[i + 1].publishers
    ensures var p := run[i].publishers[id];
            !Complete(codec, run[i].store, p.namespace, p.result)
  {
    hide Complete, Orderly, Justified, Turn, Passes;
    RunIsJustified(codec, run, steps, i);
    var p := run[i].publishers[id];
    assert Next(codec, run[i], steps[i], run[i + 1]);
    NoneIsRefused(codec, run[i].store, p);
    RefusedIsIncomplete(codec, run[i].store, p);
  }
}
