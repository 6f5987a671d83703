/** `validate_tree`: an iterative depth-first search over a graph that may even be infinite. */
module TreeWalk {
  import opened Wrappers
  import opened Digests
  import opened Directories

  const MAX_NODES: nat := 100_000
  const MAX_OBJECT_BYTES: nat := 16 * 1024 * 1024

  datatype Read<+T> = ReadFailed | Got(value: T)

  /** One namespace of a store that holds still, with the JSON codec as parameters. */
  datatype Source = Source(visible: Digest -> Read<bool>,
                           fetch: Digest -> Read<Option<seq<Byte>>>,
                           parse: seq<Byte> -> Option<Directory>,
                           encode: Directory -> seq<Byte>)

  datatype TreeError =
    | Cycle
    | GraphTooLarge
    | ObjectTooLarge
    | ObjectMissing
    | ObjectInvalid
    | NotCanonical
    | UnsupportedVersion
    | BadEntries(error: EntryError)
    | FileDigestInvalid
    | FileMissing
    | StoreUnavailable

  // --------------------------------------------------------------------- the graph

  function Parsed(src: Source, d: Digest): Option<Directory> {
    match src.fetch(d)
    case Got(Some(bytes)) => src.parse(bytes)
    case _ => None
  }

  function Children(src: Source, d: Digest): seq<Digest> {
    match Parsed(src, d)
    case None => []
    case Some(dir) => seq(|dir.directories|, i requires 0 <= i < |dir.directories| => dir.directories[i].digest)
  }

  predicate FileOk(src: Source, d: Digest) {
    d.Valid() && src.visible(d) == Got(true)
  }

  /** Everything `validate_tree` asks of one directory object. */
  predicate GoodNode(src: Source, d: Digest) {
    && d.size <= MAX_OBJECT_BYTES
    && src.visible(d) == Got(true)
    && Parsed(src, d).Some?
    && var dir := Parsed(src, d).value;
       && src.encode(dir) == src.fetch(d).value.value
       && dir.version == 1
       && EntriesValid(dir)
       && forall i :: 0 <= i < |dir.files| ==> FileOk(src, dir.files[i].digest)
  }

  ghost predicate IsPath(src: Source, p: seq<Digest>) {
    |p| > 0 && forall i :: 0 <= i < |p| - 1 ==> p[i + 1] in Children(src, p[i])
  }

  ghost predicate Links(src: Source, p: seq<Digest>, a: Digest, b: Digest) {
    IsPath(src, p) && p[0] == a && p[|p| - 1] == b
  }

  ghost predicate Reaches(src: Source, a: Digest, b: Digest) {
    exists p :: Links(src, p, a, b)
  }

  /** Reachable in at least one step. */
  ghost predicate Descends(src: Source, a: Digest, b: Digest) {
    exists p :: Links(src, p, a, b) && |p| >= 2
  }

  /** The published condition on a directory graph. */
  ghost predicate TreeOk(src: Source, root: Digest) {
    && (forall d :: Reaches(src, root, d) ==> GoodNode(src, d))
    && (forall d :: Reaches(src, root, d) ==> !Descends(src, d, d))
    && exists nodes: set<Digest> :: |nodes| <= MAX_NODES && Covers(src, root, nodes)
  }

  ghost predicate Covers(src: Source, root: Digest, nodes: set<Digest>) {
    forall d :: Reaches(src, root, d) ==> d in nodes
  }

  lemma ReachesSelf(src: Source, a: Digest)
    ensures Reaches(src, a, a)
  {
    assert Links(src, [a], a, a);
  }

  lemma StepFurther(src: Source, a: Digest, b: Digest, c: Digest)
    requires Reaches(src, a, b) && c in Children(src, b)
    ensures Descends(src, a, c) && Reaches(src, a, c)
  {
    hide Children;
    var p :| Links(src, p, a, b);
    var q := p + [c];
    forall i | 0 <= i < |q| - 1
      ensures q[i + 1] in Children(src, q[i])
    {
      if i < |p| - 1 {
        assert q[i + 1] == p[i + 1] && q[i] == p[i];
      }
    }
    assert Links(src, q, a, c);
  }

  lemma DescendsReaches(src: Source, a: Digest, b: Digest)
    requires Descends(src, a, b)
    ensures Reaches(src, a, b)
  {
  }

  // ----------------------------------------------------------------- the walk's state

  datatype Visit = Enter(digest: Digest) | Exit(digest: Digest)

  datatype Walk = Walk(pending: seq<Visit>, visiting: set<Digest>, seen: set<Digest>)

  /** The stack: exits are the open directories, once each, and whatever lies above an exit
      descends from it. */
  ghost predicate StackOk(src: Source, w: Walk) {
    && (forall i :: 0 <= i < |w.pending| && w.pending[i].Exit? ==> w.pending[i].digest in w.visiting)
    && (forall d :: d in w.visiting ==> Exit(d) in w.pending)
    && (forall i, j :: 0 <= i < j < |w.pending| && w.pending[i].Exit? ==>
          && Descends(src, w.pending[i].digest, w.pending[j].digest)
          && w.pending[j] != w.pending[i])
    && w.visiting !! w.seen
  }

  ghost predicate Above(w: Walk, i: nat, d: Digest) {
    exists j :: i < j < |w.pending| && w.pending[j].digest == d
  }

  /** Nothing is forgotten: an open directory's children are done or still above its exit. */
  ghost predicate ChildrenOk(src: Source, w: Walk) {
    forall i, c :: 0 <= i < |w.pending| && w.pending[i].Exit? && c in Children(src, w.pending[i].digest) ==>
      c in w.seen || Above(w, i, c)
  }

  ghost predicate NodesOk(src: Source, root: Digest, w: Walk) {
    && (forall v :: v in w.pending ==> Reaches(src, root, v.digest))
    && (forall d :: d in w.visiting || d in w.seen ==> Reaches(src, root, d) && GoodNode(src, d))
    && (root in w.seen || exists v :: v in w.pending && v.digest == root)
  }

  /** Finished directories in the order they finished: children first, none twice. */
  ghost predicate OrderOk(src: Source, seen: set<Digest>, order: seq<Digest>) {
    && (forall d :: d in seen <==> d in order)
    && (forall i, j :: 0 <= i < j < |order| ==> order[i] != order[j])
    && (forall i, c :: 0 <= i < |order| && c in Children(src, order[i]) ==> Before(order, i, c))
  }

  ghost predicate Before(order: seq<Digest>, i: nat, c: Digest) {
    exists j :: 0 <= j < i <= |order| && order[j] == c
  }

  ghost predicate WalkOk(src: Source, root: Digest, w: Walk, order: seq<Digest>) {
    StackOk(src, w) && ChildrenOk(src, w) && NodesOk(src, root, w) && OrderOk(src, w.seen, order)
  }

  // --------------------------------------------------------------------- transitions

  lemma PopStack(src: Source, w: Walk, w': Walk)
    requires StackOk(src, w) && w.pending != [] && w'.pending == w.pending[..|w.pending| - 1]
    requires var top := w.pending[|w.pending| - 1];
             if top.Exit? then w'.visiting == w.visiting - {top.digest} && w'.seen == w.seen + {top.digest}
             else w'.visiting == w.visiting && w'.seen == w.seen
    ensures StackOk(src, w')
  {
    var n := |w.pending| - 1;
    assert forall i :: 0 <= i < n ==> w'.pending[i] == w.pending[i];
    forall d | d in w'.visiting
      ensures Exit(d) in w'.pending
    {
      var i :| 0 <= i < |w.pending| && w.pending[i] == Exit(d);
      assert i < n;
      assert w'.pending[i] == Exit(d);
    }
  }

  lemma PopChildren(src: Source, w: Walk, w': Walk)
    requires ChildrenOk(src, w) && w.pending != [] && w'.pending == w.pending[..|w.pending| - 1]
    requires w.seen <= w'.seen && w.pending[|w.pending| - 1].digest in w'.seen
    ensures ChildrenOk(src, w')
  {
    hide Children;
    var n := |w.pending| - 1;
    forall i, c | 0 <= i < n && w'.pending[i].Exit? && c in Children(src, w'.pending[i].digest)
      ensures c in w'.seen || Above(w', i, c)
    {
      assert w'.pending[i] == w.pending[i];
      if c !in w'.seen {
        var j :| i < j < |w.pending| && w.pending[j].digest == c;
        assert w'.pending[j] == w.pending[j];
      }
    }
  }

  lemma PopNodes(src: Source, root: Digest, w: Walk, w': Walk)
    requires NodesOk(src, root, w) && w.pending != [] && w'.pending == w.pending[..|w.pending| - 1]
    requires var top := w.pending[|w.pending| - 1].digest;
             w.seen <= w'.seen <= w.seen + {top} && w'.visiting <= w.visiting
             && top in w'.seen && (top in w.visiting || top in w.seen)
    ensures NodesOk(src, root, w')
  {
    hide GoodNode, Reaches;
    var n := |w.pending| - 1;
    assert forall v :: v in w'.pending ==> v in w.pending;
    if root !in w'.seen {
      var v :| v in w.pending && v.digest == root;
      var i :| 0 <= i < |w.pending| && w.pending[i] == v;
      assert w'.pending[i] == v;
    }
  }

  lemma OrderGrows(src: Source, seen: set<Digest>, order: seq<Digest>, d: Digest)
    requires OrderOk(src, seen, order) && d !in seen
    requires forall c :: c in Children(src, d) ==> c in seen
    ensures OrderOk(src, seen + {d}, order + [d])
  {
    hide Children;
    var longer := order + [d];
    assert longer[|order|] == d && forall i :: 0 <= i < |order| ==> longer[i] == order[i];
    forall i, c | 0 <= i < |longer| && c in Children(src, longer[i])
      ensures Before(longer, i, c)
    {
      if i < |order| {
        assert Before(order, i, c);
        var j :| 0 <= j < i && order[j] == c;
        assert longer[j] == c;
      } else {
        var j :| 0 <= j < |order| && order[j] == c;
        assert longer[j] == c;
      }
    }
  }

  /** Popping an exit finishes its directory. */
  lemma ExitKeeps(src: Source, root: Digest, w: Walk, w': Walk, order: seq<Digest>)
    requires WalkOk(src, root, w, order) && w.pending != [] && w.pending[|w.pending| - 1].Exit?
    requires var d := w.pending[|w.pending| - 1].digest;
             w' == Walk(w.pending[..|w.pending| - 1], w.visiting - {d}, w.seen + {d})
    ensures WalkOk(src, root, w', order + [w.pending[|w.pending| - 1].digest])
    ensures w.pending[|w.pending| - 1].digest in w.visiting && w.pending[|w.pending| - 1].digest !in w.seen
  {
    hide Children, GoodNode, Reaches, Descends;
    var n := |w.pending| - 1;
    var d := w.pending[n].digest;
    assert d in w.visiting;
    PopStack(src, w, w');
    PopChildren(src, w, w');
    PopNodes(src, root, w, w');
    forall c | c in Children(src, d)
      ensures c in w.seen
    {
      assert !Above(w, n, c);
    }
    OrderGrows(src, w.seen, order, d);
  }

  /** Popping an entry whose directory is already finished. */
  lemma SkipKeeps(src: Source, root: Digest, w: Walk, w': Walk, order: seq<Digest>)
    requires WalkOk(src, root, w, order) && w.pending != [] && w.pending[|w.pending| - 1].Enter?
    requires w.pending[|w.pending| - 1].digest in w.seen
    requires w' == w.(pending := w.pending[..|w.pending| - 1])
    ensures WalkOk(src, root, w', order)
  {
    hide Children, GoodNode, Reaches, Descends, OrderOk;
    PopStack(src, w, w');
    PopChildren(src, w, w');
    PopNodes(src, root, w, w');
  }

  function Entries(children: seq<Digest>): (v: seq<Visit>)
    ensures |v| == |children| && forall i :: 0 <= i < |v| ==> v[i] == Enter(children[i])
  {
    seq(|children|, i requires 0 <= i < |children| => Enter(children[i]))
  }

  /** The stack after opening `d`, position by position. */
  ghost predicate Pushed(w: Walk, w': Walk, d: Digest, children: seq<Digest>) {
    var n := |w.pending| - 1;
    && 0 <= n && |w'.pending| == n + 1 + |children|
    && (forall i :: 0 <= i < n ==> w'.pending[i] == w.pending[i])
    && w'.pending[n] == Exit(d)
    && (forall i :: n < i < |w'.pending| ==> w'.pending[i] == Enter(children[i - n - 1]))
  }

  lemma PushShape(w: Walk, w': Walk, d: Digest, children: seq<Digest>)
    requires w.pending != []
    requires w'.pending == w.pending[..|w.pending| - 1] + [Exit(d)] + Entries(children)
    ensures Pushed(w, w', d, children)
  {
  }

  lemma PushStack(src: Source, w: Walk, w': Walk, d: Digest, children: seq<Digest>)
    requires StackOk(src, w) && w.pending != [] && w.pending[|w.pending| - 1] == Enter(d)
    requires d !in w.seen && d !in w.visiting && children == Children(src, d)
    requires Pushed(w, w', d, children) && w'.visiting == w.visiting + {d} && w'.seen == w.seen
    ensures StackOk(src, w')
  {
    hide Children, Descends;
    var n := |w.pending| - 1;
    forall x | x in w'.visiting
      ensures Exit(x) in w'.pending
    {
      if x in w.visiting {
        var i :| 0 <= i < |w.pending| && w.pending[i] == Exit(x);
        assert i < n && w'.pending[i] == Exit(x);
      } else {
        assert w'.pending[n] == Exit(x);
      }
    }
    forall i, j | 0 <= i < j < |w'.pending| && w'.pending[i].Exit?
      ensures Descends(src, w'.pending[i].digest, w'.pending[j].digest) && w'.pending[j] != w'.pending[i]
    {
      PushDescends(src, w, w', d, children, i, j);
    }
  }

  lemma PushDescends(src: Source, w: Walk, w': Walk, d: Digest, children: seq<Digest>, i: nat, j: nat)
    requires StackOk(src, w) && w.pending != [] && w.pending[|w.pending| - 1] == Enter(d) && d !in w.visiting
    requires children == Children(src, d) && Pushed(w, w', d, children)
    requires i < j < |w'.pending| && w'.pending[i].Exit?
    ensures Descends(src, w'.pending[i].digest, w'.pending[j].digest) && w'.pending[j] != w'.pending[i]
  {
    hide Children, Descends, Reaches;
    var n := |w.pending| - 1;
    if i < n {
      var e := w.pending[i].digest;
      assert Descends(src, e, w.pending[n].digest);
      if j > n {
        DescendsReaches(src, e, d);
        StepFurther(src, e, d, w'.pending[j].digest);
      }
    } else {
      ReachesSelf(src, d);
      StepFurther(src, d, d, w'.pending[j].digest);
    }
  }

  lemma PushChildren(src: Source, w: Walk, w': Walk, d: Digest, children: seq<Digest>)
    requires ChildrenOk(src, w) && w.pending != [] && w.pending[|w.pending| - 1] == Enter(d)
    requires children == Children(src, d) && Pushed(w, w', d, children) && w'.seen == w.seen
    ensures ChildrenOk(src, w')
  {
    hide Children;
    var n := |w.pending| - 1;
    forall i, c | 0 <= i < |w'.pending| && w'.pending[i].Exit? && c in Children(src, w'.pending[i].digest)
      ensures c in w'.seen || Above(w', i, c)
    {
      if i < n {
        if c !in w.seen {
          var j :| i < j < |w.pending| && w.pending[j].digest == c;
          assert w'.pending[j].digest == c;
        }
      } else {
        var k :| 0 <= k < |children| && children[k] == c;
        var j := n + 1 + k;
        assert w'.pending[j].digest == c;
      }
    }
  }

  lemma PushNodes(src: Source, root: Digest, w: Walk, w': Walk, d: Digest, children: seq<Digest>)
    requires NodesOk(src, root, w) && w.pending != [] && w.pending[|w.pending| - 1] == Enter(d)
    requires GoodNode(src, d) && children == Children(src, d)
    requires Pushed(w, w', d, children) && w'.visiting == w.visiting + {d} && w'.seen == w.seen
    ensures NodesOk(src, root, w')
  {
    hide Children, GoodNode, Reaches, Descends;
    var n := |w.pending| - 1;
    assert w.pending[n] in w.pending;
    forall v | v in w'.pending
      ensures Reaches(src, root, v.digest)
    {
      var i :| 0 <= i < |w'.pending| && w'.pending[i] == v;
      if i < n {
        assert w.pending[i] in w.pending;
      } else if i > n {
        StepFurther(src, root, d, v.digest);
      }
    }
    if root !in w'.seen {
      var v :| v in w.pending && v.digest == root;
      var i :| 0 <= i < |w.pending| && w.pending[i] == v;
      assert w'.pending[i].digest == root && w'.pending[i] in w'.pending;
    }
  }

  /** Opening a good directory: its exit, then its children, replace its entry. */
  lemma EnterKeeps(src: Source, root: Digest, w: Walk, w': Walk, order: seq<Digest>, d: Digest, children: seq<Digest>)
    requires WalkOk(src, root, w, order) && w.pending != [] && w.pending[|w.pending| - 1] == Enter(d)
    requires d !in w.seen && d !in w.visiting && GoodNode(src, d) && children == Children(src, d)
    requires w' == Walk(w.pending[..|w.pending| - 1] + [Exit(d)] + Entries(children), w.visiting + {d}, w.seen)
    ensures WalkOk(src, root, w', order)
  {
    hide Children, GoodNode, Reaches, Descends, OrderOk, StackOk, ChildrenOk, NodesOk, Pushed;
    PushShape(w, w', d, children);
    PushStack(src, w, w', d, children);
    PushChildren(src, w, w', d, children);
    PushNodes(src, root, w, w', d, children);
  }

  // ------------------------------------------------------------------------ verdicts

  lemma {:induction false} PathInOrder(src: Source, seen: set<Digest>, order: seq<Digest>, p: seq<Digest>,
                                       i: nat) returns (j: nat)
    requires OrderOk(src, seen, order) && IsPath(src, p) && i < |order| && p[0] == order[i]
    ensures j <= i && j + |p| <= i + 1 && order[j] == p[|p| - 1]
  {
    hide Children;
    if |p| == 1 {
      return i;
    }
    assert p[1] in Children(src, p[0]);
    assert Before(order, i, p[1]);
    var k :| 0 <= k < i && order[k] == p[1];
    var rest := p[1..];
    forall m | 0 <= m < |rest| - 1
      ensures rest[m + 1] in Children(src, rest[m])
    {
      assert p[(m + 1) + 1] in Children(src, p[m + 1]);
    }
    j := PathInOrder(src, seen, order, rest, k);
  }

  /** Good directories listed children first, the root among them, make a good tree. */
  lemma OrderedIsOk(src: Source, root: Digest, seen: set<Digest>, order: seq<Digest>)
    requires OrderOk(src, seen, order) && root in seen && |seen| <= MAX_NODES
    requires forall d :: d in seen ==> GoodNode(src, d)
    ensures TreeOk(src, root)
  {
    hide Children, GoodNode;
    forall d | Reaches(src, root, d)
      ensures d in seen && !Descends(src, d, d)
    {
      var p :| Links(src, p, root, d);
      var i :| 0 <= i < |order| && order[i] == root;
      var j := PathInOrder(src, seen, order, p, i);
      if Descends(src, d, d) {
        var q :| Links(src, q, d, d) && |q| >= 2;
        var k := PathInOrder(src, seen, order, q, j);
      }
    }
    assert Covers(src, root, seen);
  }

  /** A finished walk has seen exactly the reachable graph, and it is acyclic. */
  lemma FinishedIsOk(src: Source, root: Digest, w: Walk, order: seq<Digest>)
    requires WalkOk(src, root, w, order) && w.pending == [] && |w.seen| <= MAX_NODES
    ensures TreeOk(src, root)
  {
    hide GoodNode, Reaches, OrderOk, StackOk, ChildrenOk;
    OrderedIsOk(src, root, w.seen, order);
  }

  /** Meeting an open directory again is a real cycle. */
  lemma RepeatIsCycle(src: Source, root: Digest, w: Walk, order: seq<Digest>, d: Digest)
    requires WalkOk(src, root, w, order) && w.pending != [] && w.pending[|w.pending| - 1] == Enter(d) && d in w.visiting
    ensures Reaches(src, root, d) && Descends(src, d, d) && !TreeOk(src, root)
  {
    hide Children, GoodNode, Reaches, Descends, OrderOk, ChildrenOk;
    var n := |w.pending| - 1;
    var i :| 0 <= i < |w.pending| && w.pending[i] == Exit(d);
    assert Descends(src, w.pending[i].digest, w.pending[n].digest);
  }

  lemma OverfullIsRefused(src: Source, root: Digest, nodes: set<Digest>)
    requires |nodes| > MAX_NODES && forall d :: d in nodes ==> Reaches(src, root, d)
    ensures !TreeOk(src, root)
  {
    hide Reaches, GoodNode, Descends;
    forall cover: set<Digest> | Covers(src, root, cover)
      ensures |cover| > MAX_NODES
    {
      assert nodes <= cover;
      SubsetIsSmaller(nodes, cover);
    }
  }

  lemma SubsetIsSmaller<T>(a: set<T>, b: set<T>)
    requires a <= b
    ensures |a| <= |b|
  {
    assert |b| == |a| + |b - a| by { assert b == a + (b - a); }
  }

  // ---------------------------------------------------------------------- the search

  /** The checks on one directory object, in the order the search makes them. */
  method Inspect(src: Source, d: Digest) returns (r: Result<Directory, TreeError>)
    ensures r.Ok? <==> GoodNode(src, d)
    ensures r.Ok? ==> Parsed(src, d) == Some(r.value)
    ensures r.Err? ==> r.error != Cycle && r.error != GraphTooLarge
  {
    hide EntriesValid, Digest.Valid;
    if d.size > MAX_OBJECT_BYTES {
      return Err(ObjectTooLarge);
    }
    var visible := src.visible(d);
    if visible.ReadFailed? {
      return Err(StoreUnavailable);
    }
    if !visible.value {
      return Err(ObjectMissing);
    }
    var blob := src.fetch(d);
    if blob.ReadFailed? {
      return Err(StoreUnavailable);
    }
    if blob.value.None? {
      return Err(ObjectMissing);
    }
    var parsed := src.parse(blob.value.value);
    if parsed.None? {
      return Err(ObjectInvalid);
    }
    var dir := parsed.value;
    if src.encode(dir) != blob.value.value {
      return Err(NotCanonical);
    }
    if dir.version != 1 {
      return Err(UnsupportedVersion);
    }
    var entries := ValidateDirectoryEntries(dir);
    if entries.Err? {
      return Err(BadEntries(entries.error));
    }
    for i := 0 to |dir.files|
      invariant forall j :: 0 <= j < i ==> FileOk(src, dir.files[j].digest)
    {
      var file := dir.files[i].digest;
      if !file.Valid() {
        return Err(FileDigestInvalid);
      }
      var seen := src.visible(file);
      if seen.ReadFailed? {
        return Err(StoreUnavailable);
      }
      if !seen.value {
        return Err(FileMissing);
      }
    }
    r := Ok(dir);
  }

  /** `validate_tree`. It accepts exactly the graphs that satisfy `TreeOk`; a cycle is reported
      only for a directory that reaches itself; and it stops on every graph, because each new
      directory uses up the node budget and every other turn shortens the stack. */
  method ValidateTree(src: Source, root: Digest) returns (r: Result<(), TreeError>, ghost culprit: Digest)
    ensures r.Ok? <==> TreeOk(src, root)
    ensures r == Err(Cycle) ==> Reaches(src, root, culprit) && Descends(src, culprit, culprit)
    ensures r == Err(GraphTooLarge) ==> forall nodes :: Covers(src, root, nodes) ==> |nodes| > MAX_NODES
    ensures r.Err? && r.error != Cycle && r.error != GraphTooLarge ==>
              Reaches(src, root, culprit) && !GoodNode(src, culprit)
  {
    hide WalkOk, GoodNode, Reaches, Descends, TreeOk, Covers, Children;
    culprit := root;
    var pending, visiting, seen := [Enter(root)], {}, {};
    ghost var order: seq<Digest> := [];
    WalkStarts(src, root);
    while pending != []
      invariant WalkOk(src, root, Walk(pending, visiting, seen), order)
      invariant |seen| + |visiting| <= MAX_NODES
      decreases MAX_NODES - |seen| - |visiting|, |pending|
    {
      ghost var was := Walk(pending, visiting, seen);
      var visit := pending[|pending| - 1];
      pending := pending[..|pending| - 1];
      if visit.Exit? {
        ghost var d := visit.digest;
        ExitKeeps(src, root, was, Walk(pending, visiting - {d}, seen + {d}), order);
        visiting := visiting - {visit.digest};
        seen := seen + {visit.digest};
        order := order + [d];
        continue;
      }
      var digest := visit.digest;
      if digest in seen {
        SkipKeeps(src, root, was, Walk(pending, visiting, seen), order);
        continue;
      }
      culprit := digest;
      TopIsReachable(src, root, was, order);
      if digest in visiting {
        RepeatIsCycle(src, root, was, order, digest);
        return Err(Cycle), culprit;
      }
      visiting := visiting + {digest};
      if |seen| + |visiting| > MAX_NODES {
        FoundTooMany(src, root, was, order, digest);
        return Err(GraphTooLarge), culprit;
      }
      var inspected := Inspect(src, digest);
      if inspected.Err? {
        BadNodeIsRefused(src, root, digest);
        return Err(inspected.error), culprit;
      }
      var dir := inspected.value;
      var children := seq(|dir.directories|, i requires 0 <= i < |dir.directories| => dir.directories[i].digest);
      ChildrenAre(src, digest, dir, children);
      EnterKeeps(src, root, was, Walk(pending + [Exit(digest)] + Entries(children), visiting, seen), order, digest,
          children);
      pending := pending + [Exit(digest)] + Entries(children);
    }
    NothingOpen(src, root, Walk(pending, visiting, seen), order);
    FinishedIsOk(src, root, Walk(pending, visiting, seen), order);
    r := Ok(());
  }

  lemma WalkStarts(src: Source, root: Digest)
    ensures WalkOk(src, root, Walk([Enter(root)], {}, {}), [])
  {
    hide Reaches, GoodNode, Children;
    ReachesSelf(src, root);
    assert [Enter(root)][0] in [Enter(root)];
  }

  lemma TopIsReachable(src: Source, root: Digest, w: Walk, order: seq<Digest>)
    requires WalkOk(src, root, w, order) && w.pending != []
    ensures Reaches(src, root, w.pending[|w.pending| - 1].digest)
  {
    hide Reaches, GoodNode, Children;
    assert w.pending[|w.pending| - 1] in w.pending;
  }

  lemma NothingOpen(src: Source, root: Digest, w: Walk, order: seq<Digest>)
    requires WalkOk(src, root, w, order) && w.pending == []
    ensures w.visiting == {}
  {
  }

  lemma FoundTooMany(src: Source, root: Digest, w: Walk, order: seq<Digest>, d: Digest)
    requires WalkOk(src, root, w, order) && w.pending != [] && w.pending[|w.pending| - 1] == Enter(d)
    requires |w.seen| + |w.visiting + {d}| > MAX_NODES && d !in w.seen
    ensures !TreeOk(src, root) && forall nodes :: Covers(src, root, nodes) ==> |nodes| > MAX_NODES
  {
    hide Reaches, GoodNode, Descends, Children;
    TopIsReachable(src, root, w, order);
    var found := w.seen + (w.visiting + {d});
    assert w.seen !! (w.visiting + {d});
    assert |found| == |w.seen| + |w.visiting + {d}|;
    OverfullIsRefused(src, root, found);
    forall nodes | Covers(src, root, nodes)
      ensures |nodes| > MAX_NODES
    {
      SubsetIsSmaller(found, nodes);
    }
  }

  lemma BadNodeIsRefused(src: Source, root: Digest, d: Digest)
    requires Reaches(src, root, d) && !GoodNode(src, d)
    ensures !TreeOk(src, root)
  {
  }

  lemma ChildrenAre(src: Source, d: Digest, dir: Directory, children: seq<Digest>)
    requires Parsed(src, d) == Some(dir)
    requires |children| == |dir.directories| && forall i :: 0 <= i < |children| ==>
             children[i] == dir.directories[i].digest
    ensures children == Children(src, d)
  {
  }
}
