/** `FilesystemStore::put`: check, stage beside the destination, persist without clobbering. */
module FilesystemStore {
  import opened Digests
  import opened Uploads
  import opened PutIfAbsent

  datatype Progress = Asked | KnownAbsent | Staged(copy: seq<Byte>) | Decided

  datatype Request = Request(digest: Digest, source: seq<Byte>, progress: Progress)

  datatype State = State(files: map<Digest, seq<Byte>>, requests: map<nat, Request>, effects: map<nat, Effect>,
                         returned: set<nat>)

  function View(s: State): Atomic {
    Atomic(s.files, s.effects, s.returned)
  }

  datatype Step =
    | Ask(id: nat, digest: Digest, source: seq<Byte>)
    | CheckExists(id: nat)
    | Stage(id: nat)
    | Persist(id: nat)
    | Report(id: nat)
    | Fail(id: nat)
    | ExpireFile(digest: Digest)

  predicate Init(s: State) {
    s == State(map[], map[], map[], {})
  }

  function Decide(s: State, id: nat, outcome: PutOutcome): State
    requires id in s.requests
  {
    var r := s.requests[id];
    s.(requests := s.requests[id := r.(progress := Decided)], effects := s.effects[id := Effect(r.digest, outcome)])
  }

  predicate Next(s: State, step: Step, s': State) {
    match step
    case Ask(id, d, source) =>
      id !in s.requests && id !in s.effects && s' == s.(requests := s.requests[id := Request(d, source, Asked)])
    case CheckExists(id) =>
      && id in s.requests && s.requests[id].progress == Asked
      && s' == if s.requests[id].digest in s.files then Decide(s, id, AlreadyExists)
               else s.(requests := s.requests[id := s.requests[id].(progress := KnownAbsent)])
    case Stage(id) =>
      && id in s.requests && s.requests[id].progress == KnownAbsent
      && s' == s.(requests := s.requests[id := s.requests[id].(progress := Staged(s.requests[id].source))])
    case Persist(id) =>
      && id in s.requests && s.requests[id].progress.Staged?
      && var r := s.requests[id];
         s' == if r.digest in s.files then Decide(s, id, AlreadyExists)
               else Decide(s.(files := s.files[r.digest := r.progress.copy]), id, Created)
    case Report(id) =>
      && id in s.requests && s.requests[id].progress == Decided
      && s' == s.(requests := s.requests - {id}, returned := s.returned + {id})
    case Fail(id) =>
      s' == s.(requests := s.requests - {id})
    case ExpireFile(d) =>
      s' == s.(files := s.files - {d})
  }

  /** Undecided requests have no effect yet, and decided ones have. */
  ghost predicate Invariant(s: State) {
    && s.returned <= s.effects.Keys
    && forall id :: id in s.requests ==>
         && (s.requests[id].progress == Decided <==> id in s.effects)
         && (id in s.effects ==> s.effects[id].digest == s.requests[id].digest)
         && (s.requests[id].progress.Staged? ==> s.requests[id].progress.copy == s.requests[id].source)
  }

  /** Each step is one atomic operation of the specification, or none. A decision to succeed
      is made only when the object can be read. */
  lemma Refines(s: State, step: Step, s': State) returns (op: Op)
    requires Invariant(s) && Next(s, step, s')
    ensures Allowed(View(s), op, View(s'))
    ensures op.Expire? <==> step.ExpireFile?
    ensures op.Expire? ==> op.digest == step.digest
    ensures op.Put? ==> op.digest in s'.files && op.id in s.requests
    ensures op.Put? ==> op.digest == s.requests[op.id].digest && op.bytes == s.requests[op.id].source
  {
    match step {
      case CheckExists(id) =>
        var r := s.requests[id];
        op := if r.digest in s.files then Put(id, r.digest, r.source) else Nothing;
      case Persist(id) =>
        var r := s.requests[id];
        op := Put(id, r.digest, r.progress.copy);
      case Report(id) => op := Return(id);
      case ExpireFile(d) => op := Expire(d);
      case _ => op := Nothing;
    }
  }

  lemma InvariantKept(s: State, step: Step, s': State)
    requires Invariant(s) && Next(s, step, s')
    ensures Invariant(s')
  {
  }

  ghost predicate IsRun(run: seq<State>, steps: seq<Step>) {
    && |run| == |steps| + 1 && Init(run[0])
    && forall i :: 0 <= i < |steps| ==> Next(run[i], steps[i], run[i + 1])
  }

  lemma {:induction false} RunIsOk(run: seq<State>, steps: seq<Step>, i: nat)
    requires IsRun(run, steps) && i < |run|
    ensures Invariant(run[i])
  {
    hide Next;
    if i > 0 {
      RunIsOk(run, steps, i - 1);
      assert Next(run[i - 1], steps[i - 1], run[(i - 1) + 1]);
      InvariantKept(run[i - 1], steps[i - 1], run[i]);
    }
  }

  lemma {:induction false} Stretch(run: seq<State>, steps: seq<Step>, i: nat, j: nat, d: Digest)
    requires IsRun(run, steps) && i <= j < |run|
    requires forall k :: i <= k < j ==> steps[k] != ExpireFile(d)
    ensures CreatedOnce(View(run[i]), View(run[j]), d)
  {
    hide Next, CreatedOnce, Allowed;
    if i == j {
      CreatedOnceStarts(View(run[i]), d);
    } else {
      Stretch(run, steps, i, j - 1, d);
      RunIsOk(run, steps, j - 1);
      assert Next(run[j - 1], steps[j - 1], run[(j - 1) + 1]);
      var op := Refines(run[j - 1], steps[j - 1], run[j]);
      CreatedOnceKept(View(run[i]), View(run[j - 1]), op, View(run[j]), d);
    }
  }

  /** Over every run of interleaved puts: in any stretch without an expiry of the digest, at
      most one put creates it, and none if it was already there. */
  lemma CreatedAtMostOnce(run: seq<State>, steps: seq<Step>, i: nat, j: nat, d: Digest)
    requires IsRun(run, steps) && i <= j < |run|
    requires forall k :: i <= k < j ==> steps[k] != ExpireFile(d)
    ensures var before, now := Creators(View(run[i]), d), Creators(View(run[j]), d);
            before <= now && |now - before| <= (if d in run[i].files then 0 else 1)
  {
    hide Next, Creators;
    Stretch(run, steps, i, j, d);
    AtMostOne(Creators(View(run[j]), d) - Creators(View(run[i]), d));
  }

  /** Once stored, an object keeps its bytes for as long as it is not expired. */
  lemma NeverReplaced(run: seq<State>, steps: seq<Step>, i: nat, j: nat, d: Digest)
    requires IsRun(run, steps) && i <= j < |run| && d in run[i].files
    requires forall k :: i <= k < j ==> steps[k] != ExpireFile(d)
    ensures d in run[j].files && run[j].files[d] == run[i].files[d]
  {
    hide Next, Creators;
    Stretch(run, steps, i, j, d);
  }

  /** A put is decided only at an instant when its file is there. */
  lemma DecidedIsStored(s: State, step: Step, s': State, id: nat)
    requires Next(s, step, s') && id in s'.requests && s'.requests[id].progress == Decided
    ensures id in s.requests && s'.requests[id].digest == s.requests[id].digest
    ensures s.requests[id].progress == Decided || s.requests[id].digest in s'.files
  {
  }

  lemma {:induction false} DecidedWasStored(run: seq<State>, steps: seq<Step>, j: nat, id: nat) returns (k: nat)
    requires IsRun(run, steps) && j < |run| && id in run[j].requests && run[j].requests[id].progress == Decided
    ensures k <= j && run[j].requests[id].digest in run[k].files
  {
    hide Next;
    assert j > 0 by { assert run[0].requests == map[]; }
    assert Next(run[j - 1], steps[j - 1], run[(j - 1) + 1]);
    DecidedIsStored(run[j - 1], steps[j - 1], run[j], id);
    if run[j - 1].requests[id].progress == Decided {
      k := DecidedWasStored(run, steps, j - 1, id);
    } else {
      k := j;
    }
  }

  lemma ReturnIsReport(s: State, step: Step, s': State, id: nat)
    requires Invariant(s) && Next(s, step, s') && id in s'.returned
    ensures id in s'.effects
    ensures if id in s.returned then s'.effects[id] == s.effects[id]
            else
              && id in s.requests && s.requests[id].progress == Decided
              && s'.effects[id].digest == s.requests[id].digest
  {
  }

  /** Every put that returned had its object in place at an earlier instant, and it is there
      to be read ever since unless it expired. */
  lemma {:induction false} ReturnedWasStored(run: seq<State>, steps: seq<Step>, j: nat, id: nat) returns (k: nat)
    requires IsRun(run, steps) && j < |run| && id in run[j].returned
    ensures k <= j && id in run[j].effects
    ensures var d := run[j].effects[id].digest;
            && d in run[k].files
            && ((forall m :: k <= m < j ==> steps[m] != ExpireFile(d)) ==> d in run[j].files)
  {
    hide Next, Invariant;
    assert j > 0 by { assert run[0].returned == {}; }
    RunIsOk(run, steps, j - 1);
    assert Next(run[j - 1], steps[j - 1], run[(j - 1) + 1]);
    ReturnIsReport(run[j - 1], steps[j - 1], run[j], id);
    if id in run[j - 1].returned {
      k := ReturnedWasStored(run, steps, j - 1, id);
    } else {
      k := DecidedWasStored(run, steps, j - 1, id);
    }
    var d := run[j].effects[id].digest;
    if forall m :: k <= m < j ==> steps[m] != ExpireFile(d) {
      NeverReplaced(run, steps, k, j, d);
    }
  }

  /** Every request in progress was asked for, with its digest and its bytes. */
  lemma {:induction false} RequestWasAsked(run: seq<State>, steps: seq<Step>, j: nat, id: nat) returns (k: nat)
    requires IsRun(run, steps) && j < |run| && id in run[j].requests
    ensures k < j && steps[k] == Ask(id, run[j].requests[id].digest, run[j].requests[id].source)
  {
    hide Next;
    assert j > 0 by { assert run[0].requests == map[]; }
    assert Next(run[j - 1], steps[j - 1], run[(j - 1) + 1]);
    RequestFrom(run[j - 1], steps[j - 1], run[j], id);
    if id in run[j - 1].requests {
      k := RequestWasAsked(run, steps, j - 1, id);
    } else {
      k := j - 1;
    }
  }

  lemma RequestFrom(s: State, step: Step, s': State, id: nat)
    requires Next(s, step, s') && id in s'.requests
    ensures if id in s.requests
            then s'.requests[id].digest == s.requests[id].digest && s'.requests[id].source == s.requests[id].source
            else step == Ask(id, s'.requests[id].digest, s'.requests[id].source)
  {
  }

  /** Whatever is stored is what some client asked to store under that digest. */
  lemma {:induction false} StoredWasAsked(run: seq<State>, steps: seq<Step>, j: nat, d: Digest) returns (k: nat)
    requires IsRun(run, steps) && j < |run| && d in View(run[j]).objects
    ensures k < j && steps[k].Ask? && steps[k].digest == d && steps[k].source == View(run[j]).objects[d]
  {
    hide Next, Invariant, Allowed;
    assert j > 0 by { assert View(run[0]).objects == map[]; }
    RunIsOk(run, steps, j - 1);
    assert Next(run[j - 1], steps[j - 1], run[(j - 1) + 1]);
    var op := Refines(run[j - 1], steps[j - 1], run[j]);
    ObjectFrom(View(run[j - 1]), op, View(run[j]), d);
    if d in View(run[j - 1]).objects && View(run[j]).objects[d] == View(run[j - 1]).objects[d] {
      k := StoredWasAsked(run, steps, j - 1, d);
    } else {
      k := RequestWasAsked(run, steps, j - 1, op.id);
    }
  }

  /** A put that was answered Created stored its own bytes, and they stay until they expire. */
  lemma {:induction false} CreatedLeftItsBytes(run: seq<State>, steps: seq<Step>, j: nat, id: nat)
                                               returns (k: nat, a: nat)
    requires IsRun(run, steps) && j < |run| && id in run[j].effects && run[j].effects[id].outcome == Created
    ensures a < k <= j && steps[a].Ask? && steps[a].id == id && steps[a].digest == run[j].effects[id].digest
    ensures var d := steps[a].digest; d in View(run[k]).objects && View(run[k]).objects[d] == steps[a].source
    ensures var d := steps[a].digest;
            (forall m :: k <= m < j ==> steps[m] != ExpireFile(d)) ==>
              d in View(run[j]).objects && View(run[j]).objects[d] == steps[a].source
  {
    hide Next, Invariant, Allowed, View;
    assert j > 0 by { assert run[0].effects == map[]; }
    RunIsOk(run, steps, j - 1);
    assert Next(run[j - 1], steps[j - 1], run[(j - 1) + 1]);
    var op := Refines(run[j - 1], steps[j - 1], run[j]);
    SameEffects(run[j - 1]);
    SameEffects(run[j]);
    EffectFrom(View(run[j - 1]), op, View(run[j]), id);
    if id in run[j - 1].effects {
      k, a := CreatedLeftItsBytes(run, steps, j - 1, id);
    } else {
      k := j;
      a := RequestWasAsked(run, steps, j - 1, id);
    }
    if forall m :: k <= m < j ==> steps[m] != ExpireFile(steps[a].digest) {
      Stretch(run, steps, k, j, steps[a].digest);
    }
  }

  lemma SameEffects(s: State)
    ensures View(s).effects == s.effects
  {
  }

  /** A put that no one disturbs goes through, and answers as the atomic put does. */
  lemma PutAlone(s: State, id: nat, d: Digest, source: seq<Byte>) returns (run: seq<State>, steps: seq<Step>)
    requires id !in s.requests && id !in s.effects
    ensures |run| == |steps| + 1 && run[0] == s && forall i :: 0 <= i < |steps| ==> Next(run[i], steps[i], run[i + 1])
    ensures var last := run[|run| - 1];
            && id in last.returned && id in last.effects
            && last.effects[id] == Effect(d, if d in s.files then AlreadyExists else Created)
            && last.files == (if d in s.files then s.files else s.files[d := source])
  {
    var r := Request(d, source, Asked);
    var s1 := s.(requests := s.requests[id := r]);
    if d in s.files {
      var s2 := Decide(s1, id, AlreadyExists);
      var s3 := s2.(requests := s2.requests - {id}, returned := s2.returned + {id});
      run, steps := [s, s1, s2, s3], [Ask(id, d, source), CheckExists(id), Report(id)];
    } else {
      var s2 := s1.(requests := s1.requests[id := r.(progress := KnownAbsent)]);
      var s3 := s2.(requests := s2.requests[id := r.(progress := Staged(source))]);
      var s4 := Decide(s3.(files := s3.files[d := source]), id, Created);
      var s5 := s4.(requests := s4.requests - {id}, returned := s4.returned + {id});
      run, steps := [s, s1, s2, s3, s4, s5], [Ask(id, d, source), CheckExists(id), Stage(id), Persist(id), Report(id)];
    }
  }
}
