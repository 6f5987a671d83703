/** `AzureStore::put`: stage under a private key, copy on condition, wait until readable. */
module AzureStore {
  import opened Digests
  import opened Uploads
  import opened PutIfAbsent

  const MAX_POLLS: nat := 120

  /** A destination exists as soon as its copy is accepted, but is readable only once the
      service has finished copying it from the staged upload. */
  datatype Destination = Pending(source: nat, bytes: seq<Byte>) | Committed(bytes: seq<Byte>)

  datatype Progress = Asked | Uploaded | Waiting(polls: nat) | Decided

  datatype Request = Request(digest: Digest, source: seq<Byte>, progress: Progress)

  datatype State = State(blobs: map<Digest, Destination>, uploads: map<nat, seq<Byte>>, requests: map<nat, Request>,
                         effects: map<nat, Effect>, returned: set<nat>)

  function Contents(blobs: map<Digest, Destination>): map<Digest, seq<Byte>> {
    map d | d in blobs :: blobs[d].bytes
  }

  function View(s: State): Atomic {
    Atomic(Contents(s.blobs), s.effects, s.returned)
  }

  datatype Step =
    | Ask(id: nat, digest: Digest, source: seq<Byte>)
    | PutEmpty(id: nat)
    | Upload(id: nat)
    | Copy(id: nat)
    | CopyUnanswered(id: nat)
    | Settle(digest: Digest)
    | Poll(id: nat)
    | Report(id: nat)
    | Fail(id: nat)
    | DropUpload(id: nat)
    | ExpireBlob(digest: Digest)

  predicate Init(s: State) {
    s == State(map[], map[], map[], map[], {})
  }

  function Advance(s: State, id: nat, progress: Progress): State
    requires id in s.requests
  {
    s.(requests := s.requests[id := s.requests[id].(progress := progress)])
  }

  function Decide(s: State, id: nat, outcome: PutOutcome): State
    requires id in s.requests
  {
    s.(effects := s.effects[id := Effect(s.requests[id].digest, outcome)])
  }

  /** The conditional copy: refused when the destination exists, pending otherwise. */
  function Copied(s: State, id: nat): State
    requires id in s.requests
  {
    var r := s.requests[id];
    if r.digest in s.blobs then Decide(s, id, AlreadyExists).(uploads := s.uploads - {id})
    else Decide(s, id, Created).(blobs := s.blobs[r.digest := Pending(id, r.source)])
  }

  predicate Next(s: State, step: Step, s': State) {
    match step
    case Ask(id, d, source) =>
      && id !in s.requests && id !in s.effects && id !in s.uploads && |source| == d.size
      && s' == s.(requests := s.requests[id := Request(d, source, Asked)])
    case PutEmpty(id) =>
      && id in s.requests && s.requests[id].progress == Asked && s.requests[id].digest.size == 0
      && var r := s.requests[id];
         s' == if r.digest in s.blobs then Advance(Decide(s, id, AlreadyExists), id, Decided)
               else Advance(Decide(s, id, Created).(blobs := s.blobs[r.digest := Committed([])]), id, Decided)
    case Upload(id) =>
      && id in s.requests && s.requests[id].progress == Asked && s.requests[id].digest.size > 0
      && s' == Advance(s, id, Uploaded).(uploads := s.uploads[id := s.requests[id].source])
    case Copy(id) =>
      && id in s.requests && s.requests[id].progress == Uploaded && id in s.uploads
      && s' == Advance(Copied(s, id), id, Waiting(0))
    case CopyUnanswered(id) =>
      // The copy took effect but its answer was an error, so the upload is deleted.
      && id in s.requests && s.requests[id].progress == Uploaded && id in s.uploads
      && var t := Copied(s, id);
         s' == t.(requests := t.requests - {id}, uploads := t.uploads - {id})
    case Settle(d) =>
      && d in s.blobs && s.blobs[d].Pending? && s.blobs[d].source in s.uploads
      && s' == s.(blobs := s.blobs[d := Committed(s.uploads[s.blobs[d].source])])
    case Poll(id) =>
      && id in s.requests && s.requests[id].progress.Waiting? && s.requests[id].progress.polls < MAX_POLLS
      && var r := s.requests[id];
         s' == if r.digest in s.blobs && s.blobs[r.digest].Committed? then Advance(s, id, Decided)
               else Advance(s, id, Waiting(r.progress.polls + 1))
    case Report(id) =>
      && id in s.requests && s.requests[id].progress == Decided
      && s' == s.(requests := s.requests - {id}, returned := s.returned + {id})
    case Fail(id) =>
      s' == s.(requests := s.requests - {id})
    case DropUpload(id) =>
      s' == s.(uploads := s.uploads - {id})
    case ExpireBlob(d) =>
      s' == s.(blobs := s.blobs - {d})
  }

  ghost predicate RequestOk(s: State, id: nat) {
    && id in s.requests
    && var r := s.requests[id];
       && |r.source| == r.digest.size
       && ((r.progress == Asked || r.progress == Uploaded) <==> id !in s.effects)
       && (id in s.effects ==> s.effects[id].digest == r.digest)
       && (r.progress == Uploaded ==> r.digest.size > 0)
       && (id in s.uploads ==> s.uploads[id] == r.source)
  }

  ghost predicate RequestsOk(s: State) {
    forall id :: id in s.requests ==> RequestOk(s, id)
  }

  /** A pending destination's upload, while it is still there, is what was promised. */
  ghost predicate BlobOk(s: State, d: Digest) {
    d in s.blobs && s.blobs[d].Pending? ==>
      && d.size > 0 && s.blobs[d].source in s.effects
      && (s.blobs[d].source in s.uploads ==> s.uploads[s.blobs[d].source] == s.blobs[d].bytes)
  }

  ghost predicate Invariant(s: State) {
    s.returned <= s.effects.Keys && RequestsOk(s) && forall d :: d in s.blobs ==> BlobOk(s, d)
  }

  lemma ContentsPut(blobs: map<Digest, Destination>, d: Digest, x: Destination)
    ensures Contents(blobs[d := x]) == Contents(blobs)[d := x.bytes]
  {
  }

  lemma ContentsExpire(blobs: map<Digest, Destination>, d: Digest)
    ensures Contents(blobs - {d}) == Contents(blobs) - {d}
  {
  }

  /** The conditional copy takes effect as one atomic put, answered or not. */
  lemma CopyIsPut(s: State, id: nat, s': State)
    requires RequestsOk(s) && id in s.requests && s.requests[id].progress == Uploaded
    requires var t := Copied(s, id);
             s'.blobs == t.blobs && s'.effects == t.effects && s'.returned == t.returned
    ensures Allowed(View(s), Put(id, s.requests[id].digest, s.requests[id].source), View(s'))
  {
    var r := s.requests[id];
    assert RequestOk(s, id);
    ContentsPut(s.blobs, r.digest, Pending(id, r.source));
  }

  lemma EmptyIsPut(s: State, id: nat, s': State)
    requires RequestsOk(s) && Next(s, PutEmpty(id), s')
    ensures Allowed(View(s), Put(id, s.requests[id].digest, []), View(s'))
  {
    assert RequestOk(s, id);
    ContentsPut(s.blobs, s.requests[id].digest, Committed([]));
  }

  lemma SettleIsInvisible(s: State, d: Digest, s': State)
    requires Invariant(s) && Next(s, Settle(d), s')
    ensures View(s') == View(s)
  {
    hide RequestsOk;
    assert BlobOk(s, d);
    ContentsPut(s.blobs, d, s'.blobs[d]);
    assert Contents(s.blobs)[d := s.blobs[d].bytes] == Contents(s.blobs);
  }

  /** Each step is one atomic operation of the specification, or none. */
  lemma Refines(s: State, step: Step, s': State) returns (op: Op)
    requires Invariant(s) && Next(s, step, s')
    ensures Allowed(View(s), op, View(s'))
    ensures op.Expire? <==> step.ExpireBlob?
    ensures op.Expire? ==> op.digest == step.digest
    ensures op.Put? ==> op.id in s.requests
    ensures op.Put? ==> op.digest == s.requests[op.id].digest && op.bytes == s.requests[op.id].source
  {
    hide BlobOk, RequestsOk;
    op := Nothing;
    match step {
      case PutEmpty(id) =>
        op := Put(id, s.requests[id].digest, []);
        EmptyIsPut(s, id, s');
        TheirRequestOk(s, id);
      case Copy(id) =>
        op := Put(id, s.requests[id].digest, s.requests[id].source);
        CopyIsPut(s, id, s');
      case CopyUnanswered(id) =>
        op := Put(id, s.requests[id].digest, s.requests[id].source);
        CopyIsPut(s, id, s');
      case Settle(d) =>
        SettleIsInvisible(s, d, s');
      case Report(id) =>
        TheirRequestOk(s, id);
        op := Return(id);
      case ExpireBlob(d) =>
        ContentsExpire(s.blobs, d);
        op := Expire(d);
      case _ =>
    }
  }

  /** A step touches its own request, effect and upload, and no other client's. */
  ghost predicate Private(s: State, s': State, id: nat) {
    forall other :: other != id ==>
      && (other in s'.requests ==> other in s.requests && s'.requests[other] == s.requests[other])
      && (other in s'.effects <==> other in s.effects)
      && (other in s.effects ==> s'.effects[other] == s.effects[other])
      && (other in s'.uploads ==> other in s.uploads && s'.uploads[other] == s.uploads[other])
  }

  predicate ByService(step: Step) {
    step.Settle? || step.ExpireBlob?
  }

  lemma StepIsPrivate(s: State, step: Step, s': State)
    requires Next(s, step, s')
    ensures ByService(step) ==> s'.requests == s.requests && s'.effects == s.effects && s'.uploads == s.uploads
    ensures !ByService(step) ==> Private(s, s', step.id)
  {
    hide Next, Private;
    match step {
      case PutEmpty(id) => PutEmptyIsPrivate(s, id, s');
      case Upload(id) => UploadIsPrivate(s, id, s');
      case Copy(id) => CopyIsPrivate(s, step, s');
      case CopyUnanswered(id) => CopyIsPrivate(s, step, s');
      case _ => OtherIsPrivate(s, step, s');
    }
  }

  lemma PutEmptyIsPrivate(s: State, id: nat, s': State)
    requires Next(s, PutEmpty(id), s')
    ensures Private(s, s', id)
  {
  }

  lemma UploadIsPrivate(s: State, id: nat, s': State)
    requires Next(s, Upload(id), s')
    ensures Private(s, s', id)
  {
  }

  lemma CopyIsPrivate(s: State, step: Step, s': State)
    requires (step.Copy? || step.CopyUnanswered?) && Next(s, step, s')
    ensures Private(s, s', step.id)
  {
  }

  lemma OtherIsPrivate(s: State, step: Step, s': State)
    requires !(step.PutEmpty? || step.Upload? || step.Copy? || step.CopyUnanswered?) && Next(s, step, s')
    ensures ByService(step) ==> s'.requests == s.requests && s'.effects == s.effects && s'.uploads == s.uploads
    ensures !ByService(step) ==> Private(s, s', step.id)
  {
    hide View;
  }

  lemma OwnRequestOk(s: State, step: Step, s': State)
    requires Next(s, step, s') && !ByService(step) && (step.id in s.requests ==> RequestOk(s, step.id))
    ensures step.id in s'.requests ==> RequestOk(s', step.id)
  {
    hide View;
  }

  lemma RequestsKept(s: State, step: Step, s': State)
    requires RequestsOk(s) && Next(s, step, s')
    ensures RequestsOk(s')
  {
    hide Next;
    StepIsPrivate(s, step, s');
    if !ByService(step) {
      OwnRequestOk(s, step, s');
    }
    forall id | id in s'.requests
      ensures RequestOk(s', id)
    {
      assert id in s.requests ==> RequestOk(s, id);
    }
  }

  lemma CopyMakesPending(s: State, step: Step, s': State, d: Digest)
    requires (step.Copy? || step.CopyUnanswered?) && RequestOk(s, step.id) && Next(s, step, s')
    requires d in s'.blobs && s'.blobs[d].Pending? && !(d in s.blobs && s'.blobs[d] == s.blobs[d])
    ensures step.id in s'.effects && d.size > 0 && s'.blobs[d].source == step.id
    ensures step.id in s'.uploads ==> s'.uploads[step.id] == s'.blobs[d].bytes
  {
  }

  lemma OnlyCopyMakesPending(s: State, step: Step, s': State, d: Digest)
    requires !(step.Copy? || step.CopyUnanswered?) && Next(s, step, s') && d in s'.blobs && s'.blobs[d].Pending?
    ensures d in s.blobs && s'.blobs[d] == s.blobs[d]
  {
    hide View;
  }

  lemma UploadsOfEffectsKept(s: State, step: Step, s': State, id: nat)
    requires RequestsOk(s) && Next(s, step, s') && id in s.effects
    ensures id in s'.effects && (id in s'.uploads ==> id in s.uploads && s'.uploads[id] == s.uploads[id])
  {
    hide View, RequestsOk;
    if !ByService(step) && step.id in s.requests {
      assert RequestOk(s, step.id) by { assert RequestsOk(s); TheirRequestOk(s, step.id); }
    }
  }

  lemma TheirRequestOk(s: State, id: nat)
    requires RequestsOk(s) && id in s.requests
    ensures RequestOk(s, id)
  {
  }

  lemma CopyFromRequest(s: State, step: Step, s': State)
    requires RequestsOk(s) && (step.Copy? || step.CopyUnanswered?) && Next(s, step, s')
    ensures RequestOk(s, step.id)
  {
  }

  lemma BlobKept(s: State, step: Step, s': State, d: Digest)
    requires RequestsOk(s) && Next(s, step, s') && BlobOk(s, d)
    ensures BlobOk(s', d)
  {
    hide Next;
    if d in s'.blobs && s'.blobs[d].Pending? {
      if d in s.blobs && s.blobs[d] == s'.blobs[d] {
        UploadsOfEffectsKept(s, step, s', s.blobs[d].source);
      } else if step.Copy? || step.CopyUnanswered? {
        CopyFromRequest(s, step, s');
        CopyMakesPending(s, step, s', d);
      } else {
        OnlyCopyMakesPending(s, step, s', d);
      }
    }
  }

  lemma InvariantKept(s: State, step: Step, s': State)
    requires Invariant(s) && Next(s, step, s')
    ensures Invariant(s')
  {
    hide Next, BlobOk, RequestsOk;
    ReturnedKept(s, step, s');
    RequestsKept(s, step, s');
    forall d | d in s'.blobs
      ensures BlobOk(s', d)
    {
      if d !in s.blobs {
        assert BlobOk(s, d) by { AbsentIsOk(s, d); }
      }
      BlobKept(s, step, s', d);
    }
  }

  lemma AbsentIsOk(s: State, d: Digest)
    requires d !in s.blobs
    ensures BlobOk(s, d)
  {
  }

  ghost predicate IsRun(run: seq<State>, steps: seq<Step>) {
    && |run| == |steps| + 1 && Init(run[0])
    && forall i :: 0 <= i < |steps| ==> Next(run[i], steps[i], run[i + 1])
  }

  lemma {:induction false} RunIsOk(run: seq<State>, steps: seq<Step>, i: nat)
    requires IsRun(run, steps) && i < |run|
    ensures Invariant(run[i])
  {
    hide Next, RequestOk, BlobOk;
    if i > 0 {
      RunIsOk(run, steps, i - 1);
      assert Next(run[i - 1], steps[i - 1], run[(i - 1) + 1]);
      InvariantKept(run[i - 1], steps[i - 1], run[i]);
    }
  }

  lemma {:induction false} Stretch(run: seq<State>, steps: seq<Step>, i: nat, j: nat, d: Digest)
    requires IsRun(run, steps) && i <= j < |run|
    requires forall k :: i <= k < j ==> steps[k] != ExpireBlob(d)
    ensures CreatedOnce(View(run[i]), View(run[j]), d)
  {
    hide Next, CreatedOnce, Allowed, View, Invariant;
    if i == j {
      CreatedOnceStarts(View(run[i]), d);
    } else {
      Stretch(run, steps, i, j - 1, d);
      RunIsOk(run, steps, j - 1);
      assert Next(run[j - 1], steps[j - 1], run[(j - 1) + 1]);
      var op := Refines(run[j - 1], steps[j - 1], run[j]);
      CreatedOnceKept(View(run[i]), View(run[j - 1]), op, View(run[j]), d);
    }
  }

  /** Over every run of interleaved puts: in any stretch without an expiry of the digest, at
      most one put creates it, and none if it was already there. */
  lemma CreatedAtMostOnce(run: seq<State>, steps: seq<Step>, i: nat, j: nat, d: Digest)
    requires IsRun(run, steps) && i <= j < |run|
    requires forall k :: i <= k < j ==> steps[k] != ExpireBlob(d)
    ensures var before, now := Creators(View(run[i]), d), Creators(View(run[j]), d);
            before <= now && |now - before| <= (if d in run[i].blobs then 0 else 1)
  {
    hide Next, Creators;
    Stretch(run, steps, i, j, d);
    AtMostOne(Creators(View(run[j]), d) - Creators(View(run[i]), d));
  }

  /** A request succeeds only while its object can be read back. */
  lemma SuccessMeansReadable(s: State, step: Step, s': State, id: nat)
    requires Invariant(s) && Next(s, step, s') && id in s.requests && id in s'.requests
    requires s.requests[id].progress != Decided && s'.requests[id].progress == Decided
    ensures var d := s.requests[id].digest;
            d in s'.blobs && s'.blobs[d].Committed?
  {
    hide View, RequestsOk;
    var d := s.requests[id].digest;
    if step == PutEmpty(id) && d in s.blobs {
      assert BlobOk(s, d);
    }
  }

  /** Accepted content is never replaced; settling a copy does not change what it holds. */
  lemma NeverReplaced(run: seq<State>, steps: seq<Step>, i: nat, j: nat, d: Digest)
    requires IsRun(run, steps) && i <= j < |run| && d in run[i].blobs
    requires forall k :: i <= k < j ==> steps[k] != ExpireBlob(d)
    ensures d in run[j].blobs && run[j].blobs[d].bytes == run[i].blobs[d].bytes
  {
    hide Next, Creators;
    Stretch(run, steps, i, j, d);
  }

  predicate Readable(s: State, d: Digest) {
    d in s.blobs && s.blobs[d].Committed?
  }

  lemma ReadableKept(s: State, step: Step, s': State, d: Digest)
    requires Next(s, step, s') && Readable(s, d) && step != ExpireBlob(d)
    ensures Readable(s', d)
  {
    hide View;
  }

  lemma {:induction false} StaysReadable(run: seq<State>, steps: seq<Step>, i: nat, j: nat, d: Digest)
    requires IsRun(run, steps) && i <= j < |run| && Readable(run[i], d)
    requires forall k :: i <= k < j ==> steps[k] != ExpireBlob(d)
    ensures Readable(run[j], d)
  {
    hide Next, Readable;
    if i < j {
      StaysReadable(run, steps, i, j - 1, d);
      assert Next(run[j - 1], steps[j - 1], run[(j - 1) + 1]);
      ReadableKept(run[j - 1], steps[j - 1], run[j], d);
    }
  }

  lemma DecidedBefore(s: State, step: Step, s': State, id: nat)
    requires Next(s, step, s') && id in s'.requests && s'.requests[id].progress == Decided
    ensures id in s.requests && s'.requests[id].digest == s.requests[id].digest
  {
    hide View;
  }

  lemma {:induction false} DecidedWasReadable(run: seq<State>, steps: seq<Step>, j: nat, id: nat) returns (k: nat)
    requires IsRun(run, steps) && j < |run| && id in run[j].requests && run[j].requests[id].progress == Decided
    ensures k <= j && Readable(run[k], run[j].requests[id].digest)
  {
    hide Next, Invariant;
    assert j > 0 by { assert run[0].requests == map[]; }
    assert Next(run[j - 1], steps[j - 1], run[(j - 1) + 1]);
    DecidedBefore(run[j - 1], steps[j - 1], run[j], id);
    if run[j - 1].requests[id].progress == Decided {
      k := DecidedWasReadable(run, steps, j - 1, id);
    } else {
      RunIsOk(run, steps, j - 1);
      SuccessMeansReadable(run[j - 1], steps[j - 1], run[j], id);
      k := j;
    }
  }

  lemma ReturnedKept(s: State, step: Step, s': State)
    requires Invariant(s) && Next(s, step, s')
    ensures s'.returned <= s'.effects.Keys
    ensures forall id :: id in s'.returned && id in s.returned ==> id in s.effects && s'.effects[id] == s.effects[id]
    ensures forall id :: id in s'.returned && id !in s.returned ==>
              && id in s.requests && s.requests[id].progress == Decided
              && s'.effects[id].digest == s.requests[id].digest
  {
    hide View, RequestsOk, BlobOk;
    if !ByService(step) && step.id in s.requests {
      TheirRequestOk(s, step.id);
    }
  }

  /** Every put that returned had its object committed at an earlier instant, and the object
      has been readable ever since unless it expired. */
  lemma {:induction false} ReturnedWasReadable(run: seq<State>, steps: seq<Step>, j: nat, id: nat) returns (k: nat)
    requires IsRun(run, steps) && j < |run| && id in run[j].returned
    ensures k <= j && id in run[j].effects
    ensures var d := run[j].effects[id].digest;
            && Readable(run[k], d)
            && ((forall m :: k <= m < j ==> steps[m] != ExpireBlob(d)) ==> Readable(run[j], d))
  {
    hide Next, Invariant, Readable;
    assert j > 0 by { assert run[0].returned == {}; }
    RunIsOk(run, steps, j - 1);
    assert Next(run[j - 1], steps[j - 1], run[(j - 1) + 1]);
    ReturnedKept(run[j - 1], steps[j - 1], run[j]);
    if id in run[j - 1].returned {
      k := ReturnedWasReadable(run, steps, j - 1, id);
    } else {
      k := DecidedWasReadable(run, steps, j - 1, id);
    }
    var d := run[j].effects[id].digest;
    if forall m :: k <= m < j ==> steps[m] != ExpireBlob(d) {
      StaysReadable(run, steps, k, j, d);
    }
  }

  /** Every request in progress was asked for, with its digest and its bytes. */
  lemma {:induction false} RequestWasAsked(run: seq<State>, steps: seq<Step>, j: nat, id: nat) returns (k: nat)
    requires IsRun(run, steps) && j < |run| && id in run[j].requests
    ensures k < j && steps[k] == Ask(id, run[j].requests[id].digest, run[j].requests[id].source)
  {
    hide Next;
    assert j > 0 by { assert run[0].requests == map[]; }
    assert Next(run[j - 1], steps[j - 1], run[(j - 1) + 1]);
    RequestFrom(run[j - 1], steps[j - 1], run[j], id);
    if id in run[j - 1].requests {
      k := RequestWasAsked(run, steps, j - 1, id);
    } else {
      k := j - 1;
    }
  }

  lemma RequestFrom(s: State, step: Step, s': State, id: nat)
    requires Next(s, step, s') && id in s'.requests
    ensures if id in s.requests
            then s'.requests[id].digest == s.requests[id].digest && s'.requests[id].source == s.requests[id].source
            else step == Ask(id, s'.requests[id].digest, s'.requests[id].source)
  {
    hide View;
  }

  /** Whatever is stored is what some client asked to store under that digest. */
  lemma {:induction false} StoredWasAsked(run: seq<State>, steps: seq<Step>, j: nat, d: Digest) returns (k: nat)
    requires IsRun(run, steps) && j < |run| && d in View(run[j]).objects
    ensures k < j && steps[k].Ask? && steps[k].digest == d && steps[k].source == View(run[j]).objects[d]
  {
    hide Next, Invariant, Allowed;
    assert j > 0 by { assert View(run[0]).objects == map[]; }
    RunIsOk(run, steps, j - 1);
    assert Next(run[j - 1], steps[j - 1], run[(j - 1) + 1]);
    var op := Refines(run[j - 1], steps[j - 1], run[j]);
    ObjectFrom(View(run[j - 1]), op, View(run[j]), d);
    if d in View(run[j - 1]).objects && View(run[j]).objects[d] == View(run[j - 1]).objects[d] {
      k := StoredWasAsked(run, steps, j - 1, d);
    } else {
      k := RequestWasAsked(run, steps, j - 1, op.id);
    }
  }

  /** A put that was answered Created stored its own bytes, and they stay until they expire. */
  lemma {:induction false} CreatedLeftItsBytes(run: seq<State>, steps: seq<Step>, j: nat, id: nat)
                                               returns (k: nat, a: nat)
    requires IsRun(run, steps) && j < |run| && id in run[j].effects && run[j].effects[id].outcome == Created
    ensures a < k <= j && steps[a].Ask? && steps[a].id == id && steps[a].digest == run[j].effects[id].digest
    ensures var d := steps[a].digest; d in View(run[k]).objects && View(run[k]).objects[d] == steps[a].source
    ensures var d := steps[a].digest;
            (forall m :: k <= m < j ==> steps[m] != ExpireBlob(d)) ==>
              d in View(run[j]).objects && View(run[j]).objects[d] == steps[a].source
  {
    hide Next, Invariant, Allowed, View;
    assert j > 0 by { assert run[0].effects == map[]; }
    RunIsOk(run, steps, j - 1);
    assert Next(run[j - 1], steps[j - 1], run[(j - 1) + 1]);
    var op := Refines(run[j - 1], steps[j - 1], run[j]);
    SameEffects(run[j - 1]);
    SameEffects(run[j]);
    EffectFrom(View(run[j - 1]), op, View(run[j]), id);
    if id in run[j - 1].effects {
      k, a := CreatedLeftItsBytes(run, steps, j - 1, id);
    } else {
      k := j;
      a := RequestWasAsked(run, steps, j - 1, id);
    }
    if forall m :: k <= m < j ==> steps[m] != ExpireBlob(steps[a].digest) {
      Stretch(run, steps, k, j, steps[a].digest);
    }
  }

  lemma SameEffects(s: State)
    ensures View(s).effects == s.effects
  {
  }

  /** A put that no one disturbs goes through, and answers as the atomic put does. */
  lemma PutAlone(s: State, id: nat, d: Digest, source: seq<Byte>) returns (run: seq<State>, steps: seq<Step>)
    requires id !in s.requests && id !in s.effects && id !in s.uploads && |source| == d.size
    requires d in s.blobs ==> s.blobs[d].Committed?
    ensures |run| == |steps| + 1 && run[0] == s && forall i :: 0 <= i < |steps| ==> Next(run[i], steps[i], run[i + 1])
    ensures var last := run[|run| - 1];
            && id in last.returned && id in last.effects
            && last.effects[id] == Effect(d, if d in s.blobs then AlreadyExists else Created)
            && last.blobs == (if d in s.blobs then s.blobs else s.blobs[d := Committed(source)])
  {
    if d.size == 0 {
      run, steps := PutEmptyAlone(s, id, d);
      assert source == [];
    } else {
      run, steps := PutCopyAlone(s, id, d, source);
    }
  }

  lemma PutEmptyAlone(s: State, id: nat, d: Digest) returns (run: seq<State>, steps: seq<Step>)
    requires id !in s.requests && id !in s.effects && id !in s.uploads && d.size == 0
    ensures |run| == |steps| + 1 && run[0] == s && forall i :: 0 <= i < |steps| ==> Next(run[i], steps[i], run[i + 1])
    ensures var last := run[|run| - 1];
            && id in last.returned && id in last.effects
            && last.effects[id] == Effect(d, if d in s.blobs then AlreadyExists else Created)
            && last.blobs == (if d in s.blobs then s.blobs else s.blobs[d := Committed([])])
  {
    var s1 := s.(requests := s.requests[id := Request(d, [], Asked)]);
    var s2 := if d in s.blobs then Advance(Decide(s1, id, AlreadyExists), id, Decided)
              else Advance(Decide(s1, id, Created).(blobs := s1.blobs[d := Committed([])]), id, Decided);
    run, steps := [s, s1, s2, Reported(s2, id)], [Ask(id, d, []), PutEmpty(id), Report(id)];
  }

  lemma PutCopyAlone(s: State, id: nat, d: Digest, source: seq<Byte>) returns (run: seq<State>, steps: seq<Step>)
    requires id !in s.requests && id !in s.effects && id !in s.uploads && |source| == d.size > 0
    requires d in s.blobs ==> s.blobs[d].Committed?
    ensures |run| == |steps| + 1 && run[0] == s && forall i :: 0 <= i < |steps| ==> Next(run[i], steps[i], run[i + 1])
    ensures var last := run[|run| - 1];
            && id in last.returned && id in last.effects
            && last.effects[id] == Effect(d, if d in s.blobs then AlreadyExists else Created)
            && last.blobs == (if d in s.blobs then s.blobs else s.blobs[d := Committed(source)])
  {
    hide Next;
    var s1 := s.(requests := s.requests[id := Request(d, source, Asked)]);
    var s2 := Advance(s1, id, Uploaded).(uploads := s1.uploads[id := source]);
    var s3 := Advance(Copied(s2, id), id, Waiting(0));
    CopyAlone(s, s1, s2, s3, id, d, source);
    if d in s.blobs {
      var s4 := Advance(s3, id, Decided);
      PollAlone(s3, s4, id, d);
      run, steps := [s, s1, s2, s3, s4, Reported(s4, id)],
                    [Ask(id, d, source), Upload(id), Copy(id), Poll(id), Report(id)];
    } else {
      var s4 := s3.(blobs := s3.blobs[d := Committed(source)]);
      SettleAlone(s3, s4, id, d);
      var s5 := Advance(s4, id, Decided);
      PollAlone(s4, s5, id, d);
      run, steps := [s, s1, s2, s3, s4, s5, Reported(s5, id)],
                    [Ask(id, d, source), Upload(id), Copy(id), Settle(d), Poll(id), Report(id)];
    }
  }

  lemma SettleAlone(s: State, s': State, id: nat, d: Digest)
    requires id in s.uploads && d in s.blobs && s.blobs[d] == Pending(id, s.uploads[id])
    requires s' == s.(blobs := s.blobs[d := Committed(s.uploads[id])])
    ensures Next(s, Settle(d), s')
  {
  }

  lemma PollAlone(s: State, s': State, id: nat, d: Digest)
    requires id in s.requests && s.requests[id].digest == d && s.requests[id].progress == Waiting(0)
    requires d in s.blobs && s.blobs[d].Committed? && s' == Advance(s, id, Decided)
    ensures Next(s, Poll(id), s') && Next(s', Report(id), Reported(s', id))
  {
  }

  function Reported(s: State, id: nat): State {
    s.(requests := s.requests - {id}, returned := s.returned + {id})
  }

  lemma CopyAlone(s: State, s1: State, s2: State, s3: State, id: nat, d: Digest, source: seq<Byte>)
    requires id !in s.requests && id !in s.effects && id !in s.uploads && |source| == d.size > 0
    requires s1 == s.(requests := s.requests[id := Request(d, source, Asked)])
    requires s2 == Advance(s1, id, Uploaded).(uploads := s1.uploads[id := source])
    requires s3 == Advance(Copied(s2, id), id, Waiting(0))
    ensures Next(s, Ask(id, d, source), s1) && Next(s1, Upload(id), s2) && Next(s2, Copy(id), s3)
    ensures id in s3.effects && s3.effects[id] == Effect(d, if d in s.blobs then AlreadyExists else Created)
    ensures s3.requests[id] == Request(d, source, Waiting(0))
    ensures d in s.blobs ==> s3.blobs == s.blobs
    ensures d !in s.blobs ==>
              && id in s3.uploads && s3.uploads[id] == source
              && s3.blobs == s.blobs[d := Pending(id, source)]
  {
  }
}
