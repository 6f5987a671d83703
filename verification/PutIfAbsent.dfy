/** The specification both blob stores are held to: an atomic put-if-absent. */
module PutIfAbsent {
  import opened Digests
  import opened Uploads

  /** What a put decided for a digest. */
  datatype Effect = Effect(digest: Digest, outcome: PutOutcome)

  /** Objects, plus the history needed to speak about runs: what each put decided, and which
      puts reported success. */
  datatype Atomic = Atomic(objects: map<Digest, seq<Byte>>, effects: map<nat, Effect>, returned: set<nat>)

  datatype Op =
    | Nothing
    | Put(id: nat, digest: Digest, bytes: seq<Byte>)
    | Return(id: nat)
    | Expire(digest: Digest)

  /** One atomic operation. A put may never return; then the client saw an error. */
  predicate Allowed(a: Atomic, op: Op, a': Atomic) {
    match op
    case Nothing => a' == a
    case Put(id, d, bytes) =>
      && id !in a.effects
      && a' == if d in a.objects then a.(effects := a.effects[id := Effect(d, AlreadyExists)])
               else a.(objects := a.objects[d := bytes], effects := a.effects[id := Effect(d, Created)])
    case Return(id) =>
      id in a.effects && a' == a.(returned := a.returned + {id})
    case Expire(d) =>
      a' == a.(objects := a.objects - {d})
  }

  /** The puts that were told, or would have been told, that they created `d`. */
  function Creators(a: Atomic, d: Digest): set<nat> {
    set id | id in a.effects && a.effects[id] == Effect(d, Created)
  }

  /** What a stretch from `a` to `b` without an expiry of `d` looks like: at most one put
      created `d`, none if it was there already, and it is there if one did. */
  ghost predicate CreatedOnce(a: Atomic, b: Atomic, d: Digest) {
    var before, now := Creators(a, d), Creators(b, d);
    && before <= now
    && (forall x, y :: x in now - before && y in now - before ==> x == y)
    && (d in a.objects ==> now == before && d in b.objects && b.objects[d] == a.objects[d])
    && (now != before ==> d in b.objects)
  }

  lemma CreatedOnceStarts(a: Atomic, d: Digest)
    ensures CreatedOnce(a, a, d)
  {
  }

  /** Any operation but the expiry of `d` extends such a stretch. */
  lemma CreatedOnceKept(a: Atomic, b: Atomic, op: Op, c: Atomic, d: Digest)
    requires CreatedOnce(a, b, d) && Allowed(b, op, c) && op != Expire(d)
    ensures CreatedOnce(a, c, d)
  {
    if op.Put? && op.digest == d && d !in b.objects {
      assert Creators(c, d) == Creators(b, d) + {op.id};
    } else {
      SameCreators(b, op, c, d);
    }
    ContentKept(b, op, c, d);
    hide Allowed, Creators;
  }

  lemma SameCreators(a: Atomic, op: Op, a': Atomic, d: Digest)
    requires Allowed(a, op, a') && !(op.Put? && op.digest == d && d !in a.objects)
    ensures Creators(a', d) == Creators(a, d)
  {
    if op.Put? {
      assert a'.effects == a.effects[op.id := a'.effects[op.id]];
      assert a'.effects[op.id] != Effect(d, Created);
    }
  }

  /** Content is never replaced: until it expires, a stored object keeps its bytes. */
  ghost predicate Preserves(a: Atomic, a': Atomic, d: Digest) {
    d in a.objects ==> d in a'.objects && a'.objects[d] == a.objects[d]
  }

  lemma ContentKept(a: Atomic, op: Op, a': Atomic, d: Digest)
    requires Allowed(a, op, a') && op != Expire(d)
    ensures Preserves(a, a', d)
  {
  }

  /** An object that is there was there before, or has just been put with these bytes. */
  lemma ObjectFrom(a: Atomic, op: Op, a': Atomic, d: Digest)
    requires Allowed(a, op, a') && d in a'.objects
    ensures (d in a.objects && a'.objects[d] == a.objects[d])
            || (op.Put? && op.digest == d && a'.objects[d] == op.bytes)
  {
  }

  /** Decisions are made by puts and never revised; one of Created leaves the put's own bytes. */
  lemma EffectFrom(a: Atomic, op: Op, a': Atomic, id: nat)
    requires Allowed(a, op, a') && id in a'.effects
    ensures id in a.effects ==> a'.effects[id] == a.effects[id]
    ensures id !in a.effects ==> op.Put? && op.id == id && op.digest == a'.effects[id].digest
    ensures id !in a.effects && a'.effects[id].outcome == Created ==>
              op.digest in a'.objects && a'.objects[op.digest] == op.bytes
  {
  }

  lemma AtMostOne(ids: set<nat>)
    requires forall x, y :: x in ids && y in ids ==> x == y
    ensures |ids| <= 1
  {
    if ids != {} {
      var x :| x in ids;
      assert ids == {x};
    }
  }
}
