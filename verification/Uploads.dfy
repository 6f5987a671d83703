/**
 The two upload handlers over one blob store and one visibility table.

 Hashing is a parameter of the service: nothing is assumed about it. The store and the table
 may fail at any call, and a failed call may still have taken effect.
 */
module Uploads {
  import opened Wrappers
  import opened Digests

  const MAX_BATCH_ITEMS: nat := 10000

  type Hasher = (Algorithm, seq<Byte>) -> string

  /** The bytes are exactly what the digest names. */
  predicate Authentic(hasher: Hasher, digest: Digest, bytes: seq<Byte>) {
    digest.Valid() && |bytes| == digest.size && hasher(digest.Kind().value, bytes) == digest.hash
  }

  datatype PutOutcome = Created | AlreadyExists

  /** One item of a request body: data, or the transport breaking off. */
  datatype Chunk = Data(bytes: seq<Byte>) | Broken

  /** The whole body, when all of it arrived. */
  function Body(chunks: seq<Chunk>): Option<seq<Byte>> {
    if chunks == [] then Some([])
    else
      var before, last := Body(chunks[..|chunks| - 1]), chunks[|chunks| - 1];
      if before.None? || last.Broken? then None else Some(before.value + last.bytes)
  }

  lemma {:induction false} BodyPrefix(chunks: seq<Chunk>, i: nat)
    requires i <= |chunks| && Body(chunks).Some?
    ensures Body(chunks[..i]).Some? && Body(chunks[..i]).value <= Body(chunks).value
  {
    if i == |chunks| {
      assert chunks[..i] == chunks;
    } else {
      var init := chunks[..|chunks| - 1];
      BodyPrefix(init, i);
      assert init[..i] == chunks[..i];
    }
  }

  lemma BodyNext(chunks: seq<Chunk>, i: nat)
    requires i < |chunks|
    ensures Body(chunks[..i + 1]) ==
            if Body(chunks[..i]).None? || chunks[i].Broken? then None
            else Some(Body(chunks[..i]).value + chunks[i].bytes)
  {
    assert chunks[..i + 1][..i] == chunks[..i];
  }

  /** Everything visible is stored, and everything stored is what its digest says. */
  ghost predicate SoundStore(hasher: Hasher, objects: map<Digest, seq<Byte>>, rows: set<(string, Digest)>) {
    && (forall d :: d in objects ==> Authentic(hasher, d, objects[d]))
    && (forall row :: row in rows ==> row.1 in objects)
  }

  /** Nothing stored is lost or replaced, and nothing but `digest` is added. */
  ghost predicate OnlyAdds(was: map<Digest, seq<Byte>>, now: map<Digest, seq<Byte>>, digest: Digest, bytes: seq<Byte>) {
    now == was || (digest !in was && now == was[digest := bytes])
  }

  lemma SoundAfterPut(hasher: Hasher, was: map<Digest, seq<Byte>>, now: map<Digest, seq<Byte>>,
                      rows: set<(string, Digest)>, digest: Digest, bytes: seq<Byte>)
    requires SoundStore(hasher, was, rows) && Authentic(hasher, digest, bytes) && OnlyAdds(was, now, digest, bytes)
    ensures SoundStore(hasher, now, rows)
  {
    hide Authentic;
  }

  lemma SoundAfterRegister(hasher: Hasher, objects: map<Digest, seq<Byte>>, was: set<(string, Digest)>,
                           now: set<(string, Digest)>, namespace: string, digest: Digest)
    requires SoundStore(hasher, objects, was) && digest in objects
    requires now == was || now == was + {(namespace, digest)}
    ensures SoundStore(hasher, objects, now)
  {
    hide Authentic;
  }

  class BlobService {
    const hasher: Hasher
    var objects: map<Digest, seq<Byte>>
    var rows: set<(string, Digest)>

    ghost predicate Sound()
      reads this
    {
      SoundStore(hasher, objects, rows)
    }

    /** Put-if-absent; an error says nothing about whether the object was stored. */
    method Put(digest: Digest, source: seq<Byte>) returns (r: Option<PutOutcome>)
      modifies this`objects
      ensures r.Some? ==> digest in objects && (r.value.Created? <==> digest !in old(objects))
      ensures OnlyAdds(old(objects), objects, digest, source)
    {
      if * {
        return None;
      }
      r := Some(AlreadyExists);
      if digest !in objects {
        objects := objects[digest := source];
        r := Some(Created);
      }
      if * {
        r := None;
      }
    }

    method RegisterBlob(namespace: string, digest: Digest) returns (ok: bool)
      modifies this`rows
      ensures ok ==> rows == old(rows) + {(namespace, digest)}
      ensures !ok ==> rows == old(rows) || rows == old(rows) + {(namespace, digest)}
    {
      ok := true;
      if * {
        rows := rows + {(namespace, digest)};
        if * {
          ok := false;
        }
      } else {
        ok := false;
      }
    }

    /** The end of both uploads: put the verified bytes, then make them visible. */
    method Publish(namespace: string, digest: Digest, bytes: seq<Byte>) returns (r: Option<PutOutcome>)
      requires Sound() && Authentic(hasher, digest, bytes)
      modifies this
      ensures Sound() && OnlyAdds(old(objects), objects, digest, bytes)
      ensures old(rows) <= rows <= old(rows) + {(namespace, digest)}
      ensures r.Some? ==> digest in objects && (namespace, digest) in rows
      ensures r.Some? ==> (r.value == Created <==> digest !in old(objects))
    {
      hide SoundStore, Authentic;
      r := Put(digest, bytes);
      SoundAfterPut(hasher, old(objects), objects, rows, digest, bytes);
      if r.Some? {
        ghost var before := rows;
        var ok := RegisterBlob(namespace, digest);
        SoundAfterRegister(hasher, objects, before, rows, namespace, digest);
        if !ok {
          r := None;
        }
      }
    }
  }

  // ----------------------------------------------------------------- single upload

  datatype PutError = PreconditionFailed | InvalidDigest | TooLarge | BodyBroken | Mismatch | StoreFailed

  /** Some whole chunks from the front already exceed the size. */
  ghost predicate Overruns(chunks: seq<Chunk>, size: nat) {
    exists i :: 0 <= i <= |chunks| && OverrunAt(chunks, i, size)
  }

  ghost predicate OverrunAt(chunks: seq<Chunk>, i: nat, size: nat)
    requires i <= |chunks|
  {
    Body(chunks[..i]).Some? && |Body(chunks[..i]).value| > size
  }

  /** Once a chunk breaks, whatever came before it is all there is. */
  lemma BrokenBody(chunks: seq<Chunk>, i: nat, size: nat)
    requires i < |chunks| && chunks[i].Broken? && Body(chunks[..i]).Some? && |Body(chunks[..i]).value| <= size
    ensures Body(chunks).None? && !Overruns(chunks, size)
  {
    BodyStops(chunks, i);
    forall j | 0 <= j <= |chunks|
      ensures !OverrunAt(chunks, j, size)
    {
      if Body(chunks[..j]).Some? {
        if j > i {
          assert chunks[..j][i] == chunks[i];
          BodyStops(chunks[..j], i);
        } else {
          assert chunks[..i][..j] == chunks[..j];
          BodyPrefix(chunks[..i], j);
        }
      }
    }
  }

  /** A body that fits never overruns. */
  lemma FittingBody(chunks: seq<Chunk>, size: nat)
    requires Body(chunks).Some? && |Body(chunks).value| <= size
    ensures !Overruns(chunks, size)
  {
    forall j | 0 <= j <= |chunks|
      ensures !OverrunAt(chunks, j, size)
    {
      BodyPrefix(chunks, j);
    }
  }

  /** What `put_blob` demands before it touches the store. */
  predicate Admissible(hasher: Hasher, ifNoneMatchAny: bool, digest: Digest, chunks: seq<Chunk>, maxBlobBytes: nat) {
    && ifNoneMatchAny
    && digest.size <= maxBlobBytes
    && Body(chunks).Some?
    && Authentic(hasher, digest, Body(chunks).value)
  }

  /** `put_blob`: reaches the store exactly for admissible requests, changes nothing otherwise,
      keeps the service sound, and on success the digest is stored and visible. */
  method PutBlob(service: BlobService, namespace: string, ifNoneMatchAny: bool, digest: Digest,
                 chunks: seq<Chunk>, maxBlobBytes: nat)
      returns (r: Result<PutOutcome, PutError>)
    requires service.Sound()
    modifies service
    ensures service.Sound()
    ensures (r.Ok? || r.error == StoreFailed) <==>
            Admissible(service.hasher, ifNoneMatchAny, digest, chunks, maxBlobBytes)
    ensures r.Err? && r.error != StoreFailed ==>
              service.objects == old(service.objects) && service.rows == old(service.rows)
    ensures r.Ok? ==> digest in service.objects && (namespace, digest) in service.rows
    ensures r.Ok? ==> (r.value == Created <==> digest !in old(service.objects))
    ensures Body(chunks).Some? ==> OnlyAdds(old(service.objects), service.objects, digest, Body(chunks).value)
    ensures r == Err(PreconditionFailed) <==> !ifNoneMatchAny
    ensures r == Err(InvalidDigest) <==> ifNoneMatchAny && !digest.Valid()
    ensures r == Err(TooLarge) <==>
              ifNoneMatchAny && digest.Valid() && (digest.size > maxBlobBytes || Overruns(chunks, digest.size))
    ensures r == Err(BodyBroken) <==>
              ifNoneMatchAny && digest.Valid() && digest.size <= maxBlobBytes && !Overruns(chunks, digest.size)
                  && Body(chunks).None?
  {
    if !ifNoneMatchAny {
      return Err(PreconditionFailed);
    }
    if !digest.Valid() {
      return Err(InvalidDigest);
    }
    if digest.size > maxBlobBytes {
      return Err(TooLarge);
    }
    var spool: seq<Byte> := [];
    var size := 0;
    for i := 0 to |chunks|
      invariant Body(chunks[..i]) == Some(spool) && size == |spool| <= digest.size
      invariant service.objects == old(service.objects) && service.rows == old(service.rows)
    {
      BodyNext(chunks, i);
      BodyStops(chunks, i);
      if chunks[i].Broken? {
        BrokenBody(chunks, i, digest.size);
        return Err(BodyBroken);
      }
      size := size + |chunks[i].bytes|;
      if size > digest.size || size > maxBlobBytes {
        assert OverrunAt(chunks, i + 1, digest.size);
        return Err(TooLarge);
      }
      spool := spool + chunks[i].bytes;
    }
    assert chunks[..|chunks|] == chunks;
    FittingBody(chunks, digest.size);
    if size != digest.size || service.hasher(digest.Kind().value, spool) != digest.hash {
      return Err(Mismatch);
    }
    var outcome := service.Publish(namespace, digest, spool);
    return if outcome.Some? then Ok(outcome.value) else Err(StoreFailed);
  }

  /** A chunk that breaks, or that overruns, decides the whole body. */
  lemma BodyStops(chunks: seq<Chunk>, i: nat)
    requires i < |chunks|
    ensures Body(chunks).Some? ==> chunks[i].Data? && Body(chunks[..i]).Some?
    ensures Body(chunks).Some? ==> |Body(chunks[..i]).value| + |chunks[i].bytes| <= |Body(chunks).value|
  {
    if Body(chunks).Some? {
      BodyPrefix(chunks, i);
      BodyPrefix(chunks, i + 1);
      BodyNext(chunks, i);
    }
  }
}
