/** `put_blob_pack`: driving the pack reader and storing each verified frame. */
module PackUpload {
  import opened Wrappers
  import opened Digests
  import opened Pack
  import opened PackGrammar
  import opened PackReplay
  import opened Uploads

  datatype UploadError =
    | TooManyDeclared
    | DeclaredTooLarge
    | PackBroken
    | Malformed(error: PackError)
    | FrameMismatch
    | PackStoreFailed
    | PayloadOutsideFrame
    | EndedBeforeBegan
    | HeadersDisagree

  datatype Receipt = Receipt(created: nat, existing: nat)

  // ------------------------------------------------------------ effects on the store

  datatype Ledger = Ledger(objects: map<Digest, seq<Byte>>, rows: set<(string, Digest)>)

  ghost predicate Holds(l: Ledger, namespace: string, e: Entry) {
    e.digest in l.objects && (namespace, e.digest) in l.rows
  }

  /** From `was` to `now` only the frames `put` were stored, all of them authentic, and at least
      the frames `registered` are stored and visible. */
  ghost predicate Effects(hasher: Hasher, was: Ledger, now: Ledger, namespace: string,
                          registered: seq<Entry>, put: seq<Entry>)
  {
    && (forall e :: e in put ==> Authentic(hasher, e.digest, e.payload))
    && (forall d :: d in was.objects ==> d in now.objects && now.objects[d] == was.objects[d])
    && (forall d :: d in now.objects && d !in was.objects ==> Entry(d, now.objects[d]) in put)
    && was.rows <= now.rows
    && (forall row :: row in now.rows && row !in was.rows ==>
          row.0 == namespace && exists e :: e in put && e.digest == row.1)
    && (forall e :: e in registered ==> Holds(now, namespace, e))
  }

  lemma EffectsGrow(hasher: Hasher, was: Ledger, mid: Ledger, now: Ledger, namespace: string, done: seq<Entry>,
                    e: Entry)
    requires Effects(hasher, was, mid, namespace, done, done)
    requires Authentic(hasher, e.digest, e.payload)
    requires OnlyAdds(mid.objects, now.objects, e.digest, e.payload)
    requires mid.rows <= now.rows <= mid.rows + {(namespace, e.digest)}
    ensures Effects(hasher, was, now, namespace, done, done + [e])
    ensures Holds(now, namespace, e) ==> Effects(hasher, was, now, namespace, done + [e], done + [e])
  {
    hide Authentic;
    var more := done + [e];
    assert e in more && forall x :: x in more <==> x in done || x == e;
    forall row | row in now.rows && row !in was.rows
      ensures row.0 == namespace && exists x :: x in more && x.digest == row.1
    {
      if row in mid.rows {
        var x :| x in done && x.digest == row.1;
        assert x in more;
      }
    }
  }

  // ------------------------------------------------------------------------- frames

  class PackFrame {
    const digest: Digest
    var size: nat
    var spool: seq<Byte>

    ghost predicate Valid()
      reads this
    {
      size == |spool|
    }

    constructor (digest: Digest)
      ensures Valid() && this.digest == digest && spool == []
    {
      this.digest, size, spool := digest, 0, [];
    }

    method Write(payload: seq<Byte>)
      requires Valid()
      modifies this
      ensures Valid() && spool == old(spool) + payload
    {
      size := size + |payload|;
      spool := spool + payload;
    }

    /** Verify and publish a completed frame. */
    method Store(service: BlobService, namespace: string) returns (r: Result<PutOutcome, UploadError>)
      requires Valid() && digest.Valid() && service.Sound()
      modifies service
      ensures service.Sound()
      ensures r == Err(FrameMismatch) <==> !Authentic(service.hasher, digest, spool)
      ensures r == Err(FrameMismatch) ==> service.objects == old(service.objects) && service.rows == old(service.rows)
      ensures r.Ok? || r == Err(FrameMismatch) || r == Err(PackStoreFailed)
      ensures r != Err(FrameMismatch) ==>
                && OnlyAdds(old(service.objects), service.objects, digest, spool)
                && old(service.rows) <= service.rows <= old(service.rows) + {(namespace, digest)}
      ensures r.Ok? ==> digest in service.objects && (namespace, digest) in service.rows
      ensures r.Ok? ==> |service.objects| == |old(service.objects)| + if r.value == Created then 1 else 0
    {
      if size != digest.size || service.hasher(digest.Kind().value, spool) != digest.hash {
        return Err(FrameMismatch);
      }
      var outcome := service.Publish(namespace, digest, spool);
      return if outcome.Some? then Ok(outcome.value) else Err(PackStoreFailed);
    }
  }

  /** The handler's optional open frame is the consumer's view of the reader's events. */
  ghost predicate FrameMatches(frame: PackFrame?, p: Progress)
    reads frame
  {
    if frame == null then p.digest.None?
    else frame.Valid() && p.digest == Some(frame.digest) && frame.spool == p.got
  }

  ghost predicate DigestsValid(entries: seq<Entry>) {
    forall e :: e in entries ==> e.digest.Valid()
  }

  ghost function LedgerOf(service: BlobService): Ledger
    reads service
  {
    Ledger(service.objects, service.rows)
  }

  /** One event: what the handler's `match` does with it. */
  method ApplyEvent(service: BlobService, namespace: string, frame: PackFrame?, event: PackEvent,
                    ghost was: Ledger, ghost p: Progress, ghost q: Progress)
      returns (next: PackFrame?, r: Result<Option<PutOutcome>, UploadError>, ghost put: seq<Entry>)
    requires service.Sound() && FrameMatches(frame, p)
    requires Apply(p, event) == Some(q) && DigestsValid(q.whole)
    requires Effects(service.hasher, was, LedgerOf(service), namespace, p.whole, p.whole)
    modifies service, frame
    ensures service.Sound()
    ensures r.Ok? ==>
              && FrameMatches(next, q)
              && Effects(service.hasher, was, LedgerOf(service), namespace, q.whole, q.whole)
    ensures r.Err? ==>
              && p.whole <= put <= q.whole
              && Effects(service.hasher, was, LedgerOf(service), namespace, p.whole, put)
    ensures r == Err(FrameMismatch) ==> put == p.whole
    ensures r.Ok? ==> |q.whole| == |p.whole| + if r.value.Some? then 1 else 0
    ensures r.Ok? ==> |service.objects| == |old(service.objects)| + if r.value == Some(Created) then 1 else 0
    ensures next == null || next == frame || fresh(next)
    ensures r.Err? ==> r.error == FrameMismatch || r.error == PackStoreFailed
    ensures |q.whole| <= |p.whole| + 1
    ensures r == Err(FrameMismatch) ==> exists e :: e in q.whole && !Authentic(service.hasher, e.digest, e.payload)
  {
    hide Effects, Authentic, Digest.Valid, SoundStore;
    put := p.whole;
    match event
    case Started(digest) =>
      next := new PackFrame(digest);
      r := Ok(None);
    case Payload(bytes) =>
      next := frame;
      if next == null {
        return next, Err(PayloadOutsideFrame), put;
      }
      next.Write(bytes);
      r := Ok(None);
    case Complete =>
      if frame == null {
        return null, Err(EndedBeforeBegan), put;
      }
      ghost var mid, e := LedgerOf(service), Entry(frame.digest, frame.spool);
      assert q.whole == p.whole + [e] && e in q.whole;
      var stored := frame.Store(service, namespace);
      next := null;
      if stored.Err? {
        if stored.error != FrameMismatch {
          EffectsGrow(service.hasher, was, mid, LedgerOf(service), namespace, p.whole, e);
          put := q.whole;
        } else {
          assert LedgerOf(service) == mid && p.whole <= q.whole;
        }
        return null, Err(stored.error), put;
      }
      EffectsGrow(service.hasher, was, mid, LedgerOf(service), namespace, p.whole, e);
      r := Ok(Some(stored.value));
  }

  lemma {:induction false} ReplayPrefix(p: Progress, events: seq<PackEvent>, k: nat)
    requires k <= |events| && Replay(p, events).Some?
    ensures Replay(p, events[..k]).Some? && Replay(p, events[..k]).value.whole <= Replay(p, events).value.whole
  {
    hide Replay;
    ReplayAppend(p, events[..k], events[k..]);
    assert events[..k] + events[k..] == events;
    ReplayGrows(Replay(p, events[..k]).value, events[k..]);
  }

  lemma ReplayNext(p: Progress, events: seq<PackEvent>, k: nat)
    requires k < |events| && Replay(p, events).Some?
    ensures Replay(p, events[..k]).Some? && Replay(p, events[..k + 1]).Some?
    ensures Apply(Replay(p, events[..k]).value, events[k]) == Replay(p, events[..k + 1])
    ensures Replay(p, events[..k + 1]).value.whole <= Replay(p, events).value.whole
  {
    hide Apply;
    ReplayPrefix(p, events, k);
    ReplayPrefix(p, events, k + 1);
    assert events[..k + 1][..k] == events[..k];
  }

  /** The events of one chunk. */
  method Consume(service: BlobService, namespace: string, frame: PackFrame?, events: seq<PackEvent>,
                 ghost was: Ledger, ghost p: Progress)
      returns (next: PackFrame?, receipt: Receipt, r: Result<(), UploadError>, ghost done: seq<Entry>,
               ghost put: seq<Entry>)
    requires service.Sound() && FrameMatches(frame, p)
    requires Replay(p, events).Some? && DigestsValid(Replay(p, events).value.whole)
    requires Effects(service.hasher, was, LedgerOf(service), namespace, p.whole, p.whole)
    modifies service, frame
    ensures service.Sound()
    ensures var q := Replay(p, events).value;
            r.Ok? ==>
              && FrameMatches(next, q)
              && Effects(service.hasher, was, LedgerOf(service), namespace, q.whole, q.whole)
              && receipt.created + receipt.existing == |q.whole| - |p.whole|
              && |service.objects| == |old(service.objects)| + receipt.created
    ensures next == null || next == frame || fresh(next)
    ensures r.Err? ==> r.error == FrameMismatch || r.error == PackStoreFailed
    ensures done <= put <= Replay(p, events).value.whole && |put| <= |done| + 1
    ensures r.Ok? ==> done == Replay(p, events).value.whole
    ensures r != Err(PackStoreFailed) ==> put == done
    ensures Effects(service.hasher, was, LedgerOf(service), namespace, done, put)
    ensures r == Err(FrameMismatch) ==>
              exists e :: e in Replay(p, events).value.whole && !Authentic(service.hasher, e.digest, e.payload)
  {
    hide Effects, Authentic, Digest.Valid, SoundStore, Apply, Replay;
    next, receipt := frame, Receipt(0, 0);
    ghost var whole := Replay(p, events).value.whole;
    ghost var at := p;
    done, put := p.whole, p.whole;
    ReplayStart(p, events);
    for k := 0 to |events|
      invariant service.Sound() && Replay(p, events[..k]) == Some(at) && FrameMatches(next, at)
      invariant at.whole <= whole && done == put == at.whole
      invariant Effects(service.hasher, was, LedgerOf(service), namespace, at.whole, at.whole)
      invariant receipt.created + receipt.existing == |at.whole| - |p.whole|
      invariant |service.objects| == |old(service.objects)| + receipt.created
      invariant next == null || next == frame || fresh(next)
    {
      ReplayNext(p, events, k);
      ghost var after := Replay(p, events[..k + 1]).value;
      assert DigestsValid(after.whole);
      var stored;
      next, stored, put := ApplyEvent(service, namespace, next, events[k], was, at, after);
      if stored.Err? {
        return next, receipt, Err(stored.error), done, put;
      }
      done, put := after.whole, after.whole;
      match stored.value {
        case None =>
        case Some(Created) => receipt := receipt.(created := receipt.created + 1);
        case Some(AlreadyExists) => receipt := receipt.(existing := receipt.existing + 1);
      }
      at := after;
    }
    assert events[..|events|] == events;
    r := Ok(());
  }

  lemma ReplayStart(p: Progress, events: seq<PackEvent>)
    ensures events[..0] == [] && Replay(p, events[..0]) == Some(p)
    ensures Replay(p, events).Some? ==> p.whole <= Replay(p, events).value.whole
  {
    if Replay(p, events).Some? {
      ReplayGrows(p, events);
    }
  }

  // ----------------------------------------------------------------- the whole request

  /** A request the handler should honour, short of the store failing. */
  ghost predicate Acceptable(hasher: Hasher, declaredBlobs: nat, declaredBytes: nat, maxBlobBytes: nat,
                             chunks: seq<Chunk>, entries: seq<Entry>)
  {
    && declaredBlobs <= MAX_BATCH_ITEMS && declaredBytes <= maxBlobBytes
    && Body(chunks).Some?
    && IsPack(Limits(maxBlobBytes, declaredBlobs, declaredBytes), Body(chunks).value, entries)
    && |entries| == declaredBlobs && Total(entries) == declaredBytes
    && forall e :: e in entries ==> Authentic(hasher, e.digest, e.payload)
  }

  /** What the reader made of the body so far, and what the handler has rebuilt from it. */
  ghost predicate InStep(lim: Limits, received: seq<Byte>, view: Reader, raw: seq<PackEvent>, p: Progress) {
    && NoEmptyPayload(raw)
    && Feed(lim, START, received) == Ok(Fed(view, Split(raw)))
    && Replay(NOTHING, raw) == Some(p)
  }

  /** The next chunk keeps the handler in step with the reader. */
  lemma StepTogether(lim: Limits, received: seq<Byte>, view: Reader, raw: seq<PackEvent>, p: Progress,
                     chunk: seq<Byte>, after: Reader, events: seq<PackEvent>)
    requires InStep(lim, received, view, raw, p) && view.Valid()
    requires Feed(lim, view, chunk) == Ok(Fed(after, Split(events))) && NoEmptyPayload(events)
    ensures Replay(p, events).Some?
    ensures InStep(lim, received + chunk, after, raw + events, Replay(p, events).value)
    ensures Within(lim, Replay(p, events).value.whole)
    ensures forall put :: put <= Replay(p, events).value.whole && put != [] ==> Encode(put) <= received + chunk
  {
    hide Feed, Split, Replay, Within, Encode;
    FeedAppend(lim, START, received, chunk);
    SplitAppend(raw, events);
    var q := FeedReplays(lim, received + chunk);
    assert NoEmptyPayload(raw + events);
    ReplaySplit(NOTHING, raw + events);
    ReplayAppend(NOTHING, raw, events);
    forall put | put <= q.whole && put != []
      ensures Encode(put) <= received + chunk
    {
      WholeFramesArePrefix(lim, received + chunk, Feed(lim, START, received + chunk).value, q, put);
    }
  }

  /** An acceptable body never fails part way, and its frames begin with those rebuilt so far. */
  lemma AcceptablePrefix(lim: Limits, body: seq<Byte>, entries: seq<Entry>, received: seq<Byte>)
    requires IsPack(lim, body, entries) && received <= body
    ensures Feed(lim, START, received).Ok?
    ensures forall view, raw, p :: InStep(lim, received, view, raw, p) ==> p.whole <= entries
  {
    hide Feed, Split, Replay, Within, Encode;
    var rest := body[|received|..];
    assert received + rest == body;
    EncodedIsAccepted(lim, entries);
    FeedAppend(lim, START, received, rest);
    var f := Feed(lim, START, received).value;
    var more := Feed(lim, f.reader, rest).value.events;
    ReplayEntries(entries);
    forall view, raw, p | InStep(lim, received, view, raw, p)
      ensures p.whole <= entries
    {
      ReplaySplit(NOTHING, raw);
      ReplayAppend(NOTHING, f.events, more);
      ReplayGrows(p, more);
    }
  }

  lemma WithinDigestsValid(lim: Limits, entries: seq<Entry>)
    requires Within(lim, entries)
    ensures DigestsValid(entries)
  {
  }

  lemma InStepAtStart(lim: Limits)
    ensures InStep(lim, [], START, [], NOTHING)
  {
  }

  /** Refusals are justified: no reading of the body makes the request acceptable. */
  ghost predicate Hopeless(hasher: Hasher, declaredBlobs: nat, declaredBytes: nat, maxBlobBytes: nat,
                           chunks: seq<Chunk>) {
    forall entries :: !Acceptable(hasher, declaredBlobs, declaredBytes, maxBlobBytes, chunks, entries)
  }

  lemma BrokenIsHopeless(hasher: Hasher, declaredBlobs: nat, declaredBytes: nat, maxBlobBytes: nat, chunks: seq<Chunk>,
                         i: nat)
    requires i < |chunks| && chunks[i].Broken?
    ensures Hopeless(hasher, declaredBlobs, declaredBytes, maxBlobBytes, chunks)
  {
    BodyStops(chunks, i);
  }

  lemma MalformedIsHopeless(hasher: Hasher, declaredBlobs: nat, declaredBytes: nat, maxBlobBytes: nat,
                            chunks: seq<Chunk>, i: nat, received: seq<Byte>)
    requires i <= |chunks| && Body(chunks[..i]) == Some(received)
    requires Feed(Limits(maxBlobBytes, declaredBlobs, declaredBytes), START, received).Err?
    ensures Hopeless(hasher, declaredBlobs, declaredBytes, maxBlobBytes, chunks)
  {
    hide Feed, IsPack, Authentic, InStep;
    forall entries
      ensures !Acceptable(hasher, declaredBlobs, declaredBytes, maxBlobBytes, chunks, entries)
    {
      if Acceptable(hasher, declaredBlobs, declaredBytes, maxBlobBytes, chunks, entries) {
        BodyPrefix(chunks, i);
        AcceptablePrefix(Limits(maxBlobBytes, declaredBlobs, declaredBytes), Body(chunks).value, entries, received);
      }
    }
  }

  lemma ForgedIsHopeless(hasher: Hasher, declaredBlobs: nat, declaredBytes: nat, maxBlobBytes: nat, chunks: seq<Chunk>,
                         i: nat, received: seq<Byte>, view: Reader, raw: seq<PackEvent>, p: Progress)
    requires i <= |chunks| && Body(chunks[..i]) == Some(received)
    requires InStep(Limits(maxBlobBytes, declaredBlobs, declaredBytes), received, view, raw, p)
    requires exists e :: e in p.whole && !Authentic(hasher, e.digest, e.payload)
    ensures Hopeless(hasher, declaredBlobs, declaredBytes, maxBlobBytes, chunks)
  {
    hide Feed, IsPack, Authentic, InStep;
    forall entries
      ensures !Acceptable(hasher, declaredBlobs, declaredBytes, maxBlobBytes, chunks, entries)
    {
      if Acceptable(hasher, declaredBlobs, declaredBytes, maxBlobBytes, chunks, entries) {
        BodyPrefix(chunks, i);
        AcceptablePrefix(Limits(maxBlobBytes, declaredBlobs, declaredBytes), Body(chunks).value, entries, received);
      }
    }
  }

  /** At the end of the body, the final checks pass exactly when the rebuilt frames are acceptable. */
  lemma FinalChecksDecide(hasher: Hasher, declaredBlobs: nat, declaredBytes: nat, maxBlobBytes: nat, chunks: seq<Chunk>,
                          view: Reader, raw: seq<PackEvent>, p: Progress)
    requires declaredBlobs <= MAX_BATCH_ITEMS && declaredBytes <= maxBlobBytes && Body(chunks).Some?
    requires InStep(Limits(maxBlobBytes, declaredBlobs, declaredBytes), Body(chunks).value, view, raw, p)
    requires forall e :: e in p.whole ==> Authentic(hasher, e.digest, e.payload)
    ensures if view.AtBoundary() && view.blobs == declaredBlobs && view.payloadBytes == declaredBytes
            then Acceptable(hasher, declaredBlobs, declaredBytes, maxBlobBytes, chunks, p.whole)
            else Hopeless(hasher, declaredBlobs, declaredBytes, maxBlobBytes, chunks)
  {
    hide Feed, Split, Replay, Authentic, Within, Encode, Total, AllEvents;
    var lim, body := Limits(maxBlobBytes, declaredBlobs, declaredBytes), Body(chunks).value;
    var q := FeedReplays(lim, body);
    ReplaySplit(NOTHING, raw);
    if view.AtBoundary() {
      assert Encode(q.whole) + [] == Encode(q.whole);
    }
    forall entries | Acceptable(hasher, declaredBlobs, declaredBytes, maxBlobBytes, chunks, entries)
      ensures view.AtBoundary() && view.blobs == declaredBlobs && view.payloadBytes == declaredBytes
    {
      EncodedIsAccepted(lim, entries);
    }
  }

  /** One chunk of the body: push it through the reader and consume its events. */
  method TakeChunk(service: BlobService, namespace: string, reader: PackReader, frame: PackFrame?, chunk: seq<Byte>,
                   ghost was: Ledger, ghost arrived: seq<Byte>, ghost raw: seq<PackEvent>, ghost p: Progress)
      returns (next: PackFrame?, receipt: Receipt, r: Result<(), UploadError>,
               ghost more: seq<PackEvent>, ghost q: Progress, ghost done: seq<Entry>, ghost put: seq<Entry>)
    requires service.Sound() && reader.Valid() && FrameMatches(frame, p)
    requires InStep(reader.limits, arrived, reader.View(), raw, p)
    requires Effects(service.hasher, was, LedgerOf(service), namespace, p.whole, p.whole)
    requires p.whole == [] || Encode(p.whole) <= arrived
    modifies service, reader, frame
    ensures service.Sound() && (r.Ok? ==> reader.Valid())
    ensures next == null || next == frame || fresh(next)
    ensures r.Err? && r.error.Malformed? ==> Feed(reader.limits, START, arrived + chunk).Err?
    ensures r.Ok? || r.error.Malformed? || r.error == FrameMismatch || r.error == PackStoreFailed
    ensures r.Ok? || r.error == FrameMismatch ==> InStep(reader.limits, arrived + chunk, reader.View(), raw + more, q)
    ensures r.Ok? ==> FrameMatches(next, q) && done == q.whole
    ensures r.Ok? ==> receipt.created + receipt.existing == |q.whole| - |p.whole|
    ensures r.Ok? ==> |service.objects| == |old(service.objects)| + receipt.created
    ensures r == Err(FrameMismatch) ==> exists e :: e in q.whole && !Authentic(service.hasher, e.digest, e.payload)
    ensures done <= put && |put| <= |done| + 1 && (r != Err(PackStoreFailed) ==> put == done)
    ensures Effects(service.hasher, was, LedgerOf(service), namespace, done, put)
    ensures put == [] || Encode(put) <= if r.Err? && r.error.Malformed? then arrived else arrived + chunk
  {
    hide Effects, Authentic, Digest.Valid, SoundStore, Replay, Feed, Split, InStep, Within, Encode, LedgerOf, START;
    next, receipt, more, q, done, put := frame, Receipt(0, 0), [], p, p.whole, p.whole;
    ghost var view := reader.View();
    var events := reader.Push(chunk);
    if events.Err? {
      RefusedChunk(reader.limits, arrived, view, raw, p, chunk);
      return next, receipt, Err(Malformed(events.error)), more, q, done, put;
    }
    StepTogether(reader.limits, arrived, view, raw, p, chunk, reader.View(), events.value);
    more, q := events.value, Replay(p, events.value).value;
    WithinDigestsValid(reader.limits, q.whole);
    next, receipt, r, done, put := Consume(service, namespace, frame, events.value, was, p);
  }

  /** `put_blob_pack`. A receipt means the body was an authentic pack of exactly the declared
      contents, all of it stored and visible; without one the frames stored are still authentic
      whole frames from the front of what arrived, and unless the store failed the request
      really was unacceptable. The two "outside a frame" errors never happen. */
  method PutBlobPack(service: BlobService, namespace: string, declaredBlobs: nat, declaredBytes: nat,
                     maxBlobBytes: nat, chunks: seq<Chunk>)
      returns (r: Result<Receipt, UploadError>, ghost registered: seq<Entry>, ghost put: seq<Entry>,
               ghost arrived: seq<Byte>)
    requires service.Sound()
    modifies service
    ensures service.Sound()
    ensures Effects(service.hasher, old(LedgerOf(service)), LedgerOf(service), namespace, registered, put)
    ensures registered <= put && (put == [] || Encode(put) <= arrived)
    ensures |put| <= |registered| + 1 && (r != Err(PackStoreFailed) ==> put == registered)
    ensures exists i :: 0 <= i <= |chunks| && Body(chunks[..i]) == Some(arrived)
    ensures r.Ok? ==>
              && Acceptable(service.hasher, declaredBlobs, declaredBytes, maxBlobBytes, chunks, registered)
              && r.value.created + r.value.existing == declaredBlobs
              && |service.objects| == |old(service.objects)| + r.value.created
    ensures r.Err? && r.error != PackStoreFailed ==>
              Hopeless(service.hasher, declaredBlobs, declaredBytes, maxBlobBytes, chunks)
    ensures r != Err(PayloadOutsideFrame) && r != Err(EndedBeforeBegan)
  {
    hide Effects, Authentic, Digest.Valid, SoundStore, Replay, Feed, Split, InStep, Within, Encode, Acceptable,
        Hopeless, LedgerOf, Body, START;
    ghost var was := LedgerOf(service);
    registered, put, arrived := [], [], [];
    EffectsAtStart(service.hasher, was, namespace, chunks);
    if declaredBlobs > MAX_BATCH_ITEMS {
      OverDeclaredIsHopeless(service.hasher, declaredBlobs, declaredBytes, maxBlobBytes, chunks);
      return Err(TooManyDeclared), registered, put, arrived;
    }
    if declaredBytes > maxBlobBytes {
      OverDeclaredIsHopeless(service.hasher, declaredBlobs, declaredBytes, maxBlobBytes, chunks);
      return Err(DeclaredTooLarge), registered, put, arrived;
    }
    var limits := Limits(maxBlobBytes, declaredBlobs, declaredBytes);
    var reader := new PackReader(limits);
    var frame: PackFrame? := null;
    var receipt := Receipt(0, 0);
    ghost var raw, p: Progress := [], NOTHING;
    InStepAtStart(limits);
    for i := 0 to |chunks|
      invariant service.Sound() && reader.Valid() && reader.limits == limits && fresh(reader)
      invariant Body(chunks[..i]) == Some(arrived) && InStep(limits, arrived, reader.View(), raw, p)
      invariant FrameMatches(frame, p) && (frame == null || fresh(frame))
      invariant Effects(service.hasher, was, LedgerOf(service), namespace, p.whole, p.whole)
      invariant p.whole == [] || Encode(p.whole) <= arrived
      invariant registered == put == p.whole
      invariant receipt.created + receipt.existing == |p.whole|
      invariant |service.objects| == |old(service.objects)| + receipt.created
    {
      BodyNext(chunks, i);
      if chunks[i].Broken? {
        BrokenIsHopeless(service.hasher, declaredBlobs, declaredBytes, maxBlobBytes, chunks, i);
        return Err(PackBroken), registered, put, arrived;
      }
      var counts, ok;
      ghost var more, q;
      frame, counts, ok, more, q, registered, put :=
        TakeChunk(service, namespace, reader, frame, chunks[i].bytes, was, arrived, raw, p);
      if ok.Err? {
        if ok.error.Malformed? {
          MalformedIsHopeless(service.hasher, declaredBlobs, declaredBytes, maxBlobBytes, chunks, i + 1,
              arrived + chunks[i].bytes);
          return Err(ok.error), registered, put, arrived;
        }
        arrived := arrived + chunks[i].bytes;
        if ok.error == FrameMismatch {
          ForgedIsHopeless(service.hasher, declaredBlobs, declaredBytes, maxBlobBytes, chunks, i + 1, arrived,
                           reader.View(), raw + more, q);
        }
        return Err(ok.error), registered, put, arrived;
      }
      arrived, raw := arrived + chunks[i].bytes, raw + more;
      receipt := Receipt(receipt.created + counts.created, receipt.existing + counts.existing);
      p := q;
    }
    assert chunks[..|chunks|] == chunks;
    EffectsAuthentic(service.hasher, was, LedgerOf(service), namespace, p.whole);
    FinalChecksDecide(service.hasher, declaredBlobs, declaredBytes, maxBlobBytes, chunks, reader.View(), raw, p);
    var closed := reader.Close();
    if closed.Err? {
      return Err(Malformed(closed.error)), registered, put, arrived;
    }
    if reader.blobs != declaredBlobs || reader.payloadBytes != declaredBytes {
      return Err(HeadersDisagree), registered, put, arrived;
    }
    AcceptableCount(service.hasher, declaredBlobs, declaredBytes, maxBlobBytes, chunks, p.whole);
    r := Ok(receipt);
  }

  lemma EffectsAtStart(hasher: Hasher, was: Ledger, namespace: string, chunks: seq<Chunk>)
    ensures Effects(hasher, was, was, namespace, [], [])
    ensures Body(chunks[..0]) == Some([])
  {
  }

  lemma EffectsAuthentic(hasher: Hasher, was: Ledger, now: Ledger, namespace: string, done: seq<Entry>)
    requires Effects(hasher, was, now, namespace, done, done)
    ensures forall e :: e in done ==> Authentic(hasher, e.digest, e.payload)
  {
  }

  lemma OverDeclaredIsHopeless(hasher: Hasher, declaredBlobs: nat, declaredBytes: nat, maxBlobBytes: nat,
                               chunks: seq<Chunk>)
    requires declaredBlobs > MAX_BATCH_ITEMS || declaredBytes > maxBlobBytes
    ensures Hopeless(hasher, declaredBlobs, declaredBytes, maxBlobBytes, chunks)
  {
  }

  lemma RefusedChunk(lim: Limits, received: seq<Byte>, view: Reader, raw: seq<PackEvent>, p: Progress, chunk: seq<Byte>)
    requires InStep(lim, received, view, raw, p) && view.Valid() && Feed(lim, view, chunk).Err?
    ensures Feed(lim, START, received + chunk).Err?
  {
    hide Feed, Split, Replay;
    FeedAppend(lim, START, received, chunk);
  }

  lemma AcceptableCount(hasher: Hasher, declaredBlobs: nat, declaredBytes: nat, maxBlobBytes: nat, chunks: seq<Chunk>,
                        entries: seq<Entry>)
    requires Acceptable(hasher, declaredBlobs, declaredBytes, maxBlobBytes, chunks, entries)
    ensures |entries| == declaredBlobs
  {
  }
}
