/** `pack_blobs`: framing the visible blobs of a request, streamed from the store. */
module PackDownload {
  import opened Wrappers
  import opened Digests
  import opened Pack
  import opened PackGrammar
  import opened PackReplay
  import opened Uploads

  const USIZE_MAX: nat := U64_LIMIT - 1

  datatype DownloadError = TooManyDigests | BadDigest | PackTooLarge

  /** A storage read: its advertised size and the chunks it then streams. */
  datatype Fetched = Missing | ReadFailed | Found(size: nat, stream: seq<Chunk>)

  datatype Plan = Plan(digests: seq<Digest>, headers: seq<seq<Byte>>, contentLength: nat, payloadBytes: nat)

  datatype Download = Download(plan: Plan, emitted: seq<seq<Byte>>, completed: bool)

  // ------------------------------------------------------------- what is being asked for

  function FirstOccurrences(digests: seq<Digest>): seq<Digest> {
    if digests == [] then []
    else
      var before, last := FirstOccurrences(digests[..|digests| - 1]), digests[|digests| - 1];
      if last in before then before else before + [last]
  }

  function Sizes(digests: seq<Digest>): nat {
    if digests == [] then 0 else Sizes(digests[..|digests| - 1]) + digests[|digests| - 1].size
  }

  function FramedLength(digests: seq<Digest>): nat {
    MAGIC_BYTES + HEADER_BYTES * |digests| + Sizes(digests)
  }

  /** The transport's own bound, with the saturating arithmetic of `router`. */
  function TransportLimit(maxBlobBytes: nat): nat {
    Saturate(Saturate(Saturate(maxBlobBytes) + MAGIC_BYTES) + Saturate(HEADER_BYTES * MAX_BATCH_ITEMS))
  }

  function Saturate(n: nat): nat {
    if n > USIZE_MAX then USIZE_MAX else n
  }

  /** Short of the machine's largest size, the bound is the payload limit, the magic and one
      header for each of the ten thousand blobs a batch may have. */
  lemma TransportLimitExactly(maxBlobBytes: nat)
    ensures var exact := maxBlobBytes + 8 + 41 * 10000;
            TransportLimit(maxBlobBytes) == if exact <= USIZE_MAX then exact else USIZE_MAX
  {
  }

  ghost predicate AllValid(digests: seq<Digest>) {
    forall i :: 0 <= i < |digests| ==> digests[i].Valid()
  }

  lemma {:induction false} FirstOccurrencesFacts(digests: seq<Digest>)
    ensures |FirstOccurrences(digests)| <= |digests|
    ensures forall d :: d in FirstOccurrences(digests) <==> d in digests
    ensures forall i, j :: 0 <= i < j < |FirstOccurrences(digests)| ==>
            FirstOccurrences(digests)[i] != FirstOccurrences(digests)[j]
  {
    if digests != [] {
      FirstOccurrencesFacts(digests[..|digests| - 1]);
    }
  }

  lemma {:induction false} SizesGrow(digests: seq<Digest>, k: nat)
    requires k <= |digests|
    ensures Sizes(FirstOccurrences(digests[..k])) <= Sizes(FirstOccurrences(digests))
  {
    if k == |digests| {
      assert digests[..k] == digests;
    } else {
      var init := digests[..|digests| - 1];
      SizesGrow(init, k);
      assert init[..k] == digests[..k];
      SizesSnoc(FirstOccurrences(init), digests[|digests| - 1]);
    }
  }

  lemma SizesSnoc(digests: seq<Digest>, d: Digest)
    ensures Sizes(digests + [d]) == Sizes(digests) + d.size
  {
    assert (digests + [d])[..|digests|] == digests;
  }

  lemma {:induction false} KeepFacts(digests: seq<Digest>, visible: Digest -> bool)
    ensures |Keep(digests, visible)| <= |digests| && Sizes(Keep(digests, visible)) <= Sizes(digests)
    ensures forall d :: d in Keep(digests, visible) <==> d in digests && visible(d)
  {
    if digests != [] {
      var init, last := digests[..|digests| - 1], digests[|digests| - 1];
      KeepFacts(init, visible);
      if visible(last) {
        SizesSnoc(Keep(init, visible), last);
      }
    }
  }

  lemma DedupeStarts(digests: seq<Digest>)
    ensures digests[..0] == [] && FirstOccurrences([]) == [] && Sizes([]) == 0
  {
  }

  lemma FirstOccurrencesSnoc(digests: seq<Digest>, d: Digest)
    ensures var before := FirstOccurrences(digests);
            FirstOccurrences(digests + [d]) == if d in before then before else before + [d]
  {
    assert (digests + [d])[..|digests|] == digests;
  }

  lemma AllValidNext(digests: seq<Digest>, i: nat)
    requires i < |digests| && AllValid(digests[..i]) && digests[i].Valid()
    ensures AllValid(digests[..i + 1])
  {
    hide Digest.Valid;
    assert digests[..i + 1] == digests[..i] + [digests[i]];
  }

  /** The first loop of `pack_blobs`: duplicates once, within the size budget. */
  method Dedupe(digests: seq<Digest>, maxBlobBytes: nat) returns (r: Result<seq<Digest>, DownloadError>)
    ensures r.Ok? <==>
              && AllValid(digests) && Sizes(FirstOccurrences(digests)) <= maxBlobBytes
              && Sizes(FirstOccurrences(digests)) < U64_LIMIT
    ensures r.Ok? ==> r.value == FirstOccurrences(digests)
    ensures r == Err(BadDigest) ==> !AllValid(digests)
    ensures r.Err? ==> r.error == BadDigest || r.error == PackTooLarge
  {
    hide Digest.Valid, FirstOccurrences, Sizes;
    DedupeStarts(digests);
    var total, seen, requested: seq<Digest> := 0, {}, [];
    for i := 0 to |digests|
      invariant AllValid(digests[..i])
      invariant requested == FirstOccurrences(digests[..i]) && seen == set d | d in requested
      invariant total == Sizes(requested) && total <= maxBlobBytes && total < U64_LIMIT
    {
      var digest := digests[i];
      assert digests[..i + 1] == digests[..i] + [digest];
      FirstOccurrencesSnoc(digests[..i], digest);
      SizesSnoc(requested, digest);
      SizesGrow(digests, i + 1);
      if !digest.Valid() {
        return Err(BadDigest);
      }
      AllValidNext(digests, i);
      if digest !in seen {
        seen := seen + {digest};
        if total + digest.size >= U64_LIMIT {
          return Err(PackTooLarge);
        }
        total := total + digest.size;
        if total > maxBlobBytes {
          return Err(PackTooLarge);
        }
        requested := requested + [digest];
      }
    }
    assert digests[..|digests|] == digests;
    r := Ok(requested);
  }

  /** The second loop: the frame headers and the three response headers. */
  method PlanFrames(visible: seq<Digest>) returns (r: Result<Plan, DownloadError>)
    requires AllValid(visible)
    ensures r.Ok? <==> FramedLength(visible) < U64_LIMIT
    ensures r.Ok? ==>
              && r.value.digests == visible
              && r.value.contentLength == FramedLength(visible) && r.value.payloadBytes == Sizes(visible)
              && |r.value.headers| == |visible|
              && forall i :: 0 <= i < |visible| ==> r.value.headers[i] == HeaderOf(visible[i])
    ensures r.Err? ==> r.error == PackTooLarge
  {
    hide Digest.Valid, EncodeHeader;
    var packBytes, payloadBytes, headers: seq<seq<Byte>> := MAGIC_BYTES, 0, [];
    for i := 0 to |visible|
      invariant packBytes == FramedLength(visible[..i]) && packBytes < U64_LIMIT
      invariant payloadBytes == Sizes(visible[..i])
      invariant |headers| == i && forall j :: 0 <= j < i ==> headers[j] == HeaderOf(visible[j])
    {
      var digest := visible[i];
      HeaderRoundTrip(digest);
      assert visible[..i + 1] == visible[..i] + [digest];
      SizesSnoc(visible[..i], digest);
      FramedGrows(visible, i + 1);
      var header := EncodeHeader(digest);
      if header.Err? {
        return Err(BadDigest);
      }
      payloadBytes := payloadBytes + digest.size;
      packBytes := packBytes + HEADER_BYTES + digest.size;
      if packBytes >= U64_LIMIT {
        return Err(PackTooLarge);
      }
      headers := headers + [header.value];
    }
    assert visible[..|visible|] == visible;
    r := Ok(Plan(visible, headers, packBytes, payloadBytes));
  }

  lemma {:induction false} FramedGrows(digests: seq<Digest>, k: nat)
    requires k <= |digests|
    ensures FramedLength(digests[..k]) <= FramedLength(digests)
  {
    if k == |digests| {
      assert digests[..k] == digests;
    } else {
      FramedGrows(digests[..|digests| - 1], k);
      assert digests[..|digests| - 1][..k] == digests[..k];
    }
  }

  // ----------------------------------------------------------------------- streaming

  /** A read that delivers exactly the blob the digest declares. */
  predicate Intact(digest: Digest, fetched: Fetched) {
    && fetched.Found? && fetched.size == digest.size
    && Body(fetched.stream).Some? && |Body(fetched.stream).value| == digest.size
  }

  lemma {:induction false} JoinAppend(a: seq<seq<Byte>>, b: seq<seq<Byte>>)
    ensures Join(a + b) == Join(a) + Join(b)
  {
    if b == [] {
      assert a + b == a;
    } else {
      JoinAppend(a, b[..|b| - 1]);
      assert (a + b)[..|a + b| - 1] == a + b[..|b| - 1];
    }
  }

  lemma JoinOne(chunks: seq<seq<Byte>>, chunk: seq<Byte>)
    ensures Join(chunks + [chunk]) == Join(chunks) + chunk
  {
    assert (chunks + [chunk])[..|chunks|] == chunks;
  }

  /** One frame: never more than its share of the content length, all of it exactly when intact. */
  method StreamBlob(digest: Digest, header: seq<Byte>, fetched: Fetched) returns (out: seq<seq<Byte>>, ok: bool)
    ensures ok <==> Intact(digest, fetched)
    ensures ok ==> Join(out) == header + Delivered(fetched)
    ensures |Join(out)| <= |header| + digest.size
  {
    if !fetched.Found? || fetched.size != digest.size {
      return [], false;
    }
    out := [header];
    JoinOne([], header);
    assert [] + [header] == out;
    ghost var sent: seq<Byte> := [];
    var streamed := 0;
    for i := 0 to |fetched.stream|
      invariant Body(fetched.stream[..i]) == Some(sent) && streamed == |sent| <= fetched.size
      invariant Join(out) == header + sent
    {
      BodyNext(fetched.stream, i);
      BodyStops(fetched.stream, i);
      if fetched.stream[i].Broken? {
        return out, false;
      }
      var chunk := fetched.stream[i].bytes;
      streamed := streamed + |chunk|;
      if streamed > fetched.size {
        return out, false;
      }
      JoinOne(out, chunk);
      out, sent := out + [chunk], sent + chunk;
    }
    assert fetched.stream[..|fetched.stream|] == fetched.stream;
    ok := streamed == fetched.size;
  }

  function Delivered(fetched: Fetched): seq<Byte> {
    if fetched.Found? && Body(fetched.stream).Some? then Body(fetched.stream).value else []
  }

  /** The entries a complete response carries. */
  function EntriesOf(digests: seq<Digest>, fetch: Digest -> Fetched): seq<Entry> {
    seq(|digests|, i requires 0 <= i < |digests| => Entry(digests[i], Delivered(fetch(digests[i]))))
  }

  ghost predicate AllIntact(digests: seq<Digest>, fetch: Digest -> Fetched) {
    forall i :: 0 <= i < |digests| ==> Intact(digests[i], fetch(digests[i]))
  }

  lemma {:induction false} EntriesFacts(digests: seq<Digest>, fetch: Digest -> Fetched)
    requires AllIntact(digests, fetch) && AllValid(digests)
    ensures Total(EntriesOf(digests, fetch)) == Sizes(digests)
    ensures forall e :: e in EntriesOf(digests, fetch) ==> e.Valid() && e.digest.size <= Sizes(digests)
  {
    hide Digest.Valid;
    if digests != [] {
      var init := digests[..|digests| - 1];
      EntriesFacts(init, fetch);
      var entries := EntriesOf(digests, fetch);
      assert entries[..|entries| - 1] == EntriesOf(init, fetch);
      forall e | e in entries
        ensures e.Valid() && e.digest.size <= Sizes(digests)
      {
        var i :| 0 <= i < |entries| && entries[i] == e;
        if i < |init| {
          assert e == EntriesOf(init, fetch)[i];
        }
      }
    }
  }

  lemma ServedAreValid(digests: seq<Digest>, visible: Digest -> bool)
    requires AllValid(digests)
    ensures AllValid(Keep(FirstOccurrences(digests), visible))
  {
    hide Digest.Valid, FirstOccurrences, Keep;
    FirstOccurrencesFacts(digests);
    KeepFacts(FirstOccurrences(digests), visible);
    var served := Keep(FirstOccurrences(digests), visible);
    forall i | 0 <= i < |served|
      ensures served[i].Valid()
    {
      assert served[i] in digests;
    }
  }

  /** The response body after its magic: frames in plan order until one fails. */
  method StreamAll(plan: Plan, fetch: Digest -> Fetched) returns (out: seq<seq<Byte>>, completed: bool)
    requires AllValid(plan.digests) && |plan.headers| == |plan.digests|
    requires forall i :: 0 <= i < |plan.digests| ==> plan.headers[i] == HeaderOf(plan.digests[i])
    ensures |Join(out)| <= FramedLength(plan.digests)
    ensures completed <==> AllIntact(plan.digests, fetch)
    ensures completed ==> Join(out) == Encode(EntriesOf(plan.digests, fetch))
  {
    hide Digest.Valid, Intact, HeaderOf, Frame, Sizes, Delivered, Encode;
    out := [MAGIC];
    JoinOne([], MAGIC);
    assert [] + [MAGIC] == out;
    StreamStarts(plan.digests, fetch);
    for i := 0 to |plan.digests|
      invariant AllIntact(plan.digests[..i], fetch)
      invariant Join(out) == Encode(EntriesOf(plan.digests[..i], fetch))
      invariant |Join(out)| == FramedLength(plan.digests[..i])
    {
      var digest := plan.digests[i];
      var frame, ok := StreamBlob(digest, plan.headers[i], fetch(digest));
      FrameShare(plan.digests, i);
      JoinAppend(out, frame);
      out := out + frame;
      if !ok {
        return out, false;
      }
      StreamNext(plan.digests, i, fetch);
    }
    assert plan.digests[..|plan.digests|] == plan.digests;
    completed := true;
  }

  lemma StreamStarts(digests: seq<Digest>, fetch: Digest -> Fetched)
    ensures digests[..0] == [] && FramedLength([]) == MAGIC_BYTES
    ensures Encode(EntriesOf(digests[..0], fetch)) == MAGIC
  {
  }

  lemma FrameShare(digests: seq<Digest>, i: nat)
    requires i < |digests| && AllValid(digests)
    ensures |HeaderOf(digests[i])| == HEADER_BYTES
    ensures FramedLength(digests[..i + 1]) == FramedLength(digests[..i]) + HEADER_BYTES +
            digests[i].size <= FramedLength(digests)
  {
    hide EncodeHeader, Digest.Valid;
    HeaderRoundTrip(digests[i]);
    assert digests[..i + 1] == digests[..i] + [digests[i]];
    SizesSnoc(digests[..i], digests[i]);
    FramedGrows(digests, i + 1);
  }

  lemma StreamNext(digests: seq<Digest>, i: nat, fetch: Digest -> Fetched)
    requires i < |digests| && AllIntact(digests[..i], fetch) && Intact(digests[i], fetch(digests[i]))
    ensures AllIntact(digests[..i + 1], fetch)
    ensures Encode(EntriesOf(digests[..i + 1], fetch)) ==
            Encode(EntriesOf(digests[..i], fetch)) + (HeaderOf(digests[i]) + Delivered(fetch(digests[i])))
    ensures |Delivered(fetch(digests[i]))| == digests[i].size
  {
    hide Encode, HeaderOf, Body, Total, AllEvents, EventsOf;
    var e := Entry(digests[i], Delivered(fetch(digests[i])));
    assert forall j :: 0 <= j < i ==> digests[..i + 1][j] == digests[..i][j];
    assert EntriesOf(digests[..i + 1], fetch) == EntriesOf(digests[..i], fetch) + [e];
    EncodeSnoc(EntriesOf(digests[..i], fetch), e);
  }

  /** `pack_blobs` against a visibility index and a store, both arbitrary. */
  method PackBlobs(digests: seq<Digest>, visible: Digest -> bool, fetch: Digest -> Fetched, maxBlobBytes: nat)
      returns (r: Result<Download, DownloadError>)
    ensures var wanted := FirstOccurrences(digests);
            r.Ok? <==>
              && |digests| <= MAX_BATCH_ITEMS && AllValid(digests)
              && Sizes(wanted) <= maxBlobBytes && Sizes(wanted) < U64_LIMIT
              && FramedLength(Keep(wanted, visible)) < U64_LIMIT
    ensures r.Ok? ==>
              var served := Keep(FirstOccurrences(digests), visible);
              var d := r.value;
              && d.plan.digests == served
              && d.plan.contentLength == FramedLength(served) && d.plan.payloadBytes == Sizes(served)
              && |Join(d.emitted)| <= d.plan.contentLength
              && (d.completed <==> AllIntact(served, fetch))
              && (d.completed ==> Join(d.emitted) == Encode(EntriesOf(served, fetch)))
  {
    hide Digest.Valid, HeaderOf, Intact, Encode;
    if |digests| > MAX_BATCH_ITEMS {
      return Err(TooManyDigests);
    }
    var requested := Dedupe(digests, maxBlobBytes);
    if requested.Err? {
      return Err(requested.error);
    }
    var served := Keep(requested.value, visible);
    ServedAreValid(digests, visible);
    var plan := PlanFrames(served);
    if plan.Err? {
      return Err(plan.error);
    }
    var out, completed := StreamAll(plan.value, fetch);
    r := Ok(Download(plan.value, out, completed));
  }

  // -------------------------------------------------------------- reading it back

  /** A completed download, cut into chunks by any network, is accepted by a reader limited to
      the response's own counts, yields the same entries, and fits the upload transport. */
  lemma DownloadReadsBack(digests: seq<Digest>, visible: Digest -> bool, fetch: Digest -> Fetched, maxBlobBytes: nat,
                          chunks: seq<seq<Byte>>)
    requires |digests| <= MAX_BATCH_ITEMS && AllValid(digests)
    requires Sizes(FirstOccurrences(digests)) <= maxBlobBytes
    requires FramedLength(Keep(FirstOccurrences(digests), visible)) < U64_LIMIT
    requires AllIntact(Keep(FirstOccurrences(digests), visible), fetch)
    requires Join(chunks) == Encode(EntriesOf(Keep(FirstOccurrences(digests), visible), fetch))
    ensures var served := Keep(FirstOccurrences(digests), visible);
            var lim := Limits(maxBlobBytes, |served|, Sizes(served));
            var fed := FeedChunks(lim, START, chunks);
            && fed.Ok? && Finish(fed.value.reader).Ok?
            && Replay(NOTHING, fed.value.events) == Some(Progress(EntriesOf(served, fetch), None, []))
            && |Join(chunks)| == FramedLength(served) <= TransportLimit(maxBlobBytes)
  {
    hide Digest.Valid, Intact, FirstOccurrences, Keep, Encode, Sizes, FeedChunks, Replay, AllEvents, Total;
    var wanted := FirstOccurrences(digests);
    var served := Keep(wanted, visible);
    ServedAreValid(digests, visible);
    FirstOccurrencesFacts(digests);
    KeepFacts(wanted, visible);
    EntriesFacts(served, fetch);
    var entries, lim := EntriesOf(served, fetch), Limits(maxBlobBytes, |served|, Sizes(served));
    assert Within(lim, entries);
    ReadsBackEntries(lim, entries, chunks);
    ReplayEntries(entries);
    FramesLength(entries);
    EncodeLength(entries);
  }

  lemma EncodeLength(entries: seq<Entry>)
    ensures |Encode(entries)| == MAGIC_BYTES + |Frames(entries)|
  {
  }
}
