/** What a pack is, independently of how it is read, and that the reader accepts exactly that. */
module PackGrammar {
  import opened Wrappers
  import opened Digests
  import opened Pack

  /** One blob of a pack. Nothing here relates the payload to the hash; the upload handler does. */
  datatype Entry = Entry(digest: Digest, payload: seq<Byte>) {
    predicate Valid() {
      digest.Valid() && |payload| == digest.size
    }
  }

  function HeaderOf(digest: Digest): seq<Byte> {
    match EncodeHeader(digest)
    case Ok(header) => header
    case Err(_) => []
  }

  function Frame(e: Entry): seq<Byte> {
    HeaderOf(e.digest) + e.payload
  }

  function Frames(entries: seq<Entry>): seq<Byte> {
    if entries == [] then [] else Frames(entries[..|entries| - 1]) + Frame(entries[|entries| - 1])
  }

  function Encode(entries: seq<Entry>): seq<Byte> {
    MAGIC + Frames(entries)
  }

  function Total(entries: seq<Entry>): nat {
    if entries == [] then 0 else Total(entries[..|entries| - 1]) + |entries[|entries| - 1].payload|
  }

  predicate Within(lim: Limits, entries: seq<Entry>) {
    && (forall e :: e in entries ==> e.Valid() && e.digest.size <= lim.maxBlobBytes)
    && |entries| <= lim.maxBlobs
    && Total(entries) <= lim.maxPayloadBytes
  }

  function EventsOf(e: Entry): seq<PackEvent> {
    [Started(e.digest)] + Singles(e.payload) + [Complete]
  }

  function AllEvents(entries: seq<Entry>): seq<PackEvent> {
    if entries == [] then [] else AllEvents(entries[..|entries| - 1]) + EventsOf(entries[|entries| - 1])
  }

  /** The reader between two frames. */
  function Boundary(blobs: nat, payloadBytes: nat): Reader {
    Reader(AtHeader, [], blobs, payloadBytes, 0)
  }

  // -------------------------------------------------------------- packs are accepted

  lemma FeedHeader(lim: Limits, blobs: nat, payloadBytes: nat, digest: Digest)
    requires digest.Valid() && digest.size <= lim.maxBlobBytes && blobs < lim.maxBlobs
    ensures Feed(lim, Boundary(blobs, payloadBytes), HeaderOf(digest)) ==
            Ok(if digest.size == 0 then Fed(Boundary(blobs + 1, payloadBytes), [Started(digest), Complete])
               else Fed(Reader(InPayload, [], blobs + 1, payloadBytes, digest.size), [Started(digest)]))
  {
    hide Feed, EncodeHeader, DecodeHeader;
    HeaderRoundTrip(digest);
    var header := HeaderOf(digest);
    FeedFilled(lim, Boundary(blobs, payloadBytes), header);
    assert [] + header == header;
  }

  lemma FeedFrame(lim: Limits, blobs: nat, payloadBytes: nat, e: Entry)
    requires e.Valid() && e.digest.size <= lim.maxBlobBytes
    requires blobs < lim.maxBlobs && payloadBytes + e.digest.size <= lim.maxPayloadBytes
    ensures Feed(lim, Boundary(blobs, payloadBytes), Frame(e)) ==
            Ok(Fed(Boundary(blobs + 1, payloadBytes + e.digest.size), EventsOf(e)))
  {
    hide Feed, HeaderOf;
    var header := HeaderOf(e.digest);
    FeedHeader(lim, blobs, payloadBytes, e.digest);
    if e.payload == [] {
      assert Frame(e) == header;
      assert EventsOf(e) == [Started(e.digest), Complete];
    } else {
      FeedAppend(lim, Boundary(blobs, payloadBytes), header, e.payload);
      FeedPayload(lim, Reader(InPayload, [], blobs + 1, payloadBytes, e.digest.size), e.payload);
      assert [Started(e.digest)] + (Singles(e.payload) + [Complete]) == EventsOf(e);
    }
  }

  lemma WithinInit(lim: Limits, entries: seq<Entry>)
    requires entries != [] && Within(lim, entries)
    ensures Within(lim, entries[..|entries| - 1]) && entries[|entries| - 1].Valid()
    ensures entries[|entries| - 1].digest.size <= lim.maxBlobBytes
    ensures Total(entries[..|entries| - 1]) + entries[|entries| - 1].digest.size == Total(entries)
  {
    hide Digest.Valid, Frames, AllEvents;
    var init, last := entries[..|entries| - 1], entries[|entries| - 1];
    assert last in entries;
    assert forall e :: e in init ==> e in entries;
    assert Total(entries) == Total(init) + |last.payload|;
  }

  lemma {:induction false} EncodedIsAccepted(lim: Limits, entries: seq<Entry>)
    requires Within(lim, entries)
    ensures Feed(lim, START, Encode(entries)) == Ok(Fed(Boundary(|entries|, Total(entries)), AllEvents(entries)))
  {
    hide Feed, Within, Frame, EventsOf;
    if entries == [] {
      FeedFilled(lim, START, MAGIC);
      assert START.buffer + MAGIC == MAGIC && Encode(entries) == MAGIC;
    } else {
      var init, last := entries[..|entries| - 1], entries[|entries| - 1];
      WithinInit(lim, entries);
      EncodedIsAccepted(lim, init);
      assert |entries| <= lim.maxBlobs && Total(entries) <= lim.maxPayloadBytes by { WithinLimits(lim, entries); }
      FeedFrame(lim, |init|, Total(init), last);
      FeedAppend(lim, START, Encode(init), Frame(last));
      assert Encode(init) + Frame(last) == Encode(entries);
    }
  }

  lemma WithinLimits(lim: Limits, entries: seq<Entry>)
    requires Within(lim, entries)
    ensures |entries| <= lim.maxBlobs && Total(entries) <= lim.maxPayloadBytes
  {
  }

  // ------------------------------------------------------- only packs are accepted

  /** How far into a pack a byte string has come: whole frames, then perhaps part of one more. */
  datatype Progress = Progress(whole: seq<Entry>, digest: Option<Digest>, got: seq<Byte>)

  ghost predicate Explains(lim: Limits, bytes: seq<Byte>, f: Fed, p: Progress) {
    && Within(lim, p.whole)
    && match f.reader.phase
       case AtMagic =>
         && p == Progress([], None, [])
         && f == Fed(Reader(AtMagic, bytes, 0, 0, 0), [])
       case AtHeader =>
         && p.digest == None && p.got == []
         && bytes == Encode(p.whole) + f.reader.buffer
         && f.reader == Reader(AtHeader, f.reader.buffer, |p.whole|, Total(p.whole), 0)
         && f.events == AllEvents(p.whole)
       case InPayload =>
         && p.digest.Some? && p.digest.value.Valid()
         && |p.got| < p.digest.value.size <= lim.maxBlobBytes
         && |p.whole| < lim.maxBlobs && Total(p.whole) + |p.got| <= lim.maxPayloadBytes
         && bytes == Encode(p.whole) + HeaderOf(p.digest.value) + p.got
         && f.reader == Reader(InPayload, [], |p.whole| + 1, Total(p.whole) + |p.got|, p.digest.value.size - |p.got|)
         && f.events == AllEvents(p.whole) + [Started(p.digest.value)] + Singles(p.got)
  }

  lemma EncodeSnoc(whole: seq<Entry>, e: Entry)
    ensures Encode(whole + [e]) == Encode(whole) + HeaderOf(e.digest) + e.payload
    ensures Total(whole + [e]) == Total(whole) + |e.payload|
    ensures AllEvents(whole + [e]) == AllEvents(whole) + EventsOf(e)
  {
    hide EventsOf, HeaderOf;
    var longer := whole + [e];
    assert longer[..|longer| - 1] == whole && longer[|longer| - 1] == e;
    assert Encode(longer) == MAGIC + (Frames(whole) + (HeaderOf(e.digest) + e.payload));
  }

  lemma WithinSnoc(lim: Limits, whole: seq<Entry>, e: Entry)
    requires Within(lim, whole) && |whole| < lim.maxBlobs
    requires e.Valid() && e.digest.size <= lim.maxBlobBytes
    requires Total(whole) + e.digest.size <= lim.maxPayloadBytes
    ensures Within(lim, whole + [e])
    ensures Encode(whole + [e]) == Encode(whole) + HeaderOf(e.digest) + e.payload
    ensures Total(whole + [e]) == Total(whole) + e.digest.size
    ensures AllEvents(whole + [e]) == AllEvents(whole) + EventsOf(e)
  {
    hide EventsOf, HeaderOf, Digest.Valid, Total, AllEvents, Encode;
    EncodeSnoc(whole, e);
    assert forall x :: x in whole + [e] ==> x in whole || x == e;
  }

  lemma ExplainHeader(lim: Limits, bytes: seq<Byte>, f: Fed, p: Progress, b: Byte) returns (q: Progress)
    requires f.reader.Valid() && f.reader.phase == AtHeader && Explains(lim, bytes, f, p)
    requires StepHeader(lim, f.reader, b).Ok?
    ensures var after := StepHeader(lim, f.reader, b).value;
            Explains(lim, bytes + [b], Fed(after.reader, f.events + after.events), q)
  {
    hide Within, Encode, AllEvents, EventsOf, DecodeHeader, HeaderOf, Total;
    var header := f.reader.buffer + [b];
    assert bytes + [b] == Encode(p.whole) + header;
    if |header| < HEADER_BYTES {
      assert f.events + [] == f.events;
      return p;
    }
    HeaderDecodesValid(header);
    var digest := DecodeHeader(header).value;
    assert HeaderOf(digest) == header by { HeaderOfDecoded(header); }
    assert |p.whole| + 1 <= lim.maxBlobs;
    if digest.size == 0 {
      var e := Entry(digest, []);
      WithinLimits(lim, p.whole);
      WithinSnoc(lim, p.whole, e);
      EmptyEvents(digest);
      assert Encode(p.whole) + header + [] == Encode(p.whole) + header;
      assert Encode(p.whole + [e]) + [] == Encode(p.whole + [e]);
      q := Progress(p.whole + [e], None, []);
    } else {
      WithinLimits(lim, p.whole);
      q := Progress(p.whole, Some(digest), []);
      assert Encode(p.whole) + header + [] == Encode(p.whole) + header;
      assert f.events + [Started(digest)] + Singles([]) == f.events + [Started(digest)];
    }
  }

  lemma HeaderOfDecoded(header: seq<Byte>)
    requires |header| == HEADER_BYTES && DecodeHeader(header).Ok?
    ensures HeaderOf(DecodeHeader(header).value) == header
  {
    hide DecodeHeader, EncodeHeader;
    HeaderDecodesValid(header);
  }

  lemma EmptyEvents(digest: Digest)
    ensures EventsOf(Entry(digest, [])) == [Started(digest), Complete]
  {
  }

  lemma EventsGrow(before: seq<PackEvent>, digest: Digest, got: seq<Byte>, b: Byte)
    ensures before + [Started(digest)] + Singles(got) + ([Payload([b])] + [])
         == before + [Started(digest)] + Singles(got + [b])
    ensures before + [Started(digest)] + Singles(got) + ([Payload([b])] + [Complete])
         == before + EventsOf(Entry(digest, got + [b]))
  {
    assert (got + [b])[..|got|] == got;
    assert Singles(got + [b]) == Singles(got) + [Payload([b])];
  }

  lemma ExplainPayload(lim: Limits, bytes: seq<Byte>, f: Fed, p: Progress, b: Byte) returns (q: Progress)
    requires f.reader.Valid() && f.reader.phase == InPayload && Explains(lim, bytes, f, p)
    requires StepPayload(lim, f.reader, b).Ok?
    ensures var after := StepPayload(lim, f.reader, b).value;
            Explains(lim, bytes + [b], Fed(after.reader, f.events + after.events), q)
  {
    hide Within, Encode, AllEvents, HeaderOf, Total, Singles, EventsOf, Digest.Valid;
    var digest, got := p.digest.value, p.got + [b];
    EventsGrow(AllEvents(p.whole), digest, p.got, b);
    assert bytes + [b] == Encode(p.whole) + HeaderOf(digest) + got;
    if |got| == digest.size {
      var e := Entry(digest, got);
      WithinSnoc(lim, p.whole, e);
      q := Progress(p.whole + [e], None, []);
      assert Encode(p.whole + [e]) + [] == Encode(p.whole + [e]);
    } else {
      q := Progress(p.whole, Some(digest), got);
    }
  }

  lemma ExplainMagic(lim: Limits, bytes: seq<Byte>, f: Fed, p: Progress, b: Byte)
    requires f.reader.Valid() && f.reader.phase == AtMagic && Explains(lim, bytes, f, p)
    requires StepMagic(f.reader, b).Ok?
    ensures var after := StepMagic(f.reader, b).value;
            Explains(lim, bytes + [b], Fed(after.reader, f.events + after.events), p)
  {
    assert Encode([]) + [] == MAGIC;
  }

  lemma ExplainNothing(lim: Limits) returns (p: Progress)
    ensures Feed(lim, START, []).Ok? && Explains(lim, [], Feed(lim, START, []).value, p)
  {
    p := Progress([], None, []);
  }

  /** Every prefix the reader has accepted is explained by the frames it has seen. */
  lemma {:induction false} AcceptedIsExplained(lim: Limits, bytes: seq<Byte>) returns (p: Progress)
    requires Feed(lim, START, bytes).Ok?
    ensures Explains(lim, bytes, Feed(lim, START, bytes).value, p)
  {
    hide StepMagic, StepHeader, StepPayload, Explains, Feed;
    if bytes == [] {
      p := ExplainNothing(lim);
    } else {
      var init, b := bytes[..|bytes| - 1], bytes[|bytes| - 1];
      FeedLast(lim, START, bytes);
      p := AcceptedIsExplained(lim, init);
      var f := Feed(lim, START, init).value;
      assert bytes == init + [b];
      match f.reader.phase {
        case AtMagic => ExplainMagic(lim, init, f, p, b);
        case AtHeader => p := ExplainHeader(lim, init, f, p, b);
        case InPayload => p := ExplainPayload(lim, init, f, p, b);
      }
    }
  }

  // ------------------------------------------------------------------ the main results

  /** Every push and the final check succeed. */
  predicate Accepts(lim: Limits, chunks: seq<seq<Byte>>) {
    var fed := FeedChunks(lim, START, chunks);
    fed.Ok? && Finish(fed.value.reader).Ok?
  }

  /** A pack is the encoding of an entry list within the limits, and of only one. */
  ghost predicate IsPack(lim: Limits, bytes: seq<Byte>, entries: seq<Entry>) {
    Within(lim, entries) && bytes == Encode(entries)
  }

  lemma PackIsUnambiguous(lim: Limits, bytes: seq<Byte>, a: seq<Entry>, b: seq<Entry>)
    requires IsPack(lim, bytes, a) && IsPack(lim, bytes, b)
    ensures a == b
  {
    hide Feed, Within, Encode, AllEvents;
    EncodedIsAccepted(lim, a);
    EncodedIsAccepted(lim, b);
    EventsDetermineEntries(a, b);
  }

  lemma {:induction false} SinglesAt(bytes: seq<Byte>, i: nat)
    requires i < |bytes|
    ensures Singles(bytes)[i] == Payload([bytes[i]])
  {
    if i < |bytes| - 1 {
      SinglesAt(bytes[..|bytes| - 1], i);
    }
  }

  lemma LastEvents(entries: seq<Entry>)
    requires entries != []
    ensures AllEvents(entries) == AllEvents(entries[..|entries| - 1]) + EventsOf(entries[|entries| - 1])
  {
  }

  /** Frames are delimited by their `Started` events, so an event list has one reading. */
  lemma {:induction false} EventsDetermineEntries(a: seq<Entry>, b: seq<Entry>)
    requires |a| == |b| && AllEvents(a) == AllEvents(b)
    ensures a == b
  {
    hide EventsOf, AllEvents;
    if a != [] {
      var x, y := a[|a| - 1], b[|b| - 1];
      var s, t := a[..|a| - 1], b[..|b| - 1];
      LastEvents(a);
      LastEvents(b);
      SameLastFrame(AllEvents(s), x, AllEvents(t), y);
      EventsDetermineEntries(s, t);
      assert a == s + [x] && b == t + [y];
    }
  }

  lemma SameLastFrame(s: seq<PackEvent>, x: Entry, t: seq<PackEvent>, y: Entry)
    requires s + EventsOf(x) == t + EventsOf(y)
    ensures s == t && x == y
  {
    var events := s + EventsOf(x);
    var i, j := |s|, |t|;
    assert events[i] == Started(x.digest) && events[j] == Started(y.digest);
    if i < j {
      assert events[j] == EventsOf(x)[j - i];
      if j - i <= |x.payload| {
        SinglesAt(x.payload, j - i - 1);
      }
      assert false;
    } else if j < i {
      assert events[i] == EventsOf(y)[i - j];
      if i - j <= |y.payload| {
        SinglesAt(y.payload, i - j - 1);
      }
      assert false;
    }
    assert s == events[..i] && t == events[..j];
    assert EventsOf(x) == events[i..] && EventsOf(y) == events[i..];
    assert |x.payload| == |y.payload|;
    forall k | 0 <= k < |x.payload|
      ensures x.payload[k] == y.payload[k]
    {
      SinglesAt(x.payload, k);
      SinglesAt(y.payload, k);
      assert EventsOf(x)[k + 1] == EventsOf(y)[k + 1];
    }
  }

  /** Chunks are accepted exactly when together they are a pack within the reader's limits. */
  lemma AcceptsExactlyPacks(lim: Limits, chunks: seq<seq<Byte>>)
    ensures Accepts(lim, chunks) <==> exists entries :: IsPack(lim, Join(chunks), entries)
  {
    hide Feed, FeedChunks, Within, Encode;
    ChunkIndependence(lim, START, chunks);
    if Accepts(lim, chunks) {
      var p := AcceptedIsExplained(lim, Join(chunks));
      assert Encode(p.whole) + [] == Encode(p.whole);
      assert IsPack(lim, Join(chunks), p.whole);
    }
    if entries :| IsPack(lim, Join(chunks), entries) {
      EncodedIsAccepted(lim, entries);
    }
  }

  /** Reading a pack in any chunking yields its entries' events and the declared counts. */
  lemma ReadsBackEntries(lim: Limits, entries: seq<Entry>, chunks: seq<seq<Byte>>)
    requires Within(lim, entries) && Join(chunks) == Encode(entries)
    ensures FeedChunks(lim, START, chunks).Ok?
    ensures var f := FeedChunks(lim, START, chunks).value;
            && Finish(f.reader).Ok?
            && f.events == AllEvents(entries)
            && f.reader.blobs == |entries| && f.reader.payloadBytes == Total(entries)
  {
    hide Feed, FeedChunks, Within, Encode, AllEvents, Total;
    ChunkIndependence(lim, START, chunks);
    EncodedIsAccepted(lim, entries);
  }

  lemma {:induction false} FramesLength(entries: seq<Entry>)
    requires forall e :: e in entries ==> e.Valid()
    ensures |Frames(entries)| == HEADER_BYTES * |entries| + Total(entries)
  {
    hide EncodeHeader;
    if entries != [] {
      var init, last := entries[..|entries| - 1], entries[|entries| - 1];
      assert last in entries;
      FramesLength(init);
      HeaderRoundTrip(last.digest);
    }
  }

  /** Byte accounting: past the magic, every byte fed is in a header, in a counted payload or
      in the buffer. In particular neither counter can pass the number of bytes fed. */
  lemma EveryByteIsAccounted(lim: Limits, bytes: seq<Byte>)
    requires Feed(lim, START, bytes).Ok?
    ensures var r := Feed(lim, START, bytes).value.reader;
            r.phase != AtMagic ==> |bytes| == MAGIC_BYTES + HEADER_BYTES * r.blobs + r.payloadBytes + |r.buffer|
    ensures var r := Feed(lim, START, bytes).value.reader;
            r.blobs <= lim.maxBlobs && r.payloadBytes <= lim.maxPayloadBytes
  {
    hide Feed, Total, Frames, EncodeHeader;
    var p := AcceptedIsExplained(lim, bytes);
    FramesLength(p.whole);
    if p.digest.Some? {
      HeaderRoundTrip(p.digest.value);
    }
  }

  // ------------------------------------------------------------- which error it is

  /** What the error says about the bytes: the frames before it and the header it met. */
  ghost predicate ErrorFits(lim: Limits, bytes: seq<Byte>, p: Progress, header: seq<Byte>, error: PackError) {
    match error
    case BadMagic => |bytes| == MAGIC_BYTES && bytes != MAGIC
    case BadAlgorithm(tag) => MetHeader(bytes, p, header) && header[0] == tag && tag !in {1, 2}
    case BlobTooLarge(size, limit) =>
      && MetHeader(bytes, p, header) && header[0] in {1, 2}
      && size == Positional(header[33..]) && limit == lim.maxBlobBytes && size > limit
    case TooManyBlobs(limit) =>
      && MetHeader(bytes, p, header) && header[0] in {1, 2} && Positional(header[33..]) <= lim.maxBlobBytes
      && limit == lim.maxBlobs == |p.whole|
    case TooManyBytes(limit) =>
      p.digest.Some? && limit == lim.maxPayloadBytes == Total(p.whole) + |p.got|
    case Truncated => false
  }

  /** The bytes are whole frames and then exactly this header. */
  ghost predicate MetHeader(bytes: seq<Byte>, p: Progress, header: seq<Byte>) {
    |header| == HEADER_BYTES && p.digest == None && bytes == Encode(p.whole) + header
  }

  /** The first error names the first thing wrong: the byte that raises it completes a magic that
      is not one, a header with an unknown tag, else with too large a size, else one blob too many,
      or is one payload byte too many. */
  lemma FirstErrorFits(lim: Limits, bytes: seq<Byte>) returns (p: Progress, header: seq<Byte>)
    requires bytes != [] && Feed(lim, START, bytes[..|bytes| - 1]).Ok? && Feed(lim, START, bytes).Err?
    ensures Explains(lim, bytes[..|bytes| - 1], Feed(lim, START, bytes[..|bytes| - 1]).value, p)
    ensures ErrorFits(lim, bytes, p, header, Feed(lim, START, bytes).error)
  {
    hide Feed, Step, Explains, ErrorFits;
    var init, b := bytes[..|bytes| - 1], bytes[|bytes| - 1];
    assert bytes == init + [b];
    FailedStep(lim, bytes);
    var f := Feed(lim, START, init).value;
    p := AcceptedIsExplained(lim, init);
    header := f.reader.buffer + [b];
    StepErrorFits(lim, init, f, p, b);
  }

  lemma FailedStep(lim: Limits, bytes: seq<Byte>)
    requires bytes != [] && Feed(lim, START, bytes[..|bytes| - 1]).Ok? && Feed(lim, START, bytes).Err?
    ensures var f := Feed(lim, START, bytes[..|bytes| - 1]).value;
            f.reader.Valid() && Step(lim, f.reader, bytes[|bytes| - 1]) == Err(Feed(lim, START, bytes).error)
  {
    hide Step;
  }

  lemma StepErrorFits(lim: Limits, bytes: seq<Byte>, f: Fed, p: Progress, b: Byte)
    requires Explains(lim, bytes, f, p) && f.reader.Valid() && Step(lim, f.reader, b).Err?
    ensures ErrorFits(lim, bytes + [b], p, f.reader.buffer + [b], Step(lim, f.reader, b).error)
  {
    hide Encode, AllEvents, HeaderOf, BeginFrame, Digest.Valid, Within;
    if f.reader.phase == AtHeader {
      var header := f.reader.buffer + [b];
      assert bytes + [b] == Encode(p.whole) + header;
      HeaderErrorFits(lim, p, header);
    }
  }

  lemma HeaderErrorFits(lim: Limits, p: Progress, header: seq<Byte>)
    requires |header| == HEADER_BYTES && Within(lim, p.whole) && p.digest == None
    requires BeginFrame(lim, |p.whole|, Total(p.whole), header).Err?
    ensures ErrorFits(lim, Encode(p.whole) + header, p, header,
            BeginFrame(lim, |p.whole|, Total(p.whole), header).error)
  {
    hide Encode, DecodeHeader, Positional;
    HeaderDecodesValid(header);
    if DecodeHeader(header).Ok? {
      HeaderLayout(DecodeHeader(header).value, header);
      LaidSize(DecodeHeader(header).value, header);
    }
    WithinLimits(lim, p.whole);
  }

  lemma LaidSize(digest: Digest, header: seq<Byte>)
    requires |header| == HEADER_BYTES && Laid(digest, header)
    ensures digest.size == Positional(header[33..])
  {
  }
}
