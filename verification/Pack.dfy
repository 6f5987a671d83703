/**
 The incremental pack reader.

 `Feed` is the simple form: one byte at a time, with every transition taken as soon as its
 last byte arrives. `PackReader.Push` is the form the server runs, which consumes whole
 slices; it is proved to compute `Feed` on any chunk.
 */
module Pack {
  import opened Wrappers
  import opened Digests

  const MAGIC: seq<Byte> := [0x4d, 0x42, 0x58, 0x50, 0x41, 0x43, 0x4b, 0x31]
  const MAGIC_BYTES: nat := 8

  datatype PackEvent = Started(digest: Digest) | Payload(bytes: seq<Byte>) | Complete

  datatype PackError =
    | BadMagic
    | BadAlgorithm(tag: Byte)
    | Truncated
    | BlobTooLarge(size: nat, limit: nat)
    | TooManyBlobs(limit: nat)
    | TooManyBytes(limit: nat)

  datatype Phase = AtMagic | AtHeader | InPayload

  datatype Limits = Limits(maxBlobBytes: nat, maxBlobs: nat, maxPayloadBytes: nat)

  /** Everything a reader remembers between bytes. */
  datatype Reader = Reader(phase: Phase, buffer: seq<Byte>, blobs: nat, payloadBytes: nat, remaining: nat) {

    /** Buffers never hold a whole header, and a payload phase always has bytes to come. */
    predicate Valid() {
      match phase
      case AtMagic => |buffer| < MAGIC_BYTES && blobs == 0 && payloadBytes == 0
      case AtHeader => |buffer| < HEADER_BYTES
      case InPayload => buffer == [] && remaining > 0
    }

    predicate AtBoundary() {
      phase == AtHeader && buffer == []
    }
  }

  const START := Reader(AtMagic, [], 0, 0, 0)

  /** A reader and the events that brought it there. */
  datatype Fed = Fed(reader: Reader, events: seq<PackEvent>)

  function ParseHeader(maxBlobBytes: nat, header: seq<Byte>): (r: Result<Digest, PackError>)
    requires |header| == HEADER_BYTES
  {
    match DecodeHeader(header)
    case Err(_) => Err(BadAlgorithm(header[0]))
    case Ok(digest) =>
      if digest.size > maxBlobBytes then Err(BlobTooLarge(digest.size, maxBlobBytes)) else Ok(digest)
  }

  function StepMagic(r: Reader, b: Byte): Result<Fed, PackError>
    requires r.Valid() && r.phase == AtMagic
  {
    var buffer := r.buffer + [b];
    if |buffer| < MAGIC_BYTES then Ok(Fed(r.(buffer := buffer), []))
    else if buffer != MAGIC then Err(BadMagic)
    else Ok(Fed(r.(phase := AtHeader, buffer := []), []))
  }

  function BeginFrame(lim: Limits, blobs: nat, payloadBytes: nat, header: seq<Byte>): Result<Fed, PackError>
    requires |header| == HEADER_BYTES
  {
    var digest :- ParseHeader(lim.maxBlobBytes, header);
    if blobs + 1 > lim.maxBlobs then Err(TooManyBlobs(lim.maxBlobs))
    else if digest.size == 0 then
      Ok(Fed(Reader(AtHeader, [], blobs + 1, payloadBytes, 0), [Started(digest), Complete]))
    else
      Ok(Fed(Reader(InPayload, [], blobs + 1, payloadBytes, digest.size), [Started(digest)]))
  }

  function StepHeader(lim: Limits, r: Reader, b: Byte): Result<Fed, PackError>
    requires r.Valid() && r.phase == AtHeader
  {
    var buffer := r.buffer + [b];
    if |buffer| < HEADER_BYTES then Ok(Fed(r.(buffer := buffer), []))
    else BeginFrame(lim, r.blobs, r.payloadBytes, buffer)
  }

  function AfterPayload(r: Reader, taken: nat): Reader
    requires taken <= r.remaining
  {
    Reader(if taken == r.remaining then AtHeader else InPayload, [], r.blobs, r.payloadBytes + taken,
        r.remaining - taken)
  }

  function StepPayload(lim: Limits, r: Reader, b: Byte): Result<Fed, PackError>
    requires r.Valid() && r.phase == InPayload
  {
    if r.payloadBytes + 1 > lim.maxPayloadBytes then Err(TooManyBytes(lim.maxPayloadBytes))
    else Ok(Fed(AfterPayload(r, 1), [Payload([b])] + if r.remaining == 1 then [Complete] else []))
  }

  function Step(lim: Limits, r: Reader, b: Byte): (s: Result<Fed, PackError>)
    requires r.Valid()
    ensures s.Ok? ==> s.value.reader.Valid()
  {
    match r.phase
    case AtMagic => StepMagic(r, b)
    case AtHeader => StepHeader(lim, r, b)
    case InPayload => StepPayload(lim, r, b)
  }

  function Feed(lim: Limits, r: Reader, bytes: seq<Byte>): (s: Result<Fed, PackError>)
    requires r.Valid()
    ensures s.Ok? ==> s.value.reader.Valid()
  {
    if bytes == [] then Ok(Fed(r, []))
    else
      var before :- Feed(lim, r, bytes[..|bytes| - 1]);
      var after :- Step(lim, before.reader, bytes[|bytes| - 1]);
      Ok(Fed(after.reader, before.events + after.events))
  }

  function Finish(r: Reader): Result<(), PackError> {
    if r.AtBoundary() then Ok(()) else Err(Truncated)
  }

  // ------------------------------------------------------------ chunk independence

  function Join(chunks: seq<seq<Byte>>): seq<Byte> {
    if chunks == [] then [] else Join(chunks[..|chunks| - 1]) + chunks[|chunks| - 1]
  }

  /** Successive feeds, stopping at the first error. */
  function FeedChunks(lim: Limits, r: Reader, chunks: seq<seq<Byte>>): (s: Result<Fed, PackError>)
    requires r.Valid()
    ensures s.Ok? ==> s.value.reader.Valid()
  {
    if chunks == [] then Ok(Fed(r, []))
    else
      var before :- FeedChunks(lim, r, chunks[..|chunks| - 1]);
      var after :- Feed(lim, before.reader, chunks[|chunks| - 1]);
      Ok(Fed(after.reader, before.events + after.events))
  }

  function Resume(lim: Limits, first: Result<Fed, PackError>, more: seq<Byte>): Result<Fed, PackError>
    requires first.Ok? ==> first.value.reader.Valid()
  {
    var before :- first;
    var after :- Feed(lim, before.reader, more);
    Ok(Fed(after.reader, before.events + after.events))
  }

  lemma {:induction false} FeedAppend(lim: Limits, r: Reader, a: seq<Byte>, b: seq<Byte>)
    requires r.Valid()
    ensures Feed(lim, r, a + b) == Resume(lim, Feed(lim, r, a), b)
  {
    hide Step;
    if b == [] {
      assert a + b == a;
      if Feed(lim, r, a).Ok? {
        assert Feed(lim, r, a).value.events + [] == Feed(lim, r, a).value.events;
      }
    } else {
      var init, last := b[..|b| - 1], b[|b| - 1];
      FeedAppend(lim, r, a, init);
      assert (a + b)[..|a + b| - 1] == a + init;
      if Feed(lim, r, a).Ok? && Feed(lim, Feed(lim, r, a).value.reader, init).Ok? {
        var first := Feed(lim, r, a).value;
        var second := Feed(lim, first.reader, init).value;
        var third := Step(lim, second.reader, last);
        if third.Ok? {
          assert first.events + (second.events + third.value.events)
              == (first.events + second.events) + third.value.events;
        }
      }
    }
  }

  /** However a byte string is cut into chunks, the reader ends in the same state, or fails
      with the same error, and has reported the same per-byte events. */
  lemma {:induction false} ChunkIndependence(lim: Limits, r: Reader, chunks: seq<seq<Byte>>)
    requires r.Valid()
    ensures FeedChunks(lim, r, chunks) == Feed(lim, r, Join(chunks))
  {
    if chunks != [] {
      var init, last := chunks[..|chunks| - 1], chunks[|chunks| - 1];
      ChunkIndependence(lim, r, init);
      FeedAppend(lim, r, Join(init), last);
    }
  }

  // ------------------------------------------------------------- slices of one phase

  function Singles(bytes: seq<Byte>): (events: seq<PackEvent>)
    ensures |events| == |bytes|
  {
    if bytes == [] then [] else Singles(bytes[..|bytes| - 1]) + [Payload([bytes[|bytes| - 1]])]
  }

  /** The normal form of an event list: adjacent payloads are not distinguished from one. */
  function Split(events: seq<PackEvent>): seq<PackEvent> {
    if events == [] then []
    else
      var last := events[|events| - 1];
      Split(events[..|events| - 1]) + if last.Payload? then Singles(last.bytes) else [last]
  }

  lemma FeedLast(lim: Limits, r: Reader, bytes: seq<Byte>)
    requires r.Valid() && bytes != []
    ensures var before := Feed(lim, r, bytes[..|bytes| - 1]);
            && (before.Err? ==> Feed(lim, r, bytes) == before)
            && (before.Ok? ==>
                  var after := Step(lim, before.value.reader, bytes[|bytes| - 1]);
                  && (after.Err? ==> Feed(lim, r, bytes) == after)
                  && (after.Ok? && before.value.events == [] ==> Feed(lim, r, bytes) == after)
                  && (after.Ok? ==>
                        Feed(lim, r, bytes) == Ok(Fed(after.value.reader, before.value.events + after.value.events))))
  {
    hide Step;
    var before := Feed(lim, r, bytes[..|bytes| - 1]);
    if before.Ok? && before.value.events == [] {
      var after := Step(lim, before.value.reader, bytes[|bytes| - 1]);
      if after.Ok? {
        assert [] + after.value.events == after.value.events;
      }
    }
  }

  lemma {:induction false} FeedBuffered(lim: Limits, r: Reader, bytes: seq<Byte>)
    requires r.Valid() && r.phase != InPayload
    requires |r.buffer| + |bytes| < if r.phase == AtMagic then MAGIC_BYTES else HEADER_BYTES
    ensures Feed(lim, r, bytes) == Ok(Fed(r.(buffer := r.buffer + bytes), []))
  {
    if bytes == [] {
      assert r.buffer + bytes == r.buffer;
    } else {
      var init := bytes[..|bytes| - 1];
      FeedBuffered(lim, r, init);
      FeedLast(lim, r, bytes);
      assert (r.buffer + init) + [bytes[|bytes| - 1]] == r.buffer + bytes;
    }
  }

  /** Filling the buffer exactly takes the phase's transition on the whole buffer. */
  lemma FeedFilled(lim: Limits, r: Reader, bytes: seq<Byte>)
    requires r.Valid() && r.phase != InPayload && bytes != []
    requires |r.buffer| + |bytes| == if r.phase == AtMagic then MAGIC_BYTES else HEADER_BYTES
    ensures r.phase == AtMagic ==>
              Feed(lim, r, bytes) ==
              if r.buffer + bytes == MAGIC then Ok(Fed(Reader(AtHeader, [], 0, 0, r.remaining), [])) else Err(BadMagic)
    ensures r.phase == AtHeader ==> Feed(lim, r, bytes) == BeginFrame(lim, r.blobs, r.payloadBytes, r.buffer + bytes)
  {
    hide Feed, BeginFrame;
    var init := bytes[..|bytes| - 1];
    FeedBuffered(lim, r, init);
    FeedLast(lim, r, bytes);
    assert (r.buffer + init) + [bytes[|bytes| - 1]] == r.buffer + bytes;
  }

  lemma {:induction false} FeedPayload(lim: Limits, r: Reader, bytes: seq<Byte>)
    requires r.Valid() && r.phase == InPayload && 0 < |bytes| <= r.remaining
    ensures Feed(lim, r, bytes) ==
            if r.payloadBytes + |bytes| > lim.maxPayloadBytes then Err(TooManyBytes(lim.maxPayloadBytes))
            else Ok(Fed(AfterPayload(r, |bytes|), if |bytes| == r.remaining then Singles(bytes) + [Complete]
                else Singles(bytes)))
  {
    hide Feed;
    var init, last := bytes[..|bytes| - 1], Payload([bytes[|bytes| - 1]]);
    if init == [] {
      FeedNothing(lim, r);
      assert Singles(bytes) == [last];
    } else {
      FeedPayload(lim, r, init);
      assert Singles(init) + [] == Singles(init);
    }
    FeedLast(lim, r, bytes);
    var tail := if |bytes| == r.remaining then [Complete] else [];
    assert Singles(init) + ([last] + tail) == Singles(bytes) + tail;
    assert Singles(bytes) + [] == Singles(bytes);
  }

  /** Extending a successful feed by one slice, or by a slice that fails and whatever follows it. */
  lemma FeedMore(lim: Limits, r: Reader, used: seq<Byte>, taken: seq<Byte>, rest: seq<Byte>, events: seq<PackEvent>)
    requires r.Valid()
    requires Feed(lim, r, used).Ok? && Feed(lim, r, used).value.events == events
    ensures var after := Feed(lim, Feed(lim, r, used).value.reader, taken);
            && (after.Ok? ==> Feed(lim, r, used + taken) == Ok(Fed(after.value.reader, events + after.value.events)))
            && (after.Ok? && after.value.events == [] ==>
                  Feed(lim, r, used + taken) == Ok(Fed(after.value.reader, events)))
            && (after.Err? ==> Feed(lim, r, used + (taken + rest)) == Err(after.error))
    ensures used + (taken + rest) == (used + taken) + rest
    ensures rest == [] ==> used + (taken + rest) == used + taken
  {
    hide Feed;
    assert used + (taken + rest) == (used + taken) + rest;
    assert events + [] == events;
    FeedAppend(lim, r, used, taken);
    FeedAppend(lim, r, used + taken, rest);
  }

  lemma FeedNothing(lim: Limits, r: Reader)
    requires r.Valid()
    ensures Feed(lim, r, []) == Ok(Fed(r, Split([]))) && Split([]) == []
  {
  }

  lemma {:induction false} SplitAppend(a: seq<PackEvent>, b: seq<PackEvent>)
    ensures Split(a + b) == Split(a) + Split(b)
  {
    hide Singles;
    if b == [] {
      assert a + b == a && Split(b) == [];
    } else {
      var init, last := b[..|b| - 1], b[|b| - 1];
      var tail := if last.Payload? then Singles(last.bytes) else [last];
      SplitAppend(a, init);
      assert (a + b)[..|a + b| - 1] == a + init && (a + b)[|a + b| - 1] == last;
      assert Split(a + b) == (Split(a) + Split(init)) + tail;
      assert Split(b) == Split(init) + tail;
    }
  }

  lemma SplitPayload(bytes: seq<Byte>)
    ensures Split([Payload(bytes)]) == Singles(bytes)
    ensures Split([Payload(bytes)] + [Complete]) == Singles(bytes) + [Complete]
  {
    hide Singles;
    assert Split([Payload(bytes)]) == Split([]) + Singles(bytes);
    SplitAppend([Payload(bytes)], [Complete]);
    assert Split([Complete]) == Split([]) + [Complete];
  }

  lemma SplitStarted(digest: Digest)
    ensures Split([Started(digest)]) == [Started(digest)]
    ensures Split([Started(digest), Complete]) == [Started(digest), Complete]
  {
    SplitAppend([Started(digest)], [Complete]);
    assert [Started(digest)] + [Complete] == [Started(digest), Complete];
  }

  // ----------------------------------------------------------- the reader the server runs

  /** What one turn of the reading loop did with the front of the remaining chunk. */
  datatype Turn = Stalled | Advanced(events: seq<PackEvent>) | Refused(error: PackError)

  predicate NoEmptyPayload(events: seq<PackEvent>) {
    Payload([]) !in events
  }

  /** A turn agrees with feeding the bytes it consumed; a turn that loops consumed some. */
  ghost predicate TurnMatches(lim: Limits, before: Reader, taken: seq<Byte>, left: seq<Byte>, turn: Turn, after: Reader)
    requires before.Valid()
  {
    var fed := Feed(lim, before, taken);
    match turn
    case Stalled => left == [] && fed == Ok(Fed(after, []))
    case Advanced(events) => taken != [] && fed == Ok(Fed(after, Split(events))) && NoEmptyPayload(events)
    case Refused(error) => fed == Err(error)
  }

  class PackReader {
    const limits: Limits
    var phase: Phase
    var buffer: seq<Byte>
    var blobs: nat
    var payloadBytes: nat
    var remaining: nat

    ghost function View(): Reader
      reads this
    {
      Reader(phase, buffer, blobs, payloadBytes, remaining)
    }

    ghost predicate Valid()
      reads this
    {
      View().Valid()
    }

    constructor (limits: Limits)
      ensures Valid() && View() == START && this.limits == limits
    {
      this.limits := limits;
      phase, buffer, blobs, payloadBytes, remaining := AtMagic, [], 0, 0, 0;
    }

    /** Move bytes from the front of `rest` until `wanted` are held. */
    method Fill(rest: seq<Byte>, wanted: nat) returns (left: seq<Byte>, full: bool, ghost taken: seq<Byte>)
      requires |buffer| < wanted
      modifies this`buffer
      ensures rest == taken + left && buffer == old(buffer) + taken
      ensures |buffer| <= wanted && full == (|buffer| == wanted)
      ensures !full ==> left == []
    {
      var take := if wanted - |buffer| < |rest| then wanted - |buffer| else |rest|;
      taken := rest[..take];
      buffer := buffer + rest[..take];
      left := rest[take..];
      full := |buffer| == wanted;
    }

    method TurnMagic(rest: seq<Byte>) returns (left: seq<Byte>, turn: Turn, ghost taken: seq<Byte>)
      requires Valid() && phase == AtMagic
      modifies this
      ensures rest == taken + left && TurnMatches(limits, old(View()), taken, left, turn, View())
    {
      hide Feed, Step;
      var full;
      left, full, taken := Fill(rest, MAGIC_BYTES);
      if !full {
        FeedBuffered(limits, old(View()), taken);
        return left, Stalled, taken;
      }
      FeedFilled(limits, old(View()), taken);
      if buffer != MAGIC {
        return left, Refused(BadMagic), taken;
      }
      buffer := [];
      phase := AtHeader;
      turn := Advanced([]);
    }

    method TurnHeader(rest: seq<Byte>) returns (left: seq<Byte>, turn: Turn, ghost taken: seq<Byte>)
      requires Valid() && phase == AtHeader
      modifies this
      ensures rest == taken + left && TurnMatches(limits, old(View()), taken, left, turn, View())
    {
      hide Feed, Step, ParseHeader;
      if rest == [] && buffer == [] {
        FeedNothing(limits, View());
        return rest, Stalled, [];
      }
      var full;
      left, full, taken := Fill(rest, HEADER_BYTES);
      if !full {
        FeedBuffered(limits, old(View()), taken);
        return left, Stalled, taken;
      }
      FeedFilled(limits, old(View()), taken);
      var parsed := ParseHeader(limits.maxBlobBytes, buffer);
      if parsed.Err? {
        return left, Refused(parsed.error), taken;
      }
      buffer := [];
      remaining := parsed.value.size;
      blobs := blobs + 1;
      if blobs > limits.maxBlobs {
        return left, Refused(TooManyBlobs(limits.maxBlobs)), taken;
      }
      var events := [Started(parsed.value)];
      phase := InPayload;
      if remaining == 0 {
        events := events + [Complete];
        phase := AtHeader;
        assert events == [Started(parsed.value), Complete];
      }
      SplitStarted(parsed.value);
      turn := Advanced(events);
    }

    method TurnPayload(rest: seq<Byte>) returns (left: seq<Byte>, turn: Turn, ghost taken: seq<Byte>)
      requires Valid() && phase == InPayload
      modifies this
      ensures rest == taken + left && TurnMatches(limits, old(View()), taken, left, turn, View())
    {
      hide Feed, Step, Split, Singles;
      if rest == [] {
        FeedNothing(limits, View());
        return rest, Stalled, [];
      }
      var take := if remaining < |rest| then remaining else |rest|;
      var payload := rest[..take];
      left, taken := rest[take..], payload;
      FeedPayload(limits, old(View()), payload);
      remaining := remaining - take;
      payloadBytes := payloadBytes + take;
      if payloadBytes > limits.maxPayloadBytes {
        return left, Refused(TooManyBytes(limits.maxPayloadBytes)), taken;
      }
      var events := [Payload(payload)];
      if remaining == 0 {
        events := events + [Complete];
        phase := AtHeader;
      }
      SplitPayload(payload);
      turn := Advanced(events);
    }

    /** Consume one chunk. Success leaves exactly the state and the events that feeding the
        chunk byte by byte would; failure is exactly that feed's error. */
    method Push(chunk: seq<Byte>) returns (r: Result<seq<PackEvent>, PackError>)
      requires Valid()
      modifies this
      ensures r.Ok? ==> Valid() && Feed(limits, old(View()), chunk) == Ok(Fed(View(), Split(r.value)))
      ensures r.Ok? ==> NoEmptyPayload(r.value)
      ensures r.Err? ==> Feed(limits, old(View()), chunk) == Err(r.error)
    {
      hide Feed, Split;
      ghost var start := View();
      var events: seq<PackEvent> := [];
      var rest := chunk;
      ghost var used: seq<Byte> := [];
      FeedNothing(limits, start);
      while true
        invariant Valid() && chunk == used + rest && NoEmptyPayload(events)
        invariant Feed(limits, start, used) == Ok(Fed(View(), Split(events)))
        decreases |rest|
      {
        var turn: Turn, left: seq<Byte>;
        ghost var taken;
        match phase {
          case AtMagic => left, turn, taken := TurnMagic(rest);
          case AtHeader => left, turn, taken := TurnHeader(rest);
          case InPayload => left, turn, taken := TurnPayload(rest);
        }
        FeedMore(limits, start, used, taken, left, Split(events));
        used, rest := used + taken, left;
        match turn {
          case Stalled =>
            return Ok(events);
          case Refused(error) =>
            return Err(error);
          case Advanced(more) =>
            SplitAppend(events, more);
            events := events + more;
        }
      }
    }

    method Close() returns (r: Result<(), PackError>)
      ensures r == Finish(View())
    {
      if phase == AtHeader && buffer == [] {
        return Ok(());
      } else {
        return Err(Truncated);
      }
    }
  }
}
