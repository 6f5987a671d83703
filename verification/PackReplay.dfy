/** Rebuilding frames from reader events, as a consumer of the reader does. */
module PackReplay {
  import opened Wrappers
  import opened Digests
  import opened Pack
  import opened PackGrammar

  const NOTHING := Progress([], None, [])

  /** One event's effect on a consumer; None where the consumer would report a broken reader. */
  function Apply(p: Progress, event: PackEvent): Option<Progress> {
    match event
    case Started(digest) =>
      if p.digest.Some? then None else Some(Progress(p.whole, Some(digest), []))
    case Payload(bytes) =>
      if p.digest.None? then None else Some(p.(got := p.got + bytes))
    case Complete =>
      if p.digest.None? then None else Some(Progress(p.whole + [Entry(p.digest.value, p.got)], None, []))
  }

  function Replay(p: Progress, events: seq<PackEvent>): Option<Progress> {
    if events == [] then Some(p)
    else
      match Replay(p, events[..|events| - 1])
      case None => None
      case Some(q) => Apply(q, events[|events| - 1])
  }

  lemma {:induction false} ReplayAppend(p: Progress, a: seq<PackEvent>, b: seq<PackEvent>)
    ensures Replay(p, a + b) == match Replay(p, a) case None => None case Some(q) => Replay(q, b)
  {
    hide Apply;
    if b == [] {
      assert a + b == a;
    } else {
      ReplayAppend(p, a, b[..|b| - 1]);
      assert (a + b)[..|a + b| - 1] == a + b[..|b| - 1];
    }
  }

  lemma {:induction false} ReplaySingles(p: Progress, bytes: seq<Byte>)
    requires p.digest.Some?
    ensures Replay(p, Singles(bytes)) == Some(p.(got := p.got + bytes))
  {
    if bytes == [] {
      assert p.got + bytes == p.got;
    } else {
      var init, last := bytes[..|bytes| - 1], bytes[|bytes| - 1];
      ReplaySingles(p, init);
      assert Singles(bytes)[..|bytes| - 1] == Singles(init);
      assert p.got + init + [last] == p.got + bytes;
    }
  }

  /** A consumer cannot tell a payload from the same bytes in smaller payloads. */
  lemma {:induction false} ReplaySplit(p: Progress, events: seq<PackEvent>)
    requires NoEmptyPayload(events)
    ensures Replay(p, Split(events)) == Replay(p, events)
  {
    hide Singles;
    if events != [] {
      var init, last := events[..|events| - 1], events[|events| - 1];
      ReplaySplit(p, init);
      if last.Payload? {
        assert last in events;
        ReplayAppend(p, Split(init), Singles(last.bytes));
        if Replay(p, init).Some? {
          ReplayPayload(Replay(p, init).value, last.bytes);
        }
      } else {
        assert (Split(init) + [last])[..|Split(init)|] == Split(init);
      }
    }
  }

  lemma ReplayPayload(p: Progress, bytes: seq<Byte>)
    requires bytes != []
    ensures Replay(p, Singles(bytes)) == Apply(p, Payload(bytes))
  {
    if p.digest.Some? {
      ReplaySingles(p, bytes);
    } else {
      ReplayOutside(p, bytes);
    }
  }

  lemma {:induction false} ReplayOutside(p: Progress, bytes: seq<Byte>)
    requires bytes != [] && p.digest.None?
    ensures Replay(p, Singles(bytes)) == None
  {
    var init := bytes[..|bytes| - 1];
    assert Singles(bytes)[..|bytes| - 1] == Singles(init);
    if init != [] {
      ReplayOutside(p, init);
    }
  }

  lemma ReplayOpen(whole: seq<Entry>, digest: Digest, got: seq<Byte>)
    ensures Replay(Progress(whole, None, []), [Started(digest)] + Singles(got)) ==
            Some(Progress(whole, Some(digest), got))
  {
    hide Singles;
    var p, q := Progress(whole, None, []), Progress(whole, Some(digest), []);
    ReplayAppend(p, [Started(digest)], Singles(got));
    assert Replay(p, [Started(digest)]) == Apply(p, Started(digest)) by { assert Replay(p, []) == Some(p); }
    ReplaySingles(q, got);
    assert [] + got == got;
  }

  lemma ReplayEntry(whole: seq<Entry>, e: Entry)
    ensures Replay(Progress(whole, None, []), EventsOf(e)) == Some(Progress(whole + [e], None, []))
  {
    hide Singles;
    ReplayOpen(whole, e.digest, e.payload);
    var events := EventsOf(e);
    assert events[..|events| - 1] == [Started(e.digest)] + Singles(e.payload);
  }

  lemma {:induction false} ReplayEntries(entries: seq<Entry>)
    ensures Replay(NOTHING, AllEvents(entries)) == Some(Progress(entries, None, []))
  {
    hide EventsOf, Apply;
    if entries != [] {
      var init, last := entries[..|entries| - 1], entries[|entries| - 1];
      ReplayEntries(init);
      ReplayAppend(NOTHING, AllEvents(init), EventsOf(last));
      ReplayEntry(init, last);
      assert entries == init + [last];
    }
  }

  /** The reader's events always rebuild the frames its input has reached, so a consumer never
      meets a payload or an end outside a frame. */
  lemma FeedReplays(lim: Limits, bytes: seq<Byte>) returns (p: Progress)
    requires Feed(lim, START, bytes).Ok?
    ensures Explains(lim, bytes, Feed(lim, START, bytes).value, p)
    ensures Replay(NOTHING, Feed(lim, START, bytes).value.events) == Some(p)
  {
    hide Feed, AllEvents, Singles, Within, Encode, Replay;
    p := AcceptedIsExplained(lim, bytes);
    ReplayEntries(p.whole);
    if p.digest.Some? {
      var open := [Started(p.digest.value)] + Singles(p.got);
      ReplayAppend(NOTHING, AllEvents(p.whole), open);
      ReplayOpen(p.whole, p.digest.value, p.got);
      assert AllEvents(p.whole) + open == AllEvents(p.whole) + [Started(p.digest.value)] + Singles(p.got);
    } else {
      ReplayEntries([]);
      assert AllEvents([]) == [] by { NoEvents(); }
    }
  }

  lemma NoEvents()
    ensures AllEvents([]) == []
  {
  }

  lemma {:induction false} ReplayGrows(p: Progress, events: seq<PackEvent>)
    requires Replay(p, events).Some?
    ensures p.whole <= Replay(p, events).value.whole
  {
    if events != [] {
      ReplayGrows(p, events[..|events| - 1]);
    }
  }

  lemma {:induction false} EncodeGrows(a: seq<Entry>, b: seq<Entry>)
    requires a <= b
    ensures Encode(a) <= Encode(b)
  {
    hide Frame;
    if |a| == |b| {
      assert a == b;
    } else {
      var init := b[..|b| - 1];
      EncodeGrows(a, init);
      assert Encode(b) == Encode(init) + Frame(b[|b| - 1]);
    }
  }

  /** Whatever frames a consumer has rebuilt are a prefix of the bytes fed. */
  lemma WholeFramesArePrefix(lim: Limits, bytes: seq<Byte>, f: Fed, p: Progress, done: seq<Entry>)
    requires Explains(lim, bytes, f, p) && done <= p.whole && done != []
    ensures Encode(done) <= bytes
  {
    hide Within, Encode, AllEvents, Singles, HeaderOf;
    EncodeGrows(done, p.whole);
  }
}
