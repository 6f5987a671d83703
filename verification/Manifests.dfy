/**
 Task action manifests: read, merge and write back under an entity tag that is the hash of
 the canonical body.
 */
module Manifests {
  import opened Wrappers
  import opened Digests
  import opened Metadata

  const MAX_ACTION_MANIFEST_BYTES: nat := 16 * 1024 * 1024

  /** The two conditional headers, None when absent or not visible text. */
  datatype Headers = Headers(ifNoneMatch: Option<string>, ifMatch: Option<string>)

  datatype HttpError = BodyTooLarge | BadManifest | PreconditionRequired | BadEntityTag | ManifestChanged

  // ------------------------------------------------------------------ entity tags

  predicate IsTag(etag: string) {
    |etag| == 2 * HASH_BYTES && LowerHex(etag)
  }

  function QuotedEtag(etag: string): string {
    "\"" + etag + "\""
  }

  /** The text between a leading and a trailing quote. */
  function Unquoted(value: string): Option<string> {
    if |value| == 0 || value[0] != '\"' then None
    else
      var rest := value[1..];
      if |rest| == 0 || rest[|rest| - 1] != '\"' then None else Some(rest[..|rest| - 1])
  }

  function ManifestPrecondition(headers: Headers): Result<Option<string>, HttpError> {
    if headers.ifNoneMatch == Some("*") then Ok(None)
    else if headers.ifMatch.None? then Err(PreconditionRequired)
    else
      var etag := Unquoted(headers.ifMatch.value);
      if etag.Some? && IsTag(etag.value) then Ok(Some(etag.value)) else Err(BadEntityTag)
  }

  lemma UnquotedInverts(value: string, etag: string)
    ensures Unquoted(value) == Some(etag) <==> value == QuotedEtag(etag)
  {
    if value == QuotedEtag(etag) {
      assert value[1..] == etag + "\"";
      assert value[1..][..|etag|] == etag;
    }
  }

  /** Reading the headers inverts writing the tag: a tag is expected exactly when If-Match
      is that tag quoted and not overridden, none exactly under If-None-Match: *, and the two
      errors split the rest by whether If-Match is there at all. */
  lemma PreconditionInvertsQuoting(headers: Headers, etag: string)
    ensures ManifestPrecondition(headers) == Ok(Some(etag)) <==>
              headers.ifNoneMatch != Some("*") && headers.ifMatch == Some(QuotedEtag(etag)) && IsTag(etag)
    ensures ManifestPrecondition(headers) == Ok(None) <==> headers.ifNoneMatch == Some("*")
    ensures ManifestPrecondition(headers) == Err(PreconditionRequired) <==>
              headers.ifNoneMatch != Some("*") && headers.ifMatch == None
    ensures ManifestPrecondition(headers) == Err(BadEntityTag) <==>
              headers.ifNoneMatch != Some("*") && headers.ifMatch.Some? &&
              forall tag {:trigger IsTag(tag)} :: IsTag(tag) ==> headers.ifMatch.value != QuotedEtag(tag)
  {
    hide QuotedEtag, Unquoted, IsTag;
    if headers.ifMatch.Some? {
      var value := headers.ifMatch.value;
      forall tag ensures Unquoted(value) == Some(tag) <==> value == QuotedEtag(tag) {
        UnquotedInverts(value, tag);
      }
    }
  }

  // -------------------------------------------------------------------- the handlers

  /** JSON, schema and hashing, taken as given. */
  datatype Format = Format(canonical: Manifest -> seq<Byte>, parse: seq<Byte> -> Option<Manifest>,
                           hash: seq<Byte> -> string, validate: Manifest -> bool, selector: Manifest -> Digest)
  {
    function Tag(manifest: Manifest): string {
      hash(canonical(manifest))
    }

    /** Canonical text parses back to what it says, hashes are hex, and no two of the
        manifests in play collide. */
    ghost predicate Sound(known: set<Manifest>) {
      && (forall m :: parse(canonical(m)) == Some(m))
      && (forall a, b :: a in known && b in known && hash(canonical(a)) == hash(canonical(b)) ==>
            canonical(a) == canonical(b))
      && (forall a :: IsTag(hash(a)))
    }
  }

  datatype Served = Served(etag: string, body: seq<Byte>)

  /** The read handler: quoted tag and canonical body, None for not found. */
  function GetManifest(f: Format, m: Memory, key: Key): Option<Served> {
    if key !in m.manifests then None
    else Some(Served(QuotedEtag(m.manifests[key].etag), f.canonical(m.manifests[key].manifest)))
  }

  /** The write handler: the new tag, quoted, when the write was applied. */
  function PutManifest(f: Format, m: Memory, key: Key, headers: Headers, body: seq<Byte>)
      : (Memory, Result<string, HttpError>)
  {
    if |body| > MAX_ACTION_MANIFEST_BYTES then (m, Err(BodyTooLarge))
    else
      var manifest := f.parse(body);
      if manifest.None? || !f.validate(manifest.value) || f.selector(manifest.value) != key.1 then (m, Err(BadManifest))
      else
        var expected := ManifestPrecondition(headers);
        if expected.Err? then (m, Err(expected.error))
        else
          var etag := f.Tag(manifest.value);
          var (after, outcome) := CommitManifest(m, key, expected.value, ManifestRecord(etag, manifest.value));
          if outcome == ManifestStale then (after, Err(ManifestChanged)) else (after, Ok(QuotedEtag(etag)))
  }

  /** The body is a valid manifest for the key. */
  predicate WellFormed(f: Format, key: Key, body: seq<Byte>) {
    && |body| <= MAX_ACTION_MANIFEST_BYTES && f.parse(body).Some?
    && f.validate(f.parse(body).value) && f.selector(f.parse(body).value) == key.1
  }

  /** The headers ask for exactly what is stored: nothing, or the stored tag. */
  predicate Presents(m: Memory, key: Key, headers: Headers) {
    if key !in m.manifests then headers.ifNoneMatch == Some("*")
    else headers.ifNoneMatch != Some("*") && headers.ifMatch == Some(QuotedEtag(m.manifests[key].etag))
         && IsTag(m.manifests[key].etag)
  }

  /** A write is applied if and only if its body is well formed for the key and the tag, or the
      absence, that it presents is the one stored; and it reports why not. */
  lemma AppliedExactly(f: Format, m: Memory, key: Key, headers: Headers, body: seq<Byte>)
    ensures var reply := PutManifest(f, m, key, headers, body).1;
            && (reply.Ok? <==> WellFormed(f, key, body) && Presents(m, key, headers))
            && (WellFormed(f, key, body) && ManifestPrecondition(headers).Ok? && !Presents(m, key, headers) <==>
                  reply == Err(ManifestChanged))
            && (WellFormed(f, key, body) && ManifestPrecondition(headers).Err? ==>
                  reply == Err(ManifestPrecondition(headers).error))
            && (reply == Err(BodyTooLarge) <==> |body| > MAX_ACTION_MANIFEST_BYTES)
            && (reply == Err(BadManifest) <==> |body| <= MAX_ACTION_MANIFEST_BYTES && !WellFormed(f, key, body))
  {
    var etag := if key in m.manifests then m.manifests[key].etag else "";
    PreconditionInvertsQuoting(headers, etag);
    PreconditionErrors(headers);
    hide ManifestPrecondition, QuotedEtag, IsTag;
  }

  lemma PreconditionErrors(headers: Headers)
    ensures ManifestPrecondition(headers).Err? ==>
            ManifestPrecondition(headers).error in {PreconditionRequired, BadEntityTag}
  {
    hide Unquoted, IsTag;
  }

  // --------------------------------------------------------------- clients and runs

  /** What a client last learnt about a key: nothing there, or a tag and what it stands for. */
  datatype Seen = Seen(etag: string, manifest: Manifest)
  datatype View = View(key: Key, seen: Option<Seen>)

  /** `acknowledged` is history: every prediction the server has confirmed writing. */
  datatype State = State(memory: Memory, views: map<nat, View>, acknowledged: map<Key, set<string>>)

  datatype Step = Fetch(id: nat, key: Key) | Store(id: nat, body: seq<Byte>)

  /** A well-behaved write keeps every prediction of what the client saw. */
  predicate Merges(f: Format, view: View, body: seq<Byte>) {
    f.parse(body).Some? && view.seen.Some? ==> view.seen.value.manifest.predictions <= f.parse(body).value.predictions
  }

  function Presented(view: View): Headers {
    if view.seen.None? then Headers(Some("*"), None) else Headers(None, Some(view.seen.value.etag))
  }

  function Fetched(f: Format, s: State, key: Key): Option<View> {
    var served := GetManifest(f, s.memory, key);
    if served.None? then Some(View(key, None))
    else if f.parse(served.value.body).None? then None
    else Some(View(key, Some(Seen(served.value.etag, f.parse(served.value.body).value))))
  }

  function Stored(f: Format, s: State, id: nat, body: seq<Byte>): State
    requires id in s.views
  {
    var view := s.views[id];
    var (after, reply) := PutManifest(f, s.memory, view.key, Presented(view), body);
    if reply.Err? || f.parse(body).None? then s.(memory := after)
    else State(after, s.views[id := view.(seen := Some(Seen(reply.value, f.parse(body).value)))],
               s.acknowledged[view.key := Acknowledged(s, view.key) + f.parse(body).value.predictions])
  }

  function Acknowledged(s: State, key: Key): set<string> {
    if key in s.acknowledged then s.acknowledged[key] else {}
  }

  /** A view may be arbitrarily old by the time it is written back. */
  function Next(f: Format, s: State, step: Step): State {
    match step
    case Fetch(id, key) =>
      var view := Fetched(f, s, key);
      if view.None? then s else s.(views := s.views[id := view.value])
    case Store(id, body) =>
      if id in s.views && Merges(f, s.views[id], body) then Stored(f, s, id, body) else s
  }

  function Run(f: Format, memory: Memory, steps: seq<Step>): State {
    if steps == [] then State(memory, map[], map[])
    else Next(f, Run(f, memory, steps[..|steps| - 1]), steps[|steps| - 1])
  }

  // ------------------------------------------------------------------- no lost update

  /** Every stored tag is the hash of the body that will be served. */
  ghost predicate TagsMatch(f: Format, known: set<Manifest>, m: Memory) {
    forall key :: key in m.manifests ==>
      m.manifests[key].manifest in known && m.manifests[key].etag == f.Tag(m.manifests[key].manifest)
  }

  ghost predicate ViewMatches(f: Format, known: set<Manifest>, view: View) {
    view.seen.Some? ==>
      && view.seen.value.manifest in known
      && view.seen.value.etag == QuotedEtag(f.Tag(view.seen.value.manifest))
  }

  ghost predicate ViewsMatch(f: Format, known: set<Manifest>, s: State) {
    forall id :: id in s.views ==> ViewMatches(f, known, s.views[id])
  }

  /** What the bodies written in the run say is among the known manifests. */
  ghost predicate Names(f: Format, known: set<Manifest>, steps: seq<Step>) {
    forall i :: 0 <= i < |steps| ==> StepNames(f, known, steps[i])
  }

  ghost predicate StepNames(f: Format, known: set<Manifest>, step: Step) {
    step.Store? && f.parse(step.body).Some? ==> f.parse(step.body).value in known
  }

  function Predictions(m: Memory, key: Key): set<string> {
    if key in m.manifests then m.manifests[key].manifest.predictions else {}
  }

  ghost predicate NothingLost(s: State) {
    && (forall key :: Acknowledged(s, key) <= Predictions(s.memory, key))
    && (forall key :: key in s.acknowledged ==> key in s.memory.manifests)
  }

  ghost predicate Grows(m: Memory, m': Memory) {
    && (forall key :: Predictions(m, key) <= Predictions(m', key))
    && m.manifests.Keys <= m'.manifests.Keys
  }

  ghost predicate Good(f: Format, known: set<Manifest>, s: State) {
    f.Sound(known) && TagsMatch(f, known, s.memory) && ViewsMatch(f, known, s) && NothingLost(s)
  }

  function Written(f: Format, m: Memory, key: Key, manifest: Manifest): Memory {
    m.(manifests := m.manifests[key := ManifestRecord(f.Tag(manifest), manifest)])
  }

  lemma WrittenTags(f: Format, known: set<Manifest>, m: Memory, key: Key, manifest: Manifest)
    requires TagsMatch(f, known, m) && manifest in known
    ensures TagsMatch(f, known, Written(f, m, key, manifest))
  {
  }

  /** Only the written key's predictions change, and they become the manifest's. */
  lemma WrittenPredictions(f: Format, m: Memory, key: Key, manifest: Manifest, other: Key)
    ensures Predictions(Written(f, m, key, manifest), other) ==
            if other == key then manifest.predictions else Predictions(m, other)
    ensures other == key || other in m.manifests ==> other in Written(f, m, key, manifest).manifests
  {
  }

  lemma WrittenGrows(f: Format, m: Memory, key: Key, manifest: Manifest)
    requires Predictions(m, key) <= manifest.predictions
    ensures Grows(m, Written(f, m, key, manifest))
  {
    hide Predictions;
    forall other ensures Predictions(m, other) <= Predictions(Written(f, m, key, manifest), other) {
      WrittenPredictions(f, m, key, manifest, other);
    }
  }

  /** An applied write replaced exactly the manifest the client had seen: equal tags stand
      for equal manifests, so a tag seen again after other writes is as good as unchanged. */
  lemma AppliedReplacesSeen(f: Format, known: set<Manifest>, m: Memory, view: View, body: seq<Byte>)
    requires f.Sound(known) && TagsMatch(f, known, m)
    requires ViewMatches(f, known, view)
    ensures var (after, reply) := PutManifest(f, m, view.key, Presented(view), body);
            && (reply.Err? ==> after == m)
            && (reply.Ok? ==>
                  && f.parse(body).Some?
                  && after == Written(f, m, view.key, f.parse(body).value)
                  && reply.value == QuotedEtag(f.Tag(f.parse(body).value))
                  && (view.seen.Some? <==> view.key in m.manifests)
                  && (view.seen.Some? ==> m.manifests[view.key].manifest == view.seen.value.manifest))
  {
    var headers := Presented(view);
    if view.seen.Some? {
      var seen := view.seen.value;
      PreconditionInvertsQuoting(headers, f.Tag(seen.manifest));
      hide ManifestPrecondition, QuotedEtag, IsTag;
      if view.key in m.manifests && m.manifests[view.key].etag == f.Tag(seen.manifest) {
        SameTagSameManifest(f, known, m.manifests[view.key].manifest, seen.manifest);
      }
    } else {
      PreconditionInvertsQuoting(headers, "");
      hide ManifestPrecondition, QuotedEtag, IsTag;
    }
  }

  lemma SameTagSameManifest(f: Format, known: set<Manifest>, a: Manifest, b: Manifest)
    requires f.Sound(known) && a in known && b in known && f.Tag(a) == f.Tag(b)
    ensures a == b
  {
    assert f.canonical(a) == f.canonical(b);
    assert Some(a) == f.parse(f.canonical(b)) == Some(b);
  }

  /** An applied write's whole effect on the state. */
  lemma AppliedIs(f: Format, known: set<Manifest>, s: State, id: nat, body: seq<Byte>)
    requires f.Sound(known) && TagsMatch(f, known, s.memory) && id in s.views && ViewMatches(f, known, s.views[id])
    requires Merges(f, s.views[id], body)
    ensures var key := s.views[id].key;
            var s' := Stored(f, s, id, body);
            || s' == s
            || (f.parse(body).Some? &&
                var manifest := f.parse(body).value;
                && Predictions(s.memory, key) <= manifest.predictions
                && s' == State(Written(f, s.memory, key, manifest),
                               s.views[id := View(key, Some(Seen(QuotedEtag(f.Tag(manifest)), manifest)))],
                               s.acknowledged[key := Acknowledged(s, key) + manifest.predictions]))
  {
    AppliedReplacesSeen(f, known, s.memory, s.views[id], body);
    hide PutManifest, QuotedEtag, Format.Sound, Presented, TagsMatch, ViewMatches, Written;
  }

  lemma WrittenLosesNothing(f: Format, s: State, s': State, key: Key, manifest: Manifest)
    requires NothingLost(s) && Predictions(s.memory, key) <= manifest.predictions
    requires s'.memory == Written(f, s.memory, key, manifest)
    requires s'.acknowledged == s.acknowledged[key := Acknowledged(s, key) + manifest.predictions]
    ensures NothingLost(s')
  {
    hide Predictions, Written;
    forall other
      ensures Acknowledged(s', other) <= Predictions(s'.memory, other)
      ensures other in s'.acknowledged ==> other in s'.memory.manifests
    {
      WrittenPredictions(f, s.memory, key, manifest, other);
      assert Acknowledged(s, other) <= Predictions(s.memory, other);
    }
  }

  lemma StoreKeeps(f: Format, known: set<Manifest>, s: State, id: nat, body: seq<Byte>)
    requires Good(f, known, s) && id in s.views && Merges(f, s.views[id], body) && StepNames(f, known, Store(id, body))
    ensures Good(f, known, Stored(f, s, id, body)) && Grows(s.memory, Stored(f, s, id, body).memory)
  {
    hide Stored, NothingLost, TagsMatch, Format.Sound, Predictions, Written, Merges, QuotedEtag, Acknowledged, Grows;
    var s', key := Stored(f, s, id, body), s.views[id].key;
    AppliedIs(f, known, s, id, body);
    if s' == s {
      GrowsSelf(s.memory);
    } else {
      var manifest := f.parse(body).value;
      WrittenTags(f, known, s.memory, key, manifest);
      WrittenGrows(f, s.memory, key, manifest);
      WrittenLosesNothing(f, s, s', key, manifest);
    }
  }

  lemma GrowsSelf(m: Memory)
    ensures Grows(m, m)
  {
  }

  lemma FetchKeeps(f: Format, known: set<Manifest>, s: State, id: nat, key: Key)
    requires Good(f, known, s)
    ensures Good(f, known, Next(f, s, Fetch(id, key))) && Next(f, s, Fetch(id, key)).memory == s.memory
  {
  }

  lemma {:induction false} RunIsGood(f: Format, known: set<Manifest>, memory: Memory, steps: seq<Step>)
    requires f.Sound(known) && TagsMatch(f, known, memory) && Names(f, known, steps)
    ensures Good(f, known, Run(f, memory, steps))
  {
    hide Good, Stored, Next;
    if steps == [] {
      StartIsGood(f, known, memory);
    } else {
      var init, last := steps[..|steps| - 1], steps[|steps| - 1];
      RunIsGood(f, known, memory, init);
      NextKeeps(f, known, Run(f, memory, init), last);
    }
  }

  lemma StartIsGood(f: Format, known: set<Manifest>, memory: Memory)
    requires f.Sound(known) && TagsMatch(f, known, memory)
    ensures Good(f, known, State(memory, map[], map[]))
  {
  }

  lemma NextKeeps(f: Format, known: set<Manifest>, s: State, step: Step)
    requires Good(f, known, s) && StepNames(f, known, step)
    ensures Good(f, known, Next(f, s, step)) && Grows(s.memory, Next(f, s, step).memory)
  {
    hide Good, Stored;
    match step
    case Fetch(id, key) => FetchKeeps(f, known, s, id, key);
    case Store(id, body) =>
      if id in s.views && Merges(f, s.views[id], body) {
        StoreKeeps(f, known, s, id, body);
      }
  }

  /** In every interleaving, between any two instants a key's predictions only grow. */
  lemma {:induction false} PredictionsOnlyGrow(f: Format, known: set<Manifest>, memory: Memory, steps: seq<Step>,
                                               at: nat)
    requires f.Sound(known) && TagsMatch(f, known, memory) && Names(f, known, steps) && at <= |steps|
    ensures Grows(Run(f, memory, steps[..at]).memory, Run(f, memory, steps).memory)
  {
    if at == |steps| {
      assert steps[..at] == steps;
    } else {
      hide Good, Next;
      var init := steps[..|steps| - 1];
      assert init[..at] == steps[..at];
      PredictionsOnlyGrow(f, known, memory, init, at);
      RunIsGood(f, known, memory, init);
      NextKeeps(f, known, Run(f, memory, init), steps[|steps| - 1]);
    }
  }

  /** No update is lost: every prediction any client was told is written is still served, and
      what is served under a tag is exactly the text the tag is the hash of. */
  lemma NoLostUpdate(f: Format, known: set<Manifest>, memory: Memory, steps: seq<Step>, key: Key)
    requires f.Sound(known) && TagsMatch(f, known, memory) && Names(f, known, steps)
    ensures var s := Run(f, memory, steps);
            && Acknowledged(s, key) <= Predictions(s.memory, key)
            && (key in s.acknowledged ==> GetManifest(f, s.memory, key).Some?)
            && (GetManifest(f, s.memory, key).Some? ==>
                  var served := GetManifest(f, s.memory, key).value;
                  && served.etag == QuotedEtag(f.hash(served.body))
                  && f.parse(served.body).Some?
                  && Acknowledged(s, key) <= f.parse(served.body).value.predictions)
  {
    hide Run;
    RunIsGood(f, known, memory, steps);
  }

  /** The condition on clients is exact: an applied write keeps every key's predictions if and
      only if it merged what the client saw. */
  lemma GrowsOnlyByMerging(f: Format, known: set<Manifest>, m: Memory, view: View, body: seq<Byte>)
    requires f.Sound(known) && TagsMatch(f, known, m) && view.key in m.manifests
    requires view.seen == Some(Seen(QuotedEtag(m.manifests[view.key].etag), m.manifests[view.key].manifest))
    requires |body| <= MAX_ACTION_MANIFEST_BYTES && f.parse(body).Some? && f.validate(f.parse(body).value)
    requires f.selector(f.parse(body).value) == view.key.1
    ensures var after := PutManifest(f, m, view.key, Presented(view), body).0;
            Grows(m, after) <==> Merges(f, view, body)
  {
    var etag := m.manifests[view.key].etag;
    PreconditionInvertsQuoting(Presented(view), etag);
    hide ManifestPrecondition, QuotedEtag, IsTag;
    var after := PutManifest(f, m, view.key, Presented(view), body).0;
    assert Predictions(after, view.key) == f.parse(body).value.predictions;
    assert Predictions(m, view.key) == view.seen.value.manifest.predictions;
  }
}
