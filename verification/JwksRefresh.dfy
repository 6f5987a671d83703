/**
 Verification of OIDC tokens against cached signing keys. Many verifications run at once;
 one at a time may refresh the keys, behind a mutex and a cooldown. Every await is a point
 where others may run, where time may pass, or where the request may be dropped.
 */
module JwksRefresh {
  import opened Wrappers

  datatype Jwk = Jwk(kid: Option<string>, algorithm: Option<string>, usage: Option<string>,
      operations: Option<set<string>>, material: string)

  type JwkSet = seq<Jwk>

  datatype Config = Config(algorithms: set<string>, refreshSeconds: nat, cooldown: nat)

  datatype Token = Token(kid: Option<string>, algorithm: string)

  datatype CachedKeys = CachedKeys(keys: JwkSet, fetchedAt: nat, attemptedAt: Option<nat>)

  datatype Verdict = Accepted(jwk: Jwk) | MissingKid | BadAlgorithm | RefreshFailed | KeyNotFound | KeyUnsuitable
      | BadSignature

  /** The awaits of one verification; from `Locked` to `Fetched` it holds the mutex. */
  datatype Phase = Entering | Waiting | Locked | Checked | Stamped(at: nat) | Recorded | Fetched(keys: JwkSet)
      | Reading | Done(verdict: Verdict) {
    predicate HoldsMutex() {
      Locked? || Checked? || Stamped? || Recorded? || Fetched?
    }
  }

  /** `began` and `known` are what the first look at the keys found. */
  datatype Verification = Verification(token: Token, kid: string, began: nat, known: bool, phase: Phase)

  /** `attempts` and `installed` are history: the stamps recorded and the sets put in place. */
  datatype State = State(now: nat, cache: CachedKeys, holder: Option<nat>, running: map<nat, Verification>,
                         attempts: seq<nat>, installed: seq<JwkSet>)

  datatype Step =
    | Tick(seconds: nat)
    | Begin(id: nat, token: Token)
    | Look(id: nat)
    | Acquire(id: nat)
    | Check(id: nat)
    | Stamp(id: nat)
    | Record(id: nat)
    | FetchOk(id: nat, keys: JwkSet)
    | FetchFailed(id: nat)
    | Install(id: nat)
    | Conclude(id: nat, signatureValid: bool)
    | Cancel(id: nat)

  function Find(keys: JwkSet, kid: string): Option<Jwk> {
    if keys == [] then None
    else if keys[0].kid == Some(kid) then Some(keys[0])
    else Find(keys[1..], kid)
  }

  predicate Suitable(jwk: Jwk, algorithm: string) {
    && (jwk.algorithm.None? || jwk.algorithm.value == algorithm)
    && (jwk.usage.None? || jwk.usage.value == "sig")
    && (jwk.operations.None? || "verify" in jwk.operations.value)
  }

  function StartState(now: nat, keys: JwkSet): State {
    State(now, CachedKeys(keys, now, None), None, map[], [], [keys])
  }

  /** Whether the step's verification is at the await the step continues from. */
  predicate Enabled(s: State, step: Step) {
    match step
    case Tick(_) => true
    case Begin(id, _) => id !in s.running
    case Look(id) => id in s.running && s.running[id].phase.Entering?
    case Acquire(id) => id in s.running && s.running[id].phase.Waiting? && s.holder.None?
    case Check(id) => id in s.running && s.running[id].phase.Locked?
    case Stamp(id) => id in s.running && s.running[id].phase.Checked?
    case Record(id) => id in s.running && s.running[id].phase.Stamped?
    case FetchOk(id, _) => id in s.running && s.running[id].phase.Recorded?
    case FetchFailed(id) => id in s.running && s.running[id].phase.Recorded?
    case Install(id) => id in s.running && s.running[id].phase.Fetched?
    case Conclude(id, _) => id in s.running && s.running[id].phase.Reading?
    case Cancel(id) => id in s.running && !s.running[id].phase.Done?
  }

  function Entered(config: Config, token: Token): Verification {
    if token.kid.None? then Verification(token, "", 0, false, Done(MissingKid))
    else Verification(token, token.kid.value, 0, false, if token.algorithm in config.algorithms then Entering
        else Done(BadAlgorithm))
  }

  function Stale(config: Config, s: State): bool {
    s.now - s.cache.fetchedAt >= config.refreshSeconds
  }

  predicate CoolingDown(config: Config, s: State) {
    s.cache.attemptedAt.Some? && s.now - s.cache.attemptedAt.value < config.cooldown
  }

  /** The decision under the mutex not to refresh after all. */
  predicate Spared(config: Config, s: State, kid: string) {
    CoolingDown(config, s) || (!Stale(config, s) && Find(s.cache.keys, kid).Some?)
  }

  function Judged(s: State, v: Verification, signatureValid: bool): Verdict {
    var jwk := Find(s.cache.keys, v.kid);
    if jwk.None? then KeyNotFound
    else if !Suitable(jwk.value, v.token.algorithm) then KeyUnsuitable
    else if signatureValid then Accepted(jwk.value) else BadSignature
  }

  function At(s: State, id: nat, phase: Phase): State
    requires id in s.running
  {
    s.(running := s.running[id := s.running[id].(phase := phase)])
  }

  function Apply(config: Config, s: State, step: Step): State
    requires Enabled(s, step)
  {
    match step
    case Tick(seconds) => s.(now := s.now + seconds)
    case Begin(id, token) => s.(running := s.running[id := Entered(config, token)])
    case Look(id) =>
      var v := s.running[id].(began := s.now, known := Find(s.cache.keys, s.running[id].kid).Some?);
      s.(running := s.running[id := v.(phase := if Stale(config, s) || !v.known then Waiting else Reading)])
    case Acquire(id) => At(s, id, Locked).(holder := Some(id))
    case Check(id) =>
      if Spared(config, s, s.running[id].kid) then At(s, id, Reading).(holder := None) else At(s, id, Checked)
    case Stamp(id) => At(s, id, Stamped(s.now))
    case Record(id) =>
      var at := s.running[id].phase.at;
      At(s, id, Recorded).(cache := s.cache.(attemptedAt := Some(at)), attempts := s.attempts + [at])
    case FetchOk(id, keys) => At(s, id, Fetched(keys))
    case FetchFailed(id) =>
      At(s, id, if s.running[id].known then Reading else Done(RefreshFailed)).(holder := None)
    case Install(id) =>
      var keys := s.running[id].phase.keys;
      At(s, id, Reading).(cache := s.cache.(keys := keys, fetchedAt := s.now), installed := s.installed + [keys],
          holder := None)
    case Conclude(id, signatureValid) => At(s, id, Done(Judged(s, s.running[id], signatureValid)))
    case Cancel(id) =>
      s.(running := s.running - {id}, holder := if s.running[id].phase.HoldsMutex() then None else s.holder)
  }

  function Next(config: Config, s: State, step: Step): State {
    if Enabled(s, step) then Apply(config, s, step) else s
  }

  function Run(config: Config, start: State, steps: seq<Step>): State {
    if steps == [] then start else Next(config, Run(config, start, steps[..|steps| - 1]), steps[|steps| - 1])
  }

  // ------------------------------------------------------------ the cooldown is kept

  ghost predicate Rested(config: Config, s: State, at: nat) {
    |s.attempts| > 0 ==> s.attempts[|s.attempts| - 1] + config.cooldown <= at
  }

  ghost predicate Spaced(attempts: seq<nat>, cooldown: nat) {
    forall i :: 0 < i < |attempts| ==> attempts[i - 1] + cooldown <= attempts[i]
  }

  ghost predicate PhaseOk(config: Config, s: State, v: Verification) {
    && (v.phase.Checked? ==> Rested(config, s, s.now))
    && (v.phase.Stamped? ==> v.phase.at <= s.now && Rested(config, s, v.phase.at))
  }

  ghost predicate Exclusive(s: State) {
    && (s.holder.Some? ==> s.holder.value in s.running)
    && forall id :: id in s.running ==> (s.running[id].phase.HoldsMutex() <==> s.holder == Some(id))
  }

  ghost predicate HistoryOk(config: Config, s: State) {
    && Spaced(s.attempts, config.cooldown)
    && (forall i :: 0 <= i < |s.attempts| ==> s.attempts[i] <= s.now)
    && s.cache.attemptedAt == (if s.attempts == [] then None else Some(s.attempts[|s.attempts| - 1]))
    && s.installed != [] && s.cache.keys == s.installed[|s.installed| - 1]
    && s.cache.fetchedAt <= s.now
  }

  ghost predicate Inv(config: Config, s: State) {
    Exclusive(s) && HistoryOk(config, s) && forall id :: id in s.running ==> PhaseOk(config, s, s.running[id])
  }

  lemma ExclusiveStep(config: Config, s: State, step: Step)
    requires Exclusive(s) && Enabled(s, step)
    ensures Exclusive(Apply(config, s, step))
  {
    hide Find, Suitable, Spared, Judged, Stale;
  }

  lemma HistoryStep(config: Config, s: State, step: Step)
    requires Inv(config, s) && Enabled(s, step)
    ensures HistoryOk(config, Apply(config, s, step))
  {
    hide Find, Suitable, Spared, Judged, Stale, Exclusive;
    if step.Record? {
      assert PhaseOk(config, s, s.running[step.id]);
    }
  }

  lemma PhaseStep(config: Config, s: State, step: Step, id: nat)
    requires Inv(config, s) && Enabled(s, step) && id in Apply(config, s, step).running
    ensures PhaseOk(config, Apply(config, s, step), Apply(config, s, step).running[id])
  {
    hide Find, Suitable, Judged, Stale;
    if id in s.running {
      assert PhaseOk(config, s, s.running[id]);
    }
  }

  lemma {:induction false} RunKeepsInv(config: Config, start: State, steps: seq<Step>)
    requires Inv(config, start)
    ensures Inv(config, Run(config, start, steps))
  {
    if steps != [] {
      var init, last := steps[..|steps| - 1], steps[|steps| - 1];
      RunKeepsInv(config, start, init);
      var s := Run(config, start, init);
      if Enabled(s, last) {
        ExclusiveStep(config, s, last);
        HistoryStep(config, s, last);
        forall id | id in Apply(config, s, last).running
          ensures PhaseOk(config, Apply(config, s, last), Apply(config, s, last).running[id])
        {
          PhaseStep(config, s, last, id);
        }
      }
      hide Apply, Enabled, Exclusive, HistoryOk, PhaseOk;
    }
  }

  lemma StartInv(config: Config, now: nat, keys: JwkSet)
    ensures Inv(config, StartState(now, keys))
  {
  }

  lemma {:induction false} SpacedApart(attempts: seq<nat>, cooldown: nat, i: nat, j: nat)
    requires Spaced(attempts, cooldown) && i <= j < |attempts|
    ensures attempts[i] + (j - i) * cooldown <= attempts[j]
  {
    if i < j {
      SpacedApart(attempts, cooldown, i, j - 1);
      assert (j - i) * cooldown == (j - 1 - i) * cooldown + cooldown;
    }
  }

  /** In every run, any window of length T contains at most T / cooldown + 1 of the recorded
      refresh attempts: the j-th and the i-th are at least (j - i) cooldowns apart. */
  lemma AttemptsAreRare(config: Config, now: nat, keys: JwkSet, steps: seq<Step>, i: nat, j: nat, window: nat)
    requires config.cooldown > 0
    requires i <= j < |Run(config, StartState(now, keys), steps).attempts|
    ensures var attempts := Run(config, StartState(now, keys), steps).attempts;
            && attempts[i] + (j - i) * config.cooldown <= attempts[j]
            && (attempts[j] <= attempts[i] + window ==> j - i + 1 <= window / config.cooldown + 1)
  {
    hide Run;
    StartInv(config, now, keys);
    RunKeepsInv(config, StartState(now, keys), steps);
    var attempts := Run(config, StartState(now, keys), steps).attempts;
    SpacedApart(attempts, config.cooldown, i, j);
    if attempts[j] <= attempts[i] + window {
      Quotient(j - i, config.cooldown, window);
    }
  }

  lemma Quotient(n: nat, cooldown: nat, window: nat)
    requires cooldown > 0 && n * cooldown <= window
    ensures n <= window / cooldown
  {
    var q := window / cooldown;
    if q + 1 <= n {
      ScaledUp(q + 1, n, cooldown);
      assert false;
    }
  }

  lemma ScaledUp(a: nat, b: nat, cooldown: nat)
    requires a <= b
    ensures a * cooldown <= b * cooldown
  {
  }

  // ------------------------------------------------------------- what is accepted

  /** Only an install changes the keys, and it comes after a fetch of exactly that set by the
      verification that holds the mutex. A failed or dropped refresh changes no key. */
  lemma OnlyInstallChangesKeys(config: Config, s: State, step: Step)
    requires Next(config, s, step).cache.keys != s.cache.keys
             || Next(config, s, step).cache.fetchedAt != s.cache.fetchedAt
    ensures step.Install? && Enabled(s, step) && s.running[step.id].phase == Fetched(Next(config, s, step).cache.keys)
    ensures Next(config, s, step).cache.fetchedAt == s.now
  {
    hide Find, Suitable, Judged, Stale, Spared;
  }

  ghost predicate Latest(s: State, keys: JwkSet) {
    s.installed != [] && keys == s.installed[|s.installed| - 1]
  }

  /** The key that an id stands for: the first in the set that carries it. */
  ghost predicate FirstWith(keys: JwkSet, kid: string, jwk: Jwk) {
    exists i :: 0 <= i < |keys| && keys[i] == jwk && jwk.kid == Some(kid) && NoneWith(keys[..i], kid)
  }

  ghost predicate NoneWith(keys: JwkSet, kid: string) {
    forall i :: 0 <= i < |keys| ==> keys[i].kid != Some(kid)
  }

  lemma {:induction false} FindFacts(keys: JwkSet, kid: string)
    ensures match Find(keys, kid)
            case Some(jwk) => FirstWith(keys, kid, jwk)
            case None => NoneWith(keys, kid)
  {
    if keys != [] {
      if keys[0].kid == Some(kid) {
        assert NoneWith(keys[..0], kid);
      } else {
        var rest := keys[1..];
        FindFacts(rest, kid);
        assert forall i :: 0 < i < |keys| ==> keys[i] == rest[i - 1];
        if Find(rest, kid).Some? {
          var i :| 0 <= i < |rest| && rest[i] == Find(rest, kid).value && rest[i].kid == Some(kid)
              && NoneWith(rest[..i], kid);
          var head := keys[..i + 1];
          forall k | 0 <= k < |head|
            ensures head[k].kid != Some(kid)
          {
            assert k > 0 ==> head[k] == rest[..i][k - 1];
          }
          assert keys[i + 1] == rest[i] && NoneWith(head, kid);
        }
      }
    }
  }

  lemma FirstIsUnique(keys: JwkSet, kid: string, a: Jwk, b: Jwk)
    requires FirstWith(keys, kid, a) && FirstWith(keys, kid, b)
    ensures a == b && !NoneWith(keys, kid)
  {
    var i :| 0 <= i < |keys| && keys[i] == a && a.kid == Some(kid) && NoneWith(keys[..i], kid);
    var j :| 0 <= j < |keys| && keys[j] == b && b.kid == Some(kid) && NoneWith(keys[..j], kid);
  }

  /** The key's own restrictions, where it states any, allow verifying this algorithm. */
  predicate Permits(jwk: Jwk, algorithm: string) {
    && jwk.algorithm in {None, Some(algorithm)}
    && jwk.usage in {None, Some("sig")}
    && (jwk.operations.Some? ==> "verify" in jwk.operations.value)
  }

  lemma SuitableIsPermits(jwk: Jwk, algorithm: string)
    ensures Suitable(jwk, algorithm) <==> Permits(jwk, algorithm)
  {
  }

  /** The final read, exactly: the first key with the token's id decides, if it permits. */
  lemma JudgedExactly(s: State, v: Verification, signatureValid: bool, jwk: Jwk)
    ensures Judged(s, v, signatureValid) == KeyNotFound <==> NoneWith(s.cache.keys, v.kid)
    ensures FirstWith(s.cache.keys, v.kid, jwk) ==>
              Judged(s, v, signatureValid) ==
              if !Permits(jwk, v.token.algorithm) then KeyUnsuitable else if signatureValid then Accepted(jwk)
                  else BadSignature
    ensures Judged(s, v, signatureValid) == Accepted(jwk) ==> FirstWith(s.cache.keys, v.kid, jwk)
  {
    hide Find, FirstWith, NoneWith, Suitable, Permits;
    FindFacts(s.cache.keys, v.kid);
    SuitableIsPermits(jwk, v.token.algorithm);
    var found := Find(s.cache.keys, v.kid);
    if FirstWith(s.cache.keys, v.kid, jwk) {
      FirstIsUnique(s.cache.keys, v.kid, jwk, jwk);
      if found.Some? {
        FirstIsUnique(s.cache.keys, v.kid, jwk, found.value);
      }
    }
    if found.Some? {
      FirstIsUnique(s.cache.keys, v.kid, found.value, found.value);
    }
  }

  /** A token is accepted only at a final read, under a valid signature, by a member of the set
      installed last: the first key there that carries the token's own key id, and one that
      permits the token's algorithm, which is an allowed one. */
  lemma AcceptedUnderLatestKeys(config: Config, now: nat, keys: JwkSet, steps: seq<Step>, id: nat) returns (at: nat)
    requires var s := Run(config, StartState(now, keys), steps);
             id in s.running && s.running[id].phase.Done? && s.running[id].phase.verdict.Accepted?
    ensures at < |steps| && steps[at] == Conclude(id, true)
    ensures var v, before := Run(config, StartState(now, keys), steps).running[id],
                             Run(config, StartState(now, keys), steps[..at]);
            && v.token.kid.Some? && v.token.algorithm in config.algorithms
            && Latest(before, before.cache.keys)
            && FirstWith(before.cache.keys, v.token.kid.value, v.phase.verdict.jwk)
            && Permits(v.phase.verdict.jwk, v.token.algorithm)
  {
    hide Run, FirstWith, Judged, Permits;
    var signatureValid;
    at, signatureValid := ConcludedAt(config, now, keys, steps, id);
    HeadersAreChecked(config, now, keys, steps, id);
    var v, before := Run(config, StartState(now, keys), steps).running[id],
        Run(config, StartState(now, keys), steps[..at]);
    JudgedExactly(before, v, signatureValid, v.phase.verdict.jwk);
  }

  /** Verdicts that come from a final read. */
  predicate Read(phase: Phase) {
    phase.Done? && (phase.verdict.Accepted? || phase.verdict.KeyNotFound? || phase.verdict.KeyUnsuitable?
        || phase.verdict.BadSignature?)
  }

  /** Such a verdict is what that read makes of the set installed last. */
  lemma {:induction false} ConcludedAt(config: Config, now: nat, keys: JwkSet, steps: seq<Step>, id: nat)
      returns (at: nat, signatureValid: bool)
    requires var s := Run(config, StartState(now, keys), steps); id in s.running && Read(s.running[id].phase)
    ensures at < |steps| && steps[at] == Conclude(id, signatureValid)
    ensures var v, before := Run(config, StartState(now, keys), steps).running[id],
                             Run(config, StartState(now, keys), steps[..at]);
            && Latest(before, before.cache.keys) && v.phase.verdict == Judged(before, v, signatureValid)
            && id in before.running && before.running[id].phase.Reading?
  {
    var init, last := steps[..|steps| - 1], steps[|steps| - 1];
    var s := Run(config, StartState(now, keys), init);
    StartInv(config, now, keys);
    RunKeepsInv(config, StartState(now, keys), init);
    assert Run(config, StartState(now, keys), steps) == Next(config, s, last);
    assert steps[..|init|] == init;
    hide Judged, Next, Run, PhaseOk, Exclusive;
    if id in s.running && s.running[id].phase.Done? {
      DoneStays(config, s, last, id);
      at, signatureValid := ConcludedAt(config, now, keys, init, id);
      assert init[..at] == steps[..at];
    } else {
      ConcludedNow(config, s, last, id);
      at, signatureValid := |init|, last.signatureValid;
    }
  }

  lemma ConcludedNow(config: Config, s: State, step: Step, id: nat)
    requires id in s.running ==> !s.running[id].phase.Done?
    requires id in Next(config, s, step).running && Read(Next(config, s, step).running[id].phase)
    ensures step.Conclude? && step.id == id && id in s.running && s.running[id].phase.Reading?
    ensures var v := Next(config, s, step).running[id]; v.phase.verdict == Judged(s, v, step.signatureValid)
  {
    hide Find, Suitable, Stale, Spared;
  }

  lemma DoneStays(config: Config, s: State, step: Step, id: nat)
    requires id in s.running && s.running[id].phase.Done?
    ensures id in Next(config, s, step).running && Next(config, s, step).running[id] == s.running[id]
  {
    hide Find, Suitable, Stale, Spared, Judged;
  }

  ghost predicate HeaderOk(config: Config, v: Verification) {
    match v.phase
    case Done(MissingKid) => v.token.kid.None?
    case Done(BadAlgorithm) => v.token.kid.Some? && v.token.algorithm !in config.algorithms
    case Done(RefreshFailed) => v.token.kid == Some(v.kid) && v.token.algorithm in config.algorithms && !v.known
    case _ => v.token.kid == Some(v.kid) && v.token.algorithm in config.algorithms
  }

  /** Verifications that get past the header have a key id and an allowed algorithm. */
  lemma {:induction false} HeadersAreChecked(config: Config, now: nat, keys: JwkSet, steps: seq<Step>, id: nat)
    requires id in Run(config, StartState(now, keys), steps).running
    ensures HeaderOk(config, Run(config, StartState(now, keys), steps).running[id])
  {
    if steps != [] {
      var init, last := steps[..|steps| - 1], steps[|steps| - 1];
      var s := Run(config, StartState(now, keys), init);
      if id in s.running {
        HeadersAreChecked(config, now, keys, init, id);
      }
      HeaderStep(config, s, last, id);
    }
  }

  lemma HeaderStep(config: Config, s: State, step: Step, id: nat)
    requires id in s.running ==> HeaderOk(config, s.running[id])
    ensures id in Next(config, s, step).running ==> HeaderOk(config, Next(config, s, step).running[id])
  {
    hide Find, Suitable, Stale, Spared;
  }

  // -------------------------------------------- an unknown key is not refused lightly

  /** A refresh attempt is recorded no earlier than one cooldown before this instant. */
  ghost predicate TriedSince(config: Config, s: State, began: nat) {
    |s.attempts| > 0 && s.attempts[|s.attempts| - 1] + config.cooldown > began
  }

  /** For a verification whose first look did not find its key: once past the mutex, either an
      attempt was made recently or the key is there, and any refresh under way began later. */
  ghost predicate Pursued(config: Config, s: State, v: Verification) {
    match v.phase
    case Entering => true
    case Waiting => v.began <= s.now
    case Locked => v.began <= s.now
    case Checked => v.began <= s.now
    case Stamped(at) => v.began <= at
    case Recorded => TriedSince(config, s, v.began)
    case Fetched(_) => TriedSince(config, s, v.began)
    case Reading => TriedSince(config, s, v.began)
        || (v.began <= s.now && Find(s.cache.keys, v.kid).Some? && NoneOlder(s, v.began))
    case Done(verdict) => verdict.KeyNotFound? || verdict.RefreshFailed? ==> TriedSince(config, s, v.began)
  }

  /** The refresh under way, if any, has not got past its stamp or stamped no earlier. */
  ghost predicate NoneOlder(s: State, began: nat) {
    forall id :: id in s.running ==>
      && (s.running[id].phase.Stamped? ==> began <= s.running[id].phase.at)
      && !s.running[id].phase.Recorded? && !s.running[id].phase.Fetched?
  }

  ghost predicate AllPursued(config: Config, s: State) {
    forall id :: id in s.running && !s.running[id].known ==> Pursued(config, s, s.running[id])
  }

  lemma TriedStays(config: Config, s: State, step: Step, began: nat)
    requires Inv(config, s) && Enabled(s, step) && TriedSince(config, s, began)
    ensures TriedSince(config, Apply(config, s, step), began)
  {
    hide Find, Suitable, Stale, Spared, Judged, Exclusive;
    if step.Record? {
      assert PhaseOk(config, s, s.running[step.id]);
    }
  }

  /** A verification that the step does not belong to. */
  lemma OthersPursued(config: Config, s: State, step: Step, id: nat)
    requires config.cooldown > 0 && Inv(config, s) && Enabled(s, step) && id in s.running
    requires step.Tick? || step.id != id
    requires Pursued(config, s, s.running[id])
    ensures id in Apply(config, s, step).running && Pursued(config, Apply(config, s, step), s.running[id])
  {
    var v := s.running[id];
    if TriedSince(config, s, v.began) {
      TriedStays(config, s, step, v.began);
    }
    hide Find, Suitable, Stale, Spared, Judged, Inv;
    if v.phase.Reading? && !TriedSince(config, s, v.began) {
      NoneOlderStep(config, s, step, v.began);
    }
    hide NoneOlder, TriedSince;
  }

  /** A refresh that starts now stamps later, and recording it makes an attempt. */
  lemma NoneOlderStep(config: Config, s: State, step: Step, began: nat)
    requires config.cooldown > 0 && Enabled(s, step) && began <= s.now && NoneOlder(s, began)
    ensures var s' := Apply(config, s, step);
            TriedSince(config, s', began) || (began <= s'.now && s'.cache.keys == s.cache.keys && NoneOlder(s', began))
  {
    hide Find, Suitable, Stale, Spared, Judged;
  }

  lemma OwnPursued(config: Config, s: State, step: Step, id: nat)
    requires config.cooldown > 0 && Inv(config, s) && Enabled(s, step) && !step.Tick? && step.id == id && !step.Cancel?
    requires id in s.running && !s.running[id].known ==> Pursued(config, s, s.running[id])
    requires !Apply(config, s, step).running[id].known
    ensures Pursued(config, Apply(config, s, step), Apply(config, s, step).running[id])
  {
    if step.Check? && !CoolingDown(config, s) {
      AloneInside(s, id);
    }
    hide Find, Suitable;
  }

  lemma AloneInside(s: State, id: nat)
    requires Exclusive(s) && id in s.running && s.running[id].phase.Locked?
    ensures NoneOlder(At(s, id, Reading), 0)
    ensures forall other :: other in s.running && other != id ==> !s.running[other].phase.HoldsMutex()
  {
  }

  lemma {:induction false} RunPursues(config: Config, now: nat, keys: JwkSet, steps: seq<Step>)
    requires config.cooldown > 0
    ensures AllPursued(config, Run(config, StartState(now, keys), steps))
  {
    if steps != [] {
      var init, last := steps[..|steps| - 1], steps[|steps| - 1];
      var s := Run(config, StartState(now, keys), init);
      RunPursues(config, now, keys, init);
      StartInv(config, now, keys);
      RunKeepsInv(config, StartState(now, keys), init);
      if Enabled(s, last) {
        hide Inv, Pursued, Find, Judged, Spared;
        var s' := Apply(config, s, last);
        forall id | id in s'.running && !s'.running[id].known ensures Pursued(config, s', s'.running[id]) {
          if !last.Tick? && last.id == id {
            OwnPursued(config, s, last, id);
          } else {
            OthersPursued(config, s, last, id);
          }
        }
      }
    }
  }

  /** Past its first look at the keys. */
  predicate Looked(phase: Phase) {
    !phase.Entering? && phase != Done(MissingKid) && phase != Done(BadAlgorithm)
  }

  lemma LookStep(config: Config, s: State, step: Step, id: nat)
    requires id in Next(config, s, step).running && Looked(Next(config, s, step).running[id].phase)
    ensures id in s.running
    ensures var v, w := s.running[id], Next(config, s, step).running[id];
            && w.kid == v.kid && w.token == v.token
            && (if Looked(v.phase) then w.began == v.began && w.known == v.known
                else step == Look(id) && w.began == s.now && (w.known <==> Find(s.cache.keys, w.kid).Some?))
  {
    hide Find, Suitable, Stale, Spared, Judged;
  }

  /** When a verification looked, and what it could see. */
  lemma {:induction false} LookedAt(config: Config, now: nat, keys: JwkSet, steps: seq<Step>, id: nat) returns (at: nat)
    requires var s := Run(config, StartState(now, keys), steps); id in s.running && Looked(s.running[id].phase)
    ensures at < |steps| && steps[at] == Look(id)
    ensures var v, before := Run(config, StartState(now, keys), steps).running[id],
                             Run(config, StartState(now, keys), steps[..at]);
            v.began == before.now && (v.known <==> Find(before.cache.keys, v.kid).Some?)
  {
    var init, last := steps[..|steps| - 1], steps[|steps| - 1];
    var s := Run(config, StartState(now, keys), init);
    LookStep(config, s, last, id);
    assert Run(config, StartState(now, keys), steps) == Next(config, s, last);
    hide Next, Run, Find;
    if Looked(s.running[id].phase) {
      at := LookedAt(config, now, keys, init, id);
      assert init[..at] == steps[..at];
    } else {
      at := |init|;
    }
  }

  /** A token is refused for want of its key, though no cached key carried its id when it was
      first looked for, only if a refresh was attempted after that look or less than a cooldown
      before it; and a failed refresh refuses only such tokens. */
  lemma UnknownKeyIsPursued(config: Config, now: nat, keys: JwkSet, steps: seq<Step>, id: nat) returns (at: nat)
    requires config.cooldown > 0
    requires var s := Run(config, StartState(now, keys), steps);
             id in s.running && s.running[id].phase in {Done(KeyNotFound), Done(RefreshFailed)}
    ensures at < |steps| && steps[at] == Look(id)
    ensures var s, before := Run(config, StartState(now, keys), steps), Run(config, StartState(now, keys), steps[..at]);
            && s.running[id].token.kid.Some?
            && (NoneWith(before.cache.keys, s.running[id].token.kid.value) ==>
                  exists k :: 0 <= k < |s.attempts| && s.attempts[k] + config.cooldown > before.now)
            && (s.running[id].phase == Done(RefreshFailed) ==>
                  NoneWith(before.cache.keys, s.running[id].token.kid.value))
  {
    hide Run, Find, NoneWith;
    at := LookedAt(config, now, keys, steps, id);
    HeadersAreChecked(config, now, keys, steps, id);
    RunPursues(config, now, keys, steps);
    var s, before := Run(config, StartState(now, keys), steps), Run(config, StartState(now, keys), steps[..at]);
    var v := s.running[id];
    FindFacts(before.cache.keys, v.kid);
    if v.known {
      FirstIsUnique(before.cache.keys, v.kid, Find(before.cache.keys, v.kid).value,
          Find(before.cache.keys, v.kid).value);
    } else {
      assert Pursued(config, s, v);
      assert s.attempts[|s.attempts| - 1] + config.cooldown > v.began;
    }
  }

  // -------------------------------------------------------- stale keys are not just used

  /** A refresh was attempted recently, or the cached keys are younger than the refresh interval
      as of this instant. */
  ghost predicate Renewed(config: Config, s: State, began: nat) {
    TriedSince(config, s, began) || s.cache.fetchedAt + config.refreshSeconds > began
  }

  ghost predicate Timely(config: Config, s: State, v: Verification) {
    match v.phase
    case Waiting => v.began <= s.now
    case Locked => v.began <= s.now
    case Checked => v.began <= s.now
    case Stamped(at) => v.began <= at
    case Recorded => TriedSince(config, s, v.began)
    case Fetched(_) => TriedSince(config, s, v.began)
    case Reading => Renewed(config, s, v.began)
    case Entering => true
    case Done(_) => true
  }

  lemma OthersTimely(config: Config, s: State, step: Step, id: nat)
    requires Inv(config, s) && Enabled(s, step) && id in s.running && Timely(config, s, s.running[id])
    requires step.Tick? || step.id != id
    ensures id in Apply(config, s, step).running && Timely(config, Apply(config, s, step), s.running[id])
  {
    var v := s.running[id];
    if TriedSince(config, s, v.began) {
      TriedStays(config, s, step, v.began);
    }
    assert s.cache.fetchedAt <= Apply(config, s, step).cache.fetchedAt;
    hide Find, Suitable, Stale, Spared, Judged, Inv, TriedSince;
  }

  lemma OwnTimely(config: Config, s: State, step: Step, id: nat)
    requires config.cooldown > 0 && Inv(config, s) && Enabled(s, step) && !step.Tick? && step.id == id && !step.Cancel?
    requires id in s.running ==> Timely(config, s, s.running[id])
    ensures Timely(config, Apply(config, s, step), Apply(config, s, step).running[id])
  {
    hide Find, Suitable, Judged, Exclusive;
  }

  lemma {:induction false} RunIsTimely(config: Config, now: nat, keys: JwkSet, steps: seq<Step>, id: nat)
    requires config.cooldown > 0 && id in Run(config, StartState(now, keys), steps).running
    ensures var s := Run(config, StartState(now, keys), steps); Timely(config, s, s.running[id])
  {
    if steps != [] {
      var init, last := steps[..|steps| - 1], steps[|steps| - 1];
      var s := Run(config, StartState(now, keys), init);
      if id in s.running {
        RunIsTimely(config, now, keys, init, id);
      }
      StartInv(config, now, keys);
      RunKeepsInv(config, StartState(now, keys), init);
      if Enabled(s, last) {
        TimelyStep(config, s, last, id);
      }
      hide Inv, Timely, Apply, Enabled;
    }
  }

  lemma TimelyStep(config: Config, s: State, step: Step, id: nat)
    requires config.cooldown > 0 && Inv(config, s) && Enabled(s, step) && id in Apply(config, s, step).running
    requires id in s.running ==> Timely(config, s, s.running[id])
    ensures Timely(config, Apply(config, s, step), Apply(config, s, step).running[id])
  {
    hide Find, Suitable, Judged, Inv, Timely, Stale, Spared;
    if !step.Tick? && step.id == id {
      OwnTimely(config, s, step, id);
    } else {
      OthersTimely(config, s, step, id);
    }
  }

  /** No token is judged by keys that were stale when it was first looked for unless they have been
      replaced since, or a refresh was attempted since or less than a cooldown before. */
  lemma JudgedByTimelyKeys(config: Config, now: nat, keys: JwkSet, steps: seq<Step>, id: nat)
                           returns (look: nat, at: nat)
    requires config.cooldown > 0
    requires var s := Run(config, StartState(now, keys), steps); id in s.running && Read(s.running[id].phase)
    ensures look < at < |steps| && steps[look] == Look(id) && steps[at].Conclude? && steps[at].id == id
    ensures var seen, judged := Run(config, StartState(now, keys), steps[..look]),
            Run(config, StartState(now, keys), steps[..at]);
            || judged.cache.fetchedAt + config.refreshSeconds > seen.now
            || exists k :: 0 <= k < |judged.attempts| && judged.attempts[k] + config.cooldown > seen.now
  {
    hide Run, Judged, Find, Timely;
    var signatureValid;
    at, signatureValid := ConcludedAt(config, now, keys, steps, id);
    look := LookedAt(config, now, keys, steps[..at], id);
    assert steps[..at][..look] == steps[..look];
    RunIsTimely(config, now, keys, steps[..at], id);
    var judged := Run(config, StartState(now, keys), steps[..at]);
    assert Renewed(config, judged, judged.running[id].began) by { ReadingIsRenewed(config, judged, id); }
    if TriedSince(config, judged, judged.running[id].began) {
      assert judged.attempts[|judged.attempts| - 1] + config.cooldown > judged.running[id].began;
    }
  }

  lemma ReadingIsRenewed(config: Config, s: State, id: nat)
    requires id in s.running && s.running[id].phase.Reading? && Timely(config, s, s.running[id])
    ensures Renewed(config, s, s.running[id].began)
  {
  }
}
