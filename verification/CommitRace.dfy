/**
 The PostgreSQL commit of an action result is an insert that does nothing on conflict and,
 when it inserted nothing, a separate select. Any number of clients interleave these
 statements with each other and with sweeps.
 */
module CommitRace {
  import opened Wrappers
  import opened Digests
  import opened Metadata

  /** Where a client's commit stands: before the insert, between the statements, or over. */
  datatype Phase = Asked | Refused | Answered(outcome: CommitOutcome) | Failed(error: DbError)

  datatype Client = Client(namespace: string, action: Digest, result: ActionResult, phase: Phase) {
    function Row(): RowKey {
      RowOf(namespace, action)
    }
  }

  datatype State = State(rows: map<RowKey, ActionResult>, clients: map<nat, Client>)

  /** `Sweep` runs the clean-up of results against the blob rows that are left by then. */
  datatype Step =
    | Begin(id: nat, namespace: string, action: Digest, result: ActionResult)
    | Insert(id: nat)
    | Select(id: nat)
    | Sweep(blobs: map<RowKey, BlobRow>)

  type Rows = map<RowKey, ActionResult>

  /** One statement, atomically. A step that is not possible changes nothing. */
  function Next(s: State, step: Step): State {
    match step
    case Begin(id, namespace, action, result) =>
      if id in s.clients || action.size >= U64_LIMIT then s
      else s.(clients := s.clients[id := Client(namespace, action, result, Asked)])
    case Insert(id) =>
      if id !in s.clients || !s.clients[id].phase.Asked? then s else Inserted(s, id)
    case Select(id) =>
      if id !in s.clients || !s.clients[id].phase.Refused? then s else Selected(s, id)
    case Sweep(blobs) => s.(rows := s.rows - DanglingResults(Tables(blobs, s.rows, map[])))
  }

  function Inserted(s: State, id: nat): State
    requires id in s.clients
  {
    var c := s.clients[id];
    if c.Row().size < 0 then s.(clients := s.clients[id := c.(phase := Failed(CheckViolated))])
    else if c.Row() in s.rows then s.(clients := s.clients[id := c.(phase := Refused)])
    else State(s.rows[c.Row() := c.result], s.clients[id := c.(phase := Answered(ResultCreated))])
  }

  function Selected(s: State, id: nat): State
    requires id in s.clients
  {
    var c := s.clients[id];
    var phase := if c.Row() !in s.rows then Failed(Disappeared)
                 else if s.rows[c.Row()] == c.result then Answered(ResultExists) else Answered(ResultConflict);
    s.(clients := s.clients[id := c.(phase := phase)])
  }

  /** The state after the first `n` steps. */
  function After(rows: Rows, steps: seq<Step>, n: nat): State
    requires n <= |steps|
  {
    if n == 0 then State(rows, map[]) else Next(After(rows, steps, n - 1), steps[n - 1])
  }

  /** This step is a sweep that deletes this row: one of its references has no blob row. */
  predicate Removes(s: State, step: Step, row: RowKey) {
    step.Sweep? && row in s.rows && Dangling(step.blobs, row, s.rows[row])
  }

  /** This step is an insert of this row that takes effect. */
  predicate Creates(s: State, step: Step, row: RowKey) {
    && step.Insert? && step.id in s.clients && s.clients[step.id].phase.Asked?
    && s.clients[step.id].Row() == row && row.size >= 0 && row !in s.rows
  }

  /** No sweep from step `at` on, before step `n`, deletes this row. */
  ghost predicate Spares(rows: Rows, steps: seq<Step>, at: nat, n: nat, row: RowKey)
    requires n <= |steps|
  {
    forall i :: at <= i < n ==> !Removes(After(rows, steps, i), steps[i], row)
  }

  // -------------------------------------------------------- what one step does to a row

  /** A row appears only by an insert and vanishes only by a sweep; its value never changes. */
  lemma RowChange(s: State, step: Step, row: RowKey)
    ensures row in s.rows ==>
              if Removes(s, step, row) then row !in Next(s, step).rows
              else row in Next(s, step).rows && Next(s, step).rows[row] == s.rows[row]
    ensures row !in s.rows ==> (row in Next(s, step).rows <==> Creates(s, step, row))
    ensures Creates(s, step, row) ==> Next(s, step).rows[row] == s.clients[step.id].result
  {
    hide RowOf, Dangling;
  }

  /** Only a client's own steps change it, and what it asked for never changes. */
  lemma ClientChange(s: State, step: Step, id: nat)
    requires id in s.clients
    ensures id in Next(s, step).clients
    ensures var c, d := s.clients[id], Next(s, step).clients[id];
            && d == c.(phase := d.phase)
            && (d.phase != c.phase ==>
                  (step == Insert(id) && c.phase.Asked?) || (step == Select(id) && c.phase.Refused?))
  {
    hide RowOf, DanglingResults;
  }

  lemma NewClient(s: State, step: Step, id: nat)
    requires id !in s.clients && id in Next(s, step).clients
    ensures step.Begin? && step.id == id && Next(s, step).clients[id].phase.Asked? && Next(s, step).rows == s.rows
    ensures Next(s, step).clients[id].result == step.result
    ensures Next(s, step).clients[id].Row() == RowOf(step.namespace, step.action)
  {
    hide RowOf, DanglingResults;
  }

  // ------------------------------------------------- the atomic store being refined

  /** The locked store, run beside it: a client's whole commit happens at its insert. */
  datatype Atomic = Atomic(memory: Memory, answers: map<nat, CommitOutcome>)

  function AtomicStep(a: Atomic, s: State, step: Step): Atomic {
    if step.Insert? && step.id in s.clients && s.clients[step.id].phase.Asked?
        && s.clients[step.id].Row().size >= 0 then
      var c := s.clients[step.id];
      var (memory, outcome) := Commit(a.memory, (c.namespace, c.action), c.result);
      Atomic(memory, a.answers[step.id := outcome])
    else a
  }

  function AtomicAfter(m: Memory, rows: Rows, steps: seq<Step>, n: nat): Atomic
    requires n <= |steps|
  {
    if n == 0 then Atomic(m, map[])
    else AtomicStep(AtomicAfter(m, rows, steps, n - 1), After(rows, steps, n - 1), steps[n - 1])
  }

  function Lookup(rows: Rows, row: RowKey): Option<ActionResult> {
    if row in rows then Some(rows[row]) else None
  }

  /** A client of the row: what the statements have decided is what the atomic store said. */
  ghost predicate ClientAgrees(s: State, a: Atomic, id: nat)
    requires id in s.clients
  {
    var c := s.clients[id];
    match c.phase
    case Asked => id !in a.answers
    case Refused =>
      && id in a.answers && c.Row() in s.rows
      && a.answers[id] == (if s.rows[c.Row()] == c.result then ResultExists else ResultConflict)
    case Answered(outcome) => id in a.answers && a.answers[id] == outcome
    case Failed(_) => false
  }

  ghost predicate Simulates(s: State, a: Atomic, namespace: string, action: Digest) {
    var row := RowOf(namespace, action);
    && Lookup(s.rows, row) == Get(a.memory, namespace, action)
    && (forall id :: id in a.answers ==> id in s.clients)
    && (forall id :: id in s.clients && s.clients[id].Row() == row ==> ClientAgrees(s, a, id))
    && (forall id :: id in s.clients ==> s.clients[id].action.size < U64_LIMIT)
  }

  lemma CommitEffect(m: Memory, namespace: string, action: Digest, result: ActionResult)
    ensures var (after, outcome) := Commit(m, (namespace, action), result);
            var found := Get(m, namespace, action);
            && outcome == (if found.None? then ResultCreated else if found.value == result then ResultExists
                  else ResultConflict)
            && Get(after, namespace, action) == Some(if found.None? then result else found.value)
            && forall n, d :: (n, d) != (namespace, action) ==> Get(after, n, d) == Get(m, n, d)
  {
  }

  lemma RowSize(namespace: string, action: Digest)
    requires action.size < I64_LIMIT
    ensures RowOf(namespace, action).size == action.size
  {
  }

  lemma InsertSimulates(s: State, a: Atomic, id: nat, namespace: string, action: Digest)
    requires Simulates(s, a, namespace, action) && action.size < I64_LIMIT
    requires id in s.clients && s.clients[id].phase.Asked?
    ensures Simulates(Inserted(s, id), AtomicStep(a, s, Insert(id)), namespace, action)
  {
    hide RowOf, Commit, Get, Inserted, AtomicStep, ClientAgrees;
    var s', a' := Inserted(s, id), AtomicStep(a, s, Insert(id));
    InsertFrame(s, a, id, namespace, action);
    if s.clients[id].Row() == RowOf(namespace, action) {
      InsertOwn(s, a, id, namespace, action);
    }
    forall other | other in s'.clients && other != id && s'.clients[other].Row() == RowOf(namespace, action)
      ensures ClientAgrees(s', a', other)
    {
      OtherAgrees(s, a, id, other);
    }
  }

  /** An insert leaves every other client alone, and every other row. */
  lemma InsertFrame(s: State, a: Atomic, id: nat, namespace: string, action: Digest)
    requires Simulates(s, a, namespace, action) && action.size < I64_LIMIT && id in s.clients
             && s.clients[id].phase.Asked?
    ensures var s', a' := Inserted(s, id), AtomicStep(a, s, Insert(id));
            && s'.clients.Keys == s.clients.Keys && (forall x :: x in a'.answers ==> x in s'.clients)
            && (forall x :: x in s.clients ==> s'.clients[x] == s.clients[x].(phase := s'.clients[x].phase))
            && (forall x :: x in s.clients && x != id ==> s'.clients[x] == s.clients[x])
            && (s.clients[id].Row() != RowOf(namespace, action) ==>
                  Lookup(s'.rows, RowOf(namespace, action)) == Get(a'.memory, namespace, action))
  {
    hide RowOf, Commit, Get, ClientAgrees;
    var c := s.clients[id];
    CommitEffect(a.memory, c.namespace, c.action, c.result);
    assert c.Row() != RowOf(namespace, action) ==> (c.namespace, c.action) != (namespace, action);
  }

  /** On its own row the insert decides what the locked commit decides. */
  lemma InsertOwn(s: State, a: Atomic, id: nat, namespace: string, action: Digest)
    requires Simulates(s, a, namespace, action) && action.size < I64_LIMIT && id in s.clients
             && s.clients[id].phase.Asked?
    requires s.clients[id].Row() == RowOf(namespace, action)
    ensures var s', a' := Inserted(s, id), AtomicStep(a, s, Insert(id));
            && Lookup(s'.rows, RowOf(namespace, action)) == Get(a'.memory, namespace, action)
            && id in s'.clients && ClientAgrees(s', a', id)
  {
    hide RowOf, Commit, Get;
    var c := s.clients[id];
    CommitEffect(a.memory, c.namespace, c.action, c.result);
    RowOfInjective(c.namespace, c.action, namespace, action);
    RowSize(namespace, action);
  }

  lemma OtherAgrees(s: State, a: Atomic, id: nat, other: nat)
    requires id in s.clients && other in s.clients && other != id && ClientAgrees(s, a, other)
    ensures other in Inserted(s, id).clients && ClientAgrees(Inserted(s, id), AtomicStep(a, s, Insert(id)), other)
  {
    hide RowOf, Commit;
  }

  lemma SweepSimulates(s: State, a: Atomic, step: Step, namespace: string, action: Digest)
    requires Simulates(s, a, namespace, action) && step.Sweep? && !Removes(s, step, RowOf(namespace, action))
    ensures Simulates(Next(s, step), a, namespace, action)
  {
    RowChange(s, step, RowOf(namespace, action));
    assert Next(s, step).clients == s.clients;
    hide RowOf, Get, Removes, Next;
  }

  lemma NextSimulates(s: State, a: Atomic, step: Step, namespace: string, action: Digest)
    requires Simulates(s, a, namespace, action) && action.size < I64_LIMIT
    requires !Removes(s, step, RowOf(namespace, action))
    ensures Simulates(Next(s, step), AtomicStep(a, s, step), namespace, action)
  {
    hide RowOf, Commit, Get, Inserted, Removes, DanglingResults;
    if step.Sweep? {
      SweepSimulates(s, a, step, namespace, action);
    } else if step.Insert? && step.id in s.clients && s.clients[step.id].phase.Asked? {
      InsertSimulates(s, a, step.id, namespace, action);
    }
  }

  lemma SimulatesAtStart(m: Memory, rows: Rows, namespace: string, action: Digest)
    requires Lookup(rows, RowOf(namespace, action)) == Get(m, namespace, action)
    ensures Simulates(State(rows, map[]), Atomic(m, map[]), namespace, action)
  {
  }

  /** Refinement: on every key whose row no sweep deleted, the two statements behave as the
      one locked commit performed at the insert, whatever the interleaving. */
  lemma {:induction false} CommitRefines(m: Memory, rows: Rows, steps: seq<Step>, n: nat, namespace: string,
                                         action: Digest)
    requires n <= |steps| && action.size < I64_LIMIT && Spares(rows, steps, 0, n, RowOf(namespace, action))
    requires Lookup(rows, RowOf(namespace, action)) == Get(m, namespace, action)
    ensures Simulates(After(rows, steps, n), AtomicAfter(m, rows, steps, n), namespace, action)
  {
    hide RowOf, Removes, Next, AtomicStep, Simulates, Lookup, Get;
    if n == 0 {
      SimulatesAtStart(m, rows, namespace, action);
    } else {
      CommitRefines(m, rows, steps, n - 1, namespace, action);
      NextSimulates(After(rows, steps, n - 1), AtomicAfter(m, rows, steps, n - 1), steps[n - 1], namespace, action);
    }
  }

  // ------------------------------------------------------- what clients can rely on

  ghost predicate Won(s: State, id: nat, row: RowKey) {
    id in s.clients && s.clients[id].Row() == row && s.clients[id].phase == Answered(ResultCreated)
  }

  /** Everything the clients of one row may conclude, in terms of the rows they started from. */
  ghost predicate WriteOnce(rows: Rows, s: State, row: RowKey) {
    && (row in rows ==> row in s.rows && s.rows[row] == rows[row] && forall id :: !Won(s, id, row))
    && (row in s.rows && row !in rows ==> exists id :: Won(s, id, row) && s.clients[id].result == s.rows[row])
    && (forall i, j :: Won(s, i, row) && Won(s, j, row) ==> i == j)
    && (forall id :: id in s.clients && s.clients[id].Row() == row ==> Settled(s, s.clients[id]))
  }

  /** A reply of Created or AlreadyExists means the stored value is the client's own, Conflict
      means it is another one, and the row cannot be found missing after a conflict. */
  ghost predicate Settled(s: State, c: Client) {
    match c.phase
    case Asked => true
    case Refused => c.Row() in s.rows
    case Answered(outcome) => c.Row() in s.rows && (outcome != ResultConflict <==> s.rows[c.Row()] == c.result)
    case Failed(error) => error == CheckViolated && c.Row().size < 0
  }

  lemma {:induction false} WriteOnceHolds(rows: Rows, steps: seq<Step>, n: nat, row: RowKey)
    requires n <= |steps| && Spares(rows, steps, 0, n, row)
    ensures WriteOnce(rows, After(rows, steps, n), row)
  {
    if n > 0 {
      hide Removes, Next;
      WriteOnceHolds(rows, steps, n - 1, row);
      WriteOnceStep(rows, After(rows, steps, n - 1), steps[n - 1], row);
    }
  }

  lemma WriteOnceStep(rows: Rows, s: State, step: Step, row: RowKey)
    requires WriteOnce(rows, s, row) && !Removes(s, step, row)
    ensures WriteOnce(rows, Next(s, step), row)
  {
    hide RowOf, Next, Removes, Creates;
    assert forall id :: Won(s, id, row) ==> row in s.rows;
    hide Settled;
    var s' := Next(s, step);
    RowChange(s, step, row);
    forall id | id in s.clients && Won(s, id, row)
      ensures Won(s', id, row) && s'.clients[id] == s.clients[id]
    {
      ClientChange(s, step, id);
    }
    forall id | Won(s', id, row) && !Won(s, id, row)
      ensures row !in s.rows && step == Insert(id)
    {
      NewlyWon(s, step, id, row);
    }
    if Creates(s, step, row) {
      NewRow(s, step, row);
    } else if row in s'.rows && row !in rows {
      var id :| Won(s, id, row) && s.clients[id].result == s.rows[row];
      assert Won(s', id, row);
    }
    forall id | id in s'.clients && s'.clients[id].Row() == row
      ensures Settled(s', s'.clients[id])
    {
      StaysSettled(s, step, id, row);
    }
  }

  lemma NewlyWon(s: State, step: Step, id: nat, row: RowKey)
    requires Won(Next(s, step), id, row) && !Won(s, id, row)
    ensures row !in s.rows && step == Insert(id)
  {
    hide RowOf, DanglingResults;
  }

  lemma NewRow(s: State, step: Step, row: RowKey)
    requires Creates(s, step, row)
    ensures Won(Next(s, step), step.id, row) && Next(s, step).clients[step.id].result == Next(s, step).rows[row]
  {
    hide RowOf;
  }

  lemma StaysSettled(s: State, step: Step, id: nat, row: RowKey)
    requires !Removes(s, step, row)
    requires id in s.clients && s.clients[id].Row() == row ==> Settled(s, s.clients[id])
    requires id in Next(s, step).clients && Next(s, step).clients[id].Row() == row
    ensures Settled(Next(s, step), Next(s, step).clients[id])
  {
    hide RowOf, DanglingResults, Removes, Creates;
    RowChange(s, step, row);
  }

  /** Later reads return the value that was there first, from any instant of the run on. */
  lemma {:induction false} FirstValueStays(rows: Rows, steps: seq<Step>, at: nat, n: nat, row: RowKey)
    requires at <= n <= |steps| && Spares(rows, steps, at, n, row) && row in After(rows, steps, at).rows
    ensures row in After(rows, steps, n).rows && After(rows, steps, n).rows[row] == After(rows, steps, at).rows[row]
  {
    if at < n {
      hide Removes, Creates, Next;
      FirstValueStays(rows, steps, at, n - 1, row);
      RowChange(After(rows, steps, n - 1), steps[n - 1], row);
    }
  }

  /** Exactly: the first value is there at every later instant if and only if no sweep of the
      rest of the run deletes its row. */
  lemma StaysIffSpared(rows: Rows, steps: seq<Step>, at: nat, row: RowKey)
    requires at <= |steps| && row in After(rows, steps, at).rows
    ensures Spares(rows, steps, at, |steps|, row) <==>
            forall j :: at <= j <= |steps| ==>
              Lookup(After(rows, steps, j).rows, row) == Lookup(After(rows, steps, at).rows, row)
  {
    hide After, Removes, Creates;
    if Spares(rows, steps, at, |steps|, row) {
      forall j | at <= j <= |steps|
        ensures Lookup(After(rows, steps, j).rows, row) == Lookup(After(rows, steps, at).rows, row)
      {
        FirstValueStays(rows, steps, at, j, row);
      }
    } else {
      var i :| at <= i < |steps| && Removes(After(rows, steps, i), steps[i], row);
      Unfold(rows, steps, i);
      RemovedIsGone(After(rows, steps, i), steps[i], row);
      var j := i + 1;
      assert at <= j <= |steps| && Lookup(After(rows, steps, j).rows, row) != Lookup(After(rows, steps, at).rows, row);
    }
  }

  lemma RemovedIsGone(s: State, step: Step, row: RowKey)
    requires Removes(s, step, row)
    ensures row !in Next(s, step).rows
  {
  }

  lemma Unfold(rows: Rows, steps: seq<Step>, i: nat)
    requires i < |steps|
    ensures After(rows, steps, i + 1) == Next(After(rows, steps, i), steps[i])
  {
  }

  // -------------------------------------------------------------- what a sweep breaks

  /** A sweep deletes the row in this stretch and no insert takes effect on it afterwards. */
  ghost predicate Gap(rows: Rows, steps: seq<Step>, at: nat, n: nat, row: RowKey)
    requires n <= |steps|
  {
    exists k :: at <= k < n && LastRemoved(rows, steps, k, n, row)
  }

  ghost predicate LastRemoved(rows: Rows, steps: seq<Step>, k: nat, n: nat, row: RowKey)
    requires k < n <= |steps|
  {
    && Removes(After(rows, steps, k), steps[k], row)
    && forall m :: k < m < n ==> !Creates(After(rows, steps, m), steps[m], row)
  }

  /** How one more step opens, keeps or closes a gap. */
  lemma GapNext(rows: Rows, steps: seq<Step>, at: nat, n: nat, row: RowKey)
    requires at < n <= |steps|
    ensures var s, step := After(rows, steps, n - 1), steps[n - 1];
            Gap(rows, steps, at, n, row) <==>
            Removes(s, step, row) || (Gap(rows, steps, at, n - 1, row) && !Creates(s, step, row))
  {
    hide Removes, Creates, After;
    var s, step := After(rows, steps, n - 1), steps[n - 1];
    if Gap(rows, steps, at, n, row) {
      var k :| at <= k < n && LastRemoved(rows, steps, k, n, row);
      if k < n - 1 {
        assert LastRemoved(rows, steps, k, n - 1, row);
        assert !Creates(After(rows, steps, n - 1), steps[n - 1], row);
      }
    }
    if Removes(s, step, row) {
      assert LastRemoved(rows, steps, n - 1, n, row);
    } else if Gap(rows, steps, at, n - 1, row) && !Creates(s, step, row) {
      var k :| at <= k < n - 1 && LastRemoved(rows, steps, k, n - 1, row);
      assert LastRemoved(rows, steps, k, n, row);
    }
  }

  /** From an instant when the row is there, it is missing later exactly after such a gap. */
  lemma {:induction false} MissingIffGap(rows: Rows, steps: seq<Step>, at: nat, n: nat, row: RowKey)
    requires at <= n <= |steps| && row in After(rows, steps, at).rows
    ensures row !in After(rows, steps, n).rows <==> Gap(rows, steps, at, n, row)
  {
    hide Removes, Creates, Next, After;
    if at < n {
      var s, step := After(rows, steps, n - 1), steps[n - 1];
      MissingIffGap(rows, steps, at, n - 1, row);
      GapNext(rows, steps, at, n, row);
      Unfold(rows, steps, n - 1);
      hide Gap;
      RowChange(s, step, row);
      if row !in s.rows {
        NotRemovedTwice(s, step, row);
      } else {
        NotCreatedTwice(s, step, row);
      }
    }
  }

  lemma NotCreatedTwice(s: State, step: Step, row: RowKey)
    requires row in s.rows
    ensures !Creates(s, step, row)
  {
  }

  lemma NotRemovedTwice(s: State, step: Step, row: RowKey)
    requires row !in s.rows
    ensures !Removes(s, step, row)
  {
  }

  /** The client's insert at this step met an existing row. */
  ghost predicate RefusedAt(rows: Rows, steps: seq<Step>, i: nat, id: nat)
    requires i < |steps|
  {
    var s := After(rows, steps, i);
    && steps[i] == Insert(id) && id in s.clients && s.clients[id].phase.Asked?
    && s.clients[id].Row() in s.rows && s.clients[id].Row().size >= 0
  }

  /** The client's select happens at this step. */
  ghost predicate SelectedAt(rows: Rows, steps: seq<Step>, j: nat, id: nat)
    requires j < |steps|
  {
    var s := After(rows, steps, j);
    steps[j] == Select(id) && id in s.clients && s.clients[id].phase.Refused?
  }

  lemma {:induction false} RefusedSince(rows: Rows, steps: seq<Step>, n: nat, id: nat) returns (i: nat)
    requires n <= |steps| && id in After(rows, steps, n).clients && After(rows, steps, n).clients[id].phase.Refused?
    ensures i < n && RefusedAt(rows, steps, i, id)
    ensures After(rows, steps, i).clients[id].Row() == After(rows, steps, n).clients[id].Row()
  {
    var s, step := After(rows, steps, n - 1), steps[n - 1];
    if id !in s.clients {
      NewClient(s, step, id);
    }
    ClientChange(s, step, id);
    if s.clients[id].phase.Refused? {
      i := RefusedSince(rows, steps, n - 1, id);
    } else {
      i := n - 1;
      hide RowOf;
      assert step == Insert(id) && s.clients[id].phase.Asked?;
    }
  }

  /** The error is reported in this stretch: the select follows a gap after the insert. */
  ghost predicate LostBetween(rows: Rows, steps: seq<Step>, i: nat, j: nat, id: nat)
    requires i < j < |steps|
  {
    && RefusedAt(rows, steps, i, id) && SelectedAt(rows, steps, j, id)
    && Gap(rows, steps, i + 1, j, After(rows, steps, i).clients[id].Row())
  }

  lemma {:induction false} DisappearedHasAGap(rows: Rows, steps: seq<Step>, n: nat, id: nat) returns (i: nat, j: nat)
    requires n <= |steps| && id in After(rows, steps, n).clients
    requires After(rows, steps, n).clients[id].phase == Failed(Disappeared)
    ensures i < j < n && LostBetween(rows, steps, i, j, id)
  {
    var s, step := After(rows, steps, n - 1), steps[n - 1];
    if id !in s.clients {
      NewClient(s, step, id);
    }
    ClientChange(s, step, id);
    if s.clients[id].phase == Failed(Disappeared) {
      i, j := DisappearedHasAGap(rows, steps, n - 1, id);
    } else {
      MissedBySelect(s, step, id);
      j := n - 1;
      i := RefusedSince(rows, steps, j, id);
      Unfold(rows, steps, i);
      RowChange(After(rows, steps, i), steps[i], s.clients[id].Row());
      hide RowOf, After, Next, Removes, Creates;
      assert !Removes(After(rows, steps, i), steps[i], s.clients[id].Row())
          by { OnlySweepsRemove(After(rows, steps, i), steps[i], s.clients[id].Row()); }
      MissingIffGap(rows, steps, i + 1, j, s.clients[id].Row());
    }
  }

  lemma OnlySweepsRemove(s: State, step: Step, row: RowKey)
    requires !step.Sweep?
    ensures !Removes(s, step, row)
  {
  }

  lemma MissedBySelect(s: State, step: Step, id: nat)
    requires id in s.clients && s.clients[id].phase != Failed(Disappeared) && id in Next(s, step).clients
    requires Next(s, step).clients[id].phase == Failed(Disappeared)
    ensures step == Select(id) && s.clients[id].phase.Refused? && s.clients[id].Row() !in s.rows
  {
    hide RowOf, DanglingResults;
  }

  lemma {:induction false} ClientStays(rows: Rows, steps: seq<Step>, i: nat, n: nat, id: nat)
    requires i <= n <= |steps| && id in After(rows, steps, i).clients
    ensures id in After(rows, steps, n).clients
    ensures After(rows, steps, n).clients[id].Row() == After(rows, steps, i).clients[id].Row()
    ensures After(rows, steps, i).clients[id].phase.Failed? ==>
              After(rows, steps, n).clients[id] == After(rows, steps, i).clients[id]
  {
    if i < n {
      ClientStays(rows, steps, i, n - 1, id);
      ClientChange(After(rows, steps, n - 1), steps[n - 1], id);
      Unfold(rows, steps, n - 1);
      hide After, Next, RowOf;
    }
  }

  lemma GapDisappears(rows: Rows, steps: seq<Step>, i: nat, j: nat, id: nat)
    requires i < j < |steps| && LostBetween(rows, steps, i, j, id)
    ensures id in After(rows, steps, |steps|).clients
    ensures After(rows, steps, |steps|).clients[id].phase == Failed(Disappeared)
  {
    var s := After(rows, steps, i);
    var row := s.clients[id].Row();
    Unfold(rows, steps, i);
    assert row in After(rows, steps, i + 1).rows && id in After(rows, steps, i + 1).clients;
    Unfold(rows, steps, j);
    hide After, RowOf, Gap;
    ClientStays(rows, steps, i, j, id);
    MissingIffGap(rows, steps, i + 1, j, row);
    assert After(rows, steps, j + 1).clients[id].phase == Failed(Disappeared);
    ClientStays(rows, steps, j + 1, |steps|, id);
  }

  /** "Disappeared after conflict", exactly: a client reports it if and only if between its two
      statements a sweep deleted the row and no insert of it took effect since. */
  lemma DisappearedIffGap(rows: Rows, steps: seq<Step>, id: nat)
    ensures (id in After(rows, steps, |steps|).clients
            && After(rows, steps, |steps|).clients[id].phase == Failed(Disappeared)) <==>
            exists i, j :: 0 <= i < j < |steps| && LostBetween(rows, steps, i, j, id)
  {
    hide After, LostBetween;
    var s := After(rows, steps, |steps|);
    if id in s.clients && s.clients[id].phase == Failed(Disappeared) {
      var i, j := DisappearedHasAGap(rows, steps, |steps|, id);
    }
    if i, j :| 0 <= i < j < |steps| && LostBetween(rows, steps, i, j, id) {
      GapDisappears(rows, steps, i, j, id);
    }
  }

  // ------------------------------------------------------ which results are at risk

  /** No top-level reference, so nothing whose blob row could be missing. */
  predicate Unreferenced(r: ActionResult) {
    r.metadata.None? && r.outputRoot.None?
  }

  lemma UnreferencedIsSpared(s: State, step: Step, row: RowKey)
    requires row in s.rows ==> Unreferenced(s.rows[row])
    ensures !Removes(s, step, row)
  {
  }

  /** Such a value stays whatever is swept. */
  lemma {:induction false} UnreferencedStays(rows: Rows, steps: seq<Step>, at: nat, n: nat, row: RowKey)
    requires at <= n <= |steps| && row in After(rows, steps, at).rows && Unreferenced(After(rows, steps, at).rows[row])
    ensures Spares(rows, steps, at, n, row)
    ensures row in After(rows, steps, n).rows && After(rows, steps, n).rows[row] == After(rows, steps, at).rows[row]
  {
    hide Removes, Creates, Next, After, Unreferenced;
    if at < n {
      UnreferencedStays(rows, steps, at, n - 1, row);
      UnreferencedIsSpared(After(rows, steps, n - 1), steps[n - 1], row);
      RowChange(After(rows, steps, n - 1), steps[n - 1], row);
      Unfold(rows, steps, n - 1);
    }
  }

  /** Whatever is asked for this row, and whatever it holds to begin with, has no reference. */
  ghost predicate AsksUnreferenced(rows: Rows, steps: seq<Step>, row: RowKey) {
    && (row in rows ==> Unreferenced(rows[row]))
    && forall i :: 0 <= i < |steps| && steps[i].Begin? && RowOf(steps[i].namespace, steps[i].action) == row ==>
         Unreferenced(steps[i].result)
  }

  ghost predicate HoldsUnreferenced(s: State, row: RowKey) {
    && (row in s.rows ==> Unreferenced(s.rows[row]))
    && forall id :: id in s.clients && s.clients[id].Row() == row ==> Unreferenced(s.clients[id].result)
  }

  lemma UnreferencedStep(s: State, step: Step, row: RowKey)
    requires HoldsUnreferenced(s, row)
    requires step.Begin? && RowOf(step.namespace, step.action) == row ==> Unreferenced(step.result)
    ensures HoldsUnreferenced(Next(s, step), row)
  {
    hide RowOf, Next, Unreferenced, Removes, Client.Row;
    RowChange(s, step, row);
    forall id | id in Next(s, step).clients && Next(s, step).clients[id].Row() == row
      ensures Unreferenced(Next(s, step).clients[id].result)
    {
      if id in s.clients {
        ClientChange(s, step, id);
        SameRow(s.clients[id], Next(s, step).clients[id]);
      } else {
        NewClient(s, step, id);
      }
    }
  }

  lemma SameRow(c: Client, d: Client)
    requires d == c.(phase := d.phase)
    ensures d.Row() == c.Row()
  {
  }

  lemma {:induction false} HoldsUnreferencedAfter(rows: Rows, steps: seq<Step>, n: nat, row: RowKey)
    requires n <= |steps| && AsksUnreferenced(rows, steps, row)
    ensures HoldsUnreferenced(After(rows, steps, n), row)
  {
    if n > 0 {
      hide RowOf, Next, HoldsUnreferenced, Unreferenced;
      HoldsUnreferencedAfter(rows, steps, n - 1, row);
      UnreferencedStep(After(rows, steps, n - 1), steps[n - 1], row);
    }
  }

  /** A key that is only ever given results without top-level references is write-once in every
      run, sweeps and all. */
  lemma UnreferencedIsWriteOnce(rows: Rows, steps: seq<Step>, row: RowKey)
    requires AsksUnreferenced(rows, steps, row)
    ensures WriteOnce(rows, After(rows, steps, |steps|), row)
  {
    forall i | 0 <= i < |steps|
      ensures !Removes(After(rows, steps, i), steps[i], row)
    {
      HoldsUnreferencedAfter(rows, steps, i, row);
      UnreferencedIsSpared(After(rows, steps, i), steps[i], row);
    }
    hide After, Removes, WriteOnce;
    WriteOnceHolds(rows, steps, |steps|, row);
  }

  /** Two steps: a new client asks and its insert runs. */
  lemma AskAndInsert(s: State, id: nat, namespace: string, action: Digest, result: ActionResult)
    requires id !in s.clients && action.size < I64_LIMIT
    ensures var c, row := Client(namespace, action, result, Asked), RowOf(namespace, action);
            Next(Next(s, Begin(id, namespace, action, result)), Insert(id)) ==
            if row in s.rows then s.(clients := s.clients[id := c.(phase := Refused)])
            else State(s.rows[row := result], s.clients[id := c.(phase := Answered(ResultCreated))])
  {
    hide RowOf;
    RowSize(namespace, action);
    var asked := Next(s, Begin(id, namespace, action, result));
    assert asked.clients[id].Row() == RowOf(namespace, action);
    var c := Client(namespace, action, result, Asked);
    assert asked.clients[id := c.(phase := Refused)] == s.clients[id := c.(phase := Refused)];
    assert asked.clients[id := c.(phase := Answered(ResultCreated))] ==
        s.clients[id := c.(phase := Answered(ResultCreated))];
  }

  /** And a first value with a reference is at risk: with a sweep in between, a conflict finds
      nothing to compare with, and a second client creates the key again. */
  lemma SweepBreaksCommit(action: Digest, first: ActionResult, second: ActionResult) returns (steps: seq<Step>)
    requires first != second && !Unreferenced(first) && action.size < I64_LIMIT
    ensures var s, row := After(map[], steps, |steps|), RowOf("n", action);
            && 1 in s.clients && s.clients[1].Row() == row && s.clients[1].phase == Failed(Disappeared)
            && Won(s, 0, row) && Won(s, 2, row) && s.clients[0].result != s.clients[2].result
  {
    hide RowOf, After, Next;
    var row := RowOf("n", action);
    var c1 := Client("n", action, second, Asked);
    var won := Client("n", action, first, Answered(ResultCreated));
    steps := [Begin(0, "n", action, first), Insert(0), Begin(1, "n", action, second), Insert(1), Sweep(map[]),
              Select(1), Begin(2, "n", action, second), Insert(2)];
    AfterNothing(map[], steps);
    Unfold(map[], steps, 0);
    Unfold(map[], steps, 1);
    AskAndInsert(After(map[], steps, 0), 0, "n", action, first);
    Unfold(map[], steps, 2);
    Unfold(map[], steps, 3);
    AskAndInsert(After(map[], steps, 2), 1, "n", action, second);
    var s4 := After(map[], steps, 4);
    assert s4.rows == map[row := first] && s4.clients == map[0 := won, 1 := c1.(phase := Refused)];
    Unfold(map[], steps, 4);
    SweptAll(s4, row, first);
    Unfold(map[], steps, 5);
    SelectsNothing(After(map[], steps, 5), 1);
    Unfold(map[], steps, 6);
    Unfold(map[], steps, 7);
    AskAndInsert(After(map[], steps, 6), 2, "n", action, second);
  }

  lemma SelectsNothing(s: State, id: nat)
    requires id in s.clients && s.clients[id].phase.Refused? && s.rows == map[]
    ensures Next(s, Select(id)) == s.(clients := s.clients[id := s.clients[id].(phase := Failed(Disappeared))])
  {
  }

  lemma SweptAll(s: State, row: RowKey, r: ActionResult)
    requires s.rows == map[row := r] && !Unreferenced(r)
    ensures Next(s, Sweep(map[])) == s.(rows := map[])
  {
    var t := Tables(map[], s.rows, map[]);
    assert DanglingResults(t) == {row};
    assert s.rows - {row} == map[];
  }

  lemma AfterNothing(rows: Rows, steps: seq<Step>)
    ensures After(rows, steps, 0) == State(rows, map[])
  {
  }
}
