/** The run ledger: rows are only ever appended, each run numbered on its own, with any number of writers. */
module AuditLedger {
  import opened Results
  import opened Sequences
  import opened Sorting

  datatype Scalar = Text(text: string) | Integer(number: int) | Boolean(truth: bool) | Null

  datatype Event = Event(
    eventId: string, timestamp: string, runId: string, source: string, decisionKind: string, nodeId: string,
    actor: string,
    authorityRef: string, payloadSummary: string, after: map<string, Scalar>, evidenceRefs: seq<string>, version: int)

  datatype Row = Row(sequence: int, event: Event)

  datatype LedgerError = RunIdMismatch | DuplicateEvent | SequenceMismatch

  function OfRun(run: string): Row -> bool {
    (r: Row) => r.event.runId == run
  }

  function RunRows(rows: seq<Row>, run: string): seq<Row> {
    Filter(OfRun(run), rows)
  }

  function MaxSequence(rows: seq<Row>): int {
    if rows == [] then 0
    else
      var m, last := MaxSequence(rows[..|rows| - 1]), rows[|rows| - 1].sequence;
      if |rows| == 1 || last > m then last else m
  }

  predicate Known(rows: seq<Row>, run: string, eventId: string) {
    exists i :: 0 <= i < |rows| && rows[i].event.runId == run && rows[i].event.eventId == eventId
  }

  predicate Taken(rows: seq<Row>, run: string, sequence: int) {
    exists i :: 0 <= i < |rows| && rows[i].event.runId == run && rows[i].sequence == sequence
  }

  /** The reads of an append: refuse, or settle on the next sequence number. */
  function Prepare(rows: seq<Row>, run: string, e: Event, expected: Option<int>): Result<int, LedgerError> {
    if e.runId != run then Err(RunIdMismatch)
    else if Known(rows, run, e.eventId) then Err(DuplicateEvent)
    else
      var next := MaxSequence(RunRows(rows, run)) + 1;
      if expected.Some? && expected.value != next then Err(SequenceMismatch) else Ok(next)
  }

  /** The insert: the two uniqueness constraints of the table decide. */
  function Insert(rows: seq<Row>, sequence: int, e: Event): Result<seq<Row>, LedgerError> {
    if Known(rows, e.runId, e.eventId) || Taken(rows, e.runId, sequence) then Err(DuplicateEvent)
    else Ok(rows + [Row(sequence, e)])
  }

  // ---- any interleaving ----

  datatype Pending = Pending(sequence: int, event: Event)

  datatype World = World(rows: seq<Row>, writers: map<nat, Pending>)

  datatype Action = Begin(writer: nat, run: string, event: Event, expected: Option<int>) | Commit(writer: nat)

  function Apply(w: World, a: Action): World {
    match a
    case Begin(id, run, e, expected) =>
      var next := Prepare(w.rows, run, e, expected);
      if next.Err? then w else w.(writers := w.writers[id := Pending(next.value, e)])
    case Commit(id) =>
      if id !in w.writers then w
      else
        var after := Insert(w.rows, w.writers[id].sequence, w.writers[id].event);
        World(if after.Ok? then after.value else w.rows, w.writers - {id})
  }

  /** Each run's rows carry 1, 2, 3, ... in table order, and no event identity twice. */
  ghost predicate Numbered(rows: seq<Row>) {
    forall run ::
      && (forall i :: 0 <= i < |RunRows(rows, run)| ==> RunRows(rows, run)[i].sequence == i + 1)
      && (forall i, j :: 0 <= i < j < |RunRows(rows, run)| ==>
            RunRows(rows, run)[i].event.eventId != RunRows(rows, run)[j].event.eventId)
  }

  ghost predicate Inv(w: World) {
    && Numbered(w.rows)
    && forall id :: id in w.writers ==> 1 <= w.writers[id].sequence <= |RunRows(w.rows, w.writers[id].event.runId)| + 1
  }

  lemma {:induction false} MaxOfNumbered(rows: seq<Row>)
    requires forall i :: 0 <= i < |rows| ==> rows[i].sequence == i + 1
    ensures MaxSequence(rows) == |rows|
  {
    if rows != [] { MaxOfNumbered(rows[..|rows| - 1]); }
  }

  lemma RunRowsAppend(rows: seq<Row>, r: Row, run: string)
    ensures RunRows(rows + [r], run) == if r.event.runId == run then RunRows(rows, run) + [r] else RunRows(rows, run)
  {
    FilterAppend(OfRun(run), rows, r);
  }

  /** A row of the run in the table is one of the run's rows, and the other way round. */
  lemma RowOfRun(rows: seq<Row>, run: string, r: Row)
    ensures r in RunRows(rows, run) <==> r in rows && r.event.runId == run
  {
    hide Filter;
    assert OfRun(run)(r) <==> r.event.runId == run;
  }

  lemma NumbersTaken(rows: seq<Row>, run: string, sequence: int)
    requires Numbered(rows) && 1 <= sequence <= |RunRows(rows, run)|
    ensures Taken(rows, run, sequence)
  {
    hide RunRows;
    var r := RunRows(rows, run)[sequence - 1];
    RowOfRun(rows, run, r);
    var i :| 0 <= i < |rows| && rows[i] == r;
  }

  /** An insert goes through only with the number right after the run's last. */
  lemma InsertNumbered(rows: seq<Row>, sequence: int, e: Event)
    requires Numbered(rows) && 1 <= sequence <= |RunRows(rows, e.runId)| + 1 && Insert(rows, sequence, e).Ok?
    ensures sequence == |RunRows(rows, e.runId)| + 1 && Numbered(rows + [Row(sequence, e)])
  {
    hide RunRows;
    var mine := RunRows(rows, e.runId);
    if sequence <= |mine| {
      NumbersTaken(rows, e.runId, sequence);
    }
    var after := rows + [Row(sequence, e)];
    forall run
      ensures (forall i :: 0 <= i < |RunRows(after, run)| ==> RunRows(after, run)[i].sequence == i + 1)
           && (forall i, j :: 0 <= i < j < |RunRows(after, run)| ==>
                 RunRows(after, run)[i].event.eventId != RunRows(after, run)[j].event.eventId) {
      RunRowsAppend(rows, Row(sequence, e), run);
      if run == e.runId {
        forall i | 0 <= i < |mine| ensures mine[i].event.eventId != e.eventId {
          RowOfRun(rows, e.runId, mine[i]);
          var k :| 0 <= k < |rows| && rows[k] == mine[i];
        }
      }
    }
  }

  lemma ActionKeeps(w: World, a: Action)
    requires Inv(w)
    ensures Inv(Apply(w, a)) && w.rows <= Apply(w, a).rows
  {
    hide RunRows, MaxSequence, Known, Taken;
    match a
    case Begin(id, run, e, expected) =>
      MaxOfNumbered(RunRows(w.rows, run));
    case Commit(id) =>
      if id in w.writers {
        var p := w.writers[id];
        if Insert(w.rows, p.sequence, p.event).Ok? {
          InsertNumbered(w.rows, p.sequence, p.event);
          forall k | k in w.writers
            ensures |RunRows(w.rows + [Row(p.sequence, p.event)], w.writers[k].event.runId)| >= |RunRows(w.rows,
                    w.writers[k].event.runId)| {
            RunRowsAppend(w.rows, Row(p.sequence, p.event), w.writers[k].event.runId);
          }
        }
      }
  }

  function RunActions(w: World, actions: seq<Action>): World {
    if actions == [] then w else Apply(RunActions(w, actions[..|actions| - 1]), actions[|actions| - 1])
  }

  /** Whatever the interleaving of readers and inserters: rows are append-only, every run is numbered 1..n and no
      event is recorded twice. */
  lemma {:induction false} EveryRunNumbered(actions: seq<Action>, k: nat)
    requires k <= |actions|
    ensures Inv(RunActions(World([], map[]), actions))
    ensures RunActions(World([], map[]), actions[..k]).rows <= RunActions(World([], map[]), actions).rows
    decreases |actions|
  {
    hide Apply;
    if actions == [] {
      EmptyNumbered();
      assert actions[..k] == actions;
    } else {
      var init := actions[..|actions| - 1];
      if k < |actions| {
        EveryRunNumbered(init, k);
        assert init[..k] == actions[..k];
      } else {
        EveryRunNumbered(init, |init|);
        assert actions[..k] == actions;
      }
      ActionKeeps(RunActions(World([], map[]), init), actions[|actions| - 1]);
    }
  }

  lemma EmptyNumbered()
    ensures Numbered([])
  {
    forall run ensures RunRows([], run) == [] { FilterEmpty(OfRun(run)); }
  }

  // ---- one append at a time ----

  function Append(rows: seq<Row>, run: string, e: Event, expected: Option<int>): Result<(seq<Row>, int), LedgerError> {
    var next := Prepare(rows, run, e, expected);
    if next.Err? then Err(next.error)
    else
      var after := Insert(rows, next.value, e);
      if after.Err? then Err(after.error) else Ok((after.value, next.value))
  }

  /** Alone, a writer never runs into a constraint: an append is refused exactly for its own three reasons. */
  lemma AppendExactly(rows: seq<Row>, run: string, e: Event, expected: Option<int>)
    requires Numbered(rows)
    ensures var n := |RunRows(rows, run)| + 1;
            Append(rows, run, e, expected) ==
              if e.runId != run then Err(RunIdMismatch)
              else if Known(rows, run, e.eventId) then Err(DuplicateEvent)
              else if expected.Some? && expected.value != n then Err(SequenceMismatch)
              else Ok((rows + [Row(n, e)], n))
    ensures Append(rows, run, e, expected).Ok? ==> Numbered(Append(rows, run, e, expected).value.0)
  {
    hide RunRows, MaxSequence;
    MaxOfNumbered(RunRows(rows, run));
    var n := |RunRows(rows, run)| + 1;
    forall i | 0 <= i < |rows| && rows[i].event.runId == run ensures rows[i].sequence != n {
      RowOfRun(rows, run, rows[i]);
      var k :| 0 <= k < |RunRows(rows, run)| && RunRows(rows, run)[k] == rows[i];
    }
    if Append(rows, run, e, expected).Ok? {
      InsertNumbered(rows, n, e);
    }
  }

  function BySequence(): (Row, Row) -> bool {
    (a: Row, b: Row) => a.sequence <= b.sequence
  }

  /** Reading a run back in sequence order gives its rows as they were appended. */
  lemma ReadsInOrder(rows: seq<Row>, run: string)
    requires Numbered(rows)
    ensures SortBy(BySequence(), RunRows(rows, run)) == RunRows(rows, run)
  {
    hide SortBy, RunRows;
    var mine := RunRows(rows, run);
    SortBySorted(BySequence(), mine);
    SortedUnique(BySequence(), mine, SortBy(BySequence(), mine));
  }

  class Ledger {
    var rows: seq<Row>

    constructor ()
      ensures rows == [] && Numbered(rows)
    {
      rows := [];
      EmptyNumbered();
    }

    method SelectRun(run: string) returns (mine: seq<Row>)
      ensures mine == RunRows(rows, run)
    {
      hide Filter;
      mine := [];
      FilterEmpty(OfRun(run));
      for i := 0 to |rows|
        invariant mine == Filter(OfRun(run), rows[..i])
      {
        assert rows[..i + 1] == rows[..i] + [rows[i]];
        FilterAppend(OfRun(run), rows[..i], rows[i]);
        if rows[i].event.runId == run {
          mine := mine + [rows[i]];
        }
      }
      assert rows[..|rows|] == rows;
    }

    method NextSequence(run: string) returns (next: int)
      ensures next == MaxSequence(RunRows(rows, run)) + 1
    {
      hide RunRows;
      var mine := SelectRun(run);
      if mine == [] {
        return 1;
      }
      var max := mine[0].sequence;
      for i := 1 to |mine|
        invariant max == MaxSequence(mine[..i])
      {
        assert mine[..i + 1][..i] == mine[..i];
        if mine[i].sequence > max {
          max := mine[i].sequence;
        }
      }
      assert mine[..|mine|] == mine;
      next := max + 1;
    }

    method AppendEvent(run: string, e: Event, expected: Option<int>) returns (r: Result<int, LedgerError>)
      modifies this
      ensures var spec := Append(old(rows), run, e, expected);
              && r == (if spec.Ok? then Ok(spec.value.1) else Err(spec.error))
              && rows == (if spec.Ok? then spec.value.0 else old(rows))
    {
      hide MaxSequence, RunRows;
      if e.runId != run {
        return Err(RunIdMismatch);
      }
      if exists i :: 0 <= i < |rows| && rows[i].event.runId == run && rows[i].event.eventId == e.eventId {
        return Err(DuplicateEvent);
      }
      var next := NextSequence(run);
      if expected.Some? && expected.value != next {
        return Err(SequenceMismatch);
      }
      if exists i :: 0 <= i < |rows| && rows[i].event.runId == run && rows[i].sequence == next {
        return Err(DuplicateEvent);
      }
      rows := rows + [Row(next, e)];
      return Ok(next);
    }

    method Events(run: string) returns (events: seq<Row>)
      ensures events == SortBy(BySequence(), RunRows(rows, run))
      ensures Numbered(rows) ==> events == RunRows(rows, run)
    {
      hide SortBy, RunRows;
      var mine := SelectRun(run);
      if Numbered(rows) { ReadsInOrder(rows, run); }
      events := SortBy(BySequence(), mine);
    }
  }
}
