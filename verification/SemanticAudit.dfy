/** The semantic recorder over the run ledger, and the timeline reconstructed from what it wrote. */
module SemanticAudit {
  import opened Results
  import opened Sequences
  import opened Sorting
  import Text
  import opened AuditLedger

  const EventKinds: set<string> := {
    "MAILBOX_WRITE", "MAILBOX_READBACK", "WAKEUP", "BOOTSTRAP", "CLASSIFICATION", "FANOUT", "CHILD_COMPLETION", "MIXER",
    "TERMINAL_COMMIT", "RESUME", "STALE_REJECTION"}

  const AllowedKeys: set<string> := {
    "attempt_id", "child_id", "child_status", "classification", "conflict_rate", "correlation_id", "evidence_count",
    "event_digest",
    "join_status", "lease_generation", "manifest_digest", "message_id", "outcome", "reason", "rejection_code",
    "result_digest",
    "reviewer_count", "sequence_hint", "source_digest", "stage", "standards_digest", "status", "wakeup_ref"}

  const RawKeys: set<string> := {"chain_of_thought", "messages", "prompt", "raw_prompt", "raw_transcript", "reasoning",
      "transcript"}

  const Marker := "semantic_event"

  datatype SemanticError =
    | UnknownEventKind | IdentityRequired | IdentityInvalid | EvidenceRefInvalid | RawContentForbidden
    | MetadataKeyForbidden
    | MetadataValueInvalid | EventInvalid | Refused(cause: LedgerError)

  /** What a caller asks to record; the metadata mapping in its iteration order. */
  datatype Input = Input(
    kind: string, eventId: string, timestamp: string, runId: string, source: string, nodeId: string, actor: string,
    authorityRef: string, evidence: seq<string>, metadata: seq<(string, Scalar)>)

  // ---- validation ----

  function RequiredError(s: string): Option<SemanticError> {
    if Text.Strip(s) == "" || '\0' in s then Some(IdentityRequired)
    else if |Text.Strip(s)| > 256 then Some(IdentityInvalid) else None
  }

  function OptionalError(s: string): Option<SemanticError> {
    if '\0' in s || |Text.Strip(s)| > 256 then Some(IdentityInvalid) else None
  }

  predicate IsLetter(c: char) { 'A' <= c <= 'Z' || 'a' <= c <= 'z' }

  predicate IsSchemeChar(c: char) { IsLetter(c) || '0' <= c <= '9' || c == '+' || c == '.' || c == '-' }

  /** A scheme, a colon and a non-empty rest without whitespace. */
  predicate IsReference(s: string) {
    exists c :: 0 < c < |s| - 1 && s[c] == ':' && IsLetter(s[0]) && (forall i :: 0 <= i < c ==> IsSchemeChar(s[i]))
             && (forall i :: c < i < |s| ==> !Text.IsSpace(s[i]))
  }

  predicate GoodReference(v: string) {
    |v| <= 256 && IsReference(Text.Strip(v))
  }

  predicate GoodReferences(values: seq<string>) {
    forall i :: 0 <= i < |values| ==> GoodReference(values[i])
  }

  function Stripped(): string -> string {
    (s: string) => Text.Strip(s)
  }

  function References(values: seq<string>): seq<string> {
    Unique(Map(Stripped(), values))
  }

  function ItemError(key: string, value: Scalar): Option<SemanticError> {
    if key in RawKeys then Some(RawContentForbidden)
    else if key !in AllowedKeys then Some(MetadataKeyForbidden)
    else match value
      case Text(s) => if |s| > 256 || '\0' in s then Some(MetadataValueInvalid) else None
      case Integer(n) => if n > 1_000_000_000 || n < -1_000_000_000 then Some(MetadataValueInvalid) else None
      case _ => None
  }

  function MetadataError(items: seq<(string, Scalar)>): (e: Option<SemanticError>)
    ensures e.None? <==> forall i :: 0 <= i < |items| ==> ItemError(items[i].0, items[i].1).None?
  {
    if items == [] then None
    else
      var before, last := MetadataError(items[..|items| - 1]), items[|items| - 1];
      if before.Some? then before else ItemError(last.0, last.1)
  }

  function AsMap(items: seq<(string, Scalar)>): map<string, Scalar> {
    if items == [] then map[] else AsMap(items[..|items| - 1])[items[|items| - 1].0 := items[|items| - 1].1]
  }

  /** The checks of a request, in order. */
  function InputErrors(i: Input): seq<Option<SemanticError>> {
    [if i.kind in EventKinds then None else Some(UnknownEventKind),
     RequiredError(i.eventId), RequiredError(i.timestamp), RequiredError(i.runId), RequiredError(i.source),
     OptionalError(i.nodeId), OptionalError(i.actor), OptionalError(i.authorityRef),
     MetadataError(i.metadata),
     if GoodReferences(i.evidence) then None else Some(EvidenceRefInvalid)]
  }

  function InputError(i: Input): Option<SemanticError> {
    FirstOf(InputErrors(i))
  }

  /** A text that may name something: not blank, no NUL, at most 256 characters without its surrounding blanks. */
  predicate Nameable(s: string) {
    Text.Strip(s) != "" && '\0' !in s && |Text.Strip(s)| <= 256
  }

  /** A bounded scalar under one of the allowed keys. */
  predicate Bounded(key: string, value: Scalar) {
    && key in AllowedKeys && key !in RawKeys
    && match value
       case Text(s) => |s| <= 256 && '\0' !in s
       case Integer(n) => -1_000_000_000 <= n <= 1_000_000_000
       case Boolean(_) => true
       case Null => true
  }

  /** Exactly which requests the recorder accepts before it turns to the ledger. */
  lemma InputAcceptedExactly(i: Input)
    ensures InputError(i).None? <==>
              && i.kind in EventKinds
              && Nameable(i.eventId) && Nameable(i.timestamp) && Nameable(i.runId) && Nameable(i.source)
              && (forall s :: s in [i.nodeId, i.actor, i.authorityRef] ==> '\0' !in s && |Text.Strip(s)| <= 256)
              && (forall k :: 0 <= k < |i.metadata| ==> Bounded(i.metadata[k].0, i.metadata[k].1))
              && (forall k :: 0 <= k < |i.evidence| ==>
                    |i.evidence[k]| <= 256 && IsReference(Text.Strip(i.evidence[k])))
  {
    hide Text.Strip, MetadataError, IsReference, RequiredError, OptionalError, Nameable, ItemError, Bounded;
    AllErrorsNone(i);
    NameableExactly(i.eventId);
    NameableExactly(i.timestamp);
    NameableExactly(i.runId);
    NameableExactly(i.source);
    OptionalExactly([i.nodeId, i.actor, i.authorityRef]);
    forall k | 0 <= k < |i.metadata|
      ensures ItemError(i.metadata[k].0, i.metadata[k].1).None? <==> Bounded(i.metadata[k].0, i.metadata[k].1) {
      BoundedExactly(i.metadata[k].0, i.metadata[k].1);
    }
  }

  lemma AllErrorsNone(i: Input)
    ensures InputError(i).None? <==>
              && i.kind in EventKinds
              && RequiredError(i.eventId).None? && RequiredError(i.timestamp).None?
              && RequiredError(i.runId).None? && RequiredError(i.source).None?
              && OptionalError(i.nodeId).None? && OptionalError(i.actor).None? && OptionalError(i.authorityRef).None?
              && MetadataError(i.metadata).None? && GoodReferences(i.evidence)
  {
    hide MetadataError, GoodReferences, RequiredError, OptionalError;
    var errors := InputErrors(i);
    assert |errors| == 10;
    assert FirstOf(errors).None? <==>
             && errors[0].None? && errors[1].None? && errors[2].None? && errors[3].None? && errors[4].None?
             && errors[5].None? && errors[6].None? && errors[7].None? && errors[8].None? && errors[9].None?;
  }

  lemma NameableExactly(s: string)
    ensures RequiredError(s).None? <==> Nameable(s)
  {
    hide Text.Strip;
  }

  lemma OptionalExactly(names: seq<string>)
    requires |names| == 3
    ensures OptionalError(names[0]).None? && OptionalError(names[1]).None? && OptionalError(names[2]).None? <==>
              forall s :: s in names ==> '\0' !in s && |Text.Strip(s)| <= 256
  {
    hide Text.Strip;
  }

  lemma BoundedExactly(key: string, value: Scalar)
    ensures ItemError(key, value).None? <==> Bounded(key, value)
  {
  }

  /** What is stored as evidence: each reference stripped, and each once. */
  lemma ReferencesExactly(values: seq<string>, r: string)
    ensures r in References(values) <==> exists k :: 0 <= k < |values| && Text.Strip(values[k]) == r
    ensures forall m, n :: 0 <= m < n < |References(values)| ==> References(values)[m] != References(values)[n]
  {
    hide Text.Strip, Unique, Map;
    var stripped := Map(Stripped(), values);
    if r in References(values) {
      var k :| 0 <= k < |stripped| && stripped[k] == r;
      assert stripped[k] == Stripped()(values[k]);
    }
    if k :| 0 <= k < |values| && Text.Strip(values[k]) == r {
      assert stripped[k] == Stripped()(values[k]);
    }
  }

  function EventFor(i: Input): Event {
    Event(Text.Strip(i.eventId), Text.Strip(i.timestamp), Text.Strip(i.runId), Text.Strip(i.source), i.kind,
        Text.Strip(i.nodeId),
          Text.Strip(i.actor), Text.Strip(i.authorityRef), i.kind,
          AsMap(i.metadata)[Marker := AuditLedger.Text(i.kind)],
          References(i.evidence), 1)
  }

  function Record(rows: seq<Row>, i: Input): Result<(seq<Row>, int), SemanticError> {
    if InputError(i).Some? then Err(InputError(i).value)
    else
      var r := Append(rows, Text.Strip(i.runId), EventFor(i), None);
      if r.Err? then Err(Refused(r.error)) else Ok(r.value)
  }

  // ---- reconstruction ----

  datatype Entry = Entry(
    sequence: int, eventId: string, timestamp: string, kind: string, nodeId: string, actor: string,
    authorityRef: string,
    evidence: seq<string>, metadata: map<string, Scalar>)

  datatype Timeline = Timeline(runId: string, entries: seq<Entry>, evidence: seq<string>)

  predicate Semantic(r: Row) {
    r.event.decisionKind in EventKinds
  }

  /** The event carries its own kind as a marker and otherwise only bounded metadata. */
  predicate GoodAfter(e: Event) {
    && Marker in e.after && e.after[Marker] == AuditLedger.Text(e.decisionKind)
    && forall k :: k in e.after && k != Marker ==> ItemError(k, e.after[k]).None?
  }

  function EntryOf(r: Row): Entry {
    Entry(r.sequence, r.event.eventId, r.event.timestamp, r.event.decisionKind, r.event.nodeId, r.event.actor,
        r.event.authorityRef,
          References(r.event.evidenceRefs), r.event.after - {Marker})
  }

  predicate Readable(r: Row) {
    GoodReferences(r.event.evidenceRefs) && GoodAfter(r.event)
  }

  function Entries(rows: seq<Row>): Option<seq<Entry>> {
    if rows == [] then Some([])
    else
      var before, last := Entries(rows[..|rows| - 1]), rows[|rows| - 1];
      if before.None? || !Semantic(last) then before
      else if !Readable(last) then None
      else Some(before.value + [EntryOf(last)])
  }

  predicate EntryLe(a: Entry, b: Entry) {
    || a.sequence < b.sequence
    || (a.sequence == b.sequence
          && (if a.timestamp == b.timestamp then TextLe(a.eventId, b.eventId) else TextLe(a.timestamp, b.timestamp)))
  }

  function Flatten(entries: seq<Entry>): seq<string> {
    if entries == [] then [] else Flatten(entries[..|entries| - 1]) + entries[|entries| - 1].evidence
  }

  function Reconstruct(rows: seq<Row>, run: string): Result<Timeline, SemanticError> {
    if RequiredError(run).Some? then Err(RequiredError(run).value)
    else
      var requested := Text.Strip(run);
      var entries := Entries(SortBy(BySequence(), RunRows(rows, requested)));
      if entries.None? then Err(EventInvalid)
      else
        var ordered := SortBy(EntryLe, entries.value);
        Ok(Timeline(requested, ordered, Unique(Flatten(ordered))))
  }

  // ---- what was recorded comes back ----

  lemma {:induction false} AsMapItems(items: seq<(string, Scalar)>, k: string)
    ensures k in AsMap(items) ==> exists i :: 0 <= i < |items| && items[i] == (k, AsMap(items)[k])
  {
    if items != [] {
      AsMapItems(items[..|items| - 1], k);
    }
  }

  lemma MarkerIsReserved()
    ensures Marker !in AllowedKeys
  {
  }

  lemma RecordedMetadata(items: seq<(string, Scalar)>, k: string)
    requires MetadataError(items).None? && k in AsMap(items)
    ensures ItemError(k, AsMap(items)[k]).None? && k != Marker
  {
    hide AsMap, MetadataError;
    AsMapItems(items, k);
    MarkerIsReserved();
  }

  /** Checking references a second time changes nothing. */
  lemma ReferencesStable(values: seq<string>)
    requires GoodReferences(values)
    ensures GoodReferences(References(values)) && References(References(values)) == References(values)
  {
    hide Unique, Map, IsReference, Text.Strip;
    var refs := References(values);
    forall r | r in refs ensures GoodReference(r) && Text.Strip(r) == r {
      assert r in Map(Stripped(), values);
      var i :| 0 <= i < |values| && Map(Stripped(), values)[i] == r;
      assert r == Stripped()(values[i]);
      Text.StripTrims(values[i]);
      StripShortens(values[i]);
    }
    forall i | 0 <= i < |refs|
      ensures GoodReference(refs[i]) && Map(Stripped(), refs)[i] == refs[i] { assert refs[i] in refs; }
    assert Map(Stripped(), refs) == refs;
    UniqueOfDistinct(refs);
  }

  lemma {:induction false} UniqueOfDistinct(xs: seq<string>)
    requires forall i, j :: 0 <= i < j < |xs| ==> xs[i] != xs[j]
    ensures Unique(xs) == xs
  {
    if xs != [] {
      UniqueOfDistinct(xs[..|xs| - 1]);
    }
  }

  lemma StripShortens(s: string)
    ensures |Text.Strip(s)| <= |s|
  {
    StripLeftShortens(s);
    Text.StripRightTrims(Text.StripLeft(s));
  }

  lemma {:induction false} StripLeftShortens(s: string)
    ensures |Text.StripLeft(s)| <= |s|
  {
    if s != "" && Text.IsSpace(s[0]) { StripLeftShortens(s[1..]); }
  }

  /** An accepted request, with the number the ledger gave it. */
  datatype Accepted = Accepted(sequence: int, input: Input)

  function RowFor(a: Accepted): Row {
    Row(a.sequence, EventFor(a.input))
  }

  /** The entry a request should come back as. */
  function Expected(a: Accepted): Entry {
    var i := a.input;
    Entry(a.sequence, Text.Strip(i.eventId), Text.Strip(i.timestamp), i.kind, Text.Strip(i.nodeId), Text.Strip(i.actor),
          Text.Strip(i.authorityRef), References(i.evidence), AsMap(i.metadata))
  }

  /** One recorded event reads back as exactly what was asked for. */
  lemma EntryRoundTrip(a: Accepted)
    requires InputError(a.input).None?
    ensures Semantic(RowFor(a)) && Readable(RowFor(a)) && EntryOf(RowFor(a)) == Expected(a)
  {
    hide Text.Strip, AsMap, References, GoodReferences, MetadataError, ItemError;
    InputFacts(a.input);
    ReferencesStable(a.input.evidence);
    var metadata := AsMap(a.input.metadata);
    forall k | k in metadata
      ensures ItemError(k, metadata[k]).None? && k != Marker { RecordedMetadata(a.input.metadata, k); }
    assert metadata[Marker := AuditLedger.Text(a.input.kind)] - {Marker} == metadata;
  }

  lemma InputFacts(i: Input)
    requires InputError(i).None?
    ensures i.kind in EventKinds && MetadataError(i.metadata).None? && GoodReferences(i.evidence)
  {
    hide InputError, MetadataError, GoodReferences;
    AllErrorsNone(i);
  }

  // ---- whole ledgers ----

  /** A writer between the reads and the insert of its append; the request it serves, if it is the recorder. */
  datatype Job = Job(sequence: int, event: Event, request: Option<Input>)

  /** The reads of a request, the reads of an event some other writer appends under a kind of its own, and the
      insert that ends either; any number of them interleave. */
  datatype Op =
    | BeginRequest(writer: nat, input: Input)
    | BeginForeign(writer: nat, run: string, event: Event, expected: Option<int>)
    | EndWrite(writer: nat)

  datatype Book = Book(rows: seq<Row>, jobs: map<nat, Job>, accepted: seq<Accepted>)

  function Apply(w: Book, op: Op): Book {
    match op
    case BeginRequest(id, i) =>
      if InputError(i).Some? then w
      else
        var next := Prepare(w.rows, Text.Strip(i.runId), EventFor(i), None);
        if next.Err? then w else w.(jobs := w.jobs[id := Job(next.value, EventFor(i), Some(i))])
    case BeginForeign(id, run, e, expected) =>
      var next := Prepare(w.rows, run, e, expected);
      if e.decisionKind in EventKinds || next.Err? then w else w.(jobs := w.jobs[id := Job(next.value, e, None)])
    case EndWrite(id) =>
      if id !in w.jobs then w
      else
        var job := w.jobs[id];
        var after := AuditLedger.Insert(w.rows, job.sequence, job.event);
        if after.Err? then w.(jobs := w.jobs - {id})
        else Book(after.value, w.jobs - {id}, if job.request.None? then w.accepted
          else w.accepted + [Accepted(job.sequence, job.request.value)])
  }

  function RunOps(ops: seq<Op>): Book {
    if ops == [] then Book([], map[], []) else Apply(RunOps(ops[..|ops| - 1]), ops[|ops| - 1])
  }

  /** The recorder alone does its reads and its insert one after the other. */
  lemma RecordIsTwoSteps(w: Book, id: nat, i: Input)
    requires id !in w.jobs
    ensures var after, r := Apply(Apply(w, BeginRequest(id, i)), EndWrite(id)), Record(w.rows, i);
            && after.jobs == w.jobs
            && (r.Ok? ==> after.rows == r.value.0 && after.accepted == w.accepted + [Accepted(r.value.1, i)])
            && (r.Err? ==> after.rows == w.rows && after.accepted == w.accepted)
  {
    hide InputError, EventFor, Prepare, AuditLedger.Insert, Text.Strip;
  }

  function ForRun(run: string): Accepted -> bool {
    (a: Accepted) => Text.Strip(a.input.runId) == run
  }

  function AsRowFor(): Accepted -> Row { (a: Accepted) => RowFor(a) }

  function AsExpected(): Accepted -> Entry { (a: Accepted) => Expected(a) }

  function IsSemantic(): Row -> bool { (r: Row) => Semantic(r) }

  /** The semantic rows of a run are those of its accepted requests, in order. */
  ghost predicate Mirrors(w: Book, run: string) {
    Filter(IsSemantic(), RunRows(w.rows, run)) == Map(AsRowFor(), Filter(ForRun(run), w.accepted))
  }

  /** A job holds a number the run has used or uses next, and the event of its request. */
  ghost predicate JobSound(w: Book, job: Job) {
    && 1 <= job.sequence <= |RunRows(w.rows, job.event.runId)| + 1
    && match job.request
       case Some(i) => InputError(i).None? && job.event == EventFor(i)
       case None => job.event.decisionKind !in EventKinds
  }

  ghost predicate Faithful(w: Book) {
    && Numbered(w.rows)
    && (forall k :: 0 <= k < |w.accepted| ==> InputError(w.accepted[k].input).None?)
    && (forall run :: Mirrors(w, run))
    && forall id :: id in w.jobs ==> JobSound(w, w.jobs[id])
  }

  /** An insert for a request adds its row and its acceptance, one for another event a row no timeline shows. */
  lemma CommitMirrors(w: Book, job: Job, run: string)
    requires Mirrors(w, run) && JobSound(w, job)
    ensures var r := Row(job.sequence, job.event);
            var accepted := if job.request.None? then w.accepted
              else w.accepted + [Accepted(job.sequence, job.request.value)];
            Mirrors(Book(w.rows + [r], w.jobs, accepted), run)
  {
    hide Filter, Map, RunRows, InputError, Text.Strip, References, AsMap;
    var r := Row(job.sequence, job.event);
    RunRowsAppend(w.rows, r, run);
    FilterAppend(IsSemantic(), RunRows(w.rows, run), r);
    if job.request.Some? {
      var a := Accepted(job.sequence, job.request.value);
      assert r == RowFor(a);
      FilterAppend(ForRun(run), w.accepted, a);
      MapAppend(AsRowFor(), Filter(ForRun(run), w.accepted), a);
      InputFacts(job.request.value);
    }
  }

  lemma CommitKeeps(w: Book, id: nat)
    requires Faithful(w) && id in w.jobs
    ensures Faithful(Apply(w, EndWrite(id)))
  {
    hide Mirrors, Numbered, InputError, RunRows, EventFor, Known, Taken;
    var job := w.jobs[id];
    assert JobSound(w, job);
    if AuditLedger.Insert(w.rows, job.sequence, job.event).Ok? {
      var after := Apply(w, EndWrite(id));
      InsertNumbered(w.rows, job.sequence, job.event);
      forall run ensures Mirrors(after, run) {
        CommitMirrors(w, job, run);
        SameMirror(Book(after.rows, w.jobs, after.accepted), after, run);
      }
      forall k | k in after.jobs ensures JobSound(after, after.jobs[k]) {
        assert JobSound(w, w.jobs[k]);
        RunRowsAppend(w.rows, Row(job.sequence, job.event), w.jobs[k].event.runId);
      }
    } else {
      forall run ensures Mirrors(Apply(w, EndWrite(id)), run) { SameMirror(w, Apply(w, EndWrite(id)), run); }
    }
  }

  lemma SameMirror(a: Book, b: Book, run: string)
    requires Mirrors(a, run) && a.rows == b.rows && a.accepted == b.accepted
    ensures Mirrors(b, run)
  {
  }

  lemma PreparedNumber(rows: seq<Row>, run: string, e: Event, expected: Option<int>)
    requires Numbered(rows) && Prepare(rows, run, e, expected).Ok?
    ensures e.runId == run && Prepare(rows, run, e, expected).value == |RunRows(rows, run)| + 1
  {
    hide RunRows, MaxSequence, Known;
    MaxOfNumbered(RunRows(rows, run));
  }

  lemma OpKeeps(w: Book, op: Op)
    requires Faithful(w)
    ensures Faithful(Apply(w, op))
  {
    hide Mirrors, Numbered, InputError, RunRows, EventFor, Prepare;
    match op
    case BeginRequest(id, i) =>
      if InputError(i).None? && Prepare(w.rows, Text.Strip(i.runId), EventFor(i), None).Ok? {
        PreparedNumber(w.rows, Text.Strip(i.runId), EventFor(i), None);
      }
      BeginKeeps(w, Apply(w, op));
    case BeginForeign(id, run, e, expected) =>
      if Prepare(w.rows, run, e, expected).Ok? { PreparedNumber(w.rows, run, e, expected); }
      BeginKeeps(w, Apply(w, op));
    case EndWrite(id) => if id in w.jobs { CommitKeeps(w, id); }
  }

  /** Reading changes neither rows nor acceptances. */
  lemma BeginKeeps(w: Book, after: Book)
    requires Faithful(w) && after.rows == w.rows && after.accepted == w.accepted
    requires forall id :: id in after.jobs ==> JobSound(after, after.jobs[id])
    ensures Faithful(after)
  {
    hide Mirrors, Numbered, InputError, JobSound;
    forall run ensures Mirrors(after, run) { SameMirror(w, after, run); }
  }

  lemma {:induction false} OpsKeep(ops: seq<Op>)
    ensures Faithful(RunOps(ops))
  {
    hide Apply, Numbered;
    if ops == [] {
      EmptyNumbered();
      forall run ensures Mirrors(Book([], map[], []), run) {
        FilterEmpty(OfRun(run));
        FilterEmpty(IsSemantic());
        FilterEmpty(ForRun(run));
        MapEmpty(AsRowFor());
      }
    } else {
      OpsKeep(ops[..|ops| - 1]);
      OpKeeps(RunOps(ops[..|ops| - 1]), ops[|ops| - 1]);
    }
  }

  function AsEntry(): Row -> Entry { (r: Row) => EntryOf(r) }

  lemma {:induction false} EntriesAre(rows: seq<Row>)
    requires forall r :: r in rows && Semantic(r) ==> Readable(r)
    ensures Entries(rows) == Some(Map(AsEntry(), Filter(IsSemantic(), rows)))
  {
    hide Map, Filter, Readable, EntryOf;
    if rows == [] {
      FilterEmpty(IsSemantic());
      MapEmpty(AsEntry());
    } else {
      var init, last := rows[..|rows| - 1], rows[|rows| - 1];
      assert rows == init + [last] && last in rows && forall r :: r in init ==> r in rows;
      EntriesAre(init);
      FilterAppend(IsSemantic(), init, last);
      MapAppend(AsEntry(), Filter(IsSemantic(), init), last);
      var kept := Filter(IsSemantic(), init);
      assert IsSemantic()(last) == Semantic(last) && AsEntry()(last) == EntryOf(last);
      if Semantic(last) {
        assert Filter(IsSemantic(), rows) == kept + [last];
      } else {
        assert Filter(IsSemantic(), rows) == kept;
      }
    }
  }

  /** Entry by entry, the mirror of the accepted requests reads back as expected. */
  lemma MirrorReads(w: Book, run: string)
    requires Faithful(w)
    ensures Map(AsEntry(), Filter(IsSemantic(), RunRows(w.rows, run))) ==
            Map(AsExpected(), Filter(ForRun(run), w.accepted))
    ensures forall r :: r in RunRows(w.rows, run) && Semantic(r) ==> Readable(r)
  {
    hide Map, Filter, RunRows, Readable, Semantic, EntryOf, Expected, RowFor, InputError, Numbered;
    var mine, semantic := Filter(ForRun(run), w.accepted), Filter(IsSemantic(), RunRows(w.rows, run));
    assert Mirrors(w, run);
    assert semantic == Map(AsRowFor(), mine);
    forall k | 0 <= k < |mine| ensures Readable(semantic[k]) && EntryOf(semantic[k]) == Expected(mine[k]) {
      assert mine[k] in mine;
      assert mine[k] in w.accepted;
      var n :| 0 <= n < |w.accepted| && w.accepted[n] == mine[k];
      EntryRoundTrip(mine[k]);
      assert semantic[k] == AsRowFor()(mine[k]);
    }
    forall r | r in RunRows(w.rows, run) && Semantic(r) ensures Readable(r) {
      assert IsSemantic()(r);
      assert r in semantic;
      var k :| 0 <= k < |semantic| && semantic[k] == r;
    }
    assert |Map(AsEntry(), semantic)| == |Map(AsExpected(), mine)|;
    forall k | 0 <= k < |mine| ensures Map(AsEntry(), semantic)[k] == Map(AsExpected(), mine)[k] {
      assert Map(AsEntry(), semantic)[k] == AsEntry()(semantic[k]);
      assert Map(AsExpected(), mine)[k] == AsExpected()(mine[k]);
    }
  }

  function Before(): (Row, Row) -> bool { (a: Row, b: Row) => a.sequence < b.sequence }

  /** Entries read in ledger order are already in timeline order. */
  lemma AlreadyOrdered(rows: seq<Row>)
    requires Sorted(Before(), rows)
    ensures SortBy(EntryLe, Map(AsEntry(), rows)) == Map(AsEntry(), rows)
  {
    hide Map, SortBy, TextLe, References;
    var entries := Map(AsEntry(), rows);
    forall i, j | 0 <= i < j < |entries| ensures entries[i].sequence < entries[j].sequence {
      assert Before()(rows[i], rows[j]);
      assert entries[i] == AsEntry()(rows[i]) && entries[j] == AsEntry()(rows[j]);
    }
    EntryOrder();
    SortBySorted(EntryLe, entries);
    forall a, b | a in entries && b in entries && EntryLe(a, b) && EntryLe(b, a) ensures a == b {
      var i :| 0 <= i < |entries| && entries[i] == a;
      var j :| 0 <= j < |entries| && entries[j] == b;
    }
    forall a | a in entries ensures EntryLe(a, a) { TextLeTotal(a.eventId, a.eventId); }
    SortedUnique(EntryLe, entries, SortBy(EntryLe, entries));
  }

  lemma EntryOrder()
    ensures TotalPreorder(EntryLe)
  {
    hide TextLe;
    forall a: Entry, b: Entry ensures EntryLe(a, b) || EntryLe(b, a) {
      TextLeTotal(a.timestamp, b.timestamp);
      TextLeTotal(a.eventId, b.eventId);
    }
    forall a: Entry, b: Entry, c: Entry | EntryLe(a, b) && EntryLe(b, c) ensures EntryLe(a, c) {
      EntryTransitive(a, b, c);
    }
  }

  lemma EntryTransitive(a: Entry, b: Entry, c: Entry)
    requires EntryLe(a, b) && EntryLe(b, c)
    ensures EntryLe(a, c)
  {
    hide TextLe;
    if a.sequence == b.sequence == c.sequence {
      if a.timestamp == c.timestamp {
        TextLeTotal(a.timestamp, b.timestamp);
        if a.timestamp == b.timestamp { TextLeTransitive(a.eventId, b.eventId, c.eventId); }
      } else if a.timestamp != b.timestamp && b.timestamp != c.timestamp {
        TextLeTransitive(a.timestamp, b.timestamp, c.timestamp);
      }
    }
  }

  lemma RunRowsAscend(rows: seq<Row>, run: string)
    requires Numbered(rows)
    ensures Sorted(Before(), RunRows(rows, run))
  {
    hide RunRows;
  }

  /** Over any interleaving of the reads and inserts of any number of writers, of requests, refusals and events of
      other kinds, over all runs at once: the timeline of a run is exactly its accepted requests,
      normalized and in order, with evidence by first occurrence. */
  lemma TimelineIsWhatWasRecorded(ops: seq<Op>, run: string)
    requires RequiredError(run).None?
    ensures var expected := Map(AsExpected(), Filter(ForRun(Text.Strip(run)), RunOps(ops).accepted));
            Reconstruct(RunOps(ops).rows, run) == Ok(Timeline(Text.Strip(run), expected, Unique(Flatten(expected))))
  {
    hide Map, Filter, RunRows, SortBy, Unique, Flatten, Text.Strip, RunOps, Entries, Numbered;
    OpsKeep(ops);
    var w, requested := RunOps(ops), Text.Strip(run);
    var mine := RunRows(w.rows, requested);
    ReadsInOrder(w.rows, requested);
    MirrorReads(w, requested);
    EntriesAre(mine);
    RunRowsAscend(w.rows, requested);
    FilterSorted(Before(), IsSemantic(), mine);
    AlreadyOrdered(Filter(IsSemantic(), mine));
  }

  // ---- the loops ----

  method ValidateEvidenceRefs(values: seq<string>) returns (r: Option<seq<string>>)
    ensures r == if GoodReferences(values) then Some(References(values)) else None
  {
    hide Unique, Map, IsReference, Text.Strip;
    var result: seq<string>, seen: set<string> := [], {};
    MapEmpty(Stripped());
    for i := 0 to |values|
      invariant forall k :: 0 <= k < i ==> GoodReference(values[k])
      invariant result == Unique(Map(Stripped(), values[..i]))
      invariant forall s :: s in seen <==> s in result
    {
      if |values[i]| > 256 {
        return None;
      }
      var normalized := Text.Strip(values[i]);
      if !IsReference(normalized) {
        return None;
      }
      assert values[..i + 1] == values[..i] + [values[i]];
      MapAppend(Stripped(), values[..i], values[i]);
      UniqueAppend(Map(Stripped(), values[..i]), normalized);
      if normalized !in seen {
        result, seen := result + [normalized], seen + {normalized};
      }
    }
    assert values[..|values|] == values;
    return Some(result);
  }

  method ValidateMetadata(items: seq<(string, Scalar)>) returns (r: Result<map<string, Scalar>, SemanticError>)
    ensures r == var e := MetadataError(items); if e.Some? then Err(e.value) else Ok(AsMap(items))
  {
    hide ItemError;
    var normalized: map<string, Scalar> := map[];
    for i := 0 to |items|
      invariant MetadataError(items[..i]).None?
      invariant normalized == AsMap(items[..i])
    {
      assert items[..i + 1][..i] == items[..i];
      var error := ItemError(items[i].0, items[i].1);
      if error.Some? {
        MetadataStops(items, i + 1);
        return Err(error.value);
      }
      normalized := normalized[items[i].0 := items[i].1];
    }
    assert items[..|items|] == items;
    return Ok(normalized);
  }

  lemma {:induction false} MetadataStops(items: seq<(string, Scalar)>, k: nat)
    requires k <= |items| && MetadataError(items[..k]).Some?
    ensures MetadataError(items) == MetadataError(items[..k])
    decreases |items|
  {
    hide ItemError;
    if k < |items| {
      assert items[..|items| - 1][..k] == items[..k];
      MetadataStops(items[..|items| - 1], k);
    } else {
      assert items[..k] == items;
    }
  }

  /** The projection loop over the events of a run. */
  method ProjectEntries(rows: seq<Row>) returns (r: Option<seq<Entry>>)
    ensures r == Entries(rows)
  {
    hide GoodReferences, GoodAfter, References;
    var entries: seq<Entry> := [];
    for i := 0 to |rows|
      invariant Entries(rows[..i]) == Some(entries)
    {
      assert rows[..i + 1][..i] == rows[..i];
      var row := rows[i];
      if row.event.decisionKind !in EventKinds {
        continue;
      }
      var evidence := ValidateEvidenceRefs(row.event.evidenceRefs);
      if evidence.None? || !GoodAfter(row.event) {
        EntriesStop(rows, i + 1);
        return None;
      }
      entries := entries + [Entry(row.sequence, row.event.eventId, row.event.timestamp, row.event.decisionKind,
          row.event.nodeId,
                                  row.event.actor, row.event.authorityRef, evidence.value, row.event.after - {Marker})];
    }
    assert rows[..|rows|] == rows;
    return Some(entries);
  }

  lemma {:induction false} EntriesStop(rows: seq<Row>, k: nat)
    requires k <= |rows| && Entries(rows[..k]).None?
    ensures Entries(rows).None?
    decreases |rows|
  {
    hide Readable, EntryOf, Semantic;
    if k < |rows| {
      assert rows[..|rows| - 1][..k] == rows[..k];
      EntriesStop(rows[..|rows| - 1], k);
    } else {
      assert rows[..k] == rows;
    }
  }

  /** The evidence of a timeline, each reference once, by first occurrence. */
  method CollectEvidence(entries: seq<Entry>) returns (evidence: seq<string>)
    ensures evidence == Unique(Flatten(entries))
  {
    hide Unique;
    evidence := [];
    var seen: set<string> := {};
    for i := 0 to |entries|
      invariant evidence == Unique(Flatten(entries[..i]))
      invariant forall s :: s in seen <==> s in evidence
    {
      assert entries[..i + 1][..i] == entries[..i];
      var refs := entries[i].evidence;
      assert Flatten(entries[..i]) + refs[..0] == Flatten(entries[..i]);
      for k := 0 to |refs|
        invariant evidence == Unique(Flatten(entries[..i]) + refs[..k])
        invariant forall s :: s in seen <==> s in evidence
      {
        assert Flatten(entries[..i]) + refs[..k + 1] == Flatten(entries[..i]) + refs[..k] + [refs[k]];
        UniqueAppend(Flatten(entries[..i]) + refs[..k], refs[k]);
        if refs[k] !in seen {
          evidence, seen := evidence + [refs[k]], seen + {refs[k]};
        }
      }
      assert refs[..|refs|] == refs;
    }
    assert entries[..|entries|] == entries;
  }

  /** Record through the ledger. */
  method RecordEvent(ledger: Ledger, i: Input) returns (r: Result<int, SemanticError>)
    modifies ledger
    ensures var spec := Record(old(ledger.rows), i);
            && r == (if spec.Ok? then Ok(spec.value.1) else Err(spec.error))
            && ledger.rows == (if spec.Ok? then spec.value.0 else old(ledger.rows))
  {
    hide Text.Strip, Append, InputError;
    var error := InputError(i);
    if error.Some? {
      return Err(error.value);
    }
    var sequence := ledger.AppendEvent(Text.Strip(i.runId), EventFor(i), None);
    return if sequence.Ok? then Ok(sequence.value) else Err(Refused(sequence.error));
  }

  method ReconstructSemanticTimeline(ledger: Ledger, run: string) returns (r: Result<Timeline, SemanticError>)
    ensures r == Reconstruct(ledger.rows, run)
  {
    hide Text.Strip, SortBy, RunRows, Entries, Unique, Flatten;
    var error := RequiredError(run);
    if error.Some? {
      return Err(error.value);
    }
    var events := ledger.Events(Text.Strip(run));
    var entries := ProjectEntries(events);
    if entries.None? {
      return Err(EventInvalid);
    }
    var ordered := SortBy(EntryLe, entries.value);
    var evidence := CollectEvidence(ordered);
    return Ok(Timeline(Text.Strip(run), ordered, evidence));
  }
}
