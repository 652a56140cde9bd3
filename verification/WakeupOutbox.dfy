/** The durable wakeup outbox: two tables, each transaction as one step, and what every
    interleaving of transactions keeps. */
module WakeupOutbox {
  import opened Results
  import opened Sequences

  type Time = real

  datatype LogicalKey = LogicalKey(
    runId: string, nodeId: string, mailboxRef: string, mailboxSeq: nat, idempotencyKey: string, recipient: string)

  /** The intent id is a digest of the logical key; digests are modelled as injective constructors. */
  datatype IntentId = IntentIdOf(key: LogicalKey)

  datatype Pointer = Pointer(eventId: string, eventDigest: string, envelopeDigest: string, messageId: string)

  /** The columns fixed at creation. */
  datatype Binding = Binding(key: LogicalKey, pointer: Pointer, fallback: Option<string>, claimTtlSeconds: Option<nat>)

  datatype IntentState = Pending | InFlight | Delivered | Failed | Blocked

  datatype AttemptState = AttemptStarted | AttemptDelivered | AttemptFailed | AttemptBlocked

  datatype Intent = Intent(
    binding: Binding, state: IntentState, attemptCount: nat, nextAttemptAt: Option<Time>, createdAt: Time,
    updatedAt: Time)

  datatype AttemptId = DeliveryAttempt(intent: IntentId, number: nat) | CallerAttempt(text: string)

  datatype Code =
    | TransportUnavailable | TransportRejected | DeliveryBlocked | FallbackDelivered | CallerCode(text: string)

  datatype Attempt = Attempt(
    id: AttemptId, intent: IntentId, number: nat, state: AttemptState, attemptedAt: Time,
    retryAt: Option<Time>, errorCode: Option<Code>, errorDetail: Option<string>)

  /** `wakeup_intents` and, in insertion order, `wakeup_delivery_attempts`. */
  datatype Db = Db(intents: map<IntentId, Intent>, attempts: seq<Attempt>)

  datatype OutboxError = ContractMismatch | DigestMismatch | InvalidSequence | NotFound

  predicate Terminal(state: IntentState) {
    state.Delivered? || state.Blocked?
  }

  function StateAfter(state: AttemptState): IntentState {
    match state
    case AttemptStarted => InFlight
    case AttemptDelivered => Delivered
    case AttemptFailed => Failed
    case AttemptBlocked => Blocked
  }

  function ForIntent(id: IntentId): Attempt -> bool {
    (a: Attempt) => a.intent == id
  }

  /** All attempt rows of one intent. */
  function AttemptsOf(db: Db, id: IntentId): seq<Attempt> {
    Filter(ForIntent(id), db.attempts)
  }

  function MaxNumber(rows: seq<Attempt>): nat {
    if rows == [] then 0
    else
      var rest, last := MaxNumber(rows[..|rows| - 1]), rows[|rows| - 1].number;
      if last > rest then last else rest
  }

  // ---- transactions ----

  /** `verified` is the outcome of checking the committed mailbox pointer evidence. */
  function Create(db: Db, binding: Binding, verified: bool, createdAt: Time, retryAt: Option<Time>): (Db,
      Result<Intent, OutboxError>) {
    var id := IntentIdOf(binding.key);
    if !verified then (db, Err(ContractMismatch))
    else if id in db.intents then
      if db.intents[id].binding != binding then (db, Err(DigestMismatch)) else (db, Ok(db.intents[id]))
    else
      var candidate := Intent(binding, Pending, 0, retryAt, createdAt, createdAt);
      (db.(intents := db.intents[id := candidate]), Ok(candidate))
  }

  predicate IdUsed(db: Db, id: AttemptId) {
    exists i :: 0 <= i < |db.attempts| && db.attempts[i].id == id
  }

  predicate NumberUsed(db: Db, id: IntentId, number: nat) {
    exists i :: 0 <= i < |db.attempts| && db.attempts[i].intent == id && db.attempts[i].number == number
  }

  function Record(db: Db, a: Attempt): (r: (Db, Result<Attempt, OutboxError>))
    ensures r.0.intents.Keys == db.intents.Keys
    ensures r.1.Err? ==> r.0 == db
  {
    if a.number == 0 then (db, Err(InvalidSequence))
    else if a.intent !in db.intents then (db, Err(ContractMismatch))
    else if IdUsed(db, a.id) then
      if a in db.attempts then (db, Ok(a)) else (db, Err(DigestMismatch))
    else if NumberUsed(db, a.intent, a.number) then (db, Err(InvalidSequence))
    else if a.number != MaxNumber(AttemptsOf(db, a.intent)) + 1 then (db, Err(InvalidSequence))
    else (Append(db, a), Ok(a))
  }

  function Append(db: Db, a: Attempt): Db
    requires a.intent in db.intents
  {
    var updated := db.intents[a.intent].(state := StateAfter(a.state), attemptCount := a.number,
                                         nextAttemptAt := a.retryAt, updatedAt := a.attemptedAt);
    Db(db.intents[a.intent := updated], db.attempts + [a])
  }

  function PrepareRetry(db: Db, id: IntentId, retryAt: Time): (Db, Result<Intent, OutboxError>) {
    if id !in db.intents then (db, Err(NotFound))
    else if db.intents[id].state.Delivered? then (db, Ok(db.intents[id]))
    else
      var stored := db.intents[id].(state := Pending, nextAttemptAt := Some(retryAt), updatedAt := retryAt);
      (db.(intents := db.intents[id := stored]), Ok(stored))
  }

  /** The update half of blocking: the row was read as `observed` before the transaction began, and
      the read-back rolls back unless the immutable columns and the attempt count still agree. */
  function CommitBlock(db: Db, id: IntentId, observed: Intent, updatedAt: Time): (Db, Result<Intent, OutboxError>) {
    if id !in db.intents then (db, Err(NotFound))
    else
      var row := db.intents[id];
      var stored := row.(state := Blocked, nextAttemptAt := None, updatedAt := updatedAt);
      if stored.binding != observed.binding || stored.attemptCount != observed.attemptCount
        then (db, Err(DigestMismatch))
      else (db.(intents := db.intents[id := stored]), Ok(stored))
  }

  /** Blocking without interference between the read and the update. */
  function MarkBlocked(db: Db, id: IntentId, updatedAt: Time): (Db, Result<Intent, OutboxError>) {
    if id !in db.intents then (db, Err(NotFound))
    else if Terminal(db.intents[id].state) then (db, Ok(db.intents[id]))
    else CommitBlock(db, id, db.intents[id], updatedAt)
  }

  // ---- the invariant ----

  predicate Numbered(rows: seq<Attempt>) {
    forall k :: 0 <= k < |rows| ==> rows[k].number == k + 1
  }

  predicate RowsConsistent(db: Db, id: IntentId) {
    && id in db.intents
    && id == IntentIdOf(db.intents[id].binding.key)
    && Numbered(AttemptsOf(db, id))
    && db.intents[id].attemptCount == |AttemptsOf(db, id)|
  }

  ghost predicate WellFormed(db: Db) {
    && (forall id :: id in db.intents ==> RowsConsistent(db, id))
    && (forall i :: 0 <= i < |db.attempts| ==> db.attempts[i].intent in db.intents)
    && (forall i, j :: 0 <= i < j < |db.attempts| ==> db.attempts[i].id != db.attempts[j].id)
  }

  /** What no transaction may undo: rows stay, attempts are appended only, fixed columns and counts hold. */
  ghost predicate Extends(before: Db, after: Db) {
    && before.attempts <= after.attempts
    && forall id :: id in before.intents ==>
         && id in after.intents
         && after.intents[id].binding == before.intents[id].binding
         && after.intents[id].createdAt == before.intents[id].createdAt
         && after.intents[id].attemptCount >= before.intents[id].attemptCount
  }

  lemma {:induction false} MaxOfNumbered(rows: seq<Attempt>)
    requires Numbered(rows)
    ensures MaxNumber(rows) == |rows|
  {
    if rows != [] { MaxOfNumbered(rows[..|rows| - 1]); }
  }

  lemma AttemptsAfterAppend(db: Db, a: Attempt, id: IntentId)
    requires a.intent in db.intents
    ensures AttemptsOf(Append(db, a), id) == AttemptsOf(db, id) + if a.intent == id then [a] else []
  {
    FilterAppend(ForIntent(id), db.attempts, a);
  }

  lemma IdUsedMeansMember(db: Db, a: Attempt)
    ensures a in db.attempts ==> IdUsed(db, a.id)
  {
  }

  lemma AppendWellFormed(db: Db, a: Attempt)
    requires WellFormed(db) && a.intent in db.intents && !IdUsed(db, a.id)
    requires a.number == |AttemptsOf(db, a.intent)| + 1
    ensures WellFormed(Append(db, a)) && Extends(db, Append(db, a))
  {
    hide Filter, AttemptsOf;
    var after := Append(db, a);
    forall id | id in after.intents ensures RowsConsistent(after, id) {
      AttemptsAfterAppend(db, a, id);
      assert RowsConsistent(db, id);
    }
  }

  lemma RecordKeeps(db: Db, a: Attempt)
    requires WellFormed(db)
    ensures WellFormed(Record(db, a).0) && Extends(db, Record(db, a).0)
    ensures Record(db, a).0 == db
         || (a.intent in db.intents && Record(db, a).0 == Append(db, a) && Append(db, a).attempts == db.attempts + [a])
  {
    hide Filter, AttemptsOf, MaxNumber, WellFormed;
    if Record(db, a).0 != db {
      MaxOfIntent(db, a.intent);
      AppendWellFormed(db, a);
    }
  }

  lemma MaxOfIntent(db: Db, id: IntentId)
    requires WellFormed(db) && id in db.intents
    ensures MaxNumber(AttemptsOf(db, id)) == |AttemptsOf(db, id)| == db.intents[id].attemptCount
  {
    assert RowsConsistent(db, id);
    MaxOfNumbered(AttemptsOf(db, id));
  }

  /** Rewriting one intent row without touching its binding or count keeps everything. */
  lemma UpdateRowKeeps(db: Db, id: IntentId, row: Intent)
    requires WellFormed(db) && id in db.intents
    requires row.binding == db.intents[id].binding && row.attemptCount == db.intents[id].attemptCount
    requires row.createdAt == db.intents[id].createdAt
    ensures WellFormed(db.(intents := db.intents[id := row])) && Extends(db, db.(intents := db.intents[id := row]))
  {
    hide Filter;
    var after := db.(intents := db.intents[id := row]);
    forall k | k in after.intents ensures RowsConsistent(after, k) {
      assert RowsConsistent(db, k);
      assert AttemptsOf(after, k) == AttemptsOf(db, k);
    }
  }

  lemma {:induction false} NoAttemptsYet(rows: seq<Attempt>, id: IntentId)
    requires forall i :: 0 <= i < |rows| ==> rows[i].intent != id
    ensures Filter(ForIntent(id), rows) == []
  {
    if rows != [] { NoAttemptsYet(rows[..|rows| - 1], id); }
  }

  lemma CreateKeeps(db: Db, binding: Binding, verified: bool, createdAt: Time, retryAt: Option<Time>)
    requires WellFormed(db)
    ensures WellFormed(Create(db, binding, verified, createdAt, retryAt).0)
    ensures Extends(db, Create(db, binding, verified, createdAt, retryAt).0)
    ensures Create(db, binding, verified, createdAt, retryAt).0.attempts == db.attempts
    ensures forall k :: k in db.intents ==>
              k in Create(db, binding, verified, createdAt, retryAt).0.intents
              && Create(db, binding, verified, createdAt, retryAt).0.intents[k] == db.intents[k]
  {
    hide Filter;
    var after := Create(db, binding, verified, createdAt, retryAt).0;
    var id := IntentIdOf(binding.key);
    if after != db {
      NoAttemptsYet(db.attempts, id);
      forall k | k in after.intents ensures RowsConsistent(after, k) {
        assert AttemptsOf(after, k) == AttemptsOf(db, k);
        assert k != id ==> RowsConsistent(db, k);
      }
    }
  }

  // ---- what each transaction leaves behind ----

  /** Creating: refused without verified evidence or under another binding; otherwise the intent is there, and a new
      one is pending with nothing tried. */
  lemma CreateExactly(db: Db, binding: Binding, verified: bool, createdAt: Time, retryAt: Option<Time>)
    ensures var (after, r) := Create(db, binding, verified, createdAt, retryAt);
            var id := IntentIdOf(binding.key);
            && (r.Ok? <==> verified && (id in db.intents ==> db.intents[id].binding == binding))
            && (r.Err? ==> after == db)
            && (r.Ok? ==> id in after.intents && after.intents[id] == r.value && r.value.binding == binding)
            && (r.Ok? && id !in db.intents ==>
                  && r.value.state == Pending && r.value.attemptCount == 0 && r.value.nextAttemptAt == retryAt
                  && r.value.createdAt == createdAt && r.value.updatedAt == createdAt)
  {
  }

  /** A newly recorded attempt sets the intent's state, count, next attempt and time; an identity on record with
      other content is refused. */
  lemma RecordedExactly(db: Db, a: Attempt)
    ensures Record(db, a).0 != db ==>
              && a.intent in db.intents && a.intent in Record(db, a).0.intents
              && var row := Record(db, a).0.intents[a.intent];
                 && row.attemptCount == a.number && row.nextAttemptAt == a.retryAt && row.updatedAt == a.attemptedAt
                 && (a.state.AttemptStarted? ==> row.state == InFlight)
                 && (a.state.AttemptDelivered? ==> row.state == Delivered)
                 && (a.state.AttemptFailed? ==> row.state == Failed)
                 && (a.state.AttemptBlocked? ==> row.state == Blocked)
                 && row.binding == db.intents[a.intent].binding && row.createdAt == db.intents[a.intent].createdAt
    ensures && a.number != 0 && a.intent in db.intents && a !in db.attempts
            && (exists b :: b in db.attempts && b.id == a.id) ==>
              Record(db, a) == (db, Err(DigestMismatch))
  {
    hide Filter, AttemptsOf, MaxNumber;
    if b :| b in db.attempts && b.id == a.id {
      var i :| 0 <= i < |db.attempts| && db.attempts[i] == b;
      assert IdUsed(db, a.id);
    }
  }

  /** Re-arming and blocking change only state, next attempt and time of the one row. */
  lemma RearmExactly(db: Db, id: IntentId, t: Time, observed: Intent)
    ensures var after := PrepareRetry(db, id, t).0;
            && after.attempts == db.attempts && after.intents.Keys == db.intents.Keys
            && (forall k :: k in db.intents && k != id ==> after.intents[k] == db.intents[k])
            && (id in db.intents ==>
                  after.intents[id] == if db.intents[id].state == Delivered then db.intents[id]
                                       else db.intents[id].(state := Pending, nextAttemptAt := Some(t), updatedAt := t))
    ensures var (after, r) := CommitBlock(db, id, observed, t);
            && after.attempts == db.attempts && after.intents.Keys == db.intents.Keys
            && (forall k :: k in db.intents && k != id ==> after.intents[k] == db.intents[k])
            && (r.Ok? <==> id in db.intents && db.intents[id].binding == observed.binding
                           && db.intents[id].attemptCount == observed.attemptCount)
            && (id in db.intents ==>
                  after.intents[id] == if r.Err? then db.intents[id]
                                       else db.intents[id].(state := Blocked, nextAttemptAt := None, updatedAt := t))
  {
  }

  // ---- every interleaving ----

  datatype Step =
    | CreateStep(binding: Binding, verified: bool, createdAt: Time, retryAt: Option<Time>)
    | RecordStep(attempt: Attempt)
    | PrepareStep(id: IntentId, at: Time)
    | ObserveStep(id: IntentId)
    | BlockStep(id: IntentId, observed: Intent, at: Time)

  /** The tables plus every row some process has read as still open and may yet block on. */
  datatype World = World(db: Db, observed: set<(IntentId, Intent)>)

  function Apply(w: World, step: Step): World {
    match step
    case CreateStep(b, v, c, r) => w.(db := Create(w.db, b, v, c, r).0)
    case RecordStep(a) => w.(db := Record(w.db, a).0)
    case PrepareStep(id, t) => w.(db := PrepareRetry(w.db, id, t).0)
    case ObserveStep(id) =>
      if id in w.db.intents && !Terminal(w.db.intents[id].state)
        then w.(observed := w.observed + {(id, w.db.intents[id])}) else w
    case BlockStep(id, row, t) => if (id, row) in w.observed then w.(db := CommitBlock(w.db, id, row, t).0) else w
  }

  function RunSteps(w: World, steps: seq<Step>): World {
    if steps == [] then w else Apply(RunSteps(w, steps[..|steps| - 1]), steps[|steps| - 1])
  }

  /** A remembered open row is older than any delivery that happened since. */
  ghost predicate ObservedSound(w: World) {
    forall o :: o in w.observed ==>
      && o.0 in w.db.intents
      && o.1.binding == w.db.intents[o.0].binding
      && o.1.attemptCount <= w.db.intents[o.0].attemptCount
      && (w.db.intents[o.0].state.Delivered? ==> o.1.attemptCount < w.db.intents[o.0].attemptCount)
  }

  ghost predicate Inv(w: World) {
    WellFormed(w.db) && ObservedSound(w)
  }

  lemma RecordRaisesCount(db: Db, a: Attempt)
    requires WellFormed(db) && Record(db, a).0 != db
    ensures a.intent in db.intents
         && Record(db, a).0.intents[a.intent].attemptCount == db.intents[a.intent].attemptCount + 1
    ensures forall id :: id in db.intents && id != a.intent ==> Record(db, a).0.intents[id] == db.intents[id]
    ensures Record(db, a).0 == Append(db, a)
  {
    hide Filter, AttemptsOf, MaxNumber;
    MaxOfIntent(db, a.intent);
  }

  lemma StepKeeps(w: World, step: Step)
    requires Inv(w)
    ensures Inv(Apply(w, step)) && Extends(w.db, Apply(w, step).db)
  {
    hide Filter, AttemptsOf, MaxNumber, WellFormed;
    match step
    case CreateStep(b, v, c, r) => CreateKeeps(w.db, b, v, c, r);
    case RecordStep(a) =>
      RecordKeeps(w.db, a);
      if Record(w.db, a).0 != w.db { RecordRaisesCount(w.db, a); }
    case PrepareStep(id, t) =>
      if PrepareRetry(w.db, id, t).0 != w.db { UpdateRowKeeps(w.db, id, PrepareRetry(w.db, id, t).1.value); }
    case ObserveStep(id) =>
    case BlockStep(id, row, t) =>
      if CommitBlock(w.db, id, row, t).0 != w.db { UpdateRowKeeps(w.db, id, CommitBlock(w.db, id, row, t).1.value); }
  }

  lemma ExtendsTransitive(a: Db, b: Db, c: Db)
    requires Extends(a, b) && Extends(b, c)
    ensures Extends(a, c)
  {
  }

  /** Over every interleaving: numbering, counts and uniqueness hold, and each earlier state is only extended. */
  lemma {:induction false} RunKeeps(w: World, steps: seq<Step>, n: nat)
    requires Inv(w) && n <= |steps|
    ensures Inv(RunSteps(w, steps)) && Extends(RunSteps(w, steps[..n]).db, RunSteps(w, steps).db)
  {
    hide Inv, Apply, Extends;
    if n < |steps| {
      var init := steps[..|steps| - 1];
      RunKeeps(w, init, n);
      assert init[..n] == steps[..n];
      StepKeeps(RunSteps(w, init), steps[|steps| - 1]);
      ExtendsTransitive(RunSteps(w, steps[..n]).db, RunSteps(w, init).db, RunSteps(w, steps).db);
    } else {
      assert steps[..n] == steps;
      ExtendsReflexive(RunSteps(w, steps).db);
      if steps != [] {
        RunKeeps(w, steps[..|steps| - 1], |steps| - 1);
        StepKeeps(RunSteps(w, steps[..|steps| - 1]), steps[|steps| - 1]);
      }
    }
  }

  lemma ExtendsReflexive(db: Db)
    ensures Extends(db, db)
  {
  }

  /** The non-atomic block never overwrites a delivery; only recording a further attempt moves a
      delivered intent. */
  lemma DeliveredStays(w: World, step: Step, id: IntentId)
    requires Inv(w) && id in w.db.intents && w.db.intents[id].state.Delivered?
    requires !(step.RecordStep? && step.attempt.intent == id)
    ensures id in Apply(w, step).db.intents && Apply(w, step).db.intents[id] == w.db.intents[id]
  {
    hide Filter, AttemptsOf, MaxNumber, WellFormed, NumberUsed, IdUsed;
  }

  /** Repeating a create or a record with identical evidence changes nothing and answers with the stored row. */
  lemma Idempotent(db: Db, binding: Binding, t: Time, r: Option<Time>, t': Time, r': Option<Time>, a: Attempt)
    ensures var (once, reply) := Create(db, binding, true, t, r);
            reply.Ok? ==> Create(once, binding, true, t', r') == (once, reply)
    ensures var (once, reply) := Record(db, a);
            reply.Ok? ==> Record(once, a) == (once, reply)
  {
    hide Filter, AttemptsOf, MaxNumber;
    var (once, reply) := Record(db, a);
    if reply.Ok? {
      assert a in once.attempts;
      IdUsedMeansMember(once, a);
    }
  }

  lemma {:induction false} NumbersTaken(rows: seq<Attempt>, id: IntentId, number: nat)
    ensures (exists i :: 0 <= i < |rows| && rows[i].intent == id && rows[i].number == number)
       <==> exists a :: a in Filter(ForIntent(id), rows) && a.number == number
  {
    if i :| 0 <= i < |rows| && rows[i].intent == id && rows[i].number == number {
      assert rows[i] in Filter(ForIntent(id), rows);
    }
    if a :| a in Filter(ForIntent(id), rows) && a.number == number {
      assert a in rows;
    }
  }

  /** Exactly when a new attempt is appended: known intent, unused id, next number. The intent's
      state plays no part, so a terminal intent is reopened by a further record. */
  lemma RecordAccepts(db: Db, a: Attempt)
    requires WellFormed(db) && !IdUsed(db, a.id)
    ensures Record(db, a).1.Ok? <==> a.intent in db.intents && a.number == |AttemptsOf(db, a.intent)| + 1
    ensures Record(db, a).1.Ok? ==> Record(db, a) == (Append(db, a), Ok(a))
  {
    hide Filter, MaxNumber;
    if a.intent in db.intents {
      MaxOfIntent(db, a.intent);
      NumbersTaken(db.attempts, a.intent, a.number);
      var rows := AttemptsOf(db, a.intent);
      assert RowsConsistent(db, a.intent);
      assert forall r :: r in rows ==> r.number <= |rows|;
    }
  }
}
