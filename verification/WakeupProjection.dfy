/** The operator projection of the outbox, and exactly which steps break its agreement. */
module WakeupProjection {
  import opened Results
  import opened Sequences
  import opened WakeupOutbox

  datatype DeliveryStatus = ProjectedPending | ProjectedDelivered | ProjectedBlocked | ProjectedRetrying

  datatype ProjectionError = WrongIntent | NotContiguous | CountDiffers | LacksDelivered | LacksBlocked | Inconsistent

  /** The status projected for one intent row and its full attempt list. */
  function Project(id: IntentId, intent: Intent, attempts: seq<Attempt>): Result<DeliveryStatus, ProjectionError> {
    if exists i :: 0 <= i < |attempts| && attempts[i].intent != id then Err(WrongIntent)
    else if exists i :: 0 <= i < |attempts| && attempts[i].number != i + 1 then Err(NotContiguous)
    else if intent.attemptCount != |attempts| then Err(CountDiffers)
    else
      var last := if attempts == [] then None else Some(attempts[|attempts| - 1].state);
      if intent.state.Pending? && last.None? then Ok(ProjectedPending)
      else if intent.state.Delivered? then
        if last == Some(AttemptDelivered) then Ok(ProjectedDelivered) else Err(LacksDelivered)
      else if intent.state.Blocked? then
        if last == Some(AttemptBlocked) then Ok(ProjectedBlocked) else Err(LacksBlocked)
      else if last == Some(AttemptStarted) || last == Some(AttemptFailed) then Ok(ProjectedRetrying)
      else Err(Inconsistent)
  }

  function ProjectRow(db: Db, id: IntentId): Result<DeliveryStatus, ProjectionError>
    requires id in db.intents
  {
    Project(id, db.intents[id], AttemptsOf(db, id))
  }

  /** The status the durable state implies. */
  function Implied(intent: Intent): DeliveryStatus {
    match intent.state
    case Delivered => ProjectedDelivered
    case Blocked => ProjectedBlocked
    case _ => if intent.attemptCount == 0 then ProjectedPending else ProjectedRetrying
  }

  /** State and last attempt agree. */
  predicate Agrees(db: Db, id: IntentId) {
    && id in db.intents
    && var rows, state := AttemptsOf(db, id), db.intents[id].state;
       if rows == [] then state.Pending?
       else
         var last := rows[|rows| - 1].state;
         if last.AttemptStarted? || last.AttemptFailed? then !Terminal(state) else state == StateAfter(last)
  }

  /** The projection succeeds exactly on agreeing rows, and then reports the implied status. */
  lemma ProjectsExactly(db: Db, id: IntentId)
    requires WellFormed(db) && id in db.intents
    ensures ProjectRow(db, id).Ok? <==> Agrees(db, id)
    ensures ProjectRow(db, id).Ok? ==> ProjectRow(db, id).value == Implied(db.intents[id])
    ensures ProjectRow(db, id).Ok? ==>
              && (ProjectRow(db, id).value == ProjectedDelivered <==> db.intents[id].state.Delivered?)
              && (ProjectRow(db, id).value == ProjectedBlocked <==> db.intents[id].state.Blocked?)
              && (ProjectRow(db, id).value == ProjectedPending <==> AttemptsOf(db, id) == [])
  {
    hide Filter;
    assert RowsConsistent(db, id);
    var rows := AttemptsOf(db, id);
    assert forall a :: a in rows ==> a.intent == id;
    assert forall i :: 0 <= i < |rows| ==> rows[i] in rows;
  }

  /** The two steps that make an agreeing intent disagree: blocking a row that is not blocked yet and that has
      neither another binding nor another attempt count than when it was read, and re-arming a blocked one. */
  predicate Breaks(w: World, step: Step, id: IntentId) {
    match step
    case BlockStep(target, observed, _) =>
      && target == id && (id, observed) in w.observed && id in w.db.intents
      && w.db.intents[id].binding == observed.binding && w.db.intents[id].attemptCount == observed.attemptCount
      && !w.db.intents[id].state.Blocked?
    case PrepareStep(target, _) => target == id && id in w.db.intents && w.db.intents[id].state.Blocked?
    case _ => false
  }

  lemma RecordAgreement(db: Db, a: Attempt, id: IntentId)
    requires WellFormed(db) && Agrees(db, id)
    ensures Agrees(Record(db, a).0, id)
  {
    hide Filter, MaxNumber, WellFormed, NumberUsed, IdUsed, Append, AttemptsOf;
    if Record(db, a).0 != db {
      RecordRaisesCount(db, a);
      AppendAgrees(db, a, id);
    }
  }

  lemma AppendAgrees(db: Db, a: Attempt, id: IntentId)
    requires a.intent in db.intents && (a.intent == id || Agrees(db, id))
    ensures Agrees(Append(db, a), id)
  {
    hide Filter;
    AttemptsAfterAppend(db, a, id);
  }

  /** From an agreeing row, a step keeps agreement if and only if it is not one of the two. */
  lemma StepAgreement(w: World, step: Step, id: IntentId)
    requires Inv(w) && Agrees(w.db, id)
    ensures Agrees(Apply(w, step).db, id) <==> !Breaks(w, step, id)
  {
    hide Filter, MaxNumber, WellFormed, Record;
    match step
    case RecordStep(a) => RecordAgreement(w.db, a, id);
    case CreateStep(b, v, c, r) =>
      var after := Create(w.db, b, v, c, r).0;
      assert AttemptsOf(after, id) == AttemptsOf(w.db, id);
    case PrepareStep(target, t) =>
      var after := PrepareRetry(w.db, target, t).0;
      assert AttemptsOf(after, id) == AttemptsOf(w.db, id);
    case ObserveStep(_) =>
    case BlockStep(target, observed, t) => BlockAgreement(w, target, observed, t, id);
  }

  lemma BlockAgreement(w: World, target: IntentId, observed: Intent, t: Time, id: IntentId)
    requires Inv(w) && Agrees(w.db, id)
    ensures Agrees(Apply(w, BlockStep(target, observed, t)).db, id) <==> !Breaks(w, BlockStep(target, observed, t), id)
  {
    hide Filter, WellFormed;
    var after := Apply(w, BlockStep(target, observed, t)).db;
    assert AttemptsOf(after, id) == AttemptsOf(w.db, id);
  }

  /** A freshly created intent agrees, and a newly recorded attempt always restores agreement. */
  lemma CreateAndRecordAgree(db: Db, binding: Binding, t: Time, r: Option<Time>, a: Attempt)
    requires WellFormed(db)
    ensures var id := IntentIdOf(binding.key); id !in db.intents ==> Agrees(Create(db, binding, true, t, r).0, id)
    ensures Record(db, a).0 != db ==> Agrees(Record(db, a).0, a.intent)
  {
    hide Filter, MaxNumber, NumberUsed, IdUsed;
    var id := IntentIdOf(binding.key);
    if id !in db.intents {
      NoAttemptsYet(db.attempts, id);
    }
    if Record(db, a).0 != db {
      RecordRaisesCount(db, a);
      AppendAgrees(db, a, a.intent);
    }
  }

  predicate NeverBreaks(w: World, steps: seq<Step>, id: IntentId) {
    forall n :: 0 <= n < |steps| ==> !Breaks(RunSteps(w, steps[..n]), steps[n], id)
  }

  /** The intent does not exist, or state and last attempt agree. */
  predicate AgreesIfAny(db: Db, id: IntentId) {
    id in db.intents ==> Agrees(db, id)
  }

  /** A step on an intent that does not exist can only create it, and then it agrees. */
  lemma AbsentStepAgrees(w: World, step: Step, id: IntentId)
    requires Inv(w) && id !in w.db.intents
    ensures AgreesIfAny(Apply(w, step).db, id)
  {
    hide Filter, MaxNumber, Agrees, AttemptsOf;
    if step.CreateStep? && step.verified && IntentIdOf(step.binding.key) == id {
      CreatedAgrees(w.db, step.binding, step.createdAt, step.retryAt);
    }
  }

  lemma CreatedAgrees(db: Db, binding: Binding, t: Time, r: Option<Time>)
    requires WellFormed(db) && IntentIdOf(binding.key) !in db.intents
    ensures Agrees(Create(db, binding, true, t, r).0, IntentIdOf(binding.key))
  {
    hide Filter;
    NoAttemptsYet(db.attempts, IntentIdOf(binding.key));
  }

  lemma AnyStepAgrees(w: World, step: Step, id: IntentId)
    requires Inv(w) && AgreesIfAny(w.db, id) && !Breaks(w, step, id)
    ensures AgreesIfAny(Apply(w, step).db, id)
  {
    hide Inv, Apply, Agrees, Breaks;
    if id in w.db.intents {
      StepAgreement(w, step, id);
    } else {
      AbsentStepAgrees(w, step, id);
    }
  }

  lemma {:induction false} RunAgrees(w: World, steps: seq<Step>, id: IntentId)
    requires Inv(w) && AgreesIfAny(w.db, id) && NeverBreaks(w, steps, id)
    ensures AgreesIfAny(RunSteps(w, steps).db, id)
  {
    hide Inv, Apply, AgreesIfAny, Breaks;
    if steps != [] {
      var init, last := steps[..|steps| - 1], steps[|steps| - 1];
      assert forall n :: 0 <= n < |init| ==> init[..n] == steps[..n] && init[n] == steps[n];
      RunAgrees(w, init, id);
      RunKeeps(w, init, 0);
      assert steps[..|steps| - 1] == init && !Breaks(RunSteps(w, steps[..|steps| - 1]), steps[|steps| - 1], id);
      AnyStepAgrees(RunSteps(w, init), last, id);
    }
  }

  const Nothing := World(Db(map[], []), {})

  /** Every intent reachable from empty tables without the two steps on it, whenever it was created, projects to
      the status its state implies. */
  lemma RunProjects(steps: seq<Step>, id: IntentId)
    requires NeverBreaks(Nothing, steps, id)
    ensures var after := RunSteps(Nothing, steps).db;
            id in after.intents ==> ProjectRow(after, id) == Ok(Implied(after.intents[id]))
  {
    hide RunSteps, Agrees, AttemptsOf, Project, NeverBreaks, WellFormed, ObservedSound;
    NothingIsSound();
    RunAgrees(Nothing, steps, id);
    RunKeeps(Nothing, steps, 0);
    if id in RunSteps(Nothing, steps).db.intents {
      ProjectsExactly(RunSteps(Nothing, steps).db, id);
    }
  }

  lemma NothingIsSound()
    ensures Inv(Nothing)
  {
  }

  /** The store right after one intent was created. */
  function JustCreated(binding: Binding): Db {
    Create(Db(map[], []), binding, true, 0.0, None).0
  }

  /** One exception: a failed intent that is then blocked. */
  lemma BlockedWithoutBlockedAttempt(binding: Binding)
    ensures var id := IntentIdOf(binding.key);
            var a := Attempt(CallerAttempt("a"), id, 1, AttemptFailed, 0.0, None, None, None);
            var blocked := MarkBlocked(Record(JustCreated(binding), a).0, id, 1.0).0;
            id in blocked.intents && ProjectRow(blocked, id) == Err(LacksBlocked)
  {
    hide Filter;
    var id := IntentIdOf(binding.key);
    OneRow(JustCreated(binding), id, AttemptFailed);
    var a := Attempt(CallerAttempt("a"), id, 1, AttemptFailed, 0.0, None, None, None);
    assert JustCreated(binding).attempts + [a] == [a];
    assert AttemptsOf(Db(MarkBlocked(Record(JustCreated(binding), a).0, id, 1.0).0.intents, [a]), id) == [a];
  }

  /** The other: a blocked intent that is re-armed. */
  lemma RearmedAfterBlocked(binding: Binding)
    ensures var id := IntentIdOf(binding.key);
            var a := Attempt(CallerAttempt("a"), id, 1, AttemptBlocked, 0.0, None, None, None);
            var rearmed := PrepareRetry(Record(JustCreated(binding), a).0, id, 1.0).0;
            id in rearmed.intents && ProjectRow(rearmed, id) == Err(Inconsistent)
  {
    hide Filter;
    var id := IntentIdOf(binding.key);
    OneRow(JustCreated(binding), id, AttemptBlocked);
    var a := Attempt(CallerAttempt("a"), id, 1, AttemptBlocked, 0.0, None, None, None);
    assert JustCreated(binding).attempts + [a] == [a];
    assert AttemptsOf(Db(PrepareRetry(Record(JustCreated(binding), a).0, id, 1.0).0.intents, [a]), id) == [a];
  }

  lemma OneRow(created: Db, id: IntentId, state: AttemptState)
    requires id in created.intents && created.attempts == []
    ensures var a := Attempt(CallerAttempt("a"), id, 1, state, 0.0, None, None, None);
            && Record(created, a).0 == Append(created, a)
            && forall intents :: AttemptsOf(Db(intents, [a]), id) == [a]
  {
    var a := Attempt(CallerAttempt("a"), id, 1, state, 0.0, None, None, None);
    assert AttemptsOf(created, id) == [] by { FilterEmpty(ForIntent(id)); }
    assert [] + [a] == [a];
    FilterEmpty(ForIntent(id));
    FilterAppend(ForIntent(id), [], a);
  }
}
