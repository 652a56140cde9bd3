/** Bounded delivery of one wakeup intent: the retry loop, the fallback, crashes at any point,
    and the bounds that hold over any number of calls. */
module WakeupDelivery {
  import opened Results
  import opened Sequences
  import opened WakeupOutbox

  const MAX_WAKEUP_ATTEMPTS := 16
  const MAX_BACKOFF_SECONDS := 3600.0

  datatype Policy = Policy(maxAttempts: nat, backoffSeconds: seq<real>, approvedFallbacks: set<string>)

  predicate ValidPolicy(p: Policy) {
    && 1 <= p.maxAttempts <= MAX_WAKEUP_ATTEMPTS
    && |p.backoffSeconds| == p.maxAttempts - 1
    && forall i :: 0 <= i < |p.backoffSeconds| ==> 0.0 <= p.backoffSeconds[i] <= MAX_BACKOFF_SECONDS
  }

  datatype Answer = Accepts | Rejects | Raises

  /** The callbacks and the clock of one call, as functions of the attempt number: a call asks each
      of them at most once per number, so this is arbitrary behaviour. `configured` names the
      fallback callbacks supplied. */
  datatype Env = Env(primary: nat -> Answer, fallback: nat -> Answer, clock: nat -> Time, configured: set<string>)

  datatype Status = StatusDelivered | StatusFallbackDelivered | StatusBlocked

  datatype DeliveryResult = DeliveryResult(status: Status, attemptCount: nat, fallbackUsed: Option<string>,
      nextAttemptAt: Option<Time>)

  datatype Reply = Returned(result: DeliveryResult) | Raised(error: OutboxError) | Crashed

  datatype Outcome = Outcome(db: Db, reply: Reply, slept: real, callbacks: nat)

  function After(o: Outcome, slept: real, callbacks: nat): Outcome {
    o.(slept := slept + o.slept, callbacks := callbacks + o.callbacks)
  }

  function ErrorOf(answer: Answer): Code {
    if answer.Raises? then TransportUnavailable else TransportRejected
  }

  function FallbackReady(intent: Intent, p: Policy, env: Env): bool {
    match intent.binding.fallback
    case None => false
    case Some(capability) => capability in p.approvedFallbacks && capability in env.configured
  }

  /** The terminal reply read back from the tables. */
  function ReplyFor(db: Db, id: IntentId): Reply {
    if id !in db.intents || !Terminal(db.intents[id].state) then Raised(ContractMismatch)
    else
      var intent, rows := db.intents[id], AttemptsOf(db, id);
      var viaFallback := rows != [] && rows[|rows| - 1].errorCode == Some(FallbackDelivered);
      var used := if viaFallback then intent.binding.fallback else None;
      if intent.state.Delivered? then
        Returned(DeliveryResult(if used.Some? then StatusFallbackDelivered
          else StatusDelivered, intent.attemptCount, used, intent.nextAttemptAt))
      else
        Returned(DeliveryResult(StatusBlocked, intent.attemptCount, None, intent.nextAttemptAt))
  }

  function NewAttempt(id: IntentId, n: nat, state: AttemptState, at: Time, retryAt: Option<Time>,
      code: Option<Code>): Attempt {
    Attempt(DeliveryAttempt(id, n), id, n, state, at, retryAt, code, None)
  }

  /** Record one attempt and answer with the terminal reply. */
  function Finish(db: Db, a: Attempt): Outcome {
    var (after, r) := Record(db, a);
    Outcome(after, if r.Err? then Raised(r.error) else ReplyFor(after, a.intent), 0.0, 1)
  }

  // Effects are counted: each callback, transaction and sleep is one, and a call with `cut` effects
  // left stops dead before the next one.

  function Fallback(db: Db, id: IntentId, n: nat, env: Env, cut: nat): Outcome {
    if cut == 0 then Outcome(db, Crashed, 0.0, 0)
    else if cut == 1 then Outcome(db, Crashed, 0.0, 1)
    else if env.fallback(n).Accepts? then
      Finish(db, NewAttempt(id, n, AttemptDelivered, env.clock(n), None, Some(FallbackDelivered)))
    else
      Finish(db, NewAttempt(id, n, AttemptBlocked, env.clock(n), None, Some(DeliveryBlocked)))
  }

  function Block(db: Db, id: IntentId, at: Time, cut: nat): Outcome {
    if cut == 0 then Outcome(db, Crashed, 0.0, 0)
    else
      var (after, r) := MarkBlocked(db, id, at);
      Outcome(after, if r.Err? then Raised(r.error) else ReplyFor(after, id), 0.0, 0)
  }

  function Loop(db: Db, id: IntentId, p: Policy, env: Env, n: nat, cut: nat): Outcome
    requires ValidPolicy(p) && id in db.intents && 1 <= n <= p.maxAttempts
    decreases p.maxAttempts - n
  {
    if Terminal(db.intents[id].state) then Outcome(db, ReplyFor(db, id), 0.0, 0)
    else if cut == 0 then Outcome(db, Crashed, 0.0, 0)
    else
      var answer, at := env.primary(n), env.clock(n);
      if cut == 1 then Outcome(db, Crashed, 0.0, 1)
      else if answer.Accepts? then Finish(db, NewAttempt(id, n, AttemptDelivered, at, None, None))
      else if n < p.maxAttempts then
        var delay := p.backoffSeconds[n - 1];
        var (after, r) := Record(db, NewAttempt(id, n, AttemptFailed, at, Some(at + delay), Some(ErrorOf(answer))));
        if r.Err? then Outcome(after, Raised(r.error), 0.0, 1)
        else if cut == 2 then Outcome(after, Crashed, 0.0, 1)
        else After(Loop(after, id, p, env, n + 1, cut - 3), delay, 1)
      else if FallbackReady(db.intents[id], p, env) then
        var (after, r) := Record(db, NewAttempt(id, n, AttemptFailed, at, None, Some(ErrorOf(answer))));
        if r.Err? then Outcome(after, Raised(r.error), 0.0, 1)
        else After(Fallback(after, id, n + 1, env, cut - 2), 0.0, 1)
      else Finish(db, NewAttempt(id, n, AttemptBlocked, at, None, Some(DeliveryBlocked)))
  }

  function Deliver(db: Db, id: IntentId, p: Policy, env: Env, cut: nat): Outcome
    requires ValidPolicy(p)
  {
    if id !in db.intents then Outcome(db, Raised(NotFound), 0.0, 0)
    else if Terminal(db.intents[id].state) then Outcome(db, ReplyFor(db, id), 0.0, 0)
    else
      var n := |AttemptsOf(db, id)| + 1;
      if n <= p.maxAttempts then Loop(db, id, p, env, n, cut)
      else if FallbackReady(db.intents[id], p, env) then Fallback(db, id, n, env, cut)
      else Block(db, id, env.clock(n), cut)
  }

  // ---- bounds ----

  /** Total backoff scheduled for the first `n` attempts. */
  function Scheduled(p: Policy, n: nat): real
    requires ValidPolicy(p)
  {
    if n == 0 then 0.0
    else Scheduled(p, n - 1) + if n <= |p.backoffSeconds| then p.backoffSeconds[n - 1] else 0.0
  }

  /** Nobody else used the ids that delivery will use next for this intent. */
  ghost predicate OwnIds(db: Db, id: IntentId) {
    forall i, m: nat :: 0 <= i < |db.attempts| && db.attempts[i].id == DeliveryAttempt(id, m) ==>
        m <= |AttemptsOf(db, id)|
  }

  predicate Done(db: Db, id: IntentId) {
    id in db.intents && Terminal(db.intents[id].state)
  }

  /** The tables as deliveries alone leave them: one attempt past the limit only once terminal. */
  ghost predicate Ready(db: Db, id: IntentId, p: Policy) {
    && WellFormed(db) && OwnIds(db, id) && id in db.intents
    && (|AttemptsOf(db, id)| <= p.maxAttempts || (|AttemptsOf(db, id)| == p.maxAttempts + 1 && Done(db, id)))
  }

  lemma FreshId(db: Db, id: IntentId, n: nat)
    requires OwnIds(db, id) && n > |AttemptsOf(db, id)|
    ensures !IdUsed(db, DeliveryAttempt(id, n))
  {
  }

  lemma OwnIdsAfter(db: Db, id: IntentId, a: Attempt)
    requires OwnIds(db, id) && a.intent == id && id in db.intents
    requires a.id == DeliveryAttempt(id, |AttemptsOf(db, id)| + 1)
    ensures OwnIds(Append(db, a), id)
  {
    hide Filter;
    AttemptsAfterAppend(db, a, id);
    var after := Append(db, a);
    forall i, m: nat | 0 <= i < |after.attempts| && after.attempts[i].id == DeliveryAttempt(id, m)
      ensures m <= |AttemptsOf(after, id)| {
      assert i < |db.attempts| ==> after.attempts[i] == db.attempts[i];
    }
  }

  /** Recording the next delivery attempt succeeds and moves the tables by exactly that row. */
  lemma NextRecord(db: Db, id: IntentId, a: Attempt)
    requires WellFormed(db) && OwnIds(db, id) && id in db.intents && a.intent == id
    requires a.number == |AttemptsOf(db, id)| + 1 && a.id == DeliveryAttempt(id, a.number)
    ensures Record(db, a) == (Append(db, a), Ok(a))
    ensures WellFormed(Append(db, a)) && OwnIds(Append(db, a), id)
    ensures AttemptsOf(Append(db, a), id) == AttemptsOf(db, id) + [a]
    ensures id in Append(db, a).intents && Append(db, a).intents[id].state == StateAfter(a.state)
    ensures Append(db, a).intents[id].binding == db.intents[id].binding
  {
    hide Filter, AttemptsOf, MaxNumber, WellFormed, OwnIds, IdUsed;
    FreshId(db, id, a.number);
    RecordAccepts(db, a);
    AppendWellFormed(db, a);
    OwnIdsAfter(db, id, a);
    AttemptsAfterAppend(db, a, id);
  }

  /** What one call promises, whatever the callbacks do and wherever it is cut. */
  ghost predicate Bounded(db: Db, id: IntentId, p: Policy, o: Outcome)
    requires ValidPolicy(p)
  {
    && Ready(o.db, id, p)
    && !o.reply.Raised?
    && (o.reply.Returned? ==> Done(o.db, id))
    && |AttemptsOf(o.db, id)| >= |AttemptsOf(db, id)|
    && o.slept <= Scheduled(p, |AttemptsOf(o.db, id)|) - Scheduled(p, |AttemptsOf(db, id)|)
  }

  lemma {:induction false} ScheduledGrows(p: Policy, m: nat, n: nat)
    requires ValidPolicy(p) && m <= n
    ensures Scheduled(p, m) <= Scheduled(p, n) <= Scheduled(p, m) + (n - m) as real * MAX_BACKOFF_SECONDS
  {
    if m < n { ScheduledGrows(p, m, n - 1); }
  }

  lemma {:induction false} ScheduledTotal(p: Policy, n: nat)
    requires ValidPolicy(p)
    ensures Scheduled(p, n) <= Scheduled(p, p.maxAttempts - 1) <= (p.maxAttempts - 1) as real * MAX_BACKOFF_SECONDS
  {
    ScheduledGrows(p, 0, p.maxAttempts - 1);
    if n <= p.maxAttempts - 1 {
      ScheduledGrows(p, n, p.maxAttempts - 1);
    } else {
      ScheduledTotal(p, n - 1);
    }
  }

  lemma ReplyWhenDone(db: Db, id: IntentId)
    requires Done(db, id)
    ensures ReplyFor(db, id).Returned?
  {
  }

  lemma FinishBounded(db: Db, id: IntentId, p: Policy, a: Attempt)
    requires ValidPolicy(p) && WellFormed(db) && OwnIds(db, id) && id in db.intents
    requires |AttemptsOf(db, id)| <= p.maxAttempts
    requires a.intent == id && a.number == |AttemptsOf(db, id)| + 1 && a.id == DeliveryAttempt(id, a.number)
    requires a.state.AttemptDelivered? || a.state.AttemptBlocked?
    ensures Bounded(db, id, p, Finish(db, a)) && Finish(db, a).reply.Returned?
  {
    hide Filter, AttemptsOf, MaxNumber, WellFormed, OwnIds, IdUsed, Record, Append, Scheduled;
    NextRecord(db, id, a);
    ReplyWhenDone(Append(db, a), id);
    ScheduledGrows(p, |AttemptsOf(db, id)|, |AttemptsOf(Append(db, a), id)|);
  }

  lemma CrashBounded(db: Db, id: IntentId, p: Policy, callbacks: nat)
    requires ValidPolicy(p) && Ready(db, id, p)
    ensures Bounded(db, id, p, Outcome(db, Crashed, 0.0, callbacks))
  {
  }

  lemma FallbackBounded(db: Db, id: IntentId, p: Policy, env: Env, n: nat, cut: nat)
    requires ValidPolicy(p) && Ready(db, id, p) && n == |AttemptsOf(db, id)| + 1 <= p.maxAttempts + 1
    ensures Bounded(db, id, p, Fallback(db, id, n, env, cut))
    ensures cut >= 2 ==> Fallback(db, id, n, env, cut).reply.Returned?
  {
    hide Filter, AttemptsOf, MaxNumber, WellFormed, OwnIds, Finish, Scheduled, Bounded;
    CrashBounded(db, id, p, 0);
    CrashBounded(db, id, p, 1);
    FinishBounded(db, id, p, NewAttempt(id, n, AttemptDelivered, env.clock(n), None, Some(FallbackDelivered)));
    FinishBounded(db, id, p, NewAttempt(id, n, AttemptBlocked, env.clock(n), None, Some(DeliveryBlocked)));
  }

  lemma BlockBounded(db: Db, id: IntentId, p: Policy, at: Time, cut: nat)
    requires ValidPolicy(p) && Ready(db, id, p) && !Done(db, id)
    ensures Bounded(db, id, p, Block(db, id, at, cut))
    ensures cut >= 1 ==> Block(db, id, at, cut).reply.Returned?
  {
    hide Filter, MaxNumber, WellFormed, Scheduled;
    if cut > 0 {
      var row := db.intents[id].(state := WakeupOutbox.Blocked, nextAttemptAt := None, updatedAt := at);
      UpdateRowKeeps(db, id, row);
      var after := db.(intents := db.intents[id := row]);
      assert AttemptsOf(after, id) == AttemptsOf(db, id);
      ReplyWhenDone(after, id);
    }
  }

  /** Prepending a failed, backed-off attempt to a bounded outcome. */
  lemma BoundedAfter(db: Db, mid: Db, id: IntentId, p: Policy, o: Outcome, slept: real, calls: nat)
    requires ValidPolicy(p) && Bounded(mid, id, p, o)
    requires |AttemptsOf(mid, id)| == |AttemptsOf(db, id)| + 1
    requires slept <= Scheduled(p, |AttemptsOf(mid, id)|) - Scheduled(p, |AttemptsOf(db, id)|)
    ensures Bounded(db, id, p, After(o, slept, calls))
  {
    hide Filter, AttemptsOf, WellFormed, OwnIds, Scheduled;
  }

  lemma {:induction false} LoopBounded(db: Db, id: IntentId, p: Policy, env: Env, n: nat, cut: nat)
    requires ValidPolicy(p) && Ready(db, id, p) && !Done(db, id)
    requires n == |AttemptsOf(db, id)| + 1 <= p.maxAttempts
    ensures Bounded(db, id, p, Loop(db, id, p, env, n, cut))
    ensures cut >= 3 * (p.maxAttempts - n) + 4 ==> Loop(db, id, p, env, n, cut).reply.Returned?
    decreases p.maxAttempts - n
  {
    hide Filter, AttemptsOf, MaxNumber, WellFormed, OwnIds, Finish, Fallback, Record, Append, Bounded;
    CrashBounded(db, id, p, 0);
    CrashBounded(db, id, p, 1);
    if cut >= 2 {
      var answer, at := env.primary(n), env.clock(n);
      if answer.Accepts? {
        FinishBounded(db, id, p, NewAttempt(id, n, AttemptDelivered, at, None, None));
      } else if n < p.maxAttempts {
        RetryBounded(db, id, p, env, n, cut);
      } else if FallbackReady(db.intents[id], p, env) {
        LastTryBounded(db, id, p, env, n, cut);
      } else {
        FinishBounded(db, id, p, NewAttempt(id, n, AttemptBlocked, at, None, Some(DeliveryBlocked)));
      }
    }
  }

  lemma {:induction false} RetryBounded(db: Db, id: IntentId, p: Policy, env: Env, n: nat, cut: nat)
    requires ValidPolicy(p) && Ready(db, id, p) && !Done(db, id)
    requires n == |AttemptsOf(db, id)| + 1 < p.maxAttempts && cut >= 2 && !env.primary(n).Accepts?
    ensures Bounded(db, id, p, Loop(db, id, p, env, n, cut))
    ensures cut >= 3 * (p.maxAttempts - n) + 4 ==> Loop(db, id, p, env, n, cut).reply.Returned?
    decreases p.maxAttempts - n, 0
  {
    hide Filter, AttemptsOf, MaxNumber, WellFormed, OwnIds, Record, Append, Bounded;
    var delay, at := p.backoffSeconds[n - 1], env.clock(n);
    var a := NewAttempt(id, n, AttemptFailed, at, Some(at + delay), Some(ErrorOf(env.primary(n))));
    NextRecord(db, id, a);
    var after := Append(db, a);
    assert Ready(after, id, p);
    if cut == 2 {
      CrashBounded(after, id, p, 0);
      BoundedAfter(db, after, id, p, Outcome(after, Crashed, 0.0, 0), 0.0, 1);
    } else {
      LoopBounded(after, id, p, env, n + 1, cut - 3);
      BoundedAfter(db, after, id, p, Loop(after, id, p, env, n + 1, cut - 3), delay, 1);
    }
  }

  lemma LastTryBounded(db: Db, id: IntentId, p: Policy, env: Env, n: nat, cut: nat)
    requires ValidPolicy(p) && Ready(db, id, p) && !Done(db, id)
    requires n == |AttemptsOf(db, id)| + 1 == p.maxAttempts && cut >= 2 && !env.primary(n).Accepts?
    requires FallbackReady(db.intents[id], p, env)
    ensures Bounded(db, id, p, Loop(db, id, p, env, n, cut))
    ensures cut >= 4 ==> Loop(db, id, p, env, n, cut).reply.Returned?
  {
    hide Filter, AttemptsOf, MaxNumber, WellFormed, OwnIds, Record, Append, Bounded, Fallback;
    var a := NewAttempt(id, n, AttemptFailed, env.clock(n), None, Some(ErrorOf(env.primary(n))));
    NextRecord(db, id, a);
    var after := Append(db, a);
    FallbackBounded(after, id, p, env, n + 1, cut - 2);
    ScheduledGrows(p, n - 1, n);
    BoundedAfter(db, after, id, p, Fallback(after, id, n + 1, env, cut - 2), 0.0, 1);
  }

  /** One call: it never raises, ends terminal unless cut, and `3 * max_attempts + 1` effects always suffice. */
  lemma DeliverBounded(db: Db, id: IntentId, p: Policy, env: Env, cut: nat)
    requires ValidPolicy(p) && Ready(db, id, p)
    ensures Bounded(db, id, p, Deliver(db, id, p, env, cut))
    ensures cut >= 3 * p.maxAttempts + 1 ==> Deliver(db, id, p, env, cut).reply.Returned?
  {
    hide Filter, AttemptsOf, MaxNumber, WellFormed, OwnIds, Loop, Fallback, Block, Scheduled;
    if Done(db, id) {
      ReplyWhenDone(db, id);
    } else {
      var n := |AttemptsOf(db, id)| + 1;
      if n <= p.maxAttempts {
        LoopBounded(db, id, p, env, n, cut);
      } else if FallbackReady(db.intents[id], p, env) {
        FallbackBounded(db, id, p, env, n, cut);
      } else {
        BlockBounded(db, id, p, env.clock(n), cut);
      }
    }
  }

  /** Once terminal, a call runs no callback, sleeps not at all and writes nothing. */
  lemma TerminalIsQuiet(db: Db, id: IntentId, p: Policy, env: Env, cut: nat)
    requires ValidPolicy(p) && Done(db, id)
    ensures Deliver(db, id, p, env, cut) == Outcome(db, ReplyFor(db, id), 0.0, 0) && ReplyFor(db, id).Returned?
  {
    ReplyWhenDone(db, id);
  }

  datatype Call = Call(env: Env, cut: nat)

  /** Successive calls with one policy, each cut anywhere; sleeps add up. */
  function Calls(db: Db, id: IntentId, p: Policy, calls: seq<Call>): Outcome
    requires ValidPolicy(p)
  {
    if calls == [] then Outcome(db, Crashed, 0.0, 0)
    else
      var before := Calls(db, id, p, calls[..|calls| - 1]);
      var last := calls[|calls| - 1];
      After(Deliver(before.db, id, p, last.env, last.cut), before.slept, before.callbacks)
  }

  lemma {:induction false} CallsBounded(db: Db, id: IntentId, p: Policy, calls: seq<Call>)
    requires ValidPolicy(p) && Ready(db, id, p)
    ensures var o := Calls(db, id, p, calls);
            Ready(o.db, id, p) && o.slept <= Scheduled(p, |AttemptsOf(o.db, id)|) - Scheduled(p, |AttemptsOf(db, id)|)
  {
    hide Filter, AttemptsOf, WellFormed, OwnIds, Deliver, Scheduled;
    if calls != [] {
      var init, last := calls[..|calls| - 1], calls[|calls| - 1];
      CallsBounded(db, id, p, init);
      DeliverBounded(Calls(db, id, p, init).db, id, p, last.env, last.cut);
    }
  }

  /** Over any number of interrupted calls on a fresh intent: at most `max_attempts + 1` attempts, and total
      sleep within the configured schedule. */
  lemma FreshIntentBounded(db: Db, id: IntentId, p: Policy, calls: seq<Call>)
    requires ValidPolicy(p) && WellFormed(db) && id in db.intents
    requires AttemptsOf(db, id) == [] && OwnIds(db, id)
    ensures var o := Calls(db, id, p, calls);
            && |AttemptsOf(o.db, id)| <= p.maxAttempts + 1
            && o.slept <= Scheduled(p, p.maxAttempts - 1) <= (p.maxAttempts - 1) as real * MAX_BACKOFF_SECONDS
  {
    hide Filter, AttemptsOf, WellFormed, OwnIds, Calls;
    CallsBounded(db, id, p, calls);
    ScheduledTotal(p, |AttemptsOf(Calls(db, id, p, calls).db, id)|);
    assert Scheduled(p, 0) == 0.0;
  }

  // ---- delivery is made of the outbox's own steps ----

  lemma {:induction false} RunPrepend(w: World, step: Step, rest: seq<Step>)
    ensures RunSteps(w, [step] + rest) == RunSteps(WakeupOutbox.Apply(w, step), rest)
  {
    hide WakeupOutbox.Apply;
    var all := [step] + rest;
    if rest == [] {
      assert all[..0] == [];
    } else {
      assert all[..|all| - 1] == [step] + rest[..|rest| - 1];
      RunPrepend(w, step, rest[..|rest| - 1]);
    }
  }

  lemma RunOne(w: World, step: Step)
    ensures RunSteps(w, [step]) == WakeupOutbox.Apply(w, step)
  {
    assert [step][..0] == [];
  }

  lemma {:induction false} LoopIsSteps(w: World, id: IntentId, p: Policy, env: Env, n: nat, cut: nat)
      returns (steps: seq<Step>)
    requires ValidPolicy(p) && id in w.db.intents && 1 <= n <= p.maxAttempts
    ensures RunSteps(w, steps).db == Loop(w.db, id, p, env, n, cut).db
    decreases p.maxAttempts - n
  {
    hide Record, ReplyFor, FallbackReady, RunSteps;
    NoSteps(w);
    if Terminal(w.db.intents[id].state) || cut <= 1 {
      steps := [];
      return;
    }
    var answer, at := env.primary(n), env.clock(n);
    if answer.Accepts? {
      steps := [RecordStep(NewAttempt(id, n, AttemptDelivered, at, None, None))];
      RunOne(w, steps[0]);
    } else if n < p.maxAttempts {
      var first := RecordStep(NewAttempt(id, n, AttemptFailed, at, Some(at + p.backoffSeconds[n - 1]),
          Some(ErrorOf(answer))));
      RunOne(w, first);
      steps := [first];
      if Record(w.db, first.attempt).1.Ok? && cut > 2 {
        var rest := LoopIsSteps(WakeupOutbox.Apply(w, first), id, p, env, n + 1, cut - 3);
        RunPrepend(w, first, rest);
        steps := [first] + rest;
      }
    } else if FallbackReady(w.db.intents[id], p, env) {
      var first := RecordStep(NewAttempt(id, n, AttemptFailed, at, None, Some(ErrorOf(answer))));
      RunOne(w, first);
      steps := [first];
      if Record(w.db, first.attempt).1.Ok? {
        var rest := FallbackIsSteps(WakeupOutbox.Apply(w, first), id, n + 1, env, cut - 2);
        RunPrepend(w, first, rest);
        steps := [first] + rest;
      }
    } else {
      steps := [RecordStep(NewAttempt(id, n, AttemptBlocked, at, None, Some(DeliveryBlocked)))];
      RunOne(w, steps[0]);
    }
  }

  lemma NoSteps(w: World)
    ensures RunSteps(w, []) == w
  {
  }

  lemma FallbackIsSteps(w: World, id: IntentId, n: nat, env: Env, cut: nat) returns (steps: seq<Step>)
    ensures RunSteps(w, steps).db == Fallback(w.db, id, n, env, cut).db
  {
    hide Record, ReplyFor, RunSteps;
    NoSteps(w);
    steps := [];
    if cut > 1 {
      var a := if env.fallback(n).Accepts? then NewAttempt(id, n, AttemptDelivered, env.clock(n), None,
          Some(FallbackDelivered))
               else NewAttempt(id, n, AttemptBlocked, env.clock(n), None, Some(DeliveryBlocked));
      steps := [RecordStep(a)];
      RunOne(w, steps[0]);
    }
  }

  /** A delivery call, cut anywhere, is a run of record, observe and block steps, so everything proved of every
      interleaving holds with deliveries mixed in. */
  lemma DeliverIsSteps(w: World, id: IntentId, p: Policy, env: Env, cut: nat) returns (steps: seq<Step>)
    requires ValidPolicy(p)
    ensures RunSteps(w, steps).db == Deliver(w.db, id, p, env, cut).db
    ensures Inv(w) ==> WellFormed(Deliver(w.db, id, p, env, cut).db) && Extends(w.db, Deliver(w.db, id, p, env, cut).db)
  {
    hide Loop, Fallback, ReplyFor, FallbackReady, RunSteps, AttemptsOf, Extends;
    NoSteps(w);
    steps := [];
    if id in w.db.intents && !Terminal(w.db.intents[id].state) {
      var n := |AttemptsOf(w.db, id)| + 1;
      if n <= p.maxAttempts {
        steps := LoopIsSteps(w, id, p, env, n, cut);
      } else if FallbackReady(w.db.intents[id], p, env) {
        steps := FallbackIsSteps(w, id, n, env, cut);
      } else if cut > 0 {
        var row := w.db.intents[id];
        RunOne(WakeupOutbox.Apply(w, ObserveStep(id)), BlockStep(id, row, env.clock(n)));
        RunPrepend(w, ObserveStep(id), [BlockStep(id, row, env.clock(n))]);
        steps := [ObserveStep(id)] + [BlockStep(id, row, env.clock(n))];
      }
    }
    if Inv(w) {
      RunKeeps(w, steps, 0);
      assert steps[..0] == [];
    }
  }
}
