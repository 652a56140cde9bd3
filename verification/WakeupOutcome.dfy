/** What a delivery that is not cut short leads to, read off the callbacks' answers. */
module WakeupOutcome {
  import opened Results
  import opened Sequences
  import opened WakeupOutbox
  import opened WakeupDelivery

  /** Number `k` is the first from `first` on whose primary callback accepts. */
  predicate AcceptsFirst(p: Policy, env: Env, first: nat, k: nat) {
    first <= k <= p.maxAttempts && env.primary(k).Accepts? && forall j :: first <= j < k ==> !env.primary(j).Accepts?
  }

  predicate NoneAccepts(p: Policy, env: Env, first: nat) {
    forall j :: first <= j <= p.maxAttempts ==> !env.primary(j).Accepts?
  }

  /** The intent names a fallback that the policy approves and the caller supplies. */
  predicate Reserve(db: Db, id: IntentId, p: Policy, env: Env)
    requires id in db.intents
  {
    && db.intents[id].binding.fallback.Some?
    && db.intents[id].binding.fallback.value in p.approvedFallbacks
    && db.intents[id].binding.fallback.value in env.configured
  }

  /** The row of a try that failed: its number, its answer's code, and the retry it schedules. */
  predicate FailedTry(id: IntentId, p: Policy, env: Env, a: Attempt, j: nat)
    requires ValidPolicy(p) && 1 <= j
  {
    && a.intent == id && a.number == j && a.state.AttemptFailed? && a.attemptedAt == env.clock(j)
    && a.errorCode == Some(if env.primary(j).Raises? then TransportUnavailable else TransportRejected)
    && a.retryAt == if j < p.maxAttempts then Some(env.clock(j) + p.backoffSeconds[j - 1]) else None
  }

  predicate FailedAt(id: IntentId, p: Policy, env: Env, rows: seq<Attempt>, j: nat)
    requires ValidPolicy(p)
  {
    1 <= j <= |rows| && FailedTry(id, p, env, rows[j - 1], j)
  }

  predicate FailedTries(id: IntentId, p: Policy, env: Env, rows: seq<Attempt>, first: nat, last: int)
    requires ValidPolicy(p)
  {
    forall j :: first <= j <= last ==> FailedAt(id, p, env, rows, j)
  }

  /** The last row, with its state and code, and nothing scheduled after it. */
  predicate EndsWith(id: IntentId, env: Env, rows: seq<Attempt>, n: nat, state: AttemptState, code: Option<Code>) {
    && 1 <= n == |rows|
    && var a := rows[n - 1];
       && a.intent == id && a.number == n && a.state == state && a.errorCode == code && a.retryAt.None?
       && a.attemptedAt == env.clock(n)
  }

  /** The first accepting primary callback decides; then the fallback; then the intent is blocked. */
  ghost predicate Decided(db: Db, id: IntentId, p: Policy, env: Env, o: Outcome)
    requires ValidPolicy(p) && id in db.intents
  {
    var first, rows, max := |AttemptsOf(db, id)| + 1, AttemptsOf(o.db, id), p.maxAttempts;
    && AttemptsOf(db, id) <= rows
    && (forall k: nat :: AcceptsFirst(p, env, first, k) ==>
          && o.reply == Returned(DeliveryResult(StatusDelivered, k, None, None))
          && FailedTries(id, p, env, rows, first, k - 1) && EndsWith(id, env, rows, k, AttemptDelivered, None)
          && o.slept == Scheduled(p, k - 1) - Scheduled(p, first - 1))
    && (NoneAccepts(p, env, first) && Reserve(db, id, p, env) ==>
          && FailedTries(id, p, env, rows, first, max) && o.slept == Scheduled(p, max) - Scheduled(p, first - 1)
          && if env.fallback(max + 1).Accepts? then
               && o.reply == Returned(DeliveryResult(StatusFallbackDelivered, max + 1, db.intents[id].binding.fallback,
                     None))
               && EndsWith(id, env, rows, max + 1, AttemptDelivered, Some(FallbackDelivered))
             else
               && o.reply == Returned(DeliveryResult(StatusBlocked, max + 1, None, None))
               && EndsWith(id, env, rows, max + 1, AttemptBlocked, Some(DeliveryBlocked)))
    && (NoneAccepts(p, env, first) && !Reserve(db, id, p, env) ==>
          && o.reply == Returned(DeliveryResult(StatusBlocked, max, None, None))
          && FailedTries(id, p, env, rows, first, max - 1) && o.slept == Scheduled(p, max) - Scheduled(p, first - 1)
          && if first <= max then EndsWith(id, env, rows, max, AttemptBlocked, Some(DeliveryBlocked))
             else rows == AttemptsOf(db, id))
  }

  /** A recorded final attempt is what the reply reads back. */
  lemma FinishReplies(db: Db, id: IntentId, a: Attempt)
    requires WellFormed(db) && OwnIds(db, id) && id in db.intents && a.intent == id
    requires a.number == |AttemptsOf(db, id)| + 1 && a.id == DeliveryAttempt(id, a.number)
    requires a.state.AttemptDelivered? || a.state.AttemptBlocked?
    requires a.errorCode == Some(FallbackDelivered) ==>
            a.state.AttemptDelivered? && db.intents[id].binding.fallback.Some?
    ensures var o := Finish(db, a);
            && AttemptsOf(o.db, id) == AttemptsOf(db, id) + [a] && o.slept == 0.0
            && o.reply == Returned(
                 if a.state.AttemptBlocked? then DeliveryResult(StatusBlocked, a.number, None, a.retryAt)
                 else if a.errorCode == Some(FallbackDelivered)
                 then DeliveryResult(StatusFallbackDelivered, a.number, db.intents[id].binding.fallback, a.retryAt)
                 else DeliveryResult(StatusDelivered, a.number, None, a.retryAt))
  {
    hide Filter, AttemptsOf, MaxNumber, WellFormed, OwnIds, IdUsed, Record;
    NextRecord(db, id, a);
  }

  lemma ScheduledStep(p: Policy, n: nat)
    requires ValidPolicy(p) && n >= 1
    ensures Scheduled(p, n) == Scheduled(p, n - 1) + if n < p.maxAttempts then p.backoffSeconds[n - 1] else 0.0
  {
  }

  /** A failed, backed-off try in front of a decided rest. */
  lemma DecidedAfter(db: Db, mid: Db, id: IntentId, p: Policy, env: Env, a: Attempt, o: Outcome)
    requires ValidPolicy(p) && id in db.intents && id in mid.intents
    requires AttemptsOf(mid, id) == AttemptsOf(db, id) + [a] && mid.intents[id].binding == db.intents[id].binding
    requires var n := |AttemptsOf(db, id)| + 1;
             n < p.maxAttempts && !env.primary(n).Accepts? && FailedTry(id, p, env, a, n)
    requires Decided(mid, id, p, env, o)
    ensures Decided(db, id, p, env, After(o, p.backoffSeconds[|AttemptsOf(db, id)|], 1))
  {
    hide Filter, AttemptsOf, Scheduled, FailedTry;
    var n, rows := |AttemptsOf(db, id)| + 1, AttemptsOf(o.db, id);
    ScheduledStep(p, n);
    assert rows[n - 1] == a;
    assert AttemptsOf(db, id) <= rows;
    forall k: nat | AcceptsFirst(p, env, n, k) ensures AcceptsFirst(p, env, n + 1, k) {
    }
    assert NoneAccepts(p, env, n) ==> NoneAccepts(p, env, n + 1);
  }

  lemma AcceptedDecides(db: Db, id: IntentId, p: Policy, env: Env, n: nat, cut: nat)
    requires ValidPolicy(p) && Ready(db, id, p) && !Done(db, id)
    requires n == |AttemptsOf(db, id)| + 1 <= p.maxAttempts && cut >= 2 && env.primary(n).Accepts?
    ensures Decided(db, id, p, env, Loop(db, id, p, env, n, cut))
  {
    hide Filter, AttemptsOf, WellFormed, OwnIds, Finish, Scheduled;
    FinishReplies(db, id, NewAttempt(id, n, AttemptDelivered, env.clock(n), None, None));
    assert forall k: nat :: AcceptsFirst(p, env, n, k) ==> k == n;
  }

  lemma LastTryDecides(db: Db, id: IntentId, p: Policy, env: Env, n: nat, cut: nat)
    requires ValidPolicy(p) && Ready(db, id, p) && !Done(db, id)
    requires n == |AttemptsOf(db, id)| + 1 == p.maxAttempts && cut >= 4 && !env.primary(n).Accepts?
    ensures Decided(db, id, p, env, Loop(db, id, p, env, n, cut))
  {
    hide Filter, AttemptsOf, WellFormed, OwnIds, Finish, Scheduled, Record, Append;
    ScheduledStep(p, n);
    assert forall k: nat :: !AcceptsFirst(p, env, n, k);
    if Reserve(db, id, p, env) {
      var a := NewAttempt(id, n, AttemptFailed, env.clock(n), None, Some(ErrorOf(env.primary(n))));
      NextRecord(db, id, a);
      FallbackDecides(Append(db, a), id, p, env, n + 1, cut - 2);
    } else {
      FinishReplies(db, id, NewAttempt(id, n, AttemptBlocked, env.clock(n), None, Some(DeliveryBlocked)));
    }
  }

  lemma FallbackDecides(db: Db, id: IntentId, p: Policy, env: Env, n: nat, cut: nat)
    requires ValidPolicy(p) && WellFormed(db) && OwnIds(db, id) && id in db.intents && Reserve(db, id, p, env)
    requires n == |AttemptsOf(db, id)| + 1 && cut >= 2
    ensures var o := Fallback(db, id, n, env, cut);
            var rows := AttemptsOf(o.db, id);
            && AttemptsOf(db, id) <= rows && o.slept == 0.0
            && if env.fallback(n).Accepts? then
                 && o.reply == Returned(DeliveryResult(StatusFallbackDelivered, n, db.intents[id].binding.fallback,
                       None))
                 && EndsWith(id, env, rows, n, AttemptDelivered, Some(FallbackDelivered))
               else
                 && o.reply == Returned(DeliveryResult(StatusBlocked, n, None, None))
                 && EndsWith(id, env, rows, n, AttemptBlocked, Some(DeliveryBlocked))
  {
    hide Filter, AttemptsOf, WellFormed, OwnIds, Finish;
    FinishReplies(db, id, NewAttempt(id, n, AttemptDelivered, env.clock(n), None, Some(FallbackDelivered)));
    FinishReplies(db, id, NewAttempt(id, n, AttemptBlocked, env.clock(n), None, Some(DeliveryBlocked)));
  }

  lemma {:induction false} LoopDecides(db: Db, id: IntentId, p: Policy, env: Env, n: nat, cut: nat)
    requires ValidPolicy(p) && Ready(db, id, p) && !Done(db, id)
    requires n == |AttemptsOf(db, id)| + 1 <= p.maxAttempts && cut >= 3 * (p.maxAttempts - n) + 4
    ensures Decided(db, id, p, env, Loop(db, id, p, env, n, cut))
    decreases p.maxAttempts - n
  {
    hide Filter, AttemptsOf, WellFormed, OwnIds, Record, Append, Decided, FailedTry;
    if env.primary(n).Accepts? {
      AcceptedDecides(db, id, p, env, n, cut);
    } else if n == p.maxAttempts {
      LastTryDecides(db, id, p, env, n, cut);
    } else {
      var delay, at := p.backoffSeconds[n - 1], env.clock(n);
      var a := NewAttempt(id, n, AttemptFailed, at, Some(at + delay), Some(ErrorOf(env.primary(n))));
      NextRecord(db, id, a);
      FailedTryOf(id, p, env, n);
      LoopDecides(Append(db, a), id, p, env, n + 1, cut - 3);
      DecidedAfter(db, Append(db, a), id, p, env, a, Loop(Append(db, a), id, p, env, n + 1, cut - 3));
    }
  }

  lemma FailedTryOf(id: IntentId, p: Policy, env: Env, n: nat)
    requires ValidPolicy(p) && 1 <= n < p.maxAttempts && !env.primary(n).Accepts?
    ensures FailedTry(id, p, env, NewAttempt(id, n, AttemptFailed, env.clock(n),
            Some(env.clock(n) + p.backoffSeconds[n - 1]),
                Some(ErrorOf(env.primary(n)))), n)
  {
  }

  lemma BlockDecides(db: Db, id: IntentId, p: Policy, env: Env, cut: nat)
    requires ValidPolicy(p) && Ready(db, id, p) && !Done(db, id) && cut >= 1
    requires |AttemptsOf(db, id)| == p.maxAttempts && !Reserve(db, id, p, env)
    ensures Decided(db, id, p, env, Block(db, id, env.clock(p.maxAttempts + 1), cut))
  {
    hide Filter, Scheduled;
    var o := Block(db, id, env.clock(p.maxAttempts + 1), cut);
    ScheduledStep(p, p.maxAttempts);
    assert AttemptsOf(o.db, id) == AttemptsOf(db, id);
    assert RowsConsistent(db, id);
    var rows := AttemptsOf(db, id);
    var n := p.maxAttempts + 1;
    assert forall k: nat :: !AcceptsFirst(p, env, n, k);
  }

  /** One call on an open intent, with enough effects left: which reply, which rows and how much sleep follow from
      the callbacks' answers alone. */
  lemma DeliveryDecided(db: Db, id: IntentId, p: Policy, env: Env, cut: nat)
    requires ValidPolicy(p) && Ready(db, id, p) && !Done(db, id) && cut >= 3 * p.maxAttempts + 1
    ensures Decided(db, id, p, env, Deliver(db, id, p, env, cut))
  {
    hide Filter, AttemptsOf, WellFormed, OwnIds, Loop, Fallback, Block, Scheduled;
    var n := |AttemptsOf(db, id)| + 1;
    if n <= p.maxAttempts {
      LoopDecides(db, id, p, env, n, cut);
    } else if Reserve(db, id, p, env) {
      FallbackDecides(db, id, p, env, n, cut);
      ScheduledStep(p, p.maxAttempts);
      assert forall k: nat :: !AcceptsFirst(p, env, n, k);
    } else {
      BlockDecides(db, id, p, env, cut);
    }
  }
}
