/** The outbox object over its two tables, each method proved against the transaction it runs. */
module WakeupStore {
  import opened Results
  import opened Sequences
  import opened WakeupOutbox
  import opened WakeupDelivery

  class OutboxStore {
    var intents: map<IntentId, Intent>
    var attempts: seq<Attempt>

    function Tables(): Db
      reads this
    {
      Db(intents, attempts)
    }

    constructor ()
      ensures Tables() == Db(map[], []) && WellFormed(Tables())
    {
      intents := map[];
      attempts := [];
    }

    method CreateIntent(binding: Binding, verified: bool, createdAt: Time, retryAt: Option<Time>)
      returns (r: Result<Intent, OutboxError>)
      modifies this
      ensures (Tables(), r) == Create(old(Tables()), binding, verified, createdAt, retryAt)
    {
      if !verified {
        return Err(ContractMismatch);
      }
      var id := IntentIdOf(binding.key);
      if id in intents {
        if intents[id].binding != binding {
          return Err(DigestMismatch);
        }
        return Ok(intents[id]);
      }
      var candidate := Intent(binding, Pending, 0, retryAt, createdAt, createdAt);
      intents := intents[id := candidate];
      return Ok(candidate);
    }

    /** Rows of one intent, selected in table order. */
    method ListAttempts(id: IntentId) returns (rows: seq<Attempt>)
      ensures rows == AttemptsOf(Tables(), id)
    {
      rows := [];
      FilterEmpty(ForIntent(id));
      for n := 0 to |attempts|
        invariant rows == Filter(ForIntent(id), attempts[..n])
      {
        assert attempts[..n + 1] == attempts[..n] + [attempts[n]];
        FilterAppend(ForIntent(id), attempts[..n], attempts[n]);
        if attempts[n].intent == id {
          rows := rows + [attempts[n]];
        }
      }
      assert attempts[..|attempts|] == attempts;
    }

    /** The largest attempt number in use for an intent, 0 when there is none. */
    method MaxAttemptNumber(id: IntentId) returns (m: nat)
      ensures m == MaxNumber(AttemptsOf(Tables(), id))
    {
      var rows := ListAttempts(id);
      m := 0;
      for n := 0 to |rows|
        invariant m == MaxNumber(rows[..n])
      {
        assert rows[..n + 1][..n] == rows[..n];
        if rows[n].number > m {
          m := rows[n].number;
        }
      }
      assert rows[..|rows|] == rows;
    }

    method RecordDeliveryAttempt(a: Attempt) returns (r: Result<Attempt, OutboxError>)
      modifies this
      ensures (Tables(), r) == Record(old(Tables()), a)
    {
      if a.number == 0 {
        return Err(InvalidSequence);
      }
      if a.intent !in intents {
        return Err(ContractMismatch);
      }
      if exists i :: 0 <= i < |attempts| && attempts[i].id == a.id {
        if a !in attempts {
          return Err(DigestMismatch);
        }
        return Ok(a);
      }
      if exists i :: 0 <= i < |attempts| && attempts[i].intent == a.intent && attempts[i].number == a.number {
        return Err(InvalidSequence);
      }
      var maxNumber := MaxAttemptNumber(a.intent);
      if a.number != maxNumber + 1 {
        return Err(InvalidSequence);
      }
      attempts := attempts + [a];
      var updated := intents[a.intent].(state := StateAfter(a.state), attemptCount := a.number,
                                        nextAttemptAt := a.retryAt, updatedAt := a.attemptedAt);
      intents := intents[a.intent := updated];
      return Ok(a);
    }

    method Prepare(id: IntentId, retryAt: Time) returns (r: Result<Intent, OutboxError>)
      modifies this
      ensures (Tables(), r) == PrepareRetry(old(Tables()), id, retryAt)
    {
      if id !in intents {
        return Err(NotFound);
      }
      var current := intents[id];
      if current.state.Delivered? {
        return Ok(current);
      }
      var stored := current.(state := Pending, nextAttemptAt := Some(retryAt), updatedAt := retryAt);
      intents := intents[id := stored];
      return Ok(stored);
    }

    method MarkIntentBlocked(id: IntentId, updatedAt: Time) returns (r: Result<Intent, OutboxError>)
      modifies this
      ensures (Tables(), r) == MarkBlocked(old(Tables()), id, updatedAt)
    {
      if id !in intents {
        return Err(NotFound);
      }
      var current := intents[id];
      if Terminal(current.state) {
        return Ok(current);
      }
      r := UpdateBlocked(id, current, updatedAt);
    }

    /** The transaction of a block whose row was read before it began: the update is rolled back when the row it
        reads back has another binding or attempt count than the one observed. */
    method UpdateBlocked(id: IntentId, observed: Intent, updatedAt: Time) returns (r: Result<Intent, OutboxError>)
      modifies this
      ensures (Tables(), r) == CommitBlock(old(Tables()), id, observed, updatedAt)
    {
      if id !in intents {
        return Err(NotFound);
      }
      var before := intents;
      var row := intents[id].(state := WakeupOutbox.Blocked, nextAttemptAt := None, updatedAt := updatedAt);
      intents := intents[id := row];
      var stored := intents[id];
      if stored.binding != observed.binding || stored.attemptCount != observed.attemptCount {
        intents := before;
        return Err(DigestMismatch);
      }
      return Ok(stored);
    }

    /** Record one attempt and read the terminal reply back. */
    method RecordAndReply(a: Attempt) returns (reply: Reply)
      modifies this
      ensures var o := Finish(old(Tables()), a); Tables() == o.db && reply == o.reply
    {
      var r := RecordDeliveryAttempt(a);
      reply := if r.Err? then Raised(r.error) else ReplyFor(Tables(), a.intent);
    }

    method DeliverFallback(id: IntentId, n: nat, env: Env, cut: nat) returns (reply: Reply, callbacks: nat)
      modifies this
      ensures var o := Fallback(old(Tables()), id, n, env, cut);
              Tables() == o.db && reply == o.reply && callbacks == o.callbacks && o.slept == 0.0
    {
      if cut == 0 {
        return Crashed, 0;
      }
      var answer := env.fallback(n);
      callbacks := 1;
      if cut == 1 {
        return Crashed, 1;
      }
      if answer.Accepts? {
        reply := RecordAndReply(NewAttempt(id, n, AttemptDelivered, env.clock(n), None, Some(FallbackDelivered)));
      } else {
        reply := RecordAndReply(NewAttempt(id, n, AttemptBlocked, env.clock(n), None, Some(DeliveryBlocked)));
      }
    }

    /** The bounded retry loop. */
    method RetryLoop(id: IntentId, p: Policy, env: Env, first: nat, cut: nat)
        returns (reply: Reply, slept: real, callbacks: nat)
      requires ValidPolicy(p) && id in intents && 1 <= first <= p.maxAttempts
      modifies this
      ensures Outcome(Tables(), reply, slept, callbacks) == Loop(old(Tables()), id, p, env, first, cut)
    {
      hide Record, ReplyFor, Finish, Fallback;
      var n, left := first, cut;
      slept, callbacks := 0.0, 0;
      ghost var start := Tables();
      while true
        invariant id in intents && first <= n <= p.maxAttempts
        invariant After(Loop(Tables(), id, p, env, n, left), slept, callbacks) == Loop(start, id, p, env, first, cut)
        decreases p.maxAttempts - n
      {
        if Terminal(intents[id].state) {
          return ReplyFor(Tables(), id), slept, callbacks;
        }
        if left == 0 {
          return Crashed, slept, callbacks;
        }
        var at := env.clock(n);
        var answer := env.primary(n);
        if left == 1 {
          return Crashed, slept, callbacks + 1;
        }
        if answer.Accepts? {
          FinishEffects(Tables(), NewAttempt(id, n, AttemptDelivered, at, None, None));
          reply := RecordAndReply(NewAttempt(id, n, AttemptDelivered, at, None, None));
          return reply, slept, callbacks + 1;
        }
        if n == p.maxAttempts {
          var c;
          reply, c := LastTry(id, p, env, left);
          return reply, slept, callbacks + c;
        }
        var delay := p.backoffSeconds[n - 1];
        var r := RecordDeliveryAttempt(NewAttempt(id, n, AttemptFailed, at, Some(at + delay), Some(ErrorOf(answer))));
        if r.Err? {
          return Raised(r.error), slept, callbacks + 1;
        }
        if left == 2 {
          return Crashed, slept, callbacks + 1;
        }
        slept, callbacks := slept + delay, callbacks + 1;
        n, left := n + 1, left - 3;
      }
    }

    /** The last primary attempt has failed: fall back or block. */
    method LastTry(id: IntentId, p: Policy, env: Env, cut: nat) returns (reply: Reply, callbacks: nat)
      requires ValidPolicy(p) && id in intents && !Terminal(intents[id].state)
      requires cut >= 2 && !env.primary(p.maxAttempts).Accepts?
      modifies this
      ensures Outcome(Tables(), reply, 0.0, callbacks) == Loop(old(Tables()), id, p, env, p.maxAttempts, cut)
    {
      hide Record, ReplyFor, Fallback;
      var n := p.maxAttempts;
      var at, code := env.clock(n), ErrorOf(env.primary(n));
      if FallbackReady(intents[id], p, env) {
        var r := RecordDeliveryAttempt(NewAttempt(id, n, AttemptFailed, at, None, Some(code)));
        if r.Err? {
          return Raised(r.error), 1;
        }
        FallbackNeverSleeps(Tables(), id, n + 1, env, cut - 2);
        reply, callbacks := DeliverFallback(id, n + 1, env, cut - 2);
        callbacks := callbacks + 1;
      } else {
        reply := RecordAndReply(NewAttempt(id, n, AttemptBlocked, at, None, Some(DeliveryBlocked)));
        callbacks := 1;
      }
    }

    method DeliverWithRetry(id: IntentId, p: Policy, env: Env, cut: nat)
        returns (reply: Reply, slept: real, callbacks: nat)
      requires ValidPolicy(p)
      modifies this
      ensures Outcome(Tables(), reply, slept, callbacks) == Deliver(old(Tables()), id, p, env, cut)
    {
      hide Record, ReplyFor, Loop, Fallback, AttemptsOf;
      slept, callbacks := 0.0, 0;
      if id !in intents {
        return Raised(NotFound), 0.0, 0;
      }
      if Terminal(intents[id].state) {
        return ReplyFor(Tables(), id), 0.0, 0;
      }
      var rows := ListAttempts(id);
      var n := |rows| + 1;
      if n > p.maxAttempts {
        if FallbackReady(intents[id], p, env) {
          FallbackNeverSleeps(Tables(), id, n, env, cut);
          reply, callbacks := DeliverFallback(id, n, env, cut);
          return;
        }
        if cut == 0 {
          return Crashed, 0.0, 0;
        }
        var blocked := MarkIntentBlocked(id, env.clock(n));
        return if blocked.Err? then Raised(blocked.error) else ReplyFor(Tables(), id), 0.0, 0;
      }
      reply, slept, callbacks := RetryLoop(id, p, env, n, cut);
    }
  }

  lemma FinishEffects(db: Db, a: Attempt)
    ensures Finish(db, a).slept == 0.0 && Finish(db, a).callbacks == 1
  {
  }

  lemma FallbackNeverSleeps(db: Db, id: IntentId, n: nat, env: Env, cut: nat)
    ensures Fallback(db, id, n, env, cut).slept == 0.0
  {
  }
}
