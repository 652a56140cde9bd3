/** The runtime store and the control engine as objects: the cancellation path runs against them and is
    proved equal to the controller's steps taken one after the other. */
module CancellationStore {
  import opened Results
  import opened Sequences
  import opened Cancellation

  /** A write that lands between a controller's read and its swap, if it is one the runtime may make. */
  function Raced(s: Store, runId: string, racing: Option<Versioned>): Store {
    if racing.Some? && runId in s.runs && RuntimeWrite(s.runs[runId], racing.value)
    then s.(runs := s.runs[runId := racing.value]) else s
  }

  /** Where the lookups and the first read leave a command. */
  function Approach(s: Store, intent: Intent): Pc {
    var pc := Lookup(s, intent);
    if pc.Reading? then Step(s, pc).1 else pc
  }

  /** One whole call, with at most one foreign write before the swap. */
  function Call(s: Store, intent: Intent, racing: Option<Versioned>): (Store, Pc) {
    var pc := Approach(s, intent);
    Finish(if pc.Swapping? then Raced(s, intent.runId, racing) else s, pc)
  }

  predicate Answers(pc: Pc, r: Result<ControlResult, CancelError>) {
    match pc
    case Replied(_, result) => r == Ok(result)
    case Failed(_, error) => r == Err(error)
    case _ => false
  }

  /** Runs are stored under their own identity. */
  predicate Keyed(s: Store) {
    forall r :: r in s.runs ==> s.runs[r].state.runId == r
  }

  lemma {:induction false} FinishEnds(s: Store, pc: Pc)
    ensures Rank(Finish(s, pc).1) == 0
    decreases Rank(pc)
  {
    hide Step, Finish;
    if Rank(pc) == 0 {
      FinishDone(s, pc);
    } else {
      FinishOnce(s, pc);
      StepMakesProgress(s, pc);
      FinishEnds(Step(s, pc).0, Step(s, pc).1);
    }
  }

  lemma {:induction false} FinishStep(s: Store, pc: Pc, next: Store, after: Pc)
    requires Rank(pc) > 0 && Step(s, pc) == (next, after)
    ensures Finish(s, pc) == Finish(next, after)
    ensures Rank(after) == 0 ==> Finish(s, pc) == (next, after)
  {
    hide Finish;
    FinishOnce(s, pc);
    if Rank(after) == 0 {
      FinishDone(next, after);
    }
  }

  /** Without interference a call is the plain run of its controller. */
  lemma UndisturbedCall(s: Store, intent: Intent)
    ensures Call(s, intent, None) == Finish(s, LookingUp(intent))
  {
    hide Finish, Map, Filter;
    var p1 := Step(s, LookingUp(intent)).1;
    FinishStep(s, LookingUp(intent), s, p1);
    if p1.LookingUpSidecar? {
      FinishStep(s, p1, s, Step(s, p1).1);
    }
    var p2 := if p1.LookingUpSidecar? then Step(s, p1).1 else p1;
    if p2.Reading? {
      FinishStep(s, p2, s, Step(s, p2).1);
    }
  }

  class StateStore {
    var runs: map<string, Versioned>
    var journals: map<string, seq<JournalRecord>>
    var dedupe: map<string, Stored>

    function Contents(): Store
      reads this
    {
      Store(runs, journals, dedupe)
    }

    constructor ()
      ensures Contents() == Store(map[], map[], map[]) && Keyed(Contents())
    {
      runs, journals, dedupe := map[], map[], map[];
    }

    /** Compare and swap on the version. */
    method PutRun(value: Versioned, expectedVersion: int) returns (r: Result<Versioned, CancelError>)
      modifies this
      ensures var key := value.state.runId;
              var cur := if key in old(runs) then old(runs)[key].version else -1;
              if cur == expectedVersion
              then r == Ok(value) && Contents() == old(Contents()).(runs := old(runs)[key := value])
              else r == Err(ConcurrentState) && Contents() == old(Contents())
    {
      var curVersion := if value.state.runId in runs then runs[value.state.runId].version else -1;
      if curVersion != expectedVersion {
        return Err(ConcurrentState);
      }
      runs := runs[value.state.runId := value];
      return Ok(value);
    }

    method JournalAppend(runId: string, record: JournalRecord)
      modifies this
      ensures runs == old(runs) && dedupe == old(dedupe)
      ensures journals == old(journals)[runId := (if runId in old(journals) then old(journals)[runId] else [])
              + [record]]
    {
      var recs := if runId in journals then journals[runId] else [];
      journals := journals[runId := recs + [record]];
    }

    method SyncJournalPosition(runId: string, expectedVersion: int) returns (ok: bool)
      modifies this
      ensures ok <==> runId !in old(runs) || old(runs)[runId].version == expectedVersion
      ensures Contents() == if ok && runId in old(runs)
                            then old(Contents()).(runs := old(runs)[runId := old(runs)[runId].(meta :=
                                   old(runs)[runId].meta.(journalPosition := LastIndex(old(Contents()), runId)))])
                            else old(Contents())
    {
      if runId !in runs {
        return true;
      }
      var rs := runs[runId];
      if rs.version != expectedVersion {
        return false;
      }
      var durable := LastIndex(Contents(), runId);
      if rs.meta.journalPosition == durable {
        assert runs[runId := rs] == runs;
        return true;
      }
      runs := runs[runId := rs.(meta := rs.meta.(journalPosition := durable))];
      return true;
    }

    method DedupePut(key: string, stored: Stored)
      modifies this
      ensures Contents() == old(Contents()).(dedupe := old(dedupe)[key := stored])
    {
      dedupe := dedupe[key := stored];
    }
  }

  /** The loop over the lease table: active leases of the run are revoked and collected. */
  method RevokeLeases(runId: string, leases: seq<Lease>) returns (kept: seq<Lease>, revoked: seq<string>)
    ensures kept == Map(RevokeFor(runId), leases)
    ensures revoked == Map(LeaseIdOf(), Filter(ActiveFor(runId), leases))
  {
    hide Map, Filter;
    kept, revoked := [], [];
    MapEmpty(RevokeFor(runId));
    FilterEmpty(ActiveFor(runId));
    MapEmpty(LeaseIdOf());
    for i := 0 to |leases|
      invariant kept == Map(RevokeFor(runId), leases[..i])
      invariant revoked == Map(LeaseIdOf(), Filter(ActiveFor(runId), leases[..i]))
    {
      assert leases[..i + 1] == leases[..i] + [leases[i]];
      MapAppend(RevokeFor(runId), leases[..i], leases[i]);
      FilterAppend(ActiveFor(runId), leases[..i], leases[i]);
      if leases[i].runId == runId && leases[i].status.Active? {
        MapAppend(LeaseIdOf(), Filter(ActiveFor(runId), leases[..i]), leases[i]);
        kept := kept + [leases[i].(status := Revoked)];
        revoked := revoked + [leases[i].leaseId];
      } else {
        assert Filter(ActiveFor(runId), leases[..i + 1]) == Filter(ActiveFor(runId), leases[..i]);
        kept := kept + [leases[i]];
      }
    }
    assert leases[..|leases|] == leases;
  }

  /** The loop over the attempt registry: open attempts of the run are cancelled and collected. */
  method CancelAttempts(runId: string, attempts: seq<AttemptRecord>)
      returns (kept: seq<AttemptRecord>, cancelled: seq<string>)
    ensures kept == Map(CancelAttemptFor(runId), attempts)
    ensures cancelled == Map(AttemptIdOf(), Filter(OpenFor(runId), attempts))
  {
    hide Map, Filter;
    kept, cancelled := [], [];
    MapEmpty(CancelAttemptFor(runId));
    FilterEmpty(OpenFor(runId));
    MapEmpty(AttemptIdOf());
    for i := 0 to |attempts|
      invariant kept == Map(CancelAttemptFor(runId), attempts[..i])
      invariant cancelled == Map(AttemptIdOf(), Filter(OpenFor(runId), attempts[..i]))
    {
      var a := attempts[i];
      assert attempts[..i + 1] == attempts[..i] + [a];
      MapAppend(CancelAttemptFor(runId), attempts[..i], a);
      FilterAppend(OpenFor(runId), attempts[..i], a);
      if a.runId == runId && !a.status.NodeDone? && !a.status.NodeCancelled? {
        MapAppend(AttemptIdOf(), Filter(OpenFor(runId), attempts[..i]), a);
        kept := kept + [a.(currentLeaseId := None, status := NodeCancelled)];
        cancelled := cancelled + [a.attemptId];
      } else {
        assert Filter(OpenFor(runId), attempts[..i + 1]) == Filter(OpenFor(runId), attempts[..i]);
        kept := kept + [a];
      }
    }
    assert attempts[..|attempts|] == attempts;
  }

  method BuildSnapshot(current: Versioned) returns (next: Versioned, revoked: seq<string>, cancelled: seq<string>)
    ensures next == CancelledSnapshot(current) && revoked == RevokedIds(current) && cancelled == CancelledIds(current)
  {
    var state := KernelCancel(current.state);
    var leases, attempts;
    leases, revoked := RevokeLeases(state.runId, current.meta.leases);
    attempts, cancelled := CancelAttempts(state.runId, current.meta.attempts);
    next := Versioned(state.(activeLeases := []), current.version + 1,
        current.meta.(leases := leases, attempts := attempts));
  }

  /** Answer from a stored result, run meta first, then the sidecar; None when the command is new. */
  method LookupDurableResult(store: StateStore, intent: Intent) returns (r: Option<Result<ControlResult, CancelError>>)
    ensures var pc := Lookup(store.Contents(), intent);
            match r
            case None => pc == Reading(intent)
            case Some(answer) => Answers(pc, answer)
  {
    if intent.commandId.None? {
      return None;
    }
    var key := intent.commandId.value;
    var candidates: seq<Stored> := [];
    if intent.runId in store.runs && key in store.runs[intent.runId].meta.dedupe {
      candidates := candidates + [store.runs[intent.runId].meta.dedupe[key]];
    }
    if key in store.dedupe {
      candidates := candidates + [store.dedupe[key]];
    }
    if candidates == [] {
      return None;
    }
    var stored := candidates[0];
    return Some(if stored.fingerprint != intent then Err(CommandConflict) else Ok(stored.result));
  }

  /** Keep the reply of a losing command in the sidecar. */
  method Persist(store: StateStore, intent: Intent, result: ControlResult)
      returns (r: Result<ControlResult, CancelError>)
    requires intent.commandId.Some?
    modifies store
    ensures r == Ok(result)
    ensures (store.Contents(), Replied(intent, result)) ==
            Finish(old(store.Contents()), PersistingLoser(intent, result))
  {
    FinishStep(store.Contents(), PersistingLoser(intent, result),
               store.Contents().(dedupe := store.dedupe[intent.commandId.value := Stored(intent, result)]),
               Replied(intent, result));
    store.DedupePut(intent.commandId.value, Stored(intent, result));
    return Ok(result);
  }

  /** The tail of a won command: journal, position, sidecar. */
  method Conclude(store: StateStore, intent: Intent, current: Versioned, revoked: seq<string>, cancelled: seq<string>)
      returns (r: Result<ControlResult, CancelError>)
    requires revoked == RevokedIds(current) && cancelled == CancelledIds(current)
    modifies store
    ensures var (s, pc) := Finish(old(store.Contents()), Journaling(intent, current));
            store.Contents() == s && Answers(pc, r)
  {
    hide Finish, RevokedIds, CancelledIds;
    var version := current.version + 1;
    ghost var s0 := store.Contents();
    store.JournalAppend(intent.runId, JournalRecord(intent.commandId, intent.expectedVersion, version, revoked,
        cancelled));
    ghost var s1 := store.Contents();
    FinishStep(s0, Journaling(intent, current), s1, Syncing(intent, version));
    var synced := store.SyncJournalPosition(intent.runId, version);
    ghost var s2 := store.Contents();
    if !synced {
      FinishStep(s1, Syncing(intent, version), s2, Failed(intent, ConcurrentState));
      return Err(ConcurrentState);
    }
    FinishStep(s1, Syncing(intent, version), s2, PuttingSidecar(intent, version));
    var result := WinResult(intent, version);
    if intent.commandId.Some? {
      store.DedupePut(intent.commandId.value, Stored(intent, result));
    }
    FinishStep(s2, PuttingSidecar(intent, version), store.Contents(), Replied(intent, result));
    return Ok(result);
  }

  /** The losing side of the swap: read the winner back and turn the command into evidence. */
  method ReadBack(store: StateStore, intent: Intent) returns (r: Result<ControlResult, CancelError>)
    modifies store
    ensures var (s, pc) := Finish(old(store.Contents()), Rereading(intent));
            store.Contents() == s && Answers(pc, r)
  {
    hide Finish;
    ghost var s := store.Contents();
    ghost var next := Step(s, Rereading(intent)).1;
    FinishStep(s, Rereading(intent), s, next);
    if intent.runId in store.runs {
      var live := store.runs[intent.runId];
      if live.state.status.Completed? || live.state.status.RunFailed? {
        if intent.commandId.None? {
          return Err(TerminalRun);
        }
        r := Persist(store, intent, LoseResult(intent, live, TerminalWon));
        return r;
      }
      if live.state.status.RunCancelled? && intent.commandId.Some? {
        r := Persist(store, intent, LoseResult(intent, live, CancelAlreadyApplied));
        return r;
      }
    }
    return Err(StaleVersion);
  }

  /** Apply or replay one CANCEL command; `racing` is what another writer commits before the swap. */
  method ApplyIdempotentCancellation(store: StateStore, intent: Intent, racing: Option<Versioned>)
      returns (r: Result<ControlResult, CancelError>)
    requires Keyed(store.Contents())
    modifies store
    ensures var (s, pc) := Call(old(store.Contents()), intent, racing);
            store.Contents() == s && Answers(pc, r)
  {
    hide Finish, CancelledSnapshot, RevokedIds, CancelledIds;
    ghost var s0 := store.Contents();
    var prior := LookupDurableResult(store, intent);
    if prior.Some? {
      FinishDone(s0, Approach(s0, intent));
      return prior.value;
    }
    if intent.runId !in store.runs {
      FinishDone(s0, Approach(s0, intent));
      return Err(NoSuchRun);
    }
    var current := store.runs[intent.runId];
    if Final(current.state.status) {
      if intent.commandId.None? {
        FinishDone(s0, Approach(s0, intent));
        return Err(TerminalRun);
      }
      r := Persist(store, intent, LoseResult(intent, current, if current.state.status.RunCancelled?
        then CancelAlreadyApplied else TerminalWon));
      return r;
    }
    if current.version != intent.expectedVersion {
      FinishDone(s0, Approach(s0, intent));
      return Err(StaleVersion);
    }
    assert Approach(s0, intent) == Swapping(intent, current);
    var next, revoked, cancelled := BuildSnapshot(current);
    next := WithDurableResult(next, intent, WinResult(intent, current.version + 1));
    assert next == CancelWrite(intent, current);
    CancelWriteRetires(intent, current);
    if racing.Some? && RuntimeWrite(current, racing.value) {
      store.runs := store.runs[intent.runId := racing.value];
    }
    ghost var s1 := store.Contents();
    assert s1 == Raced(s0, intent.runId, racing);
    var committed := store.PutRun(next, intent.expectedVersion);
    FinishOnce(s1, Swapping(intent, current));
    if committed.Err? {
      r := ReadBack(store, intent);
    } else {
      r := Conclude(store, intent, current, revoked, cancelled);
    }
  }

  // ---- the engine around it ----

  /** What the engine answers: its own log first, by identity alone. */
  function EngineCall(log: map<string, ControlResult>, s: Store, intent: Intent, racing: Option<Versioned>): (Store,
      Pc) {
    if intent.commandId.Some? && intent.commandId.value in log then (s, Replied(intent, log[intent.commandId.value]))
    else Call(s, intent, racing)
  }

  class ControlEngine {
    const store: StateStore
    var applied: map<string, ControlResult>

    constructor (store: StateStore)
      ensures this.store == store && applied == map[]
    {
      this.store := store;
      applied := map[];
    }

    method Cancel(intent: Intent, racing: Option<Versioned>) returns (r: Result<ControlResult, CancelError>)
      requires Keyed(store.Contents())
      modifies this, store
      ensures var (s, pc) := EngineCall(old(applied), old(store.Contents()), intent, racing);
              store.Contents() == s && Answers(pc, r)
      ensures applied == if r.Ok? && intent.commandId.Some? then old(applied)[intent.commandId.value := r.value]
              else old(applied)
    {
      if intent.commandId.Some? && intent.commandId.value in applied {
        assert applied[intent.commandId.value := applied[intent.commandId.value]] == applied;
        return Ok(applied[intent.commandId.value]);
      }
      r := ApplyIdempotentCancellation(store, intent, racing);
      if r.Ok? && intent.commandId.Some? {
        applied := applied[intent.commandId.value := r.value];
      }
    }
  }

  /** The engine's log keeps no fingerprint: after an accepted cancellation, the same identity with other
      content on that run is refused exactly by the engines that have not answered the identity themselves. */
  lemma EngineRefusesReuseExactly(log: map<string, ControlResult>, s: Store, intent: Intent, result: ControlResult,
      other: Intent, racing: Option<Versioned>)
    requires intent.commandId.Some? && Durable(s, intent, result)
    requires other != intent && other.commandId == intent.commandId && other.runId == intent.runId
    ensures EngineCall(log, s, other, racing) == (s, Failed(other, CommandConflict)) <==> other.commandId.value !in log
  {
    hide Finish;
    if other.commandId.value !in log {
      FinishDone(s, Failed(other, CommandConflict));
    }
  }

  /** The genuine command is answered alike by every engine whose log is right. */
  lemma EngineReplays(log: map<string, ControlResult>, s: Store, intent: Intent, result: ControlResult,
      racing: Option<Versioned>)
    requires intent.commandId.Some? && Durable(s, intent, result)
    requires intent.commandId.value in log ==> log[intent.commandId.value] == result
    ensures EngineCall(log, s, intent, racing) == (s, Replied(intent, result))
  {
    hide Finish;
    FinishDone(s, Replied(intent, result));
  }
}
