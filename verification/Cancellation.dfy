/** Cancellation under compare-and-swap: any number of controllers racing each other and the
    runtime's own writers, one atomic store operation at a time. */
module Cancellation {
  import opened Results
  import opened Sequences

  datatype RunStatus = Created | Planned | Running | Paused | RunBlocked | Completed | RunFailed | RunCancelled

  datatype NodeStatus =
    | NodePending | Ready | Claimed | NodeRunning | Reviewing | Mixing | NodeDone
    | NodeBlocked | NodeFailed | RetryReady | LeaseExpired | NodeCancelled

  datatype LeaseStatus = Active | Released | Revoked | Expired

  datatype Lease = Lease(leaseId: string, runId: string, attemptId: string, fencingToken: string, status: LeaseStatus)

  datatype AttemptRecord = AttemptRecord(attemptId: string, runId: string, currentLeaseId: Option<string>,
      status: NodeStatus)

  datatype TeamRun = TeamRun(runId: string, status: RunStatus, nodes: map<string, NodeStatus>,
      activeLeases: seq<string>, planVersion: string)

  /** A CANCEL intent. Its fingerprint is the whole command. */
  datatype Intent = Intent(runId: string, expectedVersion: int, commandId: Option<string>, contracts: seq<string>)

  datatype Detail = CancelWon | TerminalWon | CancelAlreadyApplied

  datatype ControlResult = ControlResult(
    runId: string, accepted: bool, newVersion: int, status: RunStatus, detail: Detail, commandId: Option<string>)

  datatype Stored = Stored(fingerprint: Intent, result: ControlResult)

  /** Runtime side data; the dictionaries of leases and attempts in insertion order. */
  datatype Meta = Meta(leases: seq<Lease>, attempts: seq<AttemptRecord>, dedupe: map<string, Stored>,
      journalPosition: int)

  datatype Versioned = Versioned(state: TeamRun, version: int, meta: Meta)

  datatype JournalRecord = JournalRecord(
    commandId: Option<string>, fromVersion: int, toVersion: int, revokedLeaseIds: seq<string>,
    cancelledAttemptIds: seq<string>)

  datatype Store = Store(runs: map<string, Versioned>, journals: map<string, seq<JournalRecord>>,
      dedupe: map<string, Stored>)

  datatype CancelError = CommandConflict | NoSuchRun | TerminalRun | StaleVersion | ConcurrentState

  predicate Final(status: RunStatus) {
    status.Completed? || status.RunFailed? || status.RunCancelled?
  }

  // ---- the cancelled snapshot ----

  function RevokeFor(runId: string): Lease -> Lease {
    (l: Lease) => if l.runId == runId && l.status.Active? then l.(status := Revoked) else l
  }

  function ActiveFor(runId: string): Lease -> bool {
    (l: Lease) => l.runId == runId && l.status.Active?
  }

  function LeaseIdOf(): Lease -> string {
    (l: Lease) => l.leaseId
  }

  function CancelAttemptFor(runId: string): AttemptRecord -> AttemptRecord {
    (a: AttemptRecord) => if a.runId == runId && !a.status.NodeDone? && !a.status.NodeCancelled?
      then a.(currentLeaseId := None, status := NodeCancelled) else a
  }

  function OpenFor(runId: string): AttemptRecord -> bool {
    (a: AttemptRecord) => a.runId == runId && !a.status.NodeDone? && !a.status.NodeCancelled?
  }

  function AttemptIdOf(): AttemptRecord -> string {
    (a: AttemptRecord) => a.attemptId
  }

  /** The kernel's cancel: DONE nodes stay, every other node is cancelled. */
  function KernelCancel(run: TeamRun): TeamRun {
    run.(status := RunCancelled, nodes := map n | n in run.nodes ::
        if run.nodes[n].NodeDone? then NodeDone else NodeCancelled)
  }

  function CancelledSnapshot(cur: Versioned): Versioned {
    var runId := cur.state.runId;
    Versioned(
      KernelCancel(cur.state).(activeLeases := []), cur.version + 1,
      cur.meta.(leases := Map(RevokeFor(runId), cur.meta.leases),
          attempts := Map(CancelAttemptFor(runId), cur.meta.attempts)))
  }

  function RevokedIds(cur: Versioned): seq<string> {
    Map(LeaseIdOf(), Filter(ActiveFor(cur.state.runId), cur.meta.leases))
  }

  function CancelledIds(cur: Versioned): seq<string> {
    Map(AttemptIdOf(), Filter(OpenFor(cur.state.runId), cur.meta.attempts))
  }

  function WinResult(intent: Intent, version: int): ControlResult {
    ControlResult(intent.runId, true, version, RunCancelled, CancelWon, intent.commandId)
  }

  function LoseResult(intent: Intent, cur: Versioned, detail: Detail): ControlResult {
    ControlResult(intent.runId, false, cur.version, cur.state.status, detail, intent.commandId)
  }

  function WithDurableResult(next: Versioned, intent: Intent, result: ControlResult): Versioned {
    match intent.commandId
    case None => next
    case Some(key) => next.(meta := next.meta.(dedupe := next.meta.dedupe[key := Stored(intent, result)]))
  }

  /** The value a winning controller writes. */
  function CancelWrite(intent: Intent, cur: Versioned): Versioned {
    WithDurableResult(CancelledSnapshot(cur), intent, WinResult(intent, cur.version + 1))
  }

  /** Nothing of the run stays live after the write: no active lease, no open attempt; finished work is kept. */
  lemma CancelWriteRetires(intent: Intent, cur: Versioned)
    ensures var next := CancelWrite(intent, cur);
            && next.version == cur.version + 1 && next.state.status.RunCancelled? && next.state.runId == cur.state.runId
            && next.state.activeLeases == []
            && |next.meta.leases| == |cur.meta.leases| && |next.meta.attempts| == |cur.meta.attempts|
            && (forall l :: l in next.meta.leases ==> !(l.runId == cur.state.runId && l.status.Active?))
            && (forall i :: 0 <= i < |cur.meta.leases| ==>
                  var l := cur.meta.leases[i];
                  next.meta.leases[i] ==
                  if l.runId == cur.state.runId && l.status.Active? then l.(status := Revoked) else l)
            && (forall i :: 0 <= i < |cur.meta.attempts| && cur.meta.attempts[i].runId != cur.state.runId ==>
                  next.meta.attempts[i] == cur.meta.attempts[i])
            && (forall a :: a in next.meta.attempts && a.status.NodeCancelled? && a !in cur.meta.attempts ==>
                  a.currentLeaseId.None?)
            && (forall a :: a in next.meta.attempts && a.runId == cur.state.runId ==>
                  a.status.NodeDone? || a.status.NodeCancelled?)
            && (forall i :: 0 <= i < |cur.meta.attempts| && cur.meta.attempts[i].status.NodeDone? ==>
                  next.meta.attempts[i] == cur.meta.attempts[i])
            && next.state.nodes.Keys == cur.state.nodes.Keys
            && (forall n :: n in cur.state.nodes ==>
                  next.state.nodes[n] == if cur.state.nodes[n].NodeDone? then NodeDone else NodeCancelled)
  {
    var next := CancelWrite(intent, cur);
    var leases, attempts := Map(RevokeFor(cur.state.runId), cur.meta.leases),
    Map(CancelAttemptFor(cur.state.runId), cur.meta.attempts);
    assert next.meta.leases == leases && next.meta.attempts == attempts;
    forall l | l in leases ensures !(l.runId == cur.state.runId && l.status.Active?) {
      var i :| 0 <= i < |leases| && leases[i] == l;
    }
    forall a | a in attempts && a.runId == cur.state.runId ensures a.status.NodeDone? || a.status.NodeCancelled? {
      var i :| 0 <= i < |attempts| && attempts[i] == a;
    }
    forall i | 0 <= i < |cur.meta.attempts| && cur.meta.attempts[i].status.NodeDone?
      ensures attempts[i] == cur.meta.attempts[i] {
    }
  }

  /** Position `i` of the lease table is rewritten. */
  predicate LeaseChanged(cur: Versioned, i: nat) {
    i < |cur.meta.leases| && CancelledSnapshot(cur).meta.leases[i] != cur.meta.leases[i]
  }

  /** Position `i` of the attempt registry is cancelled. */
  predicate AttemptChanged(cur: Versioned, i: nat) {
    i < |cur.meta.attempts| && CancelledSnapshot(cur).meta.attempts[i].status != cur.meta.attempts[i].status
  }

  /** The journal names exactly the leases and the attempts that the write changed. */
  lemma JournalNamesChanges(intent: Intent, cur: Versioned, id: string)
    ensures CancelWrite(intent, cur).meta.leases == CancelledSnapshot(cur).meta.leases
    ensures CancelWrite(intent, cur).meta.attempts == CancelledSnapshot(cur).meta.attempts
    ensures id in RevokedIds(cur) <==> exists i: nat :: LeaseChanged(cur, i) && cur.meta.leases[i].leaseId == id
    ensures id in CancelledIds(cur) <==> exists i: nat :: AttemptChanged(cur, i) && cur.meta.attempts[i].attemptId == id
  {
    hide Map, Filter;
    RevokedAreChanged(cur, id);
    CancelledAreChanged(cur, id);
  }

  lemma RevokedAreChanged(cur: Versioned, id: string)
    ensures id in RevokedIds(cur) <==> exists i: nat :: LeaseChanged(cur, i) && cur.meta.leases[i].leaseId == id
  {
    hide Map, Filter;
    var run, leases := cur.state.runId, cur.meta.leases;
    var active := Filter(ActiveFor(run), leases);
    if id in RevokedIds(cur) {
      var k :| 0 <= k < |active| && Map(LeaseIdOf(), active)[k] == id;
      assert active[k] in active && ActiveFor(run)(active[k]);
      var i: nat :| i < |leases| && leases[i] == active[k];
      assert Map(RevokeFor(run), leases)[i] == RevokeFor(run)(leases[i]);
      assert LeaseChanged(cur, i) && leases[i].leaseId == id;
    }
    if i: nat :| LeaseChanged(cur, i) && leases[i].leaseId == id {
      assert Map(RevokeFor(run), leases)[i] == RevokeFor(run)(leases[i]);
      assert ActiveFor(run)(leases[i]) && leases[i] in active;
      MapMember(LeaseIdOf(), active, leases[i]);
    }
  }

  lemma CancelledAreChanged(cur: Versioned, id: string)
    ensures id in CancelledIds(cur) <==> exists i: nat :: AttemptChanged(cur, i) && cur.meta.attempts[i].attemptId == id
  {
    hide Map, Filter;
    var run, attempts := cur.state.runId, cur.meta.attempts;
    var open := Filter(OpenFor(run), attempts);
    if id in CancelledIds(cur) {
      var k :| 0 <= k < |open| && Map(AttemptIdOf(), open)[k] == id;
      assert open[k] in open && OpenFor(run)(open[k]);
      var i: nat :| i < |attempts| && attempts[i] == open[k];
      assert Map(CancelAttemptFor(run), attempts)[i] == CancelAttemptFor(run)(attempts[i]);
      assert AttemptChanged(cur, i) && attempts[i].attemptId == id;
    }
    if i: nat :| AttemptChanged(cur, i) && attempts[i].attemptId == id {
      assert Map(CancelAttemptFor(run), attempts)[i] == CancelAttemptFor(run)(attempts[i]);
      assert OpenFor(run)(attempts[i]) && attempts[i] in open;
      MapMember(AttemptIdOf(), open, attempts[i]);
    }
  }

  /** What the winner appends to the journal of its run, and to no other. */
  lemma JournalExactly(s: Store, intent: Intent, cur: Versioned)
    ensures var after := Step(s, Journaling(intent, cur)).0;
            && after.runs == s.runs && after.dedupe == s.dedupe && intent.runId in after.journals
            && (forall r :: r != intent.runId ==>
                  (r in after.journals <==> r in s.journals)
                      && (r in s.journals ==> after.journals[r] == s.journals[r]))
            && var log := after.journals[intent.runId];
               && |log| == (if intent.runId in s.journals then |s.journals[intent.runId]| else 0) + 1
               && (intent.runId in s.journals ==> s.journals[intent.runId] <= log)
               && var last := log[|log| - 1];
                  && last.commandId == intent.commandId && last.fromVersion == intent.expectedVersion
                  && last.toVersion == cur.version + 1 && last.revokedLeaseIds == RevokedIds(cur)
                  && last.cancelledAttemptIds == CancelledIds(cur)
  {
    hide RevokedIds, CancelledIds, CancelWrite;
  }

  // ---- one controller, one atomic store operation per step ----

  datatype Pc =
    | LookingUp(intent: Intent)
    | LookingUpSidecar(intent: Intent)
    | Reading(intent: Intent)
    | Swapping(intent: Intent, current: Versioned)
    | Rereading(intent: Intent)
    | PersistingLoser(intent: Intent, result: ControlResult)
    | Journaling(intent: Intent, snapshot: Versioned)
    | Syncing(intent: Intent, version: int)
    | PuttingSidecar(intent: Intent, version: int)
    | Replied(intent: Intent, result: ControlResult)
    | Failed(intent: Intent, error: CancelError)

  function Rank(pc: Pc): nat {
    match pc
    case LookingUp(_) => 9
    case LookingUpSidecar(_) => 8
    case Reading(_) => 7
    case Swapping(_, _) => 6
    case Rereading(_) => 5
    case PersistingLoser(_, _) => 4
    case Journaling(_, _) => 3
    case Syncing(_, _) => 2
    case PuttingSidecar(_, _) => 1
    case _ => 0
  }

  function Recognize(intent: Intent, stored: Stored): Pc {
    if stored.fingerprint != intent then Failed(intent, CommandConflict) else Replied(intent, stored.result)
  }

  /** A run that is already final answers the command without any mutation. */
  function Lose(intent: Intent, cur: Versioned): Pc
    requires Final(cur.state.status)
  {
    if intent.commandId.None? then Failed(intent, TerminalRun)
    else PersistingLoser(intent, LoseResult(intent, cur, if cur.state.status.RunCancelled? then CancelAlreadyApplied
      else TerminalWon))
  }

  function LastIndex(s: Store, runId: string): int {
    if runId in s.journals then |s.journals[runId]| - 1 else -1
  }

  function Step(s: Store, pc: Pc): (Store, Pc) {
    match pc
    case LookingUp(i) =>
      if i.commandId.None? then (s, Reading(i))
      else if i.runId in s.runs && i.commandId.value in s.runs[i.runId].meta.dedupe then
        (s, Recognize(i, s.runs[i.runId].meta.dedupe[i.commandId.value]))
      else (s, LookingUpSidecar(i))
    case LookingUpSidecar(i) =>
      if i.commandId.Some? && i.commandId.value in s.dedupe then (s, Recognize(i, s.dedupe[i.commandId.value]))
      else (s, Reading(i))
    case Reading(i) =>
      if i.runId !in s.runs then (s, Failed(i, NoSuchRun))
      else
        var cur := s.runs[i.runId];
        if Final(cur.state.status) then (s, Lose(i, cur))
        else if cur.version != i.expectedVersion then (s, Failed(i, StaleVersion))
        else (s, Swapping(i, cur))
    case Swapping(i, cur) =>
      if i.runId in s.runs && s.runs[i.runId].version == i.expectedVersion then
        (s.(runs := s.runs[i.runId := CancelWrite(i, cur)]), Journaling(i, cur))
      else (s, Rereading(i))
    case Rereading(i) =>
      if i.runId in s.runs && (s.runs[i.runId].state.status.Completed? || s.runs[i.runId].state.status.RunFailed?
                               || (s.runs[i.runId].state.status.RunCancelled? && i.commandId.Some?))
      then (s, Lose(i, s.runs[i.runId]))
      else (s, Failed(i, StaleVersion))
    case PersistingLoser(i, result) =>
      (if i.commandId.Some? then s.(dedupe := s.dedupe[i.commandId.value := Stored(i, result)])
        else s, Replied(i, result))
    case Journaling(i, cur) =>
      var record := JournalRecord(i.commandId, i.expectedVersion, cur.version + 1, RevokedIds(cur), CancelledIds(cur));
      var log := if i.runId in s.journals then s.journals[i.runId] else [];
      (s.(journals := s.journals[i.runId := log + [record]]), Syncing(i, cur.version + 1))
    case Syncing(i, version) =>
      if i.runId !in s.runs then (s, PuttingSidecar(i, version))
      else
        var run := s.runs[i.runId];
        if run.version != version then (s, Failed(i, ConcurrentState))
        else (s.(runs := s.runs[i.runId := run.(meta := run.meta.(journalPosition := LastIndex(s, i.runId)))]),
            PuttingSidecar(i, version))
    case PuttingSidecar(i, version) =>
      var result := WinResult(i, version);
      (if i.commandId.Some? then s.(dedupe := s.dedupe[i.commandId.value := Stored(i, result)])
        else s, Replied(i, result))
    case _ => (s, pc)
  }

  lemma StepMakesProgress(s: Store, pc: Pc)
    requires Rank(pc) > 0
    ensures Rank(Step(s, pc).1) < Rank(pc)
    ensures Step(s, pc).1.intent == pc.intent
  {
  }

  // ---- the world ----

  /** A write by the rest of the runtime: one version up, final statuses are absorbing and
      recorded command results are carried along; it may be a cancellation by another path. */
  predicate RuntimeWrite(cur: Versioned, next: Versioned) {
    && next.version == cur.version + 1 && next.state.runId == cur.state.runId
    && (Final(cur.state.status) ==> next.state.status == cur.state.status)
    && next.meta.dedupe == cur.meta.dedupe
  }

  datatype Event =
    | Start(controller: nat, intent: Intent)
    | Advance(controller: nat)
    | Crash(controller: nat)
    | Write(runId: string, next: Versioned)

  /** `accepted` is the history of winning swaps, in order. */
  datatype World = World(store: Store, controllers: map<nat, Pc>, accepted: seq<(Intent, ControlResult)>)

  predicate Swaps(s: Store, pc: Pc) {
    pc.Swapping? && pc.intent.runId in s.runs && s.runs[pc.intent.runId].version == pc.intent.expectedVersion
  }

  function Apply(w: World, e: Event): World {
    match e
    case Start(c, intent) => if c in w.controllers && Rank(w.controllers[c]) > 0 then w
      else w.(controllers := w.controllers[c := LookingUp(intent)])
    case Advance(c) =>
      if c !in w.controllers then w
      else
        var pc := w.controllers[c];
        var (store, next) := Step(w.store, pc);
        World(store, w.controllers[c := next],
              if Swaps(w.store, pc) then w.accepted + [(pc.intent, WinResult(pc.intent, pc.current.version + 1))]
                else w.accepted)
    case Crash(c) => w.(controllers := w.controllers - {c})
    case Write(runId, next) =>
      if runId in w.store.runs && RuntimeWrite(w.store.runs[runId], next)
        then w.(store := w.store.(runs := w.store.runs[runId := next])) else w
  }

  function RunEvents(w: World, events: seq<Event>): World {
    if events == [] then w else Apply(RunEvents(w, events[..|events| - 1]), events[|events| - 1])
  }

  /** An accepted command is final, and its reply is readable from the run itself. */
  predicate Durable(s: Store, intent: Intent, result: ControlResult) {
    && intent.runId in s.runs
    && s.runs[intent.runId].state.status.RunCancelled?
    && s.runs[intent.runId].version >= result.newVersion
    && result == WinResult(intent, intent.expectedVersion + 1)
    && (intent.commandId.Some? ==>
          && intent.commandId.value in s.runs[intent.runId].meta.dedupe
          && s.runs[intent.runId].meta.dedupe[intent.commandId.value] == Stored(intent, result))
  }

  /** A pending swap was computed from an open run, and nothing moved if the version still agrees. */
  predicate SwapSound(s: Store, pc: Pc) {
    pc.Swapping? ==>
      && pc.current.version == pc.intent.expectedVersion && !Final(pc.current.state.status)
      && pc.intent.runId in s.runs
      && s.runs[pc.intent.runId].version >= pc.current.version
      && (s.runs[pc.intent.runId].version == pc.current.version ==>
            && s.runs[pc.intent.runId].state == pc.current.state
            && s.runs[pc.intent.runId].meta.(journalPosition := pc.current.meta.journalPosition) == pc.current.meta)
  }

  ghost predicate Inv(w: World) {
    && (forall k :: 0 <= k < |w.accepted| ==> Durable(w.store, w.accepted[k].0, w.accepted[k].1))
    && (forall j, k :: 0 <= j < k < |w.accepted| ==> w.accepted[j].0.runId != w.accepted[k].0.runId)
    && (forall c :: c in w.controllers ==> SwapSound(w.store, w.controllers[c]))
    && (forall r :: r in w.store.runs ==> w.store.runs[r].state.runId == r)
  }

  /** How a store may move under one event: versions never fall, and an unmoved version means an unmoved
      run, up to the journal position. */
  predicate Later(before: Store, after: Store) {
    forall r :: r in before.runs ==>
      && r in after.runs
      && after.runs[r].version >= before.runs[r].version
      && (after.runs[r].version == before.runs[r].version ==>
            && after.runs[r].state == before.runs[r].state
            && after.runs[r].meta.(journalPosition := before.runs[r].meta.journalPosition) == before.runs[r].meta)
      && (before.runs[r].state.status.RunCancelled? ==>
            && after.runs[r].state.status.RunCancelled?
            && after.runs[r].meta.dedupe == before.runs[r].meta.dedupe)
  }

  lemma SwapLater(s: Store, pc: Pc)
    requires Swaps(s, pc) && SwapSound(s, pc)
    ensures Later(s, Step(s, pc).0) && Durable(Step(s, pc).0, pc.intent, WinResult(pc.intent, pc.current.version + 1))
    ensures !Final(s.runs[pc.intent.runId].state.status)
    ensures Step(s, pc).0.runs[pc.intent.runId] == CancelWrite(pc.intent, pc.current)
  {
    hide Map, Filter;
  }

  /** Every other controller step leaves every run where it is. */
  lemma QuietLater(s: Store, pc: Pc)
    requires !Swaps(s, pc)
    ensures Later(s, Step(s, pc).0) && Step(s, pc).0.runs.Keys == s.runs.Keys
    ensures forall r :: r in s.runs ==>
            Step(s, pc).0.runs[r].version == s.runs[r].version && Step(s, pc).0.runs[r].state == s.runs[r].state
  {
    hide Map, Filter, CancelWrite;
  }

  lemma DurableLater(before: Store, after: Store, intent: Intent, result: ControlResult)
    requires Durable(before, intent, result) && Later(before, after)
    ensures Durable(after, intent, result)
  {
  }

  lemma SwapSoundLater(before: Store, after: Store, pc: Pc)
    requires SwapSound(before, pc) && Later(before, after)
    ensures SwapSound(after, pc)
  {
  }

  /** A step may prepare a swap only from the run as it stands. */
  lemma NextSwapSound(s: Store, pc: Pc)
    ensures SwapSound(Step(s, pc).0, Step(s, pc).1) || !Step(s, pc).1.Swapping? || pc.Swapping?
    ensures pc.Swapping? ==> !Step(s, pc).1.Swapping?
  {
    hide Map, Filter, CancelWrite;
  }

  lemma InvLater(w: World, store: Store)
    requires Inv(w) && Later(w.store, store)
    requires forall r :: r in store.runs ==> store.runs[r].state.runId == r
    ensures Inv(w.(store := store))
  {
    hide Later, Durable, SwapSound;
    forall k | 0 <= k < |w.accepted| ensures Durable(store, w.accepted[k].0, w.accepted[k].1) {
      DurableLater(w.store, store, w.accepted[k].0, w.accepted[k].1);
    }
    forall c | c in w.controllers ensures SwapSound(store, w.controllers[c]) {
      SwapSoundLater(w.store, store, w.controllers[c]);
    }
  }

  lemma AdvanceKeeps(w: World, c: nat)
    requires Inv(w) && c in w.controllers
    ensures Inv(Apply(w, Advance(c))) && Later(w.store, Apply(w, Advance(c)).store)
  {
    var pc := w.controllers[c];
    NextSwapSound(w.store, pc);
    if Swaps(w.store, pc) {
      WinKeeps(w, c);
    } else {
      QuietLater(w.store, pc);
      InvLater(w, Step(w.store, pc).0);
    }
  }

  lemma WinKeeps(w: World, c: nat)
    requires Inv(w) && c in w.controllers && Swaps(w.store, w.controllers[c])
    ensures Inv(Apply(w, Advance(c))) && Later(w.store, Apply(w, Advance(c)).store)
  {
    hide Later, Durable, CancelWrite;
    var pc := w.controllers[c];
    assert SwapSound(w.store, pc);
    SwapLater(w.store, pc);
    var store := Step(w.store, pc).0;
    CancelWriteRetires(pc.intent, pc.current);
    assert forall r :: r in store.runs ==> store.runs[r].state.runId == r;
    InvLater(w, store);
    forall k | 0 <= k < |w.accepted| ensures w.accepted[k].0.runId != pc.intent.runId {
      FinalWhenAccepted(w.store, w.accepted[k].0, w.accepted[k].1);
    }
  }

  lemma FinalWhenAccepted(s: Store, intent: Intent, result: ControlResult)
    requires Durable(s, intent, result)
    ensures intent.runId in s.runs && Final(s.runs[intent.runId].state.status)
  {
  }

  lemma EventKeeps(w: World, e: Event)
    requires Inv(w)
    ensures Inv(Apply(w, e)) && Later(w.store, Apply(w, e).store)
  {
    match e
    case Start(c, intent) =>
    case Advance(c) => if c in w.controllers { AdvanceKeeps(w, c); }
    case Crash(c) =>
    case Write(runId, next) => if Apply(w, e) != w { InvLater(w, Apply(w, e).store); }
  }

  lemma {:induction false} RunKeeps(w: World, events: seq<Event>)
    requires Inv(w)
    ensures Inv(RunEvents(w, events)) && w.accepted <= RunEvents(w, events).accepted
  {
    hide Inv, Step;
    if events != [] {
      RunKeeps(w, events[..|events| - 1]);
      EventKeeps(RunEvents(w, events[..|events| - 1]), events[|events| - 1]);
    }
  }

  /** Over all interleavings, crashes and runtime writes: at most one command is ever accepted per run. */
  lemma AtMostOneWinner(s: Store, events: seq<Event>, j: nat, k: nat)
    requires forall r :: r in s.runs ==> s.runs[r].state.runId == r
    requires j < |RunEvents(World(s, map[], []), events).accepted|
          && k < |RunEvents(World(s, map[], []), events).accepted|
    ensures var accepted := RunEvents(World(s, map[], []), events).accepted;
            accepted[j].0.runId == accepted[k].0.runId ==> j == k
  {
    hide RunEvents;
    RunKeeps(World(s, map[], []), events);
  }

  /** Once a command is accepted, whatever happens in between and wherever its controller stopped, the same
      command gets the identical reply at once, and its identity reused on that run for anything else is refused. */
  lemma RepliesSurvive(w: World, events: seq<Event>, k: nat, intent: Intent)
    requires Inv(w) && k < |w.accepted| && intent.runId == w.accepted[k].0.runId
    requires intent.commandId.Some? && intent.commandId == w.accepted[k].0.commandId
    ensures var s := RunEvents(w, events).store;
            Step(s, LookingUp(intent)) == (s, if intent == w.accepted[k].0 then Replied(intent, w.accepted[k].1)
              else Failed(intent, CommandConflict))
  {
    hide RunEvents;
    RunKeeps(w, events);
    var after := RunEvents(w, events);
    assert after.accepted[k] == w.accepted[k];
    assert Durable(after.store, w.accepted[k].0, w.accepted[k].1);
  }

  // ---- reusing an identity ----

  /** Where the two lookups leave a command. */
  function Lookup(s: Store, intent: Intent): Pc {
    var first := Step(s, LookingUp(intent)).1;
    if first.LookingUpSidecar? then Step(s, first).1 else first
  }

  /** What answers for an identity: the record of the run the command names, else the sidecar's. */
  function Recorded(s: Store, intent: Intent): Option<Stored> {
    if intent.commandId.None? then None
    else if intent.runId in s.runs && intent.commandId.value in s.runs[intent.runId].meta.dedupe
    then Some(s.runs[intent.runId].meta.dedupe[intent.commandId.value])
    else if intent.commandId.value in s.dedupe then Some(s.dedupe[intent.commandId.value])
    else None
  }

  predicate RecordedOtherwise(s: Store, intent: Intent) {
    Recorded(s, intent).Some? && Recorded(s, intent).value.fingerprint != intent
  }

  /** In every reachable world, an accepted command's identity under other content is refused if and only if it
      names the same run or the identity is already on record with yet other content; a command on another run
      that finds no record goes on to its own swap. */
  lemma ReuseRefusedExactly(w: World, k: nat, other: Intent)
    requires Inv(w) && k < |w.accepted| && other != w.accepted[k].0
    requires other.commandId.Some? && other.commandId == w.accepted[k].0.commandId
    ensures Lookup(w.store, other) == Failed(other, CommandConflict) <==>
              other.runId == w.accepted[k].0.runId || RecordedOtherwise(w.store, other)
    ensures Lookup(w.store, other) == Reading(other) <==>
            other.runId != w.accepted[k].0.runId && Recorded(w.store, other).None?
  {
    hide Map, Filter, CancelWrite;
    assert Durable(w.store, w.accepted[k].0, w.accepted[k].1);
  }

  lemma StepKeepsSidecar(s: Store, pc: Pc, key: string)
    requires key in s.dedupe
    ensures key in Step(s, pc).0.dedupe
  {
    hide Map, Filter, CancelWrite;
  }

  lemma {:induction false} RunKeepsSidecar(w: World, events: seq<Event>, key: string)
    requires key in w.store.dedupe
    ensures key in RunEvents(w, events).store.dedupe
  {
    hide Step, RuntimeWrite;
    if events != [] {
      RunKeepsSidecar(w, events[..|events| - 1], key);
      var before, e := RunEvents(w, events[..|events| - 1]), events[|events| - 1];
      if e.Advance? && e.controller in before.controllers {
        StepKeepsSidecar(before.store, before.controllers[e.controller], key);
      }
    }
  }

  /** Once the winner has written its sidecar, then at every later state of every run the identity is on record:
      a command under it, for whatever run, is answered or refused by the lookups and never reaches a swap. */
  lemma SidecarClosesIdentity(w: World, c: nat, events: seq<Event>, other: Intent)
    requires c in w.controllers && w.controllers[c].PuttingSidecar?
    requires other.commandId.Some? && other.commandId == w.controllers[c].intent.commandId
    ensures var s := RunEvents(Apply(w, Advance(c)), events).store;
            && other.commandId.value in s.dedupe && Recorded(s, other).Some?
            && Lookup(s, other) == if RecordedOtherwise(s, other) then Failed(other, CommandConflict)
                                   else Replied(other, Recorded(s, other).value.result)
  {
    hide Map, Filter, CancelWrite, RunEvents;
    RunKeepsSidecar(Apply(w, Advance(c)), events, other.commandId.value);
  }

  // the window in between

  function Win(c: nat, intent: Intent): seq<Event> {
    [Start(c, intent), Advance(c), Advance(c), Advance(c), Advance(c)]
  }

  predicate MayWin(w: World, c: nat, intent: Intent) {
    && c !in w.controllers && intent.commandId.Some? && Recorded(w.store, intent).None?
    && intent.runId in w.store.runs && w.store.runs[intent.runId].version == intent.expectedVersion
    && !Final(w.store.runs[intent.runId].state.status)
  }

  lemma FiveEvents(w: World, e: Event, c: nat)
    ensures RunEvents(w, [e, Advance(c), Advance(c), Advance(c), Advance(c)])
         == Apply(Apply(Apply(Apply(Apply(w, e), Advance(c)), Advance(c)), Advance(c)), Advance(c))
  {
    hide Apply;
    var es := [e, Advance(c), Advance(c), Advance(c), Advance(c)];
    assert es[..4][..3] == es[..3] && es[..3][..2] == es[..2] && es[..2][..1] == es[..1] && es[..1][..0] == [];
    assert RunEvents(w, es[..1]) == Apply(w, e);
    assert RunEvents(w, es[..2]) == Apply(RunEvents(w, es[..1]), Advance(c));
    assert RunEvents(w, es[..3]) == Apply(RunEvents(w, es[..2]), Advance(c));
    assert RunEvents(w, es[..4]) == Apply(RunEvents(w, es[..3]), Advance(c));
  }

  lemma FirstWins(w: World, c: nat, intent: Intent)
    requires MayWin(w, c, intent)
    ensures var after := RunEvents(w, Win(c, intent));
            && after.accepted == w.accepted + [(intent, WinResult(intent, intent.expectedVersion + 1))]
            && after.controllers == w.controllers[c := Journaling(intent, w.store.runs[intent.runId])]
            && after.store ==
                 w.store.(runs := w.store.runs[intent.runId := CancelWrite(intent, w.store.runs[intent.runId])])
  {
    hide Map, Filter, CancelWrite, RunEvents;
    FiveEvents(w, Start(c, intent), c);
    var w1 := Apply(w, Start(c, intent));
    var w2 := Apply(w1, Advance(c));
    assert w2.store == w.store && w2.controllers == w.controllers[c := LookingUpSidecar(intent)]
        && w2.accepted == w.accepted;
    var w3 := Apply(w2, Advance(c));
    assert w3.store == w.store && w3.controllers == w.controllers[c := Reading(intent)] && w3.accepted == w.accepted;
    var w4 := Apply(w3, Advance(c));
    assert w4.store == w.store && w4.controllers == w.controllers[c := Swapping(intent, w.store.runs[intent.runId])]
        && w4.accepted == w.accepted;
  }

  /** Before the sidecar write the window is open: two open runs can both be cancelled under one identity. */
  lemma IdentityAcceptedTwice(w: World, first: Intent, second: Intent)
    requires w.controllers == map[] && MayWin(w, 0, first) && MayWin(w, 1, second)
    requires first.commandId == second.commandId && first.runId != second.runId
    ensures RunEvents(RunEvents(w, Win(0, first)), Win(1, second)).accepted
         == w.accepted + [(first, WinResult(first, first.expectedVersion + 1)),
             (second, WinResult(second, second.expectedVersion + 1))]
  {
    hide Map, Filter, CancelWrite, RunEvents;
    FirstWins(w, 0, first);
    FirstWins(RunEvents(w, Win(0, first)), 1, second);
  }

  // ---- one controller alone ----

  /** Run a controller to its reply without interference. */
  function Finish(s: Store, pc: Pc): (Store, Pc)
    decreases Rank(pc)
  {
    if Rank(pc) == 0 then (s, pc)
    else
      StepMakesProgress(s, pc);
      var (next, after) := Step(s, pc);
      Finish(next, after)
  }

  /** Where a winning command may stop: after the swap, the journal append, the position sync or the sidecar. */
  function Stopped(s: Store, intent: Intent, cur: Versioned, stage: nat): Store {
    var swapped := Step(s, Swapping(intent, cur)).0;
    if stage == 0 then swapped
    else
      var journaled := Step(swapped, Journaling(intent, cur)).0;
      if stage == 1 then journaled
      else
        var synced := Step(journaled, Syncing(intent, cur.version + 1)).0;
        if stage == 2 then synced else Step(synced, PuttingSidecar(intent, cur.version + 1)).0
  }

  lemma FinishOnce(s: Store, pc: Pc)
    requires Rank(pc) > 0
    ensures Finish(s, pc) == Finish(Step(s, pc).0, Step(s, pc).1)
  {
    StepMakesProgress(s, pc);
  }

  /** A whole command run alone, once it is past the lookups. */
  lemma FinishFromReading(s: Store, intent: Intent)
    requires intent.commandId.Some? && Finish(s, Reading(intent)).1.Replied?
    ensures var (t, pc) := Finish(s, Reading(intent));
            && intent.commandId.value in t.dedupe && t.dedupe[intent.commandId.value] == Stored(intent, pc.result)
            && intent.runId in s.runs && intent.runId in t.runs
            && (t.runs[intent.runId].meta.dedupe == s.runs[intent.runId].meta.dedupe
                || t.runs[intent.runId].meta.dedupe ==
                     s.runs[intent.runId].meta.dedupe[intent.commandId.value := Stored(intent, pc.result)])
            && pc.intent == intent
  {
    hide Map, Filter, Finish;
    var (s1, p1) := Step(s, Reading(intent));
    FinishOnce(s, Reading(intent));
    if Rank(p1) == 0 {
      FinishDone(s1, p1);
    } else if p1.PersistingLoser? {
      FinishOnce(s1, p1);
      FinishDone(Step(s1, p1).0, Step(s1, p1).1);
    } else {
      FinishWinner(s1, intent, p1.current);
    }
  }

  lemma FinishDone(s: Store, pc: Pc)
    requires Rank(pc) == 0
    ensures Finish(s, pc) == (s, pc)
  {
  }

  lemma FinishWinner(s: Store, intent: Intent, cur: Versioned)
    requires intent.runId in s.runs && s.runs[intent.runId] == cur && cur.version == intent.expectedVersion
    ensures Finish(s, Swapping(intent, cur)) == (Stopped(s, intent, cur, 3),
            Replied(intent, WinResult(intent, cur.version + 1)))
    ensures intent.commandId.Some? ==>
              var t := Stopped(s, intent, cur, 3);
              && intent.runId in t.runs && intent.commandId.value in t.dedupe
              && t.dedupe[intent.commandId.value] == Stored(intent, WinResult(intent, cur.version + 1))
              && t.runs[intent.runId].meta.dedupe ==
                   cur.meta.dedupe[intent.commandId.value := Stored(intent, WinResult(intent, cur.version + 1))]
  {
    hide Map, Filter, Finish;
    FinishOnce(s, Swapping(intent, cur));
    var s1 := Stopped(s, intent, cur, 0);
    FinishOnce(s1, Journaling(intent, cur));
    var s2 := Stopped(s, intent, cur, 1);
    FinishOnce(s2, Syncing(intent, cur.version + 1));
    var s3 := Stopped(s, intent, cur, 2);
    FinishOnce(s3, PuttingSidecar(intent, cur.version + 1));
    FinishDone(Stopped(s, intent, cur, 3), Replied(intent, WinResult(intent, cur.version + 1)));
  }

  /** Winner or loser, a replied command replayed on the resulting store gets the same reply and changes nothing. */
  lemma ReplayIsIdentical(s: Store, intent: Intent)
    requires intent.commandId.Some? && Finish(s, LookingUp(intent)).1.Replied?
    ensures var (t, pc) := Finish(s, LookingUp(intent));
            Finish(t, LookingUp(intent)) == (t, pc)
  {
    hide Finish, Map, Filter;
    var key := intent.commandId.value;
    var (t, pc) := Finish(s, LookingUp(intent));
    FinishOnce(s, LookingUp(intent));
    var p1 := Step(s, LookingUp(intent)).1;
    if p1.Replied? || p1.Failed? {
      FinishDone(s, p1);
    } else {
      FinishOnce(s, p1);
      var p2 := Step(s, p1).1;
      if p2.Replied? || p2.Failed? {
        FinishDone(s, p2);
        FinishOnce(s, p1);
      } else {
        assert p2 == Reading(intent) && (intent.runId in s.runs ==> key !in s.runs[intent.runId].meta.dedupe);
        FinishFromReading(s, intent);
        FinishLookup(t, intent, pc);
      }
    }
  }

  lemma FinishLookup(t: Store, intent: Intent, pc: Pc)
    requires intent.commandId.Some? && pc.Replied? && pc.intent == intent
    requires intent.commandId.value in t.dedupe && t.dedupe[intent.commandId.value] == Stored(intent, pc.result)
    requires intent.runId in t.runs
    requires intent.commandId.value in t.runs[intent.runId].meta.dedupe ==>
               t.runs[intent.runId].meta.dedupe[intent.commandId.value] == Stored(intent, pc.result)
    ensures Finish(t, LookingUp(intent)) == (t, pc)
  {
    hide Finish, Map, Filter;
    FinishOnce(t, LookingUp(intent));
    var p1 := Step(t, LookingUp(intent)).1;
    if p1.LookingUpSidecar? {
      FinishOnce(t, p1);
    }
    FinishDone(t, pc);
  }
}
