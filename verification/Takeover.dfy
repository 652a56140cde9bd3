/** Handing one attempt from a lease to its replacement: checks, then retirement, then the grant, each a
    compare-and-swap on the run version, with any number of hand-offs and other writers interleaved. */
module Takeover {
  import opened Results
  import opened Text
  import opened Fencing
  import opened LeaseBinding
  import C = Cancellation

  datatype Node = Node(status: C.NodeStatus, leaseRef: Option<string>)

  datatype Attempt = Attempt(currentLeaseId: Option<string>, fencingToken: string, generation: int,
      status: C.NodeStatus)

  /** One versioned run: the lease dictionary in insertion order, the nodes and the attempt registry. */
  datatype RunState = RunState(version: int, leases: seq<WorkLease>, nodes: map<string, Node>,
      attempts: map<string, Attempt>)

  datatype Retirement = Revoke | Expire

  datatype Plan = Plan(
    prior: Request, priorLease: WorkLease, replacement: Request, replacementLease: WorkLease,
    retirement: Retirement, now: string, state: RunState, expectedVersion: int)

  /** Request compilation, timestamps and routing; routing names the selected agent, or fails. */
  datatype Env = Env(compiler: Compiler, clock: Clock, route: Request -> Option<string>)

  datatype TakeoverError =
    | VersionInvalid | TakeoverTimeInvalid | Uncompilable | AttemptLeaseMismatch | OldLeaseNotActive | OldLeaseMismatch
    | NotSameAttempt(cause: FenceError) | LeaseReuse | LeaseFenceReuse | ReplacementNotActive | GenerationMismatch
    | ExpireRequiresExpiredLease | RoutingFailed | AgentNotChanged | LeaseScopeMismatch | RouteLeaseMismatch
    | TransitionRejected | ConcurrentState | GrantRefused | ReadbackFailed

  // ---- the lease table ----

  function Position(leases: seq<WorkLease>, id: string): (k: nat)
    ensures k <= |leases|
    ensures k < |leases| ==> leases[k].leaseId == id
    ensures forall i :: 0 <= i < k ==> leases[i].leaseId != id
  {
    if leases == [] || leases[0].leaseId == id then 0 else 1 + Position(leases[1..], id)
  }

  function Find(leases: seq<WorkLease>, id: string): Option<WorkLease> {
    if Position(leases, id) < |leases| then Some(leases[Position(leases, id)]) else None
  }

  function Put(leases: seq<WorkLease>, lease: WorkLease): seq<WorkLease> {
    var k := Position(leases, lease.leaseId);
    if k < |leases| then leases[k := lease] else leases + [lease]
  }

  predicate SameQuad(a: WorkLease, b: WorkLease) {
    a.runId == b.runId && a.nodeId == b.nodeId && a.executionId == b.executionId && a.attemptId == b.attemptId
  }

  /** The first active lease of the same run, node, execution and attempt. */
  function ActiveFor(leases: seq<WorkLease>, like: WorkLease): (r: Option<WorkLease>)
    ensures r.Some? ==> r.value in leases && r.value.status.Active? && SameQuad(r.value, like)
    ensures r.None? ==> forall l :: l in leases && SameQuad(l, like) ==> !l.status.Active?
  {
    if leases == [] then None
    else if leases[0].status.Active? && SameQuad(leases[0], like) then Some(leases[0])
    else ActiveFor(leases[1..], like)
  }

  predicate Clash(a: WorkLease, b: WorkLease) {
    a.status.Active? && b.status.Active? && SameQuad(a, b)
  }

  /** No attempt ever has two active leases; lease identities are dictionary keys. */
  ghost predicate Sound(leases: seq<WorkLease>) {
    forall i, j :: 0 <= i < j < |leases| ==> !Clash(leases[i], leases[j]) && leases[i].leaseId != leases[j].leaseId
  }

  /** Writing an entry keeps the table sound if it is not active, or if its attempt has no other active lease. */
  lemma PutSound(leases: seq<WorkLease>, lease: WorkLease)
    requires Sound(leases)
    requires lease.status.Active? ==> forall l :: l in leases && SameQuad(l, lease) && l.leaseId != lease.leaseId ==>
            !l.status.Active?
    ensures Sound(Put(leases, lease))
    ensures Find(Put(leases, lease), lease.leaseId) == Some(lease)
    ensures forall id :: id != lease.leaseId ==> Find(Put(leases, lease), id) == Find(leases, id)
  {
    hide Position;
    var after := Put(leases, lease);
    var k := Position(leases, lease.leaseId);
    assert |after| == if k < |leases| then |leases| else |leases| + 1;
    assert after[k] == lease && forall i :: 0 <= i < |leases| && i != k ==> after[i] == leases[i];
    assert forall i :: 0 <= i < |leases| && i != k ==> leases[i].leaseId != lease.leaseId;
    forall i, j | 0 <= i < j < |after| ensures !Clash(after[i], after[j]) && after[i].leaseId != after[j].leaseId {
      assert i == k || after[i] == leases[i];
      assert j == k || after[j] == leases[j];
      if j == k { assert leases[i] in leases; }
      if i == k { assert leases[j] in leases; }
    }
    assert Position(after, lease.leaseId) == k by { PositionIs(after, k); }
    forall id | id != lease.leaseId ensures Find(after, id) == Find(leases, id) {
      var m := Position(leases, id);
      if m < |leases| {
        PositionIs(after, m);
      } else {
        NoPosition(after, id);
      }
    }
  }

  lemma PositionIs(leases: seq<WorkLease>, k: nat)
    requires Sound(leases) && k < |leases|
    ensures Position(leases, leases[k].leaseId) == k
  {
    hide Position;
    var m := Position(leases, leases[k].leaseId);
    assert m <= k;
  }

  lemma NoPosition(leases: seq<WorkLease>, id: string)
    requires forall i :: 0 <= i < |leases| ==> leases[i].leaseId != id
    ensures Position(leases, id) == |leases|
  {
    hide Position;
    var k := Position(leases, id);
  }

  lemma DetachClears(leases: seq<WorkLease>, existing: WorkLease, like: WorkLease)
    requires Sound(leases) && existing in leases && existing.status.Active? && SameQuad(existing, like)
    ensures forall l :: l in Put(leases, existing.(status := Released)) && SameQuad(l, like) ==> !l.status.Active?
  {
    hide Position;
    var m :| 0 <= m < |leases| && leases[m] == existing;
    PositionIs(leases, m);
    var after := leases[m := existing.(status := Released)];
    forall i | 0 <= i < |after| && SameQuad(after[i], like) ensures !after[i].status.Active? {
      if i != m {
        assert !Clash(leases[i], leases[m]) || !Clash(leases[m], leases[i]);
      }
    }
  }

  lemma OnlyActive(leases: seq<WorkLease>, lease: WorkLease)
    requires forall l :: l in leases && SameQuad(l, lease) ==> !l.status.Active?
    ensures forall l :: l in Put(leases, lease) && SameQuad(l, lease) && l.status.Active? ==> l == lease
  {
    hide Position;
  }

  // ---- the checks before the first mutation ----

  function InstantAt(clock: Clock, s: string): Option<int> {
    if Strip(s) == "" then None else clock(s)
  }

  function Routed(env: Env, p: Plan): Request {
    match env.route(p.replacement)
    case Some(agent) => p.replacement.(agentInstance := agent)
    case None => p.replacement
  }

  /** The replacement lease with an omitted generation taken from the request. */
  function Bound(p: Plan): WorkLease {
    p.replacementLease.(generation := Some(p.replacement.leaseGeneration))
  }

  function Validate(env: Env, p: Plan): Option<TakeoverError> {
    var now, cause := InstantAt(env.clock, p.now), SameLogicalAttempt(env.compiler, p.prior, p.replacement);
    if p.expectedVersion != p.state.version then Some(VersionInvalid)
    else if now.None? then Some(TakeoverTimeInvalid)
    else if !env.compiler.compiles(p.prior) then Some(Uncompilable)
    else if !Binds(EnvelopeOf(p.prior), p.priorLease) then Some(AttemptLeaseMismatch)
    else if !p.priorLease.status.Active? then Some(OldLeaseNotActive)
    else if Find(p.state.leases, p.priorLease.leaseId) != Some(p.priorLease) then Some(OldLeaseMismatch)
    else if cause.Some? then Some(NotSameAttempt(cause.value))
    else if p.replacementLease.leaseId == p.priorLease.leaseId then Some(LeaseReuse)
    else if p.replacementLease.fencingToken == p.priorLease.fencingToken then Some(LeaseFenceReuse)
    else if !p.replacementLease.status.Active? then Some(ReplacementNotActive)
    else if p.replacementLease.generation.Some? && p.replacementLease.generation.value != p.replacement.leaseGeneration
      then Some(GenerationMismatch)
    else if p.retirement.Expire? && InstantAt(env.clock, p.priorLease.expiresAt).None? then Some(TakeoverTimeInvalid)
    else if p.retirement.Expire? && InstantAt(env.clock, p.priorLease.expiresAt).value >= now.value
      then Some(ExpireRequiresExpiredLease)
    else if env.route(p.replacement).None? || !env.compiler.compiles(Routed(env, p)) then Some(RoutingFailed)
    else if Routed(env, p).agentInstance == p.prior.agentInstance && p.retirement.Revoke? then Some(AgentNotChanged)
    else if !Binds(EnvelopeOf(Routed(env, p)), Bound(p)) then Some(AttemptLeaseMismatch)
    else if !SameQuad(p.replacementLease, p.priorLease) then Some(LeaseScopeMismatch)
    else if p.replacementLease.holder != Routed(env, p).agentInstance then Some(RouteLeaseMismatch)
    else None
  }

  /** Exactly which plans pass the checks. */
  lemma ChecksPassExactly(env: Env, p: Plan)
    ensures Validate(env, p).None? <==>
              && p.expectedVersion == p.state.version
              && Strip(p.now) != "" && env.clock(p.now).Some?
              && env.compiler.compiles(p.prior) && env.compiler.compiles(p.replacement)
              && SameBinding(p.prior, p.replacement) && StandardsRef(p.prior) == StandardsRef(p.replacement)
              && p.replacement.seqNo > p.prior.seqNo && p.replacement.leaseGeneration > p.prior.leaseGeneration
              && p.replacement.messageId != p.prior.messageId && p.replacement.fencingToken != p.prior.fencingToken
              && p.replacement.idempotencyKey != p.prior.idempotencyKey
              && Binds(EnvelopeOf(p.prior), p.priorLease) && p.priorLease.status.Active?
              && Find(p.state.leases, p.priorLease.leaseId) == Some(p.priorLease)
              && p.replacementLease.leaseId != p.priorLease.leaseId
              && p.replacementLease.fencingToken != p.priorLease.fencingToken && p.replacementLease.status.Active?
              && (p.replacementLease.generation.None?
                    || p.replacementLease.generation.value == p.replacement.leaseGeneration)
              && (p.retirement.Expire? ==>
                    && Strip(p.priorLease.expiresAt) != "" && env.clock(p.priorLease.expiresAt).Some?
                    && env.clock(p.priorLease.expiresAt).value < env.clock(p.now).value)
              && env.route(p.replacement).Some?
              && var agent := env.route(p.replacement).value;
                 var routed := p.replacement.(agentInstance := agent);
                 && env.compiler.compiles(routed)
                 && (p.retirement.Revoke? ==> agent != p.prior.agentInstance)
                 && Binds(EnvelopeOf(routed), p.replacementLease.(generation := Some(p.replacement.leaseGeneration)))
                 && p.replacementLease.runId == p.priorLease.runId && p.replacementLease.nodeId == p.priorLease.nodeId
                 && p.replacementLease.executionId == p.priorLease.executionId
                 && p.replacementLease.attemptId == p.priorLease.attemptId
                 && p.replacementLease.holder == agent
  {
    hide Strip, Find, Binds, SameLogicalAttempt, StandardsRef, SameBinding;
    TakeoverAdmitsExactly(env.compiler, p.prior, p.replacement);
  }

  /** No timestamp has surrounding whitespace or a NUL in it. */
  ghost predicate Calendar(clock: Clock) {
    forall s :: clock(s).Some? ==> Trimmed(s) && '\0' !in s
  }

  lemma SameInstant(clock: Clock, s: string)
    requires Calendar(clock) && clock(s).Some? && Strip(s) != ""
    ensures InstantOf(clock, s) == clock(s)
  {
    hide Strip;
    StripTrims(s);
  }

  /** EXPIRE and the fence agree: an expiry hand-off passes the checks only once the old holder's own result, under
      its still active lease, has become evidence for being late; it is refused as premature only while that result
      still advances; and once it is late the hand-off is never refused as premature. */
  lemma ExpiryAgreesWithFence(env: Env, p: Plan)
    requires Calendar(env.clock) && p.retirement.Expire?
    ensures var fence := ResultFence(env.clock, EnvelopeOf(p.prior), Some(p.priorLease), Some(p.now));
            && (Validate(env, p).None? ==> fence == Ok(EvidenceOnly([LeaseExpiryCheck])))
            && (Validate(env, p) == Some(ExpireRequiresExpiredLease) ==> fence.Ok? && fence.value.advancesState)
            && (fence == Ok(EvidenceOnly([LeaseExpiryCheck])) ==> Validate(env, p) != Some(ExpireRequiresExpiredLease))
  {
    hide Strip, Find, SameLogicalAttempt, Sequences.Unique, Calendar, Binds;
    var now, expires := p.now, p.priorLease.expiresAt;
    if InstantAt(env.clock, now).Some? { SameInstant(env.clock, now); }
    if InstantAt(env.clock, expires).Some? { SameInstant(env.clock, expires); }
  }

  // ---- the lease manager's writes ----

  function RetiredLease(p: Plan): WorkLease {
    p.priorLease.(status := if p.retirement.Revoke? then Revoked else Expired)
  }

  /** Is this lease the one its node and its attempt currently run under? */
  predicate Current(live: RunState, lease: WorkLease) {
    && lease.nodeId in live.nodes && live.nodes[lease.nodeId].leaseRef == Some(lease.leaseId)
    && lease.attemptId in live.attempts && live.attempts[lease.attemptId].currentLeaseId == Some(lease.leaseId)
    && live.attempts[lease.attemptId].fencingToken == lease.fencingToken
  }

  predicate MayExpire(status: C.NodeStatus) {
    status.Claimed? || status.NodeRunning? || status.Reviewing? || status.Mixing?
  }

  predicate Retirable(live: RunState, p: Plan) {
    p.retirement.Expire? && Current(live, p.priorLease) ==> MayExpire(live.nodes[p.priorLease.nodeId].status)
  }

  function RetiredState(live: RunState, p: Plan): RunState {
    var leases := Put(p.state.leases, RetiredLease(p));
    if p.retirement.Revoke? then p.state.(version := p.expectedVersion + 1, leases := leases)
    else if Current(live, p.priorLease) then
      var node, attempt := live.nodes[p.priorLease.nodeId], live.attempts[p.priorLease.attemptId];
      RunState(p.expectedVersion + 1, leases, live.nodes[p.priorLease.nodeId := node.(status := C.LeaseExpired)],
               live.attempts[p.priorLease.attemptId := attempt.(status := C.LeaseExpired, currentLeaseId := None)])
    else live.(version := p.expectedVersion + 1, leases := leases)
  }

  /** The generation the attempt registry holds, 0 for an attempt that is not registered. */
  function RecordedAt(s: RunState, attemptId: string): int {
    if attemptId in s.attempts then s.attempts[attemptId].generation else 0
  }

  function RecordedGeneration(s: RunState, lease: WorkLease): int {
    RecordedAt(s, lease.attemptId)
  }

  function CurrentGeneration(s: RunState, lease: WorkLease): int {
    var recorded, existing := RecordedGeneration(s, lease), ActiveFor(s.leases, lease);
    if existing.Some? && existing.value.generation.Some? && existing.value.generation.value > recorded
    then existing.value.generation.value else recorded
  }

  /** Both timestamps readable and in order. */
  predicate Timely(clock: Clock, lease: WorkLease) {
    && lease.grantedAt != "" && clock(lease.grantedAt).Some? && lease.expiresAt != "" && clock(lease.expiresAt).Some?
    && clock(lease.grantedAt).value <= clock(lease.expiresAt).value
  }

  predicate Grantable(clock: Clock, s: RunState, lease: WorkLease) {
    && lease.status.Active? && Timely(clock, lease)
    && lease.generation.Some? && lease.generation.value > CurrentGeneration(s, lease)
  }

  function DetachedState(s: RunState, existing: WorkLease): RunState {
    s.(version := s.version + 1, leases := Put(s.leases, existing.(status := Released)))
  }

  function RegisteredState(s: RunState, lease: WorkLease): RunState {
    RunState(
      s.version + 1, Put(s.leases, lease),
      if lease.nodeId in s.nodes then s.nodes[lease.nodeId := s.nodes[lease.nodeId].(leaseRef := Some(lease.leaseId))]
        else s.nodes,
      if lease.attemptId in s.attempts && lease.generation.Some?
      then s.attempts[lease.attemptId := s.attempts[lease.attemptId].(
             currentLeaseId := Some(lease.leaseId), fencingToken := lease.fencingToken,
             generation := lease.generation.value)]
      else s.attempts)
  }

  /** Exactly which leases are granted: active, with readable timestamps in order, and a generation beyond the one
      recorded for the attempt and beyond that of any lease active for it. */
  lemma GrantableExactly(clock: Clock, s: RunState, lease: WorkLease)
    requires Sound(s.leases)
    ensures Grantable(clock, s, lease) <==>
              && lease.status.Active? && lease.grantedAt != "" && lease.expiresAt != ""
              && clock(lease.grantedAt).Some? && clock(lease.expiresAt).Some?
              && clock(lease.expiresAt).value >= clock(lease.grantedAt).value
              && lease.generation.Some? && lease.generation.value > RecordedAt(s, lease.attemptId)
              && forall l :: l in s.leases && l.status.Active? && SameQuad(l, lease) && l.generation.Some? ==>
                   lease.generation.value > l.generation.value
  {
    var existing := ActiveFor(s.leases, lease);
    if existing.Some? {
      forall l | l in s.leases && l.status.Active? && SameQuad(l, lease) ensures l == existing.value {
        var i :| 0 <= i < |s.leases| && s.leases[i] == l;
        var j :| 0 <= j < |s.leases| && s.leases[j] == existing.value;
        assert Clash(s.leases[i], s.leases[j]) && Clash(s.leases[j], s.leases[i]);
      }
    }
  }

  // ---- a whole grant ----

  /** A lease whose omitted generation is filled in with the next one. */
  function Numbered(s: RunState, lease: WorkLease): WorkLease {
    if lease.generation.None? then lease.(generation := Some(CurrentGeneration(s, lease) + 1)) else lease
  }

  function GrantedState(s: RunState, lease: WorkLease): RunState {
    var existing := ActiveFor(s.leases, lease);
    RegisteredState(if existing.Some? then DetachedState(s, existing.value) else s, lease)
  }

  /** Granting on a sound table keeps it sound and makes the lease the attempt's only active one. */
  lemma GrantSound(s: RunState, lease: WorkLease)
    requires Sound(s.leases) && lease.status.Active?
    ensures Sound(GrantedState(s, lease).leases) && Find(GrantedState(s, lease).leases, lease.leaseId) == Some(lease)
    ensures forall l :: l in GrantedState(s, lease).leases && SameQuad(l, lease) && l.status.Active? ==> l == lease
  {
    hide Position, Put;
    var existing := ActiveFor(s.leases, lease);
    var base := if existing.Some? then DetachedState(s, existing.value) else s;
    if existing.Some? {
      PutSound(s.leases, existing.value.(status := Released));
      DetachClears(s.leases, existing.value, lease);
    }
    PutSound(base.leases, lease);
    OnlyActive(base.leases, lease);
  }

  // ---- one hand-off, one store operation per step ----

  datatype Pc =
    | Checking(plan: Plan)
    | Retiring(plan: Plan)
    | SyncingRetired(plan: Plan, version: int)
    | ReadingRetired(plan: Plan)
    | Granting(plan: Plan, snapshot: RunState)
    | Detaching(plan: Plan, existing: WorkLease, snapshot: RunState)
    | SyncingDetached(plan: Plan, version: int)
    | ReadingDetached(plan: Plan)
    | Registering(plan: Plan, snapshot: RunState)
    | SyncingGranted(plan: Plan, version: int)
    | Confirming(plan: Plan)
    | Completed(plan: Plan)
    | Refused(plan: Plan, error: TakeoverError)

  function Rank(pc: Pc): nat {
    match pc
    case Checking(_) => 11
    case Retiring(_) => 10
    case SyncingRetired(_, _) => 9
    case ReadingRetired(_) => 8
    case Granting(_, _) => 7
    case Detaching(_, _, _) => 6
    case SyncingDetached(_, _) => 5
    case ReadingDetached(_) => 4
    case Registering(_, _) => 3
    case SyncingGranted(_, _) => 2
    case Confirming(_) => 1
    case _ => 0
  }

  function Step(env: Env, live: RunState, pc: Pc): (RunState, Pc) {
    match pc
    case Checking(p) =>
      var refusal := Validate(env, p);
      (live, if refusal.Some? then Refused(p, refusal.value) else Retiring(p))
    case Retiring(p) =>
      if !Retirable(live, p) then (live, Refused(p, TransitionRejected))
      else if live.version != p.expectedVersion then (live, Refused(p, ConcurrentState))
      else (RetiredState(live, p), SyncingRetired(p, p.expectedVersion + 1))
    case SyncingRetired(p, version) => (live, if live.version == version then ReadingRetired(p)
      else Refused(p, ConcurrentState))
    case ReadingRetired(p) => (live, Granting(p, live))
    case Granting(p, snapshot) =>
      if !Grantable(env.clock, snapshot, Bound(p)) then (live, Refused(p, GrantRefused))
      else
        var existing := ActiveFor(snapshot.leases, Bound(p));
        (live, if existing.Some? then Detaching(p, existing.value, snapshot) else Registering(p, snapshot))
    case Detaching(p, existing, snapshot) =>
      if live.version != snapshot.version then (live, Refused(p, ConcurrentState))
      else (DetachedState(snapshot, existing), SyncingDetached(p, snapshot.version + 1))
    case SyncingDetached(p, version) => (live, if live.version == version then ReadingDetached(p)
      else Refused(p, ConcurrentState))
    case ReadingDetached(p) => (live, Registering(p, live))
    case Registering(p, snapshot) =>
      if live.version != snapshot.version then (live, Refused(p, ConcurrentState))
      else (RegisteredState(live, Bound(p)), SyncingGranted(p, snapshot.version + 1))
    case SyncingGranted(p, version) => (live, if live.version == version then Confirming(p)
      else Refused(p, ConcurrentState))
    case Confirming(p) =>
      var retired, granted := Find(live.leases, p.priorLease.leaseId), Find(live.leases, p.replacementLease.leaseId);
      (live, if retired.None? || retired.value.status != RetiredLease(p).status || granted.None?
          || !granted.value.status.Active?
             then Refused(p, ReadbackFailed) else Completed(p))
    case _ => (live, pc)
  }

  lemma StepMakesProgress(env: Env, live: RunState, pc: Pc)
    requires Rank(pc) > 0
    ensures Rank(Step(env, live, pc).1) < Rank(pc) && Step(env, live, pc).1.plan == pc.plan
  {
    hide Validate, Grantable, Retirable;
  }

  /** A snapshot once read from the store: no newer than it, and unchanged while the version is. */
  predicate Coherent(live: RunState, snapshot: RunState) {
    snapshot.version <= live.version && (snapshot.version == live.version ==> snapshot == live)
  }

  // ---- one hand-off alone ----

  function Finish(env: Env, live: RunState, pc: Pc): (RunState, Pc)
    decreases Rank(pc)
  {
    if Rank(pc) == 0 then (live, pc)
    else
      StepMakesProgress(env, live, pc);
      var (next, after) := Step(env, live, pc);
      Finish(env, next, after)
  }

  lemma FinishStep(env: Env, live: RunState, pc: Pc, next: RunState, after: Pc)
    requires Rank(pc) > 0 && Step(env, live, pc) == (next, after)
    ensures Finish(env, live, pc) == Finish(env, next, after)
    ensures Rank(after) == 0 ==> Finish(env, live, pc) == (next, after)
  {
    hide Step;
    StepMakesProgress(env, live, pc);
  }

  /** Can the replacement be granted once the old lease is out of the way? Its timestamps and the generation
      the attempt registry holds decide, and neither is looked at before the retirement. */
  predicate GrantsAfterwards(env: Env, p: Plan) {
    Timely(env.clock, p.replacementLease)
        && p.replacement.leaseGeneration > RecordedGeneration(p.state, p.replacementLease)
  }

  /** What the retirement relies on. */
  predicate Passed(p: Plan) {
    && p.expectedVersion == p.state.version
    && Find(p.state.leases, p.priorLease.leaseId) == Some(p.priorLease) && p.priorLease.status.Active?
    && p.replacementLease.leaseId != p.priorLease.leaseId && SameQuad(p.replacementLease, p.priorLease)
    && p.replacementLease.status.Active?
  }

  /** What passed the checks. */
  lemma ValidatedFacts(env: Env, p: Plan)
    requires Validate(env, p).None?
    ensures Passed(p) && p.replacementLease.fencingToken != p.priorLease.fencingToken
    ensures Binds(EnvelopeOf(p.prior), p.priorLease) && Binds(EnvelopeOf(Routed(env, p)), Bound(p))
    ensures p.replacement.leaseGeneration > p.prior.leaseGeneration
  {
    hide Strip, Position, Find, Binds, LogicalContract, FirstMismatch;
  }

  /** After the retirement the attempt has no active lease at all. */
  lemma RetirementClears(p: Plan)
    requires Passed(p) && Sound(p.state.leases)
    ensures var t := RetiredState(p.state, p);
            && Sound(t.leases) && ActiveFor(t.leases, Bound(p)).None?
            && t.leases == Put(p.state.leases, RetiredLease(p))
            && Find(t.leases, p.priorLease.leaseId) == Some(RetiredLease(p))
            && t.version == p.state.version + 1
            && forall id :: RecordedAt(t, id) == RecordedAt(p.state, id)
  {
    hide Position;
    PutSound(p.state.leases, RetiredLease(p));
    var t := RetiredState(p.state, p);
    var k := Position(p.state.leases, p.priorLease.leaseId);
    assert t.leases == p.state.leases[k := RetiredLease(p)];
    forall l | l in t.leases && SameQuad(l, Bound(p)) ensures !l.status.Active? {
      var i :| 0 <= i < |t.leases| && t.leases[i] == l;
      if i != k {
        assert t.leases[i] == p.state.leases[i] && p.state.leases[k] == p.priorLease;
        assert !Clash(p.state.leases[i], p.state.leases[k]) || !Clash(p.state.leases[k], p.state.leases[i]);
      }
    }
  }

  /** An undisturbed hand-off. A refusal by the checks or by the retirement leaves the run as it was; the hand-off
      completes exactly when the grant can follow, and otherwise the attempt is left without any active lease. */
  lemma HandoffExactly(env: Env, p: Plan)
    requires Sound(p.state.leases)
    ensures var (t, pc) := Finish(env, p.state, Checking(p));
            && (Validate(env, p).Some? ==> t == p.state && pc == Refused(p, Validate(env, p).value))
            && (Validate(env, p).None? && !Retirable(p.state, p) ==>
                  t == p.state && pc == Refused(p, TransitionRejected))
            && (Validate(env, p).None? && Retirable(p.state, p) && !GrantsAfterwards(env, p) ==>
                  && t == RetiredState(p.state, p) && pc == Refused(p, GrantRefused)
                  && ActiveFor(t.leases, p.priorLease).None?)
            && (Validate(env, p).None? && Retirable(p.state, p) && GrantsAfterwards(env, p) ==>
                  && pc == Completed(p) && t == RegisteredState(RetiredState(p.state, p), Bound(p)) && Sound(t.leases)
                  && t.version == p.state.version + 2
                  && Find(t.leases, p.priorLease.leaseId) == Some(RetiredLease(p))
                  && Find(t.leases, p.replacementLease.leaseId) == Some(Bound(p)))
  {
    hide Finish, Validate, Position, Put, Find, RetiredState, RegisteredState, Sound, Retirable, Grantable;
    var refusal := Validate(env, p);
    FinishStep(env, p.state, Checking(p), p.state, if refusal.Some? then Refused(p, refusal.value) else Retiring(p));
    if refusal.None? {
      ValidatedFacts(env, p);
      if !Retirable(p.state, p) {
        FinishStep(env, p.state, Retiring(p), p.state, Refused(p, TransitionRejected));
      } else {
        RetireThenGrant(env, p);
      }
    }
  }

  lemma RetireThenGrant(env: Env, p: Plan)
    requires Validate(env, p).None? && Sound(p.state.leases) && Retirable(p.state, p)
    ensures var (t, pc) := Finish(env, p.state, Retiring(p));
            if GrantsAfterwards(env, p) then
              && pc == Completed(p) && t == RegisteredState(RetiredState(p.state, p), Bound(p)) && Sound(t.leases)
              && t.version == p.state.version + 2
              && Find(t.leases, p.priorLease.leaseId) == Some(RetiredLease(p))
              && Find(t.leases, p.replacementLease.leaseId) == Some(Bound(p))
            else
              t == RetiredState(p.state, p) && pc == Refused(p, GrantRefused) && ActiveFor(t.leases, p.priorLease).None?
  {
    hide Finish, Validate, Position, Put, Find, RetiredState, RegisteredState, Sound, Retirable;
    ValidatedFacts(env, p);
    RetirementClears(p);
    var retired := RetiredState(p.state, p);
    FinishStep(env, p.state, Retiring(p), retired, SyncingRetired(p, p.expectedVersion + 1));
    FinishStep(env, retired, SyncingRetired(p, p.expectedVersion + 1), retired, ReadingRetired(p));
    FinishStep(env, retired, ReadingRetired(p), retired, Granting(p, retired));
    assert Grantable(env.clock, retired, Bound(p)) <==> GrantsAfterwards(env, p);
    NoneActiveAlike(retired.leases, Bound(p), p.priorLease);
    if GrantsAfterwards(env, p) {
      FinishStep(env, retired, Granting(p, retired), retired, Registering(p, retired));
      GrantCompletes(env, p, retired);
    } else {
      FinishStep(env, retired, Granting(p, retired), retired, Refused(p, GrantRefused));
    }
  }

  lemma NoneActiveAlike(leases: seq<WorkLease>, a: WorkLease, b: WorkLease)
    requires SameQuad(a, b) && ActiveFor(leases, a).None?
    ensures ActiveFor(leases, b).None?
  {
    hide ActiveFor;
    var found := ActiveFor(leases, b);
    assert forall l :: l in leases && SameQuad(l, b) ==> SameQuad(l, a);
  }

  lemma GrantCompletes(env: Env, p: Plan, retired: RunState)
    requires Sound(retired.leases) && ActiveFor(retired.leases, Bound(p)).None? && p.replacementLease.status.Active?
    requires Find(retired.leases, p.priorLease.leaseId) == Some(RetiredLease(p))
          && p.replacementLease.leaseId != p.priorLease.leaseId
    ensures var t := RegisteredState(retired, Bound(p));
            && Finish(env, retired, Registering(p, retired)) == (t, Completed(p)) && Sound(t.leases)
            && t.version == retired.version + 1
            && Find(t.leases, p.priorLease.leaseId) == Some(RetiredLease(p))
            && Find(t.leases, p.replacementLease.leaseId) == Some(Bound(p))
  {
    hide Finish, Position, Put, Find, Sound;
    var t := RegisteredState(retired, Bound(p));
    FinishStep(env, retired, Registering(p, retired), t, SyncingGranted(p, retired.version + 1));
    FinishStep(env, t, SyncingGranted(p, retired.version + 1), t, Confirming(p));
    PutSound(retired.leases, Bound(p));
    FinishStep(env, t, Confirming(p), t, Completed(p));
  }

  /** What a completed hand-off leaves behind: the old lease retired as asked, the new one active under the request's
      generation, the node and the attempt running under it, everything else untouched. */
  lemma HandoffLeaves(env: Env, p: Plan)
    requires Sound(p.state.leases) && Finish(env, p.state, Checking(p)).1.Completed?
    ensures var t := Finish(env, p.state, Checking(p)).0;
            var granted, node, attempt := p.replacementLease, p.priorLease.nodeId, p.priorLease.attemptId;
            && Find(t.leases, p.priorLease.leaseId)
               == Some(p.priorLease.(status := if p.retirement == Revoke then Revoked else Expired))
            && Find(t.leases, granted.leaseId) == Some(granted.(generation := Some(p.replacement.leaseGeneration)))
            && (forall id :: id != p.priorLease.leaseId && id != granted.leaseId ==>
                  Find(t.leases, id) == Find(p.state.leases, id))
            && t.nodes.Keys == p.state.nodes.Keys && t.attempts.Keys == p.state.attempts.Keys
            && (forall n :: n in t.nodes && n != node ==> t.nodes[n] == p.state.nodes[n])
            && (forall a :: a in t.attempts && a != attempt ==> t.attempts[a] == p.state.attempts[a])
            && (node in t.nodes ==>
                  && t.nodes[node].leaseRef == Some(granted.leaseId)
                  && (p.retirement == Revoke ==> t.nodes[node].status == p.state.nodes[node].status))
            && (attempt in t.attempts ==>
                  && t.attempts[attempt].currentLeaseId == Some(granted.leaseId)
                  && t.attempts[attempt].fencingToken == granted.fencingToken
                  && t.attempts[attempt].generation == p.replacement.leaseGeneration)
  {
    hide Finish, Validate, Position, Put, Find, Sound, Retirable, GrantsAfterwards;
    HandoffExactly(env, p);
    if Validate(env, p).None? {
      ValidatedFacts(env, p);
      RetirementClears(p);
      PutSound(p.state.leases, RetiredLease(p));
      PutSoundGrant(RetiredState(p.state, p).leases, Bound(p));
    }
  }

  lemma PutSoundGrant(leases: seq<WorkLease>, lease: WorkLease)
    requires Sound(leases) && ActiveFor(leases, lease).None?
    ensures forall id :: id != lease.leaseId ==> Find(Put(leases, lease), id) == Find(leases, id)
  {
    hide Put, Find, Sound, Position;
    PutSound(leases, lease);
  }

  /** An expiry is refused by the node exactly when the lease is the one the node and the attempt run under and the
      node is neither claimed, running, reviewing nor mixing; otherwise such a node is marked, and only such a node. */
  lemma ExpiryMarksNode(p: Plan)
    requires p.retirement == Expire
    ensures var s, l := p.state, p.priorLease;
            var current := && l.nodeId in s.nodes && s.nodes[l.nodeId].leaseRef == Some(l.leaseId)
                           && l.attemptId in s.attempts && s.attempts[l.attemptId].currentLeaseId == Some(l.leaseId)
                           && s.attempts[l.attemptId].fencingToken == l.fencingToken;
            && (!Retirable(s, p) <==>
                  current && s.nodes[l.nodeId].status !in {C.Claimed, C.NodeRunning, C.Reviewing, C.Mixing})
            && (current ==>
                  && RetiredState(s, p).nodes == s.nodes[l.nodeId := s.nodes[l.nodeId].(status := C.LeaseExpired)]
                  && RetiredState(s, p).attempts ==
                       s.attempts[l.attemptId :=
                         s.attempts[l.attemptId].(status := C.LeaseExpired, currentLeaseId := None)])
            && (!current ==> RetiredState(s, p).nodes == s.nodes && RetiredState(s, p).attempts == s.attempts)
  {
    hide Put;
  }

  // ---- what the hand-off means for results ----

  /** Under the new lease every result of the old holder is evidence only, at any time; so it is under the
      retired lease itself. */
  lemma OldHolderFenced(env: Env, p: Plan, e: Envelope, now: Option<string>)
    requires Validate(env, p).None? && Binds(e, p.priorLease)
    ensures var r := ResultFence(env.clock, e, Some(Bound(p)), now);
            r.Ok? && r.value.disposition.StaleResult? && r.value.evidenceOnly && !r.value.advancesState
                && FencingTokenCheck in r.value.failed
    ensures ResultFence(env.clock, e, Some(RetiredLease(p)), now) == Ok(EvidenceOnly([LeaseStatusCheck]))
  {
    hide Validate, Strip, Sequences.Unique;
    ValidatedFacts(env, p);
    TokenFound(e, Bound(p));
  }

  lemma TokenFound(e: Envelope, lease: WorkLease)
    requires e.fencingToken != lease.fencingToken
    ensures FencingTokenCheck in Found(e, lease) && FencingTokenCheck in Sequences.Unique(Found(e, lease))
  {
    hide Strip, Sequences.Unique;
  }

  /** The replacement's own envelope advances state at exactly the instants not after its lease's expiry. */
  lemma NewHolderAccepted(env: Env, p: Plan, now: string)
    requires Validate(env, p).None? && InstantOf(env.clock, now).Some?
          && InstantOf(env.clock, p.replacementLease.expiresAt).Some?
    ensures var r := ResultFence(env.clock, EnvelopeOf(Routed(env, p)), Some(Bound(p)), Some(now));
            r.Ok? && (r.value.advancesState <==>
                InstantOf(env.clock, now).value <= InstantOf(env.clock, p.replacementLease.expiresAt).value)
  {
    hide Validate, Strip, Sequences.Unique;
    ValidatedFacts(env, p);
  }

  /** A granted lease always has a readable expiry. */
  lemma GrantedExpiryReadable(env: Env, p: Plan)
    requires Validate(env, p).None? && GrantsAfterwards(env, p)
    ensures InstantOf(env.clock, p.replacementLease.expiresAt) == env.clock(p.replacementLease.expiresAt)
    ensures InstantOf(env.clock, p.replacementLease.expiresAt).Some?
  {
    hide Validate;
    ValidatedFacts(env, p);
    StripTrims(Routed(env, p).leaseExpiresAt);
    StripKeeps(Routed(env, p).leaseExpiresAt);
  }
}
