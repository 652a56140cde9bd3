/** The lease manager over its store, and the takeover that drives it. */
module LeaseManager {
  import opened Results
  import opened Text
  import opened Fencing
  import opened LeaseBinding
  import opened Takeover

  class Manager {
    var live: RunState

    constructor (state: RunState)
      ensures live == state
    {
      live := state;
    }

    method PutRun(value: RunState, expectedVersion: int) returns (ok: bool)
      modifies this
      ensures ok <==> old(live).version == expectedVersion
      ensures live == if ok then value else old(live)
    {
      ok := live.version == expectedVersion;
      if ok {
        live := value;
      }
    }

    method FindActive(leases: seq<WorkLease>, like: WorkLease) returns (r: Option<WorkLease>)
      ensures r == ActiveFor(leases, like)
    {
      var i := 0;
      while i < |leases|
        invariant 0 <= i <= |leases|
        invariant ActiveFor(leases[i..], like) == ActiveFor(leases, like)
      {
        if leases[i].status.Active? && SameQuad(leases[i], like) {
          return Some(leases[i]);
        }
        i := i + 1;
      }
      return None;
    }

    /** Retire one active lease; an expiry also moves the node and the attempt it is current for. */
    method Retire(p: Plan) returns (error: Option<TakeoverError>)
      modifies this
      ensures error == if !Retirable(old(live), p) then Some(TransitionRejected)
                       else if old(live).version != p.expectedVersion then Some(ConcurrentState) else None
      ensures live == if error.None? then RetiredState(old(live), p) else old(live)
    {
      hide Put;
      var leases := Put(p.state.leases, RetiredLease(p));
      var next := p.state.(version := p.expectedVersion + 1, leases := leases);
      if p.retirement.Expire? {
        next := live.(version := p.expectedVersion + 1, leases := leases);
        if Current(live, p.priorLease) {
          var node, attempt := live.nodes[p.priorLease.nodeId], live.attempts[p.priorLease.attemptId];
          if !MayExpire(node.status) {
            return Some(TransitionRejected);
          }
          next := next.(nodes := live.nodes[p.priorLease.nodeId := node.(status := C.LeaseExpired)],
                        attempts := live.attempts[p.priorLease.attemptId :=
                            attempt.(status := C.LeaseExpired, currentLeaseId := None)]);
        }
      }
      var ok := PutRun(next, p.expectedVersion);
      error := if ok then None else Some(ConcurrentState);
    }

    /** Grant a lease: refuse it before any write, or detach the attempt's active lease and register this one. */
    method Grant(clock: Clock, lease: WorkLease, snapshot: RunState) returns (error: Option<TakeoverError>)
      requires Coherent(live, snapshot)
      modifies this
      ensures error == if !Grantable(clock, snapshot, Numbered(snapshot, lease)) then Some(GrantRefused)
                       else if old(live).version != snapshot.version then Some(ConcurrentState) else None
      ensures live == if error.None? then GrantedState(snapshot, Numbered(snapshot, lease)) else old(live)
    {
      hide Put;
      if !lease.status.Active? || !Timely(clock, lease) {
        return Some(GrantRefused);
      }
      var existing := FindActive(snapshot.leases, lease);
      var current := if lease.attemptId in snapshot.attempts then snapshot.attempts[lease.attemptId].generation else 0;
      if existing.Some? && existing.value.generation.Some? && existing.value.generation.value > current {
        current := existing.value.generation.value;
      }
      var requested := if lease.generation.None? then current + 1 else lease.generation.value;
      AlikeActive(snapshot.leases, lease, Numbered(snapshot, lease));
      if requested <= current {
        return Some(GrantRefused);
      }
      var bound := lease.(generation := Some(requested));
      assert bound == Numbered(snapshot, lease);
      if existing.Some? {
        var detached := PutRun(DetachedState(snapshot, existing.value), snapshot.version);
        if !detached {
          return Some(ConcurrentState);
        }
      }
      var ok := PutRun(RegisteredState(live, bound), if existing.Some? then snapshot.version + 1 else snapshot.version);
      error := if ok then None else Some(ConcurrentState);
    }

    /** Check, retire, grant and read back. */
    method TakeoverBoundedMailboxRequest(env: Env, p: Plan) returns (error: Option<TakeoverError>)
      requires Sound(live.leases) && Coherent(live, p.state)
      modifies this
      ensures var (t, pc) := Finish(env, old(live), Checking(p));
              live == t && pc == (if error.None? then Completed(p) else Refused(p, error.value))
    {
      hide Finish, Validate, Position, Put, RetiredState, RegisteredState, Sound, Retirable, Grantable, Find, Binds,
      Timely;
      ghost var s0 := live;
      var refusal := Validate(env, p);
      FinishStep(env, s0, Checking(p), s0, if refusal.Some? then Refused(p, refusal.value) else Retiring(p));
      if refusal.Some? {
        return refusal;
      }
      ValidatedFacts(env, p);
      error := Retire(p);
      if error.Some? {
        FinishStep(env, s0, Retiring(p), s0, Refused(p, error.value));
        return;
      }
      RetirementClears(p);
      RetireThenGrant(env, p);
      assert Bound(p).generation.Some? && Numbered(live, Bound(p)) == Bound(p);
      GrantFollows(env, p, live);
      error := Grant(env.clock, Bound(p), live);
      if error.Some? {
        return;
      }
      var retired, granted := Find(live.leases, p.priorLease.leaseId), Find(live.leases, p.replacementLease.leaseId);
      if retired.None? || retired.value.status != RetiredLease(p).status || granted.None?
          || !granted.value.status.Active? {
        return Some(ReadbackFailed);
      }
    }
  }

  lemma AlikeActive(leases: seq<WorkLease>, a: WorkLease, b: WorkLease)
    requires SameQuad(a, b)
    ensures ActiveFor(leases, a) == ActiveFor(leases, b)
  {
  }

  lemma GrantFollows(env: Env, p: Plan, retired: RunState)
    requires Validate(env, p).None? && ActiveFor(retired.leases, Bound(p)).None?
    requires RecordedGeneration(retired, Bound(p)) == RecordedGeneration(p.state, p.replacementLease)
    ensures Grantable(env.clock, retired, Bound(p)) <==> GrantsAfterwards(env, p)
  {
    hide Validate;
    ValidatedFacts(env, p);
  }
}
