/** Binding an attempt envelope to the lease it runs under, and the fence on its results. */
module LeaseBinding {
  import opened Results
  import opened Sequences
  import opened Text
  import opened Fencing

  datatype LeaseStatus = Active | Released | Revoked | Expired

  datatype WorkLease = WorkLease(
    leaseId: string, runId: string, nodeId: string, executionId: string, attemptId: string, holder: string,
    fencingToken: string, grantedAt: string, expiresAt: string, resourceRef: Option<string>, status: LeaseStatus,
    generation: Option<int>)

  /** The members of a validated envelope that matter here; its attempt and its execution identity agree. */
  datatype Envelope = Envelope(
    runId: string, nodeId: string, attemptId: string, fencingToken: string, leaseGeneration: int, agentInstance: string,
    leaseExpiresAt: string)

  function EnvelopeOf(r: Request): Envelope {
    Envelope(r.contract.runId, r.contract.nodeId, r.attemptId, r.fencingToken, r.leaseGeneration, r.agentInstance,
        r.leaseExpiresAt)
  }

  datatype Check =
    | AttemptIdCheck | FencingTokenCheck | HolderCheck | LeaseExpiresAtCheck | LeaseGenerationCheck
    | RunIdCheck | NodeIdCheck
    | ActiveLeaseCheck | LeaseBindingCheck | LeaseStatusCheck | LeaseExpiryCheck

  predicate Readable(e: Envelope) {
    IsText(e.attemptId) && IsText(e.fencingToken) && IsText(e.agentInstance) && IsText(e.leaseExpiresAt)
        && e.leaseGeneration >= 0
  }

  /** The comparison of the attempt's own values, then of the execution identity, which is not stripped. */
  predicate Binds(e: Envelope, lease: WorkLease) {
    && Readable(e)
    && e.attemptId == lease.attemptId && Trimmed(e.attemptId)
    && e.fencingToken == lease.fencingToken && Trimmed(e.fencingToken)
    && Strip(e.agentInstance) == lease.holder && Strip(e.leaseExpiresAt) == lease.expiresAt
    && (lease.generation.Some? ==> e.leaseGeneration == lease.generation.value)
    && e.runId == lease.runId && e.nodeId == lease.nodeId
  }

  /** Mismatches in the order they are found. */
  function Found(e: Envelope, lease: WorkLease): seq<Check> {
    FoundInAttempt(e, lease) + FoundInIdentity(e, lease)
  }

  function FoundInAttempt(e: Envelope, lease: WorkLease): seq<Check> {
    Fails(Strip(e.attemptId) != lease.attemptId, AttemptIdCheck)
    + Fails(Strip(e.fencingToken) != lease.fencingToken, FencingTokenCheck)
    + Fails(Strip(e.agentInstance) != lease.holder, HolderCheck)
    + Fails(Strip(e.leaseExpiresAt) != lease.expiresAt, LeaseExpiresAtCheck)
    + Fails(lease.generation.Some? && e.leaseGeneration != lease.generation.value, LeaseGenerationCheck)
  }

  function FoundInIdentity(e: Envelope, lease: WorkLease): seq<Check> {
    Fails(e.runId != lease.runId, RunIdCheck) + Fails(e.nodeId != lease.nodeId, NodeIdCheck)
    + Fails(e.attemptId != lease.attemptId, AttemptIdCheck)
    + Fails(e.fencingToken != lease.fencingToken, FencingTokenCheck)
  }

  function Fails(mismatch: bool, check: Check): seq<Check> {
    if mismatch then [check] else []
  }

  lemma NothingFound(e: Envelope, lease: WorkLease)
    requires Readable(e)
    ensures Found(e, lease) == [] <==> Binds(e, lease)
  {
    hide Strip;
    StripTrims(e.attemptId);
    StripTrims(e.fencingToken);
  }

  lemma FoundInAttemptExactly(e: Envelope, lease: WorkLease, c: Check)
    ensures c in FoundInAttempt(e, lease) <==>
              match c
              case AttemptIdCheck => Strip(e.attemptId) != lease.attemptId
              case FencingTokenCheck => Strip(e.fencingToken) != lease.fencingToken
              case HolderCheck => Strip(e.agentInstance) != lease.holder
              case LeaseExpiresAtCheck => Strip(e.leaseExpiresAt) != lease.expiresAt
              case LeaseGenerationCheck => lease.generation.Some? && lease.generation != Some(e.leaseGeneration)
              case _ => false
  {
    hide Strip;
  }

  lemma FoundInIdentityExactly(e: Envelope, lease: WorkLease, c: Check)
    ensures c in FoundInIdentity(e, lease) <==>
              match c
              case AttemptIdCheck => e.attemptId != lease.attemptId
              case FencingTokenCheck => e.fencingToken != lease.fencingToken
              case RunIdCheck => e.runId != lease.runId
              case NodeIdCheck => e.nodeId != lease.nodeId
              case _ => false
  {
  }

  /** Which mismatch is reported for which difference. */
  lemma FoundExactly(e: Envelope, lease: WorkLease, c: Check)
    ensures c in Found(e, lease) <==>
              match c
              case AttemptIdCheck => e.attemptId != lease.attemptId || Strip(e.attemptId) != lease.attemptId
              case FencingTokenCheck => e.fencingToken != lease.fencingToken
                  || Strip(e.fencingToken) != lease.fencingToken
              case HolderCheck => Strip(e.agentInstance) != lease.holder
              case LeaseExpiresAtCheck => Strip(e.leaseExpiresAt) != lease.expiresAt
              case LeaseGenerationCheck => lease.generation.Some? && lease.generation != Some(e.leaseGeneration)
              case RunIdCheck => e.runId != lease.runId
              case NodeIdCheck => e.nodeId != lease.nodeId
              case _ => false
  {
    hide Strip, FoundInAttempt, FoundInIdentity;
    FoundInAttemptExactly(e, lease, c);
    FoundInIdentityExactly(e, lease, c);
  }

  /** Bind, or report what does not agree, each mismatch once in the order found. */
  method BindAttemptToWorkLease(e: Envelope, lease: WorkLease) returns (failed: Option<seq<Check>>)
    ensures failed.None? <==> Binds(e, lease)
    ensures failed.Some? ==> failed.value == if Readable(e) then Unique(Found(e, lease)) else []
  {
    hide Strip, Unique, Fails;
    if !Readable(e) {
      return Some([]);
    }
    var found := Fails(Strip(e.attemptId) != lease.attemptId, AttemptIdCheck);
    found := found + Fails(Strip(e.fencingToken) != lease.fencingToken, FencingTokenCheck);
    found := found + Fails(Strip(e.agentInstance) != lease.holder, HolderCheck);
    found := found + Fails(Strip(e.leaseExpiresAt) != lease.expiresAt, LeaseExpiresAtCheck);
    found := found + Fails(lease.generation.Some? && e.leaseGeneration != lease.generation.value, LeaseGenerationCheck);
    assert found == FoundInAttempt(e, lease);
    var more := Fails(e.runId != lease.runId, RunIdCheck);
    more := more + Fails(e.nodeId != lease.nodeId, NodeIdCheck);
    more := more + Fails(e.attemptId != lease.attemptId, AttemptIdCheck);
    more := more + Fails(e.fencingToken != lease.fencingToken, FencingTokenCheck);
    assert more == FoundInIdentity(e, lease);
    found := found + more;
    NothingFound(e, lease);
    if found != [] {
      var ordered := FirstOccurrences(found);
      return Some(ordered);
    }
    return None;
  }

  // ---- the fence on results ----

  datatype FenceDecision = FenceDecision(disposition: Disposition, advancesState: bool, evidenceOnly: bool,
      failed: seq<Check>)

  datatype TimeError = TimeRequired | TimeInvalid

  /** Reading a timestamp as an instant; None for text that is not a timestamp with a timezone. */
  type Clock = string -> Option<int>

  function InstantOf(clock: Clock, s: string): Option<int> {
    if IsText(s) then clock(Strip(s)) else None
  }

  function EvidenceOnly(failed: seq<Check>): FenceDecision {
    FenceDecision(StaleResult, false, true, failed)
  }

  function ResultFence(clock: Clock, e: Envelope, active: Option<WorkLease>,
      now: Option<string>): Result<FenceDecision, TimeError> {
    if active.None? then Ok(EvidenceOnly([ActiveLeaseCheck]))
    else if !Binds(e, active.value) then
      Ok(EvidenceOnly(if Readable(e) then Unique(Found(e, active.value)) else [LeaseBindingCheck]))
    else if !active.value.status.Active? then Ok(EvidenceOnly([LeaseStatusCheck]))
    else if now.None? then Err(TimeRequired)
    else
      var expires, at := InstantOf(clock, active.value.expiresAt), InstantOf(clock, now.value);
      if expires.None? || at.None? then Err(TimeInvalid)
      else if expires.value < at.value then Ok(EvidenceOnly([LeaseExpiryCheck]))
      else Ok(FenceDecision(Accepted, true, false, []))
  }

  method EvaluateResultFence(clock: Clock, e: Envelope, active: Option<WorkLease>, now: Option<string>)
      returns (r: Result<FenceDecision, TimeError>)
    ensures r == ResultFence(clock, e, active, now)
    ensures r.Ok? ==>
            (r.value.advancesState <==> r.value.disposition.Accepted?)
                && (r.value.evidenceOnly <==> r.value.failed != [])
  {
    if active.None? {
      return Ok(EvidenceOnly([ActiveLeaseCheck]));
    }
    var lease := active.value;
    var failed := BindAttemptToWorkLease(e, lease);
    if failed.Some? {
      if Readable(e) { NothingFound(e, lease); }
      return Ok(EvidenceOnly(if failed.value != [] then failed.value else [LeaseBindingCheck]));
    }
    if !lease.status.Active? {
      return Ok(EvidenceOnly([LeaseStatusCheck]));
    }
    if now.None? {
      return Err(TimeRequired);
    }
    var expires, at := InstantOf(clock, lease.expiresAt), InstantOf(clock, now.value);
    if expires.None? || at.None? {
      return Err(TimeInvalid);
    }
    if expires.value < at.value {
      return Ok(EvidenceOnly([LeaseExpiryCheck]));
    }
    return Ok(FenceDecision(Accepted, true, false, []));
  }

  /** Why a result is evidence only: no lease, no binding, a lease no longer active, or one past its expiry; an
      active lease it binds cannot be judged without readable instants. */
  lemma StaleExactly(clock: Clock, e: Envelope, active: Option<WorkLease>, now: Option<string>)
    ensures var r := ResultFence(clock, e, active, now);
            && (active.None? <==> r == Ok(EvidenceOnly([ActiveLeaseCheck])))
            && (active.Some? && Binds(e, active.value) && !active.value.status.Active? <==>
                  r == Ok(EvidenceOnly([LeaseStatusCheck])))
            && (active.Some? && Binds(e, active.value) && active.value.status.Active? ==>
                  && (r == Err(TimeRequired) <==> now.None?)
                  && (r == Err(TimeInvalid) <==>
                        now.Some? && (InstantOf(clock, now.value).None?
                            || InstantOf(clock, active.value.expiresAt).None?))
                  && (r == Ok(EvidenceOnly([LeaseExpiryCheck])) <==>
                        && now.Some? && InstantOf(clock, now.value).Some?
                        && InstantOf(clock, active.value.expiresAt).Some?
                        && InstantOf(clock, active.value.expiresAt).value < InstantOf(clock, now.value).value))
            && (active.Some? && !Binds(e, active.value) ==> r.Ok? && r.value.evidenceOnly && !r.value.advancesState)
  {
    hide Strip, Unique, Found;
    if active.Some? {
      forall c | c in Unique(Found(e, active.value)) ensures !c.ActiveLeaseCheck? && !c.LeaseStatusCheck? {
        FoundExactly(e, active.value, c);
      }
      if Readable(e) { NothingFound(e, active.value); }
      var u := Unique(Found(e, active.value));
      assert u != [ActiveLeaseCheck] && u != [LeaseStatusCheck] by {
        assert ActiveLeaseCheck in [ActiveLeaseCheck] && LeaseStatusCheck in [LeaseStatusCheck];
      }
    }
  }

  /** A result advances state exactly when it binds an active lease at an instant not after its expiry. */
  lemma AdvancesExactly(clock: Clock, e: Envelope, active: Option<WorkLease>, now: Option<string>)
    ensures var r := ResultFence(clock, e, active, now);
            (r.Ok? && r.value.advancesState) <==>
              && active.Some? && Binds(e, active.value) && active.value.status.Active? && now.Some?
              && InstantOf(clock, active.value.expiresAt).Some? && InstantOf(clock, now.value).Some?
              && InstantOf(clock, now.value).value <= InstantOf(clock, active.value.expiresAt).value
  {
  }
}
