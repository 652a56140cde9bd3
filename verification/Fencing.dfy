/** Retries and takeovers of one logical contract, and the fence that lets only the newest attempt advance. */
module Fencing {
  import opened Results
  import opened Sequences
  import opened Text

  /** The caller-bound request; `payload` stands for the members that neither path compares. */
  datatype Request = Request(
    contract: Contract, standardsProfile: Profile, executionId: Option<string>, producerNamespace: string,
    producerActorId: string,
    attemptId: string, attemptNumber: int, messageId: string, seqNo: int, correlationId: string, agentInstance: string,
    leaseGeneration: int, fencingToken: string, leaseExpiresAt: string, idempotencyKey: string, payload: string)

  datatype Contract = Contract(
    runId: string, nodeId: string, contractId: string, planVersion: string, contractDigest: string,
    boundaryDigest: string,
    sourceDigest: string, sourceManifestRef: string, standardsProfileRef: Option<string>, objective: string,
    scope: string,
    authorityConstraints: string, acceptanceCriteria: seq<string>, sourceRefs: seq<string>, evidenceRefs: seq<string>,
    recipientCapability: string, environmentRequirements: string)

  datatype Profile = Profile(profileId: string, version: string, digest: string)

  /** What compiling a request decides beyond the fields modelled here: whether it is well formed at all,
      and the scope that task scope and authority constraints agree on. */
  datatype Compiler = Compiler(compiles: Request -> bool, scopeOf: (string, string) -> string)

  datatype FenceError =
    | NotCompilable | SchemaInvalid | MustBeNew | InvalidSequence | StaleGeneration
    | TakeoverContractMismatch | TakeoverIdentityMismatch(field: Field) | TakeoverOrderInvalid(on: Ordered)
    | TakeoverFenceReuse | TakeoverIdempotencyReuse

  datatype Ordered = MessageId | SeqNo | Generation

  // ---- retry ----

  datatype RetryInput = RetryInput(
    messageId: string, seqNo: int, attemptId: string, leaseGeneration: int, fencingToken: string,
    leaseExpiresAt: string, idempotencyKey: string, correlationId: Option<string>)

  predicate IsText(s: string) {
    Strip(s) != "" && '\0' !in s
  }

  function Fresh(s: string, previous: string): Option<FenceError> {
    if !IsText(s) then Some(SchemaInvalid) else if s == previous then Some(MustBeNew) else None
  }

  /** The checks of a retry, in order. */
  function RetryErrors(c: Compiler, previous: Request, input: RetryInput): seq<Option<FenceError>> {
    [
     if c.compiles(previous) then None else Some(NotCompilable),
     Fresh(input.messageId, previous.messageId),
     Fresh(input.attemptId, previous.attemptId),
     Fresh(input.fencingToken, previous.fencingToken),
     Fresh(input.idempotencyKey, previous.idempotencyKey),
     if IsText(input.leaseExpiresAt) then None else Some(SchemaInvalid),
     if input.seqNo < 0 then Some(SchemaInvalid) else if input.seqNo <= previous.seqNo then Some(InvalidSequence)
       else None,
     if input.leaseGeneration < 0 then Some(SchemaInvalid)
     else if input.leaseGeneration <= previous.leaseGeneration then Some(StaleGeneration) else None,
     if input.correlationId.None? || IsText(input.correlationId.value) then None else Some(SchemaInvalid)]
  }

  function Retry(c: Compiler, previous: Request, input: RetryInput): Result<Request, FenceError> {
    var refusal := FirstOf(RetryErrors(c, previous, input));
    if refusal.Some? then Err(refusal.value)
    else
      Ok(previous.(
        messageId := input.messageId, seqNo := input.seqNo,
        correlationId := if input.correlationId.None? then previous.correlationId else input.correlationId.value,
        attemptId := input.attemptId, attemptNumber := previous.attemptNumber + 1,
        leaseGeneration := input.leaseGeneration,
        fencingToken := input.fencingToken, leaseExpiresAt := input.leaseExpiresAt,
        idempotencyKey := input.idempotencyKey))
  }

  /** Exactly when a retry is granted. */
  lemma RetryAdmitsExactly(c: Compiler, previous: Request, input: RetryInput)
    ensures Retry(c, previous, input).Ok? <==>
              && c.compiles(previous)
              && IsText(input.messageId) && input.messageId != previous.messageId
              && IsText(input.attemptId) && input.attemptId != previous.attemptId
              && IsText(input.fencingToken) && input.fencingToken != previous.fencingToken
              && IsText(input.idempotencyKey) && input.idempotencyKey != previous.idempotencyKey
              && IsText(input.leaseExpiresAt)
              && input.seqNo >= 0 && input.seqNo > previous.seqNo
              && input.leaseGeneration >= 0 && input.leaseGeneration > previous.leaseGeneration
              && (input.correlationId.Some? ==> IsText(input.correlationId.value))
    ensures Retry(c, previous, input).Ok? ==>
              Retry(c, previous, input).value.correlationId ==
                if input.correlationId.None? then previous.correlationId else input.correlationId.value
  {
    hide IsText;
    var errors := RetryErrors(c, previous, input);
    assert |errors| == 9;
    assert FirstOf(errors).None? <==>
             && errors[0].None? && errors[1].None? && errors[2].None? && errors[3].None? && errors[4].None?
             && errors[5].None? && errors[6].None? && errors[7].None? && errors[8].None?;
  }

  // ---- takeover: is it the same logical attempt? ----

  datatype Field =
    | RunIdField | NodeIdField | ContractIdField | PlanVersionField | ContractDigestField | BoundaryDigestField
    | SourceDigestField | SourceManifestRefField | StandardsProfileRefField | ObjectiveField | ScopeField
    | AuthorityConstraintsField
    | AcceptanceCriteriaField | SourceRefsField | EvidenceRefsField | RecipientCapabilityField
    | EnvironmentRequirementsField
    | ExecutionIdField | AttemptIdField | AttemptNumberField | ProducerNamespaceField | ProducerActorIdField

  datatype Value = Text(text: string) | Maybe(option: Option<string>) | Many(texts: seq<string>) | Number(number: int)

  const BoundFields: seq<Field> := [
    RunIdField, NodeIdField, ContractIdField, PlanVersionField, ContractDigestField, BoundaryDigestField,
    SourceDigestField,
    SourceManifestRefField, StandardsProfileRefField, ObjectiveField, ScopeField, AuthorityConstraintsField,
    AcceptanceCriteriaField, SourceRefsField, EvidenceRefsField, RecipientCapabilityField, EnvironmentRequirementsField,
    ExecutionIdField, AttemptIdField, AttemptNumberField, ProducerNamespaceField, ProducerActorIdField]

  function Get(r: Request, f: Field): Value {
    match f
    case RunIdField => Text(r.contract.runId)
    case NodeIdField => Text(r.contract.nodeId)
    case ContractIdField => Text(r.contract.contractId)
    case PlanVersionField => Text(r.contract.planVersion)
    case ContractDigestField => Text(r.contract.contractDigest)
    case BoundaryDigestField => Text(r.contract.boundaryDigest)
    case SourceDigestField => Text(r.contract.sourceDigest)
    case SourceManifestRefField => Text(r.contract.sourceManifestRef)
    case StandardsProfileRefField => Maybe(r.contract.standardsProfileRef)
    case ObjectiveField => Text(r.contract.objective)
    case ScopeField => Text(r.contract.scope)
    case AuthorityConstraintsField => Text(r.contract.authorityConstraints)
    case AcceptanceCriteriaField => Many(r.contract.acceptanceCriteria)
    case SourceRefsField => Many(r.contract.sourceRefs)
    case EvidenceRefsField => Many(r.contract.evidenceRefs)
    case RecipientCapabilityField => Text(r.contract.recipientCapability)
    case EnvironmentRequirementsField => Text(r.contract.environmentRequirements)
    case ExecutionIdField => Maybe(r.executionId)
    case AttemptIdField => Text(r.attemptId)
    case AttemptNumberField => Number(r.attemptNumber)
    case ProducerNamespaceField => Text(r.producerNamespace)
    case ProducerActorIdField => Text(r.producerActorId)
  }

  /** The logical contract as the compiled envelope states it, with the standards reference resolved. */
  datatype Logical = Logical(
    contractId: string, planVersion: string, contractDigest: string, boundaryDigest: string, sourceDigest: string,
    objective: string,
    scope: string, acceptanceCriteria: seq<string>, standardsRef: string, sourceManifestRef: string)

  function StandardsRef(r: Request): string {
    match r.contract.standardsProfileRef
    case Some(ref) => ref
    case None =>
      var version := r.standardsProfile.version;
      r.standardsProfile.profileId + "/" + if version != "" && version[0] == 'v' then version else "v" + version
  }

  /** Without an explicit reference the profile and its version name the standards, the version with a leading v. */
  lemma StandardsRefExactly(r: Request)
    ensures r.contract.standardsProfileRef.Some? ==> StandardsRef(r) == r.contract.standardsProfileRef.value
    ensures r.contract.standardsProfileRef.None? ==>
              var version, start := r.standardsProfile.version, r.standardsProfile.profileId + "/";
              if version != "" && version[0] == 'v' then StandardsRef(r) == start + version
              else StandardsRef(r) == start + "v" + version
  {
    var start := r.standardsProfile.profileId + "/";
    assert start + ("v" + r.standardsProfile.version) == start + "v" + r.standardsProfile.version;
  }

  function LogicalContract(c: Compiler, r: Request): Logical {
    var k := r.contract;
    Logical(k.contractId, k.planVersion, k.contractDigest, k.boundaryDigest, k.sourceDigest, k.objective,
            c.scopeOf(k.scope, k.authorityConstraints), k.acceptanceCriteria, StandardsRef(r), k.sourceManifestRef)
  }

  function FirstMismatch(prior: Request, replacement: Request, fields: seq<Field>): Option<Field> {
    if fields == [] then None
    else if Get(prior, fields[0]) != Get(replacement, fields[0]) then Some(fields[0])
    else FirstMismatch(prior, replacement, fields[1..])
  }

  function SameLogicalAttempt(c: Compiler, prior: Request, replacement: Request): Option<FenceError> {
    if !c.compiles(prior) || !c.compiles(replacement) then Some(NotCompilable)
    else if LogicalContract(c, prior) != LogicalContract(c, replacement) then Some(TakeoverContractMismatch)
    else if FirstMismatch(prior, replacement, BoundFields).Some? then
      Some(TakeoverIdentityMismatch(FirstMismatch(prior, replacement, BoundFields).value))
    else if replacement.messageId == prior.messageId then Some(TakeoverOrderInvalid(MessageId))
    else if replacement.seqNo <= prior.seqNo then Some(TakeoverOrderInvalid(SeqNo))
    else if replacement.leaseGeneration <= prior.leaseGeneration then Some(TakeoverOrderInvalid(Generation))
    else if replacement.fencingToken == prior.fencingToken then Some(TakeoverFenceReuse)
    else if replacement.idempotencyKey == prior.idempotencyKey then Some(TakeoverIdempotencyReuse)
    else None
  }

  /** Everything a takeover must leave alone. */
  predicate SameBinding(a: Request, b: Request) {
    && a.contract == b.contract && a.executionId == b.executionId
    && a.attemptId == b.attemptId && a.attemptNumber == b.attemptNumber
    && a.producerNamespace == b.producerNamespace && a.producerActorId == b.producerActorId
  }

  lemma {:induction false} FirstMismatchIs(prior: Request, replacement: Request, fields: seq<Field>)
    ensures FirstMismatch(prior, replacement, fields).None? <==>
            forall f :: f in fields ==> Get(prior, f) == Get(replacement, f)
    ensures var m := FirstMismatch(prior, replacement, fields);
            m.Some? ==> m.value in fields && Get(prior, m.value) != Get(replacement, m.value)
  {
    if fields != [] {
      FirstMismatchIs(prior, replacement, fields[1..]);
      assert fields == [fields[0]] + fields[1..];
    }
  }

  /** The table of compared fields covers the whole binding and nothing else. */
  lemma FieldsCoverBinding(prior: Request, replacement: Request)
    ensures FirstMismatch(prior, replacement, BoundFields).None? <==> SameBinding(prior, replacement)
  {
    hide FirstMismatch;
    FirstMismatchIs(prior, replacement, BoundFields);
    forall f: Field ensures f in BoundFields { EveryFieldListed(f); }
    if SameBinding(prior, replacement) {
      assert forall f :: Get(prior, f) == Get(replacement, f);
    }
    if FirstMismatch(prior, replacement, BoundFields).None? {
      forall f: Field ensures Agree(prior, replacement, f) { assert f in BoundFields; }
      AgreementIsBinding(prior, replacement);
    }
  }

  lemma EveryFieldListed(f: Field)
    ensures f in BoundFields
  {
    var k :=
      match f
      case RunIdField => 0 case NodeIdField => 1 case ContractIdField => 2 case PlanVersionField => 3
      case ContractDigestField => 4
      case BoundaryDigestField => 5 case SourceDigestField => 6 case SourceManifestRefField => 7
      case StandardsProfileRefField => 8
      case ObjectiveField => 9 case ScopeField => 10 case AuthorityConstraintsField => 11
      case AcceptanceCriteriaField => 12
      case SourceRefsField => 13 case EvidenceRefsField => 14 case RecipientCapabilityField => 15
      case EnvironmentRequirementsField => 16 case ExecutionIdField => 17 case AttemptIdField => 18
      case AttemptNumberField => 19
      case ProducerNamespaceField => 20 case ProducerActorIdField => 21;
    assert BoundFields[k] == f;
  }

  predicate Agree(a: Request, b: Request, f: Field) {
    Get(a, f) == Get(b, f)
  }

  lemma AgreementIsBinding(a: Request, b: Request)
    requires forall f :: Agree(a, b, f)
    ensures SameBinding(a, b)
  {
    hide Agree;
    NamesAgree(a, b);
    DigestsAgree(a, b);
    TermsAgree(a, b);
    ReferencesAgree(a, b);
    IssuersAgree(a, b);
  }

  lemma NamesAgree(a: Request, b: Request)
    requires forall f :: Agree(a, b, f)
    ensures a.contract.runId == b.contract.runId
         && a.contract.nodeId == b.contract.nodeId
         && a.contract.contractId == b.contract.contractId
         && a.contract.planVersion == b.contract.planVersion
  {
    assert Agree(a, b, RunIdField) && Agree(a, b, NodeIdField) && Agree(a, b, ContractIdField)
        && Agree(a, b, PlanVersionField);
  }

  lemma DigestsAgree(a: Request, b: Request)
    requires forall f :: Agree(a, b, f)
    ensures a.contract.contractDigest == b.contract.contractDigest
         && a.contract.boundaryDigest == b.contract.boundaryDigest
         && a.contract.sourceDigest == b.contract.sourceDigest
         && a.contract.sourceManifestRef == b.contract.sourceManifestRef
  {
    assert Agree(a, b, ContractDigestField) && Agree(a, b, BoundaryDigestField) && Agree(a, b, SourceDigestField)
        && Agree(a, b, SourceManifestRefField);
  }

  lemma TermsAgree(a: Request, b: Request)
    requires forall f :: Agree(a, b, f)
    ensures a.contract.standardsProfileRef == b.contract.standardsProfileRef
         && a.contract.objective == b.contract.objective
         && a.contract.scope == b.contract.scope
         && a.contract.authorityConstraints == b.contract.authorityConstraints
         && a.contract.acceptanceCriteria == b.contract.acceptanceCriteria
  {
    assert Agree(a, b, StandardsProfileRefField) && Agree(a, b, ObjectiveField) && Agree(a, b, ScopeField)
        && Agree(a, b, AuthorityConstraintsField) && Agree(a, b, AcceptanceCriteriaField);
  }

  lemma ReferencesAgree(a: Request, b: Request)
    requires forall f :: Agree(a, b, f)
    ensures a.contract.sourceRefs == b.contract.sourceRefs
         && a.contract.evidenceRefs == b.contract.evidenceRefs
         && a.contract.recipientCapability == b.contract.recipientCapability
         && a.contract.environmentRequirements == b.contract.environmentRequirements
         && a.executionId == b.executionId
  {
    assert Agree(a, b, SourceRefsField) && Agree(a, b, EvidenceRefsField) && Agree(a, b, RecipientCapabilityField)
        && Agree(a, b, EnvironmentRequirementsField) && Agree(a, b, ExecutionIdField);
  }

  lemma IssuersAgree(a: Request, b: Request)
    requires forall f :: Agree(a, b, f)
    ensures a.attemptId == b.attemptId
         && a.attemptNumber == b.attemptNumber
         && a.producerNamespace == b.producerNamespace
         && a.producerActorId == b.producerActorId
  {
    assert Agree(a, b, AttemptIdField) && Agree(a, b, AttemptNumberField) && Agree(a, b, ProducerNamespaceField)
        && Agree(a, b, ProducerActorIdField);
  }

  /** Exactly which replacements count as the same logical attempt under a newer fence. */
  lemma TakeoverAdmitsExactly(c: Compiler, prior: Request, replacement: Request)
    ensures SameLogicalAttempt(c, prior, replacement).None? <==>
              && c.compiles(prior) && c.compiles(replacement)
              && SameBinding(prior, replacement) && StandardsRef(prior) == StandardsRef(replacement)
              && replacement.seqNo > prior.seqNo && replacement.leaseGeneration > prior.leaseGeneration
              && replacement.messageId != prior.messageId && replacement.fencingToken != prior.fencingToken
              && replacement.idempotencyKey != prior.idempotencyKey
  {
    hide FirstMismatch, StandardsRef, Get;
    FieldsCoverBinding(prior, replacement);
  }

  // ---- the fence ----

  datatype FenceField = RunId | NodeId | AttemptId | LeaseGeneration | FencingToken | ExecutionId

  /** An identity as supplied; None is a missing key. */
  datatype RawIdentity = RawIdentity(
    runId: Option<string>, nodeId: Option<string>, attemptId: Option<string>, leaseGeneration: Option<int>,
    fencingToken: Option<string>, executionId: Option<string>)

  datatype IdentityError = MissingFields(fields: seq<FenceField>) | Malformed | Stale(failed: seq<FenceField>)

  datatype Disposition = Accepted | StaleResult

  datatype Decision = Decision(disposition: Disposition, advancesState: bool, evidenceOnly: bool,
      failed: seq<FenceField>)

  const Required: seq<FenceField> := [RunId, NodeId, AttemptId, LeaseGeneration, FencingToken]
  const Compared: seq<FenceField> := [RunId, NodeId, AttemptId, LeaseGeneration, FencingToken, ExecutionId]

  function Lookup(id: RawIdentity, f: FenceField): Option<Value> {
    match f
    case RunId => AsText(id.runId)
    case NodeId => AsText(id.nodeId)
    case AttemptId => AsText(id.attemptId)
    case LeaseGeneration => if id.leaseGeneration.None? then None else Some(Number(id.leaseGeneration.value))
    case FencingToken => AsText(id.fencingToken)
    case ExecutionId => AsText(id.executionId)
  }

  /** Text values are compared without surrounding whitespace. */
  function AsText(s: Option<string>): Option<Value> {
    if s.None? then None else Some(Text(Strip(s.value)))
  }

  predicate WellFormed(id: RawIdentity) {
    && id.runId.Some? && IsText(id.runId.value) && id.nodeId.Some? && IsText(id.nodeId.value)
    && id.attemptId.Some? && IsText(id.attemptId.value) && id.fencingToken.Some? && IsText(id.fencingToken.value)
    && id.leaseGeneration.Some? && id.leaseGeneration.value >= 0
    && (id.executionId.Some? ==> IsText(id.executionId.value))
  }

  function Absent(id: RawIdentity): FenceField -> bool {
    (f: FenceField) => Lookup(id, f).None?
  }

  function Differs(a: RawIdentity, b: RawIdentity): FenceField -> bool {
    (f: FenceField) => Lookup(a, f).Some? && Lookup(b, f).Some? && Lookup(a, f) != Lookup(b, f)
  }

  method Collect(keep: FenceField -> bool, fields: seq<FenceField>) returns (found: seq<FenceField>)
    ensures found == Filter(keep, fields)
  {
    hide Filter;
    found := [];
    FilterEmpty(keep);
    for i := 0 to |fields|
      invariant found == Filter(keep, fields[..i])
    {
      assert fields[..i + 1] == fields[..i] + [fields[i]];
      FilterAppend(keep, fields[..i], fields[i]);
      if keep(fields[i]) {
        found := found + [fields[i]];
      }
    }
    assert fields[..|fields|] == fields;
  }

  method CheckIdentity(id: RawIdentity) returns (error: Option<IdentityError>)
    ensures error.None? <==> WellFormed(id)
    ensures error.Some? ==>
            error.value == if Filter(Absent(id), Required) != [] then MissingFields(Filter(Absent(id), Required))
              else Malformed
  {
    var missing := Collect(Absent(id), Required);
    if missing != [] {
      assert missing[0] in Required && Absent(id)(missing[0]);
      return Some(MissingFields(missing));
    }
    NothingAbsent(id);
    if !IsText(id.runId.value) || !IsText(id.nodeId.value) || !IsText(id.attemptId.value)
        || id.leaseGeneration.value < 0
       || !IsText(id.fencingToken.value) || (id.executionId.Some? && !IsText(id.executionId.value)) {
      return Some(Malformed);
    }
    return None;
  }

  lemma NothingAbsent(id: RawIdentity)
    requires Filter(Absent(id), Required) == []
    ensures id.runId.Some? && id.nodeId.Some? && id.attemptId.Some? && id.leaseGeneration.Some? && id.fencingToken.Some?
  {
    hide Filter;
    assert Required[0] == RunId && Required[1] == NodeId && Required[2] == AttemptId && Required[3] == LeaseGeneration
        && Required[4] == FencingToken;
    assert RunId in Required && NodeId in Required && AttemptId in Required && LeaseGeneration in Required
        && FencingToken in Required;
    assert !Absent(id)(RunId) && !Absent(id)(NodeId) && !Absent(id)(AttemptId) && !Absent(id)(LeaseGeneration)
        && !Absent(id)(FencingToken);
  }

  method EvaluateGenerationFence(candidate: RawIdentity, current: RawIdentity)
      returns (r: Result<Decision, IdentityError>)
    ensures r.Ok? <==> WellFormed(candidate) && WellFormed(current)
    ensures r.Ok? ==> r == Ok(Decide(candidate, current))
  {
    var error := CheckIdentity(candidate);
    if error.Some? {
      return Err(error.value);
    }
    error := CheckIdentity(current);
    if error.Some? {
      return Err(error.value);
    }
    var failed := Collect(Differs(candidate, current), Compared);
    if failed != [] {
      return Ok(Decision(StaleResult, false, true, failed));
    }
    return Ok(Decision(Accepted, true, false, []));
  }

  function Decide(candidate: RawIdentity, current: RawIdentity): Decision {
    var failed := Filter(Differs(candidate, current), Compared);
    if failed == [] then Decision(Accepted, true, false, []) else Decision(StaleResult, false, true, failed)
  }

  method RequireCurrentGeneration(candidate: RawIdentity, current: RawIdentity) returns (error: Option<IdentityError>)
    ensures error.None? <==> WellFormed(candidate) && WellFormed(current) && Decide(candidate, current).advancesState
    ensures WellFormed(candidate) && WellFormed(current) && error.Some? ==>
            error.value == Stale(Decide(candidate, current).failed)
  {
    var r := EvaluateGenerationFence(candidate, current);
    if r.Err? {
      return Some(r.error);
    }
    if !r.value.advancesState {
      return Some(Stale(r.value.failed));
    }
    return None;
  }

  /** Acceptance means agreement on the whole shared identity; a refusal names exactly the differing fields. */
  lemma FenceMeansAgreement(candidate: RawIdentity, current: RawIdentity)
    requires WellFormed(candidate) && WellFormed(current)
    ensures Decide(candidate, current).disposition.Accepted? <==>
              && Strip(candidate.runId.value) == Strip(current.runId.value)
              && Strip(candidate.nodeId.value) == Strip(current.nodeId.value)
              && Strip(candidate.attemptId.value) == Strip(current.attemptId.value)
              && candidate.leaseGeneration == current.leaseGeneration
              && Strip(candidate.fencingToken.value) == Strip(current.fencingToken.value)
              && (candidate.executionId.Some? && current.executionId.Some? ==>
                    Strip(candidate.executionId.value) == Strip(current.executionId.value))
    ensures forall f :: f in Decide(candidate, current).failed <==> Differs(candidate, current)(f)
  {
    hide Filter, Strip;
    assert Compared[0] == RunId && Compared[1] == NodeId && Compared[2] == AttemptId
        && Compared[3] == LeaseGeneration && Compared[4] == FencingToken && Compared[5] == ExecutionId;
    var failed := Filter(Differs(candidate, current), Compared);
    assert forall f :: f in failed <==> Differs(candidate, current)(f);
    if failed != [] {
      assert Differs(candidate, current)(failed[0]);
    } else {
      assert !Differs(candidate, current)(RunId) && !Differs(candidate, current)(NodeId)
          && !Differs(candidate, current)(AttemptId)
          && !Differs(candidate, current)(LeaseGeneration) && !Differs(candidate, current)(FencingToken)
          && !Differs(candidate, current)(ExecutionId);
    }
  }

  // ---- whole histories ----

  datatype Link = ByRetry(input: RetryInput) | ByTakeover(replacement: Request, selected: string)

  function Follow(c: Compiler, r: Request, link: Link): Result<Request, FenceError> {
    match link
    case ByRetry(input) => Retry(c, r, input)
    case ByTakeover(replacement, selected) =>
      var refusal := SameLogicalAttempt(c, r, replacement);
      if refusal.Some? then Err(refusal.value) else Ok(replacement.(agentInstance := selected))
  }

  function FollowAll(c: Compiler, r: Request, links: seq<Link>): Result<Request, FenceError> {
    if links == [] then Ok(r)
    else
      var before := FollowAll(c, r, links[..|links| - 1]);
      if before.Err? then before else Follow(c, before.value, links[|links| - 1])
  }

  function Retries(links: seq<Link>): nat {
    if links == [] then 0 else Retries(links[..|links| - 1]) + if links[|links| - 1].ByRetry? then 1 else 0
  }

  lemma LinkAdvances(c: Compiler, r: Request, link: Link)
    requires Follow(c, r, link).Ok?
    ensures var next := Follow(c, r, link).value;
            && next.leaseGeneration > r.leaseGeneration && next.seqNo > r.seqNo
            && next.fencingToken != r.fencingToken && next.idempotencyKey != r.idempotencyKey
            && next.messageId != r.messageId
            && next.contract == r.contract && StandardsRef(next) == StandardsRef(r) && next.executionId == r.executionId
            && next.producerNamespace == r.producerNamespace && next.producerActorId == r.producerActorId
            && next.attemptNumber == r.attemptNumber + (if link.ByRetry? then 1 else 0)
            && (next.attemptId == r.attemptId <==> link.ByTakeover?)
  {
    hide Strip, StandardsRef, SameLogicalAttempt;
    match link
    case ByRetry(input) => RetryAdvances(c, r, input);
    case ByTakeover(replacement, selected) =>
      TakeoverAdmitsExactly(c, r, replacement);
      SameStandards(replacement, selected);
  }

  lemma SameStandards(r: Request, selected: string)
    ensures StandardsRef(r.(agentInstance := selected)) == StandardsRef(r)
  {
  }

  lemma RetryAdvances(c: Compiler, r: Request, input: RetryInput)
    requires Retry(c, r, input).Ok?
    ensures var next := Retry(c, r, input).value;
            && next == r.(messageId := input.messageId, seqNo := input.seqNo, correlationId := next.correlationId,
                          attemptId := input.attemptId, attemptNumber := r.attemptNumber + 1,
                          leaseGeneration := input.leaseGeneration,
                          fencingToken := input.fencingToken, leaseExpiresAt := input.leaseExpiresAt,
                          idempotencyKey := input.idempotencyKey)
            && input.leaseGeneration > r.leaseGeneration && input.seqNo > r.seqNo
            && input.fencingToken != r.fencingToken && input.idempotencyKey != r.idempotencyKey
            && input.messageId != r.messageId
            && input.attemptId != r.attemptId && StandardsRef(next) == StandardsRef(r)
  {
    hide Strip;
    var errors := RetryErrors(c, r, input);
    assert FirstOf(errors).None?;
    assert errors[1].None? && errors[2].None? && errors[3].None? && errors[4].None? && errors[6].None?
        && errors[7].None?;
  }

  lemma {:induction false} PrefixFollows(c: Compiler, r: Request, links: seq<Link>, k: nat)
    requires FollowAll(c, r, links).Ok? && k <= |links|
    ensures FollowAll(c, r, links[..k]).Ok?
    decreases |links|
  {
    if k < |links| {
      PrefixFollows(c, r, links[..|links| - 1], k);
      assert links[..|links| - 1][..k] == links[..k];
    } else {
      assert links[..k] == links;
    }
  }

  /** Along any mixed history: generations and sequence numbers climb, the contract never changes, and the
      attempt number counts the retries. */
  lemma {:induction false} HistoryAdvances(c: Compiler, r: Request, links: seq<Link>, i: nat)
    requires FollowAll(c, r, links).Ok? && i <= |links|
    ensures FollowAll(c, r, links[..i]).Ok?
    ensures var early, late := FollowAll(c, r, links[..i]).value, FollowAll(c, r, links).value;
            && late.contract == early.contract && StandardsRef(late) == StandardsRef(early)
            && late.executionId == early.executionId
            && late.producerNamespace == early.producerNamespace && late.producerActorId == early.producerActorId
            && late.attemptNumber == early.attemptNumber + Retries(links) - Retries(links[..i])
            && late.leaseGeneration >= early.leaseGeneration + (|links| - i)
            && late.seqNo >= early.seqNo + (|links| - i)
    decreases |links|
  {
    hide Follow, StandardsRef;
    PrefixFollows(c, r, links, i);
    if i < |links| {
      var init := links[..|links| - 1];
      HistoryAdvances(c, r, init, i);
      assert init[..i] == links[..i];
      LinkAdvances(c, FollowAll(c, r, init).value, links[|links| - 1]);
    } else {
      assert links[..i] == links;
    }
  }

  function IdentityOf(r: Request): RawIdentity {
    RawIdentity(Some(r.contract.runId), Some(r.contract.nodeId), Some(r.attemptId), Some(r.leaseGeneration),
        Some(r.fencingToken), r.executionId)
  }

  /** Of all identities a history ever issued, the fence of link `j` accepts exactly link `j`'s own; every other
      one is evidence only and differs at least in its generation, however tokens and attempt names are reused. */
  lemma OnlyOwnLinkAccepted(c: Compiler, r: Request, links: seq<Link>, i: nat, j: nat)
    requires FollowAll(c, r, links).Ok? && i <= |links| && j <= |links|
    ensures FollowAll(c, r, links[..i]).Ok? && FollowAll(c, r, links[..j]).Ok?
    ensures var candidate, current := IdentityOf(FollowAll(c, r, links[..i]).value),
    IdentityOf(FollowAll(c, r, links[..j]).value);
            WellFormed(candidate) && WellFormed(current) ==>
              && (Decide(candidate, current).disposition.Accepted? <==> i == j)
              && (Decide(candidate, current).advancesState <==> i == j)
              && (i != j ==> LeaseGeneration in Decide(candidate, current).failed)
  {
    hide FollowAll, Follow, Filter, Strip;
    PrefixFollows(c, r, links, i);
    PrefixFollows(c, r, links, j);
    if i < j {
      assert links[..j][..i] == links[..i];
      HistoryAdvances(c, r, links[..j], i);
    } else if j < i {
      assert links[..i][..j] == links[..j];
      HistoryAdvances(c, r, links[..i], j);
    }
    var candidate, current := IdentityOf(FollowAll(c, r, links[..i]).value),
    IdentityOf(FollowAll(c, r, links[..j]).value);
    if WellFormed(candidate) && WellFormed(current) {
      FenceMeansAgreement(candidate, current);
      if i != j {
        assert Differs(candidate, current)(LeaseGeneration);
      }
    }
  }

  /** Two takeovers, routed to the agents their requests name. */
  function Twice(second: Request, third: Request): seq<Link> {
    [ByTakeover(second, second.agentInstance), ByTakeover(third, third.agentInstance)]
  }

  /** Two takeovers may bring an old token back; the generation alone then keeps the oldest holder out. */
  lemma TokenReuseStillFenced(c: Compiler, r: Request, second: Request, third: Request)
    requires FollowAll(c, r, Twice(second, third)) == Ok(third)
    requires third.fencingToken == r.fencingToken && WellFormed(IdentityOf(r))
    ensures WellFormed(IdentityOf(third)) ==>
              Decide(IdentityOf(r), IdentityOf(third)) == Decision(StaleResult, false, true, [LeaseGeneration])
  {
    var links := Twice(second, third);
    assert links[..1] == [links[0]] && links[..0] == [];
    assert links[..|links| - 1] == links[..1] && links[..1][..0] == [];
    ReuseChain(c, r, second, third);
    HistoryAdvances(c, r, links, 0);
    var a, b := IdentityOf(r), IdentityOf(third);
    var d := Differs(a, b);
    assert !d(RunId) && !d(NodeId) && !d(AttemptId) && d(LeaseGeneration) && !d(FencingToken) && !d(ExecutionId);
    FailedOnlyGeneration(d);
  }

  /** A request under the next sequence, generation and identities, and one under the fencing token given. */
  function Renewed(r: Request, token: string): Request {
    r.(messageId := r.messageId + "'", seqNo := r.seqNo + 1, leaseGeneration := r.leaseGeneration + 1,
       fencingToken := token, idempotencyKey := r.idempotencyKey + "'")
  }

  /** Any request can be taken over twice with its token coming back, as far as the renumbered requests compile. */
  lemma TokenMayReturn(c: Compiler, r: Request)
    requires var second := Renewed(r, r.fencingToken + "'");
             c.compiles(r) && c.compiles(second) && c.compiles(Renewed(second, r.fencingToken))
    ensures var second := Renewed(r, r.fencingToken + "'");
            var third := Renewed(second, r.fencingToken);
            && second.fencingToken != r.fencingToken && third.fencingToken == r.fencingToken
            && FollowAll(c, r, Twice(second, third)) == Ok(third)
  {
    hide SameLogicalAttempt, StandardsRef, FollowAll;
    var second := Renewed(r, r.fencingToken + "'");
    var third := Renewed(second, r.fencingToken);
    assert |r.fencingToken + "'"| != |r.fencingToken|;
    RenewedIsNew(r, second.fencingToken);
    RenewedIsNew(second, third.fencingToken);
    SameProfile(r, second);
    SameProfile(second, third);
    TakeoverAdmitsExactly(c, r, second);
    TakeoverAdmitsExactly(c, second, third);
    TwoTakeovers(c, r, second, third);
  }

  lemma RenewedIsNew(r: Request, token: string)
    ensures Renewed(r, token).messageId != r.messageId && Renewed(r, token).idempotencyKey != r.idempotencyKey
  {
    assert |r.messageId + "'"| != |r.messageId| && |r.idempotencyKey + "'"| != |r.idempotencyKey|;
  }

  lemma SameProfile(a: Request, b: Request)
    requires a.contract == b.contract && a.standardsProfile == b.standardsProfile
    ensures StandardsRef(a) == StandardsRef(b)
  {
  }

  lemma TwoTakeovers(c: Compiler, r: Request, second: Request, third: Request)
    requires SameLogicalAttempt(c, r, second).None? && SameLogicalAttempt(c, second, third).None?
    ensures FollowAll(c, r, Twice(second, third)) == Ok(third)
  {
    hide SameLogicalAttempt;
    var links := Twice(second, third);
    assert links[..|links| - 1] == [links[0]] && [links[0]][..0] == [];
    assert FollowAll(c, r, [links[0]]) == Ok(second);
  }

  lemma ReuseChain(c: Compiler, r: Request, second: Request, third: Request)
    requires FollowAll(c, r, Twice(second, third)) == Ok(third)
    ensures third.attemptId == r.attemptId && third.leaseGeneration > r.leaseGeneration && SameBinding(r, third)
  {
    hide SameLogicalAttempt, StandardsRef;
    var links := Twice(second, third);
    assert links[..1] == [links[0]] && links[..0] == [];
    assert links[..|links| - 1] == links[..1];
    assert [links[0]][..0] == [];
    assert FollowAll(c, r, []) == Ok(r);
    assert FollowAll(c, r, [links[0]]) == Follow(c, r, links[0]);
    assert FollowAll(c, r, links) == Follow(c, second, links[1]);
    TakeoverAdmitsExactly(c, r, second);
    TakeoverAdmitsExactly(c, second, third);
  }

  lemma FailedOnlyGeneration(d: FenceField -> bool)
    requires !d(RunId) && !d(NodeId) && !d(AttemptId) && d(LeaseGeneration) && !d(FencingToken) && !d(ExecutionId)
    ensures Filter(d, Compared) == [LeaseGeneration]
  {
    hide Filter;
    FilterEmpty(d);
    var s1 := [] + [RunId];
    var s2 := s1 + [NodeId];
    var s3 := s2 + [AttemptId];
    var s4 := s3 + [LeaseGeneration];
    var s5 := s4 + [FencingToken];
    FilterAppend(d, [], RunId);
    FilterAppend(d, s1, NodeId);
    FilterAppend(d, s2, AttemptId);
    FilterAppend(d, s3, LeaseGeneration);
    FilterAppend(d, s4, FencingToken);
    FilterAppend(d, s5, ExecutionId);
    assert s5 + [ExecutionId] == Compared;
  }
}
