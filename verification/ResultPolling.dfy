/** Resuming a controller from mailbox results: one fold over the events newer than a durable cursor. */
module ResultPolling {
  import opened Results
  import opened Sequences
  import opened Sorting
  import opened Text
  import LeaseBinding
  import opened Fencing

  datatype Identity = Identity(
    runId: string, nodeId: string, planVersion: string, contractDigest: string, boundaryDigest: string,
    attemptId: string, leaseGeneration: int, fencingToken: string, sourceDigest: string)

  datatype Kind = TerminalKind | ProgressKind | OtherKind

  datatype TerminalResult = TerminalResult(resultDigest: string, body: string)

  datatype ProgressOutcome = ProgressOutcome(body: string)

  /** A mailbox envelope; `terminal` and `progress` are what its payload parses to, None when it does not. */
  datatype Message = Message(
    identity: Identity, seqNo: int, kind: Kind, correlationId: string, agentInstance: string, leaseExpiresAt: string,
    standardsDigest: Option<string>, manifestDigest: string, payloadStandardsDigest: Option<string>,
    terminal: Option<TerminalResult>, progress: Option<ProgressOutcome>)

  datatype EventBody = EventBody(
    eventId: string, mailboxRef: string, producerNamespace: string, eventSeq: int, logicalSeq: int,
    envelopeDigest: Digest, message: Message)

  /** Digests are injective in what they cover. */
  datatype Digest = OfMessage(message: Message) | OfEvent(body: EventBody) | OtherDigest(text: string)

  datatype Event = Event(body: EventBody, eventDigest: Digest)

  datatype Position = Position(logicalSeq: int, eventSeq: int, eventId: string, eventDigest: Digest)

  /** A durable cursor of one actor; `at` is None before anything was acknowledged. */
  datatype Cursor = Cursor(mailboxRef: string, runId: string, nodeId: string, actorNamespace: string,
      at: Option<Position>)

  datatype LeaseInput = Unset | Given(lease: Option<LeaseBinding.WorkLease>)

  datatype Query = Query(
    cursor: Cursor, correlationId: string, identity: Identity, expectedSource: Option<string>,
    expectedStandards: Option<string>,
    expectedResult: Option<string>, lease: LeaseInput, now: Option<string>)

  datatype Reason =
    | ForeignEvent | NonResumableEvent | CorrelationMismatch | ExecutionIdentityMismatch
    | ActiveFenceMissing | ActiveFenceInactive | ActiveFenceExpired | ActiveFenceMismatch
    | StandardsDigestMismatch | SourceDigestMismatch | InvalidTerminalResult | ResultDigestMismatch

  datatype PollError =
    | BindingInvalid | CursorMismatch | DigestMismatch | SequenceMismatch | CursorConflict
    | LeaseBindingInvalid | ProgressInvalid | TerminalResultConflict | AcknowledgeFailed | PollRejected

  function LogicalAt(c: Cursor): int { if c.at.None? then -1 else c.at.value.logicalSeq }

  function EventAt(c: Cursor): int { if c.at.None? then -1 else c.at.value.eventSeq }

  // ---- one event ----

  predicate Intact(e: Event) {
    e.body.envelopeDigest == OfMessage(e.body.message) && e.eventDigest == OfEvent(e.body)
        && e.body.logicalSeq == e.body.message.seqNo
  }

  predicate Foreign(c: Cursor, e: Event) {
    || e.body.mailboxRef != c.mailboxRef || e.body.producerNamespace != c.actorNamespace
    || e.body.message.identity.runId != c.runId || e.body.message.identity.nodeId != c.nodeId
  }

  function PositionOf(e: Event): Position {
    Position(e.body.logicalSeq, e.body.eventSeq, e.body.eventId, e.eventDigest)
  }

  predicate Newer(c: Cursor, e: Event) {
    e.body.eventSeq > EventAt(c) && e.body.logicalSeq > LogicalAt(c)
  }

  /** The exact event the cursor stands on is a no-op; anything else must be newer in both sequences. */
  function Observe(c: Cursor, e: Event): Result<Cursor, PollError> {
    if c.at == Some(PositionOf(e)) then Ok(c)
    else if Newer(c, e) then Ok(c.(at := Some(PositionOf(e))))
    else Err(CursorConflict)
  }

  function EnvelopeOf(m: Message): LeaseBinding.Envelope {
    LeaseBinding.Envelope(m.identity.runId, m.identity.nodeId, m.identity.attemptId, m.identity.fencingToken,
                          m.identity.leaseGeneration, m.agentInstance, m.leaseExpiresAt)
  }

  datatype Verdict =
    | Ignore(reason: Reason)
    | Raise(error: PollError)
    | Progress(outcome: ProgressOutcome)
    | Terminal(result: TerminalResult)

  function FenceReason(failed: seq<LeaseBinding.Check>): Reason {
    if LeaseBinding.ActiveLeaseCheck in failed then ActiveFenceMissing
    else if LeaseBinding.LeaseStatusCheck in failed then ActiveFenceInactive
    else if LeaseBinding.LeaseExpiryCheck in failed then ActiveFenceExpired
    else ActiveFenceMismatch
  }

  function FenceVerdict(clock: LeaseBinding.Clock, q: Query, m: Message): Option<Verdict> {
    if q.lease.Unset? then None
    else
      var fence := LeaseBinding.ResultFence(clock, EnvelopeOf(m), q.lease.lease, q.now);
      if fence.Err? then Some(Raise(LeaseBindingInvalid))
      else if !fence.value.advancesState then Some(Ignore(FenceReason(fence.value.failed)))
      else None
  }

  /** What an observed event of the cursor's own stream counts as; it does not depend on the other events. */
  function Judge(clock: LeaseBinding.Clock, q: Query, m: Message): Verdict {
    if m.kind.OtherKind? then Ignore(NonResumableEvent)
    else if m.correlationId != Strip(q.correlationId) then Ignore(CorrelationMismatch)
    else if m.identity != q.identity then Ignore(ExecutionIdentityMismatch)
    else if FenceVerdict(clock, q, m).Some? then FenceVerdict(clock, q, m).value
    else if q.expectedStandards.Some? && m.standardsDigest != q.expectedStandards then Ignore(StandardsDigestMismatch)
    else if q.expectedSource.Some? && m.manifestDigest != q.expectedSource.value then Ignore(SourceDigestMismatch)
    else if m.kind.ProgressKind? then (if m.progress.None? then Raise(ProgressInvalid) else Progress(m.progress.value))
    else if m.terminal.None? then Ignore(InvalidTerminalResult)
    else if m.standardsDigest != m.payloadStandardsDigest then Ignore(StandardsDigestMismatch)
    else if q.expectedResult.Some? && m.terminal.value.resultDigest != q.expectedResult.value
      then Ignore(ResultDigestMismatch)
    else Terminal(m.terminal.value)
  }

  /** The message answers this query: asked correlation and identity, a lease that it binds, active and not past
      its expiry if one is given, and every digest the query asks for. */
  predicate Answers(clock: LeaseBinding.Clock, q: Query, m: Message) {
    && m.correlationId == Strip(q.correlationId) && m.identity == q.identity
    && (q.lease.Given? ==> FencePasses(clock, q, m))
    && (q.expectedStandards.Some? ==> m.standardsDigest == Some(q.expectedStandards.value))
    && (q.expectedSource.Some? ==> m.manifestDigest == q.expectedSource.value)
  }

  predicate FencePasses(clock: LeaseBinding.Clock, q: Query, m: Message)
    requires q.lease.Given?
  {
    && q.lease.lease.Some? && LeaseBinding.Binds(EnvelopeOf(m), q.lease.lease.value)
    && q.lease.lease.value.status.Active?
    && q.now.Some? && LeaseBinding.InstantOf(clock, q.now.value).Some?
    && LeaseBinding.InstantOf(clock, q.lease.lease.value.expiresAt).Some?
    && LeaseBinding.InstantOf(clock, q.now.value).value
       <= LeaseBinding.InstantOf(clock, q.lease.lease.value.expiresAt).value
  }

  /** A terminal message that answers the query, with a readable result under its own standards digest and the
      result digest asked for. */
  predicate GenuineTerminal(clock: LeaseBinding.Clock, q: Query, m: Message) {
    && m.kind.TerminalKind? && Answers(clock, q, m)
    && m.terminal.Some? && m.payloadStandardsDigest == m.standardsDigest
    && (q.expectedResult.Some? ==> m.terminal.value.resultDigest == q.expectedResult.value)
  }

  /** A progress message that answers the query, with a readable outcome. */
  predicate GenuineProgress(clock: LeaseBinding.Clock, q: Query, m: Message) {
    m.kind.ProgressKind? && Answers(clock, q, m) && m.progress.Some?
  }

  lemma FenceVerdictExactly(clock: LeaseBinding.Clock, q: Query, m: Message)
    requires q.lease.Given?
    ensures FenceVerdict(clock, q, m).None? <==> FencePasses(clock, q, m)
    ensures FenceVerdict(clock, q, m) == Some(Raise(LeaseBindingInvalid)) <==> FenceUnreadable(clock, q, m)
    ensures FenceVerdict(clock, q, m).Some? ==>
              FenceVerdict(clock, q, m).value.Ignore? || FenceVerdict(clock, q, m).value == Raise(LeaseBindingInvalid)
  {
    hide Strip, LeaseBinding.Binds, Unique, LeaseBinding.Found;
  }

  /** An own message becomes an outcome if and only if it is genuine, and then with exactly what it carries; a
      progress message that answers the query but cannot be read aborts. */
  lemma JudgedExactly(clock: LeaseBinding.Clock, q: Query, m: Message)
    ensures Judge(clock, q, m).Terminal? <==> GenuineTerminal(clock, q, m)
    ensures Judge(clock, q, m).Terminal? ==> Judge(clock, q, m).result == m.terminal.value
    ensures Judge(clock, q, m).Progress? <==> GenuineProgress(clock, q, m)
    ensures Judge(clock, q, m).Progress? ==> Judge(clock, q, m).outcome == m.progress.value
    ensures Judge(clock, q, m) == Raise(ProgressInvalid) <==>
            m.kind.ProgressKind? && Answers(clock, q, m) && m.progress.None?
    ensures Judge(clock, q, m) == Raise(LeaseBindingInvalid) <==>
              !m.kind.OtherKind? && m.correlationId == Strip(q.correlationId) && m.identity == q.identity
                  && FenceUnreadable(clock, q, m)
    ensures Judge(clock, q, m).Raise? ==>
            Judge(clock, q, m).error.ProgressInvalid? || Judge(clock, q, m).error.LeaseBindingInvalid?
  {
    hide Strip, FencePasses, FenceUnreadable, LeaseBinding.ResultFence;
    if q.lease.Given? {
      FenceVerdictExactly(clock, q, m);
    } else {
      NothingUnreadable(clock, q, m);
    }
  }

  /** The message binds an active lease, but an instant needed to judge its expiry is missing or unreadable. */
  predicate FenceUnreadable(clock: LeaseBinding.Clock, q: Query, m: Message) {
    && q.lease.Given? && q.lease.lease.Some? && LeaseBinding.Binds(EnvelopeOf(m), q.lease.lease.value)
    && q.lease.lease.value.status.Active?
    && (q.now.None? || LeaseBinding.InstantOf(clock, q.now.value).None?
        || LeaseBinding.InstantOf(clock, q.lease.lease.value.expiresAt).None?)
  }

  lemma NothingUnreadable(clock: LeaseBinding.Clock, q: Query, m: Message)
    requires q.lease.Unset?
    ensures !FenceUnreadable(clock, q, m)
  {
  }

  /** Why an own message is ignored, check by check in the order of the checks. */
  lemma IgnoredExactly(clock: LeaseBinding.Clock, q: Query, m: Message)
    ensures Judge(clock, q, m) == Ignore(NonResumableEvent) <==> m.kind.OtherKind?
    ensures !m.kind.OtherKind? ==>
              (Judge(clock, q, m) == Ignore(CorrelationMismatch) <==> m.correlationId != Strip(q.correlationId))
    ensures !m.kind.OtherKind? && m.correlationId == Strip(q.correlationId) ==>
              (Judge(clock, q, m) == Ignore(ExecutionIdentityMismatch) <==> m.identity != q.identity)
    ensures Current(clock, q, m) ==>
              && (Judge(clock, q, m) == Ignore(SourceDigestMismatch) <==>
                    && (q.expectedStandards.Some? ==> m.standardsDigest == Some(q.expectedStandards.value))
                    && q.expectedSource.Some? && m.manifestDigest != q.expectedSource.value)
              && (Judge(clock, q, m) == Ignore(StandardsDigestMismatch) <==>
                    || (q.expectedStandards.Some? && m.standardsDigest != Some(q.expectedStandards.value))
                    || (Answers(clock, q, m) && m.kind.TerminalKind? && m.terminal.Some?
                        && m.standardsDigest != m.payloadStandardsDigest))
              && (Judge(clock, q, m) == Ignore(InvalidTerminalResult) <==>
                    Answers(clock, q, m) && m.kind.TerminalKind? && m.terminal.None?)
              && (Judge(clock, q, m) == Ignore(ResultDigestMismatch) <==>
                    && Answers(clock, q, m) && m.kind.TerminalKind? && m.terminal.Some?
                    && m.standardsDigest == m.payloadStandardsDigest
                    && q.expectedResult.Some? && m.terminal.value.resultDigest != q.expectedResult.value)
  {
    hide Strip, FencePasses, FenceUnreadable, LeaseBinding.ResultFence;
    if q.lease.Given? {
      FenceVerdictExactly(clock, q, m);
      FenceReasons(clock, q, m);
    }
  }

  /** Asked for and current: correlation, identity and fence. */
  predicate Current(clock: LeaseBinding.Clock, q: Query, m: Message) {
    && !m.kind.OtherKind? && m.correlationId == Strip(q.correlationId) && m.identity == q.identity
    && (q.lease.Given? ==> FencePasses(clock, q, m))
  }

  /** A fence that does not pass gives its own reason: no lease, one that is not active, one past its expiry, or one
      the message does not bind. */
  lemma FenceReasons(clock: LeaseBinding.Clock, q: Query, m: Message)
    requires q.lease.Given?
    ensures var v := FenceVerdict(clock, q, m);
            && (v == Some(Ignore(ActiveFenceMissing)) <==> q.lease.lease.None?)
            && (q.lease.lease.Some? ==>
                  && (v == Some(Ignore(ActiveFenceMismatch)) <==>
                        !LeaseBinding.Binds(EnvelopeOf(m), q.lease.lease.value))
                  && (v == Some(Ignore(ActiveFenceInactive)) <==>
                        LeaseBinding.Binds(EnvelopeOf(m), q.lease.lease.value) && !q.lease.lease.value.status.Active?))
            && (v.Some? && v.value.Ignore? ==>
                  v.value.reason in {ActiveFenceMissing, ActiveFenceInactive, ActiveFenceExpired, ActiveFenceMismatch})
  {
    hide Strip, LeaseBinding.Binds, Unique, LeaseBinding.Found;
    if q.lease.lease.Some? {
      var lease := q.lease.lease.value;
      forall c: LeaseBinding.Check | c in Unique(LeaseBinding.Found(EnvelopeOf(m), lease))
        ensures !c.ActiveLeaseCheck? && !c.LeaseStatusCheck? && !c.LeaseExpiryCheck? {
        LeaseBinding.FoundExactly(EnvelopeOf(m), lease, c);
      }
    }
  }

  // ---- the scan ----

  datatype Scanned = Scanned(
    observed: seq<string>, ignoredIds: seq<string>, reasons: seq<Reason>, cursor: Cursor,
    selected: Option<TerminalResult>, progress: Option<ProgressOutcome>)

  function Start(q: Query): Scanned {
    Scanned([], [], [], q.cursor, None, None)
  }

  function Ignored(st: Scanned, e: Event, reason: Reason): Scanned {
    st.(ignoredIds := st.ignoredIds + [e.body.eventId], reasons := st.reasons + [reason])
  }

  function ScanStep(clock: LeaseBinding.Clock, q: Query, st: Scanned, e: Event): Result<Scanned, PollError> {
    if e.body.envelopeDigest != OfMessage(e.body.message) || e.eventDigest != OfEvent(e.body) then Err(DigestMismatch)
    else if e.body.logicalSeq != e.body.message.seqNo then Err(SequenceMismatch)
    else
      var seen := st.(observed := st.observed + [e.body.eventId]);
      if Foreign(q.cursor, e) then Ok(Ignored(seen, e, ForeignEvent))
      else if !Newer(q.cursor, e) then Err(SequenceMismatch)
      else if Observe(st.cursor, e).Err? then Err(CursorConflict)
      else
        var moved := seen.(cursor := Observe(st.cursor, e).value);
        match Judge(clock, q, e.body.message)
        case Raise(error) => Err(error)
        case Ignore(reason) => Ok(Ignored(moved, e, reason))
        case Progress(outcome) => Ok(moved.(progress := Some(outcome)))
        case Terminal(result) =>
          if st.selected.Some? && st.selected.value.resultDigest != result.resultDigest then Err(TerminalResultConflict)
          else Ok(moved.(selected := Some(result), progress := None))
  }

  function Scan(clock: LeaseBinding.Clock, q: Query, events: seq<Event>): Result<Scanned, PollError> {
    if events == [] then Ok(Start(q))
    else
      var before := Scan(clock, q, events[..|events| - 1]);
      if before.Err? then before else ScanStep(clock, q, before.value, events[|events| - 1])
  }

  function BySequence(): (Event, Event) -> bool {
    (a: Event, b: Event) => a.body.eventSeq <= b.body.eventSeq
  }

  predicate Own(q: Query, e: Event) {
    !Foreign(q.cursor, e)
  }

  predicate IsTerminal(clock: LeaseBinding.Clock, q: Query, e: Event) {
    Own(q, e) && Judge(clock, q, e.body.message).Terminal?
  }

  predicate IsProgress(clock: LeaseBinding.Clock, q: Query, e: Event) {
    Own(q, e) && Judge(clock, q, e.body.message).Progress?
  }

  /** Index `k` holds the last accepted terminal result. */
  ghost predicate LastTerminal(clock: LeaseBinding.Clock, q: Query, events: seq<Event>, k: nat) {
    k < |events| && IsTerminal(clock, q, events[k]) && forall i :: k < i < |events| ==> !IsTerminal(clock, q, events[i])
  }

  /** Index `k` holds the last accepted progress event, and no accepted terminal result follows it. */
  ghost predicate LastProgress(clock: LeaseBinding.Clock, q: Query, events: seq<Event>, k: nat) {
    k < |events| && IsProgress(clock, q, events[k])
    && forall i :: k < i < |events| ==> !IsTerminal(clock, q, events[i]) && !IsProgress(clock, q, events[i])
  }

  /** Index `k` holds the last event of the cursor's own stream. */
  ghost predicate LastOwn(q: Query, events: seq<Event>, k: nat) {
    k < |events| && Own(q, events[k]) && forall i :: k < i < |events| ==> !Own(q, events[i])
  }

  /** Where the cursor ends: on the last own event, having passed every own event and nothing else. */
  ghost predicate CursorCovers(q: Query, events: seq<Event>, c: Cursor) {
    && c == q.cursor.(at := c.at)
    && (c == q.cursor || exists k: nat :: LastOwn(q, events, k) && c.at == Some(PositionOf(events[k])))
    && (c == q.cursor ==> forall i :: 0 <= i < |events| ==> !Own(q, events[i]))
    && (forall i :: 0 <= i < |events| && Own(q, events[i]) ==>
          Newer(q.cursor, events[i]) && events[i].body.eventSeq <= EventAt(c)
              && events[i].body.logicalSeq <= LogicalAt(c))
  }

  /** The outcome kept is the last accepted terminal result, or the progress that followed everything else. */
  ghost predicate OutcomeIs(clock: LeaseBinding.Clock, q: Query, events: seq<Event>, st: Scanned) {
    && (match st.selected
        case None => forall i :: 0 <= i < |events| ==> !IsTerminal(clock, q, events[i])
        case Some(result) => exists k: nat ::
            LastTerminal(clock, q, events, k) && Judge(clock, q, events[k].body.message) == Terminal(result))
    && (forall i :: 0 <= i < |events| && IsTerminal(clock, q, events[i]) ==>
          st.selected.Some? && Judge(clock, q, events[i].body.message).result.resultDigest ==
              st.selected.value.resultDigest)
    && (match st.progress
        case None => forall k: nat :: !LastProgress(clock, q, events, k)
        case Some(outcome) => exists k: nat ::
            LastProgress(clock, q, events, k) && Judge(clock, q, events[k].body.message) == Progress(outcome))
  }

  predicate IsOutcome(clock: LeaseBinding.Clock, q: Query, e: Event) {
    IsTerminal(clock, q, e) || IsProgress(clock, q, e)
  }

  function Disregarded(clock: LeaseBinding.Clock, q: Query): Event -> bool {
    (e: Event) => !IsOutcome(clock, q, e)
  }

  function IdOf(): Event -> string {
    (e: Event) => e.body.eventId
  }

  /** Why an event that is no outcome is ignored. */
  function ReasonFor(clock: LeaseBinding.Clock, q: Query): Event -> Reason {
    (e: Event) =>
      if Own(q, e) && Judge(clock, q, e.body.message).Ignore? then Judge(clock, q, e.body.message).reason
        else ForeignEvent
  }

  /** What happens to every single event: it is intact and observed, and those that are no outcome are exactly the
      ignored ones, in order and each with its reason. */
  ghost predicate Accounted(clock: LeaseBinding.Clock, q: Query, events: seq<Event>, st: Scanned) {
    && st.observed == Map(IdOf(), events)
    && st.ignoredIds == Map(IdOf(), Filter(Disregarded(clock, q), events))
    && st.reasons == Map(ReasonFor(clock, q), Filter(Disregarded(clock, q), events))
    && forall i :: 0 <= i < |events| ==> Intact(events[i])
  }

  lemma CursorStep(clock: LeaseBinding.Clock, q: Query, events: seq<Event>, st: Scanned, e: Event)
    requires CursorCovers(q, events, st.cursor) && ScanStep(clock, q, st, e).Ok?
    ensures CursorCovers(q, events + [e], ScanStep(clock, q, st, e).value.cursor)
  {
    hide Judge, Strip;
    var all, c := events + [e], ScanStep(clock, q, st, e).value.cursor;
    assert forall i :: 0 <= i < |events| ==> all[i] == events[i];
    if Own(q, e) {
      assert c.at == Some(PositionOf(e));
      assert LastOwn(q, all, |events|) && all[|events|] == e;
    } else {
      assert c == st.cursor;
      if c != q.cursor {
        var k: nat :| LastOwn(q, events, k) && c.at == Some(PositionOf(events[k]));
        assert LastOwn(q, all, k) && all[k] == events[k];
      }
    }
  }

  lemma OutcomeStep(clock: LeaseBinding.Clock, q: Query, events: seq<Event>, st: Scanned, e: Event)
    requires OutcomeIs(clock, q, events, st) && ScanStep(clock, q, st, e).Ok?
    ensures OutcomeIs(clock, q, events + [e], ScanStep(clock, q, st, e).value)
  {
    hide Strip, Judge, Foreign, Newer, Observe;
    var all, next := events + [e], ScanStep(clock, q, st, e).value;
    assert all[|events|] == e && forall i :: 0 <= i < |events| ==> all[i] == events[i];
    if IsTerminal(clock, q, e) {
      assert LastTerminal(clock, q, all, |events|);
      forall k: nat ensures !LastProgress(clock, q, all, k) {
        assert k < |events| ==> IsTerminal(clock, q, all[|events|]);
      }
    } else if IsProgress(clock, q, e) {
      assert LastProgress(clock, q, all, |events|);
      KeepTerminal(clock, q, events, st, e);
    } else {
      assert next.selected == st.selected && next.progress == st.progress;
      KeepTerminal(clock, q, events, st, e);
      KeepProgress(clock, q, events, st, e);
    }
  }

  lemma KeepTerminal(clock: LeaseBinding.Clock, q: Query, events: seq<Event>, st: Scanned, e: Event)
    requires OutcomeIs(clock, q, events, st) && !IsTerminal(clock, q, e)
    ensures st.selected.Some? ==>
              exists k: nat ::
                  LastTerminal(clock, q, events + [e], k)
                      && Judge(clock, q, (events + [e])[k].body.message) == Terminal(st.selected.value)
    ensures st.selected.None? ==> forall i :: 0 <= i < |events + [e]| ==> !IsTerminal(clock, q, (events + [e])[i])
    ensures forall i :: 0 <= i < |events + [e]| && IsTerminal(clock, q, (events + [e])[i]) ==>
              st.selected.Some? && Judge(clock, q, (events + [e])[i].body.message).result.resultDigest ==
                  st.selected.value.resultDigest
  {
    hide Strip, Judge, Foreign;
    var all := events + [e];
    assert all[|events|] == e && forall i :: 0 <= i < |events| ==> all[i] == events[i];
    if st.selected.Some? {
      var k: nat :| LastTerminal(clock, q, events, k)
          && Judge(clock, q, events[k].body.message) == Terminal(st.selected.value);
      assert LastTerminal(clock, q, all, k) && all[k] == events[k];
    }
  }

  lemma KeepProgress(clock: LeaseBinding.Clock, q: Query, events: seq<Event>, st: Scanned, e: Event)
    requires OutcomeIs(clock, q, events, st) && !IsTerminal(clock, q, e) && !IsProgress(clock, q, e)
    ensures st.progress.Some? ==>
              exists k: nat ::
                  LastProgress(clock, q, events + [e], k)
                      && Judge(clock, q, (events + [e])[k].body.message) == Progress(st.progress.value)
    ensures st.progress.None? ==> forall k: nat :: !LastProgress(clock, q, events + [e], k)
  {
    hide Strip, Judge, Foreign;
    var all := events + [e];
    assert all[|events|] == e && forall i :: 0 <= i < |events| ==> all[i] == events[i];
    if st.progress.Some? {
      var k: nat :| LastProgress(clock, q, events, k)
          && Judge(clock, q, events[k].body.message) == Progress(st.progress.value);
      assert LastProgress(clock, q, all, k) && all[k] == events[k];
    } else {
      forall k: nat ensures !LastProgress(clock, q, all, k) {
        assert LastProgress(clock, q, all, k) ==> k < |events| && LastProgress(clock, q, events, k);
      }
    }
  }

  lemma AccountedStep(clock: LeaseBinding.Clock, q: Query, events: seq<Event>, st: Scanned, e: Event)
    requires Accounted(clock, q, events, st) && ScanStep(clock, q, st, e).Ok?
    ensures Accounted(clock, q, events + [e], ScanStep(clock, q, st, e).value)
  {
    hide Strip, Judge, Foreign, Newer, Observe, Map, Filter;
    MapAppend(IdOf(), events, e);
    FilterAppend(Disregarded(clock, q), events, e);
    var dropped := Filter(Disregarded(clock, q), events);
    MapAppend(IdOf(), dropped, e);
    MapAppend(ReasonFor(clock, q), dropped, e);
    assert Disregarded(clock, q)(e) == !IsOutcome(clock, q, e);
    if IsOutcome(clock, q, e) {
      assert Filter(Disregarded(clock, q), events + [e]) == dropped;
    }
  }

  /** A successful scan, read declaratively. */
  lemma {:induction false} ScanMeans(clock: LeaseBinding.Clock, q: Query, events: seq<Event>)
    requires Scan(clock, q, events).Ok?
    ensures CursorCovers(q, events, Scan(clock, q, events).value.cursor)
    ensures OutcomeIs(clock, q, events, Scan(clock, q, events).value)
    ensures Accounted(clock, q, events, Scan(clock, q, events).value)
  {
    hide ScanStep, Judge, Strip, Map, Filter;
    if events == [] {
      MapEmpty(IdOf());
      MapEmpty(ReasonFor(clock, q));
      FilterEmpty(Disregarded(clock, q));
    } else {
      hide CursorCovers, OutcomeIs, Accounted;
      var init, last := events[..|events| - 1], events[|events| - 1];
      ScanMeans(clock, q, init);
      assert init + [last] == events;
      var st := Scan(clock, q, init).value;
      CursorStep(clock, q, init, st, last);
      OutcomeStep(clock, q, init, st, last);
      AccountedStep(clock, q, init, st, last);
    }
  }

  lemma {:induction false} ScanStops(clock: LeaseBinding.Clock, q: Query, events: seq<Event>, k: nat)
    requires k <= |events| && Scan(clock, q, events[..k]).Err?
    ensures Scan(clock, q, events) == Scan(clock, q, events[..k])
    decreases |events|
  {
    hide ScanStep;
    if k < |events| {
      assert events[..|events| - 1][..k] == events[..k];
      ScanStops(clock, q, events[..|events| - 1], k);
    } else {
      assert events[..k] == events;
    }
  }

  /** The later event is the earlier one again, or newer in both sequences. */
  predicate InStep(a: Event, b: Event) {
    PositionOf(b) == PositionOf(a) || (b.body.eventSeq > a.body.eventSeq && b.body.logicalSeq > a.body.logicalSeq)
  }

  /** What a scan asks of the events: all intact; those of the stream newer than the cursor, in step with each other
      and readable; and one result digest among the accepted terminal results. */
  ghost predicate Orderly(clock: LeaseBinding.Clock, q: Query, events: seq<Event>) {
    && (forall i :: 0 <= i < |events| ==> Intact(events[i]))
    && (forall i :: 0 <= i < |events| && Own(q, events[i]) ==>
          Newer(q.cursor, events[i]) && !Judge(clock, q, events[i].body.message).Raise?)
    && (forall i, j :: 0 <= i < j < |events| && Own(q, events[i]) && Own(q, events[j]) ==> InStep(events[i], events[j]))
    && (forall i, j :: 0 <= i < j < |events| && IsTerminal(clock, q, events[i]) && IsTerminal(clock, q, events[j]) ==>
          SameResult(clock, q, events[i], events[j]))
  }

  predicate SameResult(clock: LeaseBinding.Clock, q: Query, a: Event, b: Event)
    requires IsTerminal(clock, q, a) && IsTerminal(clock, q, b)
  {
    Judge(clock, q, a.body.message).result.resultDigest == Judge(clock, q, b.body.message).result.resultDigest
  }

  /** The next event fits behind an orderly, scanned beginning. */
  ghost predicate Fits(clock: LeaseBinding.Clock, q: Query, init: seq<Event>, e: Event) {
    && Intact(e)
    && (Own(q, e) ==>
          && Newer(q.cursor, e) && !Judge(clock, q, e.body.message).Raise?
          && (forall i :: 0 <= i < |init| && Own(q, init[i]) ==> InStep(init[i], e)))
    && (IsTerminal(clock, q, e) ==>
          forall i :: 0 <= i < |init| && IsTerminal(clock, q, init[i]) ==> SameResult(clock, q, init[i], e))
  }

  lemma OrderlyNext(clock: LeaseBinding.Clock, q: Query, init: seq<Event>, e: Event)
    ensures Orderly(clock, q, init + [e]) <==> Orderly(clock, q, init) && Fits(clock, q, init, e)
  {
    hide Judge, Foreign, Intact, Newer, InStep, SameResult;
    var all := init + [e];
    assert all[|init|] == e && forall i :: 0 <= i < |init| ==> all[i] == init[i];
    if Orderly(clock, q, all) {
      forall i | 0 <= i < |init| ensures Intact(init[i]) { assert all[i] == init[i]; }
    }
  }

  /** Being in step with the last own event is being in step with all of them. */
  lemma ObservedExactly(clock: LeaseBinding.Clock, q: Query, init: seq<Event>, c: Cursor, e: Event)
    requires CursorCovers(q, init, c) && Orderly(clock, q, init) && Own(q, e) && Newer(q.cursor, e)
    ensures Observe(c, e).Ok? <==> forall i :: 0 <= i < |init| && Own(q, init[i]) ==> InStep(init[i], e)
  {
    hide Judge, Foreign, SameResult, Intact;
    if c == q.cursor {
      assert forall i :: 0 <= i < |init| ==> !Own(q, init[i]);
    } else {
      var k: nat :| LastOwn(q, init, k) && c.at == Some(PositionOf(init[k]));
      assert Observe(c, e).Ok? <==> InStep(init[k], e);
      forall i | 0 <= i < |init| && Own(q, init[i]) && InStep(init[k], e) ensures InStep(init[i], e) {
        assert i <= k;
        assert i < k ==> InStep(init[i], init[k]);
      }
    }
  }

  lemma StepCompletes(clock: LeaseBinding.Clock, q: Query, init: seq<Event>, st: Scanned, e: Event)
    requires Orderly(clock, q, init) && CursorCovers(q, init, st.cursor) && OutcomeIs(clock, q, init, st)
    ensures ScanStep(clock, q, st, e).Ok? <==> Fits(clock, q, init, e)
  {
    hide Judge, Foreign, Newer, Observe, InStep, CursorCovers, Orderly;
    if Own(q, e) && Newer(q.cursor, e) { ObservedExactly(clock, q, init, st.cursor, e); }
    if IsTerminal(clock, q, e) { DigestExactly(clock, q, init, st, e); }
  }

  lemma DigestExactly(clock: LeaseBinding.Clock, q: Query, init: seq<Event>, st: Scanned, e: Event)
    requires OutcomeIs(clock, q, init, st) && IsTerminal(clock, q, e)
    ensures (st.selected.Some? ==>
               st.selected.value.resultDigest == Judge(clock, q, e.body.message).result.resultDigest) <==>
              forall i :: 0 <= i < |init| && IsTerminal(clock, q, init[i]) ==> SameResult(clock, q, init[i], e)
  {
    hide Judge, Foreign, LastProgress;
    if st.selected.Some? {
      var k: nat :| LastTerminal(clock, q, init, k)
          && Judge(clock, q, init[k].body.message) == Terminal(st.selected.value);
      assert IsTerminal(clock, q, init[k]);
    }
  }

  /** A scan completes if and only if its events are orderly. */
  lemma {:induction false} ScanCompletesExactly(clock: LeaseBinding.Clock, q: Query, events: seq<Event>)
    ensures Scan(clock, q, events).Ok? <==> Orderly(clock, q, events)
  {
    hide ScanStep, Judge, Orderly, Fits, CursorCovers, OutcomeIs, Accounted;
    if events == [] {
      NothingDisorderly(clock, q);
    } else {
      var init, e := events[..|events| - 1], events[|events| - 1];
      assert events == init + [e];
      ScanCompletesExactly(clock, q, init);
      OrderlyNext(clock, q, init, e);
      if Scan(clock, q, init).Ok? {
        ScanMeans(clock, q, init);
        StepCompletes(clock, q, init, Scan(clock, q, init).value, e);
      }
    }
  }

  lemma NothingDisorderly(clock: LeaseBinding.Clock, q: Query)
    ensures Orderly(clock, q, [])
  {
  }

  /** Two accepted terminal results that differ abort the scan, wherever they stand. */
  lemma ConflictAborts(clock: LeaseBinding.Clock, q: Query, events: seq<Event>, i: nat, j: nat)
    requires i < |events| && j < |events| && IsTerminal(clock, q, events[i]) && IsTerminal(clock, q, events[j])
    requires Judge(clock, q, events[i].body.message).result.resultDigest != Judge(clock, q,
            events[j].body.message).result.resultDigest
    ensures Scan(clock, q, events).Err?
  {
    hide Scan, Judge, Strip;
    if Scan(clock, q, events).Ok? {
      ScanMeans(clock, q, events);
    }
  }

  // ---- the poll ----

  datatype Status = ResultAvailable | ProgressAvailable | NoNewResult

  datatype Poll = Poll(status: Status, scanned: Scanned)

  function StatusOf(st: Scanned): Status {
    if st.selected.Some? then ResultAvailable else if st.progress.Some? then ProgressAvailable else NoNewResult
  }

  /** The poll object's own constructor: one semantic outcome at most. */
  predicate WellFormedPoll(p: Poll) {
    match p.status
    case ResultAvailable => p.scanned.selected.Some? && p.scanned.progress.None?
    case ProgressAvailable => p.scanned.progress.Some? && p.scanned.selected.None?
    case NoNewResult => p.scanned.selected.None? && p.scanned.progress.None?
  }

  function BindingError(q: Query): Option<PollError> {
    if q.identity.runId != q.cursor.runId || q.identity.nodeId != q.cursor.nodeId then Some(CursorMismatch)
    else if !IsText(q.correlationId) then Some(BindingInvalid)
    else if q.expectedSource.Some? && q.expectedSource.value != q.identity.sourceDigest then Some(DigestMismatch)
    else if q.expectedStandards.Some? && !IsText(q.expectedStandards.value) then Some(BindingInvalid)
    else if q.expectedResult.Some? && !IsText(q.expectedResult.value) then Some(BindingInvalid)
    else None
  }

  /** The mailbox of one actor: its stored events and its durable cursor. */
  datatype Mailbox = Mailbox(events: seq<Event>, durable: Cursor)

  function EventsWith(id: string, events: seq<Event>): Option<Event> {
    if events == [] then None else if events[0].body.eventId == id then Some(events[0]) else EventsWith(id, events[1..])
  }

  /** Acknowledging moves the durable cursor forward, onto a stored event. */
  function Acknowledge(m: Mailbox, c: Cursor): Option<Mailbox> {
    if c == m.durable then Some(m)
    else if c.at.None? || EventAt(c) <= EventAt(m.durable) || LogicalAt(c) <= LogicalAt(m.durable) then None
    else
      var event := EventsWith(c.at.value.eventId, m.events);
      if event.None? || Foreign(c, event.value) || PositionOf(event.value) != c.at.value then None
      else Some(m.(durable := c))
  }

  function PollSpec(clock: LeaseBinding.Clock, m: Mailbox, q: Query, scan: seq<Event>): (Mailbox,
      Result<Poll, PollError>) {
    if BindingError(q).Some? then (m, Err(BindingError(q).value))
    else
      var scanned := Scan(clock, q, SortBy(BySequence(), scan));
      if scanned.Err? then (m, Err(scanned.error))
      else
        var acknowledged := if scanned.value.cursor == q.cursor then Some(m) else Acknowledge(m, scanned.value.cursor);
        if acknowledged.None? then (m, Err(AcknowledgeFailed))
        else
          var poll := Poll(StatusOf(scanned.value), scanned.value);
          (acknowledged.value, if WellFormedPoll(poll) then Ok(poll) else Err(PollRejected))
  }

  /** Which queries are refused before anything is scanned. */
  lemma QueryAcceptedExactly(q: Query)
    ensures BindingError(q).None? <==>
              && q.identity.runId == q.cursor.runId && q.identity.nodeId == q.cursor.nodeId && IsText(q.correlationId)
              && (q.expectedSource.Some? ==> q.expectedSource.value == q.identity.sourceDigest)
              && (q.expectedStandards.Some? ==> IsText(q.expectedStandards.value))
              && (q.expectedResult.Some? ==> IsText(q.expectedResult.value))
  {
  }

  /** A cursor is acknowledged exactly when it is the durable one, or moves both sequences forward onto the stored
      event it names, which is of its own stream. */
  lemma AcknowledgedExactly(m: Mailbox, c: Cursor)
    ensures Acknowledge(m, c).Some? ==> Acknowledge(m, c).value == m.(durable := c)
    ensures Acknowledge(m, c).Some? <==>
              || c == m.durable
              || (&& c.at.Some? && c.at.value.eventSeq > EventAt(m.durable)
                  && c.at.value.logicalSeq > LogicalAt(m.durable)
                  && EventsWith(c.at.value.eventId, m.events).Some?
                  && var e := EventsWith(c.at.value.eventId, m.events).value;
                     && e.body.mailboxRef == c.mailboxRef && e.body.producerNamespace == c.actorNamespace
                     && e.body.message.identity.runId == c.runId && e.body.message.identity.nodeId == c.nodeId
                     && c.at.value == Position(e.body.logicalSeq, e.body.eventSeq, e.body.eventId, e.eventDigest))
  {
  }

  /** The durable cursor moves only after a full conflict-free scan, onto that scan's cursor. */
  lemma AcknowledgedOnlyAfterScan(clock: LeaseBinding.Clock, m: Mailbox, q: Query, scan: seq<Event>)
    requires PollSpec(clock, m, q, scan).0 != m
    ensures Scan(clock, q, SortBy(BySequence(), scan)).Ok?
    ensures PollSpec(clock, m, q, scan).0 == m.(durable := Scan(clock, q, SortBy(BySequence(), scan)).value.cursor)
    ensures CursorCovers(q, SortBy(BySequence(), scan), PollSpec(clock, m, q, scan).0.durable)
  {
    hide Scan, SortBy, BySequence, BindingError;
    ScanMeans(clock, q, SortBy(BySequence(), scan));
  }

  /** An accepted progress event after the last accepted terminal result. */
  ghost predicate ProgressAfterTerminal(clock: LeaseBinding.Clock, q: Query, events: seq<Event>) {
    exists i, j :: 0 <= i < j < |events| && LastTerminal(clock, q, events, i) && IsProgress(clock, q, events[j])
  }

  /** A completed scan that holds an accepted terminal result is returned as that result if and only if no accepted
      progress follows it; otherwise the cursor has already been acknowledged when the poll object is refused. */
  lemma ResultReturnedExactly(clock: LeaseBinding.Clock, m: Mailbox, q: Query, scan: seq<Event>)
    requires BindingError(q).None? && Scan(clock, q, SortBy(BySequence(), scan)).Ok?
    requires var c := Scan(clock, q, SortBy(BySequence(), scan)).value.cursor; c == q.cursor || Acknowledge(m, c).Some?
    requires exists k :: 0 <= k < |SortBy(BySequence(), scan)| && IsTerminal(clock, q, SortBy(BySequence(), scan)[k])
    ensures var events, (after, r) := SortBy(BySequence(), scan), PollSpec(clock, m, q, scan);
            && (ProgressAfterTerminal(clock, q, events) ==> r == Err(PollRejected))
            && (!ProgressAfterTerminal(clock, q, events) ==>
                  && r.Ok? && r.value.status.ResultAvailable? && r.value.scanned.selected.Some?
                  && exists k: nat :: LastTerminal(clock, q, events, k)
                                   && Judge(clock, q, events[k].body.message) ==
                                         Terminal(r.value.scanned.selected.value))
            && after.durable == if Scan(clock, q, events).value.cursor == q.cursor then m.durable
                  else Scan(clock, q, events).value.cursor
  {
    hide Scan, SortBy, BySequence, Judge, BindingError, Foreign;
    var events := SortBy(BySequence(), scan);
    ScanMeans(clock, q, events);
    var st := Scan(clock, q, events).value;
    ProgressKept(clock, q, events, st);
  }

  lemma ProgressKept(clock: LeaseBinding.Clock, q: Query, events: seq<Event>, st: Scanned)
    requires OutcomeIs(clock, q, events, st) && st.selected.Some?
    ensures ProgressAfterTerminal(clock, q, events) <==> st.progress.Some?
  {
    hide Judge, Foreign;
    var t: nat :| LastTerminal(clock, q, events, t)
        && Judge(clock, q, events[t].body.message) == Terminal(st.selected.value);
    if st.progress.Some? {
      var k: nat :| LastProgress(clock, q, events, k)
          && Judge(clock, q, events[k].body.message) == Progress(st.progress.value);
      assert k != t;
      assert t < k;
    }
    if ProgressAfterTerminal(clock, q, events) {
      var i, j :| 0 <= i < j < |events| && LastTerminal(clock, q, events, i) && IsProgress(clock, q, events[j]);
      LastOf(clock, q, events, j);
    }
  }

  /** From some accepted progress event on, with no terminal result behind it, there is a last one. */
  lemma {:induction false} LastOf(clock: LeaseBinding.Clock, q: Query, events: seq<Event>, j: nat)
    requires j < |events| && IsProgress(clock, q, events[j])
    requires forall i :: j < i < |events| ==> !IsTerminal(clock, q, events[i])
    ensures exists k: nat :: LastProgress(clock, q, events, k)
    decreases |events| - j
  {
    hide Judge, Foreign;
    if exists n :: j < n < |events| && IsProgress(clock, q, events[n]) {
      var n :| j < n < |events| && IsProgress(clock, q, events[n]);
      LastOf(clock, q, events, n);
    } else {
      assert LastProgress(clock, q, events, j);
    }
  }

  ghost predicate TerminalAt(clock: LeaseBinding.Clock, q: Query, events: seq<Event>, k: int) {
    0 <= k < |events| && Own(q, events[k]) && GenuineTerminal(clock, q, events[k].body.message)
  }

  ghost predicate ProgressAt(clock: LeaseBinding.Clock, q: Query, events: seq<Event>, k: int) {
    0 <= k < |events| && Own(q, events[k]) && GenuineProgress(clock, q, events[k].body.message)
  }

  /** The last genuine result, with no genuine progress after it. */
  ghost predicate ResultAt(clock: LeaseBinding.Clock, q: Query, events: seq<Event>, k: int) {
    && TerminalAt(clock, q, events, k)
    && forall j :: k < j ==> !TerminalAt(clock, q, events, j) && !ProgressAt(clock, q, events, j)
  }

  /** The scan and the poll object alone: which status follows from which kept outcome. */
  lemma PollByOutcome(clock: LeaseBinding.Clock, m: Mailbox, q: Query, scan: seq<Event>)
    requires BindingError(q).None? && Scan(clock, q, SortBy(BySequence(), scan)).Ok?
    requires var c := Scan(clock, q, SortBy(BySequence(), scan)).value.cursor; c == q.cursor || Acknowledge(m, c).Some?
    ensures var st, r := Scan(clock, q, SortBy(BySequence(), scan)).value, PollSpec(clock, m, q, scan).1;
            && (r.Ok? <==> st.selected.None? || st.progress.None?)
            && (r.Ok? ==> r.value.scanned == st)
            && (r.Ok? && r.value.status.ResultAvailable? <==> st.selected.Some? && st.progress.None?)
            && (r.Ok? && r.value.status.ProgressAvailable? <==> st.selected.None? && st.progress.Some?)
            && (r.Ok? && r.value.status.NoNewResult? <==> st.selected.None? && st.progress.None?)
  {
    hide Scan, SortBy, BySequence, BindingError, Acknowledge;
  }

  /** What a poll returns once its scan is complete and acknowledged: the last genuine result if no genuine progress
      follows it, genuine progress if there is no genuine result, and otherwise that there is nothing new. */
  lemma PollAnswersExactly(clock: LeaseBinding.Clock, m: Mailbox, q: Query, scan: seq<Event>)
    requires BindingError(q).None? && Scan(clock, q, SortBy(BySequence(), scan)).Ok?
    requires var c := Scan(clock, q, SortBy(BySequence(), scan)).value.cursor; c == q.cursor || Acknowledge(m, c).Some?
    ensures var events, r := SortBy(BySequence(), scan), PollSpec(clock, m, q, scan).1;
            && (r.Ok? && r.value.status.ResultAvailable? <==> exists k :: ResultAt(clock, q, events, k))
            && (forall k :: r.Ok? && ResultAt(clock, q, events, k) ==>
                  r.value.scanned.selected == events[k].body.message.terminal)
            && (r.Ok? && r.value.status.ProgressAvailable? <==>
                  (exists k :: ProgressAt(clock, q, events, k)) && forall k :: !TerminalAt(clock, q, events, k))
            && (r.Ok? && r.value.status.NoNewResult? <==>
                  (forall k :: !TerminalAt(clock, q, events, k)) && forall k :: !ProgressAt(clock, q, events, k))
  {
    hide Scan, SortBy, BySequence, Judge, BindingError, Foreign;
    hide GenuineTerminal, GenuineProgress, PollSpec, Acknowledge, OutcomeIs;
    hide ResultAt, TerminalAt, ProgressAt, IsTerminal, IsProgress;
    var events := SortBy(BySequence(), scan);
    ScanMeans(clock, q, events);
    AtExactly(clock, q, events);
    OutcomeRead(clock, q, events, Scan(clock, q, events).value);
    PollByOutcome(clock, m, q, scan);
  }

  lemma AtExactly(clock: LeaseBinding.Clock, q: Query, events: seq<Event>)
    ensures forall k :: 0 <= k < |events| ==>
              IsTerminal(clock, q, events[k]) == TerminalAt(clock, q, events, k)
              && IsProgress(clock, q, events[k]) == ProgressAt(clock, q, events, k)
  {
    hide Judge, Foreign, GenuineTerminal, GenuineProgress;
    forall k | 0 <= k < |events|
      ensures IsTerminal(clock, q, events[k]) == TerminalAt(clock, q, events, k)
           && IsProgress(clock, q, events[k]) == ProgressAt(clock, q, events, k) {
      JudgedExactly(clock, q, events[k].body.message);
    }
  }

  /** The kept outcome in terms of genuine messages. */
  lemma OutcomeRead(clock: LeaseBinding.Clock, q: Query, events: seq<Event>, st: Scanned)
    requires OutcomeIs(clock, q, events, st)
    requires forall k :: 0 <= k < |events| ==>
               IsTerminal(clock, q, events[k]) == TerminalAt(clock, q, events, k)
               && IsProgress(clock, q, events[k]) == ProgressAt(clock, q, events, k)
    ensures st.selected.None? <==> forall k :: !TerminalAt(clock, q, events, k)
    ensures forall k :: ResultAt(clock, q, events, k) ==> st.selected == events[k].body.message.terminal
    ensures st.selected.None? ==> (st.progress.Some? <==> exists k :: ProgressAt(clock, q, events, k))
    ensures st.selected.Some? && st.progress.None? <==> exists k :: ResultAt(clock, q, events, k)
  {
    hide OutcomeIs, IsTerminal, IsProgress, TerminalAt, ProgressAt, ResultAt;
    SelectedRead(clock, q, events, st);
    ProgressRead(clock, q, events, st);
  }

  lemma SelectedRead(clock: LeaseBinding.Clock, q: Query, events: seq<Event>, st: Scanned)
    requires OutcomeIs(clock, q, events, st)
    requires forall k :: 0 <= k < |events| ==> IsTerminal(clock, q, events[k]) == TerminalAt(clock, q, events, k)
    ensures st.selected.None? <==> forall k :: !TerminalAt(clock, q, events, k)
    ensures forall k :: ResultAt(clock, q, events, k) ==> st.selected == events[k].body.message.terminal
  {
    hide Judge, Foreign, GenuineTerminal, LastProgress;
    if st.selected.Some? {
      var t: nat :| LastTerminal(clock, q, events, t)
          && Judge(clock, q, events[t].body.message) == Terminal(st.selected.value);
      JudgedExactly(clock, q, events[t].body.message);
      GenuineCarries(clock, q, events[t].body.message);
      assert TerminalAt(clock, q, events, t);
      forall k | ResultAt(clock, q, events, k) ensures k == t { assert IsTerminal(clock, q, events[k]); }
    } else {
      forall k ensures !TerminalAt(clock, q, events, k) {
        if 0 <= k < |events| { assert !IsTerminal(clock, q, events[k]); }
      }
    }
  }

  lemma GenuineCarries(clock: LeaseBinding.Clock, q: Query, m: Message)
    ensures GenuineTerminal(clock, q, m) ==> m.terminal.Some?
  {
  }

  lemma ProgressRead(clock: LeaseBinding.Clock, q: Query, events: seq<Event>, st: Scanned)
    requires OutcomeIs(clock, q, events, st)
    requires forall k :: 0 <= k < |events| ==>
               IsTerminal(clock, q, events[k]) == TerminalAt(clock, q, events, k)
               && IsProgress(clock, q, events[k]) == ProgressAt(clock, q, events, k)
    ensures st.selected.None? ==> (st.progress.Some? <==> exists k :: ProgressAt(clock, q, events, k))
    ensures st.selected.Some? && st.progress.None? <==> exists k :: ResultAt(clock, q, events, k)
  {
    hide Judge, Foreign, GenuineTerminal, GenuineProgress;
    if st.progress.Some? {
      var k: nat :| LastProgress(clock, q, events, k)
          && Judge(clock, q, events[k].body.message) == Progress(st.progress.value);
      assert ProgressAt(clock, q, events, k);
    }
    if st.selected.None? && exists k :: ProgressAt(clock, q, events, k) {
      var k :| ProgressAt(clock, q, events, k);
      LastOf(clock, q, events, k);
    }
    if st.selected.Some? {
      ProgressKept(clock, q, events, st);
      StandsExactly(clock, q, events);
    }
  }

  /** The last genuine result stands if and only if no accepted progress follows it. */
  lemma StandsExactly(clock: LeaseBinding.Clock, q: Query, events: seq<Event>)
    requires forall k :: 0 <= k < |events| ==>
               IsTerminal(clock, q, events[k]) == TerminalAt(clock, q, events, k)
               && IsProgress(clock, q, events[k]) == ProgressAt(clock, q, events, k)
    requires exists t: nat :: LastTerminal(clock, q, events, t)
    ensures ProgressAfterTerminal(clock, q, events) <==> forall k :: !ResultAt(clock, q, events, k)
  {
    hide Judge, Foreign, GenuineTerminal, GenuineProgress;
    var t: nat :| LastTerminal(clock, q, events, t);
    assert TerminalAt(clock, q, events, t);
    if ProgressAfterTerminal(clock, q, events) {
      var i, j :| 0 <= i < j < |events| && LastTerminal(clock, q, events, i) && IsProgress(clock, q, events[j]);
      assert ProgressAt(clock, q, events, j);
      forall k ensures !ResultAt(clock, q, events, k) {
        assert TerminalAt(clock, q, events, k) ==> IsTerminal(clock, q, events[k]) && k <= i;
      }
    } else {
      forall j | t < j ensures !TerminalAt(clock, q, events, j) && !ProgressAt(clock, q, events, j) {
        if j < |events| { assert !IsTerminal(clock, q, events[j]) && !IsProgress(clock, q, events[j]); }
      }
      assert ResultAt(clock, q, events, t);
    }
  }

  /** An own event of a completed scan is behind that scan's cursor. */
  lemma ScannedIsBehind(clock: LeaseBinding.Clock, q: Query, scan: seq<Event>, e: Event)
    requires Scan(clock, q, SortBy(BySequence(), scan)).Ok? && e in scan && Own(q, e)
    ensures Behind(e, Scan(clock, q, SortBy(BySequence(), scan)).value.cursor)
  {
    hide Scan, SortBy, BySequence, Judge;
    var events := SortBy(BySequence(), scan);
    SamePermutation(events, scan);
    ScanMeans(clock, q, events);
    var i :| 0 <= i < |events| && events[i] == e;
  }

  // ---- polling a repository again and again ----

  predicate Behind(e: Event, c: Cursor) {
    e.body.eventSeq <= EventAt(c) && e.body.logicalSeq <= LogicalAt(c)
  }

  predicate SameStream(a: Cursor, b: Cursor) {
    a.mailboxRef == b.mailboxRef && a.runId == b.runId && a.nodeId == b.nodeId && a.actorNamespace == b.actorNamespace
  }

  function NewerOwn(c: Cursor): Event -> bool {
    (e: Event) => !Foreign(c, e) && Newer(c, e)
  }

  /** What the repository hands out: refused for a cursor behind the durable one or in conflict with it, else the
      stream's events newer than the cursor. */
  function ScanAfter(m: Mailbox, c: Cursor): Option<seq<Event>> {
    if EventAt(c) < EventAt(m.durable) || LogicalAt(c) < LogicalAt(m.durable) then None
    else if EventAt(c) == EventAt(m.durable) && c != m.durable then None
    else Some(Filter(NewerOwn(c), m.events))
  }

  /** New events arrive, and controllers poll this stream with whatever query they like. */
  datatype Traffic = Deposit(event: Event) | PollWith(query: Query)

  function PollResult(clock: LeaseBinding.Clock, m: Mailbox, q: Query): (Mailbox, Result<Poll, PollError>) {
    var scan := ScanAfter(m, q.cursor);
    if scan.None? then (m, Err(CursorConflict)) else PollSpec(clock, m, q, scan.value)
  }

  function Serve(clock: LeaseBinding.Clock, m: Mailbox, t: Traffic): Mailbox {
    match t
    case Deposit(e) => m.(events := m.events + [e])
    case PollWith(q) => if SameStream(q.cursor, m.durable) then PollResult(clock, m, q).0 else m
  }

  function ServeAll(clock: LeaseBinding.Clock, m: Mailbox, traffic: seq<Traffic>): Mailbox {
    if traffic == [] then m else Serve(clock, ServeAll(clock, m, traffic[..|traffic| - 1]), traffic[|traffic| - 1])
  }

  predicate NotBefore(a: Cursor, b: Cursor) {
    EventAt(a) <= EventAt(b) && LogicalAt(a) <= LogicalAt(b) && SameStream(a, b)
  }

  lemma PollMovesForward(clock: LeaseBinding.Clock, m: Mailbox, q: Query, scan: seq<Event>)
    requires SameStream(q.cursor, m.durable)
    ensures NotBefore(m.durable, PollSpec(clock, m, q, scan).0.durable)
  {
    hide Scan, SortBy, BySequence, BindingError;
    if PollSpec(clock, m, q, scan).0 != m {
      AcknowledgedOnlyAfterScan(clock, m, q, scan);
    }
  }

  /** The durable cursor of a stream never moves back. */
  lemma {:induction false} DurableForward(clock: LeaseBinding.Clock, m: Mailbox, traffic: seq<Traffic>)
    ensures NotBefore(m.durable, ServeAll(clock, m, traffic).durable)
  {
    hide PollSpec, ScanAfter;
    if traffic != [] {
      DurableForward(clock, m, traffic[..|traffic| - 1]);
      var before, t := ServeAll(clock, m, traffic[..|traffic| - 1]), traffic[|traffic| - 1];
      if t.PollWith? && SameStream(t.query.cursor, before.durable) && ScanAfter(before, t.query.cursor).Some? {
        PollMovesForward(clock, before, t.query, ScanAfter(before, t.query.cursor).value);
      }
    }
  }

  /** The refused result is gone for good: once a poll has acknowledged a scan, whatever arrives and whoever polls
      afterwards, no later scan of the stream hands one of its own events out again. */
  lemma RefusedResultIsLost(clock: LeaseBinding.Clock, m: Mailbox, q: Query, scan: seq<Event>, e: Event,
      traffic: seq<Traffic>, later: Query)
    requires PollSpec(clock, m, q, scan).0 != m && e in scan && Own(q, e)
    requires var now := ServeAll(clock, PollSpec(clock, m, q, scan).0, traffic); SameStream(later.cursor, now.durable)
    ensures var now := ServeAll(clock, PollSpec(clock, m, q, scan).0, traffic);
            ScanAfter(now, later.cursor).Some? ==> e !in ScanAfter(now, later.cursor).value
  {
    hide Scan, SortBy, BySequence, PollSpec, ServeAll, Filter;
    AcknowledgedOnlyAfterScan(clock, m, q, scan);
    ScannedIsBehind(clock, q, scan, e);
    var first := PollSpec(clock, m, q, scan).0;
    DurableForward(clock, first, traffic);
    var now := ServeAll(clock, first, traffic);
    assert Behind(e, now.durable);
    if ScanAfter(now, later.cursor).Some? {
      assert !NewerOwn(later.cursor)(e);
    }
  }

  function Stored(id: string, at: int, m: Message): Event {
    var body := EventBody(id, "box", "executor", at, at, OfMessage(m.(seqNo := at)), m.(seqNo := at));
    Event(body, OfEvent(body))
  }

  const SampleIdentity := Identity("r", "n", "v", "c", "b", "a", 1, "t", "s")
  const SampleCursor := Cursor("box", "r", "n", "executor", None)
  const SampleQuery := Query(SampleCursor, "x", SampleIdentity, None, None, None, Unset, None)
  const Finished := Stored("1", 0, Message(SampleIdentity, 0, TerminalKind, "x", "i", "e", None, "s", None,
      Some(TerminalResult("d", "")), None))
  const Working := Stored("2", 1, Message(SampleIdentity, 0, ProgressKind, "x", "i", "e", None, "s", None, None,
      Some(ProgressOutcome(""))))

  lemma TwoEvents(clock: LeaseBinding.Clock, q: Query, a: Event, b: Event)
    requires ScanStep(clock, q, Start(q), a).Ok?
    ensures Scan(clock, q, [a, b]) == ScanStep(clock, q, ScanStep(clock, q, Start(q), a).value, b)
  {
    hide ScanStep;
    assert [a, b][..1] == [a] && [a][..0] == [];
    assert Scan(clock, q, []) == Ok(Start(q));
    assert Scan(clock, q, [a]) == ScanStep(clock, q, Start(q), a);
  }

  lemma SampleVerdicts(clock: LeaseBinding.Clock)
    ensures Judge(clock, SampleQuery, Finished.body.message) == Terminal(TerminalResult("d", ""))
    ensures Judge(clock, SampleQuery, Working.body.message) == Progress(ProgressOutcome(""))
    ensures BindingError(SampleQuery).None?
  {
    StripTrims("x");
  }

  lemma SampleScan(clock: LeaseBinding.Clock)
    ensures Scan(clock, SampleQuery, [Finished, Working]) ==
              Ok(Scanned(["1", "2"], [], [], SampleCursor.(at := Some(PositionOf(Working))),
                  Some(TerminalResult("d", "")), Some(ProgressOutcome(""))))
  {
    hide Judge, Scan;
    SampleVerdicts(clock);
    assert [] + ["1"] == ["1"] && ["1"] + ["2"] == ["1", "2"];
    TwoEvents(clock, SampleQuery, Finished, Working);
  }

  /** Such a loss happens: one terminal result, then one progress event, both current. */
  lemma ResultCanBeLost(clock: LeaseBinding.Clock)
    ensures var m, scan := Mailbox([Finished, Working], SampleCursor), [Finished, Working];
            && IsTerminal(clock, SampleQuery, Finished)
            && PollSpec(clock, m, SampleQuery, scan) == (m.(durable := SampleCursor.(at := Some(PositionOf(Working)))),
                  Err(PollRejected))
  {
    hide Judge, Scan;
    SampleVerdicts(clock);
    SampleScan(clock);
    var scan := [Finished, Working];
    assert scan[1..] == [Working];
    assert SortBy(BySequence(), [Working]) == [Working];
    assert SortBy(BySequence(), scan) == scan;
    assert EventsWith("2", scan) == Some(Working);
  }

  // ---- the poll as it runs ----

  class Repository {
    var events: seq<Event>
    var durable: Cursor

    function Contents(): Mailbox
      reads this
    {
      Mailbox(events, durable)
    }

    constructor (events: seq<Event>, durable: Cursor)
      ensures Contents() == Mailbox(events, durable)
    {
      this.events, this.durable := events, durable;
    }

    method FindEvent(id: string) returns (r: Option<Event>)
      ensures r == EventsWith(id, events)
    {
      var i := 0;
      while i < |events|
        invariant 0 <= i <= |events|
        invariant EventsWith(id, events[i..]) == EventsWith(id, events)
      {
        if events[i].body.eventId == id {
          return Some(events[i]);
        }
        i := i + 1;
      }
      return None;
    }

    method AcknowledgeCursor(c: Cursor) returns (ok: bool)
      modifies this
      ensures ok <==> Acknowledge(old(Contents()), c).Some?
      ensures Contents() == if ok then Acknowledge(old(Contents()), c).value else old(Contents())
    {
      if c == durable {
        return true;
      }
      if c.at.None? || EventAt(c) <= EventAt(durable) || LogicalAt(c) <= LogicalAt(durable) {
        return false;
      }
      var event := FindEvent(c.at.value.eventId);
      if event.None? || Foreign(c, event.value) || PositionOf(event.value) != c.at.value {
        return false;
      }
      durable := c;
      return true;
    }

    method ScanAfterCursor(c: Cursor) returns (r: Option<seq<Event>>)
      ensures r == ScanAfter(Contents(), c)
    {
      hide Filter;
      if EventAt(c) < EventAt(durable) || LogicalAt(c) < LogicalAt(durable) {
        return None;
      }
      if EventAt(c) == EventAt(durable) && c != durable {
        return None;
      }
      var found := [];
      FilterEmpty(NewerOwn(c));
      for i := 0 to |events|
        invariant found == Filter(NewerOwn(c), events[..i])
      {
        assert events[..i + 1] == events[..i] + [events[i]];
        FilterAppend(NewerOwn(c), events[..i], events[i]);
        if !Foreign(c, events[i]) && Newer(c, events[i]) {
          found := found + [events[i]];
        }
      }
      assert events[..|events|] == events;
      return Some(found);
    }

    method PollControllerTerminalResult(clock: LeaseBinding.Clock, q: Query, scan: seq<Event>)
        returns (r: Result<Poll, PollError>)
      modifies this
      ensures (Contents(), r) == PollSpec(clock, old(Contents()), q, scan)
    {
      var refusal := BindingError(q);
      if refusal.Some? {
        return Err(refusal.value);
      }
      var scanned := ScanEvents(clock, q, SortBy(BySequence(), scan));
      if scanned.Err? {
        return Err(scanned.error);
      }
      var st := scanned.value;
      if st.cursor != q.cursor {
        var ok := AcknowledgeCursor(st.cursor);
        if !ok {
          return Err(AcknowledgeFailed);
        }
      }
      var poll := Poll(StatusOf(st), st);
      return if WellFormedPoll(poll) then Ok(poll) else Err(PollRejected);
    }
  }

  /** The event loop with its running variables. */
  method ScanEvents(clock: LeaseBinding.Clock, q: Query, events: seq<Event>) returns (r: Result<Scanned, PollError>)
    ensures r == Scan(clock, q, events)
  {
    hide Judge, Strip, Newer, Foreign, Observe;
    var observed, ignoredIds, reasons := [], [], [];
    var cursor, selected, progress := q.cursor, None, None;
    for i := 0 to |events|
      invariant Scan(clock, q, events[..i]) == Ok(Scanned(observed, ignoredIds, reasons, cursor, selected, progress))
    {
      var e := events[i];
      assert events[..i + 1][..i] == events[..i];
      assert Scan(clock, q, events[..i + 1]) == ScanStep(clock, q,
          Scanned(observed, ignoredIds, reasons, cursor, selected, progress), e);
      if Scan(clock, q, events[..i + 1]).Err? {
        ScanStops(clock, q, events, i + 1);
      }
      if e.body.envelopeDigest != OfMessage(e.body.message) || e.eventDigest != OfEvent(e.body) {
        return Err(DigestMismatch);
      }
      if e.body.logicalSeq != e.body.message.seqNo {
        return Err(SequenceMismatch);
      }
      observed := observed + [e.body.eventId];
      if Foreign(q.cursor, e) {
        ignoredIds, reasons := ignoredIds + [e.body.eventId], reasons + [ForeignEvent];
        continue;
      }
      if !Newer(q.cursor, e) {
        return Err(SequenceMismatch);
      }
      var moved := Observe(cursor, e);
      if moved.Err? {
        return Err(CursorConflict);
      }
      cursor := moved.value;
      match Judge(clock, q, e.body.message) {
        case Raise(error) =>
          return Err(error);
        case Ignore(reason) =>
          ignoredIds, reasons := ignoredIds + [e.body.eventId], reasons + [reason];
        case Progress(outcome) =>
          progress := Some(outcome);
        case Terminal(result) =>
          if selected.Some? && selected.value.resultDigest != result.resultDigest {
            return Err(TerminalResultConflict);
          }
          selected, progress := Some(result), None;
      }
    }
    assert events[..|events|] == events;
    return Ok(Scanned(observed, ignoredIds, reasons, cursor, selected, progress));
  }
}
