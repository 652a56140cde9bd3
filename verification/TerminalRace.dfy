/** Deterministic resolution of competing terminal signals, and the sealing commit. */
module TerminalRace {
  import opened Results
  import opened Sorting
  import opened Sequences

  datatype ChildStatus = Succeeded | Failed | TimedOut | Cancelled

  datatype SignalKind = Cancellation | Timeout | LeaseExpiry | ChildTerminal

  datatype Identity = Identity(runId: string, nodeId: string, attemptId: string, leaseGeneration: nat,
      logicalCursor: nat)

  datatype Signal = Signal(
    signalId: string, kind: SignalKind,
    runId: string, nodeId: string, attemptId: string, leaseGeneration: nat,
    logicalSeq: nat, childStatus: Option<ChildStatus>, evidenceRef: Option<string>)

  datatype Disposition = CancelledRun | TimedOutRun | LeaseExpired | ChildDone

  /** Reason codes, listed in the alphabetical order of their texts. */
  datatype Reason =
    | AttemptMismatch | DuplicateSignal | ForeignIdentity | LateAfterCommit | RaceLoser | StaleGeneration
    | StaleSequence

  datatype Evidence = Evidence(signalId: string, kind: SignalKind, logicalSeq: nat, reason: Reason)

  datatype Decision = Decision(winner: Option<Signal>, disposition: Option<Disposition>, stateAdvancing: bool,
      evidenceOnly: seq<Evidence>)

  datatype State = State(identity: Identity, committedWinner: Option<Signal>)

  datatype RaceError =
    | EmptyEligibleInput | IdempotencyConflict
    | NoWinner | TerminalAlreadyCommitted | ContractMismatch | InvalidSequence

  function DispositionOf(kind: SignalKind): Disposition {
    match kind
    case Cancellation => CancelledRun
    case Timeout => TimedOutRun
    case LeaseExpiry => LeaseExpired
    case ChildTerminal => ChildDone
  }

  function Priority(kind: SignalKind): nat {
    match kind
    case Cancellation => 0
    case Timeout => 1
    case LeaseExpiry => 2
    case ChildTerminal => 3
  }

  function ReasonRank(reason: Reason): nat {
    match reason
    case AttemptMismatch => 0
    case DuplicateSignal => 1
    case ForeignIdentity => 2
    case LateAfterCommit => 3
    case RaceLoser => 4
    case StaleGeneration => 5
    case StaleSequence => 6
  }

  predicate MatchesIdentity(s: Signal, id: Identity) {
    s.runId == id.runId && s.nodeId == id.nodeId && s.attemptId == id.attemptId
        && s.leaseGeneration == id.leaseGeneration
  }

  function ClassifyIneligible(s: Signal, id: Identity): Option<Reason> {
    if s.runId != id.runId || s.nodeId != id.nodeId then Some(ForeignIdentity)
    else if s.attemptId != id.attemptId then Some(AttemptMismatch)
    else if s.leaseGeneration != id.leaseGeneration then Some(StaleGeneration)
    else if s.logicalSeq <= id.logicalCursor then Some(StaleSequence)
    else None
  }

  /** What competing means: the exact current execution, newer than the cursor. */
  lemma EligibleMeansCurrent(s: Signal, id: Identity)
    ensures ClassifyIneligible(s, id) == None <==> MatchesIdentity(s, id) && s.logicalSeq > id.logicalCursor
  {
  }

  /** The first difference names the reason. */
  lemma ReasonsExactly(s: Signal, id: Identity)
    ensures ClassifyIneligible(s, id) == Some(ForeignIdentity) <==> s.runId != id.runId || s.nodeId != id.nodeId
    ensures s.runId == id.runId && s.nodeId == id.nodeId ==>
              && (ClassifyIneligible(s, id) == Some(AttemptMismatch) <==> s.attemptId != id.attemptId)
              && (s.attemptId == id.attemptId ==>
                    && (ClassifyIneligible(s, id) == Some(StaleGeneration) <==> s.leaseGeneration != id.leaseGeneration)
                    && (s.leaseGeneration == id.leaseGeneration ==>
                          (ClassifyIneligible(s, id) == Some(StaleSequence) <==> s.logicalSeq <= id.logicalCursor)))
  {
  }

  // ---- orders ----

  /** Winner key order: highest sequence, then kind priority, then signal id. */
  predicate WinnerLe(a: Signal, b: Signal) {
    || a.logicalSeq > b.logicalSeq
    || (a.logicalSeq == b.logicalSeq
        && (Priority(a.kind) < Priority(b.kind)
              || (Priority(a.kind) == Priority(b.kind) && TextLe(a.signalId, b.signalId))))
  }

  predicate EvidenceLe(a: Evidence, b: Evidence) {
    || a.logicalSeq < b.logicalSeq
    || (a.logicalSeq == b.logicalSeq
        && (ReasonRank(a.reason) < ReasonRank(b.reason)
            || (ReasonRank(a.reason) == ReasonRank(b.reason) && TextLe(a.signalId, b.signalId))))
  }

  lemma WinnerOrder()
    ensures TotalPreorder(WinnerLe)
  {
    forall a: Signal, b: Signal ensures WinnerLe(a, b) || WinnerLe(b, a) { TextLeTotal(a.signalId, b.signalId); }
    forall a: Signal, b: Signal, c: Signal | WinnerLe(a, b) && WinnerLe(b, c) ensures WinnerLe(a, c) {
      if TextLe(a.signalId, b.signalId) && TextLe(b.signalId, c.signalId) {
        TextLeTransitive(a.signalId, b.signalId, c.signalId);
      }
    }
  }

  lemma EvidenceOrder()
    ensures TotalPreorder(EvidenceLe)
  {
    forall a: Evidence, b: Evidence
      ensures EvidenceLe(a, b) || EvidenceLe(b, a) { TextLeTotal(a.signalId, b.signalId); }
    forall a: Evidence, b: Evidence, c: Evidence | EvidenceLe(a, b) && EvidenceLe(b, c) ensures EvidenceLe(a, c) {
      if TextLe(a.signalId, b.signalId) && TextLe(b.signalId, c.signalId) {
        TextLeTransitive(a.signalId, b.signalId, c.signalId);
      }
    }
  }

  /** Among eligible signals of one sequence a cancellation goes before every other kind, then a timeout, then a
      lease expiry, then a child's end; a higher sequence goes before any kind; within a kind the identity decides. */
  lemma KindsTie(a: Signal, b: Signal)
    ensures a.logicalSeq > b.logicalSeq ==> WinnerLe(a, b) && !WinnerLe(b, a)
    ensures a.logicalSeq == b.logicalSeq && a.kind == b.kind ==> (WinnerLe(a, b) <==> TextLe(a.signalId, b.signalId))
    ensures a.logicalSeq == b.logicalSeq && a.kind != b.kind ==>
              (WinnerLe(a, b) <==>
                 || a.kind == Cancellation
                 || (a.kind == Timeout && b.kind != Cancellation)
                 || (a.kind == LeaseExpiry && b.kind == ChildTerminal))
  {
    hide TextLe;
  }

  /** The reason's name, by which evidence is sorted. */
  function ReasonText(reason: Reason): string {
    match reason
    case AttemptMismatch => "ATTEMPT_MISMATCH"
    case DuplicateSignal => "DUPLICATE_SIGNAL"
    case ForeignIdentity => "FOREIGN_IDENTITY"
    case LateAfterCommit => "LATE_AFTER_COMMIT"
    case RaceLoser => "RACE_LOSER"
    case StaleGeneration => "STALE_GENERATION"
    case StaleSequence => "STALE_SEQUENCE"
  }

  /** Texts with a common beginning compare by the rest. */
  lemma {:induction false} CommonStart(start: string, a: string, b: string)
    ensures TextLe(start + a, start + b) <==> TextLe(a, b)
  {
    if start == "" {
      assert start + a == a && start + b == b;
    } else {
      assert (start + a)[1..] == start[1..] + a && (start + b)[1..] == start[1..] + b;
      CommonStart(start[1..], a, b);
    }
  }

  /** Reasons rank as their names do. */
  lemma ReasonOrder(a: Reason, b: Reason)
    ensures ReasonRank(a) <= ReasonRank(b) <==> TextLe(ReasonText(a), ReasonText(b))
  {
    assert "STALE_GENERATION" == "STALE_" + "GENERATION" && "STALE_SEQUENCE" == "STALE_" + "SEQUENCE";
    CommonStart("STALE_", "GENERATION", "SEQUENCE");
    CommonStart("STALE_", "SEQUENCE", "GENERATION");
    if a == b { TextLeTotal(ReasonText(a), ReasonText(b)); }
  }

  lemma WinnerTie(a: Signal, b: Signal)
    requires WinnerLe(a, b) && WinnerLe(b, a)
    ensures a.signalId == b.signalId
  {
    TextLeTotal(a.signalId, b.signalId);
  }

  lemma EvidenceTie(a: Evidence, b: Evidence)
    requires EvidenceLe(a, b) && EvidenceLe(b, a)
    ensures a.signalId == b.signalId && a.logicalSeq == b.logicalSeq && a.reason == b.reason
  {
    TextLeTotal(a.signalId, b.signalId);
  }

  // ---- deduplication ----

  /** Two different signals under one id. */
  predicate Conflicting(signals: seq<Signal>) {
    exists i, j :: 0 <= i < |signals| && 0 <= j < |signals| && signals[i].signalId == signals[j].signalId
        && signals[i] != signals[j]
  }

  /** First occurrences, in order. */
  function Firsts(signals: seq<Signal>): seq<Signal> {
    if signals == [] then []
    else
      var init, last := signals[..|signals| - 1], signals[|signals| - 1];
      if last in init then Firsts(init) else Firsts(init) + [last]
  }

  /** Repeated occurrences, in order. */
  function Repeats(signals: seq<Signal>): seq<Signal> {
    if signals == [] then []
    else
      var init, last := signals[..|signals| - 1], signals[|signals| - 1];
      if last in init then Repeats(init) + [last] else Repeats(init)
  }

  // ---- resolution ----

  function Tag(reason: Signal -> Reason): Signal -> Evidence {
    (s: Signal) => Evidence(s.signalId, s.kind, s.logicalSeq, reason(s))
  }

  function Always(reason: Reason): Signal -> Reason {
    (s: Signal) => reason
  }

  function EligibleFor(id: Identity): Signal -> bool {
    (s: Signal) => ClassifyIneligible(s, id) == None
  }

  function IneligibleFor(id: Identity): Signal -> bool {
    (s: Signal) => ClassifyIneligible(s, id) != None
  }

  function IneligibleReason(id: Identity): Signal -> Reason {
    (s: Signal) => match ClassifyIneligible(s, id) case Some(r) => r case None => RaceLoser
  }

  /** Why a signal is evidence once `committed` is sealed. */
  function LateReason(id: Identity, committed: Signal): Signal -> Reason {
    (s: Signal) => if s == committed then DuplicateSignal
         else match ClassifyIneligible(s, id) case Some(r) => r case None => LateAfterCommit
  }

  function Other(winner: Signal): Signal -> bool {
    (s: Signal) => s != winner
  }

  function Best(eligible: seq<Signal>): Signal
    requires eligible != []
  {
    assert |multiset(eligible)| == |multiset(SortBy(WinnerLe, eligible))|;
    SortBy(WinnerLe, eligible)[0]
  }

  function Eligible(state: State, signals: seq<Signal>): seq<Signal> {
    Filter(EligibleFor(state.identity), Firsts(signals))
  }

  /** Duplicates, then ineligible signals, as observed. */
  function Rejected(state: State, signals: seq<Signal>): seq<Evidence> {
    Map(Tag(Always(DuplicateSignal)), Repeats(signals))
    + Map(Tag(IneligibleReason(state.identity)), Filter(IneligibleFor(state.identity), Firsts(signals)))
  }

  function Losers(eligible: seq<Signal>, winner: Signal): seq<Evidence> {
    Map(Tag(Always(RaceLoser)), Filter(Other(winner), eligible))
  }

  function Decide(state: State, signals: seq<Signal>): Decision {
    match state.committedWinner
    case Some(w) =>
      Decision(Some(w), Some(DispositionOf(w.kind)), false, SortBy(EvidenceLe, Sealed(state.identity, w, signals)))
    case None =>
      var eligible := Eligible(state, signals);
      if eligible == [] then Decision(None, None, false, Rejected(state, signals))
      else
        var w := Best(eligible);
        Decision(Some(w), Some(DispositionOf(w.kind)), true,
            SortBy(EvidenceLe, Rejected(state, signals) + Losers(eligible, w)))
  }

  /** Every signal as evidence under a sealed race. */
  function Sealed(id: Identity, w: Signal, signals: seq<Signal>): seq<Evidence> {
    Map(Tag(Always(DuplicateSignal)), Repeats(signals)) + Map(Tag(LateReason(id, w)), Firsts(signals))
  }

  function Resolve(state: State, signals: seq<Signal>): Result<Decision, RaceError> {
    if signals == [] then Err(EmptyEligibleInput)
    else if Conflicting(signals) then Err(IdempotencyConflict)
    else Ok(Decide(state, signals))
  }

  ghost predicate SeenTracks(seen: map<string, Signal>, signals: seq<Signal>) {
    && (forall k :: k in seen ==> seen[k] in signals && seen[k].signalId == k)
    && (forall s :: s in signals ==> s.signalId in seen)
  }

  lemma ConflictMembers(signals: seq<Signal>)
    ensures Conflicting(signals) <==> exists a, b :: a in signals && b in signals && a.signalId == b.signalId && a != b
  {
    if a, b :| a in signals && b in signals && a.signalId == b.signalId && a != b {
      var i :| 0 <= i < |signals| && signals[i] == a;
      var j :| 0 <= j < |signals| && signals[j] == b;
    }
  }

  lemma ConflictExtends(prefix: seq<Signal>, signals: seq<Signal>)
    requires prefix <= signals && Conflicting(prefix)
    ensures Conflicting(signals)
  {
    var i, j :| 0 <= i < |prefix| && 0 <= j < |prefix| && prefix[i].signalId == prefix[j].signalId
        && prefix[i] != prefix[j];
    assert prefix[i] == signals[i] && prefix[j] == signals[j];
  }

  lemma ConflictByAppend(prefix: seq<Signal>, signal: Signal)
    requires !Conflicting(prefix)
    ensures Conflicting(prefix + [signal]) <==> exists a :: a in prefix && a.signalId == signal.signalId && a != signal
  {
    ConflictMembers(prefix);
    ConflictMembers(prefix + [signal]);
    assert forall x :: x in prefix + [signal] <==> x in prefix || x == signal;
  }

  lemma SeenDecides(seen: map<string, Signal>, prefix: seq<Signal>, signal: Signal)
    requires SeenTracks(seen, prefix) && !Conflicting(prefix)
    ensures Conflicting(prefix + [signal]) <==> signal.signalId in seen && seen[signal.signalId] != signal
    ensures signal in prefix <==> signal.signalId in seen && seen[signal.signalId] == signal
  {
    ConflictMembers(prefix);
    ConflictByAppend(prefix, signal);
  }

  lemma DedupAppend(prefix: seq<Signal>, signal: Signal)
    ensures Firsts(prefix + [signal]) == if signal in prefix then Firsts(prefix) else Firsts(prefix) + [signal]
    ensures Repeats(prefix + [signal]) == if signal in prefix then Repeats(prefix) + [signal] else Repeats(prefix)
  {
    assert (prefix + [signal])[..|prefix|] == prefix;
  }

  method Deduplicate(signals: seq<Signal>) returns (r: Result<(seq<Signal>, seq<Evidence>), RaceError>)
    ensures r.Err? <==> Conflicting(signals)
    ensures r.Err? ==> r.error == IdempotencyConflict
    ensures r.Ok? ==> r.value == (Firsts(signals), Map(Tag(Always(DuplicateSignal)), Repeats(signals)))
  {
    hide Conflicting, Map, Firsts, Repeats;
    var normalized, evidence: seq<Evidence>, seen := Firsts([]), [], map[];
    EmptyBatch();
    for n := 0 to |signals|
      invariant SeenTracks(seen, signals[..n]) && !Conflicting(signals[..n])
      invariant normalized == Firsts(signals[..n])
      invariant evidence == Map(Tag(Always(DuplicateSignal)), Repeats(signals[..n]))
    {
      var signal := signals[n];
      ghost var prefix := signals[..n];
      assert signals[..n + 1] == prefix + [signal];
      SeenDecides(seen, prefix, signal);
      DedupAppend(prefix, signal);
      if signal.signalId in seen {
        if seen[signal.signalId] != signal {
          ConflictExtends(signals[..n + 1], signals);
          return Err(IdempotencyConflict);
        }
        MapAppend(Tag(Always(DuplicateSignal)), Repeats(prefix), signal);
        evidence := evidence + [Evidence(signal.signalId, signal.kind, signal.logicalSeq, DuplicateSignal)];
      } else {
        seen := seen[signal.signalId := signal];
        normalized := normalized + [signal];
      }
    }
    assert signals[..|signals|] == signals;
    return Ok((normalized, evidence));
  }

  lemma EmptyBatch()
    ensures Firsts([]) == [] && Repeats([]) == [] && !Conflicting([])
    ensures Map(Tag(Always(DuplicateSignal)), []) == []
  {
  }

  method SealedEvidence(id: Identity, w: Signal, normalized: seq<Signal>, duplicates: seq<Evidence>)
      returns (evidence: seq<Evidence>)
    ensures evidence == duplicates + Map(Tag(LateReason(id, w)), normalized)
  {
    hide Map, ClassifyIneligible;
    evidence := duplicates;
    MapEmpty(Tag(LateReason(id, w)));
    for n := 0 to |normalized|
      invariant evidence == duplicates + Map(Tag(LateReason(id, w)), normalized[..n])
    {
      var s := normalized[n];
      var reason := if s == w then DuplicateSignal
                    else match ClassifyIneligible(s, id) case Some(r) => r case None => LateAfterCommit;
      assert normalized[..n + 1] == normalized[..n] + [s];
      MapAppend(Tag(LateReason(id, w)), normalized[..n], s);
      evidence := evidence + [Evidence(s.signalId, s.kind, s.logicalSeq, reason)];
    }
    assert normalized[..|normalized|] == normalized;
  }

  method SplitEligible(id: Identity, normalized: seq<Signal>, duplicates: seq<Evidence>)
    returns (eligible: seq<Signal>, evidence: seq<Evidence>)
    ensures eligible == Filter(EligibleFor(id), normalized)
    ensures evidence == duplicates + Map(Tag(IneligibleReason(id)), Filter(IneligibleFor(id), normalized))
  {
    hide Map, Filter;
    eligible, evidence := [], duplicates;
    FilterEmpty(EligibleFor(id));
    FilterEmpty(IneligibleFor(id));
    MapEmpty(Tag(IneligibleReason(id)));
    for n := 0 to |normalized|
      invariant eligible == Filter(EligibleFor(id), normalized[..n])
      invariant evidence == duplicates + Map(Tag(IneligibleReason(id)), Filter(IneligibleFor(id), normalized[..n]))
    {
      var s := normalized[n];
      assert normalized[..n + 1] == normalized[..n] + [s];
      FilterAppend(EligibleFor(id), normalized[..n], s);
      FilterAppend(IneligibleFor(id), normalized[..n], s);
      var reason := ClassifyIneligible(s, id);
      if reason.None? {
        eligible := eligible + [s];
        assert Filter(IneligibleFor(id), normalized[..n + 1]) == Filter(IneligibleFor(id), normalized[..n]);
      } else {
        MapAppend(Tag(IneligibleReason(id)), Filter(IneligibleFor(id), normalized[..n]), s);
        evidence := evidence + [Evidence(s.signalId, s.kind, s.logicalSeq, reason.value)];
        assert Filter(EligibleFor(id), normalized[..n + 1]) == Filter(EligibleFor(id), normalized[..n]);
      }
    }
    assert normalized[..|normalized|] == normalized;
  }

  method LoserEvidence(eligible: seq<Signal>, w: Signal, rejected: seq<Evidence>) returns (evidence: seq<Evidence>)
    ensures evidence == rejected + Losers(eligible, w)
  {
    hide Map, Filter;
    evidence := rejected;
    FilterEmpty(Other(w));
    MapEmpty(Tag(Always(RaceLoser)));
    for n := 0 to |eligible|
      invariant evidence == rejected + Map(Tag(Always(RaceLoser)), Filter(Other(w), eligible[..n]))
    {
      var s := eligible[n];
      assert eligible[..n + 1] == eligible[..n] + [s];
      FilterAppend(Other(w), eligible[..n], s);
      if s != w {
        MapAppend(Tag(Always(RaceLoser)), Filter(Other(w), eligible[..n]), s);
        evidence := evidence + [Evidence(s.signalId, s.kind, s.logicalSeq, RaceLoser)];
      } else {
        assert Filter(Other(w), eligible[..n + 1]) == Filter(Other(w), eligible[..n]);
      }
    }
    assert eligible[..|eligible|] == eligible;
  }

  method ResolveTerminalRace(state: State, signals: seq<Signal>) returns (r: Result<Decision, RaceError>)
    ensures r == Resolve(state, signals)
  {
    if signals == [] {
      return Err(EmptyEligibleInput);
    }
    var deduplicated := Deduplicate(signals);
    if deduplicated.Err? {
      return Err(deduplicated.error);
    }
    var normalized, evidence := deduplicated.value.0, deduplicated.value.1;
    if state.committedWinner.Some? {
      var w := state.committedWinner.value;
      evidence := SealedEvidence(state.identity, w, normalized, evidence);
      return Ok(Decision(Some(w), Some(DispositionOf(w.kind)), false, SortBy(EvidenceLe, evidence)));
    }
    var eligible;
    eligible, evidence := SplitEligible(state.identity, normalized, evidence);
    if eligible == [] {
      return Ok(Decision(None, None, false, evidence));
    }
    var w := Best(eligible);
    evidence := LoserEvidence(eligible, w, evidence);
    return Ok(Decision(Some(w), Some(DispositionOf(w.kind)), true, SortBy(EvidenceLe, evidence)));
  }

  function Commit(state: State, decision: Decision): Result<State, RaceError> {
    if !decision.stateAdvancing then Ok(state)
    else if decision.winner.None? then Err(NoWinner)
    else if state.committedWinner.Some? then Err(TerminalAlreadyCommitted)
    else
      var w := decision.winner.value;
      if !MatchesIdentity(w, state.identity) then Err(ContractMismatch)
      else if w.logicalSeq <= state.identity.logicalCursor then Err(InvalidSequence)
      else Ok(State(state.identity.(logicalCursor := w.logicalSeq), Some(w)))
  }

  // ---- the winner ----

  /** Reference definition: an eligible member no eligible member beats. */
  ghost predicate Wins(w: Signal, id: Identity, signals: seq<Signal>) {
    && w in signals && ClassifyIneligible(w, id) == None
    && forall s :: s in signals && ClassifyIneligible(s, id) == None ==> WinnerLe(w, s)
  }

  lemma {:induction false} FirstsMembers(signals: seq<Signal>)
    ensures forall s :: s in Firsts(signals) <==> s in signals
  {
    if signals != [] {
      FirstsMembers(signals[..|signals| - 1]);
      LastSplit(signals);
    }
  }

  lemma {:induction false} FirstsBag(signals: seq<Signal>, s: Signal)
    ensures multiset(Firsts(signals))[s] == if s in signals then 1 else 0
    ensures multiset(Firsts(signals))[s] + multiset(Repeats(signals))[s] == multiset(signals)[s]
  {
    if signals != [] {
      FirstsBag(signals[..|signals| - 1], s);
      LastSplit(signals);
      FirstsMembers(signals[..|signals| - 1]);
    }
  }

  lemma BestIsLeast(eligible: seq<Signal>)
    requires eligible != []
    ensures Best(eligible) in eligible
    ensures forall s :: s in eligible ==> WinnerLe(Best(eligible), s)
  {
    WinnerOrder();
    SortBySorted(WinnerLe, eligible);
    var sorted := SortBy(WinnerLe, eligible);
    SamePermutation(sorted, eligible);
    assert sorted[0] in sorted;
    forall s | s in eligible ensures WinnerLe(sorted[0], s) {
      var i :| 0 <= i < |sorted| && sorted[i] == s;
      assert WinnerLe(sorted[0], sorted[0]);
    }
  }

  /** The winner the resolution picks, if any. */
  function WinnerOf(state: State, signals: seq<Signal>): Option<Signal> {
    var eligible := Eligible(state, signals);
    if eligible == [] then None else Some(Best(eligible))
  }

  lemma EligibleMembers(state: State, signals: seq<Signal>)
    ensures forall s :: s in Eligible(state, signals) <==> s in signals && ClassifyIneligible(s, state.identity) == None
  {
    FirstsMembers(signals);
  }

  lemma WinsUnique(a: Signal, b: Signal, id: Identity, signals: seq<Signal>)
    requires !Conflicting(signals) && Wins(a, id, signals) && Wins(b, id, signals)
    ensures a == b
  {
    WinnerTie(a, b);
    ConflictMembers(signals);
  }

  /** Exactly the reference winner is picked, and nobody exactly when nobody is eligible. */
  lemma WinnerCharacterized(state: State, signals: seq<Signal>, w: Signal)
    requires !Conflicting(signals)
    ensures WinnerOf(state, signals) == Some(w) <==> Wins(w, state.identity, signals)
    ensures WinnerOf(state, signals) == None <==>
            forall s :: s in signals ==> ClassifyIneligible(s, state.identity) != None
  {
    hide Conflicting, WinnerLe;
    EligibleMembers(state, signals);
    var eligible := Eligible(state, signals);
    if eligible != [] {
      BestIsLeast(eligible);
      assert Wins(Best(eligible), state.identity, signals);
      if Wins(w, state.identity, signals) { WinsUnique(w, Best(eligible), state.identity, signals); }
      assert eligible[0] in eligible;
    }
  }

  function AsBatch(w: Option<Signal>): seq<Signal> {
    if w.Some? then [w.value] else []
  }

  lemma BatchWinnerEnough(state: State, a: seq<Signal>, b: seq<Signal>, w: Signal)
    requires !Conflicting(a + b) && !Conflicting(a) && !Conflicting(b)
    requires Wins(w, state.identity, a + b)
    ensures w in AsBatch(WinnerOf(state, a)) + AsBatch(WinnerOf(state, b))
  {
    if w in a {
      WinnerCharacterized(state, a, w);
    } else {
      WinnerCharacterized(state, b, w);
    }
  }

  lemma SubBatch(sub: seq<Signal>, signals: seq<Signal>)
    requires !Conflicting(signals) && forall s :: s in sub ==> s in signals
    ensures !Conflicting(sub)
  {
    ConflictMembers(sub);
    ConflictMembers(signals);
  }

  lemma BatchWinnersMembers(state: State, signals: seq<Signal>)
    ensures forall s :: s in AsBatch(WinnerOf(state, signals)) ==>
            s in signals && ClassifyIneligible(s, state.identity) == None
  {
    var eligible := Eligible(state, signals);
    EligibleMembers(state, signals);
    if eligible != [] { BestIsLeast(eligible); }
  }

  /** Resolving two batches at once picks the winner among the two batch winners. */
  lemma MergeWinners(state: State, a: seq<Signal>, b: seq<Signal>)
    requires !Conflicting(a + b)
    ensures WinnerOf(state, a + b) == WinnerOf(state, AsBatch(WinnerOf(state, a)) + AsBatch(WinnerOf(state, b)))
  {
    hide Conflicting, WinnerLe, WinnerOf;
    var winners := AsBatch(WinnerOf(state, a)) + AsBatch(WinnerOf(state, b));
    BatchWinnersMembers(state, a);
    BatchWinnersMembers(state, b);
    SubBatch(winners, a + b);
    SubBatch(a, a + b);
    SubBatch(b, a + b);
    match WinnerOf(state, a + b) {
      case Some(w) =>
        WinnerCharacterized(state, a + b, w);
        BatchWinnerEnough(state, a, b, w);
        WinnerCharacterized(state, winners, w);
      case None =>
        if winners != [] { assert winners[0] in a + b; WinnerCharacterized(state, a + b, winners[0]); }
        WinnerCharacterizedNone(state, a + b);
        WinnerCharacterizedNone(state, winners);
    }
  }

  lemma WinnerCharacterizedNone(state: State, signals: seq<Signal>)
    ensures WinnerOf(state, signals) == None <==>
            forall s :: s in signals ==> ClassifyIneligible(s, state.identity) != None
  {
    EligibleMembers(state, signals);
    var eligible := Eligible(state, signals);
    if eligible != [] { assert eligible[0] in eligible; }
  }

  // ---- order independence ----

  lemma DedupPermutation(xs: seq<Signal>, ys: seq<Signal>)
    requires multiset(xs) == multiset(ys)
    ensures multiset(Firsts(xs)) == multiset(Firsts(ys))
    ensures multiset(Repeats(xs)) == multiset(Repeats(ys))
    ensures Conflicting(xs) <==> Conflicting(ys)
  {
    SamePermutation(xs, ys);
    ConflictMembers(xs);
    ConflictMembers(ys);
    forall s ensures multiset(Firsts(xs))[s] == multiset(Firsts(ys))[s]
        && multiset(Repeats(xs))[s] == multiset(Repeats(ys))[s] {
      FirstsBag(xs, s);
      FirstsBag(ys, s);
    }
  }

  lemma RejectedPermutation(state: State, xs: seq<Signal>, ys: seq<Signal>)
    requires multiset(xs) == multiset(ys)
    ensures multiset(Rejected(state, xs)) == multiset(Rejected(state, ys))
    ensures multiset(Eligible(state, xs)) == multiset(Eligible(state, ys))
  {
    var id := state.identity;
    DedupPermutation(xs, ys);
    FilterPermutation(EligibleFor(id), Firsts(xs), Firsts(ys));
    FilterPermutation(IneligibleFor(id), Firsts(xs), Firsts(ys));
    MapPermutation(Tag(Always(DuplicateSignal)), Repeats(xs), Repeats(ys));
    MapPermutation(Tag(IneligibleReason(id)), Filter(IneligibleFor(id), Firsts(xs)),
        Filter(IneligibleFor(id), Firsts(ys)));
  }

  lemma SealedPermutation(id: Identity, w: Signal, xs: seq<Signal>, ys: seq<Signal>)
    requires multiset(xs) == multiset(ys)
    ensures multiset(Sealed(id, w, xs)) == multiset(Sealed(id, w, ys))
  {
    DedupPermutation(xs, ys);
    MapPermutation(Tag(Always(DuplicateSignal)), Repeats(xs), Repeats(ys));
    MapPermutation(Tag(LateReason(id, w)), Firsts(xs), Firsts(ys));
  }

  lemma LosersPermutation(xs: seq<Signal>, ys: seq<Signal>, w: Signal)
    requires multiset(xs) == multiset(ys)
    ensures multiset(Losers(xs, w)) == multiset(Losers(ys, w))
  {
    FilterPermutation(Other(w), xs, ys);
    MapPermutation(Tag(Always(RaceLoser)), Filter(Other(w), xs), Filter(Other(w), ys));
  }

  /** Every entry names some observed signal. */
  ghost predicate Sourced(evidence: seq<Evidence>, signals: seq<Signal>) {
    forall e :: e in evidence ==>
        exists s :: s in signals && e.signalId == s.signalId && e.kind == s.kind && e.logicalSeq == s.logicalSeq
  }

  lemma TagSourced(reason: Signal -> Reason, xs: seq<Signal>, signals: seq<Signal>)
    requires forall x :: x in xs ==> x in signals
    ensures Sourced(Map(Tag(reason), xs), signals)
  {
    var m := Map(Tag(reason), xs);
    forall e | e in m
      ensures exists s :: s in signals && e.signalId == s.signalId && e.kind == s.kind && e.logicalSeq == s.logicalSeq {
      var i :| 0 <= i < |m| && m[i] == e;
      assert xs[i] in signals;
    }
  }

  lemma SourcedConcat(a: seq<Evidence>, b: seq<Evidence>, signals: seq<Signal>)
    requires Sourced(a, signals) && Sourced(b, signals)
    ensures Sourced(a + b, signals)
  {
  }

  lemma {:induction false} RepeatsMembers(signals: seq<Signal>)
    ensures forall s :: s in Repeats(signals) ==> s in signals
  {
    if signals != [] {
      RepeatsMembers(signals[..|signals| - 1]);
      LastSplit(signals);
    }
  }

  lemma EvidenceSourced(state: State, signals: seq<Signal>, w: Signal)
    ensures Sourced(Rejected(state, signals), signals)
    ensures Sourced(Rejected(state, signals) + Losers(Eligible(state, signals), w), signals)
    ensures Sourced(Sealed(state.identity, w, signals), signals)
  {
    hide Sourced, Map;
    FirstsMembers(signals);
    RepeatsMembers(signals);
    var id := state.identity;
    TagSourced(Always(DuplicateSignal), Repeats(signals), signals);
    TagSourced(IneligibleReason(id), Filter(IneligibleFor(id), Firsts(signals)), signals);
    TagSourced(LateReason(id, w), Firsts(signals), signals);
    TagSourced(Always(RaceLoser), Filter(Other(w), Eligible(state, signals)), signals);
    SourcedConcat(Map(Tag(Always(DuplicateSignal)), Repeats(signals)),
                  Map(Tag(IneligibleReason(id)), Filter(IneligibleFor(id), Firsts(signals))), signals);
    SourcedConcat(Rejected(state, signals), Losers(Eligible(state, signals), w), signals);
    SourcedConcat(Map(Tag(Always(DuplicateSignal)), Repeats(signals)), Map(Tag(LateReason(id, w)), Firsts(signals)),
        signals);
  }

  /** One id means one signal, so the evidence sort key has no ties. */
  lemma EvidenceSortForgetsOrder(xs: seq<Evidence>, ys: seq<Evidence>, signals: seq<Signal>)
    requires !Conflicting(signals) && Sourced(xs, signals) && multiset(xs) == multiset(ys)
    ensures SortBy(EvidenceLe, xs) == SortBy(EvidenceLe, ys)
  {
    hide EvidenceLe, Conflicting;
    EvidenceOrder();
    ConflictMembers(signals);
    forall a, b | a in xs && b in xs && EvidenceLe(a, b) && EvidenceLe(b, a) ensures a == b {
      EvidenceTie(a, b);
    }
    SortForgetsOrder(EvidenceLe, xs, ys);
  }

  /** Permuting a batch changes neither the error, the winner, nor the disposition; the evidence
      is the same sequence when there is a winner and the same multiset otherwise. */
  lemma OrderFree(state: State, xs: seq<Signal>, ys: seq<Signal>)
    requires multiset(xs) == multiset(ys)
    ensures Resolve(state, xs).Err? <==> Resolve(state, ys).Err?
    ensures Resolve(state, xs).Err? ==> Resolve(state, xs) == Resolve(state, ys)
    ensures Resolve(state, xs).Ok? ==>
              var d, e := Resolve(state, xs).value, Resolve(state, ys).value;
              && d.(evidenceOnly := []) == e.(evidenceOnly := [])
              && multiset(d.evidenceOnly) == multiset(e.evidenceOnly)
              && (d.winner.Some? ==> d == e)
  {
    SamePermutation(xs, ys);
    DedupPermutation(xs, ys);
    if xs != [] && !Conflicting(xs) {
      match state.committedWinner {
        case Some(w) =>
          SealedPermutation(state.identity, w, xs, ys);
          EvidenceSourced(state, xs, w);
          EvidenceSortForgetsOrder(Sealed(state.identity, w, xs), Sealed(state.identity, w, ys), xs);
        case None =>
          OpenOrderFree(state, xs, ys);
      }
    }
  }

  lemma OpenOrderFree(state: State, xs: seq<Signal>, ys: seq<Signal>)
    requires multiset(xs) == multiset(ys) && !Conflicting(xs) && !Conflicting(ys) && state.committedWinner.None?
    ensures var d, e := Decide(state, xs), Decide(state, ys);
            && d.(evidenceOnly := []) == e.(evidenceOnly := [])
            && multiset(d.evidenceOnly) == multiset(e.evidenceOnly)
            && (d.winner.Some? ==> d == e)
  {
    hide Conflicting, Wins, Rejected, Losers, Eligible;
    RejectedPermutation(state, xs, ys);
    SamePermutation(xs, ys);
    var p, q := Eligible(state, xs), Eligible(state, ys);
    SamePermutation(p, q);
    if p != [] {
      var w := Best(p);
      SameWinner(state, xs, ys);
      LosersPermutation(p, q, w);
      EvidenceSourced(state, xs, w);
      BagConcat(Rejected(state, xs), Losers(p, w));
      BagConcat(Rejected(state, ys), Losers(q, w));
      EvidenceSortForgetsOrder(Rejected(state, xs) + Losers(p, w), Rejected(state, ys) + Losers(q, w), xs);
    }
  }

  lemma SameWinner(state: State, xs: seq<Signal>, ys: seq<Signal>)
    requires multiset(xs) == multiset(ys) && !Conflicting(xs) && !Conflicting(ys)
    ensures WinnerOf(state, xs) == WinnerOf(state, ys)
  {
    hide Conflicting, WinnerOf;
    SamePermutation(xs, ys);
    match WinnerOf(state, xs) {
      case Some(w) =>
        WinnerCharacterized(state, xs, w);
        WinnerCharacterized(state, ys, w);
      case None =>
        WinnerCharacterizedNone(state, xs);
        WinnerCharacterizedNone(state, ys);
    }
  }

  // ---- conservation ----

  datatype Brief = Brief(signalId: string, kind: SignalKind, logicalSeq: nat)

  function BriefOf(): Signal -> Brief {
    (s: Signal) => Brief(s.signalId, s.kind, s.logicalSeq)
  }

  function BriefOfEvidence(): Evidence -> Brief {
    (e: Evidence) => Brief(e.signalId, e.kind, e.logicalSeq)
  }

  function Bag(evidence: seq<Evidence>): multiset<Brief> {
    multiset(Map(BriefOfEvidence(), evidence))
  }

  function SignalBag(signals: seq<Signal>): multiset<Brief> {
    multiset(Map(BriefOf(), signals))
  }

  lemma TagBag(reason: Signal -> Reason, xs: seq<Signal>)
    ensures Bag(Map(Tag(reason), xs)) == SignalBag(xs)
  {
    assert Map(BriefOfEvidence(), Map(Tag(reason), xs)) == Map(BriefOf(), xs);
  }

  lemma BagAdds(a: seq<Evidence>, b: seq<Evidence>)
    ensures Bag(a + b) == Bag(a) + Bag(b)
  {
    MapConcat(BriefOfEvidence(), a, b);
  }

  lemma SignalBagAdds(xs: seq<Signal>, a: seq<Signal>, b: seq<Signal>)
    requires multiset(xs) == multiset(a) + multiset(b)
    ensures SignalBag(xs) == SignalBag(a) + SignalBag(b)
  {
    assert multiset(xs) == multiset(a + b);
    MapPermutation(BriefOf(), xs, a + b);
    MapConcat(BriefOf(), a, b);
  }

  lemma SortKeepsBag(evidence: seq<Evidence>)
    ensures Bag(SortBy(EvidenceLe, evidence)) == Bag(evidence)
  {
    MapPermutation(BriefOfEvidence(), SortBy(EvidenceLe, evidence), evidence);
  }

  lemma DedupPartition(signals: seq<Signal>)
    ensures multiset(signals) == multiset(Repeats(signals)) + multiset(Firsts(signals))
  {
    forall s ensures multiset(signals)[s] == (multiset(Repeats(signals)) + multiset(Firsts(signals)))[s] {
      FirstsBag(signals, s);
    }
  }

  lemma WinnerSplits(state: State, signals: seq<Signal>, w: Signal)
    requires w in Eligible(state, signals)
    ensures multiset(Eligible(state, signals)) == multiset(Filter(Other(w), Eligible(state, signals))) + multiset([w])
  {
    var eligible := Eligible(state, signals);
    forall s ensures multiset(eligible)[s] == (multiset(Filter(Other(w), eligible)) + multiset([w]))[s] {
      FilterBag(Other(w), eligible, s);
      FilterBag(EligibleFor(state.identity), Firsts(signals), s);
      FirstsBag(signals, s);
      assert s in eligible ==> multiset(eligible)[s] > 0;
    }
  }

  lemma RejectedBag(state: State, signals: seq<Signal>)
    ensures SignalBag(signals) == Bag(Rejected(state, signals)) + SignalBag(Eligible(state, signals))
  {
    var id := state.identity;
    var firsts, repeats := Firsts(signals), Repeats(signals);
    DedupPartition(signals);
    FilterPartition(EligibleFor(id), IneligibleFor(id), firsts);
    SignalBagAdds(signals, repeats, firsts);
    SignalBagAdds(firsts, Filter(EligibleFor(id), firsts), Filter(IneligibleFor(id), firsts));
    TagBag(Always(DuplicateSignal), repeats);
    TagBag(IneligibleReason(id), Filter(IneligibleFor(id), firsts));
    BagAdds(Map(Tag(Always(DuplicateSignal)), repeats),
        Map(Tag(IneligibleReason(id)), Filter(IneligibleFor(id), firsts)));
  }

  /** Every observed signal is the new winner or exactly one evidence entry. */
  lemma Conservation(state: State, signals: seq<Signal>)
    requires Resolve(state, signals).Ok?
    ensures var d := Resolve(state, signals).value;
            SignalBag(signals) == Bag(d.evidenceOnly) + if d.stateAdvancing then SignalBag([d.winner.value])
              else multiset{}
  {
    hide Map, Conflicting, Rejected, Losers, Eligible, Bag, SignalBag, SortBy;
    match state.committedWinner {
      case Some(w) =>
        SealedBag(state.identity, w, signals);
        SortKeepsBag(Sealed(state.identity, w, signals));
      case None =>
        var eligible := Eligible(state, signals);
        RejectedBag(state, signals);
        if eligible == [] {
          EmptySignalBag();
        } else {
          OpenBag(state, signals);
        }
    }
  }

  lemma EmptySignalBag()
    ensures SignalBag([]) == multiset{}
  {
  }

  lemma SealedBag(id: Identity, w: Signal, signals: seq<Signal>)
    ensures Bag(Sealed(id, w, signals)) == SignalBag(signals)
  {
    DedupPartition(signals);
    SignalBagAdds(signals, Repeats(signals), Firsts(signals));
    TagBag(Always(DuplicateSignal), Repeats(signals));
    TagBag(LateReason(id, w), Firsts(signals));
    BagAdds(Map(Tag(Always(DuplicateSignal)), Repeats(signals)), Map(Tag(LateReason(id, w)), Firsts(signals)));
  }

  lemma OpenBag(state: State, signals: seq<Signal>)
    requires state.committedWinner.None? && Eligible(state, signals) != []
    ensures var d := Decide(state, signals);
            d.winner.Some? && SignalBag(signals) == Bag(d.evidenceOnly) + SignalBag([d.winner.value])
  {
    hide Map, Conflicting, Rejected, Eligible, Bag, SignalBag, SortBy;
    var eligible := Eligible(state, signals);
    var w := Best(eligible);
    BestIsLeast(eligible);
    RejectedBag(state, signals);
    WinnerSplits(state, signals, w);
    SignalBagAdds(eligible, Filter(Other(w), eligible), [w]);
    TagBag(Always(RaceLoser), Filter(Other(w), eligible));
    BagAdds(Rejected(state, signals), Losers(eligible, w));
    SortKeepsBag(Rejected(state, signals) + Losers(eligible, w));
  }

  // ---- sealing ----

  /** What the state constructor enforces. */
  predicate Valid(state: State) {
    match state.committedWinner
    case None => true
    case Some(w) => MatchesIdentity(w, state.identity) && w.logicalSeq <= state.identity.logicalCursor
  }

  /** The state once `w` is sealed. */
  function Seal(state: State, w: Signal): State {
    State(state.identity.(logicalCursor := w.logicalSeq), Some(w))
  }

  lemma OpenWinner(state: State, signals: seq<Signal>)
    requires state.committedWinner.None? && Resolve(state, signals).Ok?
    ensures var d := Resolve(state, signals).value;
            && (d.stateAdvancing <==> d.winner.Some?)
            && (d.winner.Some? ==> Wins(d.winner.value, state.identity, signals))
  {
    hide SortBy, Conflicting, WinnerLe, Rejected, Losers, Best;
    EligibleMembers(state, signals);
    var eligible := Eligible(state, signals);
    if eligible != [] {
      BestIsLeast(eligible);
    }
  }

  /** With a winner, evidence stands by sequence, then by the reason's name, then by the signal's identity. */
  lemma EvidenceInOrder(state: State, signals: seq<Signal>, i: nat, j: nat)
    requires Resolve(state, signals).Ok? && Resolve(state, signals).value.winner.Some?
    requires i < j < |Resolve(state, signals).value.evidenceOnly|
    ensures var a, b := Resolve(state, signals).value.evidenceOnly[i], Resolve(state, signals).value.evidenceOnly[j];
            && a.logicalSeq <= b.logicalSeq
            && (a.logicalSeq == b.logicalSeq ==>
                  && TextLe(ReasonText(a.reason), ReasonText(b.reason))
                  && (a.reason == b.reason ==> TextLe(a.signalId, b.signalId)))
  {
    hide TextLe, Conflicting, Eligible, Rejected, Losers, Sealed, SortBy, ReasonText;
    EvidenceOrder();
    var evidence := Resolve(state, signals).value.evidenceOnly;
    if state.committedWinner.Some? {
      SortBySorted(EvidenceLe, Sealed(state.identity, state.committedWinner.value, signals));
    } else {
      SortBySorted(EvidenceLe, Rejected(state, signals)
          + Losers(Eligible(state, signals), Best(Eligible(state, signals))));
    }
    assert EvidenceLe(evidence[i], evidence[j]);
    ReasonOrder(evidence[i].reason, evidence[j].reason);
  }

  /** Exactly when a commit seals the race, and that it then seals it with that winner and nothing else changed. */
  lemma CommitExactly(state: State, d: Decision)
    ensures Commit(state, d).Ok? && Commit(state, d).value.committedWinner != state.committedWinner ==>
              && d.stateAdvancing && d.winner.Some? && state.committedWinner.None?
              && Commit(state, d).value.committedWinner == d.winner
              && Commit(state, d).value.identity == state.identity.(logicalCursor := d.winner.value.logicalSeq)
    ensures (d.stateAdvancing ==> d.winner.Some?) ==>
              (Commit(state, d).Ok? <==>
                 (d.stateAdvancing ==>
                    && state.committedWinner.None?
                    && d.winner.value.runId == state.identity.runId && d.winner.value.nodeId == state.identity.nodeId
                    && d.winner.value.attemptId == state.identity.attemptId
                    && d.winner.value.leaseGeneration == state.identity.leaseGeneration
                    && d.winner.value.logicalSeq > state.identity.logicalCursor))
    ensures !d.stateAdvancing ==> Commit(state, d) == Ok(state)
  {
  }

  /** The disposition a decision carries is that of its winner's kind. */
  lemma WinnersDisposition(state: State, signals: seq<Signal>)
    requires Resolve(state, signals).Ok?
    ensures var d := Resolve(state, signals).value;
            && (d.disposition.Some? <==> d.winner.Some?)
            && (d.winner.Some? ==>
                  match d.winner.value.kind
                  case Cancellation => d.disposition == Some(CancelledRun)
                  case Timeout => d.disposition == Some(TimedOutRun)
                  case LeaseExpiry => d.disposition == Some(LeaseExpired)
                  case ChildTerminal => d.disposition == Some(ChildDone))
  {
    hide SortBy, Rejected, Losers, Eligible, Sealed, Conflicting;
  }

  /** A decision resolved on an open state always commits, and seals exactly its winner. */
  lemma OwnDecisionCommits(state: State, signals: seq<Signal>)
    requires state.committedWinner.None? && Resolve(state, signals).Ok?
    ensures var d := Resolve(state, signals).value;
            && (d.winner.None? ==> Commit(state, d) == Ok(state))
            && (d.winner.Some? ==>
                  Commit(state, d) == Ok(Seal(state, d.winner.value)) && Valid(Seal(state, d.winner.value)))
  {
    hide Resolve;
    OpenWinner(state, signals);
    var d := Resolve(state, signals).value;
    if d.winner.Some? {
      EligibleMeansCurrent(d.winner.value, state.identity);
    }
  }

  /** Applying commits of arbitrary decisions, whoever resolved them and when; a refused commit changes nothing. */
  function Run(state: State, decisions: seq<Decision>): State {
    if decisions == [] then state
    else
      var before := Run(state, decisions[..|decisions| - 1]);
      match Commit(before, decisions[|decisions| - 1])
      case Ok(after) => after
      case Err(_) => before
  }

  /** Over every run the state stays valid, the identity and cursor move only at the sealing commit,
      and a sealed state never changes again. */
  lemma {:induction false} RunSeals(state: State, decisions: seq<Decision>, n: nat)
    requires Valid(state) && n <= |decisions|
    ensures Valid(Run(state, decisions))
    ensures Run(state, decisions[..n]).committedWinner.Some? ==> Run(state, decisions) == Run(state, decisions[..n])
    ensures Run(state, decisions).identity.logicalCursor >= state.identity.logicalCursor
  {
    if n < |decisions| {
      var init := decisions[..|decisions| - 1];
      RunSeals(state, init, n);
      assert init[..n] == decisions[..n];
    } else {
      assert decisions[..n] == decisions;
      if decisions != [] {
        RunSeals(state, decisions[..|decisions| - 1], |decisions| - 1);
      }
    }
  }

  /** Replaying the winning batch after its commit: the winner reads as a duplicate, every eligible
      loser as stale, nothing as late. */
  lemma ReplayReasons(before: State, signals: seq<Signal>, w: Signal, s: Signal)
    requires Wins(w, before.identity, signals) && s in signals
    ensures var reason := LateReason(Seal(before, w).identity, w);
            && reason(w) == DuplicateSignal
            && (s != w && ClassifyIneligible(s, before.identity) == None ==> reason(s) == StaleSequence)
            && reason(s) != LateAfterCommit
  {
    EligibleMeansCurrent(w, before.identity);
    if ClassifyIneligible(s, before.identity) == None {
      assert WinnerLe(w, s);
    }
  }

  lemma NoLateEntry(id: Identity, w: Signal, xs: seq<Signal>)
    requires forall s :: s in xs ==> LateReason(id, w)(s) != LateAfterCommit
    ensures forall e :: e in Sealed(id, w, xs) ==> e.reason != LateAfterCommit
  {
    FirstsMembers(xs);
    var a, b := Map(Tag(Always(DuplicateSignal)), Repeats(xs)), Map(Tag(LateReason(id, w)), Firsts(xs));
    forall e: Evidence | e in a + b ensures e.reason != LateAfterCommit {
      if e in b {
        var i :| 0 <= i < |b| && b[i] == e;
        assert Firsts(xs)[i] in xs;
      }
    }
  }

  lemma SealedEntry(id: Identity, w: Signal, signals: seq<Signal>, s: Signal)
    requires s in signals
    ensures Tag(LateReason(id, w))(s) in Sealed(id, w, signals)
  {
    hide Map;
    FirstsMembers(signals);
    MapMember(Tag(LateReason(id, w)), Firsts(signals), s);
  }

  /** The same, read off the decision the replay returns. */
  lemma ReplayEvidence(before: State, signals: seq<Signal>, w: Signal)
    requires before.committedWinner.None? && Resolve(before, signals).Ok?
          && Resolve(before, signals).value.winner == Some(w)
    ensures var replay := Resolve(Seal(before, w), signals);
            && replay.Ok? && replay.value.winner == Some(w) && !replay.value.stateAdvancing
            && (forall e :: e in replay.value.evidenceOnly ==> e.reason != LateAfterCommit)
            && Tag(Always(DuplicateSignal))(w) in replay.value.evidenceOnly
            && (forall s :: s in signals && s != w && ClassifyIneligible(s, before.identity) == None ==>
                  Tag(Always(StaleSequence))(s) in replay.value.evidenceOnly)
  {
    hide WinnerLe, EvidenceLe, Conflicting, SortBy, Rejected, Losers, Eligible, Sealed;
    OpenWinner(before, signals);
    var after := Seal(before, w);
    forall s | s in signals ensures Tag(LateReason(after.identity, w))(s) in Sealed(after.identity, w, signals) {
      SealedEntry(after.identity, w, signals, s);
    }
    assert Wins(w, before.identity, signals);
    assert w in signals;
    ReplayReasons(before, signals, w, w);
    forall s | s in signals && s != w && ClassifyIneligible(s, before.identity) == None
      ensures Tag(Always(StaleSequence))(s) in Sealed(after.identity, w, signals) {
      ReplayReasons(before, signals, w, s);
      assert Tag(Always(StaleSequence))(s) == Tag(LateReason(after.identity, w))(s);
    }
    assert Tag(Always(DuplicateSignal))(w) == Tag(LateReason(after.identity, w))(w);
    forall s | s in signals ensures LateReason(after.identity, w)(s) != LateAfterCommit {
      ReplayReasons(before, signals, w, s);
    }
    NoLateEntry(after.identity, w, signals);
    SamePermutation(SortBy(EvidenceLe, Sealed(after.identity, w, signals)), Sealed(after.identity, w, signals));
  }
}
