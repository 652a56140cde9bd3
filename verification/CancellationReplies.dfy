/** What controllers answer over whole runs: which commands are answered as accepted, and what the others report. */
module CancellationReplies {
  import opened Results
  import opened Sequences
  import opened Cancellation

  /** Nothing on record yet, and no controller at work. */
  ghost predicate Blank(s: Store) {
    && s.dedupe == map[]
    && forall r :: r in s.runs ==> s.runs[r].state.runId == r && s.runs[r].meta.dedupe == map[]
  }

  ghost function Reached(s: Store, events: seq<Event>): World {
    RunEvents(World(s, map[], []), events)
  }

  /** At some moment of this history the run stood at this version and status. */
  ghost predicate Held(s: Store, events: seq<Event>, run: string, version: int, status: RunStatus) {
    exists n :: 0 <= n <= |events| && HeldAt(s, events, n, run, version, status)
  }

  ghost predicate HeldAt(s: Store, events: seq<Event>, n: int, run: string, version: int, status: RunStatus)
    requires 0 <= n <= |events|
  {
    var runs := Reached(s, events[..n]).store.runs;
    run in runs && runs[run].version == version && runs[run].state.status == status
  }

  /** An accepted reply belongs to a swap of this history; any other reports a final run this history held. */
  ghost predicate Truthful(s: Store, events: seq<Event>, i: Intent, r: ControlResult) {
    && r.runId == i.runId && r.commandId == i.commandId
    && if r.accepted then
         (i, r) in Reached(s, events).accepted
       else
         && Held(s, events, i.runId, r.newVersion, r.status)
         && ((r.detail.TerminalWon? && (r.status.Completed? || r.status.RunFailed?))
             || (r.detail.CancelAlreadyApplied? && r.status.RunCancelled?))
  }

  /** The reply a controller has given or is about to give. */
  function ReplyOf(pc: Pc): Option<ControlResult> {
    match pc
    case PersistingLoser(_, r) => Some(r)
    case Journaling(i, cur) => Some(WinResult(i, cur.version + 1))
    case Syncing(i, version) => Some(WinResult(i, version))
    case PuttingSidecar(i, version) => Some(WinResult(i, version))
    case Replied(_, r) => Some(r)
    case _ => None
  }

  ghost predicate PcTruthful(s: Store, events: seq<Event>, pc: Pc) {
    ReplyOf(pc).Some? ==> Truthful(s, events, pc.intent, ReplyOf(pc).value)
  }

  ghost predicate RecordsTruthful(s: Store, events: seq<Event>, records: map<string, Stored>) {
    forall k :: k in records ==> Truthful(s, events, records[k].fingerprint, records[k].result)
  }

  ghost predicate AllTruthful(s: Store, events: seq<Event>) {
    var w := Reached(s, events);
    && (forall c :: c in w.controllers ==> PcTruthful(s, events, w.controllers[c]))
    && RecordsTruthful(s, events, w.store.dedupe)
    && (forall r :: r in w.store.runs ==> RecordsTruthful(s, events, w.store.runs[r].meta.dedupe))
  }

  lemma ReachedNext(s: Store, events: seq<Event>, e: Event)
    ensures Reached(s, events + [e]) == Apply(Reached(s, events), e)
  {
    hide Apply;
    assert (events + [e])[..|events|] == events;
  }

  lemma AcceptedGrows(w: World, e: Event)
    ensures w.accepted <= Apply(w, e).accepted
  {
    hide Step, Swaps, RuntimeWrite;
  }

  /** What was true of a reply stays true. */
  lemma TruthfulLater(s: Store, events: seq<Event>, e: Event, i: Intent, r: ControlResult)
    requires Truthful(s, events, i, r)
    ensures Truthful(s, events + [e], i, r)
  {
    hide Reached;
    ReachedNext(s, events, e);
    AcceptedGrows(Reached(s, events), e);
    var longer := events + [e];
    if r.accepted {
      assert (i, r) in Reached(s, longer).accepted;
    } else {
      var n :| 0 <= n <= |events| && HeldAt(s, events, n, i.runId, r.newVersion, r.status);
      assert longer[..n] == events[..n];
      assert HeldAt(s, longer, n, i.runId, r.newVersion, r.status);
    }
  }

  lemma RecordsLater(s: Store, events: seq<Event>, e: Event, records: map<string, Stored>)
    requires RecordsTruthful(s, events, records)
    ensures RecordsTruthful(s, events + [e], records)
  {
    hide Truthful;
    forall k | k in records ensures Truthful(s, events + [e], records[k].fingerprint, records[k].result) {
      TruthfulLater(s, events, e, records[k].fingerprint, records[k].result);
    }
  }

  lemma PcLater(s: Store, events: seq<Event>, e: Event, pc: Pc)
    requires PcTruthful(s, events, pc)
    ensures PcTruthful(s, events + [e], pc)
  {
    hide Truthful;
    if ReplyOf(pc).Some? { TruthfulLater(s, events, e, pc.intent, ReplyOf(pc).value); }
  }

  /** The run as it stands now was held. */
  lemma HeldNow(s: Store, events: seq<Event>, run: string)
    requires run in Reached(s, events).store.runs
    ensures var v := Reached(s, events).store.runs[run]; Held(s, events, run, v.version, v.state.status)
  {
    hide Reached;
    assert events[..|events|] == events;
    var v := Reached(s, events).store.runs[run];
    assert HeldAt(s, events, |events|, run, v.version, v.state.status);
  }

  /** The losing reply computed from the run as it stands. */
  lemma LoseTruthful(s: Store, events: seq<Event>, i: Intent)
    requires i.runId in Reached(s, events).store.runs && Final(Reached(s, events).store.runs[i.runId].state.status)
    ensures PcTruthful(s, events, Lose(i, Reached(s, events).store.runs[i.runId]))
  {
    hide Reached, Held;
    HeldNow(s, events, i.runId);
  }

  /** Reading, recognizing, losing and concluding: the next reply is backed by what is on record, by the run as it
      stands, or by what the controller already held. */
  lemma NextTruthful(s: Store, events: seq<Event>, pc: Pc)
    requires AllTruthful(s, events) && PcTruthful(s, events, pc) && !Swaps(Reached(s, events).store, pc)
    ensures PcTruthful(s, events, Step(Reached(s, events).store, pc).1)
  {
    hide Reached, Truthful, CancelWrite, LoseResult, WinResult, RevokedIds, CancelledIds;
    var store := Reached(s, events).store;
    match pc
    case Reading(i) =>
      if i.runId in store.runs && Final(store.runs[i.runId].state.status) { LoseTruthful(s, events, i); }
    case Rereading(i) =>
      if i.runId in store.runs && Final(store.runs[i.runId].state.status) { LoseTruthful(s, events, i); }
    case _ =>
  }

  /** Only commands that were answered truthfully get on record. */
  lemma StoreTruthful(s: Store, events: seq<Event>, pc: Pc)
    requires AllTruthful(s, events) && PcTruthful(s, events, pc) && !Swaps(Reached(s, events).store, pc)
    ensures var after := Step(Reached(s, events).store, pc).0;
            && RecordsTruthful(s, events, after.dedupe)
            && (forall r :: r in after.runs ==> RecordsTruthful(s, events, after.runs[r].meta.dedupe))
  {
    hide Reached, Truthful, CancelWrite, LoseResult, WinResult, RevokedIds, CancelledIds;
  }

  /** The winning swap: the reply it stores and will give is the one it enters in the history. */
  lemma WinTruthful(s: Store, events: seq<Event>, c: nat)
    requires c in Reached(s, events).controllers && Swaps(Reached(s, events).store, Reached(s, events).controllers[c])
    ensures var w, longer := Reached(s, events), events + [Advance(c)];
            var i, cur := w.controllers[c].intent, w.controllers[c].current;
            && Truthful(s, longer, i, WinResult(i, cur.version + 1))
            && Step(w.store, w.controllers[c]) ==
                 (w.store.(runs := w.store.runs[i.runId := CancelWrite(i, cur)]), Journaling(i, cur))
  {
    hide Reached, CancelWrite;
    ReachedNext(s, events, Advance(c));
    var w := Reached(s, events);
    var i, cur := w.controllers[c].intent, w.controllers[c].current;
    assert (i, WinResult(i, cur.version + 1)) in Apply(w, Advance(c)).accepted;
  }

  lemma WonRecords(s: Store, longer: seq<Event>, i: Intent, cur: Versioned)
    requires RecordsTruthful(s, longer, cur.meta.dedupe) && Truthful(s, longer, i, WinResult(i, cur.version + 1))
    ensures RecordsTruthful(s, longer, CancelWrite(i, cur).meta.dedupe)
  {
    hide Truthful, Map;
  }

  lemma WinKeeps(s: Store, events: seq<Event>, c: nat)
    requires Blank(s) && AllTruthful(s, events) && c in Reached(s, events).controllers
    requires Swaps(Reached(s, events).store, Reached(s, events).controllers[c])
    ensures AllTruthful(s, events + [Advance(c)])
  {
    hide Reached, Truthful, CancelWrite, WinResult, Step, PcTruthful, RecordsTruthful;
    var w, e, longer := Reached(s, events), Advance(c), events + [Advance(c)];
    ReachedNext(s, events, e);
    WinTruthful(s, events, c);
    var i, cur := w.controllers[c].intent, w.controllers[c].current;
    SwapKeepsRecords(s, events, c);
    RecordsLater(s, events, e, w.store.runs[i.runId].meta.dedupe);
    WonRecords(s, longer, i, cur);
    RecordsLater(s, events, e, w.store.dedupe);
    forall r | r in w.store.runs && r != i.runId ensures RecordsTruthful(s, longer, w.store.runs[r].meta.dedupe) {
      RecordsLater(s, events, e, w.store.runs[r].meta.dedupe);
    }
    forall k | k in w.controllers && k != c ensures PcTruthful(s, longer, w.controllers[k]) {
      PcLater(s, events, e, w.controllers[k]);
    }
    JournalingTruthful(s, longer, i, cur);
  }

  lemma JournalingTruthful(s: Store, longer: seq<Event>, i: Intent, cur: Versioned)
    requires Truthful(s, longer, i, WinResult(i, cur.version + 1))
    ensures PcTruthful(s, longer, Journaling(i, cur))
  {
  }

  /** The run a swap was prepared from still has the same records. */
  lemma SwapKeepsRecords(s: Store, events: seq<Event>, c: nat)
    requires Blank(s) && c in Reached(s, events).controllers
    requires Swaps(Reached(s, events).store, Reached(s, events).controllers[c])
    ensures var w := Reached(s, events);
            w.store.runs[w.controllers[c].intent.runId].meta.dedupe == w.controllers[c].current.meta.dedupe
  {
    hide RunEvents, Durable;
    RunKeeps(World(s, map[], []), events);
    var w := Reached(s, events);
    assert SwapSound(w.store, w.controllers[c]);
  }

  lemma AdvanceKeeps(s: Store, events: seq<Event>, c: nat)
    requires Blank(s) && AllTruthful(s, events)
    ensures AllTruthful(s, events + [Advance(c)])
  {
    hide Reached, Step, PcTruthful, RecordsTruthful, Swaps;
    var w, e, longer := Reached(s, events), Advance(c), events + [Advance(c)];
    ReachedNext(s, events, e);
    if c !in w.controllers {
      SameWorld(s, events, e);
    } else if Swaps(w.store, w.controllers[c]) {
      WinKeeps(s, events, c);
    } else {
      NextTruthful(s, events, w.controllers[c]);
      StoreTruthful(s, events, w.controllers[c]);
      var (store, pc) := Step(w.store, w.controllers[c]);
      PcLater(s, events, e, pc);
      RecordsLater(s, events, e, store.dedupe);
      forall r | r in store.runs ensures RecordsTruthful(s, longer, store.runs[r].meta.dedupe) {
        RecordsLater(s, events, e, store.runs[r].meta.dedupe);
      }
      forall k | k in w.controllers && k != c ensures PcTruthful(s, longer, w.controllers[k]) {
        PcLater(s, events, e, w.controllers[k]);
      }
    }
  }

  /** Events that touch neither replies nor records. */
  lemma SameWorld(s: Store, events: seq<Event>, e: Event)
    requires AllTruthful(s, events)
    requires var w, after := Reached(s, events), Apply(Reached(s, events), e);
             && after.store.dedupe == w.store.dedupe && after.store.runs.Keys == w.store.runs.Keys
             && (forall r :: r in w.store.runs ==> after.store.runs[r].meta.dedupe == w.store.runs[r].meta.dedupe)
             && (forall c :: c in after.controllers ==>
                   ReplyOf(after.controllers[c]).None?
                       || (c in w.controllers && after.controllers[c] == w.controllers[c]))
    ensures AllTruthful(s, events + [e])
  {
    hide Reached, Apply, RecordsTruthful, Truthful;
    var w, after, longer := Reached(s, events), Apply(Reached(s, events), e), events + [e];
    ReachedNext(s, events, e);
    RecordsLater(s, events, e, w.store.dedupe);
    forall r | r in after.store.runs ensures RecordsTruthful(s, longer, after.store.runs[r].meta.dedupe) {
      RecordsLater(s, events, e, w.store.runs[r].meta.dedupe);
    }
    forall c | c in after.controllers ensures PcTruthful(s, longer, after.controllers[c]) {
      if ReplyOf(after.controllers[c]).Some? { PcLater(s, events, e, w.controllers[c]); }
    }
  }

  lemma EventTruthful(s: Store, events: seq<Event>, e: Event)
    requires Blank(s) && AllTruthful(s, events)
    ensures AllTruthful(s, events + [e])
  {
    hide AllTruthful, Reached, Step, Swaps;
    match e
    case Start(_, _) => SameWorld(s, events, e);
    case Advance(c) => AdvanceKeeps(s, events, c);
    case Crash(_) => SameWorld(s, events, e);
    case Write(_, _) => SameWorld(s, events, e);
  }

  lemma {:induction false} EverTruthful(s: Store, events: seq<Event>)
    requires Blank(s)
    ensures AllTruthful(s, events)
  {
    hide AllTruthful;
    if events == [] {
      NothingYet(s);
    } else {
      EverTruthful(s, events[..|events| - 1]);
      EventTruthful(s, events[..|events| - 1], events[|events| - 1]);
      assert events[..|events| - 1] + [events[|events| - 1]] == events;
    }
  }

  lemma NothingYet(s: Store)
    requires Blank(s)
    ensures AllTruthful(s, [])
  {
  }

  /** Every reply ever given, over all interleavings, crashes and runtime writes: it is an acceptance if and only if
      its command made a swap, and then it reports exactly that; any other reply reports a final run that was
      really held, and who won against the command. */
  lemma RepliesAreTrue(s: Store, events: seq<Event>, c: nat)
    requires Blank(s) && c in Reached(s, events).controllers && Reached(s, events).controllers[c].Replied?
    ensures var w := Reached(s, events);
            var i, r := w.controllers[c].intent, w.controllers[c].result;
            && (r.accepted <==> (i, r) in w.accepted)
            && (r.accepted ==>
                  r == ControlResult(i.runId, true, i.expectedVersion + 1, RunCancelled, CancelWon, i.commandId))
            && (!r.accepted ==>
                  && r.runId == i.runId && r.commandId == i.commandId
                  && Held(s, events, i.runId, r.newVersion, r.status) && Final(r.status)
                  && r.detail == if r.status.RunCancelled? then CancelAlreadyApplied else TerminalWon)
  {
    hide RunEvents, Held, SwapSound;
    EverTruthful(s, events);
    RunKeeps(World(s, map[], []), events);
    var w := Reached(s, events);
    var i, r := w.controllers[c].intent, w.controllers[c].result;
    assert PcTruthful(s, events, w.controllers[c]);
    if (i, r) in w.accepted {
      var k :| 0 <= k < |w.accepted| && w.accepted[k] == (i, r);
      assert Durable(w.store, w.accepted[k].0, w.accepted[k].1);
    }
  }

  /** No two commands on one run are ever both answered as accepted, however far apart in the history. */
  lemma OneAcceptance(s: Store, events: seq<Event>, n: nat, c: nat, d: nat)
    requires Blank(s) && n <= |events|
    requires c in Reached(s, events[..n]).controllers && Reached(s, events[..n]).controllers[c].Replied?
    requires d in Reached(s, events).controllers && Reached(s, events).controllers[d].Replied?
    ensures var a, b := Reached(s, events[..n]).controllers[c], Reached(s, events).controllers[d];
            a.result.accepted && b.result.accepted && a.intent.runId == b.intent.runId ==>
              a.intent == b.intent && a.result == b.result
  {
    hide RunEvents, Inv;
    RepliesAreTrue(s, events[..n], c);
    RepliesAreTrue(s, events, d);
    AcceptedSince(s, events, n);
    var w := Reached(s, events);
    var a, b := Reached(s, events[..n]).controllers[c], w.controllers[d];
    if a.result.accepted && b.result.accepted && a.intent.runId == b.intent.runId {
      var j :| 0 <= j < |w.accepted| && w.accepted[j] == (a.intent, a.result);
      var k :| 0 <= k < |w.accepted| && w.accepted[k] == (b.intent, b.result);
      AtMostOneWinner(s, events, j, k);
    }
  }

  lemma {:induction false} AcceptedSince(s: Store, events: seq<Event>, n: nat)
    requires n <= |events|
    ensures forall x :: x in Reached(s, events[..n]).accepted ==> x in Reached(s, events).accepted
    decreases |events|
  {
    hide Apply;
    if n < |events| {
      var init := events[..|events| - 1];
      AcceptedSince(s, init, n);
      assert init[..n] == events[..n];
      AcceptedGrows(Reached(s, init), events[|events| - 1]);
    } else {
      assert events[..n] == events;
    }
  }
}
