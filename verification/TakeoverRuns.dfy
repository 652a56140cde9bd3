/** Lease hand-offs in every interleaving with each other, with grants by others and with the runtime's other
    writes: when an attempt can end up with two active leases, and when it never can. */
module TakeoverRuns {
  import opened Results
  import opened Text
  import opened Fencing
  import opened LeaseBinding
  import opened Takeover

  // ---- the world ----

  datatype World = World(live: RunState, handoffs: map<nat, Pc>)

  datatype Event =
    | Start(id: nat, plan: Plan)
    | Advance(id: nat)
    | Stop(id: nat)
    | Grant(lease: WorkLease)
    | Write(next: RunState)

  /** The same active lease before and after a write, up to its expiry and other details. */
  predicate Continues(before: WorkLease, after: WorkLease) {
    && before.status.Active? && SameQuad(before, after)
    && before.leaseId == after.leaseId && before.generation == after.generation
  }

  /** Writes that grant nothing: releases, renewals, cancellations, node and attempt updates. They move the version
      by one, make no lease active and lower no recorded generation. */
  ghost predicate MayWrite(live: RunState, next: RunState) {
    && next.version == live.version + 1 && Sound(next.leases)
    && (forall l :: l in next.leases && l.status.Active? ==> exists k :: k in live.leases && Continues(k, l))
    && (forall id :: RecordedAt(next, id) >= RecordedAt(live, id))
  }

  ghost function Apply(env: Env, w: World, e: Event): World {
    match e
    case Start(id, p) =>
      if Coherent(w.live, p.state) then w.(handoffs := w.handoffs[id := Checking(p)]) else w
    case Advance(id) =>
      if id !in w.handoffs then w
      else
        var (live, pc) := Step(env, w.live, w.handoffs[id]);
        World(live, w.handoffs[id := pc])
    case Stop(id) => w.(handoffs := w.handoffs - {id})
    case Grant(lease) =>
      var bound := Numbered(w.live, lease);
      if Grantable(env.clock, w.live, bound) then w.(live := GrantedState(w.live, bound)) else w
    case Write(next) => if MayWrite(w.live, next) then w.(live := next) else w
  }

  ghost function RunEvents(env: Env, w: World, events: seq<Event>): World {
    if events == [] then w else Apply(env, RunEvents(env, w, events[..|events| - 1]), events[|events| - 1])
  }

  // ---- the invariant, and the one step that threatens it ----

  /** The attempt has an active lease stored under another identity than this one's. */
  predicate Rival(leases: seq<WorkLease>, lease: WorkLease) {
    exists i :: 0 <= i < |leases| && leases[i].status.Active? && SameQuad(leases[i], lease)
        && leases[i].leaseId != lease.leaseId
  }

  ghost predicate PcSound(live: RunState, pc: Pc) {
    match pc
    case Checking(p) => Coherent(live, p.state)
    case Retiring(p) => Coherent(live, p.state) && Passed(p)
    case Granting(p, snapshot) => Coherent(live, snapshot)
    case Detaching(p, existing, snapshot) => Coherent(live, snapshot)
    case Registering(p, snapshot) => Coherent(live, snapshot) && !Rival(snapshot.leases, Bound(p))
    case _ => true
  }

  ghost predicate Inv(w: World) {
    Sound(w.live.leases) && forall id :: id in w.handoffs ==> PcSound(w.live, w.handoffs[id])
  }

  /** The one hazardous step: reading the run back after a detach, when another writer has meanwhile given the
      attempt an active lease under another identity. */
  predicate Hazard(live: RunState, pc: Pc) {
    pc.ReadingDetached? && Rival(live.leases, Bound(pc.plan))
  }

  lemma PcLater(before: RunState, after: RunState, pc: Pc)
    requires PcSound(before, pc) && after.version > before.version
    ensures PcSound(after, pc)
  {
    hide Passed;
  }

  lemma NoRival(leases: seq<WorkLease>, lease: WorkLease)
    ensures ActiveFor(leases, lease).None? ==> !Rival(leases, lease)
  {
    hide ActiveFor;
  }

  /** Registering an active lease keeps the table sound if and only if its attempt has no rival lease. */
  lemma RegisterSound(leases: seq<WorkLease>, lease: WorkLease)
    requires Sound(leases)
    ensures lease.status.Active? ==> (Sound(Put(leases, lease)) <==> !Rival(leases, lease))
    ensures !Rival(leases, lease) ==> Sound(Put(leases, lease))
  {
    hide Position;
    if !Rival(leases, lease) {
      forall l | l in leases && SameQuad(l, lease) && l.leaseId != lease.leaseId ensures !l.status.Active? {
        var i :| 0 <= i < |leases| && leases[i] == l;
      }
      PutSound(leases, lease);
    }
    if lease.status.Active? && Rival(leases, lease) {
      var m :| 0 <= m < |leases| && leases[m].status.Active? && SameQuad(leases[m], lease)
          && leases[m].leaseId != lease.leaseId;
      var k, after := Position(leases, lease.leaseId), Put(leases, lease);
      assert after[k] == lease && after[m] == leases[m] && m != k;
      assert Clash(after[m], after[k]) && Clash(after[k], after[m]);
    }
  }

  /** A step keeps the table sound and leaves its own hand-off in a sound place, unless it is the hazard. */
  lemma StepSound(env: Env, live: RunState, pc: Pc)
    requires Sound(live.leases) && PcSound(live, pc) && !Hazard(live, pc)
    ensures var (after, next) := Step(env, live, pc);
            Sound(after.leases) && PcSound(after, next) && (after == live || after.version == live.version + 1)
  {
    hide Put, Position, Grantable, Sound, Strip, Validate, Passed, RetiredState;
    match pc
    case Checking(p) => if Validate(env, p).None? { ValidatedFacts(env, p); }
    case Retiring(p) => if live.version == p.expectedVersion { RetireStepSound(live, p); }
    case Detaching(p, existing, snapshot) =>
      if live.version == snapshot.version { PutSound(live.leases, existing.(status := Released)); }
    case Registering(p, snapshot) =>
      if live.version == snapshot.version { RegisterSound(live.leases, Bound(p)); }
    case Granting(p, snapshot) => NoRival(snapshot.leases, Bound(p));
    case _ =>
  }

  lemma RetireStepSound(live: RunState, p: Plan)
    requires Sound(live.leases) && PcSound(live, Retiring(p)) && live.version == p.expectedVersion
    ensures live == p.state && Sound(RetiredState(live, p).leases) && RetiredState(live, p).version == live.version + 1
  {
    hide Put, RetiredState;
    RetirementClears(p);
  }

  lemma StartSound(live: RunState, p: Plan)
    requires Coherent(live, p.state)
    ensures PcSound(live, Checking(p))
  {
  }

  lemma OthersLater(w: World, after: RunState, except: nat)
    requires Inv(w) && (after == w.live || after.version > w.live.version)
    ensures forall k :: k in w.handoffs && k != except ==> PcSound(after, w.handoffs[k])
  {
    hide PcSound, Sound;
    forall k | k in w.handoffs && k != except ensures PcSound(after, w.handoffs[k]) {
      if after != w.live { PcLater(w.live, after, w.handoffs[k]); }
    }
  }

  lemma AllLater(w: World, after: RunState)
    requires Inv(w) && Sound(after.leases) && after.version > w.live.version
    ensures Inv(w.(live := after))
  {
    hide PcSound, Sound;
    forall k | k in w.handoffs ensures PcSound(after, w.handoffs[k]) { PcLater(w.live, after, w.handoffs[k]); }
  }

  lemma EventKeeps(env: Env, w: World, e: Event)
    requires Inv(w)
    requires e.Advance? && e.id in w.handoffs ==> !Hazard(w.live, w.handoffs[e.id])
    ensures Inv(Apply(env, w, e))
  {
    hide PcSound, Step, Sound, Hazard, Grantable, GrantedState;
    match e
    case Start(id, p) =>
      if Coherent(w.live, p.state) { StartSound(w.live, p); }
    case Advance(id) =>
      if id in w.handoffs {
        StepSound(env, w.live, w.handoffs[id]);
        OthersLater(w, Step(env, w.live, w.handoffs[id]).0, id);
      }
    case Stop(id) =>
    case Grant(lease) => GrantKeeps(env, w, lease);
    case Write(next) => if MayWrite(w.live, next) { AllLater(w, next); }
  }

  lemma GrantKeeps(env: Env, w: World, lease: WorkLease)
    requires Inv(w)
    ensures Inv(Apply(env, w, Grant(lease)))
  {
    hide PcSound, Sound, Put, Timely;
    var bound := Numbered(w.live, lease);
    if Grantable(env.clock, w.live, bound) {
      GrantSound(w.live, bound);
      AllLater(w, GrantedState(w.live, bound));
    }
  }

  ghost predicate NoHazard(env: Env, w: World, events: seq<Event>) {
    forall k :: 0 <= k < |events| ==>
      var before := RunEvents(env, w, events[..k]);
      events[k].Advance? && events[k].id in before.handoffs ==> !Hazard(before.live, before.handoffs[events[k].id])
  }

  /** At every moment of every interleaving without the hazardous read-back, no attempt has two active leases. */
  lemma {:induction false} NeverTwoActive(env: Env, w: World, events: seq<Event>)
    requires Inv(w) && NoHazard(env, w, events)
    ensures Inv(RunEvents(env, w, events))
  {
    hide Inv, Apply, Hazard;
    if events != [] {
      var init := events[..|events| - 1];
      forall k | 0 <= k < |init| ensures events[..k] == init[..k] {}
      assert NoHazard(env, w, init);
      NeverTwoActive(env, w, init);
      assert events[..|events| - 1] == init;
      EventKeeps(env, RunEvents(env, w, init), events[|events| - 1]);
    }
  }

  /** Reading back and registering, undisturbed, keeps the table sound if and only if the read-back is not the
      hazard. */
  lemma HazardExactly(env: Env, live: RunState, p: Plan)
    requires Sound(live.leases) && p.replacementLease.status.Active?
    ensures var (l1, p1) := Step(env, live, ReadingDetached(p));
            var (l2, p2) := Step(env, l1, p1);
            p2.SyncingGranted? && (Sound(l2.leases) <==> !Hazard(live, ReadingDetached(p)))
  {
    hide Position, Put, Sound;
    RegisterSound(live.leases, Bound(p));
  }

  // ---- plans that leave no generation free ----

  /** The replacement takes at most the generation right after the recorded one. */
  predicate Tight(p: Plan) {
    p.replacement.leaseGeneration <= RecordedGeneration(p.state, p.replacementLease) + 1
  }

  predicate Newly(live: RunState, l: WorkLease) {
    l.generation.Some? && l.generation.value > RecordedAt(live, l.attemptId)
  }

  /** How any change moves generations: none recorded falls, and a lease that becomes active has passed the one
      recorded for its attempt. */
  ghost predicate Climbs(live: RunState, after: RunState) {
    && (forall id :: RecordedAt(after, id) >= RecordedAt(live, id))
    && (forall l :: l in after.leases && l.status.Active? ==>
          Newly(live, l) || exists k :: k in live.leases && Continues(k, l))
  }

  /** Since the retirement, whatever lease of the attempt is active has passed the generation recorded then. */
  ghost predicate Climbed(s: RunState, p: Plan) {
    var start := RecordedGeneration(p.state, p.replacementLease);
    && RecordedGeneration(s, Bound(p)) >= start
    && forall l :: l in s.leases && l.status.Active? && SameQuad(l, Bound(p)) ==>
          l.generation.Some? && l.generation.value > start
  }

  lemma ClimbedLater(live: RunState, after: RunState, p: Plan)
    requires Climbed(live, p) && Climbs(live, after)
    ensures Climbed(after, p)
  {
    var start := RecordedGeneration(p.state, p.replacementLease);
    forall l | l in after.leases && l.status.Active? && SameQuad(l, Bound(p))
      ensures l.generation.Some? && l.generation.value > start {
      if !Newly(live, l) {
        var k :| k in live.leases && Continues(k, l);
      }
    }
  }

  lemma PutMembers(leases: seq<WorkLease>, lease: WorkLease)
    ensures forall l :: l in Put(leases, lease) ==> l == lease || l in leases
  {
    hide Position;
  }

  lemma StillContinues(live: RunState, l: WorkLease)
    requires l in live.leases && l.status.Active?
    ensures exists k :: k in live.leases && Continues(k, l)
  {
    assert Continues(l, l);
  }

  /** Leases of `after` are inactive, newly granted, or there before. */
  lemma ClimbsBy(live: RunState, after: RunState)
    requires forall id :: RecordedAt(after, id) >= RecordedAt(live, id)
    requires forall l :: l in after.leases && l.status.Active? ==> Newly(live, l) || l in live.leases
    ensures Climbs(live, after)
  {
    hide Newly, Continues;
    forall l | l in after.leases && l.status.Active?
      ensures Newly(live, l) || exists k :: k in live.leases && Continues(k, l) {
      if !Newly(live, l) { StillContinues(live, l); }
    }
  }

  lemma RegisterClimbs(live: RunState, lease: WorkLease)
    requires Newly(live, lease)
    ensures Climbs(live, RegisteredState(live, lease))
  {
    hide Put;
    PutMembers(live.leases, lease);
    ClimbsBy(live, RegisteredState(live, lease));
  }

  lemma RetireClimbs(p: Plan)
    requires Passed(p) && Sound(p.state.leases)
    ensures Climbs(p.state, RetiredState(p.state, p))
  {
    hide Put, RetiredState, Passed;
    RetirementClears(p);
    PutMembers(p.state.leases, RetiredLease(p));
    ClimbsBy(p.state, RetiredState(p.state, p));
  }

  lemma GrantClimbs(clock: Clock, live: RunState, lease: WorkLease)
    requires Grantable(clock, live, lease)
    ensures Climbs(live, GrantedState(live, lease))
  {
    hide Put, Timely;
    var existing := ActiveFor(live.leases, lease);
    if existing.Some? {
      PutMembers(live.leases, existing.value.(status := Released));
      PutMembers(DetachedState(live, existing.value).leases, lease);
    } else {
      PutMembers(live.leases, lease);
    }
    ClimbsBy(live, GrantedState(live, lease));
  }

  /** What tight hand-offs keep: none ever has anything to detach. */
  ghost predicate TightSound(live: RunState, pc: Pc) {
    && Tight(pc.plan)
    && match pc
       case SyncingRetired(p, _) => Climbed(live, p)
       case ReadingRetired(p) => Climbed(live, p)
       case Granting(p, snapshot) => Climbed(snapshot, p)
       case Detaching(_, _, _) => false
       case SyncingDetached(_, _) => false
       case ReadingDetached(_) => false
       case Registering(p, snapshot) => Newly(snapshot, Bound(p))
       case _ => true
  }

  lemma TightLater(live: RunState, after: RunState, pc: Pc)
    requires TightSound(live, pc) && Climbs(live, after)
    ensures TightSound(after, pc)
  {
    hide Climbs, Climbed, Newly, Tight;
    match pc
    case SyncingRetired(p, _) => ClimbedLater(live, after, p);
    case ReadingRetired(p) => ClimbedLater(live, after, p);
    case _ =>
  }

  /** A lease granted to the attempt after the retirement has used up the only generation a tight plan could take. */
  lemma TightFindsNone(clock: Clock, snapshot: RunState, p: Plan)
    requires Tight(p) && Climbed(snapshot, p) && Grantable(clock, snapshot, Bound(p))
    ensures ActiveFor(snapshot.leases, Bound(p)).None? && Newly(snapshot, Bound(p))
  {
    hide Timely;
  }

  lemma RetireTight(live: RunState, p: Plan)
    requires Sound(live.leases) && PcSound(live, Retiring(p)) && live.version == p.expectedVersion
    ensures Climbs(live, RetiredState(live, p)) && Climbed(RetiredState(live, p), p)
  {
    hide Put, RetiredState, Climbs;
    RetireStepSound(live, p);
    RetirementClears(p);
    RetireClimbs(p);
  }

  lemma StepTight(env: Env, live: RunState, pc: Pc)
    requires Sound(live.leases) && PcSound(live, pc) && TightSound(live, pc)
    ensures var (after, next) := Step(env, live, pc); TightSound(after, next) && (after == live || Climbs(live, after))
  {
    hide Climbs, Climbed, Newly, Tight, Grantable, Validate, RetiredState, RegisteredState, Put, Find, Sound, Retirable,
    Rival, Passed;
    StepKeepsPlan(env, live, pc);
    match pc
    case Retiring(p) => if live.version == p.expectedVersion { RetireTight(live, p); }
    case Granting(p, snapshot) => if Grantable(env.clock, snapshot,
        Bound(p)) { TightFindsNone(env.clock, snapshot, p); }
    case Registering(p, snapshot) => if live.version == snapshot.version { RegisterClimbs(live, Bound(p)); }
    case _ =>
  }

  lemma StepKeepsPlan(env: Env, live: RunState, pc: Pc)
    ensures Step(env, live, pc).1.plan == pc.plan
  {
    if Rank(pc) > 0 { StepMakesProgress(env, live, pc); }
  }

  ghost predicate TightInv(w: World) {
    Inv(w) && forall id :: id in w.handoffs ==> TightSound(w.live, w.handoffs[id])
  }

  lemma TightChange(w: World, after: RunState, except: nat)
    requires TightInv(w) && (after == w.live || Climbs(w.live, after))
    ensures forall k :: k in w.handoffs && k != except ==> TightSound(after, w.handoffs[k])
  {
    hide TightSound, Climbs, Inv;
    forall k | k in w.handoffs && k != except ensures TightSound(after, w.handoffs[k]) {
      if after != w.live { TightLater(w.live, after, w.handoffs[k]); }
    }
  }

  lemma AllTightLater(w: World, after: RunState)
    requires TightInv(w) && Climbs(w.live, after)
    ensures forall k :: k in w.handoffs ==> TightSound(after, w.handoffs[k])
  {
    hide TightSound, Climbs, Inv;
    forall k | k in w.handoffs ensures TightSound(after, w.handoffs[k]) { TightLater(w.live, after, w.handoffs[k]); }
  }

  lemma WriteClimbs(live: RunState, next: RunState)
    requires MayWrite(live, next)
    ensures Climbs(live, next)
  {
    hide Sound, Continues;
  }

  lemma NotHazard(live: RunState, pc: Pc)
    requires TightSound(live, pc)
    ensures !Hazard(live, pc)
  {
  }

  lemma TightEvent(env: Env, w: World, e: Event)
    requires TightInv(w) && (e.Start? ==> Tight(e.plan))
    ensures TightInv(Apply(env, w, e))
  {
    hide TightSound, Climbs, Inv, Step, Grantable, GrantedState, Tight, Hazard;
    if e.Advance? && e.id in w.handoffs { NotHazard(w.live, w.handoffs[e.id]); }
    EventKeeps(env, w, e);
    match e
    case Start(id, p) => if Coherent(w.live, p.state) { StartTight(w.live, p); }
    case Advance(id) =>
      if id in w.handoffs {
        InvFacts(w, id);
        StepTight(env, w.live, w.handoffs[id]);
        TightChange(w, Step(env, w.live, w.handoffs[id]).0, id);
      }
    case Stop(id) =>
    case Grant(lease) =>
      var bound := Numbered(w.live, lease);
      if Grantable(env.clock, w.live, bound) {
        GrantClimbs(env.clock, w.live, bound);
        AllTightLater(w, GrantedState(w.live, bound));
      }
    case Write(next) =>
      if MayWrite(w.live, next) {
        WriteClimbs(w.live, next);
        AllTightLater(w, next);
      }
  }

  lemma StartTight(live: RunState, p: Plan)
    requires Tight(p)
    ensures TightSound(live, Checking(p))
  {
  }

  lemma InvFacts(w: World, id: nat)
    requires Inv(w) && id in w.handoffs
    ensures Sound(w.live.leases) && PcSound(w.live, w.handoffs[id])
  {
  }

  /** If every hand-off is tight, then over all their interleavings, with real grants and other writes mixed in, no
      attempt ever has two active leases and no hand-off ever detaches anything. */
  lemma {:induction false} TightNeverTwoActive(env: Env, w: World, events: seq<Event>)
    requires TightInv(w) && forall k :: 0 <= k < |events| && events[k].Start? ==> Tight(events[k].plan)
    ensures TightInv(RunEvents(env, w, events))
  {
    hide TightInv, Apply, Tight;
    if events != [] {
      TightNeverTwoActive(env, w, events[..|events| - 1]);
      TightEvent(env, RunEvents(env, w, events[..|events| - 1]), events[|events| - 1]);
    }
  }

  // ---- a run into the hazard ----

  lemma RunAppend(env: Env, w: World, events: seq<Event>, e: Event)
    ensures RunEvents(env, w, events + [e]) == Apply(env, RunEvents(env, w, events), e)
  {
    hide Apply;
    assert (events + [e])[..|events|] == events;
  }

  lemma NoEvents(env: Env, w: World)
    ensures RunEvents(env, w, []) == w
  {
  }

  /** Another lease for the attempt that somebody asks for, leaving its generation to the lease manager. */
  function Competing(p: Plan, id: string): WorkLease {
    Bound(p).(leaseId := id, generation := None)
  }

  /** A hand-off that would complete, alone in its world. */
  ghost predicate Promising(env: Env, p: Plan) {
    Validate(env, p).None? && Sound(p.state.leases) && Retirable(p.state, p) && GrantsAfterwards(env, p)
  }

  ghost predicate OnlyPlan(events: seq<Event>, p: Plan) {
    forall k :: 0 <= k < |events| && events[k].Start? ==> events[k].plan == p
  }

  /** The first part: the old lease is retired and its retirement synced. */
  lemma ReachRetired(env: Env, p: Plan) returns (events: seq<Event>)
    requires Promising(env, p)
    ensures RunEvents(env, World(p.state, map[]), events) ==
            World(RetiredState(p.state, p), map[0 := ReadingRetired(p)])
    ensures OnlyPlan(events, p)
  {
    hide RunEvents, Validate, Position, Put, RetiredState, Retirable, Sound, GrantsAfterwards;
    ValidatedFacts(env, p);
    RetirementClears(p);
    var w0, retired := World(p.state, map[]), RetiredState(p.state, p);
    NoEvents(env, w0);
    events := [] + [Start(0, p)];
    RunAppend(env, w0, [], Start(0, p));
    assert RunEvents(env, w0, events) == World(p.state, map[0 := Checking(p)]);
    RunAppend(env, w0, events, Advance(0));
    events := events + [Advance(0)];
    assert RunEvents(env, w0, events) == World(p.state, map[0 := Retiring(p)]);
    RunAppend(env, w0, events, Advance(0));
    events := events + [Advance(0)];
    assert RunEvents(env, w0, events) == World(retired, map[0 := SyncingRetired(p, p.expectedVersion + 1)]);
    RunAppend(env, w0, events, Advance(0));
    events := events + [Advance(0)];
  }

  /** Where nothing is active for the attempt, a competing request is granted, under the next generation. */
  lemma CompetitorGranted(env: Env, p: Plan, s: RunState, id: string)
    requires Timely(env.clock, p.replacementLease) && p.replacementLease.status.Active?
    requires Sound(s.leases) && ActiveFor(s.leases, Bound(p)).None?
    ensures var x := Competing(p, id).(generation := Some(RecordedGeneration(s, Bound(p)) + 1));
            var after := RegisteredState(s, x);
            && Numbered(s, Competing(p, id)) == x && Grantable(env.clock, s, x) && GrantedState(s, x) == after
            && Sound(after.leases) && x in after.leases && ActiveFor(after.leases, Bound(p)) == Some(x)
            && CurrentGeneration(after, Bound(p)) == RecordedGeneration(s, Bound(p)) + 1
  {
    hide Position, Put, Sound;
    var x := Competing(p, id).(generation := Some(RecordedGeneration(s, Bound(p)) + 1));
    NoneActiveAlike(s.leases, Bound(p), x);
    NoneActiveAlike(s.leases, Bound(p), Competing(p, id));
    GrantSound(s, x);
    FoundActive(RegisteredState(s, x).leases, x, Bound(p));
  }

  lemma FoundActive(leases: seq<WorkLease>, lease: WorkLease, like: WorkLease)
    requires SameQuad(lease, like) && lease.status.Active? && Find(leases, lease.leaseId) == Some(lease)
    requires forall l :: l in leases && SameQuad(l, lease) && l.status.Active? ==> l == lease
    ensures lease in leases && ActiveFor(leases, like) == Some(lease)
  {
    hide ActiveFor, Position;
    assert lease in leases;
    var found := ActiveFor(leases, like);
    assert found.None? ==> !lease.status.Active?;
  }

  /** Where the hand-off stands after a first competitor was detached. */
  ghost predicate DetachedAt(p: Plan, w: World) {
    w.handoffs == map[0 := ReadingDetached(p)] && Sound(w.live.leases) && ActiveFor(w.live.leases, Bound(p)).None?
  }

  lemma DetachedIsClear(s: RunState, x: WorkLease, like: WorkLease)
    requires Sound(s.leases) && x in s.leases && x.status.Active? && SameQuad(x, like)
    ensures Sound(DetachedState(s, x).leases) && ActiveFor(DetachedState(s, x).leases, like).None?
  {
    hide Position, Put;
    PutSound(s.leases, x.(status := Released));
    DetachClears(s.leases, x, like);
  }

  /** The second part: a competitor is granted before the read-back, and the plan's own generation is still beyond
      the competitor's, so the hand-off detaches it. */
  lemma ReachDetached(env: Env, p: Plan, a: string) returns (events: seq<Event>)
    requires Promising(env, p) && !Tight(p)
    ensures DetachedAt(p, RunEvents(env, World(p.state, map[]), events)) && OnlyPlan(events, p)
  {
    hide RunEvents, Put, RetiredState, Sound, ActiveFor, SameQuad, RegisteredState, Validate, Retirable, Timely,
    CurrentGeneration;
    ValidatedFacts(env, p);
    RetirementClears(p);
    var w0, retired := World(p.state, map[]), RetiredState(p.state, p);
    CompetitorGranted(env, p, retired, a);
    var x := Numbered(retired, Competing(p, a));
    var granted := GrantedState(retired, x);
    events := ReachRetired(env, p);
    events := Extend(env, w0, events, Grant(Competing(p, a)), p);
    assert RunEvents(env, w0, events) == World(granted, map[0 := ReadingRetired(p)]);
    events := Extend(env, w0, events, Advance(0), p);
    assert RunEvents(env, w0, events) == World(granted, map[0 := Granting(p, granted)]);
    GapGrantable(env, p, granted);
    events := Extend(env, w0, events, Advance(0), p);
    assert RunEvents(env, w0, events) == World(granted, map[0 := Detaching(p, x, granted)]);
    events := Extend(env, w0, events, Advance(0), p);
    assert RunEvents(env, w0, events) == World(DetachedState(granted, x),
        map[0 := SyncingDetached(p, granted.version + 1)]);
    events := Extend(env, w0, events, Advance(0), p);
    SameQuadAs(p, a);
    DetachedIsClear(granted, x, Bound(p));
  }

  lemma SameQuadAs(p: Plan, id: string)
    ensures SameQuad(Competing(p, id), Bound(p)) && forall g :: SameQuad(Competing(p, id).(generation := g), Bound(p))
  {
  }

  lemma GapGrantable(env: Env, p: Plan, granted: RunState)
    requires Timely(env.clock, p.replacementLease) && p.replacementLease.status.Active?
    requires CurrentGeneration(granted, Bound(p)) < p.replacement.leaseGeneration
    ensures Grantable(env.clock, granted, Bound(p))
  {
    hide CurrentGeneration;
  }

  lemma Extend(env: Env, w: World, events: seq<Event>, e: Event, p: Plan) returns (longer: seq<Event>)
    requires OnlyPlan(events, p) && !e.Start?
    ensures longer == events + [e] && OnlyPlan(longer, p)
    ensures RunEvents(env, w, longer) == Apply(env, RunEvents(env, w, events), e)
  {
    hide Apply, RunEvents;
    RunAppend(env, w, events, e);
    longer := events + [e];
  }

  /** A hand-off that would complete alone and leaves a generation free can be driven, from a sound world and by two
      grants the lease manager makes, into a state where its attempt has two active leases. */
  lemma HazardReached(env: Env, p: Plan, a: string, b: string) returns (events: seq<Event>)
    requires Promising(env, p) && !Tight(p) && b != p.replacementLease.leaseId
    ensures !Sound(RunEvents(env, World(p.state, map[]), events).live.leases) && OnlyPlan(events, p)
  {
    hide RunEvents, Validate, Position, Put, Retirable, Sound, Timely, CurrentGeneration, ActiveFor, Tight, OnlyPlan;
    ValidatedFacts(env, p);
    var w0 := World(p.state, map[]);
    events := ReachDetached(env, p, a);
    var live := RunEvents(env, w0, events).live;
    CompetitorGranted(env, p, live, b);
    var y := Numbered(live, Competing(p, b));
    var taken := GrantedState(live, y);
    events := Extend(env, w0, events, Grant(Competing(p, b)), p);
    assert RunEvents(env, w0, events) == World(taken, map[0 := ReadingDetached(p)]);
    events := Extend(env, w0, events, Advance(0), p);
    assert RunEvents(env, w0, events) == World(taken, map[0 := Registering(p, taken)]);
    events := Extend(env, w0, events, Advance(0), p);
    var i :| 0 <= i < |taken.leases| && taken.leases[i] == y;
    assert Rival(taken.leases, Bound(p));
    RegisterSound(taken.leases, Bound(p));
  }

  /** The exact condition, seen before the call: among all interleavings of this hand-off with grants and other
      writes there is one with two active leases of an attempt if and only if the replacement skips a generation. */
  lemma TwoActiveExactly(env: Env, p: Plan)
    requires Promising(env, p)
    ensures (exists events ::
            OnlyPlan(events, p) && !Sound(RunEvents(env, World(p.state, map[]), events).live.leases)) <==>
              p.replacement.leaseGeneration > RecordedGeneration(p.state, p.replacementLease) + 1
  {
    hide Validate, RunEvents, Sound, Retirable, GrantsAfterwards, PcSound, TightSound;
    if Tight(p) {
      forall events | OnlyPlan(events, p) ensures Sound(RunEvents(env, World(p.state, map[]), events).live.leases) {
        TightNeverTwoActive(env, World(p.state, map[]), events);
      }
    } else {
      var events := HazardReached(env, p, "a", p.replacementLease.leaseId + "'");
    }
  }

  // ---- such hand-offs exist ----

  const SampleEnv := Env(Compiler((r: Request) => true, (a: string, b: string) => a), (s: string) =>
      Some(0), (r: Request) => Some("b"))
  const SampleContract := Contract("r", "n", "c", "v", "d", "d", "d", "m", Some("s"), "o", "p", "q", ["x"], ["y"], [],
      "k", "e")
  const SamplePrior := Request(
    SampleContract, Profile("s", "1", "d"), None, "c", "c", "a", 1, "m", 1, "i", "h", 1, "t", "e", "k", "")
  const SampleReplacement := SamplePrior.(messageId := "n", seqNo := 2, leaseGeneration := 2, fencingToken := "u",
      idempotencyKey := "l")
  const SampleLease := WorkLease("1", "r", "n", "q", "a", "h", "t", "g", "e", None, Active, Some(1))
  const SamplePlan := Plan(
    SamplePrior, SampleLease, SampleReplacement, SampleLease.(leaseId := "2", holder := "b", fencingToken := "u",
        generation := Some(2)),
    Revoke, "z", RunState(0, [SampleLease], map[], map[]), 0)

  lemma Letter(s: string)
    requires |s| == 1 && 'a' <= s[0] <= 'z'
    ensures Strip(s) == s && IsText(s) && Trimmed(s)
  {
    StripTrims(s);
  }

  lemma SampleSameAttempt()
    ensures SameLogicalAttempt(SampleEnv.compiler, SamplePrior, SampleReplacement).None?
  {
    hide SameLogicalAttempt;
    TakeoverAdmitsExactly(SampleEnv.compiler, SamplePrior, SampleReplacement);
  }

  lemma SampleBinds()
    ensures Binds(EnvelopeOf(SamplePrior), SampleLease)
    ensures Binds(EnvelopeOf(SampleReplacement.(agentInstance := "b")), Bound(SamplePlan))
  {
    hide Strip;
    Letter("a");
    Letter("t");
    Letter("u");
    Letter("h");
    Letter("b");
    Letter("e");
  }

  /** The hypotheses above are met by a concrete plan, whose replacement skips a generation. */
  lemma SampleIsPromising()
    ensures Promising(SampleEnv, SamplePlan) && !Tight(SamplePlan)
  {
    hide Strip, SameLogicalAttempt, Binds;
    SampleSameAttempt();
    SampleBinds();
    Letter("z");
    assert Position([SampleLease], "1") == 0;
  }

  /** So it happens: the sample hand-off and two competing requests. */
  lemma HazardHappens()
    ensures Inv(World(SamplePlan.state, map[]))
    ensures exists events :: OnlyPlan(events, SamplePlan)
                          && !Sound(RunEvents(SampleEnv, World(SamplePlan.state, map[]), events).live.leases)
  {
    hide RunEvents, Sound, Validate, Retirable, GrantsAfterwards;
    SampleIsPromising();
    var events := HazardReached(SampleEnv, SamplePlan, "3", "4");
  }
}
