/** The topology loop of the blueprint compiler: entries are compiled one by one into the steps of a plan. */
module BlueprintTopology {
  import opened Results
  import opened Sequences
  import opened Sorting
  import opened BlueprintRoutes
  import Text

  /** The route part of an entry: a list of rows, the older mapping from outcomes, or nothing. */
  datatype EdgesInput = NoEdges | Rows(rows: seq<Row>) | Legacy(items: seq<LegacyEdge>)

  datatype LegacyEdge = LegacyEdge(outcome: string, target: Option<string>, kind: Option<string>)

  /** One topology entry; the scalar `next` counts only without a list of rows. */
  datatype Entry = Entry(action: string, terminal: bool, next: Option<string>, edges: EdgesInput)

  datatype Step = Step(action: string, edges: map<string, Edge>, terminal: bool, evidence: seq<Edge>)

  predicate HasNext(e: Entry) {
    e.next.Some? && e.next.value != ""
  }

  predicate HasEdges(e: Entry) {
    match e.edges
    case NoEdges => false
    case Rows(rows) => rows != []
    case Legacy(items) => items != []
  }

  predicate Declared(declared: set<string>, target: string) {
    target in declared || target in NonStepTargets
  }

  function NextEdge(target: string): Edge {
    Edge("NEXT", target, "continue", None, None, true, None, None)
  }

  function CompileNext(declared: set<string>, e: Entry): Result<Routes, RouteError> {
    if !HasNext(e) then Ok(Routes(map[], []))
    else if !Declared(declared, e.next.value) then Err(UndeclaredTarget)
    else Ok(Routes(map["NEXT" := NextEdge(e.next.value)], [NextEdge(e.next.value)]))
  }

  // ---- the older mapping ----

  function LegacyKind(x: LegacyEdge): string {
    if x.kind.None? then "continue" else x.kind.value
  }

  /** An edge needs a text for its outcome and its target and an allowed kind; where the target leads is not
      looked at. */
  function LegacyError(x: LegacyEdge): Option<RouteError> {
    if Text.Strip(Upper(x.outcome)) == "" then Some(EmptyOutcome)
    else if x.target.None? || Text.Strip(x.target.value) == "" then Some(EmptyTarget)
    else if LegacyKind(x) !in Kinds then Some(UnsupportedKind)
    else None
  }

  function LegacyEdgeOf(x: LegacyEdge): Edge {
    Edge(Upper(x.outcome), if x.target.None? then "" else x.target.value, LegacyKind(x), None, None, true, None, None)
  }

  function Replace(e: Edge): Edge -> Edge {
    (x: Edge) => if x.outcome == e.outcome then e else x
  }

  /** Assign a slot; a slot assigned before keeps its place among the values. */
  function Assign(routes: Routes, e: Edge): Routes {
    Routes(routes.edges[e.outcome := e], if e.outcome in routes.edges then Map(Replace(e), routes.evidence)
      else routes.evidence + [e])
  }

  function CompileLegacy(base: Routes, items: seq<LegacyEdge>): Result<Routes, RouteError> {
    if items == [] then Ok(base)
    else
      var before, x := CompileLegacy(base, items[..|items| - 1]), items[|items| - 1];
      if before.Err? then before
      else if LegacyError(x).Some? then Err(LegacyError(x).value)
      else Ok(Assign(before.value, LegacyEdgeOf(x)))
  }

  /** Item `i` is the last one for its outcome, letter case aside. */
  predicate LastItem(items: seq<LegacyEdge>, i: nat) {
    i < |items| && forall j :: i < j < |items| ==> Upper(items[j].outcome) != Upper(items[i].outcome)
  }

  predicate Mentioned(items: seq<LegacyEdge>, outcome: string) {
    exists i :: 0 <= i < |items| && Upper(items[i].outcome) == outcome
  }

  /** The slots: the last item of each outcome, and what was there before for the others. */
  ghost predicate Slots(base: Routes, items: seq<LegacyEdge>, m: map<string, Edge>) {
    && (forall i: nat :: LastItem(items, i) ==>
          Upper(items[i].outcome) in m && m[Upper(items[i].outcome)] == LegacyEdgeOf(items[i]))
    && (forall o :: o in m ==> o in base.edges || Mentioned(items, o))
    && (forall o :: o in base.edges && !Mentioned(items, o) ==> o in m && m[o] == base.edges[o])
  }

  lemma MentionedNext(items: seq<LegacyEdge>, x: LegacyEdge, o: string)
    ensures Mentioned(items + [x], o) <==> Mentioned(items, o) || o == Upper(x.outcome)
  {
    hide Upper;
    var all := items + [x];
    if Mentioned(items, o) {
      var i :| 0 <= i < |items| && Upper(items[i].outcome) == o;
      assert Upper(all[i].outcome) == o;
    }
    if o == Upper(x.outcome) { assert Upper(all[|items|].outcome) == o; }
  }

  lemma LastItemNext(items: seq<LegacyEdge>, x: LegacyEdge, i: nat)
    requires LastItem(items + [x], i) && i < |items|
    ensures LastItem(items, i) && Upper(items[i].outcome) != Upper(x.outcome)
  {
    hide Upper;
    var all := items + [x];
    assert all[|items|] == x && all[i] == items[i];
    forall j | i < j < |items| ensures Upper(items[j].outcome) != Upper(items[i].outcome) { assert all[j] == items[j]; }
  }

  lemma SlotsNext(base: Routes, items: seq<LegacyEdge>, m: map<string, Edge>, x: LegacyEdge)
    requires Slots(base, items, m)
    ensures Slots(base, items + [x], m[Upper(x.outcome) := LegacyEdgeOf(x)])
  {
    hide Upper, LegacyEdgeOf, LastItem, Mentioned;
    var all, next := items + [x], m[Upper(x.outcome) := LegacyEdgeOf(x)];
    forall i: nat | LastItem(all, i)
      ensures i < |all| && Upper(all[i].outcome) in next && next[Upper(all[i].outcome)] == LegacyEdgeOf(all[i]) {
      LastItemInRange(all, i);
      if i < |items| { LastItemNext(items, x, i); }
    }
    forall o ensures Mentioned(all, o) <==> Mentioned(items, o) || o == Upper(x.outcome) { MentionedNext(items, x, o); }
  }

  lemma LastItemInRange(items: seq<LegacyEdge>, i: nat)
    requires LastItem(items, i)
    ensures i < |items|
  {
  }

  /** The older mapping is accepted exactly when every item is well formed, and then fills the slots in order. */
  lemma {:induction false} LegacyMeans(base: Routes, items: seq<LegacyEdge>)
    ensures CompileLegacy(base, items).Ok? <==> forall x :: x in items ==> LegacyError(x).None?
    ensures CompileLegacy(base, items).Ok? ==> Slots(base, items, CompileLegacy(base, items).value.edges)
  {
    hide Upper, LegacyError, Map;
    if items != [] {
      hide Slots;
      var init, x := items[..|items| - 1], items[|items| - 1];
      assert items == init + [x] && x in items;
      LegacyMeans(base, init);
      if CompileLegacy(base, items).Ok? {
        SlotsNext(base, init, CompileLegacy(base, init).value.edges, x);
      }
    }
  }

  lemma {:induction false} LastOfOutcome(items: seq<LegacyEdge>, i: nat) returns (k: nat)
    requires i < |items|
    ensures i <= k && LastItem(items, k) && Upper(items[k].outcome) == Upper(items[i].outcome)
    decreases |items| - i
  {
    hide Upper;
    if j: nat :| i < j < |items| && Upper(items[j].outcome) == Upper(items[i].outcome) {
      k := LastOfOutcome(items, j);
    } else {
      k := i;
    }
  }

  /** No item of the mapping is lost if and only if items whose outcomes differ at most in letter case describe the
      same edge. */
  lemma LegacyKeptExactly(base: Routes, items: seq<LegacyEdge>)
    requires CompileLegacy(base, items).Ok?
    ensures var m := CompileLegacy(base, items).value.edges;
            (forall i :: 0 <= i < |items| ==>
                Upper(items[i].outcome) in m && m[Upper(items[i].outcome)] == LegacyEdgeOf(items[i])) <==>
            (forall i, j :: 0 <= i < j < |items| && Upper(items[i].outcome) == Upper(items[j].outcome) ==>
                LegacyEdgeOf(items[i]) == LegacyEdgeOf(items[j]))
  {
    hide Upper, CompileLegacy, LegacyEdgeOf;
    LegacyMeans(base, items);
    var m := CompileLegacy(base, items).value.edges;
    if forall i, j :: 0 <= i < j < |items| && Upper(items[i].outcome) == Upper(items[j].outcome) ==>
        LegacyEdgeOf(items[i]) == LegacyEdgeOf(items[j]) {
      forall i | 0 <= i < |items|
        ensures Upper(items[i].outcome) in m && m[Upper(items[i].outcome)] == LegacyEdgeOf(items[i]) {
        var k := LastOfOutcome(items, i);
      }
    }
  }

  /** The mapping compiles to declared targets only if and only if the last item of each outcome has one; nothing
      else about its targets is looked at. */
  lemma LegacyTargetsExactly(declared: set<string>, base: Routes, items: seq<LegacyEdge>)
    requires CompileLegacy(base, items).Ok? && forall o :: o in base.edges ==> Declared(declared, base.edges[o].target)
    ensures var m := CompileLegacy(base, items).value.edges;
            (forall o :: o in m ==> Declared(declared, m[o].target)) <==>
            (forall i: nat :: LastItem(items, i) ==> Declared(declared, LegacyEdgeOf(items[i]).target))
  {
    hide Upper, CompileLegacy, LegacyEdgeOf, Declared;
    LegacyMeans(base, items);
    var m := CompileLegacy(base, items).value.edges;
    if forall i: nat :: LastItem(items, i) ==> Declared(declared, LegacyEdgeOf(items[i]).target) {
      forall o | o in m ensures Declared(declared, m[o].target) {
        if Mentioned(items, o) {
          var i :| 0 <= i < |items| && Upper(items[i].outcome) == o;
          var k := LastOfOutcome(items, i);
        }
      }
    }
  }

  /** Both happen: outcomes differing in letter case overwrite each other, and a target nobody declared passes. */
  lemma LegacyOverwrites()
    ensures var items := [LegacyEdge("a", Some("x"), None), LegacyEdge("A", Some("y"), None)];
            var r := CompileLegacy(Routes(map[], []), items);
            r.Ok? && r.value.edges == map["A" := LegacyEdgeOf(items[1])] && !Declared({}, r.value.edges["A"].target)
  {
    hide Text.Strip, LegacyError, Upper;
    var first, second := LegacyEdge("a", Some("x"), None), LegacyEdge("A", Some("y"), None);
    var items := [first, second];
    WellFormedItem("a", "x");
    WellFormedItem("A", "y");
    assert Upper("a") == "A" && Upper("A") == "A";
    assert items[..1] == [first] && [first][..0] == [];
    assert CompileLegacy(Routes(map[], []), []) == Ok(Routes(map[], []));
    assert CompileLegacy(Routes(map[], []), [first]) == Ok(Assign(Routes(map[], []), LegacyEdgeOf(first)));
  }

  lemma WellFormedItem(outcome: string, target: string)
    requires |outcome| == 1 && |target| == 1 && !Text.IsSpace(UpperChar(outcome[0])) && !Text.IsSpace(target[0])
    ensures LegacyError(LegacyEdge(outcome, Some(target), None)).None?
  {
    hide Text.Strip;
    Text.StripTrims(Upper(outcome));
    Text.StripTrims(target);
  }

  function CompileEntry(declared: set<string>, e: Entry): Result<Routes, RouteError> {
    if e.action !in declared then Err(UndeclaredAction)
    else if e.terminal && (HasNext(e) || HasEdges(e)) then Err(TerminalWithEdges)
    else match e.edges
      case Rows(rows) => CompileRows(declared, rows)
      case NoEdges => CompileNext(declared, e)
      case Legacy(items) =>
        var base := CompileNext(declared, e);
        if base.Err? then base else CompileLegacy(base.value, items)
  }

  /** An entry marked terminal compiles exactly when its action is declared and it has no way on; it has no edges. */
  lemma TerminalExactly(declared: set<string>, e: Entry)
    requires e.terminal
    ensures CompileEntry(declared, e).Ok? <==>
              && e.action in declared && (e.next.None? || e.next.value == "")
              && (e.edges == NoEdges || e.edges == Rows([]) || e.edges == Legacy([]))
    ensures CompileEntry(declared, e).Ok? ==> CompileEntry(declared, e).value.edges == map[]
  {
    hide Upper, RowError;
    MapEmpty(AsEdge());
    assert SortBy(ByKindThenTarget(), []) == [];
  }

  /** A scalar next step is one executable edge to a declared target. */
  lemma NextExactly(declared: set<string>, e: Entry)
    requires e.edges.NoEdges? && !e.terminal && e.action in declared && e.next.Some? && e.next.value != ""
    ensures CompileEntry(declared, e).Ok? <==>
              e.next.value in declared || e.next.value == "terminal" || e.next.value == "wait"
                  || e.next.value == "replan"
    ensures CompileEntry(declared, e).Ok? ==>
              var m := CompileEntry(declared, e).value.edges;
              && m.Keys == {"NEXT"} && m["NEXT"].outcome == "NEXT" && m["NEXT"].target == e.next.value
              && m["NEXT"].kind == "continue" && m["NEXT"].executable && m["NEXT"].conditionId.None?
  {
  }

  /** An item of the older mapping is an executable edge to its target, unless it says otherwise of kind continue. */
  lemma LegacyCarriesItem(x: LegacyEdge)
    requires LegacyError(x).None?
    ensures var e := LegacyEdgeOf(x);
            && Some(e.target) == x.target && e.kind == (if x.kind.None? then "continue" else x.kind.value)
            && e.executable && e.conditionId.None? && e.sourceGate.None? && e.targetGate.None?
            && e.outcome == Upper(x.outcome)
  {
    hide Upper;
  }

  function BindEdges(action: string, m: map<string, Edge>): map<string, Edge> {
    map o | o in m :: m[o].(sourceStep := Some(action))
  }

  /** Does the entry touch its step at all? */
  predicate Effective(declared: set<string>, e: Entry) {
    CompileEntry(declared, e).Ok? && (CompileEntry(declared, e).value.edges != map[] || e.terminal)
  }

  function StepOf(declared: set<string>, e: Entry): Step
    requires CompileEntry(declared, e).Ok?
  {
    var routes := CompileEntry(declared, e).value;
    Step(e.action, BindEdges(e.action, routes.edges), e.terminal, routes.evidence)
  }

  function CompileTopology(steps: map<string, Step>, entries: seq<Entry>): Result<map<string, Step>, RouteError> {
    if entries == [] then Ok(steps)
    else
      var before, e := CompileTopology(steps, entries[..|entries| - 1]), entries[|entries| - 1];
      if before.Err? then before
      else if CompileEntry(steps.Keys, e).Err? then Err(CompileEntry(steps.Keys, e).error)
      else Ok(if Effective(steps.Keys, e) then before.value[e.action := StepOf(steps.Keys, e)] else before.value)
  }

  /** Index `k` is the last entry that touches this action's step. */
  ghost predicate LastFor(declared: set<string>, entries: seq<Entry>, action: string, k: nat) {
    && k < |entries| && entries[k].action == action && Effective(declared, entries[k])
    && forall i :: k < i < |entries| && entries[i].action == action ==> !Effective(declared, entries[i])
  }

  ghost predicate Untouched(declared: set<string>, entries: seq<Entry>, action: string) {
    forall i :: 0 <= i < |entries| && entries[i].action == action ==> !Effective(declared, entries[i])
  }

  /** The step is what the last entry touching it says. */
  ghost predicate Settled(steps: map<string, Step>, entries: seq<Entry>, plan: map<string, Step>, action: string)
    requires action in steps && action in plan
  {
    && (Untouched(steps.Keys, entries, action) ==> plan[action] == steps[action])
    && (!Untouched(steps.Keys, entries, action) ==>
          exists k: nat :: LastFor(steps.Keys, entries, action, k) && plan[action] == StepOf(steps.Keys, entries[k]))
  }

  lemma SettledNext(steps: map<string, Step>, init: seq<Entry>, e: Entry, plan: map<string, Step>, action: string)
    requires action in steps && action in plan && Settled(steps, init, plan, action) && CompileEntry(steps.Keys, e).Ok?
    ensures Settled(steps, init + [e], if Effective(steps.Keys, e) then plan[e.action := StepOf(steps.Keys, e)]
            else plan, action)
  {
    hide CompileEntry, StepOf;
    var d, entries := steps.Keys, init + [e];
    assert entries[|init|] == e && forall i :: 0 <= i < |init| ==> entries[i] == init[i];
    if e.action == action && Effective(d, e) {
      assert LastFor(d, entries, action, |init|);
    } else if Untouched(d, init, action) {
      assert Untouched(d, entries, action);
    } else {
      var k: nat :| LastFor(d, init, action, k) && plan[action] == StepOf(d, init[k]);
      assert LastFor(d, entries, action, k) && entries[k] == init[k];
    }
  }

  /** Every compiled step is settled, and every entry compiled. */
  lemma {:induction false} LastEntryWins(steps: map<string, Step>, entries: seq<Entry>, action: string)
    requires CompileTopology(steps, entries).Ok? && action in steps
    ensures var plan := CompileTopology(steps, entries).value;
            && plan.Keys == steps.Keys && Settled(steps, entries, plan, action)
            && (forall i :: 0 <= i < |entries| ==> CompileEntry(steps.Keys, entries[i]).Ok?)
  {
    hide CompileEntry, StepOf, Effective;
    if entries != [] {
      hide Settled;
      var init, e := entries[..|entries| - 1], entries[|entries| - 1];
      assert entries == init + [e];
      LastEntryWins(steps, init, action);
      DeclaredEntry(steps.Keys, e);
      SettledNext(steps, init, e, CompileTopology(steps, init).value, action);
    }
  }

  lemma DeclaredEntry(declared: set<string>, e: Entry)
    ensures CompileEntry(declared, e).Ok? ==> e.action in declared
  {
    hide CompileRows;
  }

  /** Every route of every entry is in the plan, under its slot. */
  ghost predicate NoRouteDropped(declared: set<string>, entries: seq<Entry>, plan: map<string, Step>) {
    forall i, o :: 0 <= i < |entries| && HasSlot(declared, entries[i], o) ==> Keeps(declared, entries[i], o, plan)
  }

  predicate HasSlot(declared: set<string>, e: Entry, o: string) {
    CompileEntry(declared, e).Ok? && o in CompileEntry(declared, e).value.edges
  }

  predicate Keeps(declared: set<string>, e: Entry, o: string, plan: map<string, Step>)
    requires HasSlot(declared, e, o)
  {
    && e.action in plan && o in plan[e.action].edges
    && plan[e.action].edges[o] == CompileEntry(declared, e).value.edges[o].(sourceStep := Some(e.action))
  }

  /** All routes of one entry are among those of another. */
  ghost predicate Contained(declared: set<string>, e: Entry, other: Entry) {
    forall o :: HasSlot(declared, e, o) ==>
      HasSlot(declared, other, o)
          && CompileEntry(declared, e).value.edges[o] == CompileEntry(declared, other).value.edges[o]
  }

  /** Compiled routes are not yet bound to a step. */
  lemma RoutesUnbound(declared: set<string>, e: Entry, o: string)
    requires HasSlot(declared, e, o)
    ensures CompileEntry(declared, e).value.edges[o].sourceStep.None?
  {
    hide CompileRows, Upper, CompileLegacy;
    match e.edges
    case Rows(rows) => RepresentsExactly(declared, rows);
    case NoEdges =>
    case Legacy(items) =>
      LegacyMeans(CompileNext(declared, e).value, items);
      if Mentioned(items, o) {
        var i :| 0 <= i < |items| && Upper(items[i].outcome) == o;
        var k := LastOfOutcome(items, i);
      }
  }

  lemma LastUnique(declared: set<string>, entries: seq<Entry>, action: string, k: nat, m: nat)
    requires LastFor(declared, entries, action, k) && LastFor(declared, entries, action, m)
    ensures k == m
  {
    hide Effective;
  }

  /** A route of an entry is kept if and only if the last entry touching its step has it too. */
  lemma RouteKept(steps: map<string, Step>, entries: seq<Entry>, i: nat, o: string, k: nat)
    requires CompileTopology(steps, entries).Ok? && i < |entries| && HasSlot(steps.Keys, entries[i], o)
    requires LastFor(steps.Keys, entries, entries[i].action, k)
    ensures Keeps(steps.Keys, entries[i], o, CompileTopology(steps, entries).value) <==>
              HasSlot(steps.Keys, entries[k], o)
                  && CompileEntry(steps.Keys, entries[i]).value.edges[o] ==
                        CompileEntry(steps.Keys, entries[k]).value.edges[o]
  {
    hide CompileTopology, CompileEntry;
    var d, action := steps.Keys, entries[i].action;
    DeclaredEntry(d, entries[i]);
    LastEntryWins(steps, entries, action);
    assert !Untouched(d, entries, action);
    var m: nat :| LastFor(d, entries, action, m)
        && CompileTopology(steps, entries).value[action] == StepOf(d, entries[m]);
    LastUnique(d, entries, action, k, m);
    RoutesUnbound(d, entries[i], o);
    if HasSlot(d, entries[k], o) { RoutesUnbound(d, entries[k], o); }
  }

  /** An entry with a route touches its step, so some entry is the last to do so. */
  lemma {:induction false} LastExists(declared: set<string>, entries: seq<Entry>, i: nat) returns (k: nat)
    requires i < |entries| && Effective(declared, entries[i])
    ensures LastFor(declared, entries, entries[i].action, k)
    decreases |entries| - i
  {
    hide Effective;
    if j: nat :| i < j < |entries| && entries[j].action == entries[i].action && Effective(declared, entries[j]) {
      k := LastExists(declared, entries, j);
    } else {
      k := i;
    }
  }

  /** No route of a topology is dropped if and only if, for every action, the routes of each of its entries are
      among those of the last entry that touches it. */
  lemma RoutesKeptExactly(steps: map<string, Step>, entries: seq<Entry>)
    requires CompileTopology(steps, entries).Ok?
    ensures NoRouteDropped(steps.Keys, entries, CompileTopology(steps, entries).value) <==>
              forall i, k: nat :: 0 <= i < |entries| && LastFor(steps.Keys, entries, entries[i].action, k) ==>
                  Contained(steps.Keys, entries[i], entries[k])
  {
    hide CompileTopology, CompileEntry, Keeps;
    var d, plan := steps.Keys, CompileTopology(steps, entries).value;
    if NoRouteDropped(d, entries, plan) {
      forall i, k: nat | 0 <= i < |entries| && LastFor(d, entries, entries[i].action, k)
        ensures Contained(d, entries[i], entries[k]) {
        forall o | HasSlot(d, entries[i], o)
          ensures HasSlot(d, entries[k], o)
               && CompileEntry(d, entries[i]).value.edges[o] == CompileEntry(d, entries[k]).value.edges[o] {
          RouteKept(steps, entries, i, o, k);
        }
      }
    }
    if forall i, k: nat :: 0 <= i < |entries| && LastFor(d, entries, entries[i].action, k) ==>
        Contained(d, entries[i], entries[k]) {
      forall i, o | 0 <= i < |entries| && HasSlot(d, entries[i], o) ensures Keeps(d, entries[i], o, plan) {
        SlotIsEffective(d, entries[i], o);
        var k := LastExists(d, entries, i);
        RouteKept(steps, entries, i, o, k);
      }
    }
  }

  lemma SlotIsEffective(declared: set<string>, e: Entry, o: string)
    requires HasSlot(declared, e, o)
    ensures Effective(declared, e)
  {
    hide CompileEntry;
  }

  /** For lists of rows the condition is about the rows: every row of the one describes an edge of the other. */
  lemma RowsContainedExactly(declared: set<string>, e: Entry, other: Entry)
    requires e.edges.Rows? && other.edges.Rows? && CompileEntry(declared, e).Ok? && CompileEntry(declared, other).Ok?
    ensures Contained(declared, e, other) <==>
              forall r :: r in e.edges.rows ==> exists q :: q in other.edges.rows && EdgeOf(q) == EdgeOf(r)
  {
    hide CompileRows, Upper;
    RepresentsExactly(declared, e.edges.rows);
    RepresentsExactly(declared, other.edges.rows);
    var m, n := CompileEntry(declared, e).value.edges, CompileEntry(declared, other).value.edges;
    if Contained(declared, e, other) {
      forall r | r in e.edges.rows ensures exists q :: q in other.edges.rows && EdgeOf(q) == EdgeOf(r) {
        assert HasSlot(declared, e, Upper(KindOf(r)));
      }
    }
    if forall r :: r in e.edges.rows ==> exists q :: q in other.edges.rows && EdgeOf(q) == EdgeOf(r) {
      forall o | o in m ensures o in n && m[o] == n[o] {
        var r :| r in e.edges.rows && EdgeOf(r) == m[o] && o == Upper(KindOf(r));
        var q :| q in other.edges.rows && EdgeOf(q) == EdgeOf(r);
        assert KindOf(q) == EdgeOf(q).kind == KindOf(r);
      }
    }
  }

  /** With one entry per action nothing is ever dropped. */
  lemma OneEntryKeepsRoutes(steps: map<string, Step>, entries: seq<Entry>)
    requires forall i, j :: 0 <= i < j < |entries| ==> entries[i].action != entries[j].action
    requires CompileTopology(steps, entries).Ok?
    ensures NoRouteDropped(steps.Keys, entries, CompileTopology(steps, entries).value)
  {
    hide CompileTopology, CompileEntry, NoRouteDropped, Effective;
    RoutesKeptExactly(steps, entries);
    assert forall i, k: nat :: 0 <= i < |entries| && LastFor(steps.Keys, entries, entries[i].action, k) ==> i == k;
  }

  /** With one entry per action, every accepted list of route rows sits in its compiled step, slot by slot. */
  lemma CompiledRepresentsRows(steps: map<string, Step>, entries: seq<Entry>, i: nat)
    requires forall m, n :: 0 <= m < n < |entries| ==> entries[m].action != entries[n].action
    requires CompileTopology(steps, entries).Ok? && i < |entries| && entries[i].edges.Rows?
          && entries[i].edges.rows != []
    ensures var plan, e := CompileTopology(steps, entries).value, entries[i];
            && e.action in plan
            && (forall r :: r in e.edges.rows ==>
                  Upper(KindOf(r)) in plan[e.action].edges
                      && plan[e.action].edges[Upper(KindOf(r))] == EdgeOf(r).(sourceStep := Some(e.action)))
            && (forall o :: o in plan[e.action].edges ==>
                  exists r :: r in e.edges.rows && o == Upper(KindOf(r))
                      && plan[e.action].edges[o] == EdgeOf(r).(sourceStep := Some(e.action)))
  {
    hide CompileTopology, CompileRows, Upper;
    var d, e := steps.Keys, entries[i];
    AllEntriesCompile(steps, entries, i);
    LastEntryWins(steps, entries, e.action);
    RepresentsExactly(d, e.edges.rows);
    assert e.edges.rows[0] in e.edges.rows;
    assert HasSlot(d, e, Upper(KindOf(e.edges.rows[0])));
    SlotIsEffective(d, e, Upper(KindOf(e.edges.rows[0])));
    assert LastFor(d, entries, e.action, i);
    var k: nat :| LastFor(d, entries, e.action, k)
        && CompileTopology(steps, entries).value[e.action] == StepOf(d, entries[k]);
    LastUnique(d, entries, e.action, i, k);
  }

  lemma {:induction false} AllEntriesCompile(steps: map<string, Step>, entries: seq<Entry>, i: nat)
    requires CompileTopology(steps, entries).Ok? && i < |entries|
    ensures CompileEntry(steps.Keys, entries[i]).Ok? && entries[i].action in steps
  {
    hide CompileEntry, StepOf;
    if i < |entries| - 1 {
      AllEntriesCompile(steps, entries[..|entries| - 1], i);
    }
    DeclaredEntry(steps.Keys, entries[i]);
  }

  /** Two entries for one action: the first one's route is gone and nothing is reported. */
  lemma SecondEntryDropsFirst()
    ensures var steps := map["a" := Step("a", map[], false, [])];
            var first := Entry("a", false, Some("wait"), NoEdges);
            var second := Entry("a", true, None, NoEdges);
            && CompileTopology(steps, [first, second]).Ok?
            && HasSlot(steps.Keys, first, "NEXT")
            && CompileTopology(steps, [first, second]).value["a"] == Step("a", map[], true, [])
            && !NoRouteDropped(steps.Keys, [first, second], CompileTopology(steps, [first, second]).value)
  {
    var steps := map["a" := Step("a", map[], false, [])];
    var first, second := Entry("a", false, Some("wait"), NoEdges), Entry("a", true, None, NoEdges);
    assert [first, second][..1] == [first] && [first][..0] == [];
    assert CompileTopology(steps, []) == Ok(steps);
    var one := CompileTopology(steps, [first]);
    assert one.Ok?;
    assert HasSlot(steps.Keys, first, "NEXT");
    assert BindEdges("a", map[]) == map[];
    assert [first, second][0] == first;
    assert !Keeps(steps.Keys, first, "NEXT", CompileTopology(steps, [first, second]).value);
  }

  // ---- the compiler's loops ----

  method CompileRouteRows(declared: set<string>, rows: seq<Row>) returns (r: Result<Routes, RouteError>)
    ensures r == CompileRows(declared, rows)
  {
    hide Map, Filter, SortBy, Collect, Upper;
    var edges := [];
    MapEmpty(AsEdge());
    for i := 0 to |rows|
      invariant edges == Map(AsEdge(), rows[..i])
      invariant FirstRowError(declared, rows) == FirstRowError(declared, rows[i..])
    {
      var row := rows[i];
      assert rows[i..][0] == row && rows[i..][1..] == rows[i + 1..];
      if row.target == "" {
        return Err(EmptyTarget);
      }
      var kind := if row.kind.None? then "continue" else row.kind.value;
      if kind !in Kinds {
        return Err(UnsupportedKind);
      }
      if row.target !in declared && row.target !in NonStepTargets {
        return Err(UndeclaredTarget);
      }
      assert rows[..i + 1] == rows[..i] + [row];
      MapAppend(AsEdge(), rows[..i], row);
      edges := edges + [Edge(Upper(kind), row.target, kind, None, row.conditionId, row.executable, row.sourceGate,
          row.targetGate)];
    }
    assert rows[..|rows|] == rows;
    var ambiguous := FindAmbiguity(edges);
    if ambiguous {
      return Err(DiscriminatorRequired);
    }
    r := FillSlots(SortBy(ByKindThenTarget(), edges));
  }

  /** The groups of executable edges by kind, and the kinds in order of first appearance. */
  ghost predicate Grouped(byKind: map<string, seq<Edge>>, order: seq<string>, edges: seq<Edge>) {
    && (forall k :: k in byKind <==> k in order)
    && (forall k :: k in byKind ==> byKind[k] == Filter(ExecutableOf(k), edges) && byKind[k] != [])
    && (forall k :: k !in byKind ==> Filter(ExecutableOf(k), edges) == [])
  }

  lemma GroupNext(byKind: map<string, seq<Edge>>, order: seq<string>, edges: seq<Edge>, e: Edge)
    requires Grouped(byKind, order, edges)
    ensures !e.executable ==> Grouped(byKind, order, edges + [e])
    ensures e.executable && e.kind !in byKind ==> Grouped(byKind[e.kind := [e]], order + [e.kind], edges + [e])
    ensures e.executable && e.kind in byKind ==> Grouped(byKind[e.kind := byKind[e.kind] + [e]], order, edges + [e])
  {
    hide Filter;
    forall k ensures Filter(ExecutableOf(k), edges + [e]) == Filter(ExecutableOf(k), edges) + if e.executable
        && e.kind == k then [e] else [] {
      FilterAppend(ExecutableOf(k), edges, e);
    }
  }

  method GroupByKind(edges: seq<Edge>) returns (byKind: map<string, seq<Edge>>, order: seq<string>)
    ensures Grouped(byKind, order, edges)
  {
    hide Filter, Grouped;
    byKind, order := map[], [];
    NoGroups();
    for i := 0 to |edges|
      invariant Grouped(byKind, order, edges[..i])
    {
      var e := edges[i];
      assert edges[..i + 1] == edges[..i] + [e];
      GroupNext(byKind, order, edges[..i], e);
      if e.executable {
        if e.kind in byKind {
          byKind := byKind[e.kind := byKind[e.kind] + [e]];
        } else {
          byKind, order := byKind[e.kind := [e]], order + [e.kind];
        }
      }
    }
    assert edges[..|edges|] == edges;
  }

  lemma NoGroups()
    ensures Grouped(map[], [], [])
  {
    forall k ensures Filter(ExecutableOf(k), []) == [] { FilterEmpty(ExecutableOf(k)); }
  }

  /** Look for a group of several edges without a single condition. */
  method FindAmbiguity(edges: seq<Edge>) returns (found: bool)
    ensures found == Ambiguous(edges)
  {
    hide Filter;
    var byKind, order := GroupByKind(edges);
    for n := 0 to |order|
      invariant forall m :: 0 <= m < n ==> !Crowded(edges, order[m])
    {
      var candidates := byKind[order[n]];
      if |candidates| > 1 && forall m :: 0 <= m < |candidates| ==> candidates[m].conditionId.None? {
        assert candidates[0] in candidates;
        CrowdedIsAmbiguous(edges, order[n]);
        return true;
      }
    }
    forall i | 0 <= i < |edges| ensures !Crowded(edges, edges[i].kind) {
      if edges[i].kind in byKind {
        assert edges[i].kind in order;
      }
    }
    return false;
  }

  lemma CrowdedIsAmbiguous(edges: seq<Edge>, kind: string)
    requires Crowded(edges, kind)
    ensures Ambiguous(edges)
  {
    hide Filter;
    var candidates := Filter(ExecutableOf(kind), edges);
    assert candidates[0] in candidates;
    var i :| 0 <= i < |edges| && edges[i] == candidates[0];
    assert edges[i].kind == kind;
  }

  method FillSlots(edges: seq<Edge>) returns (r: Result<Routes, RouteError>)
    ensures r == var routes := Collect(edges); if routes.None? then Err(RouteCollision) else Ok(routes.value)
  {
    var slots: map<string, Edge>, evidence: seq<Edge> := map[], [];
    for i := 0 to |edges|
      invariant Collect(edges[..i]) == Some(Routes(slots, evidence))
    {
      var e := edges[i];
      assert edges[..i + 1][..i] == edges[..i];
      if e.outcome in slots && slots[e.outcome] != e {
        CollectStops(edges, i + 1);
        return Err(RouteCollision);
      }
      if e.outcome !in slots {
        evidence := evidence + [e];
      }
      ghost var before := slots;
      slots := slots[e.outcome := e];
      assert e.outcome in before ==> slots == before;
    }
    assert edges[..|edges|] == edges;
    return Ok(Routes(slots, evidence));
  }

  lemma {:induction false} CollectStops(edges: seq<Edge>, k: nat)
    requires k <= |edges| && Collect(edges[..k]).None?
    ensures Collect(edges).None?
    decreases |edges|
  {
    if k < |edges| {
      assert edges[..|edges| - 1][..k] == edges[..k];
      CollectStops(edges[..|edges| - 1], k);
    } else {
      assert edges[..k] == edges;
    }
  }

  /** The loop over the older mapping. */
  method CompileLegacyEdges(base: Routes, items: seq<LegacyEdge>) returns (r: Result<Routes, RouteError>)
    ensures r == CompileLegacy(base, items)
  {
    hide Upper, Map;
    var routes := base;
    for i := 0 to |items|
      invariant CompileLegacy(base, items[..i]) == Ok(routes)
    {
      assert items[..i + 1][..i] == items[..i];
      var error := LegacyError(items[i]);
      if error.Some? {
        LegacyStops(base, items, i + 1);
        return Err(error.value);
      }
      routes := Assign(routes, LegacyEdgeOf(items[i]));
    }
    assert items[..|items|] == items;
    return Ok(routes);
  }

  lemma {:induction false} LegacyStops(base: Routes, items: seq<LegacyEdge>, k: nat)
    requires k <= |items| && CompileLegacy(base, items[..k]).Err?
    ensures CompileLegacy(base, items) == CompileLegacy(base, items[..k])
    decreases |items|
  {
    hide LegacyError, Assign;
    if k < |items| {
      assert items[..|items| - 1][..k] == items[..k];
      LegacyStops(base, items[..|items| - 1], k);
    } else {
      assert items[..k] == items;
    }
  }

  method CompileSteps(steps: map<string, Step>, entries: seq<Entry>) returns (r: Result<map<string, Step>, RouteError>)
    ensures r == CompileTopology(steps, entries)
  {
    hide CompileRows, CompileLegacy;
    var plan, declared := steps, steps.Keys;
    for i := 0 to |entries|
      invariant CompileTopology(steps, entries[..i]) == Ok(plan)
    {
      var e := entries[i];
      assert entries[..i + 1][..i] == entries[..i];
      if CompileTopology(steps, entries[..i + 1]).Err? {
        TopologyStops(steps, entries, i + 1);
      }
      if e.action !in declared {
        return Err(UndeclaredAction);
      }
      if e.terminal && (HasNext(e) || HasEdges(e)) {
        return Err(TerminalWithEdges);
      }
      var routes := Routes(map[], []);
      if e.edges.Rows? {
        var compiled := CompileRouteRows(declared, e.edges.rows);
        if compiled.Err? {
          return Err(compiled.error);
        }
        routes := compiled.value;
      } else {
        if HasNext(e) {
          if !Declared(declared, e.next.value) {
            return Err(UndeclaredTarget);
          }
          routes := Routes(map["NEXT" := NextEdge(e.next.value)], [NextEdge(e.next.value)]);
        }
        if e.edges.Legacy? {
          var compiled := CompileLegacyEdges(routes, e.edges.items);
          if compiled.Err? {
            return Err(compiled.error);
          }
          routes := compiled.value;
        }
      }
      assert CompileEntry(declared, e) == Ok(routes);
      if routes.edges != map[] || e.terminal {
        plan := plan[e.action := Step(e.action, BindEdges(e.action, routes.edges), e.terminal, routes.evidence)];
      }
    }
    assert entries[..|entries|] == entries;
    return Ok(plan);
  }

  lemma {:induction false} TopologyStops(steps: map<string, Step>, entries: seq<Entry>, k: nat)
    requires k <= |entries| && CompileTopology(steps, entries[..k]).Err?
    ensures CompileTopology(steps, entries) == CompileTopology(steps, entries[..k])
    decreases |entries|
  {
    hide CompileEntry, StepOf;
    if k < |entries| {
      assert entries[..|entries| - 1][..k] == entries[..k];
      TopologyStops(steps, entries[..|entries| - 1], k);
    } else {
      assert entries[..k] == entries;
    }
  }
}
