/** Compiling topology route rows into edge maps: fail closed on anything that would drop or mix up a route. */
module BlueprintRoutes {
  import opened Results
  import opened Sequences
  import opened Sorting

  datatype Row = Row(
    target: string, kind: Option<string>, conditionId: Option<string>, executable: bool, sourceGate: Option<string>,
    targetGate: Option<string>)

  datatype Edge = Edge(
    outcome: string, target: string, kind: string, sourceStep: Option<string>, conditionId: Option<string>,
    executable: bool,
    sourceGate: Option<string>, targetGate: Option<string>)

  datatype RouteError =
    | UndeclaredAction | TerminalWithEdges | EmptyOutcome | EmptyTarget | UnsupportedKind | UndeclaredTarget
    | DiscriminatorRequired | RouteCollision

  const Kinds: set<string> := {"continue", "conditional", "retry", "blocked", "human_required", "terminal"}
  const NonStepTargets: set<string> := {"terminal", "wait", "replan"}

  function KindOf(r: Row): string {
    if r.kind.None? then "continue" else r.kind.value
  }

  function UpperChar(c: char): char {
    if 'a' <= c <= 'z' then c - 'a' + 'A' else c
  }

  function Upper(s: string): (u: string)
    ensures |u| == |s| && forall i :: 0 <= i < |s| ==> u[i] == UpperChar(s[i])
  {
    if s == "" then "" else [UpperChar(s[0])] + Upper(s[1..])
  }

  predicate LowerOrUnderscore(s: string) {
    forall i :: 0 <= i < |s| ==> 'a' <= s[i] <= 'z' || s[i] == '_'
  }

  lemma UpperInjective(a: string, b: string)
    requires LowerOrUnderscore(a) && LowerOrUnderscore(b)
    ensures Upper(a) == Upper(b) <==> a == b
  {
    hide Upper;
    if Upper(a) == Upper(b) {
      assert |a| == |b|;
      forall i | 0 <= i < |a| ensures a[i] == b[i] { assert Upper(a)[i] == Upper(b)[i]; }
    }
  }

  /** The allowed kinds give distinct outcomes. */
  lemma KindsGiveOutcomes(a: string, b: string)
    requires a in Kinds && b in Kinds
    ensures Upper(a) == Upper(b) <==> a == b
  {
    hide Upper;
    UpperInjective(a, b);
  }

  function EdgeOf(r: Row): Edge {
    Edge(Upper(KindOf(r)), r.target, KindOf(r), None, r.conditionId, r.executable, r.sourceGate, r.targetGate)
  }

  function RowError(declared: set<string>, r: Row): Option<RouteError> {
    if r.target == "" then Some(EmptyTarget)
    else if KindOf(r) !in Kinds then Some(UnsupportedKind)
    else if r.target !in declared && r.target !in NonStepTargets then Some(UndeclaredTarget)
    else None
  }

  /** A row is refused exactly for an empty target, a kind that is none of the six, or a target that is neither a
      declared action nor one of the three reserved ones. */
  lemma RowErrorExactly(declared: set<string>, r: Row)
    ensures RowError(declared, r).None? <==>
              && r.target != ""
              && (r.kind.None? || r.kind.value == "continue" || r.kind.value == "conditional" || r.kind.value == "retry"
                  || r.kind.value == "blocked" || r.kind.value == "human_required" || r.kind.value == "terminal")
              && (r.target in declared || r.target == "terminal" || r.target == "wait" || r.target == "replan")
  {
  }

  /** An edge carries everything its row says. */
  lemma EdgeCarriesRow(r: Row)
    ensures var e := EdgeOf(r);
            && e.target == r.target && e.kind == (if r.kind.None? then "continue" else r.kind.value)
            && e.conditionId == r.conditionId && e.executable == r.executable
            && e.sourceGate == r.sourceGate && e.targetGate == r.targetGate && e.sourceStep.None?
            && |e.outcome| == |e.kind| && forall i :: 0 <= i < |e.kind| ==> e.outcome[i] == UpperChar(e.kind[i])
  {
  }

  function FirstRowError(declared: set<string>, rows: seq<Row>): (e: Option<RouteError>)
    ensures e.None? <==> forall r :: r in rows ==> RowError(declared, r).None?
  {
    if rows == [] then None
    else
      assert rows == [rows[0]] + rows[1..];
      if RowError(declared, rows[0]).Some? then RowError(declared, rows[0]) else FirstRowError(declared, rows[1..])
  }

  function AsEdge(): Row -> Edge {
    (r: Row) => EdgeOf(r)
  }

  function ExecutableOf(kind: string): Edge -> bool {
    (e: Edge) => e.executable && e.kind == kind
  }

  /** Several executable routes of one kind and not one of them with a condition to tell them apart. */
  predicate Crowded(edges: seq<Edge>, kind: string) {
    var candidates := Filter(ExecutableOf(kind), edges);
    |candidates| > 1 && forall i :: 0 <= i < |candidates| ==> candidates[i].conditionId.None?
  }

  predicate Ambiguous(edges: seq<Edge>) {
    exists i :: 0 <= i < |edges| && Crowded(edges, edges[i].kind)
  }

  lemma {:induction false} OneKept<T(!new)>(keep: T -> bool, xs: seq<T>)
    ensures |Filter(keep, xs)| > 0 <==> exists i :: 0 <= i < |xs| && keep(xs[i])
  {
    hide Filter;
    if i :| 0 <= i < |xs| && keep(xs[i]) { assert xs[i] in Filter(keep, xs); }
    if Filter(keep, xs) != [] {
      assert Filter(keep, xs)[0] in Filter(keep, xs);
      var i :| 0 <= i < |xs| && xs[i] == Filter(keep, xs)[0];
    }
  }

  ghost predicate Pair<T(!new)>(keep: T -> bool, xs: seq<T>, i: int, j: int) {
    0 <= i < j < |xs| && keep(xs[i]) && keep(xs[j])
  }

  lemma {:induction false} TwoKept<T(!new)>(keep: T -> bool, xs: seq<T>)
    requires |Filter(keep, xs)| > 1
    ensures exists i, j :: Pair(keep, xs, i, j)
  {
    var init, last := xs[..|xs| - 1], xs[|xs| - 1];
    if |Filter(keep, init)| > 1 {
      TwoKept(keep, init);
      var i, j :| Pair(keep, init, i, j);
      assert Pair(keep, xs, i, j);
    } else {
      OneKept(keep, init);
      var i :| 0 <= i < |init| && keep(init[i]);
      assert Pair(keep, xs, i, |xs| - 1);
    }
  }

  lemma {:induction false} KeptTwo<T(!new)>(keep: T -> bool, xs: seq<T>, i: int, j: int)
    requires Pair(keep, xs, i, j)
    ensures |Filter(keep, xs)| > 1
  {
    var init := xs[..|xs| - 1];
    assert keep(init[i]);
    if j < |init| {
      KeptTwo(keep, init, i, j);
    } else {
      OneKept(keep, init);
    }
  }

  /** Ambiguity: two executable edges of one kind, and no executable edge of that kind with a condition. */
  lemma AmbiguousExactly(edges: seq<Edge>)
    ensures Ambiguous(edges) <==>
              exists i, j :: && 0 <= i < j < |edges| && edges[i].kind == edges[j].kind && edges[i].executable
                             && edges[j].executable && Unconditional(edges, edges[i].kind)
  {
    hide Filter;
    if Ambiguous(edges) {
      var k :| 0 <= k < |edges| && Crowded(edges, edges[k].kind);
      var kind := edges[k].kind;
      CrowdedExactly(edges, kind);
      TwoKept(ExecutableOf(kind), edges);
      var i, j :| Pair(ExecutableOf(kind), edges, i, j);
      assert edges[i].kind == kind;
    }
    if i, j :| && 0 <= i < j < |edges| && edges[i].kind == edges[j].kind
               && edges[i].executable && edges[j].executable && Unconditional(edges, edges[i].kind) {
      assert Pair(ExecutableOf(edges[i].kind), edges, i, j);
      KeptTwo(ExecutableOf(edges[i].kind), edges, i, j);
      CrowdedExactly(edges, edges[i].kind);
      assert Crowded(edges, edges[i].kind);
    }
  }

  predicate Unconditional(edges: seq<Edge>, kind: string) {
    forall k :: 0 <= k < |edges| && edges[k].kind == kind && edges[k].executable ==> edges[k].conditionId.None?
  }

  lemma CrowdedExactly(edges: seq<Edge>, kind: string)
    ensures Crowded(edges, kind) <==> |Filter(ExecutableOf(kind), edges)| > 1 && Unconditional(edges, kind)
  {
    hide Filter;
    var candidates := Filter(ExecutableOf(kind), edges);
    if Unconditional(edges, kind) {
      forall i | 0 <= i < |candidates| ensures candidates[i].conditionId.None? {
        assert candidates[i] in candidates;
        var k :| 0 <= k < |edges| && edges[k] == candidates[i];
      }
    }
    if Crowded(edges, kind) {
      forall k | 0 <= k < |edges| && edges[k].kind == kind && edges[k].executable ensures edges[k].conditionId.None? {
        assert ExecutableOf(kind)(edges[k]) && edges[k] in candidates;
        var i :| 0 <= i < |candidates| && candidates[i] == edges[k];
      }
    }
  }

  function ByKindThenTarget(): (Edge, Edge) -> bool {
    (a: Edge, b: Edge) => if a.kind == b.kind then TextLe(a.target, b.target) else TextLe(a.kind, b.kind)
  }

  /** The map under construction and its values in insertion order. */
  datatype Routes = Routes(edges: map<string, Edge>, evidence: seq<Edge>)

  /** Fill the slots by outcome; None when two distinct routes want the same one. */
  function Collect(edges: seq<Edge>): Option<Routes> {
    if edges == [] then Some(Routes(map[], []))
    else
      var before, e := Collect(edges[..|edges| - 1]), edges[|edges| - 1];
      if before.None? then None
      else if e.outcome !in before.value.edges then Some(Routes(before.value.edges[e.outcome := e],
          before.value.evidence + [e]))
      else if before.value.edges[e.outcome] != e then None
      else before
  }

  function CompileRows(declared: set<string>, rows: seq<Row>): Result<Routes, RouteError> {
    var bad := FirstRowError(declared, rows);
    if bad.Some? then Err(bad.value)
    else
      var edges := Map(AsEdge(), rows);
      if Ambiguous(edges) then Err(DiscriminatorRequired)
      else
        var routes := Collect(SortBy(ByKindThenTarget(), edges));
        if routes.None? then Err(RouteCollision) else Ok(routes.value)
  }

  // ---- what an accepted list of rows means ----

  ghost predicate OnePerOutcome(edges: seq<Edge>) {
    forall a, b :: a in edges && b in edges && a.outcome == b.outcome ==> a == b
  }

  /** The slots hold exactly the given edges, each under its own outcome. */
  ghost predicate Holds(routes: Routes, edges: seq<Edge>) {
    && (forall e :: e in edges ==> e.outcome in routes.edges && routes.edges[e.outcome] == e)
    && (forall o :: o in routes.edges ==> routes.edges[o] in edges && routes.edges[o].outcome == o)
    && routes.evidence == Unique(edges)
  }

  lemma {:induction false} CollectIs(edges: seq<Edge>)
    ensures Collect(edges).Some? <==> OnePerOutcome(edges)
    ensures Collect(edges).Some? ==> Holds(Collect(edges).value, edges)
  {
    hide OnePerOutcome, Holds;
    if edges == [] {
      NothingHeld();
    } else {
      var init, e := edges[..|edges| - 1], edges[|edges| - 1];
      assert edges == init + [e];
      CollectIs(init);
      if Collect(init).Some? {
        SlotFilled(Collect(init).value, init, e);
      } else {
        MoreOutcomes(init, e);
      }
    }
  }

  lemma NothingHeld()
    ensures OnePerOutcome([]) && Holds(Routes(map[], []), [])
  {
  }

  lemma MoreOutcomes(init: seq<Edge>, e: Edge)
    requires !OnePerOutcome(init)
    ensures !OnePerOutcome(init + [e])
  {
    var a, b :| a in init && b in init && a.outcome == b.outcome && a != b;
    assert a in init + [e] && b in init + [e];
  }

  lemma SlotFilled(routes: Routes, init: seq<Edge>, e: Edge)
    requires Holds(routes, init) && OnePerOutcome(init)
    ensures OnePerOutcome(init + [e]) <==> (e.outcome in routes.edges ==> routes.edges[e.outcome] == e)
    ensures e.outcome !in routes.edges ==>
            Holds(Routes(routes.edges[e.outcome := e], routes.evidence + [e]), init + [e])
    ensures e.outcome in routes.edges && routes.edges[e.outcome] == e ==> Holds(routes, init + [e])
  {
    hide Unique;
    var all := init + [e];
    assert forall x :: x in all <==> x in init || x == e;
    UniqueAppend(init, e);
    if e.outcome !in routes.edges {
      assert e !in init;
    }
  }

  lemma {:induction false} SortedElements(edges: seq<Edge>)
    ensures forall e :: e in SortBy(ByKindThenTarget(), edges) <==> e in edges
    ensures OnePerOutcome(SortBy(ByKindThenTarget(), edges)) <==> OnePerOutcome(edges)
  {
    hide SortBy;
    SamePermutation(SortBy(ByKindThenTarget(), edges), edges);
  }

  lemma EdgesOfRows(rows: seq<Row>)
    ensures forall e :: e in Map(AsEdge(), rows) <==> exists r :: r in rows && EdgeOf(r) == e
  {
    hide Map;
    var edges := Map(AsEdge(), rows);
    forall e | e in edges ensures exists r :: r in rows && EdgeOf(r) == e {
      var i :| 0 <= i < |edges| && edges[i] == e;
      assert rows[i] in rows && EdgeOf(rows[i]) == e;
    }
    forall r | r in rows ensures EdgeOf(r) in edges {
      var i :| 0 <= i < |rows| && rows[i] == r;
      assert edges[i] == AsEdge()(rows[i]);
    }
  }

  /** Rows of the same kind describe the same edge. */
  ghost predicate SameKindSameEdge(rows: seq<Row>) {
    forall a, b :: a in rows && b in rows && KindOf(a) == KindOf(b) ==> EdgeOf(a) == EdgeOf(b)
  }

  lemma OutcomeIsKind(declared: set<string>, rows: seq<Row>)
    requires FirstRowError(declared, rows).None?
    ensures OnePerOutcome(Map(AsEdge(), rows)) <==> SameKindSameEdge(rows)
  {
    hide Map, FirstRowError, Upper;
    EdgesOfRows(rows);
    var edges := Map(AsEdge(), rows);
    forall a, b | a in rows && b in rows ensures EdgeOf(a).outcome == EdgeOf(b).outcome <==> KindOf(a) == KindOf(b) {
      assert RowError(declared, a).None? && RowError(declared, b).None?;
      KindsGiveOutcomes(KindOf(a), KindOf(b));
    }
    if OnePerOutcome(edges) {
      forall a, b | a in rows && b in rows && KindOf(a) == KindOf(b) ensures EdgeOf(a) == EdgeOf(b) {
        assert EdgeOf(a) in edges && EdgeOf(b) in edges;
      }
    }
  }

  /** Accepted exactly when every row is well formed, no kind is ambiguous and rows of one kind agree. */
  lemma AcceptedExactly(declared: set<string>, rows: seq<Row>)
    ensures CompileRows(declared, rows).Ok? <==>
              && (forall r :: r in rows ==> RowError(declared, r).None?)
              && !Ambiguous(Map(AsEdge(), rows))
              && SameKindSameEdge(rows)
  {
    hide Map, FirstRowError, Ambiguous, Collect, SortBy, OnePerOutcome, SameKindSameEdge;
    if FirstRowError(declared, rows).None? {
      OutcomeIsKind(declared, rows);
      SortedElements(Map(AsEdge(), rows));
      CollectIs(SortBy(ByKindThenTarget(), Map(AsEdge(), rows)));
    }
  }

  /** An accepted list is represented exactly: every row has its edge in the slot of its kind, every slot comes
      from a row, and every target is declared. */
  lemma RepresentsExactly(declared: set<string>, rows: seq<Row>)
    requires CompileRows(declared, rows).Ok?
    ensures var m := CompileRows(declared, rows).value.edges;
            && (forall r :: r in rows ==> Upper(KindOf(r)) in m && m[Upper(KindOf(r))] == EdgeOf(r))
            && (forall o :: o in m ==> exists r :: r in rows && EdgeOf(r) == m[o] && o == Upper(KindOf(r)))
            && (forall o :: o in m ==> m[o].target in declared || m[o].target in NonStepTargets)
  {
    hide Map, FirstRowError, Ambiguous, Collect, SortBy, Upper, Unique, Holds, RowError;
    var edges := Map(AsEdge(), rows);
    var sorted := SortBy(ByKindThenTarget(), edges);
    SortedElements(edges);
    CollectIs(sorted);
    HeldRows(CompileRows(declared, rows).value, rows, sorted);
    forall r | r in rows ensures r.target in declared || r.target in NonStepTargets { DeclaredTarget(declared, r); }
  }

  lemma DeclaredTarget(declared: set<string>, r: Row)
    requires RowError(declared, r).None?
    ensures r.target in declared || r.target in NonStepTargets
  {
  }

  lemma HeldRows(routes: Routes, rows: seq<Row>, sorted: seq<Edge>)
    requires Holds(routes, sorted) && forall e :: e in sorted <==> e in Map(AsEdge(), rows)
    ensures var m := routes.edges;
            && (forall r :: r in rows ==> Upper(KindOf(r)) in m && m[Upper(KindOf(r))] == EdgeOf(r))
            && (forall o :: o in m ==> exists r :: r in rows && EdgeOf(r) == m[o] && o == Upper(KindOf(r)))
  {
    hide Map, Upper, Unique;
    EdgesOfRows(rows);
    var m := routes.edges;
    forall r | r in rows ensures Upper(KindOf(r)) in m && m[Upper(KindOf(r))] == EdgeOf(r) {
      assert EdgeOf(r) in sorted;
    }
    forall o | o in m ensures exists r :: r in rows && EdgeOf(r) == m[o] && o == Upper(KindOf(r)) {
      assert m[o] in sorted;
      var r :| r in rows && EdgeOf(r) == m[o];
    }
  }

  // ---- independence of row order ----

  lemma CrowdedForgetsOrder(xs: seq<Edge>, ys: seq<Edge>, kind: string)
    requires multiset(xs) == multiset(ys)
    ensures Crowded(xs, kind) <==> Crowded(ys, kind)
  {
    hide Filter;
    var a, b := Filter(ExecutableOf(kind), xs), Filter(ExecutableOf(kind), ys);
    FilterPermutation(ExecutableOf(kind), xs, ys);
    SamePermutation(a, b);
    forall i | 0 <= i < |a| ensures a[i] in b { assert a[i] in a; }
    forall i | 0 <= i < |b| ensures b[i] in a { assert b[i] in b; }
    assert (forall i :: 0 <= i < |a| ==> a[i].conditionId.None?) <==> forall e :: e in a ==> e.conditionId.None?;
    assert (forall i :: 0 <= i < |b| ==> b[i].conditionId.None?) <==> forall e :: e in b ==> e.conditionId.None?;
  }

  lemma AmbiguousForgetsOrder(xs: seq<Edge>, ys: seq<Edge>)
    requires multiset(xs) == multiset(ys) && Ambiguous(xs)
    ensures Ambiguous(ys)
  {
    hide Crowded;
    var i :| 0 <= i < |xs| && Crowded(xs, xs[i].kind);
    SamePermutation(xs, ys);
    assert xs[i] in ys;
    var j :| 0 <= j < |ys| && ys[j] == xs[i];
    CrowdedForgetsOrder(xs, ys, ys[j].kind);
  }

  lemma KindOrderTotal()
    ensures TotalPreorder(ByKindThenTarget())
  {
    hide TextLe;
    TextPreorder();
    forall a: Edge, b: Edge ensures ByKindThenTarget()(a, b) || ByKindThenTarget()(b, a) {
      assert TextLe(a.kind, b.kind) || TextLe(b.kind, a.kind);
      assert TextLe(a.target, b.target) || TextLe(b.target, a.target);
    }
    forall a: Edge, b: Edge, c: Edge | ByKindThenTarget()(a, b) && ByKindThenTarget()(b, c)
      ensures ByKindThenTarget()(a, c) {
      KindOrderTransitive(a, b, c);
    }
  }

  lemma KindOrderTransitive(a: Edge, b: Edge, c: Edge)
    requires ByKindThenTarget()(a, b) && ByKindThenTarget()(b, c)
    ensures ByKindThenTarget()(a, c)
  {
    hide TextLe;
    TextPreorder();
    if a.kind == c.kind && a.kind != b.kind {
      TextLeTotal(a.kind, b.kind);
    }
  }

  /** Permuting the rows changes neither acceptance nor the compiled edges nor the order of the evidence. */
  lemma RowOrderIrrelevant(declared: set<string>, rows: seq<Row>, other: seq<Row>)
    requires multiset(rows) == multiset(other)
    ensures CompileRows(declared, rows).Ok? <==> CompileRows(declared, other).Ok?
    ensures CompileRows(declared, rows).Ok? ==> CompileRows(declared, rows) == CompileRows(declared, other)
  {
    hide Map, FirstRowError, Ambiguous, Collect, SortBy, OnePerOutcome, SameKindSameEdge;
    SamePermutation(rows, other);
    MapPermutation(AsEdge(), rows, other);
    var xs, ys := Map(AsEdge(), rows), Map(AsEdge(), other);
    if Ambiguous(xs) { AmbiguousForgetsOrder(xs, ys); }
    if Ambiguous(ys) { AmbiguousForgetsOrder(ys, xs); }
    AcceptedExactly(declared, rows);
    AcceptedExactly(declared, other);
    AgreementForgetsOrder(rows, other);
    if CompileRows(declared, rows).Ok? {
      OutcomeIsKind(declared, rows);
      KindOrderTotal();
      NoTies(declared, rows);
      SortForgetsOrder(ByKindThenTarget(), xs, ys);
    }
  }

  lemma AgreementForgetsOrder(rows: seq<Row>, other: seq<Row>)
    requires forall r :: r in rows <==> r in other
    ensures SameKindSameEdge(rows) <==> SameKindSameEdge(other)
  {
  }

  lemma NoTies(declared: set<string>, rows: seq<Row>)
    requires FirstRowError(declared, rows).None? && OnePerOutcome(Map(AsEdge(), rows))
    ensures Antisymmetric(ByKindThenTarget(), Map(AsEdge(), rows))
  {
    hide Map, FirstRowError, Upper, TextLe;
    var edges := Map(AsEdge(), rows);
    EdgesOfRows(rows);
    forall a, b | a in edges && b in edges && ByKindThenTarget()(a, b) && ByKindThenTarget()(b, a) ensures a == b {
      if a.kind != b.kind { TextLeTotal(a.kind, b.kind); }
      assert a.kind == b.kind;
      assert a.outcome == Upper(a.kind) && b.outcome == Upper(b.kind);
    }
  }
}
