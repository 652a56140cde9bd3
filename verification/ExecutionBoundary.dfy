/** The controller-owned capability envelope: canonical construction, the child-subset
    check and its behaviour along delegation chains. */
module ExecutionBoundary {
  import opened Results
  import opened Sorting
  import opened ScopePaths
  import opened Text

  const MAX_ITEMS := 64
  const MAX_CHILDREN := 64
  const MAX_PARALLEL := 64
  const MAX_DEPTH := 8
  const MAX_TIME_BUDGET_SECONDS := 3_600
  const MAX_TOKEN_BUDGET := 1_000_000

  datatype Payload = Payload(
    allowedActions: seq<string>,
    deniedActions: seq<string>,
    writableTargets: seq<string>,
    sourceRoots: seq<string>,
    maxChildren: int,
    maxParallel: int,
    maxDepth: int,
    replanRequiredWhen: seq<string>,
    timeBudgetSeconds: Option<int>,
    tokenBudget: Option<int>)

  /** Digest text. SHA-256 over canonical JSON is modelled as an injective constructor. */
  datatype Digest = Sha256(preimage: Payload) | UnknownDigest(hex: string) | NotADigest(text: string)

  datatype Boundary = Boundary(scope: Payload, scopeDigest: Digest)

  datatype Check =
    | AllowedActionsSubset | DeniedActionsPreserved | WritableTargetsSubset | SourceRootsSubset
    | MaxChildren | MaxParallel | MaxDepth | ChildBudgetsWithinParent | ReplanTriggersPreserved

  datatype BoundaryError = SchemaInvalid | DigestMismatch | ReplanRequired(failedChecks: seq<Check>)

  // ---- construction ----

  predicate ItemOk(item: string) {
    item != "" && Strip(item) == item
  }

  predicate Distinct(items: seq<string>) {
    forall i, j :: 0 <= i < j < |items| ==> items[i] != items[j]
  }

  function StringSequence(items: seq<string>, minItems: nat, pathLike: bool): Result<seq<string>, BoundaryError> {
    if |items| < minItems || |items| > MAX_ITEMS then Err(SchemaInvalid)
    else if exists i :: 0 <= i < |items| && !ItemOk(items[i]) then Err(SchemaInvalid)
    else
      var normalized := SortBy(TextLe, items);
      if !Distinct(normalized) then Err(SchemaInvalid)
      else if pathLike && !ValidRoots(normalized) then Err(SchemaInvalid)
      else Ok(normalized)
  }

  predicate InRange(value: int, minimum: int, maximum: int) {
    minimum <= value <= maximum
  }

  predicate BudgetInRange(value: Option<int>, maximum: int) {
    value.Some? ==> InRange(value.value, 1, maximum)
  }

  predicate Disjoint(xs: seq<string>, ys: seq<string>) {
    forall x :: x in xs ==> x !in ys
  }

  type Items = Result<seq<string>, BoundaryError>

  /** Cross-field checks over the five normalized lists. */
  function Assemble(raw: Payload, allowed: Items, denied: Items, writable: Items, sources: Items, replan: Items)
    : Result<Payload, BoundaryError>
  {
    if allowed.Err? || denied.Err? || writable.Err? || sources.Err? || replan.Err? then Err(SchemaInvalid)
    else if !Disjoint(allowed.value, denied.value) then Err(SchemaInvalid)
    else if !LimitsOk(raw) then Err(SchemaInvalid)
    else Ok(Payload(allowed.value, denied.value, writable.value, sources.value, raw.maxChildren, raw.maxParallel,
                    raw.maxDepth, replan.value, raw.timeBudgetSeconds, raw.tokenBudget))
  }

  function Normalize(raw: Payload): Result<Payload, BoundaryError> {
    Assemble(raw,
             StringSequence(raw.allowedActions, 1, false), StringSequence(raw.deniedActions, 0, false),
             StringSequence(raw.writableTargets, 0, true), StringSequence(raw.sourceRoots, 1, true),
             StringSequence(raw.replanRequiredWhen, 1, false))
  }

  function Construct(raw: Payload, supplied: Option<Digest>): Result<Boundary, BoundaryError> {
    match Normalize(raw)
    case Err(e) => Err(e)
    case Ok(scope) =>
      var expected := Sha256(scope);
      if supplied.Some? && supplied.value.NotADigest? then Err(SchemaInvalid)
      else if supplied.Some? && supplied.value != expected then Err(DigestMismatch)
      else Ok(Boundary(scope, expected))
  }

  predicate LimitsOk(scope: Payload) {
    && InRange(scope.maxChildren, 0, MAX_CHILDREN)
    && InRange(scope.maxParallel, 1, MAX_PARALLEL)
    && InRange(scope.maxDepth, 0, MAX_DEPTH)
    && BudgetInRange(scope.timeBudgetSeconds, MAX_TIME_BUDGET_SECONDS)
    && BudgetInRange(scope.tokenBudget, MAX_TOKEN_BUDGET)
  }

  ghost predicate CanonicalList(items: seq<string>, minItems: nat, pathLike: bool) {
    && minItems <= |items| <= MAX_ITEMS
    && (forall i :: 0 <= i < |items| ==> ItemOk(items[i]))
    && Sorted(TextLe, items) && Distinct(items)
    && (pathLike ==> ValidRoots(items))
  }

  /** The boundaries that exist: canonical lists, limits in range, digest of the content. */
  ghost predicate Canonical(b: Boundary) {
    var s := b.scope;
    && CanonicalList(s.allowedActions, 1, false)
    && CanonicalList(s.deniedActions, 0, false)
    && CanonicalList(s.writableTargets, 0, true)
    && CanonicalList(s.sourceRoots, 1, true)
    && CanonicalList(s.replanRequiredWhen, 1, false)
    && Disjoint(s.allowedActions, s.deniedActions)
    && LimitsOk(s)
    && b.scopeDigest == Sha256(s)
  }

  lemma ListCanonical(items: seq<string>, minItems: nat, pathLike: bool)
    requires StringSequence(items, minItems, pathLike).Ok?
    ensures var r := StringSequence(items, minItems, pathLike).value;
            CanonicalList(r, minItems, pathLike) && multiset(r) == multiset(items)
  {
    var r := SortBy(TextLe, items);
    TextSort(items);
    SamePermutation(r, items);
    forall i | 0 <= i < |r| ensures ItemOk(r[i]) {
      assert r[i] in items;
    }
  }

  /** A text without surrounding whitespace. */
  predicate Tidy(item: string) {
    item != "" && !IsSpace(item[0]) && !IsSpace(item[|item| - 1])
  }

  /** A list is accepted exactly by its size, the ends of its texts, its duplicates and, for roots, by their
      characters and segments. */
  lemma ListAcceptedExactly(items: seq<string>, minItems: nat, pathLike: bool)
    ensures StringSequence(items, minItems, pathLike).Ok? <==>
              && minItems <= |items| <= 64
              && (forall x :: x in items ==> Tidy(x))
              && (forall i, j :: 0 <= i < j < |items| ==> items[i] != items[j])
              && (pathLike ==>
                    forall x :: x in items ==> '\\' !in x && AllNames(Split(x)) && TrailingWildcard(Split(x)))
  {
    hide SortBy, Strip, Split, ValidRoot;
    var sorted := SortBy(TextLe, items);
    SamePermutation(sorted, items);
    SameDuplicates(sorted, items);
    forall x | x in items ensures ItemOk(x) <==> Tidy(x) { StripTrims(x); }
    forall x: string ensures ValidRoot(x) <==> '\\' !in x && AllNames(Split(x)) && TrailingWildcard(Split(x)) {
      ValidRootExactly(x, []);
    }
    forall i | 0 <= i < |items| ensures items[i] in items {}
    assert ValidRoots(sorted) <==> forall x :: x in sorted ==> ValidRoot(x);
  }

  lemma SameDuplicates(xs: seq<string>, ys: seq<string>)
    requires multiset(xs) == multiset(ys)
    ensures Distinct(xs) <==> Distinct(ys)
  {
    DistinctBag(xs);
    DistinctBag(ys);
  }

  lemma {:induction false} DistinctBag(xs: seq<string>)
    ensures Distinct(xs) <==> forall x :: multiset(xs)[x] <= 1
  {
    if xs != [] {
      var init, last := xs[..|xs| - 1], xs[|xs| - 1];
      assert xs == init + [last];
      DistinctBag(init);
      assert last in init <==> multiset(init)[last] >= 1;
      if Distinct(xs) {
        forall i | 0 <= i < |init| ensures init[i] != last { assert xs[i] != xs[|xs| - 1]; }
      } else if Distinct(init) {
        var i, j :| 0 <= i < j < |xs| && xs[i] == xs[j];
        assert j == |xs| - 1 && init[i] == last;
        assert multiset(xs)[last] == multiset(init)[last] + 1;
      } else {
        var x :| multiset(init)[x] > 1;
        assert multiset(xs)[x] > 1;
      }
    }
  }

  /** Every root of a boundary that exists leads, below any base, to exactly the base followed by its own segments. */
  lemma RootsStayBelow(b: Boundary, root: string, base: seq<string>)
    requires Canonical(b) && (root in b.scope.writableTargets || root in b.scope.sourceRoots)
    ensures ResolveBelow(base, Split(root)) == base + Split(root) && base <= ResolveBelow(base, Split(root))
  {
    hide Split, ResolveBelow, ValidRoot;
    ValidRootExactly(root, base);
  }

  /** Exactly which payloads become boundaries. */
  lemma ConstructAcceptsExactly(raw: Payload)
    ensures Construct(raw, None).Ok? <==>
              && StringSequence(raw.allowedActions, 1, false).Ok? && StringSequence(raw.deniedActions, 0, false).Ok?
              && StringSequence(raw.writableTargets, 0, true).Ok? && StringSequence(raw.sourceRoots, 1, true).Ok?
              && StringSequence(raw.replanRequiredWhen, 1, false).Ok?
              && (forall x :: x in raw.allowedActions ==> x !in raw.deniedActions)
              && 0 <= raw.maxChildren <= 64 && 1 <= raw.maxParallel <= 64 && 0 <= raw.maxDepth <= 8
              && (raw.timeBudgetSeconds.Some? ==> 1 <= raw.timeBudgetSeconds.value <= 3600)
              && (raw.tokenBudget.Some? ==> 1 <= raw.tokenBudget.value <= 1_000_000)
  {
    hide SortBy, Strip, Split, ValidRoots, ItemOk, Distinct;
    SamePermutation(SortBy(TextLe, raw.allowedActions), raw.allowedActions);
    SamePermutation(SortBy(TextLe, raw.deniedActions), raw.deniedActions);
  }

  lemma CanonicalListStable(items: seq<string>, minItems: nat, pathLike: bool)
    requires CanonicalList(items, minItems, pathLike)
    ensures StringSequence(items, minItems, pathLike) == Ok(items)
  {
    TextSort(items);
  }

  lemma ListForgetsOrder(xs: seq<string>, ys: seq<string>, minItems: nat, pathLike: bool)
    requires multiset(xs) == multiset(ys)
    ensures StringSequence(xs, minItems, pathLike) == StringSequence(ys, minItems, pathLike)
  {
    hide SortBy, ItemOk, ValidRoots, Distinct;
    TextSortForgetsOrder(xs, ys);
    SamePermutation(xs, ys);
    if i :| 0 <= i < |xs| && !ItemOk(xs[i]) { assert xs[i] in ys; }
    if i :| 0 <= i < |ys| && !ItemOk(ys[i]) { assert ys[i] in xs; }
  }

  /** Construction yields exactly a canonical boundary. */
  lemma ConstructCanonical(raw: Payload, supplied: Option<Digest>)
    requires Construct(raw, supplied).Ok?
    ensures Canonical(Construct(raw, supplied).value)
  {
    ListCanonical(raw.allowedActions, 1, false);
    ListCanonical(raw.deniedActions, 0, false);
    ListCanonical(raw.writableTargets, 0, true);
    ListCanonical(raw.sourceRoots, 1, true);
    ListCanonical(raw.replanRequiredWhen, 1, false);
  }

  lemma CanonicalConstruct(b: Boundary)
    requires Canonical(b)
    ensures Construct(b.scope, None) == Ok(b)
    ensures Construct(b.scope, Some(b.scopeDigest)) == Ok(b)
  {
    hide StringSequence;
    var raw := b.scope;
    CanonicalListStable(raw.allowedActions, 1, false);
    CanonicalListStable(raw.deniedActions, 0, false);
    CanonicalListStable(raw.writableTargets, 0, true);
    CanonicalListStable(raw.sourceRoots, 1, true);
    CanonicalListStable(raw.replanRequiredWhen, 1, false);
  }

  ghost predicate SamePayloadUpToOrder(a: Payload, b: Payload) {
    && multiset(a.allowedActions) == multiset(b.allowedActions)
    && multiset(a.deniedActions) == multiset(b.deniedActions)
    && multiset(a.writableTargets) == multiset(b.writableTargets)
    && multiset(a.sourceRoots) == multiset(b.sourceRoots)
    && multiset(a.replanRequiredWhen) == multiset(b.replanRequiredWhen)
    && a == b.(allowedActions := a.allowedActions, deniedActions := a.deniedActions,
               writableTargets := a.writableTargets, sourceRoots := a.sourceRoots,
               replanRequiredWhen := a.replanRequiredWhen)
  }

  /** Permuting any input list changes neither the boundary, its digest, nor the error. */
  lemma ConstructForgetsOrder(a: Payload, b: Payload, supplied: Option<Digest>)
    requires SamePayloadUpToOrder(a, b)
    ensures Construct(a, supplied) == Construct(b, supplied)
  {
    hide StringSequence;
    ListForgetsOrder(a.allowedActions, b.allowedActions, 1, false);
    ListForgetsOrder(a.deniedActions, b.deniedActions, 0, false);
    ListForgetsOrder(a.writableTargets, b.writableTargets, 0, true);
    ListForgetsOrder(a.sourceRoots, b.sourceRoots, 1, true);
    ListForgetsOrder(a.replanRequiredWhen, b.replanRequiredWhen, 1, false);
  }

  /** Equal digests mean equal boundaries, and a supplied digest is accepted exactly when it
      is the digest the boundary gets without one. */
  lemma DigestBindsContent(raw: Payload, supplied: Digest, b: Boundary, c: Boundary)
    ensures Construct(raw, Some(supplied)) == Ok(b) <==> Construct(raw, None) == Ok(b) && b.scopeDigest == supplied
    ensures Canonical(b) && Canonical(c) && b.scopeDigest == c.scopeDigest ==> b == c
  {
  }

  // ---- the machine mapping ----

  datatype Field =
    | AllowedActions | DeniedActions | WritableTargets | SourceRoots
    | MaxChildrenField | MaxParallelField | MaxDepthField | ReplanRequiredWhen
    | TimeBudgetSeconds | TokenBudget | ScopeDigest
    | Unsupported(name: string)

  datatype Json = Strings(items: seq<string>) | Number(n: int) | Text(digest: Digest) | Null | OtherJson

  const REQUIRED: seq<Field> := [AllowedActions, DeniedActions, WritableTargets, SourceRoots,
                                 MaxChildrenField, MaxParallelField, MaxDepthField, ReplanRequiredWhen]

  function ToDict(b: Boundary): map<Field, Json> {
    var s := b.scope;
    map[AllowedActions := Strings(s.allowedActions), DeniedActions := Strings(s.deniedActions),
        WritableTargets := Strings(s.writableTargets), SourceRoots := Strings(s.sourceRoots),
        MaxChildrenField := Number(s.maxChildren), MaxParallelField := Number(s.maxParallel),
        MaxDepthField := Number(s.maxDepth), ReplanRequiredWhen := Strings(s.replanRequiredWhen),
        TimeBudgetSeconds := Optional(s.timeBudgetSeconds), TokenBudget := Optional(s.tokenBudget),
        ScopeDigest := Text(b.scopeDigest)]
  }

  function Optional(value: Option<int>): Json {
    if value.Some? then Number(value.value) else Null
  }

  function Lookup(payload: map<Field, Json>, field: Field): Json {
    if field in payload then payload[field] else Null
  }

  function FromDict(payload: map<Field, Json>): Result<Boundary, BoundaryError> {
    if exists f :: f in payload && f.Unsupported? then Err(SchemaInvalid)
    else if exists f :: f in REQUIRED && f !in payload then Err(SchemaInvalid)
    else ParseFields(payload)
  }

  function ParseFields(payload: map<Field, Json>): Result<Boundary, BoundaryError> {
    var allowed, denied := Lookup(payload, AllowedActions), Lookup(payload, DeniedActions);
    var writable, sources := Lookup(payload, WritableTargets), Lookup(payload, SourceRoots);
    var children, parallel := Lookup(payload, MaxChildrenField), Lookup(payload, MaxParallelField);
    var depth, replan := Lookup(payload, MaxDepthField), Lookup(payload, ReplanRequiredWhen);
    var time, tokens := Lookup(payload, TimeBudgetSeconds), Lookup(payload, TokenBudget);
    var digest := Lookup(payload, ScopeDigest);
    if !(allowed.Strings? && denied.Strings? && writable.Strings? && sources.Strings? && replan.Strings?)
      then Err(SchemaInvalid)
    else if !(children.Number? && parallel.Number? && depth.Number?) then Err(SchemaInvalid)
    else if !(time.Number? || time.Null?) || !(tokens.Number? || tokens.Null?) then Err(SchemaInvalid)
    else if !(digest.Text? || digest.Null?) then Err(SchemaInvalid)
    else
      Construct(
        Payload(allowed.items, denied.items, writable.items, sources.items, children.n, parallel.n, depth.n,
                replan.items, if time.Number? then Some(time.n) else None, if tokens.Number? then Some(tokens.n)
                  else None),
        if digest.Text? then Some(digest.digest) else None)
  }

  lemma ParseDict(b: Boundary)
    ensures ParseFields(ToDict(b)) == Construct(b.scope, Some(b.scopeDigest))
  {
    hide Construct;
    var d, s := ToDict(b), b.scope;
    assert Lookup(d, TimeBudgetSeconds) == Optional(s.timeBudgetSeconds);
    assert Lookup(d, TokenBudget) == Optional(s.tokenBudget);
    assert Lookup(d, ScopeDigest) == Text(b.scopeDigest);
  }

  lemma RoundTrip(b: Boundary)
    requires Canonical(b)
    ensures FromDict(ToDict(b)) == Ok(b)
  {
    hide ParseFields, Construct, Canonical;
    CanonicalConstruct(b);
    ParseDict(b);
  }

  // ---- child subset ----

  predicate Includes(larger: seq<string>, smaller: seq<string>) {
    forall x :: x in smaller ==> x in larger
  }

  predicate BudgetWithin(child: Option<int>, parent: Option<int>) {
    parent.Some? ==> child.Some? && child.value <= parent.value
  }

  /** One dimension of the subset relation fails. */
  predicate Violates(parent: Payload, child: Payload, depth: int, check: Check) {
    match check
    case AllowedActionsSubset => !Includes(parent.allowedActions, child.allowedActions)
    case DeniedActionsPreserved => !Includes(child.deniedActions, parent.deniedActions)
    case WritableTargetsSubset => !RootsWithin(child.writableTargets, parent.writableTargets)
    case SourceRootsSubset => !RootsWithin(child.sourceRoots, parent.sourceRoots)
    case MaxChildren => child.maxChildren > parent.maxChildren
    case MaxParallel => child.maxParallel > parent.maxParallel
    case MaxDepth => child.maxDepth + depth > parent.maxDepth
    case ChildBudgetsWithinParent =>
      || child.maxChildren > parent.maxChildren || child.maxParallel > parent.maxParallel
      || child.maxDepth + depth > parent.maxDepth
      || !BudgetWithin(child.timeBudgetSeconds, parent.timeBudgetSeconds)
      || !BudgetWithin(child.tokenBudget, parent.tokenBudget)
    case ReplanTriggersPreserved => !Includes(child.replanRequiredWhen, parent.replanRequiredWhen)
  }

  /** The child never exceeds the parent in any dimension. */
  ghost predicate Narrows(parent: Payload, child: Payload, depth: int) {
    && Includes(parent.allowedActions, child.allowedActions)
    && Includes(child.deniedActions, parent.deniedActions)
    && RootsWithin(child.writableTargets, parent.writableTargets)
    && RootsWithin(child.sourceRoots, parent.sourceRoots)
    && child.maxChildren <= parent.maxChildren
    && child.maxParallel <= parent.maxParallel
    && child.maxDepth + depth <= parent.maxDepth
    && BudgetWithin(child.timeBudgetSeconds, parent.timeBudgetSeconds)
    && BudgetWithin(child.tokenBudget, parent.tokenBudget)
    && Includes(child.replanRequiredWhen, parent.replanRequiredWhen)
  }

  /** What a budget lets through; no budget lets everything through. */
  predicate Affords(budget: Option<int>, spent: int) {
    budget.None? || spent <= budget.value
  }

  /** A child's budget fits exactly when the parent affords whatever the child affords. */
  lemma BudgetMeans(child: Option<int>, parent: Option<int>)
    ensures BudgetWithin(child, parent) <==> forall n :: Affords(child, n) ==> Affords(parent, n)
  {
    if parent.Some? {
      var most := if child.Some? then child.value else parent.value + 1;
      assert Affords(child, most);
    }
  }

  /** Some root of the list contains this one. */
  ghost predicate Covered(child: string, parents: seq<string>) {
    exists q :: q in parents && PathIsWithin(child, q)
  }

  lemma RootsWithinMeans(children: seq<string>, parents: seq<string>)
    ensures RootsWithin(children, parents) <==> forall c :: c in children ==> Covered(c, parents)
  {
    hide PathIsWithin;
    forall c ensures AnyRootContains(c, parents) <==> Covered(c, parents) {
      if AnyRootContains(c, parents) {
        var k :| 0 <= k < |parents| && PathIsWithin(c, parents[k]);
        assert parents[k] in parents;
      }
      if Covered(c, parents) {
        var q :| q in parents && PathIsWithin(c, q);
        var k :| 0 <= k < |parents| && parents[k] == q;
      }
    }
    if RootsWithin(children, parents) {
      forall c | c in children ensures Covered(c, parents) {
        var i :| 0 <= i < |children| && children[i] == c;
      }
    }
    if forall c :: c in children ==> Covered(c, parents) {
      forall i | 0 <= i < |children| ensures AnyRootContains(children[i], parents) { assert children[i] in children; }
    }
  }

  /** Narrowing, member by member: whatever the child may do its parent may, and the child gives up nothing that
      its parent insists on. */
  lemma NarrowsMeans(parent: Payload, child: Payload, depth: int)
    ensures Narrows(parent, child, depth) <==>
              && (forall x :: x in child.allowedActions ==> x in parent.allowedActions)
              && (forall x :: x in parent.deniedActions ==> x in child.deniedActions)
              && (forall x :: x in parent.replanRequiredWhen ==> x in child.replanRequiredWhen)
              && (forall c :: c in child.writableTargets ==> Covered(c, parent.writableTargets))
              && (forall c :: c in child.sourceRoots ==> Covered(c, parent.sourceRoots))
              && child.maxChildren <= parent.maxChildren && child.maxParallel <= parent.maxParallel
              && child.maxDepth <= parent.maxDepth - depth
              && (forall n :: Affords(child.timeBudgetSeconds, n) ==> Affords(parent.timeBudgetSeconds, n))
              && (forall n :: Affords(child.tokenBudget, n) ==> Affords(parent.tokenBudget, n))
  {
    hide PathIsWithin, BudgetWithin, Affords, RootsWithin, Covered;
    RootsWithinMeans(child.writableTargets, parent.writableTargets);
    RootsWithinMeans(child.sourceRoots, parent.sourceRoots);
    BudgetMeans(child.timeBudgetSeconds, parent.timeBudgetSeconds);
    BudgetMeans(child.tokenBudget, parent.tokenBudget);
  }

  const CHECK_ORDER: seq<Check> := [AllowedActionsSubset, DeniedActionsPreserved, WritableTargetsSubset,
      SourceRootsSubset,
                                    MaxChildren, MaxParallel, MaxDepth, ChildBudgetsWithinParent,
                                    ReplanTriggersPreserved]

  datatype SubsetProof = SubsetProof(parentScopeDigest: Digest, childScopeDigest: Digest)

  /** The violated checks among the first `n`, in report order. */
  function FailedChecks(parent: Payload, child: Payload, depth: int, n: nat): seq<Check>
    requires n <= |CHECK_ORDER|
  {
    if n == 0 then []
    else
      FailedChecks(parent, child, depth, n - 1)
      + if Violates(parent, child, depth, CHECK_ORDER[n - 1]) then [CHECK_ORDER[n - 1]] else []
  }

  lemma {:induction false} FailedChecksComplete(parent: Payload, child: Payload, depth: int, n: nat, c: Check)
    requires n <= |CHECK_ORDER|
    ensures c in FailedChecks(parent, child, depth, n) <==> c in CHECK_ORDER[..n] && Violates(parent, child, depth, c)
  {
    if n > 0 {
      FailedChecksComplete(parent, child, depth, n - 1, c);
      assert CHECK_ORDER[..n] == CHECK_ORDER[..n - 1] + [CHECK_ORDER[n - 1]];
    }
  }

  lemma CheckListed(c: Check)
    ensures c in CHECK_ORDER
  {
    assert CHECK_ORDER[0] == AllowedActionsSubset && CHECK_ORDER[1] == DeniedActionsPreserved;
    assert CHECK_ORDER[2] == WritableTargetsSubset && CHECK_ORDER[3] == SourceRootsSubset;
    assert CHECK_ORDER[4] == MaxChildren && CHECK_ORDER[5] == MaxParallel && CHECK_ORDER[6] == MaxDepth;
    assert CHECK_ORDER[7] == ChildBudgetsWithinParent && CHECK_ORDER[8] == ReplanTriggersPreserved;
  }

  /** Nothing is reported exactly when the child narrows the parent. */
  lemma NoFailedChecks(parent: Payload, child: Payload, depth: int)
    ensures FailedChecks(parent, child, depth, 9) == [] <==> Narrows(parent, child, depth)
    ensures forall c :: c in FailedChecks(parent, child, depth, 9) <==> Violates(parent, child, depth, c)
  {
    var failed := FailedChecks(parent, child, depth, 9);
    forall c ensures c in failed <==> Violates(parent, child, depth, c) {
      FailedChecksComplete(parent, child, depth, 9, c);
      CheckListed(c);
      assert CHECK_ORDER[..9] == CHECK_ORDER;
    }
    assert failed == [] <==> forall c :: c !in failed by {
      if failed != [] { assert failed[0] in failed; }
    }
    ViolatesAny(parent, child, depth);
  }

  lemma ViolatesAny(parent: Payload, child: Payload, depth: int)
    ensures Narrows(parent, child, depth) <==> forall c :: !Violates(parent, child, depth, c)
  {
    if forall c :: !Violates(parent, child, depth, c) {
      assert !Violates(parent, child, depth, AllowedActionsSubset)
          && !Violates(parent, child, depth, DeniedActionsPreserved);
      assert !Violates(parent, child, depth, WritableTargetsSubset)
          && !Violates(parent, child, depth, SourceRootsSubset);
      assert !Violates(parent, child, depth, ChildBudgetsWithinParent)
          && !Violates(parent, child, depth, ReplanTriggersPreserved);
    }
  }

  lemma NextCheck(parent: Payload, child: Payload, depth: int, n: nat, check: Check)
    requires n < |CHECK_ORDER| && CHECK_ORDER[n] == check
    ensures FailedChecks(parent, child, depth, n + 1)
         == FailedChecks(parent, child, depth, n) + if Violates(parent, child, depth, check) then [check] else []
  {
  }

  method ScopeChecks(p: Payload, c: Payload, depth: int) returns (failed: seq<Check>)
    ensures failed == FailedChecks(p, c, depth, 4)
  {
    hide Includes, RootsWithin;
    failed := [];
    if !Includes(p.allowedActions, c.allowedActions) { failed := failed + [AllowedActionsSubset]; }
    assert failed == FailedChecks(p, c, depth, 1);
    if !Includes(c.deniedActions, p.deniedActions) { failed := failed + [DeniedActionsPreserved]; }
    assert failed == FailedChecks(p, c, depth, 2);
    if !RootsWithin(c.writableTargets, p.writableTargets) { failed := failed + [WritableTargetsSubset]; }
    assert failed == FailedChecks(p, c, depth, 3);
    if !RootsWithin(c.sourceRoots, p.sourceRoots) { failed := failed + [SourceRootsSubset]; }
  }

  method LimitChecks(p: Payload, c: Payload, depth: int, soFar: seq<Check>) returns (failed: seq<Check>)
    requires soFar == FailedChecks(p, c, depth, 4)
    ensures failed == FailedChecks(p, c, depth, 8)
  {
    hide Includes, RootsWithin, FailedChecks;
    NextCheck(p, c, depth, 4, MaxChildren);
    NextCheck(p, c, depth, 5, MaxParallel);
    NextCheck(p, c, depth, 6, MaxDepth);
    NextCheck(p, c, depth, 7, ChildBudgetsWithinParent);
    failed := soFar;
    var remainingDepth := p.maxDepth - depth;
    var budgetFailed := false;
    if c.maxChildren > p.maxChildren { failed, budgetFailed := failed + [MaxChildren], true; }
    assert failed == FailedChecks(p, c, depth, 5);
    if c.maxParallel > p.maxParallel { failed, budgetFailed := failed + [MaxParallel], true; }
    assert failed == FailedChecks(p, c, depth, 6);
    if c.maxDepth > remainingDepth { failed, budgetFailed := failed + [MaxDepth], true; }
    assert failed == FailedChecks(p, c, depth, 7);
    if !BudgetWithin(c.timeBudgetSeconds, p.timeBudgetSeconds) { budgetFailed := true; }
    if !BudgetWithin(c.tokenBudget, p.tokenBudget) { budgetFailed := true; }
    if budgetFailed { failed := failed + [ChildBudgetsWithinParent]; }
  }

  method ValidateChildSubset(parent: Boundary, child: Boundary, childDepth: int)
      returns (r: Result<SubsetProof, BoundaryError>)
    ensures childDepth < 0 ==> r == Err(SchemaInvalid)
    ensures childDepth >= 0 ==> (r.Ok? <==> Narrows(parent.scope, child.scope, childDepth))
    ensures r.Ok? ==> r.value == SubsetProof(parent.scopeDigest, child.scopeDigest)
    ensures childDepth >= 0 && r.Err? ==>
              && r.error == ReplanRequired(FailedChecks(parent.scope, child.scope, childDepth, 9))
              && forall c :: c in r.error.failedChecks <==> Violates(parent.scope, child.scope, childDepth, c)
  {
    if childDepth < 0 {
      return Err(SchemaInvalid);
    }
    hide Includes, RootsWithin, Narrows, FailedChecks;
    var p, c := parent.scope, child.scope;
    var failed := ScopeChecks(p, c, childDepth);
    failed := LimitChecks(p, c, childDepth, failed);
    NextCheck(p, c, childDepth, 8, ReplanTriggersPreserved);
    if !Includes(c.replanRequiredWhen, p.replanRequiredWhen) { failed := failed + [ReplanTriggersPreserved]; }
    NoFailedChecks(p, c, childDepth);
    if failed != [] {
      return Err(ReplanRequired(failed));
    }
    return Ok(SubsetProof(parent.scopeDigest, child.scopeDigest));
  }

  // ---- delegation chains ----

  ghost predicate Chain(bs: seq<Boundary>, depths: seq<nat>) {
    && |bs| == |depths| + 1
    && (forall i :: 0 <= i < |bs| ==> Canonical(bs[i]))
    && (forall i :: 0 <= i < |depths| ==> Narrows(bs[i].scope, bs[i + 1].scope, depths[i]))
  }

  function Sum(ns: seq<nat>): nat {
    if ns == [] then 0 else Sum(ns[..|ns| - 1]) + ns[|ns| - 1]
  }

  ghost predicate NoOpenOneLevelRoot(scope: Payload) {
    OneLevelCovered(scope.writableTargets) && OneLevelCovered(scope.sourceRoots)
  }

  lemma RootWithinItself(roots: seq<string>)
    ensures RootsWithin(roots, roots)
  {
    forall i | 0 <= i < |roots| ensures AnyRootContains(roots[i], roots) {
      assert PathIsWithin(roots[i], roots[i]);
    }
  }

  lemma NarrowsTransitive(a: Payload, b: Payload, c: Payload, d: nat, e: nat)
    requires NoOpenOneLevelRoot(a)
    requires Narrows(a, b, d) && Narrows(b, c, e)
    ensures Narrows(a, c, d + e)
  {
    RootsWithinTransitive(c.writableTargets, b.writableTargets, a.writableTargets);
    RootsWithinTransitive(c.sourceRoots, b.sourceRoots, a.sourceRoots);
  }

  /** A whole chain is one narrowing at the summed depth. */
  lemma {:induction false} ChainComposes(bs: seq<Boundary>, depths: seq<nat>)
    requires Chain(bs, depths)
    requires NoOpenOneLevelRoot(bs[0].scope)
    ensures Narrows(bs[0].scope, bs[|bs| - 1].scope, Sum(depths))
  {
    if depths == [] {
      RootWithinItself(bs[0].scope.writableTargets);
      RootWithinItself(bs[0].scope.sourceRoots);
    } else {
      var n := |depths| - 1;
      ChainComposes(bs[..n + 1], depths[..n]);
      NarrowsTransitive(bs[0].scope, bs[n].scope, bs[n + 1].scope, Sum(depths[..n]), depths[n]);
    }
  }

  /** What every chain keeps, whatever its roots: authority only shrinks, denials only grow,
      and each nested level is paid for out of the first boundary's depth. */
  lemma {:induction false} ChainKeepsDenials(bs: seq<Boundary>, depths: seq<nat>, i: nat, j: nat)
    requires Chain(bs, depths) && i <= j < |bs|
    ensures Includes(bs[j].scope.deniedActions, bs[i].scope.deniedActions)
    ensures Includes(bs[i].scope.allowedActions, bs[j].scope.allowedActions)
    ensures Disjoint(bs[j].scope.allowedActions, bs[i].scope.deniedActions)
    ensures bs[j].scope.maxDepth + Sum(depths[i..j]) <= bs[i].scope.maxDepth
    decreases j
  {
    hide CanonicalList, LimitsOk, BudgetWithin, RootsWithin;
    if i < j {
      ChainKeepsDenials(bs, depths, i, j - 1);
      assert Narrows(bs[j - 1].scope, bs[j].scope, depths[j - 1]);
      assert depths[i..j][..j - 1 - i] == depths[i..j - 1];
    }
    assert Canonical(bs[j]) && Canonical(bs[i]);
  }

  lemma {:induction false} SumAtLeast(ns: seq<nat>)
    requires forall i :: 0 <= i < |ns| ==> ns[i] >= 1
    ensures Sum(ns) >= |ns|
  {
    if ns != [] { SumAtLeast(ns[..|ns| - 1]); }
  }

  lemma NestedChainBounded(bs: seq<Boundary>, depths: seq<nat>)
    requires Chain(bs, depths)
    requires forall i :: 0 <= i < |depths| ==> depths[i] >= 1
    ensures |depths| <= bs[0].scope.maxDepth <= MAX_DEPTH
  {
    ChainKeepsDenials(bs, depths, 0, |depths|);
    assert depths[0..|depths|] == depths;
    SumAtLeast(depths);
    assert Canonical(bs[|depths|]) && Canonical(bs[0]);
  }

  // ---- the condition on one-level roots is exact ----

  ghost predicate ComposesAlways(a: Boundary) {
    forall b: Boundary, c: Boundary, d: nat, e: nat ::
      Canonical(b) && Canonical(c) && Narrows(a.scope, b.scope, d) && Narrows(b.scope, c.scope, e)
      ==> Narrows(a.scope, c.scope, d + e)
  }

  function WithSources(a: Boundary, roots: seq<string>): Boundary {
    var s := a.scope.(sourceRoots := roots);
    Boundary(s, Sha256(s))
  }

  function WithTargets(a: Boundary, roots: seq<string>): Boundary {
    var s := a.scope.(writableTargets := roots);
    Boundary(s, Sha256(s))
  }

  lemma {:induction false} RootTextOk(value: string, origin: string)
    requires ValidRoot(value) && SameEnds(value, origin) && ItemOk(origin)
    ensures CanonicalList([value], 1, true)
  {
    StripTrims(origin);
    StripTrims(value);
  }

  lemma CanonicalWithRoot(a: Boundary, root: string)
    requires Canonical(a) && CanonicalList([root], 1, true)
    ensures Canonical(WithSources(a, [root])) && Canonical(WithTargets(a, [root]))
  {
  }

  lemma NarrowsOnlyRoots(a: Payload, parents: seq<string>, children: seq<string>)
    ensures Narrows(a.(sourceRoots := parents), a.(sourceRoots := children), 0) <==> RootsWithin(children, parents)
    ensures Narrows(a.(writableTargets := parents), a.(writableTargets := children), 0) <==>
            RootsWithin(children, parents)
  {
    RootWithinItself(a.writableTargets);
    RootWithinItself(a.sourceRoots);
  }

  lemma SingleRootWithin(child: string, parents: seq<string>)
    ensures RootsWithin([child], parents) <==> AnyRootContains(child, parents)
  {
    assert [child][0] == child;
  }

  /** Three root lists: the middle narrows the first, the last narrows the middle but not the first. */
  lemma BrokenRoots(roots: seq<string>) returns (middle: string, child: string)
    requires CanonicalList(roots, 0, true) && !OneLevelCovered(roots)
    ensures CanonicalList([middle], 1, true) && CanonicalList([child], 1, true)
    ensures RootsWithin([middle], roots) && RootsWithin([child], [middle]) && !RootsWithin([child], roots)
  {
    var i :| 0 <= i < |roots| && IsOneLevel(roots[i]) && !CoveredBy(roots[i], roots);
    middle, child := UncoveredRootBreaks(roots, i);
    RootTextOk(middle, roots[i]);
    RootTextOk(child, roots[i]);
    SingleRootWithin(middle, roots);
    SingleRootWithin(child, roots);
    SingleRootWithin(child, [middle]);
    assert PathIsWithin(child, [middle][0]);
  }

  lemma ComposesIffCovered(a: Boundary)
    requires Canonical(a)
    ensures ComposesAlways(a) <==> NoOpenOneLevelRoot(a.scope)
  {
    if NoOpenOneLevelRoot(a.scope) {
      forall b: Boundary, c: Boundary, d: nat, e: nat
        | Canonical(b) && Canonical(c) && Narrows(a.scope, b.scope, d) && Narrows(b.scope, c.scope, e)
        ensures Narrows(a.scope, c.scope, d + e)
      {
        NarrowsTransitive(a.scope, b.scope, c.scope, d, e);
      }
    } else if !OneLevelCovered(a.scope.sourceRoots) {
      SourcesBreak(a);
    } else {
      TargetsBreak(a);
    }
  }

  lemma SourcesBreak(a: Boundary)
    requires Canonical(a) && !OneLevelCovered(a.scope.sourceRoots)
    ensures !ComposesAlways(a)
  {
    var middle, child := BrokenRoots(a.scope.sourceRoots);
    CanonicalWithRoot(a, middle);
    CanonicalWithRoot(a, child);
    var b, c := WithSources(a, [middle]), WithSources(a, [child]);
    assert a.scope == a.scope.(sourceRoots := a.scope.sourceRoots);
    NarrowsOnlyRoots(a.scope, a.scope.sourceRoots, [middle]);
    NarrowsOnlyRoots(a.scope, [middle], [child]);
    NarrowsOnlyRoots(a.scope, a.scope.sourceRoots, [child]);
    assert !Narrows(a.scope, c.scope, 0 + 0);
    assert Narrows(a.scope, b.scope, 0) && Narrows(b.scope, c.scope, 0);
  }

  lemma TargetsBreak(a: Boundary)
    requires Canonical(a) && !OneLevelCovered(a.scope.writableTargets)
    ensures !ComposesAlways(a)
  {
    var middle, child := BrokenRoots(a.scope.writableTargets);
    CanonicalWithRoot(a, middle);
    CanonicalWithRoot(a, child);
    var b, c := WithTargets(a, [middle]), WithTargets(a, [child]);
    assert a.scope == a.scope.(writableTargets := a.scope.writableTargets);
    NarrowsOnlyRoots(a.scope, a.scope.writableTargets, [middle]);
    NarrowsOnlyRoots(a.scope, [middle], [child]);
    NarrowsOnlyRoots(a.scope, a.scope.writableTargets, [child]);
    assert !Narrows(a.scope, c.scope, 0 + 0);
    assert Narrows(a.scope, b.scope, 0) && Narrows(b.scope, c.scope, 0);
  }
}
