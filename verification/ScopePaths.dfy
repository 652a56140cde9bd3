/** Relative scope roots: validation, wildcard suffixes and segment-aware containment. */
module ScopePaths {
  import opened Results

  datatype Wildcard = OneLevel | AllLevels

  // ---- splitting text at '/' ----

  function Split(s: string): (parts: seq<string>)
    ensures |parts| >= 1
  {
    if s == "" then [""] else Prepend(s[0], Split(s[1..]))
  }

  /** The segments of a text that starts with `c` and continues as `parts`. */
  function Prepend(c: char, parts: seq<string>): (r: seq<string>)
    requires |parts| >= 1
    ensures |r| >= 1
  {
    if c == '/' then [""] + parts else [[c] + parts[0]] + parts[1..]
  }

  function Join(parts: seq<string>): string
    requires |parts| >= 1
  {
    if |parts| == 1 then parts[0] else parts[0] + "/" + Join(parts[1..])
  }

  lemma {:induction false} JoinPrepend(c: char, parts: seq<string>)
    requires |parts| >= 1
    ensures Join(Prepend(c, parts)) == [c] + Join(parts)
  {
    if c == '/' {
      assert Prepend(c, parts)[1..] == parts;
    } else if |parts| > 1 {
      JoinGrown(parts[0], [c] + parts[0], parts[1..], c);
      assert Prepend(c, parts) == [[c] + parts[0]] + parts[1..] && parts == [parts[0]] + parts[1..];
    }
  }

  lemma {:induction false} JoinGrown(head: string, grown: string, tail: seq<string>, c: char)
    requires tail != [] && grown == [c] + head
    ensures Join([grown] + tail) == [c] + Join([head] + tail)
  {
    assert ([grown] + tail)[1..] == tail && ([head] + tail)[1..] == tail;
    assert [c] + head + "/" + Join(tail) == [c] + (head + "/" + Join(tail));
  }

  lemma {:induction false} JoinSplit(s: string)
    ensures Join(Split(s)) == s
  {
    if s != "" {
      JoinSplit(s[1..]);
      JoinPrepend(s[0], Split(s[1..]));
      assert s == [s[0]] + s[1..];
    }
  }

  lemma {:induction false} SplitSegment(s: string)
    requires '/' !in s
    ensures Split(s) == [s]
  {
    if s != "" {
      SplitSegment(s[1..]);
      assert s == [s[0]] + s[1..];
    }
  }

  lemma PrependAppend(c: char, parts: seq<string>, more: seq<string>)
    requires |parts| >= 1
    ensures Prepend(c, parts + more) == Prepend(c, parts) + more
  {
    assert (parts + more)[1..] == parts[1..] + more;
  }

  /** Splitting distributes over a separator. */
  lemma {:induction false} SplitAt(a: string, b: string)
    ensures Split(a + "/" + b) == Split(a) + Split(b)
  {
    var s := a + "/" + b;
    if a == "" {
      assert s[0] == '/' && s[1..] == b;
    } else {
      assert s[0] == a[0] && s[1..] == a[1..] + "/" + b;
      SplitAt(a[1..], b);
      PrependAppend(a[0], Split(a[1..]), Split(b));
    }
  }

  lemma SplitInjective(a: string, b: string)
    requires Split(a) == Split(b)
    ensures a == b
  {
    JoinSplit(a);
    JoinSplit(b);
  }

  // ---- validation ----

  predicate SegmentOk(part: string) {
    part != "" && part != "." && part != ".."
  }

  /** The forms accepted as a scope root. */
  predicate ValidRoot(value: string) {
    var parts := Split(value);
    && !(value != "" && value[0] == '/')
    && '\\' !in value
    && (forall i :: 0 <= i < |parts| ==> SegmentOk(parts[i]))
    && (forall i :: 0 <= i < |parts| - 1 ==> '*' !in parts[i])
    && ('*' in parts[|parts| - 1] ==> parts[|parts| - 1] == "*" || parts[|parts| - 1] == "**")
  }

  // ---- where a root leads ----

  /** Lexical resolution of segments below a base: nothing and "." stay, ".." goes up, names go down. */
  function ResolveBelow(base: seq<string>, parts: seq<string>): seq<string> {
    if parts == [] then base
    else
      var before, last := ResolveBelow(base, parts[..|parts| - 1]), parts[|parts| - 1];
      if last == "" || last == "." then before
      else if last == ".." then (if before == [] then [] else before[..|before| - 1])
      else before + [last]
  }

  /** Every segment is a name of its own. */
  predicate AllNames(parts: seq<string>) {
    forall i :: 0 <= i < |parts| ==> parts[i] != "" && parts[i] != "." && parts[i] != ".."
  }

  /** Segments resolve in place, below any base, if and only if they are all names; any other list ends up shorter. */
  lemma {:induction false} ResolvesInPlace(base: seq<string>, parts: seq<string>)
    ensures |ResolveBelow(base, parts)| <= |base| + |parts|
    ensures |ResolveBelow(base, parts)| == |base| + |parts| <==> AllNames(parts)
    ensures AllNames(parts) <==> ResolveBelow(base, parts) == base + parts
  {
    if parts != [] {
      var init, last := parts[..|parts| - 1], parts[|parts| - 1];
      assert parts == init + [last];
      ResolvesInPlace(base, init);
      assert base + parts == base + init + [last];
      assert AllNames(parts) <==> AllNames(init) && last != "" && last != "." && last != "..";
    } else {
      assert base + parts == base;
    }
  }

  lemma AbsoluteStartsEmpty(value: string)
    requires value != "" && value[0] == '/'
    ensures Split(value)[0] == ""
  {
  }

  /** The wildcard, if any, is the whole last segment. */
  predicate TrailingWildcard(parts: seq<string>) {
    forall i :: 0 <= i < |parts| && '*' in parts[i] ==> i == |parts| - 1 && (parts[i] == "*" || parts[i] == "**")
  }

  /** Validation accepts a text if and only if it has no backslash, its segments resolve in place below any base,
      so that it never leaves the base, and a wildcard stands alone at its end. */
  lemma ValidRootExactly(value: string, base: seq<string>)
    ensures ValidRoot(value) <==>
              '\\' !in value && ResolveBelow(base, Split(value)) == base + Split(value)
                  && TrailingWildcard(Split(value))
    ensures ValidRoot(value) <==> '\\' !in value && AllNames(Split(value)) && TrailingWildcard(Split(value))
  {
    hide Split, ResolveBelow;
    ResolvesInPlace(base, Split(value));
    if value != "" && value[0] == '/' { AbsoluteStartsEmpty(value); }
  }

  predicate EndsWith(value: string, suffix: string) {
    |suffix| <= |value| && value[|value| - |suffix|..] == suffix
  }

  function RootWithoutWildcard(value: string): (string, Option<Wildcard>) {
    if EndsWith(value, "/**") then (value[..|value| - 3], Some(AllLevels))
    else if EndsWith(value, "/*") then (value[..|value| - 2], Some(OneLevel))
    else (value, None)
  }

  function RootParts(value: string): (parts: seq<string>)
    ensures |parts| >= 1
  {
    Split(RootWithoutWildcard(value).0)
  }

  predicate IsOneLevel(value: string) {
    RootWithoutWildcard(value).1 == Some(OneLevel)
  }

  /** Whether one scope root is contained by another. */
  predicate PathIsWithin(child: string, parent: string) {
    if child == parent then true
    else
      var (childRoot, childWildcard) := RootWithoutWildcard(child);
      var (parentRoot, parentWildcard) := RootWithoutWildcard(parent);
      var parentParts, childParts := Split(parentRoot), Split(childRoot);
      if !(|parentParts| <= |childParts| && childParts[..|parentParts|] == parentParts) then false
      else
        var remaining := childParts[|parentParts|..];
        if remaining == [] then parentWildcard != Some(OneLevel)
        else if parentWildcard == Some(OneLevel) then |remaining| == 1 && childWildcard == None
        else true
  }

  predicate AnyRootContains(child: string, parents: seq<string>) {
    exists i :: 0 <= i < |parents| && PathIsWithin(child, parents[i])
  }

  // ---- meaning: the set of concrete paths a root grants ----

  // An exact root and a "/**" root grant the root and everything below it;
  // a "/*" root grants exactly the paths one segment below.
  ghost predicate Grants(value: string, path: seq<string>) {
    var parts := RootParts(value);
    parts <= path && (IsOneLevel(value) ==> |path| == |parts| + 1)
  }

  ghost predicate GrantsSubset(child: string, parent: string) {
    forall path :: Grants(child, path) ==> Grants(parent, path)
  }

  // `child` is an exact root exactly one segment below the "/*" root `parent`.
  predicate OneBelow(child: string, parent: string) {
    && IsOneLevel(parent)
    && RootWithoutWildcard(child).1 == None
    && RootParts(parent) <= RootParts(child)
    && |RootParts(child)| == |RootParts(parent)| + 1
  }

  /** Root text plus suffix is the original text, so the parsed form determines it. */
  lemma RootForm(value: string)
    ensures RootWithoutWildcard(value).1 == None ==> Split(value) == RootParts(value)
    ensures RootWithoutWildcard(value).1 == Some(OneLevel) ==> Split(value) == RootParts(value) + ["*"]
    ensures RootWithoutWildcard(value).1 == Some(AllLevels) ==> Split(value) == RootParts(value) + ["**"]
  {
    hide Split, EndsWith;
    if EndsWith(value, "/**") {
      AllLevelsForm(value);
    } else if EndsWith(value, "/*") {
      OneLevelForm(value);
    }
  }

  lemma AllLevelsForm(value: string)
    requires EndsWith(value, "/**")
    ensures Split(value) == Split(value[..|value| - 3]) + ["**"]
  {
    hide Split;
    assert "/" + "**" == "/**";
    SuffixForm(value, value[..|value| - 3], "**");
  }

  lemma OneLevelForm(value: string)
    requires EndsWith(value, "/*")
    ensures Split(value) == Split(value[..|value| - 2]) + ["*"]
  {
    hide Split;
    assert "/" + "*" == "/*";
    SuffixForm(value, value[..|value| - 2], "*");
  }

  lemma SuffixForm(value: string, root: string, name: string)
    requires EndsWith(value, "/" + name) && root == value[..|value| - |name| - 1] && '/' !in name
    ensures Split(value) == Split(root) + [name]
  {
    hide Split;
    assert value == root + "/" + name;
    SplitAt(root, name);
    SplitSegment(name);
  }

  lemma ParsedFormInjective(a: string, b: string)
    requires RootParts(a) == RootParts(b)
    requires RootWithoutWildcard(a).1 == RootWithoutWildcard(b).1
    ensures a == b
  {
    RootForm(a);
    RootForm(b);
    SplitInjective(a, b);
  }

  /** Containment, said on parsed segments. */
  lemma WithinParsed(child: string, parent: string)
    ensures !IsOneLevel(parent) ==> (PathIsWithin(child, parent) <==> RootParts(parent) <= RootParts(child))
    ensures IsOneLevel(parent) ==> (PathIsWithin(child, parent) <==> child == parent || OneBelow(child, parent))
  {
    var p, c := RootParts(parent), RootParts(child);
    if |p| <= |c| {
      assert c[..|p|] == p <==> p <= c;
    }
  }

  lemma PrefixCases(p: seq<string>, base: seq<string>, name: string, tail: seq<string>)
    requires p <= base + [name] + tail
    ensures p <= base || (|p| > |base| && p[|base|] == name)
  {
    var c := base + [name] + tail;
    assert c[|base|] == name && c[..|base|] == base;
    if |p| <= |base| {
      assert p == c[..|p|] == base[..|p|];
    }
  }

  /** A prefix of two extensions that differ in their last segment is a prefix of the stem. */
  lemma CommonPrefix(p: seq<string>, c: seq<string>, x: string, y: string)
    requires p <= c + [x] && p <= c + [y] && x != y
    ensures p <= c
  {
    PrefixCases(p, c, x, []);
    PrefixCases(p, c, y, []);
    assert c + [x] + [] == c + [x] && c + [y] + [] == c + [y];
  }

  lemma GrantsExtension(value: string, x: string)
    ensures Grants(value, RootParts(value) + [x])
  {
  }

  lemma SubsetOfOpenRoot(child: string, parent: string)
    requires !IsOneLevel(parent)
    ensures GrantsSubset(child, parent) <==> RootParts(parent) <= RootParts(child)
  {
    var p, c := RootParts(parent), RootParts(child);
    if GrantsSubset(child, parent) {
      GrantsExtension(child, "a");
      GrantsExtension(child, "b");
      assert "a"[0] != "b"[0];
      CommonPrefix(p, c, "a", "b");
    }
  }

  lemma SubsetOfOneLevelRoot(child: string, parent: string)
    requires IsOneLevel(parent) && GrantsSubset(child, parent)
    ensures child == parent
  {
    var p, c := RootParts(parent), RootParts(child);
    GrantsExtension(child, "a");
    assert p <= c + ["a"] && |c + ["a"]| == |p| + 1;
    assert p == (c + ["a"])[..|p|] == c;
    assert IsOneLevel(child) || Grants(child, c);
    ParsedFormInjective(child, parent);
  }

  // Containment decides inclusion of the granted path sets, except that a "/*"
  // parent also accepts an exact root one level down, which grants strictly more.
  lemma WithinMeansSubset(child: string, parent: string)
    ensures PathIsWithin(child, parent) <==> GrantsSubset(child, parent) || OneBelow(child, parent)
    ensures OneBelow(child, parent) ==> !GrantsSubset(child, parent)
    ensures IsOneLevel(parent) ==> (PathIsWithin(child, parent) <==> child == parent || OneBelow(child, parent))
    ensures !IsOneLevel(parent) ==> (PathIsWithin(child, parent) <==> GrantsSubset(child, parent))
  {
    WithinParsed(child, parent);
    if IsOneLevel(parent) {
      if GrantsSubset(child, parent) { SubsetOfOneLevelRoot(child, parent); }
    } else {
      SubsetOfOpenRoot(child, parent);
    }
  }

  predicate BareWildcard(name: string) {
    name == "*" || name == "**"
  }

  lemma BareWildcardForm(name: string)
    requires BareWildcard(name)
    ensures RootWithoutWildcard(name) == (name, None)
  {
    hide Split;
    assert |name| >= 2 ==> name[|name| - 2..][0] == name[|name| - 2];
  }

  lemma BareWildcardParts(name: string)
    requires BareWildcard(name)
    ensures RootWithoutWildcard(name) == (name, None) && RootParts(name) == Split(name) == [name]
    ensures ValidRoot(name)
  {
    hide Split, RootWithoutWildcard;
    BareWildcardForm(name);
    SplitSegment(name);
    assert name[0] == '*';
    assert SegmentOk(name);
  }

  /** A bare wildcard is an ordinary name: it is accepted but contains only itself. */
  lemma BareWildcardContainsOnlyItself(child: string, name: string)
    requires ValidRoot(child) && BareWildcard(name)
    ensures ValidRoot(name)
    ensures PathIsWithin(child, name) <==> child == name
  {
    BareWildcardParts(name);
    WithinParsed(child, name);
    if [name] <= RootParts(child) {
      RootForm(child);
      assert Split(child)[0] == RootParts(child)[0] == name;
      assert name[0] == '*' && '*' in Split(child)[0];
      assert |Split(child)| == 1;
      SplitInjective(child, name);
    }
  }

  // ---- composition along a chain of roots ----

  lemma WithinTransitive(child: string, middle: string, parent: string)
    requires !IsOneLevel(parent)
    requires PathIsWithin(child, middle) && PathIsWithin(middle, parent)
    ensures PathIsWithin(child, parent)
  {
    WithinParsed(child, middle);
    WithinParsed(middle, parent);
    WithinParsed(child, parent);
    var p, m, c := RootParts(parent), RootParts(middle), RootParts(child);
    assert p <= m && m <= c;
  }

  predicate RootsWithin(children: seq<string>, parents: seq<string>) {
    forall i :: 0 <= i < |children| ==> AnyRootContains(children[i], parents)
  }

  predicate ValidRoots(roots: seq<string>) {
    forall i :: 0 <= i < |roots| ==> ValidRoot(roots[i])
  }

  // Every "/*" root of the list lies under another root of the list that is not "/*".
  predicate OneLevelCovered(parents: seq<string>) {
    forall i :: 0 <= i < |parents| && IsOneLevel(parents[i]) ==> CoveredBy(parents[i], parents)
  }

  predicate CoveredBy(root: string, parents: seq<string>) {
    exists k :: 0 <= k < |parents| && !IsOneLevel(parents[k]) && RootParts(parents[k]) <= RootParts(root)
  }

  lemma AnyRootTransitive(child: string, middle: string, parents: seq<string>)
    requires OneLevelCovered(parents)
    requires AnyRootContains(middle, parents) && PathIsWithin(child, middle)
    ensures AnyRootContains(child, parents)
  {
    var p :| 0 <= p < |parents| && PathIsWithin(middle, parents[p]);
    var q := p;
    if IsOneLevel(parents[p]) {
      assert CoveredBy(parents[p], parents);
      q :| 0 <= q < |parents| && !IsOneLevel(parents[q]) && RootParts(parents[q]) <= RootParts(parents[p]);
      WithinParsed(middle, parents[p]);
      WithinParsed(middle, parents[q]);
    }
    WithinTransitive(child, middle, parents[q]);
  }

  lemma RootsWithinTransitive(children: seq<string>, middle: seq<string>, parents: seq<string>)
    requires OneLevelCovered(parents)
    requires RootsWithin(middle, parents) && RootsWithin(children, middle)
    ensures RootsWithin(children, parents)
  {
    forall i | 0 <= i < |children| ensures AnyRootContains(children[i], parents) {
      assert AnyRootContains(children[i], middle);
      var m :| 0 <= m < |middle| && PathIsWithin(children[i], middle[m]);
      assert AnyRootContains(middle[m], parents);
      AnyRootTransitive(children[i], middle[m], parents);
    }
  }

  // ---- the condition is exact: an uncovered `/*` root breaks some chain ----

  function Letters(n: nat): (s: string)
    ensures |s| == n
    ensures forall i :: 0 <= i < n ==> s[i] == 'a'
  {
    seq(n, i => 'a')
  }

  function TotalLength(roots: seq<string>): (n: nat)
    ensures forall i :: 0 <= i < |roots| ==> |roots[i]| <= n
  {
    if roots == [] then 0 else
      var n := |roots[0]| + TotalLength(roots[1..]);
      assert forall i :: 0 < i < |roots| ==> roots[i] == roots[1..][i - 1];
      n
  }

  lemma {:induction false} SegmentLength(s: string, i: nat)
    requires i < |Split(s)|
    ensures |Split(s)[i]| <= |s|
    ensures forall k :: 0 <= k < |Split(s)[i]| ==> Split(s)[i][k] in s && Split(s)[i][k] != '/'
  {
    if s != "" {
      var rest := Split(s[1..]);
      if s[0] == '/' {
        if i > 0 { SegmentLength(s[1..], i - 1); }
      } else if i == 0 {
        SegmentLength(s[1..], 0);
      } else {
        SegmentLength(s[1..], i);
      }
    }
  }

  lemma PlainEnding(value: string)
    requires |value| >= 3 && value[|value| - 1] == 'a'
    ensures RootWithoutWildcard(value) == (value, None)
  {
    assert value[|value| - 3..][2] == value[|value| - 1];
    assert value[|value| - 2..][1] == value[|value| - 1];
  }

  /** Extending a wildcard-free valid root by a plain segment. */
  lemma ExtendRoot(root: string, name: string)
    requires ValidRoot(root) && '*' !in root
    requires name == Letters(|name|) && name != ""
    ensures ValidRoot(root + "/" + name) && '*' !in root + "/" + name
    ensures RootWithoutWildcard(root + "/" + name).1 == None
    ensures RootParts(root + "/" + name) == Split(root) + [name]
  {
    var value := root + "/" + name;
    SplitAt(root, name);
    SplitSegment(name);
    PlainEnding(value);
    var parts := Split(value);
    assert parts == Split(root) + [name];
    assert parts[|parts| - 1] == name
        && SegmentOk(name) by { assert name[0] == 'a'; assert "."[0] == '.' && ".."[0] == '.'; }
    forall i | 0 <= i < |parts| - 1 ensures '*' !in parts[i] && SegmentOk(parts[i]) {
      assert parts[i] == Split(root)[i];
      SegmentLength(root, i);
    }
    assert value[0] == root[0] by { assert Split("") == [""]; }
  }

  lemma OneLevelRootPlain(value: string)
    requires ValidRoot(value) && IsOneLevel(value)
    ensures var root := RootWithoutWildcard(value).0;
            ValidRoot(root) && '*' !in root && root != "" && root[0] == value[0]
  {
    var root := RootWithoutWildcard(value).0;
    RootForm(value);
    var parts := Split(root);
    assert forall i :: 0 <= i < |parts| ==> parts[i] == Split(value)[i];
    assert root != "" by { assert Split("") == [""]; }
    assert value[0] == root[0];
    NoStar(root);
  }

  lemma {:induction false} CharsOfSegments(s: string, k: nat) returns (i: nat)
    requires k < |s| && s[k] != '/'
    ensures i < |Split(s)| && s[k] in Split(s)[i]
  {
    var rest := Split(s[1..]);
    if k == 0 {
      i := 0;
      assert Split(s)[0][0] == s[0];
    } else {
      var j := CharsOfSegments(s[1..], k - 1);
      assert s[1..][k - 1] == s[k];
      if s[0] == '/' {
        i := j + 1;
        assert Split(s)[i] == rest[j];
      } else {
        i := j;
        assert Split(s)[i] == if j == 0 then [s[0]] + rest[0] else rest[j];
      }
    }
  }

  lemma NoStar(s: string)
    requires forall i :: 0 <= i < |Split(s)| ==> '*' !in Split(s)[i]
    ensures '*' !in s
  {
    forall k | 0 <= k < |s| ensures s[k] != '*' {
      if s[k] != '/' {
        var i := CharsOfSegments(s, k);
      }
    }
  }

  /** `value` starts like `origin` and ends in a letter. */
  predicate SameEnds(value: string, origin: string) {
    value != "" && origin != "" && value[0] == origin[0] && value[|value| - 1] == 'a'
  }

  // The broken chain: a fresh directory below the uncovered "/*" root, and a path below it.
  lemma UncoveredRootBreaks(parents: seq<string>, i: nat) returns (middle: string, child: string)
    requires ValidRoots(parents) && i < |parents|
    requires IsOneLevel(parents[i]) && !CoveredBy(parents[i], parents)
    ensures ValidRoot(middle) && ValidRoot(child)
    ensures AnyRootContains(middle, parents) && PathIsWithin(child, middle)
    ensures SameEnds(middle, parents[i]) && SameEnds(child, parents[i])
    ensures !AnyRootContains(child, parents)
  {
    var root := RootWithoutWildcard(parents[i]).0;
    OneLevelRootPlain(parents[i]);
    var name := Letters(TotalLength(parents) + 1);
    middle := root + "/" + name;
    ExtendRoot(root, name);
    child := middle + "/" + Letters(1);
    ExtendRoot(middle, Letters(1));
    var base := Split(root);
    assert RootParts(parents[i]) == base;
    WithinParsed(middle, parents[i]);
    assert OneBelow(middle, parents[i]);
    assert PathIsWithin(middle, parents[i]);
    RootForm(middle);
    WithinParsed(child, middle);
    assert RootParts(child) == base + [name] + [Letters(1)];
    assert RootParts(middle) <= RootParts(child);
    forall k | 0 <= k < |parents| ensures !PathIsWithin(child, parents[k]) {
      NotReached(child, base, name, parents, k);
    }
  }

  lemma NotReached(child: string, base: seq<string>, name: string, parents: seq<string>, k: nat)
    requires k < |parents| && |name| > TotalLength(parents)
    requires RootWithoutWildcard(child).1 == None && |child| >= |name|
    requires RootParts(child) == base + [name] + [Letters(1)]
    requires !IsOneLevel(parents[k]) ==> !(RootParts(parents[k]) <= base)
    ensures !PathIsWithin(child, parents[k])
  {
    hide Split;
    var p, c := RootParts(parents[k]), RootParts(child);
    WithinParsed(child, parents[k]);
    if p <= c {
      PrefixCases(p, base, name, [Letters(1)]);
      if |p| > |base| {
        SegmentLength(RootWithoutWildcard(parents[k]).0, |base|);
      }
    }
  }
}
