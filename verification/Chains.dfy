/** Detection of test chains: the groups of tests that must run in order because one refers to a
    variable another extracts. */
module Chains {
  import opened Tests

  // ----- The dependency graph

  /** Index of the last test that extracts `v`, or -1. */
  function LastExtractor(tests: seq<Test>, v: string): (j: int)
    ensures -1 <= j < |tests|
    ensures j >= 0 ==> Extracts(tests[j], v)
    ensures forall k :: j < k < |tests| ==> !Extracts(tests[k], v)
  {
    if tests == [] then -1
    else if Extracts(tests[|tests| - 1], v) then |tests| - 1
    else LastExtractor(tests[..|tests| - 1], v)
  }

  /** Test `j` is another test and the last to extract one of the variables `vs`. */
  predicate WaitsVia(tests: seq<Test>, i: nat, vs: set<string>, j: nat) {
    j != i && exists v :: v in vs && LastExtractor(tests, v) == j
  }

  /** The tests that test `i` waits for because of the variables `vs`. */
  function DepsVia(tests: seq<Test>, i: nat, vs: set<string>): set<nat> {
    set j: nat | j < |tests| && WaitsVia(tests, i, vs, j)
  }

  function Deps(tests: seq<Test>, i: nat): set<nat>
    requires i < |tests|
  {
    DepsVia(tests, i, References(tests[i]))
  }

  type Graph = map<nat, set<nat>>

  /** The entries of the first `n` tests; a test that waits for none has no entry. */
  function DepsBelow(tests: seq<Test>, n: nat): Graph
    requires n <= |tests|
  {
    if n == 0 then map[] else WithEntry(DepsBelow(tests, n - 1), n - 1, Deps(tests, n - 1))
  }

  function WithEntry(g: Graph, i: nat, waitsFor: set<nat>): Graph {
    if |waitsFor| == 0 then g else g[i := waitsFor]
  }

  lemma {:induction false} Entry(tests: seq<Test>, n: nat, i: nat)
    requires n <= |tests|
    ensures i in DepsBelow(tests, n) <==> i < n && |Deps(tests, i)| > 0
    ensures i in DepsBelow(tests, n) ==> DepsBelow(tests, n)[i] == Deps(tests, i)
    decreases n
  {
    if n > 0 {
      Entry(tests, n - 1, i);
      WithEntryAt(DepsBelow(tests, n - 1), n - 1, Deps(tests, n - 1), i);
    }
  }

  lemma {:induction false} WithEntryAt(g: Graph, i: nat, waitsFor: set<nat>, k: nat)
    ensures k in WithEntry(g, i, waitsFor) <==> k in g || (k == i && |waitsFor| > 0)
    ensures k in WithEntry(g, i, waitsFor) ==>
            WithEntry(g, i, waitsFor)[k] == if k == i && |waitsFor| > 0 then waitsFor else g[k]
  {}

  function DepGraph(tests: seq<Test>): Graph {
    DepsBelow(tests, |tests|)
  }

  predicate Edge(g: Graph, a: nat, b: nat) {
    (a in g && b in g[a]) || (b in g && a in g[b])
  }

  ghost predicate Path(g: Graph, p: seq<nat>) {
    p != [] && forall k :: 0 < k < |p| ==> Edge(g, p[k - 1], p[k])
  }

  /** Linked by dependencies, in either direction. */
  ghost predicate Connected(g: Graph, a: nat, b: nat) {
    exists p :: Path(g, p) && p[0] == a && p[|p| - 1] == b
  }

  /** All nodes of the graph are test indices. */
  predicate Bounded(g: Graph, n: nat) {
    forall i :: i in g ==> i < n && |g[i]| > 0 && forall j :: j in g[i] ==> j < n && j != i
  }

  ghost function Component(g: Graph, n: nat, a: nat): set<nat> {
    set x: nat | x < n && Connected(g, a, x)
  }

  lemma {:induction false} ConnectedSelf(g: Graph, a: nat)
    ensures Connected(g, a, a)
  {
    assert Path(g, [a]);
  }

  lemma {:induction false} ConnectedStep(g: Graph, a: nat, b: nat, c: nat)
    requires Connected(g, a, b) && Edge(g, b, c)
    ensures Connected(g, a, c)
  {
    var p :| Path(g, p) && p[0] == a && p[|p| - 1] == b;
    assert Path(g, p + [c]);
  }

  lemma {:induction false} ConnectedAlong(g: Graph, a: nat, p: seq<nat>)
    requires Path(g, p) && Connected(g, a, p[0])
    ensures Connected(g, a, p[|p| - 1])
  {
    if |p| > 1 {
      assert Edge(g, p[0], p[1]);
      ConnectedStep(g, a, p[0], p[1]);
      assert forall k :: 0 < k < |p[1..]| ==> Edge(g, p[k], p[k + 1]);
      ConnectedAlong(g, a, p[1..]);
    }
  }

  lemma {:induction false} ConnectedBack(g: Graph, p: seq<nat>)
    requires Path(g, p)
    ensures Connected(g, p[|p| - 1], p[0])
  {
    var n := |p| - 1;
    ConnectedSelf(g, p[n]);
    if n > 0 {
      ConnectedBack(g, p[..n]);
      assert Edge(g, p[n - 1], p[n]);
      ConnectedStep(g, p[n], p[n], p[n - 1]);
      var q :| Path(g, q) && q[0] == p[n - 1] && q[|q| - 1] == p[0];
      ConnectedAlong(g, p[n], q);
    }
  }

  lemma {:induction false} ConnectedMeet(g: Graph, a: nat, b: nat, x: nat)
    requires Connected(g, a, x) && Connected(g, b, x)
    ensures Connected(g, a, b)
  {
    var p :| Path(g, p) && p[0] == b && p[|p| - 1] == x;
    ConnectedBack(g, p);
    var q :| Path(g, q) && q[0] == x && q[|q| - 1] == b;
    ConnectedAlong(g, a, q);
  }

  /** A set closed under edges that holds the start of a path holds its end. */
  lemma {:induction false} ClosedAlong(g: Graph, s: set<nat>, p: seq<nat>)
    requires Path(g, p) && p[0] in s
    requires forall x: nat, y: nat :: x in s && Edge(g, x, y) ==> y in s
    ensures p[|p| - 1] in s
  {
    if |p| > 1 {
      assert Edge(g, p[0], p[1]);
      assert forall k :: 0 < k < |p[1..]| ==> Edge(g, p[k], p[k + 1]);
      ClosedAlong(g, s, p[1..]);
    }
  }

  // ----- Building the graph

  /** `extractors` maps each variable to the last of the tests that extracts it. */
  ghost predicate Known(tests: seq<Test>, extractors: map<string, nat>) {
    && (forall v :: v in extractors <==> LastExtractor(tests, v) >= 0)
    && (forall v :: v in extractors ==> extractors[v] == LastExtractor(tests, v))
  }

  lemma {:induction false} OneMoreTest(tests: seq<Test>, t: Test, v: string)
    ensures LastExtractor(tests + [t], v) == if Extracts(t, v) then |tests| else LastExtractor(tests, v)
  {
    assert (tests + [t])[..|tests|] == tests;
  }

  lemma {:induction false} KnownMore(tests: seq<Test>, t: Test, extractors: map<string, nat>, more: map<string, nat>)
    requires Known(tests, extractors)
    requires forall v :: v in more <==> v in extractors || Extracts(t, v)
    requires forall v :: v in more ==> more[v] == if Extracts(t, v) then |tests| else extractors[v]
    ensures Known(tests + [t], more)
  {
    forall v ensures LastExtractor(tests + [t], v) == if Extracts(t, v) then |tests| else LastExtractor(tests, v) {
      OneMoreTest(tests, t, v);
    }
  }

  method FindExtractors(tests: seq<Test>) returns (extractors: map<string, nat>)
    ensures forall v :: v in extractors <==> LastExtractor(tests, v) >= 0
    ensures forall v :: v in extractors ==> extractors[v] == LastExtractor(tests, v)
  {
    extractors := map[];
    for i := 0 to |tests|
      invariant Known(tests[..i], extractors)
    {
      extractors := AddExtractors(tests[..i], tests[i], extractors, i);
      assert tests[..i] + [tests[i]] == tests[..i + 1];
    }
    assert tests[..|tests|] == tests;
  }

  /** The body of the source's loop. */
  method AddExtractors(ghost tests: seq<Test>, t: Test, extractors: map<string, nat>, i: nat)
    returns (more: map<string, nat>)
    requires Known(tests, extractors) && i == |tests|
    ensures Known(tests + [t], more)
  {
    more := extractors;
    if t.json != "" {
      more := more[t.json := i];
    }
    if t.extract != "" {
      more := more[t.extract := i];
    }
    KnownMore(tests, t, extractors, more);
  }

  method FindDeps(tests: seq<Test>, extractors: map<string, nat>) returns (deps: Graph)
    requires forall v :: v in extractors <==> LastExtractor(tests, v) >= 0
    requires forall v :: v in extractors ==> extractors[v] == LastExtractor(tests, v)
    ensures deps == DepGraph(tests)
  {
    deps := map[];
    for i := 0 to |tests|
      invariant deps == DepsBelow(tests, i)
    {
      deps := AddDepsOf(tests, extractors, i, deps);
    }
  }

  method AddDepsOf(tests: seq<Test>, extractors: map<string, nat>, i: nat, deps: Graph) returns (more: Graph)
    requires i < |tests|
    requires forall v :: v in extractors <==> LastExtractor(tests, v) >= 0
    requires forall v :: v in extractors ==> extractors[v] == LastExtractor(tests, v)
    requires deps == DepsBelow(tests, i)
    ensures more == DepsBelow(tests, i + 1)
  {
    var waitsFor := FindDepsOf(tests, extractors, i);
    more := deps;
    if |waitsFor| != 0 {
      more := deps[i := waitsFor];
    }
  }

  /** The inner loop, over the variables of one test in any order. */
  method FindDepsOf(tests: seq<Test>, extractors: map<string, nat>, i: nat) returns (waitsFor: set<nat>)
    requires i < |tests|
    requires forall v :: v in extractors <==> LastExtractor(tests, v) >= 0
    requires forall v :: v in extractors ==> extractors[v] == LastExtractor(tests, v)
    ensures waitsFor == Deps(tests, i)
  {
    waitsFor := {};
    var todo := FindVarReferences(tests[i]);
    ghost var done: set<string> := {};
    while todo != {}
      invariant todo + done == References(tests[i]) && waitsFor == DepsVia(tests, i, done)
      decreases todo
    {
      var v :| v in todo;
      DepsViaOneMore(tests, i, done, v);
      todo, done := todo - {v}, done + {v};
      if v in extractors && extractors[v] != i {
        waitsFor := waitsFor + {extractors[v]};
      }
    }
    assert done == References(tests[i]);
  }

  function LastOther(tests: seq<Test>, i: nat, v: string): set<nat> {
    var j := LastExtractor(tests, v);
    if j == -1 || j == i then {} else {j as nat}
  }

  lemma {:induction false} DepsViaOneMore(tests: seq<Test>, i: nat, vs: set<string>, v: string)
    ensures DepsVia(tests, i, vs + {v}) ==
            DepsVia(tests, i, vs) + LastOther(tests, i, v)
  {
    var more := LastOther(tests, i, v);
    forall j: nat ensures WaitsVia(tests, i, vs + {v}, j) <==> WaitsVia(tests, i, vs, j) || j in more {
      if u :| u in vs && LastExtractor(tests, u) == j { assert u in vs + {v}; }
      assert v in vs + {v};
    }
  }

  lemma {:induction false} DepGraphBounded(tests: seq<Test>)
    ensures Bounded(DepGraph(tests), |tests|)
  {
    forall i: nat | i in DepGraph(tests)
      ensures i < |tests| && |DepGraph(tests)[i]| > 0 && forall j :: j in DepGraph(tests)[i] ==> j < |tests| && j != i
    {
      Entry(tests, |tests|, i);
    }
  }

  // ----- One component, breadth first

  ghost function Below(n: nat): (s: set<nat>)
    ensures forall x: nat :: x in s <==> x < n
  {
    if n == 0 then {} else Below(n - 1) + {n - 1}
  }

  method Explore(deps: Graph, ghost n: nat, start: nat) returns (group: set<nat>)
    requires Bounded(deps, n) && start < n
    ensures group == Component(deps, n, start)
  {
    group := {};
    var queue: seq<nat> := [start];
    ghost var all := Below(n);
    ConnectedSelf(deps, start);
    while queue != []
      invariant group <= all
      invariant forall x: nat :: x in group ==> x < n && Connected(deps, start, x)
      invariant forall x: nat :: x in queue ==> x < n && Connected(deps, start, x)
      invariant forall x: nat, y: nat :: x in group && Edge(deps, x, y) ==> y in group || y in queue
      invariant start in group || start in queue
      decreases all - group, |queue|
    {
      var cur := queue[0];
      ghost var before := queue;
      assert cur in before && forall y :: y in before <==> y == cur || y in before[1..];
      queue := queue[1..];
      if cur in group {
        continue;
      }
      group := group + {cur};
      var more := Neighbours(deps, n, cur, group);
      forall y: nat | y in more ensures y < n && Connected(deps, start, y) {
        ConnectedStep(deps, start, cur, y);
      }
      queue := queue + more;
    }
    forall x: nat | x < n && Connected(deps, start, x) ensures x in group {
      var p :| Path(deps, p) && p[0] == start && p[|p| - 1] == x;
      ClosedAlong(deps, group, p);
    }
  }

  /** The tests that `cur` waits for, then those that wait for it; the map is iterated in any order. */
  method Neighbours(deps: Graph, ghost n: nat, cur: nat, group: set<nat>) returns (more: seq<nat>)
    requires Bounded(deps, n)
    ensures forall y: nat :: y in more <==> Edge(deps, cur, y) && y !in group
    ensures forall y :: y in more ==> y < n
  {
    more := [];
    var todo := if cur in deps then deps[cur] else {};
    while todo != {}
      invariant todo <= (if cur in deps then deps[cur] else {})
      invariant forall y :: y in more <==> cur in deps && y in deps[cur] - todo && y !in group
      decreases todo
    {
      var dep :| dep in todo;
      todo := todo - {dep};
      if dep !in group {
        more := more + [dep];
      }
    }
    var keys := deps.Keys;
    while keys != {}
      invariant keys <= deps.Keys
      invariant forall y :: y in more <==>
        (y !in group && ((cur in deps && y in deps[cur]) || (y in deps.Keys - keys && cur in deps[y])))
      decreases keys
    {
      var j :| j in keys;
      keys := keys - {j};
      if cur in deps[j] && j !in group {
        more := more + [j];
      }
    }
  }

  // ----- The group in ascending order

  predicate Ascending(s: seq<nat>) {
    forall i, j :: 0 <= i < j < |s| ==> s[i] < s[j]
  }

  predicate Distinct(s: seq<nat>) {
    forall i, j :: 0 <= i < j < |s| ==> s[i] != s[j]
  }

  function Elements(s: seq<nat>): set<nat> {
    set x | x in s
  }

  method SortIndices(indices: array<nat>)
    requires Distinct(indices[..])
    modifies indices
    ensures Ascending(indices[..]) && Elements(indices[..]) == old(Elements(indices[..]))
  {
    ghost var was := Elements(indices[..]);
    for a := 0 to indices.Length
      invariant Distinct(indices[..]) && Elements(indices[..]) == was
      invariant forall i, j :: 0 <= i < a && i < j < indices.Length ==> indices[i] < indices[j]
    {
      for b := a + 1 to indices.Length
        invariant Distinct(indices[..]) && Elements(indices[..]) == was
        invariant forall i, j :: 0 <= i < a && i < j < indices.Length ==> indices[i] < indices[j]
        invariant forall j :: a < j < b ==> indices[a] < indices[j]
      {
        if indices[a] > indices[b] {
          ghost var before := indices[..];
          indices[a], indices[b] := indices[b], indices[a];
          SwapKeeps(before, indices[..], a, b);
        }
      }
    }
  }

  lemma {:induction false} SwapKeeps(s: seq<nat>, t: seq<nat>, a: nat, b: nat)
    requires a < b < |s| && t == s[a := s[b]][b := s[a]]
    ensures Elements(t) == Elements(s)
    ensures Distinct(s) ==> Distinct(t)
  {
    forall x ensures x in s ==> x in t {
      if x in s {
        var k :| 0 <= k < |s| && s[k] == x;
        assert t[if k == a then b else if k == b then a else k] == x;
      }
    }
  }

  method ToAscending(group: set<nat>) returns (r: seq<nat>)
    ensures Ascending(r) && Elements(r) == group
  {
    var indices: seq<nat> := [];
    var todo := group;
    while todo != {}
      invariant todo <= group && Elements(indices) == group - todo && Distinct(indices)
      decreases todo
    {
      var idx :| idx in todo;
      assert Elements(indices + [idx]) == Elements(indices) + {idx};
      assert idx !in Elements(indices);
      todo := todo - {idx};
      indices := indices + [idx];
    }
    var a := new nat[|indices|](i requires 0 <= i < |indices| => indices[i]);
    assert a[..] == indices;
    SortIndices(a);
    r := a[..];
  }

  // ----- All groups

  /** `group` is a whole component of the graph with at least two tests. */
  ghost predicate IsGroup(g: Graph, n: nat, group: seq<nat>) {
    && Ascending(group) && |group| >= 2
    && forall x: nat :: x in group <==> x < n && Connected(g, group[0], x)
  }

  /** The groups are whole components in ascending order, and no test is in two of them. */
  ghost predicate Disjoint(g: Graph, n: nat, groups: seq<seq<nat>>) {
    && (forall k :: 0 <= k < |groups| ==> IsGroup(g, n, groups[k]))
    && (forall k, l, x :: 0 <= k < l < |groups| && x in groups[k] ==> x !in groups[l])
  }

  predicate InSome(groups: seq<seq<nat>>, x: nat) {
    exists k :: 0 <= k < |groups| && x in groups[k]
  }

  /** `group` has a waiting test below `i`. */
  predicate WaitsBelow(g: Graph, group: seq<nat>, i: nat) {
    exists x :: x in group && x in g && x < i
  }

  /** Groups come in the order of their first waiting test. */
  ghost predicate InOrder(g: Graph, groups: seq<seq<nat>>) {
    forall k, l, y :: 0 <= k < l < |groups| && y in groups[l] && y in g ==> WaitsBelow(g, groups[k], y)
  }

  /** The result is determined: exactly the components with an edge, each in ascending order, in the
      order of their first waiting test. */
  method DetectChains(tests: seq<Test>) returns (groups: seq<seq<nat>>)
    ensures Grouping(tests, groups)
    ensures Disjoint(DepGraph(tests), |tests|, groups)
    ensures forall a: nat, b: nat :: Edge(DepGraph(tests), a, b) ==> InSome(groups, a)
    ensures InOrder(DepGraph(tests), groups)
  {
    var extractors := FindExtractors(tests);
    var deps := FindDeps(tests, extractors);
    DepGraphBounded(tests);
    groups := FindGroups(deps, |tests|);
    GroupsAreGrouping(tests, groups);
  }

  method FindGroups(deps: Graph, n: nat) returns (groups: seq<seq<nat>>)
    requires Bounded(deps, n)
    ensures Disjoint(deps, n, groups)
    ensures forall a: nat, b: nat :: Edge(deps, a, b) ==> InSome(groups, a)
    ensures InOrder(deps, groups)
  {
    var visited: set<nat> := {};
    groups := [];
    FoundNothing(deps, n);
    for i := 0 to n
      invariant Found(deps, n, groups, visited, i)
    {
      NothingNew(deps, n, groups, visited, i);
      if i in visited {
        continue;
      }
      if i !in deps {
        continue;
      }
      var group := Explore(deps, n, i);
      GroupHasTwo(deps, n, i, group);
      if |group| > 1 {
        var indices := ToAscending(group);
        NewGroup(deps, n, groups, visited, i, group, indices);
        groups := groups + [indices];
      }
      visited := visited + group;
    }
    EdgesCovered(deps, n, groups, visited);
  }

  /** After the tests below `i`: the groups make up what is visited, which holds every waiting test. */
  ghost predicate Found(g: Graph, n: nat, groups: seq<seq<nat>>, visited: set<nat>, i: nat) {
    && Disjoint(g, n, groups) && InOrder(g, groups)
    && (forall x :: x in visited <==> InSome(groups, x))
    && (forall x :: x in g && x < i ==> x in visited)
    && (forall k :: 0 <= k < |groups| ==> WaitsBelow(g, groups[k], i))
  }

  lemma {:induction false} FoundNothing(g: Graph, n: nat)
    ensures Found(g, n, [], {}, 0)
  {}

  lemma {:induction false} NothingNew(g: Graph, n: nat, groups: seq<seq<nat>>, visited: set<nat>, i: nat)
    requires Found(g, n, groups, visited, i)
    ensures i in visited || i !in g ==> Found(g, n, groups, visited, i + 1)
  {
    forall k | 0 <= k < |groups| ensures WaitsBelow(g, groups[k], i + 1) {
      WaitsBelowMore(g, groups[k], i, i + 1);
    }
  }

  lemma {:induction false} GroupHasTwo(g: Graph, n: nat, i: nat, group: set<nat>)
    requires Bounded(g, n) && i in g && group == Component(g, n, i)
    ensures |group| > 1
  {
    assert g[i] != {};
    var j :| j in g[i];
    ConnectedSelf(g, i);
    ConnectedStep(g, i, i, j);
    assert {i, j} <= group;
    SubsetSize({i, j}, group);
  }

  lemma {:induction false} SubsetSize(a: set<nat>, b: set<nat>)
    requires a <= b
    ensures |a| <= |b|
  {
    if a != {} {
      var x :| x in a;
      SubsetSize(a - {x}, b - {x});
    }
  }

  lemma {:induction false} NewGroup(g: Graph, n: nat, groups: seq<seq<nat>>, visited: set<nat>, i: nat,
                                    group: set<nat>, indices: seq<nat>)
    requires Bounded(g, n) && Found(g, n, groups, visited, i) && i in g && i !in visited
    requires group == Component(g, n, i) && |group| > 1
    requires Ascending(indices) && Elements(indices) == group
    ensures Found(g, n, groups + [indices], visited + group, i + 1)
  {
    assert forall x :: x in indices <==> x in Elements(indices);
    WholeComponent(g, n, i, group, indices);
    NewGroupDisjoint(g, n, groups, i, group);
    assert forall x :: x in indices ==> !InSome(groups, x);
    ConnectedSelf(g, i);
    AddGroup(g, n, groups, indices);
    AddInOrder(g, groups, i, indices);
    AddWaiting(g, groups, i, indices);
    forall x ensures x in visited + group <==> InSome(groups + [indices], x) {
      InSomeMore(groups, indices, x);
    }
  }

  lemma {:induction false} NewGroupDisjoint(g: Graph, n: nat, groups: seq<seq<nat>>, i: nat, group: set<nat>)
    requires Bounded(g, n) && Disjoint(g, n, groups) && i < n && !InSome(groups, i)
    requires group == Component(g, n, i)
    ensures forall x :: x in group ==> !InSome(groups, x)
  {
    forall x | x in group ensures !InSome(groups, x) {
      if InSome(groups, x) {
        var k :| 0 <= k < |groups| && x in groups[k];
        ConnectedMeet(g, groups[k][0], i, x);
      }
    }
  }

  lemma {:induction false} InSomeMore(groups: seq<seq<nat>>, more: seq<nat>, x: nat)
    ensures InSome(groups + [more], x) <==> InSome(groups, x) || x in more
  {
    var all := groups + [more];
    if InSome(groups, x) {
      var k :| 0 <= k < |groups| && x in groups[k];
      assert x in all[k];
    }
    if x in more { assert x in all[|groups|]; }
  }

  lemma {:induction false} AddGroup(g: Graph, n: nat, groups: seq<seq<nat>>, indices: seq<nat>)
    requires Disjoint(g, n, groups) && IsGroup(g, n, indices)
    requires forall x :: x in indices ==> !InSome(groups, x)
    ensures Disjoint(g, n, groups + [indices])
  {
    var all := groups + [indices];
    forall k, l, x | 0 <= k < l < |all| && x in all[k] ensures x !in all[l] {
      if l == |groups| { assert InSome(groups, x); }
    }
  }

  lemma {:induction false} AddInOrder(g: Graph, groups: seq<seq<nat>>, i: nat, indices: seq<nat>)
    requires InOrder(g, groups)
    requires forall x :: x in indices && x in g ==> x >= i
    requires forall k :: 0 <= k < |groups| ==> WaitsBelow(g, groups[k], i)
    ensures InOrder(g, groups + [indices])
  {
    var all := groups + [indices];
    forall k, l, y | 0 <= k < l < |all| && y in all[l] && y in g ensures WaitsBelow(g, all[k], y) {
      if l == |groups| { WaitsBelowMore(g, all[k], i, y); }
    }
  }

  lemma {:induction false} AddWaiting(g: Graph, groups: seq<seq<nat>>, i: nat, indices: seq<nat>)
    requires forall k :: 0 <= k < |groups| ==> WaitsBelow(g, groups[k], i)
    requires i in indices && i in g
    ensures forall k :: 0 <= k <= |groups| ==> WaitsBelow(g, (groups + [indices])[k], i + 1)
  {
    var all := groups + [indices];
    forall k | 0 <= k < |all| ensures WaitsBelow(g, all[k], i + 1) {
      if k < |groups| { WaitsBelowMore(g, all[k], i, i + 1); }
    }
  }

  lemma {:induction false} WaitsBelowMore(g: Graph, group: seq<nat>, i: nat, j: nat)
    requires WaitsBelow(g, group, i) && i <= j
    ensures WaitsBelow(g, group, j)
  {}

  lemma {:induction false} WholeComponent(g: Graph, n: nat, i: nat, group: set<nat>, indices: seq<nat>)
    requires Bounded(g, n) && i in g
    requires group == Component(g, n, i) && |group| > 1
    requires Ascending(indices) && Elements(indices) == group
    ensures IsGroup(g, n, indices)
  {
    SequenceSize(indices);
    var first := indices[0];
    assert first in group;
    forall x: nat ensures x in indices <==> x < n && Connected(g, first, x) {
      assert x in indices <==> x in group;
      if x in group {
        ConnectedSelf(g, first);
        Exchange(g, i, first, x);
      }
      if x < n && Connected(g, first, x) {
        var p :| Path(g, p) && p[0] == first && p[|p| - 1] == x;
        ConnectedAlong(g, i, p);
      }
    }
  }

  lemma {:induction false} Exchange(g: Graph, i: nat, a: nat, b: nat)
    requires Connected(g, i, a) && Connected(g, i, b)
    ensures Connected(g, a, b)
  {
    var p :| Path(g, p) && p[0] == i && p[|p| - 1] == a;
    ConnectedBack(g, p);
    var q :| Path(g, q) && q[0] == i && q[|q| - 1] == b;
    ConnectedAlong(g, a, q);
  }

  lemma {:induction false} SequenceSize(s: seq<nat>)
    ensures |Elements(s)| <= |s|
  {
    if s != [] {
      var n := |s| - 1;
      SequenceSize(s[..n]);
      assert Elements(s) == Elements(s[..n]) + {s[n]};
    }
  }

  lemma {:induction false} EdgeCovered(g: Graph, n: nat, groups: seq<seq<nat>>, visited: set<nat>, a: nat, b: nat)
    requires Bounded(g, n) && Found(g, n, groups, visited, n) && Edge(g, a, b)
    ensures InSome(groups, a)
  {
    if a in g {
      assert a in visited;
    } else {
      assert b in visited;
      var k :| 0 <= k < |groups| && b in groups[k];
      ConnectedStep(g, groups[k][0], b, a);
    }
  }

  lemma {:induction false} EdgesCovered(g: Graph, n: nat, groups: seq<seq<nat>>, visited: set<nat>)
    requires Bounded(g, n) && Found(g, n, groups, visited, n)
    ensures forall a: nat, b: nat :: Edge(g, a, b) ==> InSome(groups, a)
  {
    forall a: nat, b: nat | Edge(g, a, b) ensures InSome(groups, a) {
      EdgeCovered(g, n, groups, visited, a, b);
    }
  }

  // ----- The groups, told from the tests alone

  /** Test `j` is the last to name `v` for extraction. */
  predicate LastToExtract(tests: seq<Test>, j: nat, v: string) {
    && j < |tests| && v != "" && (tests[j].json == v || tests[j].extract == v)
    && forall k :: j < k < |tests| ==> tests[k].json != v && tests[k].extract != v
  }

  /** Test `i` mentions a variable that another test, `j`, is the last to extract. */
  ghost predicate WaitsFor(tests: seq<Test>, i: nat, j: nat) {
    i < |tests| && i != j && exists v :: Mentions(tests[i], v) && LastToExtract(tests, j, v)
  }

  ghost predicate Linked(tests: seq<Test>, a: nat, b: nat) {
    WaitsFor(tests, a, b) || WaitsFor(tests, b, a)
  }

  ghost predicate Links(tests: seq<Test>, p: seq<nat>) {
    p != [] && forall k :: 0 < k < |p| ==> Linked(tests, p[k - 1], p[k])
  }

  ghost predicate LinkedAlong(tests: seq<Test>, a: nat, b: nat) {
    exists p :: Links(tests, p) && p[0] == a && p[|p| - 1] == b
  }

  predicate InOne(groups: seq<seq<nat>>, a: nat, b: nat) {
    exists k :: 0 <= k < |groups| && a in groups[k] && b in groups[k]
  }

  /** At least two tests each, ascending, none in two groups; a test is with every test it waits for, and
      only tests linked by waiting are together. */
  ghost predicate Grouping(tests: seq<Test>, groups: seq<seq<nat>>) {
    && (forall k, l, m :: 0 <= k < |groups| && 0 <= l < m < |groups[k]| ==> groups[k][l] < groups[k][m] < |tests|)
    && (forall k :: 0 <= k < |groups| ==> |groups[k]| >= 2)
    && (forall k, l, x :: 0 <= k < l < |groups| && x in groups[k] ==> x !in groups[l])
    && (forall i: nat, j: nat :: WaitsFor(tests, i, j) ==> InOne(groups, i, j))
    && (forall k, a, b :: 0 <= k < |groups| && a in groups[k] && b in groups[k] ==> LinkedAlong(tests, a, b))
  }

  lemma {:induction false} LastExtractorIs(tests: seq<Test>, j: nat, v: string)
    ensures LastExtractor(tests, v) == j <==> LastToExtract(tests, j, v)
  {
    var last := LastExtractor(tests, v);
    if LastToExtract(tests, j, v) {
      assert Extracts(tests[j], v);
      assert forall k :: j < k < |tests| ==> !Extracts(tests[k], v);
    }
    if v != "" && last == j {
      forall k | j < k < |tests| ensures tests[k].json != v && tests[k].extract != v {
        assert !Extracts(tests[k], v);
      }
    }
  }

  lemma {:induction false} WaitsForIs(tests: seq<Test>, i: nat, j: nat)
    requires i < |tests|
    ensures WaitsFor(tests, i, j) <==> WaitsVia(tests, i, References(tests[i]), j)
  {
    AllReferencesAre(tests[i]);
    forall v ensures LastExtractor(tests, v) == j <==> LastToExtract(tests, j, v) { LastExtractorIs(tests, j, v); }
  }

  lemma {:induction false} EdgeIs(tests: seq<Test>, a: nat, b: nat)
    ensures Edge(DepGraph(tests), a, b) <==> Linked(tests, a, b)
  {
    EntryIs(tests, a, b);
    EntryIs(tests, b, a);
  }

  lemma {:induction false} EntryIs(tests: seq<Test>, a: nat, b: nat)
    ensures a in DepGraph(tests) && b in DepGraph(tests)[a] <==> WaitsFor(tests, a, b)
  {
    Entry(tests, |tests|, a);
    if a < |tests| {
      WaitsForIs(tests, a, b);
      if WaitsFor(tests, a, b) { assert b in Deps(tests, a); }
    }
  }

  lemma {:induction false} ConnectedIs(tests: seq<Test>, a: nat, b: nat)
    requires Connected(DepGraph(tests), a, b)
    ensures LinkedAlong(tests, a, b)
  {
    var p :| Path(DepGraph(tests), p) && p[0] == a && p[|p| - 1] == b;
    forall k | 0 < k < |p| ensures Linked(tests, p[k - 1], p[k]) { EdgeIs(tests, p[k - 1], p[k]); }
    assert Links(tests, p);
  }

  lemma {:induction false} GroupsAreGrouping(tests: seq<Test>, groups: seq<seq<nat>>)
    requires Disjoint(DepGraph(tests), |tests|, groups)
    requires forall a: nat, b: nat :: Edge(DepGraph(tests), a, b) ==> InSome(groups, a)
    ensures Grouping(tests, groups)
  {
    var g := DepGraph(tests);
    forall i: nat, j: nat | WaitsFor(tests, i, j) ensures InOne(groups, i, j) {
      EdgeIs(tests, i, j);
      var k :| 0 <= k < |groups| && i in groups[k];
      assert IsGroup(g, |tests|, groups[k]);
      ConnectedStep(g, groups[k][0], i, j);
    }
    forall k, a, b | 0 <= k < |groups| && a in groups[k] && b in groups[k] ensures LinkedAlong(tests, a, b) {
      assert IsGroup(g, |tests|, groups[k]);
      Exchange(g, groups[k][0], a, b);
      ConnectedIs(tests, a, b);
    }
    forall k, l, m | 0 <= k < |groups| && 0 <= l < m < |groups[k]| ensures groups[k][l] < groups[k][m] < |tests| {
      assert IsGroup(g, |tests|, groups[k]);
      assert groups[k][m] in groups[k];
    }
  }

  /** No group at all means that no test waits for another. */
  lemma {:induction false} NoGroupsIff(tests: seq<Test>, groups: seq<seq<nat>>)
    requires Grouping(tests, groups)
    ensures groups == [] <==> forall i: nat, j: nat :: !WaitsFor(tests, i, j)
  {
    if i: nat, j: nat :| WaitsFor(tests, i, j) {
      assert InOne(groups, i, j);
    }
    if groups != [] {
      var a, b := groups[0][0], groups[0][1];
      assert a in groups[0] && b in groups[0] && a != b;
      assert LinkedAlong(tests, a, b);
      var p :| Links(tests, p) && p[0] == a && p[|p| - 1] == b;
      assert Linked(tests, p[0], p[1]);
    }
  }
}
