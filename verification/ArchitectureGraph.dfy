/** Package names in Python's string order, the dependency graph between packages,
    and the depth-first cycle search (scripts/validate_architecture.py). */
module ArchitectureGraph {
  import opened Common

  type Graph = map<string, set<string>>

  // ---------- sorted(names) ----------

  predicate Below(a: string, b: string) {
    b != [] && (a == [] || a[0] < b[0] || (a[0] == b[0] && Below(a[1..], b[1..])))
  }

  lemma {:induction false} BelowIsTotal(a: string, b: string)
    ensures a == b || Below(a, b) || Below(b, a)
  {
    if a != [] && b != [] && a[0] == b[0] {
      BelowIsTotal(a[1..], b[1..]);
      assert a == [a[0]] + a[1..] && b == [b[0]] + b[1..];
    }
  }

  lemma {:induction false} BelowIsTransitive(a: string, b: string, c: string)
    requires Below(a, b) && Below(b, c)
    ensures Below(a, c)
  {
    if a != [] && a[0] == b[0] == c[0] { BelowIsTransitive(a[1..], b[1..], c[1..]); }
  }

  lemma {:induction false} BelowIsStrict(a: string, b: string)
    requires Below(a, b)
    ensures a != b && !Below(b, a)
  {
    if a != [] && a[0] == b[0] { BelowIsStrict(a[1..], b[1..]); }
  }

  predicate IsLeast(names: set<string>, least: string) {
    least in names && forall n :: n in names && n != least ==> Below(least, n)
  }

  lemma {:induction false} LeastExists(names: set<string>) returns (least: string)
    requires names != {}
    ensures IsLeast(names, least)
  {
    var some :| some in names;
    var rest := names - {some};
    if rest == {} {
      least := some;
      assert names == {some};
    } else {
      var other := LeastExists(rest);
      BelowIsTotal(some, other);
      least := if Below(other, some) then other else some;
      forall n | n in names && n != least ensures Below(least, n) {
        if n != some && n != other {
          assert n in rest;
          if least == some { BelowIsTransitive(some, other, n); }
        }
      }
    }
  }

  lemma LeastIsDetermined(names: set<string>)
    requires names != {}
    ensures exists least :: IsLeast(names, least)
    ensures forall a, b :: IsLeast(names, a) && IsLeast(names, b) ==> a == b
  {
    var least := LeastExists(names);
    forall a, b | IsLeast(names, a) && IsLeast(names, b) ensures a == b {
      if a != b { BelowIsStrict(a, b); }
    }
  }

  function Least(names: set<string>): (least: string)
    requires names != {}
    ensures IsLeast(names, least)
  {
    LeastIsDetermined(names);
    var least :| IsLeast(names, least);
    least
  }

  function Sorted(names: set<string>): (s: seq<string>)
    ensures forall n :: n in s <==> n in names
    ensures forall i, j :: 0 <= i < j < |s| ==> Below(s[i], s[j])
  {
    if names == {} then []
    else
      var least := Least(names);
      [least] + Sorted(names - {least})
  }

  // ---------- walks and cycles ----------

  function Nodes(g: Graph): set<string> {
    g.Keys + set p, d | p in g && d in g[p] :: d
  }

  /** graph.edges.get(package, ()). */
  function Dependencies(g: Graph, package: string): (dependencies: set<string>)
    ensures dependencies <= Nodes(g)
  {
    if package in g then g[package] else {}
  }

  predicate Walk(g: Graph, w: seq<string>) {
    w != [] && forall i :: 0 <= i < |w| - 1 ==> w[i + 1] in Dependencies(g, w[i])
  }

  /** A walk that ends where it began, in the shape the checker reports. */
  predicate ClosedWalk(g: Graph, c: seq<string>) {
    |c| >= 2 && Walk(g, c) && c[0] == c[|c| - 1]
  }

  predicate IsCycle(g: Graph, c: seq<string>) {
    ClosedWalk(g, c) && NoDuplicates(c[..|c| - 1])
  }

  ghost predicate Reachable(g: Graph, a: string, b: string) {
    exists w :: Walk(g, w) && w[0] == a && w[|w| - 1] == b
  }

  ghost predicate CycleReachable(g: Graph, start: string) {
    exists c :: ClosedWalk(g, c) && Reachable(g, start, c[0])
  }

  ghost predicate Acyclic(g: Graph) {
    forall c :: !ClosedWalk(g, c)
  }

  // ---------- find_cycle_from ----------

  function IndexOf(path: seq<string>, package: string): (i: nat)
    requires package in path
    ensures i < |path| && path[i] == package && package !in path[..i]
  {
    if path[0] == package then 0 else 1 + IndexOf(path[1..], package)
  }

  /** Packages of the graph that are not yet on the path: what the search still has to spend. */
  function Unvisited(g: Graph, path: seq<string>): set<string> {
    set p | p in Nodes(g) && p !in path
  }

  lemma VisitingSpends(g: Graph, path: seq<string>, package: string)
    requires package in Nodes(g) && package !in path
    ensures |Unvisited(g, path + [package])| < |Unvisited(g, path)|
  {
    assert Unvisited(g, path) == Unvisited(g, path + [package]) + {package};
  }

  /** The inner visit: the packages after `package` are tried in sorted order. */
  function Visit(g: Graph, start: string, package: string, path: seq<string>): Option<seq<string>>
    decreases |Unvisited(g, path)|, 1, 0
  {
    VisitEach(g, start, Sorted(Dependencies(g, package)), path)
  }

  function VisitEach(g: Graph, start: string, dependencies: seq<string>, path: seq<string>): Option<seq<string>>
    requires forall d :: d in dependencies ==> d in Nodes(g)
    decreases |Unvisited(g, path)|, 0, |dependencies|
  {
    if dependencies == [] then None
    else
      var dependency := dependencies[0];
      if dependency == start then Some(path + [dependency])
      else if dependency in path then Some(path[IndexOf(path, dependency)..] + [dependency])
      else
        VisitingSpends(g, path, dependency);
        match Visit(g, start, dependency, path + [dependency])
        case Some(cycle) => Some(cycle)
        case None => VisitEach(g, start, dependencies[1..], path)
  }

  function FindCycleFrom(g: Graph, start: string): Option<seq<string>> {
    Visit(g, start, start, [start])
  }

  // ---------- what is found is a cycle ----------

  /** A path the search is standing on. */
  predicate SearchPath(g: Graph, start: string, path: seq<string>) {
    Walk(g, path) && NoDuplicates(path) && path[0] == start
  }

  lemma ClosingThePath(g: Graph, start: string, path: seq<string>, i: nat, package: string)
    requires SearchPath(g, start, path) && i < |path| && path[i] == package
    requires package in Dependencies(g, path[|path| - 1])
    ensures IsCycle(g, path[i..] + [package])
  {
    var c := path[i..] + [package];
    assert c[..|c| - 1] == path[i..];
    forall k | 0 <= k < |c| - 1 ensures c[k + 1] in Dependencies(g, c[k]) {
      if k < |c| - 2 { assert c[k] == path[i + k] && c[k + 1] == path[i + k + 1]; }
    }
  }

  lemma Onward(g: Graph, a: string, b: string, c: string)
    requires b in Dependencies(g, a) && Reachable(g, b, c)
    ensures Reachable(g, a, c)
  {
    var w :| Walk(g, w) && w[0] == b && w[|w| - 1] == c;
    assert Walk(g, [a] + w);
  }

  lemma ReachesItself(g: Graph, a: string)
    ensures Reachable(g, a, a)
  {
    assert Walk(g, [a]);
  }

  lemma SteppingOn(g: Graph, start: string, path: seq<string>, package: string)
    requires SearchPath(g, start, path) && package !in path
    requires package in Dependencies(g, path[|path| - 1])
    ensures SearchPath(g, start, path + [package])
  {
    var longer := path + [package];
    forall i | 0 <= i < |longer| - 1 ensures longer[i + 1] in Dependencies(g, longer[i]) {
      if i < |path| - 1 { assert longer[i] == path[i] && longer[i + 1] == path[i + 1]; }
    }
  }

  lemma {:induction false} VisitFindsCycle(g: Graph, start: string, path: seq<string>)
    requires SearchPath(g, start, path) && Visit(g, start, path[|path| - 1], path).Some?
    ensures var cycle := Visit(g, start, path[|path| - 1], path).value;
      IsCycle(g, cycle) && Reachable(g, path[|path| - 1], cycle[0])
    decreases |Unvisited(g, path)|, 1, 0
  {
    VisitEachFindsCycle(g, start, Sorted(Dependencies(g, path[|path| - 1])), path);
  }

  lemma {:induction false} VisitEachFindsCycle(g: Graph, start: string, dependencies: seq<string>, path: seq<string>)
    requires SearchPath(g, start, path)
    requires forall d :: d in dependencies ==> d in Nodes(g)
    requires forall d :: d in dependencies ==> d in Dependencies(g, path[|path| - 1])
    requires VisitEach(g, start, dependencies, path).Some?
    ensures var cycle := VisitEach(g, start, dependencies, path).value;
      IsCycle(g, cycle) && Reachable(g, path[|path| - 1], cycle[0])
    decreases |Unvisited(g, path)|, 0, |dependencies|
  {
    var dependency := dependencies[0];
    assert dependency in dependencies;
    if dependency in path {
      ClosingThePath(g, start, path, IndexOf(path, dependency), dependency);
      assert dependency == start ==> path[0..] + [dependency] == path + [dependency];
      ReachesItself(g, dependency);
      Onward(g, path[|path| - 1], dependency, dependency);
    } else {
      VisitingSpends(g, path, dependency);
      if Visit(g, start, dependency, path + [dependency]).Some? {
        SteppingOn(g, start, path, dependency);
        VisitFindsCycle(g, start, path + [dependency]);
        Onward(g, path[|path| - 1], dependency, Visit(g, start, dependency, path + [dependency]).value[0]);
      } else {
        assert forall d :: d in dependencies[1..] ==> d in dependencies;
        VisitEachFindsCycle(g, start, dependencies[1..], path);
      }
    }
  }

  // ---------- finding nothing means there is nothing ----------

  lemma {:induction false} NothingFoundAnywhere(g: Graph, start: string, dependencies: seq<string>, path: seq<string>, d: string)
    requires forall x :: x in dependencies ==> x in Nodes(g)
    requires d in dependencies && VisitEach(g, start, dependencies, path) == None
    ensures d != start && d !in path && Visit(g, start, d, path + [d]) == None
    decreases |dependencies|
  {
    if d != dependencies[0] { NothingFoundAnywhere(g, start, dependencies[1..], path, d); }
  }

  /** When a visit comes back empty-handed, no walk onward from it repeats a package or
      touches the path it stands on. */
  lemma {:induction false} EmptyVisitExhausts(g: Graph, start: string, path: seq<string>, w: seq<string>)
    requires path != [] && Visit(g, start, path[|path| - 1], path) == None
    requires Walk(g, w) && w[0] == path[|path| - 1]
    ensures NoDuplicates(w[1..]) && forall i :: 1 <= i < |w| ==> w[i] !in path
    decreases |w|
  {
    if |w| > 1 {
      var dependency := w[1];
      NothingFoundAnywhere(g, start, Sorted(Dependencies(g, w[0])), path, dependency);
      var longer := path + [dependency];
      assert Walk(g, w[1..]);
      EmptyVisitExhausts(g, start, longer, w[1..]);
      forall i | 2 <= i < |w| ensures w[i] !in longer { assert w[i] == w[1..][i - 1]; }
      forall i, j | 1 <= i < j < |w| ensures w[i] != w[j] {
        assert w[j] !in longer;
        if i > 1 { assert w[i] == w[1..][1..][i - 2] && w[j] == w[1..][1..][j - 2]; }
      }
    }
  }

  lemma WalkIntoCycle(g: Graph, w: seq<string>, c: seq<string>) returns (long: seq<string>)
    requires Walk(g, w) && ClosedWalk(g, c) && w[|w| - 1] == c[0]
    ensures Walk(g, long) && long[0] == w[0] && !NoDuplicates(long)
  {
    long := w + c[1..];
    forall i | 0 <= i < |long| - 1 ensures long[i + 1] in Dependencies(g, long[i]) {
      if i >= |w| - 1 { assert long[i] == c[i - |w| + 1] && long[i + 1] == c[i - |w| + 2]; }
    }
    assert long[|w| - 1] == c[0] && long[|long| - 1] == c[|c| - 1];
  }

  /** A visit succeeds exactly when the package it stands on leads to a cycle. */
  lemma VisitLeadsToCycle(g: Graph, start: string, path: seq<string>)
    requires SearchPath(g, start, path)
    ensures Visit(g, start, path[|path| - 1], path).Some? <==> CycleReachable(g, path[|path| - 1])
  {
    var last := path[|path| - 1];
    if Visit(g, start, last, path).Some? {
      VisitFindsCycle(g, start, path);
    } else if CycleReachable(g, last) {
      var c :| ClosedWalk(g, c) && Reachable(g, last, c[0]);
      var w :| Walk(g, w) && w[0] == last && w[|w| - 1] == c[0];
      var long := WalkIntoCycle(g, w, c);
      EmptyVisitExhausts(g, start, path, long);
      RepeatsAfterStart(long, path);
    }
  }

  lemma RepeatsAfterStart(w: seq<string>, path: seq<string>)
    requires w != [] && w[0] in path && NoDuplicates(w[1..]) && forall i :: 1 <= i < |w| ==> w[i] !in path
    ensures NoDuplicates(w)
  {
    forall i, j | 0 <= i < j < |w| ensures w[i] != w[j] {
      if i > 0 { assert w[i] == w[1..][i - 1] && w[j] == w[1..][j - 1]; }
    }
  }

  /** The search is sound and complete: it returns a real, element-distinct cycle reachable
      from its start, and comes back with nothing exactly when none is reachable. */
  lemma FindCycleFromIsExact(g: Graph, start: string)
    ensures FindCycleFrom(g, start).Some? <==> CycleReachable(g, start)
    ensures FindCycleFrom(g, start).Some? ==>
      var cycle := FindCycleFrom(g, start).value;
      IsCycle(g, cycle) && Reachable(g, start, cycle[0])
  {
    VisitLeadsToCycle(g, start, [start]);
    if FindCycleFrom(g, start).Some? { VisitFindsCycle(g, start, [start]); }
  }

  // ---------- which way the search turns ----------

  /** The step a search takes: to the least dependency that leads to a cycle. */
  ghost predicate Follows(g: Graph, a: string, b: string) {
    && b in Dependencies(g, a) && CycleReachable(g, b)
    && forall d :: d in Dependencies(g, a) && d != b && CycleReachable(g, d) ==> Below(b, d)
  }

  ghost predicate AllFollow(g: Graph, w: seq<string>) {
    forall i :: 0 <= i < |w| - 1 ==> Follows(g, w[i], w[i + 1])
  }

  /** A package that leads to a cycle has a step to follow. */
  lemma SomethingFollows(g: Graph, a: string) returns (b: string)
    requires CycleReachable(g, a)
    ensures Follows(g, a, b)
  {
    var c :| ClosedWalk(g, c) && Reachable(g, a, c[0]);
    var w :| Walk(g, w) && w[0] == a && w[|w| - 1] == c[0];
    var next := if |w| > 1 then w[1] else c[1];
    if |w| > 1 {
      assert Walk(g, w[1..]);
      assert Reachable(g, next, c[0]);
    } else {
      assert Walk(g, c[1..]);
      assert Reachable(g, next, c[0]);
    }
    var leading := set d | d in Dependencies(g, a) && CycleReachable(g, d);
    assert next in leading;
    b := LeastExists(leading);
  }

  function TurnTo(g: Graph, start: string, path: seq<string>, b: string): Option<seq<string>> {
    if b == start then Some(path + [b])
    else if b in path then Some(path[IndexOf(path, b)..] + [b])
    else Visit(g, start, b, path + [b])
  }

  /** Standing on the end of a path, the search goes where Follows says. */
  lemma VisitFollows(g: Graph, start: string, path: seq<string>, b: string)
    requires SearchPath(g, start, path) && Follows(g, path[|path| - 1], b)
    ensures Visit(g, start, path[|path| - 1], path) == TurnTo(g, start, path, b)
  {
    var last := path[|path| - 1];
    var dependencies := Sorted(Dependencies(g, last));
    assert b in dependencies;
    var k := IndexOf(dependencies, b);
    forall i | 0 <= i < k ensures LeftBehind(g, start, path, dependencies[i]) {
      assert dependencies[i] in dependencies;
      EarlierLeadsNowhere(g, last, dependencies[i], b);
      LeadsNowhere(g, start, path, dependencies[i]);
    }
    if b !in path { LeadsSomewhere(g, start, path, b); }
    EarlierAreLeft(g, start, dependencies, path, k);
  }

  predicate LeftBehind(g: Graph, start: string, path: seq<string>, d: string) {
    d != start && d !in path && Visit(g, start, d, path + [d]) == None
  }

  lemma {:induction false} EarlierAreLeft(g: Graph, start: string, dependencies: seq<string>, path: seq<string>, k: nat)
    requires forall d :: d in dependencies ==> d in Nodes(g)
    requires k < |dependencies| && forall i :: 0 <= i < k ==> LeftBehind(g, start, path, dependencies[i])
    requires dependencies[k] !in path ==> Visit(g, start, dependencies[k], path + [dependencies[k]]).Some?
    ensures VisitEach(g, start, dependencies, path) == TurnTo(g, start, path, dependencies[k])
    decreases k
  {
    if k > 0 {
      assert LeftBehind(g, start, path, dependencies[0]);
      EarlierAreLeft(g, start, dependencies[1..], path, k - 1);
    }
  }

  lemma EarlierLeadsNowhere(g: Graph, a: string, d: string, b: string)
    requires Follows(g, a, b) && d in Dependencies(g, a) && Below(d, b)
    ensures !CycleReachable(g, d)
  {
    BelowIsStrict(d, b);
  }

  lemma LeadsSomewhere(g: Graph, start: string, path: seq<string>, d: string)
    requires SearchPath(g, start, path) && d in Dependencies(g, path[|path| - 1]) && CycleReachable(g, d) && d !in path
    ensures Visit(g, start, d, path + [d]).Some?
  {
    SteppingOn(g, start, path, d);
    VisitLeadsToCycle(g, start, path + [d]);
  }

  lemma ClosingLeads(g: Graph, start: string, path: seq<string>, d: string)
    requires SearchPath(g, start, path) && d in Dependencies(g, path[|path| - 1]) && d in path
    ensures CycleReachable(g, d)
  {
    var i := IndexOf(path, d);
    ClosingThePath(g, start, path, i, d);
    ReachesItself(g, d);
    var c := path[i..] + [d];
    assert ClosedWalk(g, c) && c[0] == d;
  }

  /** A dependency that leads to no cycle is tried and left. */
  lemma LeadsNowhere(g: Graph, start: string, path: seq<string>, d: string)
    requires SearchPath(g, start, path) && d in Dependencies(g, path[|path| - 1]) && !CycleReachable(g, d)
    ensures d !in path && Visit(g, start, d, path + [d]) == None
  {
    if d in path { ClosingLeads(g, start, path, d); }
    SteppingOn(g, start, path, d);
    VisitLeadsToCycle(g, start, path + [d]);
  }

  /** Every step of a found cycle is one that Follows. */
  lemma {:induction false} FoundCyclesFollow(g: Graph, start: string, path: seq<string>)
    requires SearchPath(g, start, path) && AllFollow(g, path) && Visit(g, start, path[|path| - 1], path).Some?
    ensures AllFollow(g, Visit(g, start, path[|path| - 1], path).value)
    decreases |Unvisited(g, path)|
  {
    var last := path[|path| - 1];
    VisitLeadsToCycle(g, start, path);
    var b := SomethingFollows(g, last);
    VisitFollows(g, start, path, b);
    FollowingOn(g, path, b);
    if b in path {
      var i := IndexOf(path, b);
      SuffixFollows(g, path + [b], i);
      assert (path + [b])[i..] == path[i..] + [b];
      assert b == start ==> (path + [b])[0..] == path + [b];
    } else {
      VisitingSpends(g, path, b);
      SteppingOn(g, start, path, b);
      FoundCyclesFollow(g, start, path + [b]);
    }
  }

  lemma FollowingOn(g: Graph, path: seq<string>, b: string)
    requires path != [] && AllFollow(g, path) && Follows(g, path[|path| - 1], b)
    ensures AllFollow(g, path + [b])
  {
    forall i | 0 <= i < |path| ensures Follows(g, (path + [b])[i], (path + [b])[i + 1]) {}
  }

  lemma SuffixFollows(g: Graph, w: seq<string>, i: nat)
    requires i <= |w| && AllFollow(g, w)
    ensures AllFollow(g, w[i..])
  {
    forall k | 0 <= k < |w[i..]| - 1 ensures Follows(g, w[i..][k], w[i..][k + 1]) {
      assert Follows(g, w[i + k], w[i + k + 1]);
    }
  }

  /** A cycle of such steps is found from its own first package. */
  lemma {:induction false} FollowedCycleIsFound(g: Graph, c: seq<string>, k: nat)
    requires IsCycle(g, c) && AllFollow(g, c) && 0 < k < |c|
    ensures Visit(g, c[0], c[k - 1], c[..k]) == Some(c)
    decreases |c| - k
  {
    PrefixIsPath(g, c, k);
    assert Follows(g, c[k - 1], c[k - 1 + 1]);
    VisitFollows(g, c[0], c[..k], c[k]);
    assert c[..k] + [c[k]] == c[..k + 1];
    if k < |c| - 1 {
      assert c[k] == c[..|c| - 1][k] && c[0] == c[..|c| - 1][0];
      forall i | 0 <= i < k ensures c[i] != c[k] { assert c[i] == c[..|c| - 1][i]; }
      FollowedCycleIsFound(g, c, k + 1);
    } else {
      assert c[..k + 1] == c;
    }
  }

  lemma PrefixIsPath(g: Graph, c: seq<string>, k: nat)
    requires IsCycle(g, c) && 0 < k < |c|
    ensures SearchPath(g, c[0], c[..k])
  {
    forall i | 0 <= i < k - 1 ensures c[..k][i + 1] in Dependencies(g, c[..k][i]) {
      assert c[i + 1] in Dependencies(g, c[i]);
    }
    forall i, j | 0 <= i < j < k ensures c[..k][i] != c[..k][j] {
      assert c[i] == c[..|c| - 1][i] && c[j] == c[..|c| - 1][j];
    }
  }
}
