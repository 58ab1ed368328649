/** Canonical cycles and the loop that reports each of them once
    (scripts/validate_architecture.py). */
module ArchitectureCycles {
  import opened Common
  import opened ArchitectureGraph

  // ---------- normalize_cycle ----------

  function Rotation(u: seq<string>, k: nat): (r: seq<string>)
    requires k <= |u|
  {
    u[k..] + u[..k]
  }

  function Wrap(i: nat, n: nat): nat
    requires i < 2 * n
  {
    if i < n then i else i - n
  }

  lemma RotationAt(u: seq<string>, k: nat, i: nat)
    requires k <= |u| && i < |u|
    ensures |Rotation(u, k)| == |u| && Rotation(u, k)[i] == u[Wrap(i + k, |u|)]
  {}

  predicate AtMost(a: string, b: string) {
    a == b || Below(a, b)
  }

  /** The first position of the least name. */
  function MinimumIndex(u: seq<string>): (m: nat)
    requires u != []
    ensures m < |u|
  {
    if |u| == 1 then 0
    else
      var m := MinimumIndex(u[..|u| - 1]);
      if Below(u[|u| - 1], u[m]) then |u| - 1 else m
  }

  lemma {:induction false} MinimumIndexIsFirstLeast(u: seq<string>)
    requires u != []
    ensures var m := MinimumIndex(u);
      && (forall j :: 0 <= j < |u| ==> AtMost(u[m], u[j]))
      && (forall j :: 0 <= j < m ==> u[j] != u[m])
  {
    if |u| > 1 {
      var init := u[..|u| - 1];
      var last := u[|u| - 1];
      MinimumIndexIsFirstLeast(init);
      var m := MinimumIndex(init);
      assert forall j :: 0 <= j < |init| ==> init[j] == u[j];
      if Below(last, u[m]) {
        forall j | 0 <= j < |u| - 1 ensures Below(last, u[j]) && u[j] != last {
          assert AtMost(init[m], init[j]);
          if u[j] != u[m] { BelowIsTransitive(last, u[m], u[j]); }
          BelowIsStrict(last, u[j]);
        }
      } else {
        BelowIsTotal(last, u[m]);
        forall j | 0 <= j < |u| ensures AtMost(u[m], u[j]) {
          if j < |init| { assert AtMost(init[m], init[j]); }
        }
      }
    }
  }

  /** cycle[:-1], rotated to start at its least name and closed again. */
  function Normalize(cycle: seq<string>): seq<string>
    requires |cycle| >= 2
  {
    var unique := cycle[..|cycle| - 1];
    var rotated := Rotation(unique, MinimumIndex(unique));
    rotated + [rotated[0]]
  }

  ghost predicate AreRotations(u: seq<string>, v: seq<string>) {
    exists k :: 0 <= k <= |u| && v == Rotation(u, k)
  }

  predicate IsLeastAt(u: seq<string>, i: nat)
    requires i < |u|
  {
    forall j :: 0 <= j < |u| ==> AtMost(u[i], u[j])
  }

  lemma LeastPositionIsMinimum(u: seq<string>, i: nat)
    requires i < |u| && NoDuplicates(u) && IsLeastAt(u, i)
    ensures MinimumIndex(u) == i
  {
    MinimumIndexIsFirstLeast(u);
    var m := MinimumIndex(u);
    assert AtMost(u[m], u[i]) && AtMost(u[i], u[m]);
    if u[i] != u[m] { BelowIsStrict(u[i], u[m]); }
  }

  /** Where position j of the sequence ends up after a rotation by k. */
  function Moved(j: nat, k: nat, n: nat): (i: nat)
    requires j < n && k <= n
    ensures i < n && Wrap(i + k, n) == j
  {
    if j >= k then j - k else j - k + n
  }

  lemma RotatedMinimum(u: seq<string>, k: nat)
    requires u != [] && k <= |u| && NoDuplicates(u)
    ensures |Rotation(u, k)| == |u| && Wrap(MinimumIndex(Rotation(u, k)) + k, |u|) == MinimumIndex(u)
  {
    var v := Rotation(u, k);
    var mv := MinimumIndex(v);
    MinimumIndexIsFirstLeast(v);
    RotationAt(u, k, mv);
    var i := Wrap(mv + k, |u|);
    forall j | 0 <= j < |u| ensures AtMost(u[i], u[j]) {
      var x := Moved(j, k, |u|);
      RotationAt(u, k, x);
      assert AtMost(v[mv], v[x]);
    }
    LeastPositionIsMinimum(u, i);
  }

  lemma RotateTwice(u: seq<string>, k: nat, j: nat)
    requires u != [] && k <= |u| && j < |u|
    ensures |Rotation(u, k)| == |u| && Rotation(Rotation(u, k), j) == Rotation(u, Wrap(j + k, |u|))
  {
    var v := Rotation(u, k);
    var m := Wrap(j + k, |u|);
    forall i | 0 <= i < |u| ensures Rotation(v, j)[i] == Rotation(u, m)[i] {
      RotationAt(v, j, i);
      RotationAt(u, k, Wrap(i + j, |u|));
      RotationAt(u, m, i);
    }
  }

  lemma RotationsMeet(u: seq<string>, k: nat)
    requires u != [] && k <= |u| && NoDuplicates(u)
    ensures var v := Rotation(u, k);
      |v| == |u| && Rotation(v, MinimumIndex(v)) == Rotation(u, MinimumIndex(u))
  {
    RotatedMinimum(u, k);
    RotateTwice(u, k, MinimumIndex(Rotation(u, k)));
  }

  lemma RotationBack(u: seq<string>, i: nat, v: seq<string>, j: nat)
    requires i < |u| && j < |v| && Rotation(u, i) == Rotation(v, j)
    ensures AreRotations(u, v)
  {
    var k := if i >= j then i - j else i - j + |u|;
    assert |Rotation(u, i)| == |u| && |Rotation(v, j)| == |v|;
    forall x | 0 <= x < |u| ensures v[x] == Rotation(u, k)[x] {
      var y := if x >= j then x - j else x - j + |u|;
      RotationAt(v, j, y);
      RotationAt(u, i, y);
      RotationAt(u, k, x);
    }
    assert v == Rotation(u, k);
  }

  predicate DistinctCycle(c: seq<string>) {
    |c| >= 2 && NoDuplicates(c[..|c| - 1])
  }

  /** Two element-distinct cycles have the same canonical form exactly when one is a
      rotation of the other. */
  lemma NormalizeIsCanonical(a: seq<string>, b: seq<string>)
    requires DistinctCycle(a) && DistinctCycle(b)
    ensures Normalize(a) == Normalize(b) <==> AreRotations(a[..|a| - 1], b[..|b| - 1])
  {
    var u, v := a[..|a| - 1], b[..|b| - 1];
    var ru, rv := Rotation(u, MinimumIndex(u)), Rotation(v, MinimumIndex(v));
    assert Normalize(a)[..|Normalize(a)| - 1] == ru && Normalize(b)[..|Normalize(b)| - 1] == rv;
    if Normalize(a) == Normalize(b) {
      RotationBack(u, MinimumIndex(u), v, MinimumIndex(v));
    }
    if AreRotations(u, v) {
      var k :| 0 <= k <= |u| && v == Rotation(u, k);
      RotationsMeet(u, k);
    }
  }

  lemma RotatedToFront(u: seq<string>)
    requires u != []
    ensures |Rotation(u, MinimumIndex(u))| == |u| && MinimumIndex(Rotation(u, MinimumIndex(u))) == 0
  {
    var m := MinimumIndex(u);
    var r := Rotation(u, m);
    MinimumIndexIsFirstLeast(u);
    MinimumIndexIsFirstLeast(r);
    var mr := MinimumIndex(r);
    RotationAt(u, m, 0);
    RotationAt(u, m, mr);
    assert AtMost(r[mr], r[0]) && AtMost(u[m], u[Wrap(mr + m, |u|)]);
    if mr != 0 { BelowIsStrict(r[0], r[mr]); }
  }

  lemma NormalizeIsIdempotent(c: seq<string>)
    requires |c| >= 2
    ensures |Normalize(c)| == |c| && Normalize(Normalize(c)) == Normalize(c)
  {
    var u := c[..|c| - 1];
    var r := Rotation(u, MinimumIndex(u));
    RotatedToFront(u);
    assert Normalize(c)[..|Normalize(c)| - 1] == r;
    assert Rotation(r, 0) == r;
  }

  /** The canonical form of a cycle of the graph is that cycle, entered elsewhere. */
  lemma NormalizeKeepsCycle(g: Graph, c: seq<string>)
    requires IsCycle(g, c)
    ensures IsCycle(g, Normalize(c))
  {
    var u := c[..|c| - 1];
    var m := MinimumIndex(u);
    var r := Rotation(u, m);
    var n := Normalize(c);
    assert n[..|n| - 1] == r;
    forall i | 0 <= i < |n| - 1 ensures n[i + 1] in Dependencies(g, n[i]) {
      var x := Wrap(i + m, |u|);
      RotationAt(u, m, i);
      if i + 1 < |u| { RotationAt(u, m, i + 1); } else { RotationAt(u, m, 0); }
      assert c[x] == u[x] && c[x + 1] in Dependencies(g, c[x]);
    }
    forall i, j | 0 <= i < j < |r| ensures r[i] != r[j] {
      RotationAt(u, m, i);
      RotationAt(u, m, j);
    }
  }

  // ---------- detect_cycle_violations ----------

  predicate Mentions(reported: seq<seq<string>>, canonical: seq<string>) {
    exists c :: c in reported && |c| >= 2 && Normalize(c) == canonical
  }

  predicate AllDifferent(reported: seq<seq<string>>) {
    && (forall i :: 0 <= i < |reported| ==> |reported[i]| >= 2)
    && (forall i, j :: 0 <= i < j < |reported| ==> Normalize(reported[i]) != Normalize(reported[j]))
  }

  /** A found cycle is reported unless its canonical form already is. */
  function ReportNext(earlier: seq<seq<string>>, found: Option<seq<string>>): seq<seq<string>> {
    match found
    case None => earlier
    case Some(c) => if |c| < 2 || Mentions(earlier, Normalize(c)) then earlier else earlier + [c]
  }

  /** The cycles reported for a list of packages: the first found of each kind. */
  function Reported(g: Graph, packages: seq<string>): seq<seq<string>> {
    if packages == [] then []
    else ReportNext(Reported(g, packages[..|packages| - 1]), FindCycleFrom(g, packages[|packages| - 1]))
  }

  predicate Sound(g: Graph, reported: seq<seq<string>>) {
    (forall c :: c in reported ==> IsCycle(g, c)) && AllDifferent(reported)
  }

  lemma ReportNextIsSound(g: Graph, earlier: seq<seq<string>>, found: Option<seq<string>>)
    requires Sound(g, earlier) && (found.Some? ==> IsCycle(g, found.value))
    ensures var now := ReportNext(earlier, found);
      && Sound(g, now)
      && (forall c :: c in earlier ==> c in now)
      && (found.Some? ==> Mentions(now, Normalize(found.value)))
  {
    var now := ReportNext(earlier, found);
    if now != earlier {
      forall i | 0 <= i < |earlier| ensures Normalize(earlier[i]) != Normalize(found.value) {
        assert earlier[i] in earlier;
      }
      assert now[|earlier|] == found.value;
    }
  }

  lemma {:induction false} ReportedIsSound(g: Graph, packages: seq<string>)
    ensures Sound(g, Reported(g, packages))
    decreases |packages|, 0
  {
    if packages != [] {
      ReportedIsSound(g, packages[..|packages| - 1]);
      FindCycleFromIsExact(g, packages[|packages| - 1]);
      ReportNextIsSound(g, Reported(g, packages[..|packages| - 1]), FindCycleFrom(g, packages[|packages| - 1]));
    }
  }

  /** Whatever any package leads to is reported, at least as the same cycle found earlier. */
  lemma {:induction false} NothingIsMissed(g: Graph, packages: seq<string>, p: string)
    requires p in packages && FindCycleFrom(g, p).Some?
    ensures |FindCycleFrom(g, p).value| >= 2 && Mentions(Reported(g, packages), Normalize(FindCycleFrom(g, p).value))
  {
    var init, last := packages[..|packages| - 1], packages[|packages| - 1];
    FindCycleFromIsExact(g, p);
    FindCycleFromIsExact(g, last);
    ReportedIsSound(g, init);
    ReportNextIsSound(g, Reported(g, init), FindCycleFrom(g, last));
    if p != last {
      assert p in init;
      NothingIsMissed(g, init, p);
    }
  }

  lemma ReportedStep(g: Graph, packages: seq<string>, i: nat)
    requires i < |packages|
    ensures Reported(g, packages[..i + 1]) == ReportNext(Reported(g, packages[..i]), FindCycleFrom(g, packages[i]))
    ensures FindCycleFrom(g, packages[i]).Some? ==> |FindCycleFrom(g, packages[i]).value| >= 2
  {
    assert packages[..i + 1][..i] == packages[..i];
    FindCycleFromIsExact(g, packages[i]);
  }

  ghost predicate Remembers(seen: set<seq<string>>, reported: seq<seq<string>>) {
    forall canonical :: canonical in seen <==> Mentions(reported, canonical)
  }

  lemma RememberNext(seen: set<seq<string>>, reported: seq<seq<string>>, c: seq<string>)
    requires Remembers(seen, reported) && |c| >= 2
    ensures Remembers(seen + {Normalize(c)}, reported + [c])
  {
    var next := reported + [c];
    assert next[|reported|] == c;
    forall canonical ensures canonical in seen + {Normalize(c)} <==> Mentions(next, canonical) {
      if Mentions(next, canonical) {
        var x :| x in next && |x| >= 2 && Normalize(x) == canonical;
        assert x in reported || x == c;
      }
    }
  }

  /** One pass over the sorted packages, skipping canonical forms already seen. */
  method DetectCycles(g: Graph) returns (reported: seq<seq<string>>)
    ensures reported == Reported(g, Sorted(g.Keys))
  {
    var packages := Sorted(g.Keys);
    var seen: set<seq<string>> := {};
    reported := [];
    var i := 0;
    while i < |packages|
      invariant 0 <= i <= |packages|
      invariant reported == Reported(g, packages[..i])
      invariant Remembers(seen, reported)
    {
      ReportedStep(g, packages, i);
      var found := FindCycleFrom(g, packages[i]);
      i := i + 1;
      if found.None? { continue; }
      var normalized := Normalize(found.value);
      if normalized in seen { continue; }
      RememberNext(seen, reported, found.value);
      seen := seen + {normalized};
      reported := reported + [found.value];
    }
    assert packages[..i] == packages;
  }

  lemma ClosedWalkIsReported(g: Graph, c: seq<string>)
    requires ClosedWalk(g, c)
    ensures Reported(g, Sorted(g.Keys)) != []
  {
    assert c[1] in Dependencies(g, c[0]);
    assert Walk(g, [c[0]]) && Reachable(g, c[0], c[0]);
    FindCycleFromIsExact(g, c[0]);
    NothingIsMissed(g, Sorted(g.Keys), c[0]);
  }

  lemma ReportsDiffer(g: Graph, reported: seq<seq<string>>)
    requires Sound(g, reported)
    ensures forall i, j :: 0 <= i < j < |reported| ==> !SameCycle(reported[i], reported[j])
  {
    forall i, j | 0 <= i < j < |reported| ensures !SameCycle(reported[i], reported[j]) {
      assert reported[i] in reported && reported[j] in reported;
      NormalizeIsCanonical(reported[i], reported[j]);
    }
  }

  lemma NoReportMeansAcyclic(g: Graph)
    requires Reported(g, Sorted(g.Keys)) == []
    ensures Acyclic(g)
  {
    forall c ensures !ClosedWalk(g, c) {
      if ClosedWalk(g, c) { ClosedWalkIsReported(g, c); }
    }
  }

  /** Every report is a real element-distinct cycle, no two are the same cycle entered at
      different packages, and there are none exactly when the whole graph is acyclic. */
  lemma ReportIsExact(g: Graph)
    ensures var reported := Reported(g, Sorted(g.Keys));
      && (forall c :: c in reported ==> IsCycle(g, c))
      && (forall i, j :: 0 <= i < j < |reported| ==> !SameCycle(reported[i], reported[j]))
      && (reported == [] <==> Acyclic(g))
  {
    var reported := Reported(g, Sorted(g.Keys));
    ReportedIsSound(g, Sorted(g.Keys));
    ReportsDiffer(g, reported);
    if reported == [] {
      NoReportMeansAcyclic(g);
    } else {
      assert reported[0] in reported && ClosedWalk(g, reported[0]);
    }
  }

  ghost predicate SameCycle(a: seq<string>, b: seq<string>) {
    |a| >= 2 && |b| >= 2 && AreRotations(a[..|a| - 1], b[..|b| - 1])
  }

  // ---------- which cycles are certain to be reported ----------

  /** Packages that lead to each other: the same cyclic component. */
  ghost predicate Connected(g: Graph, a: string, b: string) {
    Reachable(g, a, b) && Reachable(g, b, a)
  }

  /** No other cyclic component can be reached from this cycle. */
  ghost predicate Bottom(g: Graph, c: seq<string>) {
    ClosedWalk(g, c) && forall d :: ClosedWalk(g, d) && Reachable(g, c[0], d[0]) ==> Connected(g, c[0], d[0])
  }

  ghost predicate ComponentReported(g: Graph, c: seq<string>)
    requires c != []
  {
    exists r :: r in Reported(g, Sorted(g.Keys)) && r != [] && Connected(g, c[0], r[0])
  }

  lemma ReachableOnward(g: Graph, a: string, b: string, c: string)
    requires Reachable(g, a, b) && Reachable(g, b, c)
    ensures Reachable(g, a, c)
  {
    var w :| Walk(g, w) && w[0] == a && w[|w| - 1] == b;
    var v :| Walk(g, v) && v[0] == b && v[|v| - 1] == c;
    var long := w + v[1..];
    forall i | 0 <= i < |long| - 1 ensures long[i + 1] in Dependencies(g, long[i]) {
      if i >= |w| - 1 { assert long[i] == v[i - |w| + 1] && long[i + 1] == v[i - |w| + 2]; }
    }
    assert Walk(g, long) && long[|long| - 1] == c;
  }

  lemma OnCycleConnected(g: Graph, c: seq<string>, i: nat)
    requires ClosedWalk(g, c) && i < |c|
    ensures Connected(g, c[0], c[i])
  {
    assert Walk(g, c[..i + 1]) && Walk(g, c[i..]);
  }

  lemma SameCycleConnected(g: Graph, a: seq<string>, b: seq<string>)
    requires IsCycle(g, a) && IsCycle(g, b) && Normalize(a) == Normalize(b)
    ensures Connected(g, a[0], b[0])
  {
    NormalizeIsCanonical(a, b);
    var u, v := a[..|a| - 1], b[..|b| - 1];
    var k :| 0 <= k <= |u| && v == Rotation(u, k);
    RotationAt(u, k, 0);
    OnCycleConnected(g, a, Wrap(k, |u|));
  }

  /** A cycle from which no other cyclic component is reachable is always reported, if not
      itself then by a cycle of its component. */
  lemma BottomIsReported(g: Graph, c: seq<string>)
    requires Bottom(g, c)
    ensures ComponentReported(g, c)
  {
    assert Walk(g, [c[0]]) && Reachable(g, c[0], c[0]);
    assert c[1] in Dependencies(g, c[0]);
    FindCycleFromIsExact(g, c[0]);
    var found := FindCycleFrom(g, c[0]).value;
    NothingIsMissed(g, Sorted(g.Keys), c[0]);
    ReportedIsSound(g, Sorted(g.Keys));
    var r :| r in Reported(g, Sorted(g.Keys)) && |r| >= 2 && Normalize(r) == Normalize(found);
    SameCycleConnected(g, found, r);
    ReachableOnward(g, c[0], found[0], r[0]);
    ReachableOnward(g, r[0], found[0], c[0]);
  }

  // ---------- exactly which cycles are reported ----------

  ghost predicate CycleReported(g: Graph, c: seq<string>) {
    exists r :: r in Reported(g, Sorted(g.Keys)) && SameCycle(r, c)
  }

  lemma {:induction false} ReportedIsFound(g: Graph, packages: seq<string>, r: seq<string>)
    requires r in Reported(g, packages)
    ensures exists start :: start in packages && FindCycleFrom(g, start) == Some(r)
  {
    var init := packages[..|packages| - 1];
    if r in Reported(g, init) {
      ReportedIsFound(g, init, r);
      var start :| start in init && FindCycleFrom(g, start) == Some(r);
      assert start in packages;
    }
  }

  lemma ReportsFollow(g: Graph, packages: seq<string>, r: seq<string>)
    requires r in Reported(g, packages)
    ensures IsCycle(g, r) && AllFollow(g, r)
  {
    ReportedIsSound(g, packages);
    ReportedIsFound(g, packages, r);
    var start :| start in packages && FindCycleFrom(g, start) == Some(r);
    FoundCyclesFollow(g, start, [start]);
  }

  /** The same cycle entered elsewhere takes the same steps. */
  lemma StepsRotate(g: Graph, r: seq<string>, c: seq<string>)
    requires |r| >= 2 && r[0] == r[|r| - 1] && |c| >= 2 && c[0] == c[|c| - 1] && SameCycle(r, c) && AllFollow(g, r)
    ensures AllFollow(g, c)
  {
    var u, v := r[..|r| - 1], c[..|c| - 1];
    var k :| 0 <= k <= |u| && v == Rotation(u, k);
    forall i | 0 <= i < |c| - 1 ensures Follows(g, c[i], c[i + 1]) {
      var x := Wrap(i + k, |u|);
      RotationAt(u, k, i);
      RotationAt(u, k, if i + 1 < |u| then i + 1 else 0);
      assert Follows(g, r[x], r[x + 1]);
    }
  }

  lemma FollowedCycleIsReported(g: Graph, c: seq<string>)
    requires IsCycle(g, c) && AllFollow(g, c)
    ensures CycleReported(g, c)
  {
    assert c[1] in Dependencies(g, c[0]);
    assert c[..1] == [c[0]];
    FollowedCycleIsFound(g, c, 1);
    NothingIsMissed(g, Sorted(g.Keys), c[0]);
    ReportedIsSound(g, Sorted(g.Keys));
    var r :| r in Reported(g, Sorted(g.Keys)) && |r| >= 2 && Normalize(r) == Normalize(c);
    NormalizeIsCanonical(r, c);
  }

  /** Exact condition: a cycle is reported if and only if each of its steps goes to the least
      dependency that leads to any cycle. */
  lemma CycleIsReportedIff(g: Graph, c: seq<string>)
    requires IsCycle(g, c)
    ensures CycleReported(g, c) <==> AllFollow(g, c)
  {
    if CycleReported(g, c) {
      var r :| r in Reported(g, Sorted(g.Keys)) && SameCycle(r, c);
      ReportsFollow(g, Sorted(g.Keys), r);
      StepsRotate(g, r, c);
    }
    if AllFollow(g, c) { FollowedCycleIsReported(g, c); }
  }

  /** The cycle entered at its i-th package. */
  function EnteredAt(c: seq<string>, i: nat): seq<string>
    requires i < |c| - 1
  {
    Rotation(c[..|c| - 1], i) + [c[i]]
  }

  lemma EnteredElsewhere(g: Graph, c: seq<string>, i: nat)
    requires IsCycle(g, c) && AllFollow(g, c) && i < |c| - 1
    ensures var e := EnteredAt(c, i);
      |e| == |c| && e[0] == c[i] && SameCycle(c, e) && IsCycle(g, e) && AllFollow(g, e)
  {
    var u, e := c[..|c| - 1], EnteredAt(c, i);
    var v := e[..|e| - 1];
    assert v == Rotation(u, i);
    RotationAt(u, i, 0);
    assert e[0] == c[i];
    StepsRotate(g, c, e);
    forall j | 0 <= j < |e| - 1 ensures e[j + 1] in Dependencies(g, e[j]) {
      assert Follows(g, e[j], e[j + 1]);
    }
    forall a, b | 0 <= a < b < |v| ensures v[a] != v[b] {
      RotationAt(u, i, a);
      RotationAt(u, i, b);
    }
  }

  /** From any package of such a cycle the search finds that cycle. */
  lemma FoundFromEverywhere(g: Graph, c: seq<string>, p: string)
    requires IsCycle(g, c) && AllFollow(g, c) && p in c
    ensures var found := FindCycleFrom(g, p);
      found.Some? && |found.value| >= 2 && Normalize(found.value) == Normalize(c)
  {
    var i := IndexOf(c, p);
    assert i > 0 ==> c[..i][0] == c[0] && c[0] in c[..i];
    EnteredElsewhere(g, c, i);
    var e := EnteredAt(c, i);
    FollowedCycleIsFound(g, e, 1);
    assert e[..1] == [p];
    NormalizeIsCanonical(c, e);
  }

  lemma SameReport(g: Graph, reported: seq<seq<string>>, a: seq<string>, b: seq<string>)
    requires Sound(g, reported) && a in reported && b in reported && Normalize(a) == Normalize(b)
    ensures a == b
  {
    var i :| 0 <= i < |reported| && reported[i] == a;
    var j :| 0 <= j < |reported| && reported[j] == b;
    assert i == j;
  }

  /** No package is in two reports. */
  lemma ReportsAreDisjoint(g: Graph, a: seq<string>, b: seq<string>, p: string)
    requires a in Reported(g, Sorted(g.Keys)) && b in Reported(g, Sorted(g.Keys)) && p in a && p in b
    ensures a == b
  {
    ReportsFollow(g, Sorted(g.Keys), a);
    ReportsFollow(g, Sorted(g.Keys), b);
    FoundFromEverywhere(g, a, p);
    FoundFromEverywhere(g, b, p);
    ReportedIsSound(g, Sorted(g.Keys));
    SameReport(g, Reported(g, Sorted(g.Keys)), a, b);
  }

  /** Not every cycle is reported: q sorts after m, which leads to a cycle of its own. */
  lemma UpperIsNotReported()
    ensures var g: Graph := map["m" := {"n"}, "n" := {"m"}, "p" := {"m", "q"}, "q" := {"p"}];
      IsCycle(g, ["p", "q", "p"]) && !CycleReported(g, ["p", "q", "p"])
  {
    var g: Graph := map["m" := {"n"}, "n" := {"m"}, "p" := {"m", "q"}, "q" := {"p"}];
    var c, lower := ["p", "q", "p"], ["m", "n", "m"];
    assert c[..|c| - 1] == ["p", "q"];
    assert ClosedWalk(g, lower);
    ReachesItself(g, "m");
    assert CycleReachable(g, lower[0]);
    BelowIsStrict("m", "q");
    assert !Follows(g, c[0], c[1]);
    CycleIsReportedIff(g, c);
  }
}
