/** What a report says about the imports themselves (scripts/validate_architecture.py). */
module ArchitectureReport {
  import opened Common
  import opened ArchitectureGraph
  import opened ArchitectureCycles
  import opened ArchitectureRules

  // ---------- edges ----------

  /** One of these parsed imports is the package or something inside it. */
  ghost predicate SomeImport(imports: seq<Import>, package: string) {
    exists k :: 0 <= k < |imports| && Owns(package, imports[k].name)
  }

  ghost predicate FileImports(file: SourceFile, package: string) {
    file.imports.Success? && SomeImport(file.imports.value, package)
  }

  ghost predicate FilesImport(files: seq<SourceFile>, package: string) {
    exists j :: 0 <= j < |files| && FileImports(files[j], package)
  }

  /** Some file of a source named p imports d. */
  ghost predicate PackageImports(sources: seq<SourcePackage>, p: string, d: string) {
    exists i :: 0 <= i < |sources| && sources[i].name == p && FilesImport(sources[i].files, d)
  }

  lemma {:induction false} ImportsAreEdges(rules: Rules, package: string, path: string, imports: seq<Import>, d: string)
    requires rules.Valid() && package in rules.packages
    ensures d in FromImports(rules, package, path, imports).edges <==> d in rules.packages && d != package && SomeImport(imports, d)
  {
    if imports != [] {
      var init, last := imports[..|imports| - 1], imports[|imports| - 1];
      ImportsAreEdges(rules, package, path, init, d);
      if d in rules.packages { OnlyTheRootOwns(d, last.name); }
      if SomeImport(imports, d) {
        var k :| 0 <= k < |imports| && Owns(d, imports[k].name);
        assert k < |init| ==> Owns(d, init[k].name);
      }
      if SomeImport(init, d) {
        var k :| 0 <= k < |init| && Owns(d, init[k].name);
        assert Owns(d, imports[k].name);
      }
    }
  }

  lemma {:induction false} FilesAreEdges(rules: Rules, package: string, files: seq<SourceFile>, d: string)
    requires rules.Valid() && package in rules.packages
    ensures d in FromFiles(rules, package, files).edges <==> d in rules.packages && d != package && FilesImport(files, d)
  {
    if files != [] {
      var init, last := files[..|files| - 1], files[|files| - 1];
      FilesAreEdges(rules, package, init, d);
      if last.imports.Success? { ImportsAreEdges(rules, package, last.path, last.imports.value, d); }
      if FilesImport(files, d) {
        var j :| 0 <= j < |files| && FileImports(files[j], d);
        assert j < |init| ==> FileImports(init[j], d);
      }
      if FilesImport(init, d) {
        var j :| 0 <= j < |init| && FileImports(init[j], d);
        assert FileImports(files[j], d);
      }
    }
  }

  /** The graph has exactly the edges the imports make, allowed or not. */
  lemma {:induction false} GraphIsTheImports(rules: Rules, sources: seq<SourcePackage>, p: string, d: string)
    requires rules.Valid() && Configured(rules, sources) && p in rules.packages
    ensures d in ImportGraph(rules, sources)[p] <==> d in rules.packages && d != p && PackageImports(sources, p, d)
  {
    if sources != [] {
      var init, last := sources[..|sources| - 1], sources[|sources| - 1];
      GraphIsTheImports(rules, init, p, d);
      FilesAreEdges(rules, last.name, last.files, d);
      OneMoreSource(sources, p, d);
    }
  }

  lemma OneMoreSource(sources: seq<SourcePackage>, p: string, d: string)
    requires sources != []
    ensures var init, last := sources[..|sources| - 1], sources[|sources| - 1];
      PackageImports(sources, p, d) <==> PackageImports(init, p, d) || (last.name == p && FilesImport(last.files, d))
  {
    var init := sources[..|sources| - 1];
    if PackageImports(sources, p, d) {
      var i :| 0 <= i < |sources| && sources[i].name == p && FilesImport(sources[i].files, d);
      assert i < |init| ==> init[i].name == p && FilesImport(init[i].files, d);
    }
    if PackageImports(init, p, d) {
      var i :| 0 <= i < |init| && init[i].name == p && FilesImport(init[i].files, d);
      assert sources[i].name == p && FilesImport(sources[i].files, d);
    }
  }

  /** One package imports another. */
  ghost predicate DependsOn(rules: Rules, sources: seq<SourcePackage>, p: string, d: string) {
    p in rules.packages && d in rules.packages && d != p && PackageImports(sources, p, d)
  }

  /** Packages that import each other in a ring. */
  ghost predicate ImportRing(rules: Rules, sources: seq<SourcePackage>, c: seq<string>) {
    && |c| >= 2 && c[0] == c[|c| - 1]
    && forall i :: 0 <= i < |c| - 1 ==> DependsOn(rules, sources, c[i], c[i + 1])
  }

  lemma RingsAreWalks(rules: Rules, sources: seq<SourcePackage>, c: seq<string>)
    requires rules.Valid() && Configured(rules, sources)
    ensures ClosedWalk(ImportGraph(rules, sources), c) <==> ImportRing(rules, sources, c)
  {
    var g := ImportGraph(rules, sources);
    if |c| >= 2 && c[0] == c[|c| - 1] {
      forall i | 0 <= i < |c| - 1 ensures c[i + 1] in Dependencies(g, c[i]) <==> DependsOn(rules, sources, c[i], c[i + 1]) {
        if c[i] in rules.packages { GraphIsTheImports(rules, sources, c[i], c[i + 1]); }
      }
    }
  }

  // ---------- violations ----------

  /** The name an import must not have: a package that is not allowed, or a forbidden root. */
  predicate Objectionable(rules: Rules, package: string, reference: Import, name: string)
    requires package in rules.allowed && package in rules.forbidden
  {
    Owns(name, reference.name)
    && ((name in rules.packages && name != package && name !in rules.allowed[package])
        || (name in rules.forbidden[package] && '.' !in name))
  }

  ghost predicate ImportComplaint(rules: Rules, package: string, path: string, imports: seq<Import>, v: Violation)
    requires package in rules.allowed && package in rules.forbidden
  {
    exists k :: 0 <= k < |imports| && v.problem.MustNotImport? && Objectionable(rules, package, imports[k], v.problem.name)
      && v == Violation(package, path, imports[k].line, v.problem)
  }

  /** A file earns exactly its syntax problem, or one complaint for each objectionable import. */
  ghost predicate FileComplaint(rules: Rules, package: string, file: SourceFile, v: Violation)
    requires package in rules.allowed && package in rules.forbidden
  {
    match file.imports
    case Failure(p) => v == Violation(package, file.path, p.line, InvalidSyntax(p.message))
    case Success(imports) => ImportComplaint(rules, package, file.path, imports, v)
  }

  ghost predicate FilesComplaint(rules: Rules, package: string, files: seq<SourceFile>, v: Violation)
    requires package in rules.allowed && package in rules.forbidden
  {
    exists j :: 0 <= j < |files| && FileComplaint(rules, package, files[j], v)
  }

  ghost predicate Complaint(rules: Rules, sources: seq<SourcePackage>, v: Violation)
    requires rules.Valid() && Configured(rules, sources)
  {
    exists i :: 0 <= i < |sources| && FilesComplaint(rules, sources[i].name, sources[i].files, v)
  }

  lemma OneImport(rules: Rules, package: string, path: string, reference: Import, v: Violation)
    requires rules.Valid() && package in rules.packages
    ensures v in ImportViolations(rules, package, path, reference)
      <==> v.problem.MustNotImport? && Objectionable(rules, package, reference, v.problem.name)
           && v == Violation(package, path, reference.line, v.problem)
  {
    if v.problem.MustNotImport? {
      if '.' !in v.problem.name { OnlyTheRootOwns(v.problem.name, reference.name); }
      OnlyTheRootOwns(ModuleRoot(reference.name), reference.name);
    }
  }

  lemma {:induction false} ImportsComplain(rules: Rules, package: string, path: string, imports: seq<Import>, v: Violation)
    requires rules.Valid() && package in rules.packages
    ensures v in FromImports(rules, package, path, imports).violations <==> ImportComplaint(rules, package, path, imports, v)
  {
    if imports != [] {
      var init, last := imports[..|imports| - 1], imports[|imports| - 1];
      ImportsComplain(rules, package, path, init, v);
      OneImport(rules, package, path, last, v);
      if ImportComplaint(rules, package, path, init, v) {
        var k :| 0 <= k < |init| && Objectionable(rules, package, init[k], v.problem.name) && v == Violation(package, path, init[k].line, v.problem);
        assert Objectionable(rules, package, imports[k], v.problem.name);
      }
      if ImportComplaint(rules, package, path, imports, v) {
        var k :| 0 <= k < |imports| && Objectionable(rules, package, imports[k], v.problem.name) && v == Violation(package, path, imports[k].line, v.problem);
        assert k < |init| ==> Objectionable(rules, package, init[k], v.problem.name);
      }
    }
  }

  lemma {:induction false} FilesComplain(rules: Rules, package: string, files: seq<SourceFile>, v: Violation)
    requires rules.Valid() && package in rules.packages
    ensures v in FromFiles(rules, package, files).violations <==> FilesComplaint(rules, package, files, v)
  {
    if files != [] {
      var init, last := files[..|files| - 1], files[|files| - 1];
      FilesComplain(rules, package, init, v);
      if last.imports.Success? { ImportsComplain(rules, package, last.path, last.imports.value, v); }
      assert v in FromFile(rules, package, last).violations <==> FileComplaint(rules, package, last, v);
      if FilesComplaint(rules, package, init, v) {
        var j :| 0 <= j < |init| && FileComplaint(rules, package, init[j], v);
        assert FileComplaint(rules, package, files[j], v);
      }
      if FilesComplaint(rules, package, files, v) {
        var j :| 0 <= j < |files| && FileComplaint(rules, package, files[j], v);
        assert j < |init| ==> FileComplaint(rules, package, init[j], v);
      }
    }
  }

  /** The import problems are exactly the complaints the files earn. */
  lemma {:induction false} ProblemsAreTheComplaints(rules: Rules, sources: seq<SourcePackage>, v: Violation)
    requires rules.Valid() && Configured(rules, sources)
    ensures v in ImportProblems(rules, sources) <==> Complaint(rules, sources, v)
  {
    if sources != [] {
      var init, last := sources[..|sources| - 1], sources[|sources| - 1];
      ProblemsAreTheComplaints(rules, init, v);
      FilesComplain(rules, last.name, last.files, v);
      if Complaint(rules, init, v) {
        var i :| 0 <= i < |init| && FilesComplaint(rules, init[i].name, init[i].files, v);
        assert FilesComplaint(rules, sources[i].name, sources[i].files, v);
      }
      if Complaint(rules, sources, v) {
        var i :| 0 <= i < |sources| && FilesComplaint(rules, sources[i].name, sources[i].files, v);
        assert i < |init| ==> FilesComplaint(rules, init[i].name, init[i].files, v);
      }
    }
  }

  // ---------- order and number ----------

  lemma {:induction false} ImportsInOrder(rules: Rules, package: string, path: string, a: seq<Import>, b: seq<Import>)
    requires rules.Valid() && package in rules.packages
    ensures FromImports(rules, package, path, a + b).violations
      == FromImports(rules, package, path, a).violations + FromImports(rules, package, path, b).violations
  {
    if b == [] {
      assert a + b == a;
    } else {
      ImportsInOrder(rules, package, path, a, b[..|b| - 1]);
      assert (a + b)[..|a + b| - 1] == a + b[..|b| - 1] && (a + b)[|a + b| - 1] == b[|b| - 1];
    }
  }

  lemma {:induction false} FilesInOrder(rules: Rules, package: string, a: seq<SourceFile>, b: seq<SourceFile>)
    requires rules.Valid() && package in rules.packages
    ensures FromFiles(rules, package, a + b).violations == FromFiles(rules, package, a).violations + FromFiles(rules, package, b).violations
  {
    if b == [] {
      assert a + b == a;
    } else {
      FilesInOrder(rules, package, a, b[..|b| - 1]);
      assert (a + b)[..|a + b| - 1] == a + b[..|b| - 1] && (a + b)[|a + b| - 1] == b[|b| - 1];
    }
  }

  /** Problems are listed in the order of sources, files and imports: those of a list split in
      two are those of its first part followed by those of its second, at every level. */
  lemma {:induction false} ProblemsInOrder(rules: Rules, a: seq<SourcePackage>, b: seq<SourcePackage>)
    requires rules.Valid() && Configured(rules, a) && Configured(rules, b)
    ensures ImportProblems(rules, a + b) == ImportProblems(rules, a) + ImportProblems(rules, b)
  {
    if b == [] {
      assert a + b == a;
    } else {
      ProblemsInOrder(rules, a, b[..|b| - 1]);
      assert (a + b)[..|a + b| - 1] == a + b[..|b| - 1] && (a + b)[|a + b| - 1] == b[|b| - 1];
    }
  }

  ghost predicate NotAllowed(rules: Rules, package: string, reference: Import)
    requires package in rules.allowed
  {
    exists name :: name in rules.packages && name != package && name !in rules.allowed[package] && Owns(name, reference.name)
  }

  ghost predicate Forbidden(rules: Rules, package: string, reference: Import)
    requires package in rules.forbidden
  {
    exists name :: name in rules.forbidden[package] && '.' !in name && Owns(name, reference.name)
  }

  /** One import earns one complaint for each of the two grounds it gives. */
  lemma ComplaintsOfOneImport(rules: Rules, package: string, path: string, reference: Import)
    requires rules.Valid() && package in rules.packages
    ensures |ImportViolations(rules, package, path, reference)|
      == (if NotAllowed(rules, package, reference) then 1 else 0) + (if Forbidden(rules, package, reference) then 1 else 0)
  {
    var root := ModuleRoot(reference.name);
    forall name ensures '.' !in name ==> (Owns(name, reference.name) <==> name == root) {
      if '.' !in name { OnlyTheRootOwns(name, reference.name); }
    }
  }

  // ---------- the whole report ----------

  ghost predicate LastNamed(sources: seq<SourcePackage>, package: string, i: int) {
    0 <= i < |sources| && sources[i].name == package && forall j :: i < j < |sources| ==> sources[j].name != package
  }

  /** The directory of the last source of that name, or "." without one. */
  ghost predicate IsPathOf(sources: seq<SourcePackage>, package: string, path: string) {
    || (exists i :: LastNamed(sources, package, i) && sources[i].sourceDir == path)
    || (path == "." && forall i :: 0 <= i < |sources| ==> sources[i].name != package)
  }

  lemma StillLast(sources: seq<SourcePackage>, package: string, i: int)
    requires sources != [] && sources[|sources| - 1].name != package && LastNamed(sources[..|sources| - 1], package, i)
    ensures LastNamed(sources, package, i) && sources[i] == sources[..|sources| - 1][i]
  {
    forall j | i < j < |sources| - 1 ensures sources[j].name != package { assert sources[j] == sources[..|sources| - 1][j]; }
  }

  lemma {:induction false} PathIsLast(sources: seq<SourcePackage>, package: string)
    ensures IsPathOf(sources, package, PackagePath(sources, package))
    decreases |sources|, 1
  {
    if sources != [] {
      if sources[|sources| - 1].name == package {
        assert LastNamed(sources, package, |sources| - 1);
      } else {
        PathStaysLast(sources, package);
      }
    }
  }

  lemma PathStaysLast(sources: seq<SourcePackage>, package: string)
    requires sources != [] && sources[|sources| - 1].name != package
    ensures IsPathOf(sources, package, PackagePath(sources, package))
    decreases |sources|, 0
  {
    var init := sources[..|sources| - 1];
    PathIsLast(init, package);
    if i :| LastNamed(init, package, i) && init[i].sourceDir == PackagePath(init, package) {
      StillLast(sources, package, i);
    } else {
      forall i | 0 <= i < |sources| ensures sources[i].name != package { assert i < |init| ==> sources[i] == init[i]; }
    }
  }

  /** A cycle violation names a ring of imports, where it begins, at line 1. */
  ghost predicate CycleComplaint(rules: Rules, sources: seq<SourcePackage>, v: Violation) {
    && v.problem.DependencyCycle? && v.problem.cycle != []
    && ImportRing(rules, sources, v.problem.cycle) && NoDuplicates(v.problem.cycle[1..])
    && v.package == v.problem.cycle[0] && v.line == 1 && IsPathOf(sources, v.package, v.path)
  }

  lemma CyclesComplain(rules: Rules, sources: seq<SourcePackage>, cycles: seq<seq<string>>, i: nat)
    requires rules.Valid() && Configured(rules, sources)
    requires (forall c :: c in cycles ==> c != [] && IsCycle(ImportGraph(rules, sources), c)) && i < |cycles|
    ensures CycleComplaint(rules, sources, CycleViolations(sources, cycles)[i])
  {
    var c := cycles[i];
    assert c in cycles;
    RingsAreWalks(rules, sources, c);
    PathIsLast(sources, c[0]);
    EndedWhereBegun(c);
  }

  lemma EndedWhereBegun(c: seq<string>)
    requires |c| >= 2 && c[0] == c[|c| - 1] && NoDuplicates(c[..|c| - 1])
    ensures NoDuplicates(c[1..])
  {
    forall i, j | 0 <= i < j < |c| - 1 ensures c[1..][i] != c[1..][j] {
      assert c[i + 1] == c[..|c| - 1][i + 1];
      assert if j + 1 < |c| - 1 then c[j + 1] == c[..|c| - 1][j + 1] else c[j + 1] == c[..|c| - 1][0];
    }
  }

  /** A report, in terms of the files: it holds exactly the complaints they earn, cycles that
      are real, and a cycle exactly when the imports, allowed ones included, run in a ring. */
  ghost predicate Reports(rules: Rules, sources: seq<SourcePackage>, violations: seq<Violation>)
    requires rules.Valid() && Configured(rules, sources)
  {
    && (forall v :: v in violations && !v.problem.DependencyCycle? <==> Complaint(rules, sources, v))
    && (forall v :: v in violations && v.problem.DependencyCycle? ==> CycleComplaint(rules, sources, v))
    && ((exists v :: v in violations && v.problem.DependencyCycle?) <==> (exists c :: ImportRing(rules, sources, c)))
  }

  lemma RingsAreReported(rules: Rules, sources: seq<SourcePackage>)
    requires rules.Valid() && Configured(rules, sources)
    ensures Reported(ImportGraph(rules, sources), Sorted(rules.packages)) != [] <==> exists c :: ImportRing(rules, sources, c)
  {
    var g := ImportGraph(rules, sources);
    ReportIsExact(g);
    forall c ensures ClosedWalk(g, c) <==> ImportRing(rules, sources, c) { RingsAreWalks(rules, sources, c); }
  }

  lemma AllCyclesComplain(rules: Rules, sources: seq<SourcePackage>, cycles: seq<seq<string>>)
    requires rules.Valid() && Configured(rules, sources) && forall c :: c in cycles ==> c != [] && IsCycle(ImportGraph(rules, sources), c)
    ensures forall v :: v in CycleViolations(sources, cycles) ==> v.problem.DependencyCycle? && CycleComplaint(rules, sources, v)
  {
    forall v | v in CycleViolations(sources, cycles) ensures v.problem.DependencyCycle? && CycleComplaint(rules, sources, v) {
      var i :| 0 <= i < |cycles| && CycleViolations(sources, cycles)[i] == v;
      CyclesComplain(rules, sources, cycles, i);
    }
  }

  lemma AllProblemsComplain(rules: Rules, sources: seq<SourcePackage>)
    requires rules.Valid() && Configured(rules, sources)
    ensures forall v :: v in ImportProblems(rules, sources) <==> Complaint(rules, sources, v)
    ensures forall v :: Complaint(rules, sources, v) ==> !v.problem.DependencyCycle?
  {
    forall v ensures v in ImportProblems(rules, sources) <==> Complaint(rules, sources, v) {
      ProblemsAreTheComplaints(rules, sources, v);
    }
  }

  lemma ReportIsTheImports(rules: Rules, sources: seq<SourcePackage>, cycles: seq<seq<string>>)
    requires rules.Valid() && Configured(rules, sources)
    requires cycles == Reported(ImportGraph(rules, sources), Sorted(rules.packages))
    ensures forall c :: c in cycles ==> c != []
    ensures Reports(rules, sources, ImportProblems(rules, sources) + CycleViolations(sources, cycles))
  {
    ReportIsExact(ImportGraph(rules, sources));
    RingsAreReported(rules, sources);
    AllProblemsComplain(rules, sources);
    AllCyclesComplain(rules, sources, cycles);
    Joined(rules, sources, ImportProblems(rules, sources), CycleViolations(sources, cycles));
  }

  lemma Joined(rules: Rules, sources: seq<SourcePackage>, problems: seq<Violation>, found: seq<Violation>)
    requires rules.Valid() && Configured(rules, sources)
    requires forall v :: v in problems <==> Complaint(rules, sources, v)
    requires forall v :: Complaint(rules, sources, v) ==> !v.problem.DependencyCycle?
    requires forall v :: v in found ==> v.problem.DependencyCycle? && CycleComplaint(rules, sources, v)
    requires found != [] <==> exists c :: ImportRing(rules, sources, c)
    ensures Reports(rules, sources, problems + found)
  {
    if found != [] { assert found[0] in problems + found; }
  }

  method ValidateRepository(rules: Rules, sources: seq<SourcePackage>) returns (violations: seq<Violation>)
    requires rules.Valid() && Configured(rules, sources)
    ensures Reports(rules, sources, violations)
    ensures var cycles := Reported(ImportGraph(rules, sources), Sorted(rules.packages));
      && (forall c :: c in cycles ==> c != [])
      && violations == ImportProblems(rules, sources) + CycleViolations(sources, cycles)
  {
    violations := [];
    var graph: Graph := map p | p in rules.packages :: {};
    for i := 0 to |sources|
      invariant graph == ImportGraph(rules, sources[..i])
      invariant violations == ImportProblems(rules, sources[..i])
    {
      assert sources[..i + 1][..i] == sources[..i];
      var found := ValidateFiles(rules, sources[i].name, sources[i].files);
      violations := violations + found.violations;
      graph := graph[sources[i].name := graph[sources[i].name] + found.edges];
    }
    assert sources[..|sources|] == sources;
    var cycles := DetectCycles(graph);
    ReportIsTheImports(rules, sources, cycles);
    violations := violations + CycleViolations(sources, cycles);
  }
}
