/** The import-boundary validation of a whole repository
    (scripts/validate_architecture.py). */
module ArchitectureRules {
  import opened Common
  import opened ArchitectureGraph
  import opened ArchitectureCycles

  datatype Import = Import(name: string, line: nat)

  datatype SyntaxProblem = SyntaxProblem(line: nat, message: string)

  datatype SourceFile = SourceFile(path: string, imports: Result<seq<Import>, SyntaxProblem>)

  datatype SourcePackage = SourcePackage(name: string, sourceDir: string, files: seq<SourceFile>)

  datatype Problem = InvalidSyntax(message: string) | MustNotImport(name: string) | DependencyCycle(cycle: seq<string>)

  datatype Violation = Violation(package: string, path: string, line: nat, problem: Problem)

  /** The package names, the allowed internal imports and the forbidden import roots. */
  datatype Rules = Rules(packages: set<string>, allowed: Graph, forbidden: map<string, set<string>>) {
    predicate Valid() {
      && allowed.Keys == packages && forbidden.Keys == packages
      && forall p :: p in packages ==> '.' !in p
    }
  }

  // ---------- module names ----------

  /** module.split(".", maxsplit=1)[0]. */
  function ModuleRoot(name: string): (root: string)
    ensures '.' !in root && root <= name
    ensures root == name || name[|root|] == '.'
  {
    if name == [] || name[0] == '.' then [] else [name[0]] + ModuleRoot(name[1..])
  }

  predicate Owns(package: string, name: string) {
    name == package || package + "." <= name
  }

  function OwningPackage(rules: Rules, name: string): Option<string> {
    if ModuleRoot(name) in rules.packages then Some(ModuleRoot(name)) else None
  }

  /** At most one package owns an import, namely its root; so the order in which the
      unordered package set is searched does not matter. */
  lemma OnlyTheRootOwns(package: string, name: string)
    requires '.' !in package
    ensures Owns(package, name) <==> package == ModuleRoot(name)
  {
    var root := ModuleRoot(name);
    if Owns(package, name) {
      assert package == name[..|package|];
      if |root| < |package| { assert false; }
      assert name != package ==> name[|package|] == (package + ".")[|package|];
      assert root == name[..|root|];
    }
    if package == root && root != name {
      assert package + "." == name[..|package| + 1];
    }
  }

  /** The search over the package set, in any order. */
  method FindOwningPackage(rules: Rules, name: string) returns (owner: Option<string>)
    requires rules.Valid()
    ensures owner == OwningPackage(rules, name)
  {
    var rest := rules.packages;
    while rest != {}
      invariant rest <= rules.packages
      invariant forall p :: p in rules.packages - rest ==> !Owns(p, name)
      decreases |rest|
    {
      var package :| package in rest;
      OnlyTheRootOwns(package, name);
      if Owns(package, name) { return Some(package); }
      rest := rest - {package};
    }
    if ModuleRoot(name) in rules.packages { OnlyTheRootOwns(ModuleRoot(name), name); }
    owner := None;
  }

  // ---------- what one import, file and package contribute ----------

  function ImportEdge(rules: Rules, package: string, reference: Import): set<string> {
    var owner := OwningPackage(rules, reference.name);
    if owner.Some? && owner.value != package then {owner.value} else {}
  }

  function ImportViolations(rules: Rules, package: string, path: string, reference: Import): seq<Violation>
    requires package in rules.allowed && package in rules.forbidden
  {
    var owner := OwningPackage(rules, reference.name);
    var root := ModuleRoot(reference.name);
    (if owner.Some? && owner.value != package && owner.value !in rules.allowed[package]
     then [Violation(package, path, reference.line, MustNotImport(owner.value))] else [])
    + (if root in rules.forbidden[package]
       then [Violation(package, path, reference.line, MustNotImport(root))] else [])
  }

  /** Violations and dependencies collected so far. */
  datatype Findings = Findings(violations: seq<Violation>, edges: set<string>)

  function FromImports(rules: Rules, package: string, path: string, imports: seq<Import>): Findings
    requires package in rules.allowed && package in rules.forbidden
  {
    if imports == [] then Findings([], {})
    else
      var earlier := FromImports(rules, package, path, imports[..|imports| - 1]);
      var reference := imports[|imports| - 1];
      Findings(earlier.violations + ImportViolations(rules, package, path, reference),
               earlier.edges + ImportEdge(rules, package, reference))
  }

  function FromFile(rules: Rules, package: string, file: SourceFile): Findings
    requires package in rules.allowed && package in rules.forbidden
  {
    match file.imports
    case Failure(p) => Findings([Violation(package, file.path, p.line, InvalidSyntax(p.message))], {})
    case Success(imports) => FromImports(rules, package, file.path, imports)
  }

  function FromFiles(rules: Rules, package: string, files: seq<SourceFile>): Findings
    requires package in rules.allowed && package in rules.forbidden
  {
    if files == [] then Findings([], {})
    else
      var earlier := FromFiles(rules, package, files[..|files| - 1]);
      var last := FromFile(rules, package, files[|files| - 1]);
      Findings(earlier.violations + last.violations, earlier.edges + last.edges)
  }

  predicate Configured(rules: Rules, sources: seq<SourcePackage>) {
    forall i :: 0 <= i < |sources| ==> sources[i].name in rules.packages
  }

  function ImportGraph(rules: Rules, sources: seq<SourcePackage>): (g: Graph)
    requires rules.Valid() && Configured(rules, sources)
    ensures g.Keys == rules.packages
  {
    if sources == [] then map p | p in rules.packages :: {}
    else
      var earlier := ImportGraph(rules, sources[..|sources| - 1]);
      var last := sources[|sources| - 1];
      earlier[last.name := earlier[last.name] + FromFiles(rules, last.name, last.files).edges]
  }

  function ImportProblems(rules: Rules, sources: seq<SourcePackage>): seq<Violation>
    requires rules.Valid() && Configured(rules, sources)
  {
    if sources == [] then []
    else
      var last := sources[|sources| - 1];
      ImportProblems(rules, sources[..|sources| - 1]) + FromFiles(rules, last.name, last.files).violations
  }

  /** The source directory known for a package; the last one wins, "." when there is none. */
  function PackagePath(sources: seq<SourcePackage>, package: string): string {
    if sources == [] then "."
    else if sources[|sources| - 1].name == package then sources[|sources| - 1].sourceDir
    else PackagePath(sources[..|sources| - 1], package)
  }

  function CycleViolations(sources: seq<SourcePackage>, cycles: seq<seq<string>>): (violations: seq<Violation>)
    requires forall c :: c in cycles ==> c != []
    ensures |violations| == |cycles|
    ensures forall i :: 0 <= i < |cycles| ==> violations[i].problem == DependencyCycle(cycles[i])
  {
    seq(|cycles|, i requires 0 <= i < |cycles| =>
      assert cycles[i] in cycles;
      Violation(cycles[i][0], PackagePath(sources, cycles[i][0]), 1, DependencyCycle(cycles[i])))
  }

  // ---------- the loops ----------

  method ValidateFile(rules: Rules, package: string, file: SourceFile) returns (found: Findings)
    requires rules.Valid() && package in rules.packages
    ensures found == FromFile(rules, package, file)
  {
    match file.imports {
      case Failure(p) =>
        return Findings([Violation(package, file.path, p.line, InvalidSyntax(p.message))], {});
      case Success(imports) =>
        found := Findings([], {});
        for i := 0 to |imports|
          invariant found == FromImports(rules, package, file.path, imports[..i])
        {
          assert imports[..i + 1][..i] == imports[..i];
          var reference := imports[i];
          var owner := FindOwningPackage(rules, reference.name);
          var violations, edges := found.violations, found.edges;
          if owner.Some? && owner.value != package {
            edges := edges + {owner.value};
            if owner.value !in rules.allowed[package] {
              violations := violations + [Violation(package, file.path, reference.line, MustNotImport(owner.value))];
            }
          }
          if ModuleRoot(reference.name) in rules.forbidden[package] {
            violations := violations + [Violation(package, file.path, reference.line, MustNotImport(ModuleRoot(reference.name)))];
          }
          found := Findings(violations, edges);
        }
        assert imports[..|imports|] == imports;
    }
  }

  method ValidateFiles(rules: Rules, package: string, files: seq<SourceFile>) returns (found: Findings)
    requires rules.Valid() && package in rules.packages
    ensures found == FromFiles(rules, package, files)
  {
    found := Findings([], {});
    for i := 0 to |files|
      invariant found == FromFiles(rules, package, files[..i])
    {
      assert files[..i + 1][..i] == files[..i];
      var file := ValidateFile(rules, package, files[i]);
      found := Findings(found.violations + file.violations, found.edges + file.edges);
    }
    assert files[..|files|] == files;
  }

  // ---------- what the report means ----------

  /** A forbidden internal dependency is reported as an import violation. */
  ghost predicate EdgesExplained(rules: Rules, package: string, edges: set<string>, violations: seq<Violation>)
    requires package in rules.allowed
  {
    forall d :: d in edges && d !in rules.allowed[package] ==>
      exists i :: 0 <= i < |violations| && violations[i].package == package && violations[i].problem == MustNotImport(d)
  }

  lemma ExplainedTogether(rules: Rules, package: string, e1: set<string>, v1: seq<Violation>, e2: set<string>, v2: seq<Violation>)
    requires package in rules.allowed
    requires EdgesExplained(rules, package, e1, v1) && EdgesExplained(rules, package, e2, v2)
    ensures EdgesExplained(rules, package, e1 + e2, v1 + v2)
  {
    forall d | d in e1 + e2 && d !in rules.allowed[package]
      ensures exists i :: 0 <= i < |v1 + v2| && (v1 + v2)[i].package == package && (v1 + v2)[i].problem == MustNotImport(d)
    {
      if d in e1 {
        var i :| 0 <= i < |v1| && v1[i].package == package && v1[i].problem == MustNotImport(d);
        assert (v1 + v2)[i] == v1[i];
      } else {
        var i :| 0 <= i < |v2| && v2[i].package == package && v2[i].problem == MustNotImport(d);
        assert (v1 + v2)[|v1| + i] == v2[i];
      }
    }
  }

  lemma {:induction false} ImportsExplained(rules: Rules, package: string, path: string, imports: seq<Import>)
    requires package in rules.allowed && package in rules.forbidden
    ensures var f := FromImports(rules, package, path, imports); EdgesExplained(rules, package, f.edges, f.violations)
  {
    if imports != [] {
      var init, last := imports[..|imports| - 1], imports[|imports| - 1];
      ImportsExplained(rules, package, path, init);
      var earlier := FromImports(rules, package, path, init);
      var violations := ImportViolations(rules, package, path, last);
      assert EdgesExplained(rules, package, ImportEdge(rules, package, last), violations) by {
        forall d | d in ImportEdge(rules, package, last) && d !in rules.allowed[package]
          ensures exists i :: 0 <= i < |violations| && violations[i].package == package && violations[i].problem == MustNotImport(d)
        {
          assert violations[0].problem == MustNotImport(d);
        }
      }
      ExplainedTogether(rules, package, earlier.edges, earlier.violations, ImportEdge(rules, package, last), violations);
    }
  }

  lemma {:induction false} FilesExplained(rules: Rules, package: string, files: seq<SourceFile>)
    requires package in rules.allowed && package in rules.forbidden
    ensures var f := FromFiles(rules, package, files); EdgesExplained(rules, package, f.edges, f.violations)
  {
    if files != [] {
      var init, last := files[..|files| - 1], files[|files| - 1];
      FilesExplained(rules, package, init);
      if last.imports.Success? { ImportsExplained(rules, package, last.path, last.imports.value); }
      var f1, f2 := FromFiles(rules, package, init), FromFile(rules, package, last);
      ExplainedTogether(rules, package, f1.edges, f1.violations, f2.edges, f2.violations);
    }
  }

  lemma {:induction false} GraphExplained(rules: Rules, sources: seq<SourcePackage>, package: string)
    requires rules.Valid() && Configured(rules, sources) && package in rules.packages
    ensures EdgesExplained(rules, package, ImportGraph(rules, sources)[package], ImportProblems(rules, sources))
  {
    if sources != [] {
      var init, last := sources[..|sources| - 1], sources[|sources| - 1];
      GraphExplained(rules, init, package);
      var f := FromFiles(rules, last.name, last.files);
      FilesExplained(rules, last.name, last.files);
      if last.name == package {
        ExplainedTogether(rules, package, ImportGraph(rules, init)[package], ImportProblems(rules, init), f.edges, f.violations);
      } else {
        assert EdgesExplained(rules, package, {}, f.violations);
        ExplainedTogether(rules, package, ImportGraph(rules, init)[package], ImportProblems(rules, init), {}, f.violations);
        assert ImportGraph(rules, init)[package] + {} == ImportGraph(rules, init)[package];
      }
    }
  }

  predicate ReportsInternalImport(rules: Rules, problems: seq<Violation>) {
    exists i :: 0 <= i < |problems| && problems[i].problem.MustNotImport? && problems[i].problem.name in rules.packages
  }

  /** While the allowed-import table is acyclic, a dependency cycle is never the only
      complaint: some import on it is reported as well. */
  lemma CyclesAreExplained(rules: Rules, sources: seq<SourcePackage>)
    requires rules.Valid() && Configured(rules, sources) && Acyclic(rules.allowed)
    ensures Acyclic(ImportGraph(rules, sources)) || ReportsInternalImport(rules, ImportProblems(rules, sources))
  {
    var g, problems := ImportGraph(rules, sources), ImportProblems(rules, sources);
    if !Acyclic(g) {
      var c :| ClosedWalk(g, c);
      assert !ClosedWalk(rules.allowed, c);
      var i :| 0 <= i < |c| - 1 && c[i + 1] !in Dependencies(rules.allowed, c[i]);
      assert c[i + 1] in Dependencies(g, c[i]);
      GraphExplained(rules, sources, c[i]);
      EdgesArePackages(rules, sources, c[i]);
      var k :| 0 <= k < |problems| && problems[k].package == c[i] && problems[k].problem == MustNotImport(c[i + 1]);
      assert problems[k].problem.name in rules.packages;
    }
  }

  lemma {:induction false} FileEdgesArePackages(rules: Rules, package: string, files: seq<SourceFile>)
    requires package in rules.allowed && package in rules.forbidden
    ensures FromFiles(rules, package, files).edges <= rules.packages
  {
    if files != [] {
      FileEdgesArePackages(rules, package, files[..|files| - 1]);
      var last := files[|files| - 1];
      if last.imports.Success? { ImportEdgesArePackages(rules, package, last.path, last.imports.value); }
    }
  }

  lemma {:induction false} ImportEdgesArePackages(rules: Rules, package: string, path: string, imports: seq<Import>)
    requires package in rules.allowed && package in rules.forbidden
    ensures FromImports(rules, package, path, imports).edges <= rules.packages
  {
    if imports != [] { ImportEdgesArePackages(rules, package, path, imports[..|imports| - 1]); }
  }

  lemma {:induction false} EdgesArePackages(rules: Rules, sources: seq<SourcePackage>, package: string)
    requires rules.Valid() && Configured(rules, sources) && package in rules.packages
    ensures ImportGraph(rules, sources)[package] <= rules.packages
  {
    if sources != [] {
      EdgesArePackages(rules, sources[..|sources| - 1], package);
      FileEdgesArePackages(rules, sources[|sources| - 1].name, sources[|sources| - 1].files);
    }
  }

  // ---------- the configured table ----------

  const DOMAIN := "workflowforge_domain"
  const CONTRACTS := "workflowforge_contracts"
  const APPLICATION := "workflowforge_application"
  const INFRASTRUCTURE := "workflowforge_infrastructure"
  const API := "workflowforge_api"
  const WORKER := "workflowforge_worker"
  const SCHEDULER := "workflowforge_scheduler"

  function AllowedImports(): Graph {
    map[
      DOMAIN := {},
      CONTRACTS := {DOMAIN},
      APPLICATION := {DOMAIN, CONTRACTS},
      INFRASTRUCTURE := {DOMAIN, CONTRACTS, APPLICATION},
      API := {DOMAIN, CONTRACTS, APPLICATION, INFRASTRUCTURE},
      WORKER := {DOMAIN, CONTRACTS, APPLICATION, INFRASTRUCTURE},
      SCHEDULER := {DOMAIN, CONTRACTS, APPLICATION, INFRASTRUCTURE}
    ]
  }

  function Layer(package: string): nat {
    if package == DOMAIN then 0
    else if package == CONTRACTS then 1
    else if package == APPLICATION then 2
    else if package == INFRASTRUCTURE then 3
    else 4
  }

  lemma {:induction false} WalksDescend(g: Graph, rank: string -> nat, w: seq<string>)
    requires forall p, d :: p in g && d in g[p] ==> rank(d) < rank(p)
    requires Walk(g, w)
    ensures rank(w[|w| - 1]) + |w| - 1 <= rank(w[0])
  {
    if |w| > 1 {
      assert w[1] in Dependencies(g, w[0]);
      WalksDescend(g, rank, w[1..]);
    }
  }

  lemma NamesDiffer()
    ensures DOMAIN != CONTRACTS && DOMAIN != APPLICATION && DOMAIN != INFRASTRUCTURE
    ensures CONTRACTS != APPLICATION && CONTRACTS != INFRASTRUCTURE && APPLICATION != INFRASTRUCTURE
    ensures forall p :: p in [API, WORKER, SCHEDULER] ==>
      p != DOMAIN && p != CONTRACTS && p != APPLICATION && p != INFRASTRUCTURE
  {
    assert DOMAIN[14] == 'd' && WORKER[14] == 'w' && CONTRACTS[14] == 'c' && SCHEDULER[14] == 's';
  }

  /** The configured table lets each package import exactly the layers below its own. */
  lemma AllowedImportsAreTheLowerLayers(p: string, d: string)
    requires p in AllowedImports() && d in AllowedImports()
    ensures d in AllowedImports()[p] <==> Layer(d) < Layer(p)
  {
    NamesDiffer();
  }

  /** The configured table itself permits no cycle. */
  lemma AllowedImportsAreAcyclic()
    ensures Acyclic(AllowedImports())
  {
    NamesDiffer();
    var g := AllowedImports();
    forall c ensures !ClosedWalk(g, c) {
      if ClosedWalk(g, c) { WalksDescend(g, Layer, c); }
    }
  }
}
