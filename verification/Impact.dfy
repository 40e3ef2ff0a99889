/** Test selection (codna/impact.py): the conservative exits, the importer closure, and its guard. */
module Impact {
  import opened Collections
  import opened ImportGraph
  import opened Wrappers

  datatype Impact = All | Subset(tests: set<Path>)

  /** The per-file classifier: a language per path, and whether extraction finds a test, if it succeeds. */
  datatype CodeUnits = CodeUnits(languageFor: Path -> Option<string>, hasTest: Path -> Option<bool>)

  datatype Options = Options(broad: Path -> bool, codeunits: Option<CodeUnits>, sharedCoreFraction: real)

  // ----- the closure, as reachability -----

  function Seeds(changed: set<Path>): set<Name> {
    set c | c in changed && !IsTestFile(c) && ModuleKey(c).Some? :: ModuleKey(c).value
  }

  /** A non-test file of key `n` imports module `m`. */
  ghost predicate Link(files: seq<Source>, m: Name, n: Name) {
    exists f :: f in files && !IsTestFile(f.path) && ModuleKey(f.path) == Some(n) && Imports(files, f, m)
  }

  ghost predicate Chain(files: seq<Source>, chain: seq<Name>) {
    forall i :: 0 < i < |chain| ==> Link(files, chain[i - 1], chain[i])
  }

  ghost predicate ReachedBy(files: seq<Source>, seeds: set<Name>, m: Name, chain: seq<Name>) {
    chain != [] && chain[0] in seeds && chain[|chain| - 1] == m && Chain(files, chain)
  }

  /** `m` is a changed source module or imports one through a chain of non-test importers. */
  ghost predicate Reachable(files: seq<Source>, seeds: set<Name>, m: Name) {
    exists chain :: ReachedBy(files, seeds, m, chain)
  }

  ghost predicate TestReached(files: seq<Source>, seeds: set<Name>, f: Source) {
    IsTestFile(f.path) && exists m :: Reachable(files, seeds, m) && Imports(files, f, m)
  }

  /** The changed tests, and every test that imports a reachable module. */
  ghost function Affected(files: seq<Source>, changed: set<Path>): set<Path> {
    (set c | c in changed && IsTestFile(c)) +
    (set f | f in files && TestReached(files, Seeds(changed), f) :: f.path)
  }

  // ----- the whole decision -----

  function Tests(files: seq<Source>): set<Path> {
    set f | f in files && IsTestFile(f.path) :: f.path
  }

  /** Every changed file is source of a known non-Python language and holds no test of it. */
  predicate LanguageDisjoint(units: CodeUnits, changed: set<Path>) {
    forall c :: c in changed ==>
      && units.languageFor(c).Some? && units.languageFor(c).value !in {"", "python"}
      && units.hasTest(c) == Some(false)
  }

  /** The changed file can be placed in the graph. */
  predicate Placeable(files: seq<Source>, c: Path) {
    c.python && ModuleKey(c).Some? && exists f :: f in files && f.path == c && f.imports.Some?
  }

  predicate SharedCore(affected: nat, tests: nat, fraction: real)
    requires tests > 0
  {
    affected as real / tests as real >= fraction
  }

  /** The graph's answer, unless it comes too close to the whole suite. */
  ghost function FromGraph(files: seq<Source>, changed: set<Path>, tests: nat, o: Options): Impact
    requires tests > 0
  {
    if SharedCore(|Affected(files, changed)|, tests, o.sharedCoreFraction) then All
    else Subset(Affected(files, changed))
  }

  predicate AnyBroad(changed: set<Path>, o: Options) {
    exists c :: c in changed && o.broad(c)
  }

  predicate AnyUnplaceable(files: seq<Source>, changed: set<Path>) {
    exists c :: c in changed && !Placeable(files, c)
  }

  ghost function ImpactOf(files: seq<Source>, changed: set<Path>, o: Options): Impact {
    if changed == {} then All
    else if AnyBroad(changed, o) then All
    else if o.codeunits.Some? && LanguageDisjoint(o.codeunits.value, changed) then Subset({})
    else if Tests(files) == {} then All
    else if AnyUnplaceable(files, changed) then All
    else FromGraph(files, changed, |Tests(files)|, o)
  }

  // ----- the imperative code -----

  /** Whatever the worklist has visited, and what it still has to. */
  ghost predicate WorklistInv(files: seq<Source>, seeds: set<Name>, visited: set<Name>, frontier: set<Name>) {
    && seeds <= visited + frontier
    && (forall m :: m in visited + frontier ==> Reachable(files, seeds, m))
    && (forall m, n :: m in visited && Link(files, m, n) ==> n in visited + frontier)
  }

  lemma SeedsAreReachable(files: seq<Source>, seeds: set<Name>)
    ensures WorklistInv(files, seeds, {}, seeds)
  {
    forall m | m in seeds ensures Reachable(files, seeds, m) {
      assert ReachedBy(files, seeds, m, [m]);
    }
  }

  lemma LinkExtendsReach(files: seq<Source>, seeds: set<Name>, m: Name, n: Name)
    requires Reachable(files, seeds, m) && Link(files, m, n)
    ensures Reachable(files, seeds, n)
  {
    var chain :| ReachedBy(files, seeds, m, chain);
    var longer := chain + [n];
    forall i | 0 < i < |longer| ensures Link(files, longer[i - 1], longer[i]) {
      if i < |chain| {
        assert Link(files, chain[i - 1], chain[i]);
      }
    }
    assert ReachedBy(files, seeds, n, longer);
  }

  /** A closed set that holds the seeds holds everything reachable. */
  lemma {:induction false} ChainStaysInside(files: seq<Source>, seeds: set<Name>, visited: set<Name>, m: Name,
                                           chain: seq<Name>)
    requires seeds <= visited && (forall a, b :: a in visited && Link(files, a, b) ==> b in visited)
    requires ReachedBy(files, seeds, m, chain)
    ensures m in visited
    decreases |chain|
  {
    if |chain| > 1 {
      var shorter := chain[..|chain| - 1];
      forall i | 0 < i < |shorter| ensures Link(files, shorter[i - 1], shorter[i]) {
        assert Link(files, chain[i - 1], chain[i]);
      }
      ChainStaysInside(files, seeds, visited, shorter[|shorter| - 1], shorter);
      assert Link(files, chain[|chain| - 2], chain[|chain| - 1]);
    }
  }

  lemma VisitedIsReachable(files: seq<Source>, seeds: set<Name>, visited: set<Name>)
    requires WorklistInv(files, seeds, visited, {})
    ensures forall m :: m in visited <==> Reachable(files, seeds, m)
  {
    forall m | Reachable(files, seeds, m) ensures m in visited {
      var chain :| ReachedBy(files, seeds, m, chain);
      ChainStaysInside(files, seeds, visited, m, chain);
    }
  }

  /** Every key a worklist can ever hold. */
  function Universe(files: seq<Source>, seeds: set<Name>): set<Name> {
    seeds + set f | f in files && ModuleKey(f.path).Some? :: ModuleKey(f.path).value
  }

  /** The tests that import a visited module. */
  ghost function TestsOf(files: seq<Source>, visited: set<Name>): set<Path> {
    set f | f in files && IsTestFile(f.path) && (exists m :: m in visited && Imports(files, f, m)) :: f.path
  }

  /** The importers of one module, sorted into tests and the keys of the others. */
  method VisitImporters(g: Graph, files: seq<Source>, m: Name, visited: set<Name>)
    returns (tests: set<Path>, next: set<Name>)
    requires g.Built(files) && DistinctPaths(files)
    ensures tests == set f | f in files && IsTestFile(f.path) && Imports(files, f, m) :: f.path
    ensures forall n :: n in next <==> Link(files, m, n) && n !in visited
  {
    tests, next := {}, {};
    var todo := if m in g.importers then g.importers[m] else {};
    ghost var done: set<Path> := {};
    ghost var all := todo;
    assert forall p :: p in all <==> g.Edge(m, p);
    while todo != {}
      invariant todo + done == all
      invariant forall p :: p in tests <==> p in done && IsTestFile(p)
      invariant forall n :: n in next <==>
                  n !in visited && exists p :: p in done && !IsTestFile(p) && ModuleKey(p) == Some(n)
      decreases todo
    {
      var p :| p in todo;
      assert g.Edge(m, p) && p in g.primary;
      if IsTestFile(p) {
        tests := tests + {p};
      } else {
        var key := g.primary[p];
        if key.Some? && key.value !in visited {
          next := next + {key.value};
        }
      }
      todo, done := todo - {p}, done + {p};
    }
    ImportersOf(g, files, m, all);
  }

  lemma ImportersOf(g: Graph, files: seq<Source>, m: Name, all: set<Path>)
    requires g.Built(files) && (forall p :: p in all <==> g.Edge(m, p))
    ensures forall p :: p in all <==> exists f :: f in files && f.path == p && Imports(files, f, m)
  {
    forall p | p in all ensures exists f :: f in files && f.path == p && Imports(files, f, m) {
      assert p in PathSet(files);
      var f :| f in files && f.path == p;
      assert g.Edge(m, f.path);
    }
  }

  /** The worklist: in whatever order the frontier is popped it ends, and selects exactly the tests that
      import a module reachable from the seeds. */
  method ImporterClosure(g: Graph, files: seq<Source>, seeds: set<Name>) returns (affected: set<Path>)
    requires g.Built(files) && DistinctPaths(files)
    ensures affected == set f | f in files && TestReached(files, seeds, f) :: f.path
  {
    affected := {};
    var visited: set<Name>, frontier := {}, seeds;
    SeedsAreReachable(files, seeds);
    while frontier != {}
      invariant WorklistInv(files, seeds, visited, frontier)
      invariant visited + frontier <= Universe(files, seeds)
      invariant affected == TestsOf(files, visited)
      decreases Universe(files, seeds) - visited, frontier
    {
      var m :| m in frontier;
      ghost var before := frontier;
      frontier := frontier - {m};
      if m in visited {
        WorklistSkip(files, seeds, visited, before, m);
        continue;
      }
      var tests, next := VisitImporters(g, files, m, visited + {m});
      WorklistStep(files, seeds, visited, before, m, next);
      TestsOfOneMore(files, visited, m, tests);
      visited, affected, frontier := visited + {m}, affected + tests, frontier + next;
    }
    VisitedIsReachable(files, seeds, visited);
    TestsOfReachable(files, seeds, visited);
  }

  lemma TestsOfReachable(files: seq<Source>, seeds: set<Name>, visited: set<Name>)
    requires forall m :: m in visited <==> Reachable(files, seeds, m)
    ensures TestsOf(files, visited) == set f | f in files && TestReached(files, seeds, f) :: f.path
  {
    forall f ensures TestReached(files, seeds, f) <==>
                     IsTestFile(f.path) && exists m :: m in visited && Imports(files, f, m)
    {
    }
  }

  lemma WorklistStep(files: seq<Source>, seeds: set<Name>, visited: set<Name>, frontier: set<Name>, m: Name,
                     next: set<Name>)
    requires WorklistInv(files, seeds, visited, frontier) && m in frontier
    requires visited + frontier <= Universe(files, seeds)
    requires forall n :: n in next <==> Link(files, m, n) && n !in visited + {m}
    ensures WorklistInv(files, seeds, visited + {m}, frontier - {m} + next)
    ensures visited + {m} + (frontier - {m} + next) <= Universe(files, seeds)
  {
    assert visited + {m} + (frontier - {m} + next) == visited + frontier + next;
    assert m in visited + frontier;
    forall n | n in next ensures Reachable(files, seeds, n) && n in Universe(files, seeds) {
      LinkExtendsReach(files, seeds, m, n);
    }
  }

  lemma WorklistSkip(files: seq<Source>, seeds: set<Name>, visited: set<Name>, frontier: set<Name>, m: Name)
    requires WorklistInv(files, seeds, visited, frontier) && m in visited
    ensures WorklistInv(files, seeds, visited, frontier - {m})
  {
    assert visited + (frontier - {m}) == visited + frontier;
  }

  lemma TestsOfOneMore(files: seq<Source>, visited: set<Name>, m: Name, tests: set<Path>)
    requires tests == set f | f in files && IsTestFile(f.path) && Imports(files, f, m) :: f.path
    ensures TestsOf(files, visited + {m}) == TestsOf(files, visited) + tests
  {
  }

  /** `compute_impact`. */
  method ComputeImpact(files: seq<Source>, changed: set<Path>, o: Options) returns (r: Impact)
    requires DistinctPaths(files)
    ensures r == ImpactOf(files, changed, o)
  {
    if changed == {} {
      return All;
    }
    if exists c :: c in changed && o.broad(c) {
      return All;
    }
    if o.codeunits.Some? && LanguageDisjoint(o.codeunits.value, changed) {
      return Subset({});
    }
    var g := new Graph(files);
    var tests := set p | p in g.trees && IsTestFile(p);
    TestsAreTrees(g, files);
    if tests == {} {
      return All;
    }
    PlaceableIffParsed(g, files);
    if exists c :: c in changed && !(c.python && ModuleKey(c).Some? && c in g.trees && g.trees[c].Some?) {
      return All;
    }
    r := SelectFromGraph(g, files, changed, |tests|, o);
  }

  /** The graph-based part of `compute_impact`. */
  method SelectFromGraph(g: Graph, files: seq<Source>, changed: set<Path>, tests: nat, o: Options) returns (r: Impact)
    requires g.Built(files) && DistinctPaths(files) && tests > 0
    ensures r == FromGraph(files, changed, tests, o)
  {
    var affected := set c | c in changed && IsTestFile(c);
    var seeds := set c | c in changed && !IsTestFile(c) && ModuleKey(c).Some? :: ModuleKey(c).value;
    var reached := ImporterClosure(g, files, seeds);
    affected := affected + reached;
    if |affected| as real / tests as real >= o.sharedCoreFraction {
      return All;
    }
    return Subset(affected);
  }

  lemma TestsAreTrees(g: Graph, files: seq<Source>)
    requires g.Built(files)
    ensures (set p | p in g.trees && IsTestFile(p)) == Tests(files)
  {
    forall p ensures p in g.trees <==> exists f :: f in files && f.path == p {
      assert p in g.trees <==> p in PathSet(files);
    }
  }

  lemma PlaceableIffParsed(g: Graph, files: seq<Source>)
    requires g.Built(files)
    ensures forall c :: Placeable(files, c) <==>
                        (c.python && ModuleKey(c).Some? && c in g.trees && g.trees[c].Some?)
  {
    forall c ensures Placeable(files, c) <==>
                     (c.python && ModuleKey(c).Some? && c in g.trees && g.trees[c].Some?)
    {
      assert c in g.trees <==> c in PathSet(files);
    }
  }

  // ----- the theorems -----

  /** Graph-based selections never leave the discovered tests. */
  lemma SelectionIsDiscovered(files: seq<Source>, changed: set<Path>, o: Options)
    ensures ImpactOf(files, changed, o).Subset? ==> ImpactOf(files, changed, o).tests <= Tests(files)
  {
    var r := ImpactOf(files, changed, o);
    if r.Subset? && r.tests != {} {
      forall p | p in r.tests ensures p in Tests(files) {
        if p in changed {
          assert Placeable(files, p);
        }
      }
    }
  }

  /** `b` selects at least what `a` does; everything is the top. */
  predicate SelectsNoMore(a: Impact, b: Impact) {
    b.All? || (a.Subset? && a.tests <= b.tests)
  }

  lemma ReachableGrows(files: seq<Source>, a: set<Name>, b: set<Name>, m: Name)
    requires a <= b && Reachable(files, a, m)
    ensures Reachable(files, b, m)
  {
    var chain :| ReachedBy(files, a, m, chain);
    assert ReachedBy(files, b, m, chain);
  }

  lemma AffectedGrows(files: seq<Source>, a: set<Path>, b: set<Path>)
    requires a <= b
    ensures Affected(files, a) <= Affected(files, b)
  {
    assert Seeds(a) <= Seeds(b);
    forall f | f in files && TestReached(files, Seeds(a), f) ensures TestReached(files, Seeds(b), f) {
      var m :| Reachable(files, Seeds(a), m) && Imports(files, f, m);
      ReachableGrows(files, Seeds(a), Seeds(b), m);
    }
  }

  lemma SharedCoreGrows(a: nat, b: nat, tests: nat, fraction: real)
    requires a <= b && tests > 0 && SharedCore(a, tests, fraction)
    ensures SharedCore(b, tests, fraction)
  {
    var t := tests as real;
    var p, q := a as real / t, b as real / t;
    assert p * t == a as real && q * t == b as real;
    assert (q - p) * t == b as real - a as real;
  }

  lemma FromGraphGrows(files: seq<Source>, a: set<Path>, b: set<Path>, tests: nat, o: Options)
    requires a <= b && tests > 0
    ensures SelectsNoMore(FromGraph(files, a, tests, o), FromGraph(files, b, tests, o))
  {
    AffectedGrows(files, a, b);
    SubsetSize(Affected(files, a), Affected(files, b));
    if SharedCore(|Affected(files, a)|, tests, o.sharedCoreFraction) {
      SharedCoreGrows(|Affected(files, a)|, |Affected(files, b)|, tests, o.sharedCoreFraction);
    }
  }

  lemma ExitsGrow(files: seq<Source>, a: set<Path>, b: set<Path>, o: Options)
    requires a <= b
    ensures AnyBroad(a, o) ==> AnyBroad(b, o)
    ensures AnyUnplaceable(files, a) ==> AnyUnplaceable(files, b)
    ensures o.codeunits.Some? && LanguageDisjoint(o.codeunits.value, b) ==> LanguageDisjoint(o.codeunits.value, a)
  {
  }

  /** Selection is monotone: for non-empty change sets, adding changed files never removes a selected
      test, through all the exits together. */
  lemma SelectionIsMonotone(files: seq<Source>, a: set<Path>, b: set<Path>, o: Options)
    requires a != {} && a <= b
    ensures SelectsNoMore(ImpactOf(files, a, o), ImpactOf(files, b, o))
  {
    ExitsGrow(files, a, b, o);
    if Tests(files) != {} {
      FromGraphGrows(files, a, b, |Tests(files)|, o);
    }
  }

  // ----- which tests, told from the imports alone -----

  /** A file imports nothing but tests do: a change of it selects exactly the tests that import it, and no
      test that imports one of these. */
  lemma ImportedByTestsOnly(files: seq<Source>, c: Path)
    requires !IsTestFile(c) && ModuleKey(c).Some?
    requires forall f :: f in files && Imports(files, f, ModuleKey(c).value) ==> IsTestFile(f.path)
    ensures Affected(files, {c}) == set f | f in files && Imports(files, f, ModuleKey(c).value) :: f.path
  {
    var m := ModuleKey(c).value;
    assert Seeds({c}) == {m};
    forall n ensures Reachable(files, {m}, n) <==> n == m {
      if n == m {
        assert ReachedBy(files, {m}, m, [m]);
      }
      if Reachable(files, {m}, n) {
        var chain :| ReachedBy(files, {m}, n, chain);
        if |chain| > 1 {
          assert Link(files, chain[0], chain[1]);
        }
      }
    }
  }

  /** A changed test affects itself and nothing else. */
  lemma ChangedTestAffectsItself(files: seq<Source>, c: Path)
    requires IsTestFile(c)
    ensures Affected(files, {c}) == {c}
  {
    assert Seeds({c}) == {};
    forall m, chain ensures !ReachedBy(files, {}, m, chain) {
    }
    assert forall m :: !Reachable(files, {}, m);
  }

  /** The whole suite runs when the affected tests reach the fraction, and not before. */
  lemma SubsetIffBelowFraction(files: seq<Source>, changed: set<Path>, tests: nat, o: Options)
    requires tests > 0
    ensures FromGraph(files, changed, tests, o).Subset? <==>
            |Affected(files, changed)| as real < o.sharedCoreFraction * tests as real
  {
    QuotientReaches(|Affected(files, changed)| as real, tests as real, o.sharedCoreFraction);
  }

  lemma QuotientReaches(a: real, t: real, f: real)
    requires t > 0.0
    ensures a / t >= f <==> a >= f * t
  {
    var q := a / t;
    assert q * t == a;
    assert q * t - f * t == (q - f) * t;
    SignOfProduct(q - f, t);
  }

  lemma SignOfProduct(d: real, t: real)
    requires t > 0.0
    ensures d >= 0.0 <==> d * t >= 0.0
  {
  }

  /** Its language is unknown or Python, or its extraction fails or finds a test. */
  predicate MightHoldTests(units: CodeUnits, d: Path) {
    var language := units.languageFor(d);
    language.None? || language == Some("") || language == Some("python")
    || units.hasTest(d).None? || units.hasTest(d) == Some(true)
  }

  /** A changed file that is not Python, or not a parsed file of the graph, brings the whole suite, unless
      every changed file is source of a known other language and holds no test. */
  lemma UncertainChangeRunsAllIff(files: seq<Source>, changed: set<Path>, o: Options, c: Path)
    requires c in changed && (forall d :: d in changed ==> !o.broad(d))
    requires !c.python || (forall f :: f in files && f.path == c ==> f.imports.None?)
    ensures ImpactOf(files, changed, o).All? <==>
            o.codeunits.None? || exists d :: d in changed && MightHoldTests(o.codeunits.value, d)
  {
    assert !AnyBroad(changed, o);
    assert !Placeable(files, c) && AnyUnplaceable(files, changed);
    if o.codeunits.Some? {
      var units := o.codeunits.value;
      forall d ensures MightHoldTests(units, d) <==>
                       !(units.languageFor(d).Some? && units.languageFor(d).value !in {"", "python"}
                         && units.hasTest(d) == Some(false))
      {
        var language, found := units.languageFor(d), units.hasTest(d);
        if found.Some? && found.value {
          assert found == Some(true);
        } else if found.Some? {
          assert found == Some(false);
        }
        assert language.Some? ==> (language.value in {"", "python"} <==> language == Some("") || language == Some("python"));
      }
      assert LanguageDisjoint(units, changed) <==> !exists d :: d in changed && MightHoldTests(units, d);
    }
  }

  /** A package that re-exports its module by a relative import, and a test of the package: a change of the
      module selects no test. With the absolute form the test is affected. */
  lemma ReExportedChangeIsMissed(pkg: string, mod: string, test: Source, o: Options)
    requires mod != "__init__" && pkg != "__init__" && !("test_" <= mod) && !EndsWith(mod, "_test")
    requires IsTestFile(test.path) && test.imports == Some({Absolute([pkg])}) && TopLevelElse(test, pkg, mod)
    requires o.codeunits.None? && (forall p :: !o.broad(p)) && o.sharedCoreFraction > 0.0
    ensures ImpactOf(ReExport(pkg, mod, true) + [test], {ModulePath([pkg], mod)}, o) == Subset({})
    ensures test.path in Affected(ReExport(pkg, mod, false) + [test], {ModulePath([pkg], mod)})
  {
    RelativeChangeMissed(pkg, mod, test, o);
    AbsoluteChangeFound(pkg, mod, test);
  }

  lemma AbsoluteChangeFound(pkg: string, mod: string, test: Source)
    requires mod != "__init__" && pkg != "__init__" && !("test_" <= mod) && !EndsWith(mod, "_test")
    requires IsTestFile(test.path) && test.imports == Some({Absolute([pkg])}) && TopLevelElse(test, pkg, mod)
    ensures test.path in Affected(ReExport(pkg, mod, false) + [test], {ModulePath([pkg], mod)})
  {
    var files := ReExport(pkg, mod, false) + [test];
    PackageImportsModule(pkg, mod, test);
    TestImportsPackage(pkg, mod, test);
    ModulePathKey([pkg], mod);
    assert !IsTestFile(ModulePath([pkg], mod)) && [pkg] + [mod] == [pkg, mod];
    var seeds := Seeds({ModulePath([pkg], mod)});
    assert seeds == {[pkg, mod]};
    assert ReachedBy(files, seeds, [pkg, mod], [[pkg, mod]]);
    LinkExtendsReach(files, seeds, [pkg, mod], [pkg]);
    assert files[2] == test && test in files && TestReached(files, seeds, test);
  }

  lemma PackageImportsModule(pkg: string, mod: string, test: Source)
    requires mod != "__init__" && pkg != "__init__" && TopLevelElse(test, pkg, mod)
    ensures Link(ReExport(pkg, mod, false) + [test], [pkg, mod], [pkg])
  {
    var files := ReExport(pkg, mod, false) + [test];
    ModulePathKey([pkg], "__init__");
    RelativeReExportHasNoEdge(pkg, mod, [test]);
    assert Stem(files[0].path) == "__init__" && "__init__"[3..][0] != "_test"[0];
    assert files[0] in files && !IsTestFile(files[0].path);
  }

  lemma TestImportsPackage(pkg: string, mod: string, test: Source)
    requires pkg != "__init__" && test.imports == Some({Absolute([pkg])}) && TopLevelElse(test, pkg, mod)
    ensures Imports(ReExport(pkg, mod, false) + [test], test, [pkg])
  {
    var files := ReExport(pkg, mod, false) + [test];
    ModulePathKey([pkg], "__init__");
    ClaimsAreSuffixes(Packages(files), files[0], [pkg]);
    StatementHasEdge(files, test, Absolute([pkg]), [pkg], 0);
  }

  lemma RelativeChangeMissed(pkg: string, mod: string, test: Source, o: Options)
    requires mod != "__init__" && pkg != "__init__" && !("test_" <= mod) && !EndsWith(mod, "_test")
    requires IsTestFile(test.path) && test.imports == Some({Absolute([pkg])}) && TopLevelElse(test, pkg, mod)
    requires o.codeunits.None? && (forall p :: !o.broad(p)) && o.sharedCoreFraction > 0.0
    ensures ImpactOf(ReExport(pkg, mod, true) + [test], {ModulePath([pkg], mod)}, o) == Subset({})
  {
    var files := ReExport(pkg, mod, true) + [test];
    var c := ModulePath([pkg], mod);
    assert files[1].path == c && files[1] in files && files[2] == test && test in files;
    NothingAffected(pkg, mod, test);
    assert test.path in Tests(files);
    ModulePathKey([pkg], mod);
    assert Placeable(files, c);
    SubsetIffBelowFraction(files, {c}, |Tests(files)|, o);
    SignOfProduct(o.sharedCoreFraction, |Tests(files)| as real);
  }

  lemma NothingAffected(pkg: string, mod: string, test: Source)
    requires mod != "__init__" && pkg != "__init__" && !("test_" <= mod) && !EndsWith(mod, "_test")
    requires test.imports == Some({Absolute([pkg])}) && TopLevelElse(test, pkg, mod)
    ensures Affected(ReExport(pkg, mod, true) + [test], {ModulePath([pkg], mod)}) == {}
  {
    var files := ReExport(pkg, mod, true) + [test];
    ModulePathKey([pkg], mod);
    assert [pkg] + [mod] == [pkg, mod];
    forall f | f in files ensures !Imports(files, f, [pkg, mod]) {
      NobodyImportsModule(pkg, mod, test, f);
    }
    ImportedByTestsOnly(files, ModulePath([pkg], mod));
  }

  lemma NobodyImportsModule(pkg: string, mod: string, test: Source, f: Source)
    requires mod != "__init__" && pkg != "__init__"
    requires test.imports == Some({Absolute([pkg])}) && TopLevelElse(test, pkg, mod)
    requires f in ReExport(pkg, mod, true) + [test]
    ensures !Imports(ReExport(pkg, mod, true) + [test], f, [pkg, mod])
  {
    var files := ReExport(pkg, mod, true) + [test];
    RelativeReExportHasNoEdge(pkg, mod, [test]);
    if f == test {
      ModulePathKey([pkg], "__init__");
      ClaimsAreSuffixes(Packages(files), files[0], [pkg]);
      assert [pkg][..1] == [pkg];
      ResolvesToFirstClaim(Packages(files), files, [pkg], 1, 0);
      OneImport(Names(files), test.path, [pkg], [pkg, mod]);
    }
  }
}
