/** The import graph of test-impact analysis (codna/impact.py): importable names, and who imports whom. */
module ImportGraph {
  import opened Wrappers

  /** A dotted name, as its parts. */
  type Name = seq<string>

  /** A repository-relative path: its components, the last without `.py` for a Python file. */
  datatype Path = Path(parts: seq<string>, python: bool)

  datatype Import = Absolute(name: Name) | From(level: nat, mod: Option<Name>)

  /** A file with the import statements of its syntax tree, or none if it does not parse. */
  datatype Source = Source(path: Path, imports: Option<set<Import>>)

  function Stem(p: Path): string {
    if p.parts == [] then "" else p.parts[|p.parts| - 1]
  }

  predicate EndsWith(s: string, suffix: string) {
    |suffix| <= |s| && s[|s| - |suffix|..] == suffix
  }

  predicate IsTestFile(p: Path) {
    "test_" <= Stem(p) || (p.python && EndsWith(Stem(p), "_test"))
  }

  /** The dotted name of a Python file from the repository root; a package's is its directory. */
  function ModuleKey(p: Path): Option<Name> {
    if !p.python then None else
      var parts := if Stem(p) == "__init__" then p.parts[..|p.parts| - 1] else p.parts;
      if parts == [] then None else Some(parts)
  }

  // ----- names -----

  function Packages(files: seq<Source>): set<Name> {
    set f | f in files && f.path.python && Stem(f.path) == "__init__" && ModuleKey(f.path).Some?
      :: ModuleKey(f.path).value
  }

  /** The keys gathered so far, and the aliases of the ancestor packages of length `i` and more. */
  function AliasesFrom(packages: set<Name>, primary: Name, i: nat, keys: seq<Name>): seq<Name>
    requires i >= 1
    decreases |primary| + 1 - i
  {
    if i > |primary| then keys else
      var alias := primary[i - 1..];
      var more := if primary[..i] in packages && alias != primary && alias !in keys then keys + [alias] else keys;
      AliasesFrom(packages, primary, i + 1, more)
  }

  /** Every dotted name a file may be imported as, its primary key first. */
  function CandidateKeys(packages: set<Name>, p: Path): seq<Name> {
    match ModuleKey(p)
    case None => []
    case Some(primary) => AliasesFrom(packages, primary, 2, [primary])
  }

  /** `setdefault` for every key of one file. */
  function Claim(names: map<Name, Name>, keys: seq<Name>, primary: Name): map<Name, Name> {
    (map k | k in keys :: primary) + names
  }

  function NameMap(packages: set<Name>, files: seq<Source>): map<Name, Name> {
    if files == [] then map[] else
      var n := |files| - 1;
      var before := NameMap(packages, files[..n]);
      match ModuleKey(files[n].path)
      case None => before
      case Some(primary) => Claim(before, CandidateKeys(packages, files[n].path), primary)
  }

  function Names(files: seq<Source>): map<Name, Name> {
    NameMap(Packages(files), files)
  }

  // ----- edges -----

  /** Python's `s[:k]`, also for a negative `k`. */
  function PySlice(s: Name, k: int): Name {
    if k < 0 then (if |s| + k < 0 then [] else s[..|s| + k])
    else if k > |s| then s else s[..k]
  }

  /** The module a statement of the file at `p` names, if any. */
  function ImportTarget(p: Path, i: Import): Option<Name> {
    match i
    case Absolute(name) => Some(name)
    case From(level, mod) =>
      if level > 0 then
        var key := ModuleKey(p).GetOr([]);
        var pkg := if key == [] then [] else key[..|key| - 1];
        var target := PySlice(pkg, |pkg| - (level - 1)) + mod.GetOr([]);
        if target == [] then None else Some(target)
      else mod
  }

  /** An exact name, else the longest known prefix. */
  function Resolve(names: map<Name, Name>, target: Name): Option<Name> {
    if target in names then Some(names[target])
    else if |target| <= 1 then None
    else Resolve(names, target[..|target| - 1])
  }

  /** Whether one statement of the file at `p` loads module `m`. */
  predicate Loads(names: map<Name, Name>, p: Path, i: Import, m: Name) {
    ImportTarget(p, i).Some? && Resolve(names, ImportTarget(p, i).value) == Some(m)
  }

  predicate LoadsAny(names: map<Name, Name>, p: Path, stmts: set<Import>, m: Name) {
    exists i :: i in stmts && Loads(names, p, i, m)
  }

  /** The edge relation: a parseable file imports every module it loads except itself. */
  predicate Imports(files: seq<Source>, f: Source, m: Name) {
    f.imports.Some? && Some(m) != ModuleKey(f.path) && LoadsAny(Names(files), f.path, f.imports.value, m)
  }

  predicate DistinctPaths(files: seq<Source>) {
    forall i, j :: 0 <= i < j < |files| ==> files[i].path != files[j].path
  }

  function PathSet(files: seq<Source>): set<Path> {
    set f | f in files :: f.path
  }

  // ----- the imperative construction -----

  /** `_Graph`: three passes over the files. */
  class Graph {
    var packages: set<Name>
    var names: map<Name, Name>
    var primary: map<Path, Option<Name>>
    var trees: map<Path, Option<set<Import>>>
    var importers: map<Name, set<Path>>

    predicate Edge(m: Name, p: Path)
      reads this
    {
      m in importers && p in importers[m]
    }

    ghost predicate Built(files: seq<Source>)
      reads this
    {
      && packages == Packages(files) && names == Names(files)
      && primary.Keys == PathSet(files) && (forall p :: p in primary ==> primary[p] == ModuleKey(p))
      && trees.Keys == PathSet(files) && (forall f :: f in files ==> trees[f.path] == f.imports)
      && (forall m, f :: f in files ==> (Edge(m, f.path) <==> Imports(files, f, m)))
      && (forall m, p :: Edge(m, p) ==> p in PathSet(files))
    }

    constructor (files: seq<Source>)
      requires DistinctPaths(files)
      ensures Built(files)
    {
      packages, names, primary, trees, importers := {}, map[], map[], map[], map[];
      new;
      PackageCensus(files);
      NamePass(files);
      EdgePass(files);
    }

    /** Pass 1: which keys are real packages. */
    method PackageCensus(files: seq<Source>)
      requires packages == {}
      modifies this`packages
      ensures packages == Packages(files)
    {
      for i := 0 to |files|
        invariant packages == Packages(files[..i])
      {
        assert files[..i + 1] == files[..i] + [files[i]];
        var key := ModuleKey(files[i].path);
        if files[i].path.python && Stem(files[i].path) == "__init__" && key.Some? {
          packages := packages + {key.value};
        }
      }
      assert files[..|files|] == files;
    }

    method Candidates(p: Path) returns (keys: seq<Name>)
      ensures keys == CandidateKeys(packages, p)
    {
      var key := ModuleKey(p);
      if key.None? {
        return [];
      }
      keys := [key.value];
      var i := 2;
      while i <= |key.value|
        invariant i >= 1
        invariant AliasesFrom(packages, key.value, i, keys) == CandidateKeys(packages, p)
        decreases |key.value| + 1 - i
      {
        if key.value[..i] in packages {
          var alias := key.value[i - 1..];
          if alias != key.value && alias !in keys {
            keys := keys + [alias];
          }
        }
        i := i + 1;
      }
    }

    /** `setdefault` over the keys of one file. */
    method ClaimKeys(keys: seq<Name>)
      requires keys != []
      modifies this`names
      ensures names == Claim(old(names), keys, keys[0])
    {
      for k := 0 to |keys|
        invariant names == Claim(old(names), keys[..k], keys[0])
      {
        ClaimNext(old(names), keys, k, keys[0]);
        if keys[k] !in names {
          names := names[keys[k] := keys[0]];
        }
      }
      assert keys[..|keys|] == keys;
    }

    /** One turn of pass 2. */
    method RecordFile(f: Source)
      modifies this`names, this`primary, this`trees
      ensures names == match ModuleKey(f.path)
                       case None => old(names)
                       case Some(key) => Claim(old(names), CandidateKeys(packages, f.path), key)
      ensures primary == old(primary)[f.path := ModuleKey(f.path)]
      ensures trees == old(trees)[f.path := f.imports]
    {
      CandidatesStartWithPrimary(packages, f.path);
      var keys := Candidates(f.path);
      primary := primary[f.path := if keys == [] then None else Some(keys[0])];
      if keys != [] {
        ClaimKeys(keys);
      }
      trees := trees[f.path := f.imports];
    }

    /** Pass 2: names, primaries and trees. */
    method NamePass(files: seq<Source>)
      requires packages == Packages(files) && names == map[] && primary == map[] && trees == map[]
      requires DistinctPaths(files)
      modifies this`names, this`primary, this`trees
      ensures names == Names(files)
      ensures primary.Keys == PathSet(files) && (forall p :: p in primary ==> primary[p] == ModuleKey(p))
      ensures trees.Keys == PathSet(files) && (forall f :: f in files ==> trees[f.path] == f.imports)
    {
      for i := 0 to |files|
        invariant names == NameMap(packages, files[..i])
        invariant primary.Keys == PathSet(files[..i]) && (forall p :: p in primary ==> primary[p] == ModuleKey(p))
        invariant trees.Keys == PathSet(files[..i])
        invariant forall j :: 0 <= j < i ==> files[j].path in trees && trees[files[j].path] == files[j].imports
      {
        RecordFile(files[i]);
        NextFile(packages, files, i);
      }
      assert files[..|files|] == files;
    }

    method ResolveTarget(target: Name) returns (r: Option<Name>)
      ensures r == Resolve(names, target)
    {
      if target in names {
        return Some(names[target]);
      }
      var i := |target| - 1;
      while i > 0
        invariant i <= |target|
        invariant i > 0 ==> Resolve(names, target) == Resolve(names, target[..i])
        invariant i <= 0 ==> Resolve(names, target) == None
        decreases i
      {
        if target[..i] in names {
          return Some(names[target[..i]]);
        }
        assert target[..i][..i - 1] == target[..i - 1];
        i := i - 1;
      }
      r := None;
    }

    method AddEdge(m: Name, p: Path)
      modifies this`importers
      ensures forall k, q :: Edge(k, q) <==> old(Edge(k, q)) || (k == m && q == p)
    {
      importers := importers[m := (if m in importers then importers[m] else {}) + {p}];
    }

    /** The edges of one file. */
    method FileEdges(f: Source)
      requires f.imports.Some?
      modifies this`importers
      ensures forall k, q ::
                Edge(k, q) <==> (old(Edge(k, q)) || (q == f.path && Some(k) != ModuleKey(f.path)
                                                     && LoadsAny(names, f.path, f.imports.value, k)))
    {
      var todo := f.imports.value;
      ghost var done: set<Import> := {};
      while todo != {}
        invariant todo + done == f.imports.value
        invariant forall k, q ::
                    Edge(k, q) <==> (old(Edge(k, q)) || (q == f.path && Some(k) != ModuleKey(f.path)
                                                         && LoadsAny(names, f.path, done, k)))
        decreases todo
      {
        var i :| i in todo;
        var target := ImportTarget(f.path, i);
        if target.Some? {
          var resolved := ResolveTarget(target.value);
          if resolved.Some? && resolved != ModuleKey(f.path) {
            AddEdge(resolved.value, f.path);
          }
        }
        forall k ensures LoadsAny(names, f.path, done + {i}, k) <==>
                         LoadsAny(names, f.path, done, k) || Loads(names, f.path, i, k)
        {
          LoadsOneMore(names, f.path, done, i, k);
        }
        todo, done := todo - {i}, done + {i};
      }
      assert done == f.imports.value;
    }

    /** Pass 3: edges, with targets resolved to primary keys. */
    method EdgePass(files: seq<Source>)
      requires packages == Packages(files) && names == Names(files) && importers == map[]
      requires DistinctPaths(files)
      modifies this`importers
      ensures forall m, f :: f in files ==> (Edge(m, f.path) <==> Imports(files, f, m))
      ensures forall m, p :: Edge(m, p) ==> p in PathSet(files)
    {
      for i := 0 to |files|
        invariant forall m, j :: 0 <= j < |files| ==> (Edge(m, files[j].path) <==> j < i && Imports(files, files[j], m))
        invariant forall m, p :: Edge(m, p) ==> p in PathSet(files)
      {
        if files[i].imports.Some? {
          FileEdges(files[i]);
        }
        assert files[i] in files;
      }
    }
  }

  lemma ClaimNext(names: map<Name, Name>, keys: seq<Name>, k: nat, primary: Name)
    requires k < |keys|
    ensures var before := Claim(names, keys[..k], primary);
            Claim(names, keys[..k + 1], primary) == if keys[k] in before then before else before[keys[k] := primary]
  {
    assert keys[..k + 1] == keys[..k] + [keys[k]];
    forall n ensures n in keys[..k + 1] <==> n in keys[..k] || n == keys[k] {
    }
  }

  lemma ClaimAt(names: map<Name, Name>, keys: seq<Name>, primary: Name, n: Name)
    ensures n in Claim(names, keys, primary) <==> n in keys || n in names
    ensures n in names ==> Claim(names, keys, primary)[n] == names[n]
    ensures n !in names && n in keys ==> Claim(names, keys, primary)[n] == primary
  {
  }

  lemma NextFile(packages: set<Name>, files: seq<Source>, i: nat)
    requires i < |files|
    ensures PathSet(files[..i + 1]) == PathSet(files[..i]) + {files[i].path}
    ensures NameMap(packages, files[..i + 1]) ==
            match ModuleKey(files[i].path)
            case None => NameMap(packages, files[..i])
            case Some(key) => Claim(NameMap(packages, files[..i]), CandidateKeys(packages, files[i].path), key)
  {
    assert files[..i + 1] == files[..i] + [files[i]];
    assert files[..i + 1][..i] == files[..i];
  }

  lemma LoadsOneMore(names: map<Name, Name>, p: Path, done: set<Import>, i: Import, m: Name)
    ensures LoadsAny(names, p, done + {i}, m) <==> LoadsAny(names, p, done, m) || Loads(names, p, i, m)
  {
    if LoadsAny(names, p, done, m) {
      var j :| j in done && Loads(names, p, j, m);
      assert j in done + {i};
    }
    if Loads(names, p, i, m) {
      assert i in done + {i};
    }
  }

  lemma {:induction false} AliasesKeepKeys(packages: set<Name>, primary: Name, i: nat, keys: seq<Name>)
    requires i >= 1
    ensures keys <= AliasesFrom(packages, primary, i, keys)
    decreases |primary| + 1 - i
  {
    if i <= |primary| {
      var alias := primary[i - 1..];
      var more := if primary[..i] in packages && alias != primary && alias !in keys then keys + [alias] else keys;
      AliasesKeepKeys(packages, primary, i + 1, more);
    }
  }

  lemma CandidatesStartWithPrimary(packages: set<Name>, p: Path)
    ensures match ModuleKey(p)
            case None => CandidateKeys(packages, p) == []
            case Some(primary) => CandidateKeys(packages, p) != [] && CandidateKeys(packages, p)[0] == primary
  {
    if ModuleKey(p).Some? {
      AliasesKeepKeys(packages, ModuleKey(p).value, 2, [ModuleKey(p).value]);
    }
  }

  // ----- what the names mean -----

  /** The aliases of a file are exactly its key's suffixes that start at the last component of an
      ancestor package. */
  lemma {:induction false} AliasesAre(packages: set<Name>, primary: Name, i: nat, keys: seq<Name>, n: Name)
    requires i >= 1
    ensures n in AliasesFrom(packages, primary, i, keys) <==>
            n in keys || exists k :: i <= k <= |primary| && primary[..k] in packages && n == primary[k - 1..] && n != primary
    decreases |primary| + 1 - i
  {
    if i <= |primary| {
      var alias := primary[i - 1..];
      var more := if primary[..i] in packages && alias != primary && alias !in keys then keys + [alias] else keys;
      AliasesAre(packages, primary, i + 1, more, n);
      if exists k :: i + 1 <= k <= |primary| && primary[..k] in packages && n == primary[k - 1..] && n != primary {
        var k :| i + 1 <= k <= |primary| && primary[..k] in packages && n == primary[k - 1..] && n != primary;
        assert i <= k;
      }
    }
  }

  predicate Claims(packages: set<Name>, f: Source, n: Name) {
    n in CandidateKeys(packages, f.path)
  }

  /** A name belongs to the first file that claims it. */
  lemma {:induction false} FirstClaimWins(packages: set<Name>, files: seq<Source>, n: Name, i: nat)
    requires i < |files| && Claims(packages, files[i], n)
    requires forall j :: 0 <= j < i ==> !Claims(packages, files[j], n)
    ensures n in NameMap(packages, files) && Some(NameMap(packages, files)[n]) == ModuleKey(files[i].path)
  {
    var last := |files| - 1;
    ClaimAt(NameMap(packages, files[..last]), CandidateKeys(packages, files[last].path),
            ModuleKey(files[last].path).GetOr([]), n);
    if i == last {
      Unclaimed(packages, files[..last], n);
    } else {
      assert files[..last][i] == files[i];
      FirstClaimWins(packages, files[..last], n, i);
    }
  }

  lemma {:induction false} Unclaimed(packages: set<Name>, files: seq<Source>, n: Name)
    requires forall j :: 0 <= j < |files| ==> !Claims(packages, files[j], n)
    ensures n !in NameMap(packages, files)
  {
    if files != [] {
      Unclaimed(packages, files[..|files| - 1], n);
    }
  }

  // ----- when aliases only add edges -----

  predicate Claimed(packages: set<Name>, files: seq<Source>, n: Name) {
    exists i :: 0 <= i < |files| && Claims(packages, files[i], n)
  }

  predicate FirstClaim(packages: set<Name>, files: seq<Source>, n: Name, i: nat) {
    && i < |files| && Claims(packages, files[i], n)
    && forall j :: 0 <= j < i ==> !Claims(packages, files[j], n)
  }

  /** The prefix of length `k` is the longest one of `target` that some file claims. */
  predicate LongestClaimed(packages: set<Name>, files: seq<Source>, target: Name, k: nat) {
    && 0 < k <= |target| && Claimed(packages, files, target[..k])
    && forall j :: k < j <= |target| ==> !Claimed(packages, files, target[..j])
  }

  lemma {:induction false} FirstClaimExists(packages: set<Name>, files: seq<Source>, n: Name, bound: nat) returns (i: nat)
    requires bound <= |files| && exists j :: 0 <= j < bound && Claims(packages, files[j], n)
    ensures FirstClaim(packages, files, n, i)
  {
    var j: nat :| j < bound && Claims(packages, files[j], n);
    if exists l :: 0 <= l < j && Claims(packages, files[l], n) {
      i := FirstClaimExists(packages, files, n, j);
    } else {
      i := j;
    }
  }

  lemma {:induction false} LongestClaimExists(packages: set<Name>, files: seq<Source>, target: Name, k: nat) returns (l: nat)
    requires 0 < k <= |target| && Claimed(packages, files, target[..k])
    ensures k <= l && LongestClaimed(packages, files, target, l)
    decreases |target| - k
  {
    l := k;
    if exists j :: k < j <= |target| && Claimed(packages, files, target[..j]) {
      var j :| k < j <= |target| && Claimed(packages, files, target[..j]);
      l := LongestClaimExists(packages, files, target, j);
    }
  }

  lemma {:induction false} ResolveStopsAt(names: map<Name, Name>, target: Name, k: nat)
    requires 0 < k <= |target| && target[..k] in names
    requires forall j :: k < j <= |target| ==> target[..j] !in names
    ensures Resolve(names, target) == Some(names[target[..k]])
    decreases |target|
  {
    assert target[..|target|] == target;
    if k < |target| {
      var short := target[..|target| - 1];
      assert forall j :: 0 <= j < |target| ==> short[..j] == target[..j];
      ResolveStopsAt(names, short, k);
    }
  }

  /** A target reaches the key of the first file that claims its longest claimed prefix. */
  lemma ResolvesToFirstClaim(packages: set<Name>, files: seq<Source>, target: Name, k: nat, i: nat)
    requires LongestClaimed(packages, files, target, k) && FirstClaim(packages, files, target[..k], i)
    ensures Resolve(NameMap(packages, files), target) == ModuleKey(files[i].path)
  {
    FirstClaimWins(packages, files, target[..k], i);
    forall j | k < j <= |target| ensures target[..j] !in NameMap(packages, files) {
      Unclaimed(packages, files, target[..j]);
    }
    ResolveStopsAt(NameMap(packages, files), target, k);
  }

  lemma ResolvesNowhere(packages: set<Name>, files: seq<Source>, target: Name)
    requires forall j :: 0 < j <= |target| ==> !Claimed(packages, files, target[..j])
    requires target != []
    ensures Resolve(NameMap(packages, files), target) == None
  {
    forall j | 0 < j <= |target| ensures target[..j] !in NameMap(packages, files) {
      Unclaimed(packages, files, target[..j]);
    }
    ResolveFails(NameMap(packages, files), target);
  }

  lemma {:induction false} ResolveFails(names: map<Name, Name>, target: Name)
    requires target != [] && forall j :: 0 < j <= |target| ==> target[..j] !in names
    ensures Resolve(names, target) == None
  {
    assert target[..|target|] == target;
    if |target| > 1 {
      var short := target[..|target| - 1];
      assert forall j :: 0 <= j < |target| ==> short[..j] == target[..j];
      ResolveFails(names, short);
    }
  }

  /** Some file has this very key. */
  predicate HasKey(files: seq<Source>, n: Name) {
    exists i :: 0 <= i < |files| && ModuleKey(files[i].path) == Some(n)
  }

  /** What a file claims: its key, and with packages suffixes of it, never anything longer. */
  lemma ClaimsAreSuffixes(packages: set<Name>, f: Source, n: Name)
    ensures Claims({}, f, n) <==> ModuleKey(f.path) == Some(n)
    ensures ModuleKey(f.path) == Some(n) ==> Claims(packages, f, n)
    ensures Claims(packages, f, n) ==> ModuleKey(f.path).Some? && |n| <= |ModuleKey(f.path).value|
  {
    if ModuleKey(f.path).Some? {
      var primary := ModuleKey(f.path).value;
      NoAliasWithoutPackages(primary, 2, [primary]);
      AliasesAre(packages, primary, 2, [primary], n);
    }
  }

  lemma ClaimedPlainly(files: seq<Source>, n: Name)
    ensures Claimed({}, files, n) <==> HasKey(files, n)
    ensures HasKey(files, n) ==> Claimed(Packages(files), files, n)
  {
    forall i | 0 <= i < |files|
      ensures Claims({}, files[i], n) <==> ModuleKey(files[i].path) == Some(n)
      ensures ModuleKey(files[i].path) == Some(n) ==> Claims(Packages(files), files[i], n)
    {
      ClaimsAreSuffixes(Packages(files), files[i], n);
    }
  }

  /** The names files have without any alias. */
  function PlainNames(files: seq<Source>): map<Name, Name> {
    NameMap({}, files)
  }

  predicate LongestKey(files: seq<Source>, target: Name, k: nat) {
    && 0 < k <= |target| && HasKey(files, target[..k])
    && forall j :: k < j <= |target| ==> !HasKey(files, target[..j])
  }

  /** No alias claims more of `target` than its first `k` parts, and of the files that claim these the
      first has them as its key. */
  predicate Free(files: seq<Source>, target: Name, k: nat)
    requires k <= |target|
  {
    && (forall j :: k < j <= |target| ==> !Claimed(Packages(files), files, target[..j]))
    && (exists i :: 0 <= i < |files| && FirstClaim(Packages(files), files, target[..k], i)
                    && ModuleKey(files[i].path) == Some(target[..k]))
  }

  /** No alias stands in the way of `target` and its longest key. */
  predicate Unshadowed(files: seq<Source>, target: Name) {
    forall k :: 0 < k <= |target| && LongestKey(files, target, k) ==> Free(files, target, k)
  }

  /** Whatever the target reached without aliases it still reaches with them. */
  predicate Kept(files: seq<Source>, target: Name) {
    Resolve(PlainNames(files), target).Some? ==> Resolve(Names(files), target) == Resolve(PlainNames(files), target)
  }

  lemma PlainTarget(files: seq<Source>, target: Name, k: nat)
    requires LongestKey(files, target, k)
    ensures Resolve(PlainNames(files), target) == Some(target[..k])
  {
    forall j | 0 < j <= |target| ensures Claimed({}, files, target[..j]) <==> HasKey(files, target[..j]) {
      ClaimedPlainly(files, target[..j]);
    }
    var i := FirstClaimExists({}, files, target[..k], |files|);
    ClaimsAreSuffixes({}, files[i], target[..k]);
    ResolvesToFirstClaim({}, files, target, k, i);
  }

  lemma PlainTargetHasKey(files: seq<Source>, target: Name)
    requires Resolve(PlainNames(files), target).Some? && target != []
    ensures exists k :: 0 < k <= |target| && LongestKey(files, target, k)
  {
    if forall j :: 0 < j <= |target| ==> !Claimed({}, files, target[..j]) {
      ResolvesNowhere({}, files, target);
    } else {
      var j :| 0 < j <= |target| && Claimed({}, files, target[..j]);
      var k := LongestClaimExists({}, files, target, j);
      forall l | 0 < l <= |target| ensures Claimed({}, files, target[..l]) <==> HasKey(files, target[..l]) {
        ClaimedPlainly(files, target[..l]);
      }
      assert LongestKey(files, target, k);
    }
  }

  /** With its longest key at length `k`, a target is kept exactly when no alias stands in its way. */
  lemma KeptAt(files: seq<Source>, target: Name, k: nat)
    requires LongestKey(files, target, k)
    ensures Kept(files, target) <==> Free(files, target, k)
  {
    var packages := Packages(files);
    PlainTarget(files, target, k);
    ClaimedPlainly(files, target[..k]);
    var l := LongestClaimExists(packages, files, target, k);
    var i := FirstClaimExists(packages, files, target[..l], |files|);
    ResolvesToFirstClaim(packages, files, target, l, i);
    ClaimsAreSuffixes(packages, files[i], target[..l]);
    assert Kept(files, target) <==> ModuleKey(files[i].path) == Some(target[..k]);
    if l == k {
      forall j: nat | FirstClaim(packages, files, target[..k], j) ensures j == i {
      }
    } else {
      assert Claimed(packages, files, target[..l]);
      assert |target[..l]| > |target[..k]|;
    }
  }

  /** Exactly the unshadowed targets keep what they reached. */
  lemma KeptIffUnshadowed(files: seq<Source>, target: Name)
    requires target != []
    ensures Kept(files, target) <==> Unshadowed(files, target)
  {
    if Resolve(PlainNames(files), target).Some? {
      PlainTargetHasKey(files, target);
    }
    forall k | 0 < k <= |target| && LongestKey(files, target, k)
      ensures Resolve(PlainNames(files), target).Some?
      ensures Kept(files, target) <==> Free(files, target, k)
    {
      PlainTarget(files, target, k);
      KeptAt(files, target, k);
    }
  }

  // ----- and for edges -----

  /** The edge relation a graph without aliases would have. */
  predicate ImportsPlainly(files: seq<Source>, f: Source, m: Name) {
    f.imports.Some? && Some(m) != ModuleKey(f.path) && LoadsAny(PlainNames(files), f.path, f.imports.value, m)
  }

  ghost predicate AliasesOnlyAdd(files: seq<Source>) {
    forall f, m :: f in files && ImportsPlainly(files, f, m) ==> Imports(files, f, m)
  }

  /** The same files, whatever they import. */
  predicate SameLayout(a: seq<Source>, b: seq<Source>) {
    |a| == |b| && forall i :: 0 <= i < |a| ==> a[i].path == b[i].path
  }

  lemma {:induction false} NamesFollowLayout(packages: set<Name>, a: seq<Source>, b: seq<Source>)
    requires SameLayout(a, b)
    ensures NameMap(packages, a) == NameMap(packages, b)
  {
    if a != [] {
      NamesFollowLayout(packages, a[..|a| - 1], b[..|b| - 1]);
    }
  }

  lemma PackagesFollowLayout(a: seq<Source>, b: seq<Source>)
    requires SameLayout(a, b)
    ensures Packages(a) <= Packages(b)
  {
    forall n | n in Packages(a) ensures n in Packages(b) {
      var f :| f in a && f.path.python && Stem(f.path) == "__init__" && ModuleKey(f.path) == Some(n);
      var i :| 0 <= i < |a| && a[i] == f;
      assert b[i] in b && b[i].path == f.path;
    }
  }

  lemma ResolutionFollowsLayout(a: seq<Source>, b: seq<Source>)
    requires SameLayout(a, b)
    ensures Names(a) == Names(b) && PlainNames(a) == PlainNames(b)
  {
    PackagesFollowLayout(a, b);
    PackagesFollowLayout(b, a);
    assert Packages(a) == Packages(b);
    NamesFollowLayout(Packages(a), a, b);
    NamesFollowLayout({}, a, b);
  }

  /** A target that aliases take away costs an edge in some program over the same files: one whose file
      of the alias imports it. */
  lemma LostTargetLosesEdge(files: seq<Source>, target: Name) returns (other: seq<Source>)
    requires target != [] && !Kept(files, target)
    ensures SameLayout(files, other) && !AliasesOnlyAdd(other)
  {
    var m, i := LostTo(files, target);
    var f := Source(files[i].path, Some({Absolute(target)}));
    other := files[i := f];
    ResolutionFollowsLayout(files, other);
    assert other[i] in other;
    OneImport(PlainNames(other), f.path, target, m);
    OneImport(Names(other), f.path, target, m);
    assert ImportsPlainly(other, f, m) && !Imports(other, f, m);
  }

  lemma OneImport(names: map<Name, Name>, p: Path, target: Name, m: Name)
    ensures LoadsAny(names, p, {Absolute(target)}, m) <==> Resolve(names, target) == Some(m)
  {
    assert Loads(names, p, Absolute(target), m) <==> Resolve(names, target) == Some(m);
  }

  /** What a lost target used to reach, and the file it reaches now. */
  lemma LostTo(files: seq<Source>, target: Name) returns (m: Name, i: nat)
    requires target != [] && !Kept(files, target)
    ensures Resolve(PlainNames(files), target) == Some(m)
    ensures i < |files| && Resolve(Names(files), target) == ModuleKey(files[i].path) != Some(m)
  {
    PlainTargetHasKey(files, target);
    var k :| 0 < k <= |target| && LongestKey(files, target, k);
    PlainTarget(files, target, k);
    m := target[..k];
    ClaimedPlainly(files, m);
    var l := LongestClaimExists(Packages(files), files, target, k);
    i := FirstClaimExists(Packages(files), files, target[..l], |files|);
    ResolvesToFirstClaim(Packages(files), files, target, l, i);
  }

  /** On a layout of files aliases only add edges, whatever the files import, exactly when no target is
      shadowed. */
  lemma AliasesOnlyAddIffUnshadowed(files: seq<Source>)
    ensures (forall other :: SameLayout(files, other) ==> AliasesOnlyAdd(other)) <==>
            (forall target: Name :: target != [] ==> Unshadowed(files, target))
  {
    if forall other :: SameLayout(files, other) ==> AliasesOnlyAdd(other) {
      forall target: Name | target != [] ensures Unshadowed(files, target) {
        KeptIffUnshadowed(files, target);
        if !Kept(files, target) {
          var other := LostTargetLosesEdge(files, target);
        }
      }
    }
    if forall target: Name :: target != [] ==> Unshadowed(files, target) {
      forall other | SameLayout(files, other) ensures AliasesOnlyAdd(other) {
        UnshadowedKeepsEdges(files, other);
      }
    }
  }

  lemma UnshadowedKeepsEdges(files: seq<Source>, other: seq<Source>)
    requires SameLayout(files, other) && forall target: Name :: target != [] ==> Unshadowed(files, target)
    ensures AliasesOnlyAdd(other)
  {
    ResolutionFollowsLayout(files, other);
    forall f, m | f in other && ImportsPlainly(other, f, m) ensures Imports(other, f, m) {
      var i :| i in f.imports.value && Loads(PlainNames(other), f.path, i, m);
      var target := ImportTarget(f.path, i).value;
      if target == [] {
        EmptyTargetUnknown(other);
      } else {
        KeptIffUnshadowed(files, target);
      }
      assert Loads(Names(other), f.path, i, m);
    }
  }

  lemma {:induction false} EmptyTargetUnknown(files: seq<Source>)
    ensures Resolve(PlainNames(files), []) == None
  {
    if [] in PlainNames(files) {
      forall i | 0 <= i < |files| ensures !Claims({}, files[i], []) {
        ClaimsAreSuffixes({}, files[i], []);
      }
      Unclaimed({}, files, []);
    }
  }

  /** A layout with a shadowed target: a package `root.pkg` holding `mod`, walked before a top-level
      `pkg/mod.py`. */
  function ShadowedLayout(root: string, pkg: string, mod: string): seq<Source> {
    [Source(Path([root, pkg, "__init__"], true), Some({})),
     Source(Path([root, pkg, mod], true), Some({})),
     Source(Path([pkg, mod], true), Some({}))]
  }

  /** There, importing `pkg.mod` reaches the inner file and no longer the outer one; without the alias it
      reaches the outer one. So an alias does not only add edges, it can take one away. */
  lemma AliasTakesLaterName(root: string, pkg: string, mod: string)
    requires mod != "__init__" && pkg != "__init__" && root != pkg
    ensures var files := ShadowedLayout(root, pkg, mod);
            && Resolve(Names(files), [pkg, mod]) == Some([root, pkg, mod])
            && Resolve(NameMap({}, files), [pkg, mod]) == Some([pkg, mod])
  {
    var files := ShadowedLayout(root, pkg, mod);
    ShadowedKeys(root, pkg, mod);
    assert files[0] in files;
    assert Packages(files) == {[root, pkg]};
    WithAlias(root, pkg, mod);
    WithoutAlias(root, pkg, mod);
  }

  lemma ShadowedKeys(root: string, pkg: string, mod: string)
    requires mod != "__init__"
    ensures var files := ShadowedLayout(root, pkg, mod);
            && ModuleKey(files[0].path) == Some([root, pkg])
            && ModuleKey(files[1].path) == Some([root, pkg, mod])
            && ModuleKey(files[2].path) == Some([pkg, mod])
  {
    assert [root, pkg, "__init__"][..2] == [root, pkg];
  }

  lemma WithAlias(root: string, pkg: string, mod: string)
    requires mod != "__init__" && root != pkg
    ensures var files := ShadowedLayout(root, pkg, mod);
            Resolve(NameMap({[root, pkg]}, files), [pkg, mod]) == Some([root, pkg, mod])
  {
    var files := ShadowedLayout(root, pkg, mod);
    var packages := {[root, pkg]};
    ShadowedKeys(root, pkg, mod);
    AliasesAre(packages, [root, pkg], 2, [[root, pkg]], [pkg, mod]);
    AliasesAre(packages, [root, pkg, mod], 2, [[root, pkg, mod]], [pkg, mod]);
    assert [root, pkg, mod][..2] == [root, pkg] && [root, pkg, mod][1..] == [pkg, mod];
    assert [root, pkg][0] != [pkg, mod][0];
    assert Claims(packages, files[1], [pkg, mod]) && !Claims(packages, files[0], [pkg, mod]);
    FirstClaimWins(packages, files, [pkg, mod], 1);
  }

  lemma WithoutAlias(root: string, pkg: string, mod: string)
    requires mod != "__init__" && root != pkg
    ensures var files := ShadowedLayout(root, pkg, mod);
            Resolve(NameMap({}, files), [pkg, mod]) == Some([pkg, mod])
  {
    var files := ShadowedLayout(root, pkg, mod);
    ShadowedKeys(root, pkg, mod);
    NoAliasWithoutPackages([root, pkg], 2, [[root, pkg]]);
    NoAliasWithoutPackages([root, pkg, mod], 2, [[root, pkg, mod]]);
    NoAliasWithoutPackages([pkg, mod], 2, [[pkg, mod]]);
    assert [root, pkg][0] != [pkg, mod][0];
    assert !Claims({}, files[0], [pkg, mod]) && !Claims({}, files[1], [pkg, mod]) && Claims({}, files[2], [pkg, mod]);
    FirstClaimWins({}, files, [pkg, mod], 2);
  }

  lemma {:induction false} NoAliasWithoutPackages(primary: Name, i: nat, keys: seq<Name>)
    requires i >= 1
    ensures AliasesFrom({}, primary, i, keys) == keys
    decreases |primary| + 1 - i
  {
    if i <= |primary| {
      NoAliasWithoutPackages(primary, i + 1, keys);
    }
  }

  /** A second way to lose one, with every file still reachable under its own name: `pkg/__init__.py`, then
      `root/pkg/__init__.py` and `root/pkg/mod.py`. */
  function OutreachedLayout(root: string, pkg: string, mod: string): seq<Source> {
    [Source(Path([pkg, "__init__"], true), Some({})),
     Source(Path([root, pkg, "__init__"], true), Some({})),
     Source(Path([root, pkg, mod], true), Some({}))]
  }

  /** There, an import of `pkg.mod` used to load the package `pkg` and now loads the inner file, because the
      alias knows more of the name. */
  lemma LongerAliasWins(root: string, pkg: string, mod: string)
    requires mod != "__init__" && pkg != "__init__" && root != pkg && mod != pkg
    ensures var files := OutreachedLayout(root, pkg, mod);
            && Resolve(PlainNames(files), [pkg, mod]) == Some([pkg])
            && Resolve(Names(files), [pkg, mod]) == Some([root, pkg, mod])
            && (forall i :: 0 <= i < |files| && ModuleKey(files[i].path).Some? ==>
                  Resolve(Names(files), ModuleKey(files[i].path).value) == ModuleKey(files[i].path))
  {
    var files := OutreachedLayout(root, pkg, mod);
    OutreachedKeys(root, pkg, mod);
    OutreachedClaims(root, pkg, mod);
    OutreachedPlainly(root, pkg, mod);
    var a, b, d := [[pkg]], [[root, pkg], [pkg]], [[root, pkg, mod], [pkg, mod]];
    assert [pkg, mod] in d && [pkg, mod] !in a && [pkg, mod] !in b by {
      assert [pkg, mod][0] != [root, pkg][0] && d[1] == [pkg, mod];
    }
    ClaimOf(files, 2, [pkg, mod]);
    ClaimOf(files, 0, [pkg]);
    ClaimOf(files, 1, [root, pkg]);
    ClaimOf(files, 2, [root, pkg, mod]);
  }

  /** A name that a file claims and no earlier one does leads to that file. */
  lemma ClaimOf(files: seq<Source>, i: nat, n: Name)
    requires i < |files| && n in CandidateKeys(Packages(files), files[i].path)
    requires forall j :: 0 <= j < i ==> n !in CandidateKeys(Packages(files), files[j].path)
    ensures Resolve(Names(files), n) == ModuleKey(files[i].path)
  {
    FirstClaimWins(Packages(files), files, n, i);
  }

  lemma OutreachedPlainly(root: string, pkg: string, mod: string)
    requires mod != "__init__" && root != pkg && mod != pkg
    ensures Resolve(PlainNames(OutreachedLayout(root, pkg, mod)), [pkg, mod]) == Some([pkg])
  {
    var files := OutreachedLayout(root, pkg, mod);
    OutreachedKeys(root, pkg, mod);
    var target := [pkg, mod];
    assert target[..1] == [pkg] && target[..2] == target;
    assert target[0] != [root, pkg][0];
    assert HasKey(files, target[..1]) && !HasKey(files, target);
    PlainTarget(files, target, 1);
  }

  /** Who claims what there. */
  lemma OutreachedClaims(root: string, pkg: string, mod: string)
    requires mod != "__init__" && root != pkg
    ensures var files := OutreachedLayout(root, pkg, mod);
            && CandidateKeys(Packages(files), files[0].path) == [[pkg]]
            && CandidateKeys(Packages(files), files[1].path) == [[root, pkg], [pkg]]
            && CandidateKeys(Packages(files), files[2].path) == [[root, pkg, mod], [pkg, mod]]
  {
    var files := OutreachedLayout(root, pkg, mod);
    OutreachedKeys(root, pkg, mod);
    var packages := {[pkg], [root, pkg]};
    assert files[0] in files && files[1] in files;
    assert Packages(files) == packages;
    TwoPartAliases(packages, root, pkg);
    ThreePartAliases(packages, root, pkg, mod);
  }

  lemma TwoPartAliases(packages: set<Name>, root: string, pkg: string)
    requires [root, pkg] in packages
    ensures AliasesFrom(packages, [pkg], 2, [[pkg]]) == [[pkg]]
    ensures AliasesFrom(packages, [root, pkg], 2, [[root, pkg]]) == [[root, pkg], [pkg]]
  {
    var key := [root, pkg];
    assert key[..2] == key && key[1..] == [pkg] && |[pkg]| != |key|;
    assert [key] + [[pkg]] == [key, [pkg]];
    assert AliasesFrom(packages, key, 3, [key, [pkg]]) == [key, [pkg]];
  }

  lemma ThreePartAliases(packages: set<Name>, root: string, pkg: string, mod: string)
    requires [root, pkg] in packages && [root, pkg, mod] !in packages
    ensures AliasesFrom(packages, [root, pkg, mod], 2, [[root, pkg, mod]]) == [[root, pkg, mod], [pkg, mod]]
  {
    var key := [root, pkg, mod];
    assert key[..2] == [root, pkg] && key[..3] == key && key[1..] == [pkg, mod] && |[pkg, mod]| != |key|;
    assert [key] + [[pkg, mod]] == [key, [pkg, mod]];
    assert AliasesFrom(packages, key, 4, [key, [pkg, mod]]) == [key, [pkg, mod]];
    assert AliasesFrom(packages, key, 3, [key, [pkg, mod]]) == [key, [pkg, mod]];
  }

  lemma OutreachedKeys(root: string, pkg: string, mod: string)
    requires mod != "__init__"
    ensures var files := OutreachedLayout(root, pkg, mod);
            && ModuleKey(files[0].path) == Some([pkg])
            && ModuleKey(files[1].path) == Some([root, pkg])
            && ModuleKey(files[2].path) == Some([root, pkg, mod])
  {
    assert [pkg, "__init__"][..1] == [pkg];
    assert [root, pkg, "__init__"][..2] == [root, pkg];
  }

  /** Resolution is by longest known prefix. */
  lemma {:induction false} ResolveIsLongestPrefix(names: map<Name, Name>, target: Name)
    ensures match Resolve(names, target)
            case Some(m) => exists k :: && 0 <= k <= |target| && target[..k] in names && names[target[..k]] == m
                                        && (forall j :: k < j <= |target| ==> target[..j] !in names)
            case None => forall j :: 0 < j <= |target| ==> target[..j] !in names
  {
    assert target[..|target|] == target;
    if target !in names && |target| > 1 {
      var short := target[..|target| - 1];
      ResolveIsLongestPrefix(names, short);
      assert forall j :: 0 <= j < |target| ==> short[..j] == target[..j];
    }
  }

  // ----- statements and the edges they make -----

  /** An ordinary module `stem` of package `p`. */
  function ModulePath(p: Name, stem: string): Path {
    Path(p + [stem], true)
  }

  lemma ModulePathKey(p: Name, stem: string)
    ensures stem != "__init__" ==> ModuleKey(ModulePath(p, stem)) == Some(p + [stem])
    ensures stem == "__init__" ==> ModuleKey(ModulePath(p, stem)) == if p == [] then None else Some(p)
  {
    assert (p + [stem])[..|p|] == p;
  }

  /** A relative import undoes its printing, but not in a package's own file: with as many dots as it takes to
      name the ancestor `p[..k]` the target lies in that ancestor exactly when the file is an ordinary module.
      From `__init__.py` every relative import is resolved one package too high. */
  lemma RelativeImportReachesIffOrdinary(p: Name, stem: string, k: nat, mod: Option<Name>)
    requires 0 < k <= |p|
    ensures var target := ImportTarget(ModulePath(p, stem), From(|p| - k + 1, mod));
            && (target == Some(p[..k] + mod.GetOr([])) <==> stem != "__init__")
            && (stem == "__init__" ==>
                  target == if k == 1 && mod.GetOr([]) == [] then None else Some(p[..k - 1] + mod.GetOr([])))
  {
    ModulePathKey(p, stem);
    assert (p + [stem])[..|p|] == p;
    assert p[..|p| - 1][..k - 1] == p[..k - 1];
    assert |p[..k]| == k && |p[..k - 1]| == k - 1;
  }

  /** With more dots than there are packages the slice wraps around: the import is not refused, it names an
      ancestor again. */
  lemma TooManyDotsWrapAround(p: Name, stem: string, level: nat, mod: Name)
    requires stem != "__init__" && level > |p| + 1 && mod != []
    ensures ImportTarget(ModulePath(p, stem), From(level, Some(mod))) ==
            Some((if level <= 2 * |p| + 1 then p[..2 * |p| + 1 - level] else []) + mod)
  {
    ModulePathKey(p, stem);
    assert (p + [stem])[..|p|] == p;
  }

  /** A statement whose whole target some file claims makes an edge to the first such file's key, unless
      that is the importing file's own. */
  lemma StatementHasEdge(files: seq<Source>, f: Source, stmt: Import, target: Name, i: nat)
    requires f.imports.Some? && stmt in f.imports.value && ImportTarget(f.path, stmt) == Some(target) && target != []
    requires FirstClaim(Packages(files), files, target, i) && ModuleKey(files[i].path) != ModuleKey(f.path)
    ensures ModuleKey(files[i].path).Some? && Imports(files, f, ModuleKey(files[i].path).value)
  {
    assert target[..|target|] == target;
    ClaimsAreSuffixes(Packages(files), files[i], target);
    ResolvesToFirstClaim(Packages(files), files, target, |target|, i);
    assert Loads(Names(files), f.path, stmt, ModuleKey(files[i].path).value);
  }

  /** An absolute import, in either form, makes the edge to the module it names. */
  lemma AbsoluteImportHasEdge(g: Graph, files: seq<Source>, f: Source, name: Name, i: nat)
    requires g.Built(files) && f in files && f.imports.Some? && name != []
    requires Absolute(name) in f.imports.value || From(0, Some(name)) in f.imports.value
    requires FirstClaim(Packages(files), files, name, i) && ModuleKey(files[i].path) != ModuleKey(f.path)
    ensures ModuleKey(files[i].path).Some? && g.Edge(ModuleKey(files[i].path).value, f.path)
  {
    StatementHasEdge(files, f, if Absolute(name) in f.imports.value then Absolute(name) else From(0, Some(name)), name, i);
  }

  /** So does a relative import in an ordinary module, whatever ancestor it starts from. */
  lemma RelativeImportHasEdge(g: Graph, files: seq<Source>, f: Source, p: Name, stem: string, k: nat,
                              mod: Option<Name>, i: nat)
    requires g.Built(files) && f in files && f.path == ModulePath(p, stem) && stem != "__init__" && 0 < k <= |p|
    requires f.imports.Some? && From(|p| - k + 1, mod) in f.imports.value
    requires FirstClaim(Packages(files), files, p[..k] + mod.GetOr([]), i)
    requires ModuleKey(files[i].path) != Some(p + [stem])
    ensures ModuleKey(files[i].path).Some? && g.Edge(ModuleKey(files[i].path).value, f.path)
  {
    RelativeImportReachesIffOrdinary(p, stem, k, mod);
    ModulePathKey(p, stem);
    StatementHasEdge(files, f, From(|p| - k + 1, mod), p[..k] + mod.GetOr([]), i);
  }

  /** No file is recorded as an importer of its own module. */
  lemma NoSelfEdge(g: Graph, files: seq<Source>, f: Source)
    requires g.Built(files) && f in files && ModuleKey(f.path).Some?
    ensures !g.Edge(ModuleKey(f.path).value, f.path)
  {
    assert !Imports(files, f, ModuleKey(f.path).value);
  }

  /** A package whose `__init__.py` re-exports a module of its own, relatively or absolutely. */
  function ReExport(pkg: string, mod: string, relative: bool): seq<Source> {
    [Source(ModulePath([pkg], "__init__"), Some({if relative then From(1, Some([mod])) else Absolute([pkg, mod])})),
     Source(ModulePath([pkg], mod), Some({}))]
  }

  /** A top-level file of another name. */
  predicate TopLevelElse(f: Source, pkg: string, mod: string) {
    var key := ModuleKey(f.path);
    key.None? || (|key.value| == 1 && key.value[0] != pkg && key.value[0] != mod)
  }

  /** Only the absolute form gives the package an edge to the module. */
  lemma RelativeReExportHasNoEdge(pkg: string, mod: string, rest: seq<Source>)
    requires mod != "__init__" && pkg != "__init__"
    requires forall f :: f in rest ==> TopLevelElse(f, pkg, mod)
    ensures var files := ReExport(pkg, mod, true) + rest; !Imports(files, files[0], [pkg, mod])
    ensures var files := ReExport(pkg, mod, false) + rest; Imports(files, files[0], [pkg, mod])
  {
    RelativeReExport(pkg, mod, rest);
    AbsoluteReExport(pkg, mod, rest);
  }

  lemma AbsoluteReExport(pkg: string, mod: string, rest: seq<Source>)
    requires mod != "__init__" && pkg != "__init__"
    ensures var files := ReExport(pkg, mod, false) + rest; Imports(files, files[0], [pkg, mod])
  {
    var files := ReExport(pkg, mod, false) + rest;
    var packages := Packages(files);
    ModulePathKey([pkg], "__init__");
    ModulePathKey([pkg], mod);
    assert [pkg] + [mod] == [pkg, mod];
    ClaimsAreSuffixes(packages, files[0], [pkg, mod]);
    ClaimsAreSuffixes(packages, files[1], [pkg, mod]);
    StatementHasEdge(files, files[0], Absolute([pkg, mod]), [pkg, mod], 1);
  }

  /** Only the package itself could claim the bare name of the module. */
  lemma OnePartClaim(pkg: string, mod: string, rest: seq<Source>, i: nat)
    requires mod != "__init__" && pkg != "__init__"
    requires forall f :: f in rest ==> TopLevelElse(f, pkg, mod)
    requires var files := ReExport(pkg, mod, true) + rest;
             i < |files| && Claims(Packages(files), files[i], [mod])
    ensures i == 0 && pkg == mod
  {
    var files := ReExport(pkg, mod, true) + rest;
    ModulePathKey([pkg], "__init__");
    ModulePathKey([pkg], mod);
    assert i > 1 ==> files[i] in rest;
    var key := ModuleKey(files[i].path).value;
    AliasesAre(Packages(files), key, 2, [key], [mod]);
    if i == 1 {
      assert [pkg] + [mod] == [pkg, mod] && [pkg, mod][..2] == [pkg, mod];
      ModuleIsNoPackage(pkg, mod, rest);
    }
  }

  lemma ModuleIsNoPackage(pkg: string, mod: string, rest: seq<Source>)
    requires mod != "__init__" && forall f :: f in rest ==> TopLevelElse(f, pkg, mod)
    ensures [pkg, mod] !in Packages(ReExport(pkg, mod, true) + rest)
  {
    var files := ReExport(pkg, mod, true) + rest;
    ModulePathKey([pkg], "__init__");
    ModulePathKey([pkg], mod);
    forall f | f in files && f.path.python && Stem(f.path) == "__init__" ensures ModuleKey(f.path) != Some([pkg, mod]) {
      assert f == files[0] || f == files[1] || f in rest;
    }
  }

  lemma RelativeReExport(pkg: string, mod: string, rest: seq<Source>)
    requires mod != "__init__" && pkg != "__init__"
    requires forall f :: f in rest ==> TopLevelElse(f, pkg, mod)
    ensures var files := ReExport(pkg, mod, true) + rest; !Imports(files, files[0], [pkg, mod])
  {
    var files := ReExport(pkg, mod, true) + rest;
    ModulePathKey([pkg], "__init__");
    RelativeImportReachesIffOrdinary([pkg], "__init__", 1, Some([mod]));
    assert [pkg][..0] + [mod] == [mod];
    BareNameMisses(pkg, mod, rest);
  }

  lemma BareNameMisses(pkg: string, mod: string, rest: seq<Source>)
    requires mod != "__init__" && pkg != "__init__"
    requires forall f :: f in rest ==> TopLevelElse(f, pkg, mod)
    ensures Resolve(Names(ReExport(pkg, mod, true) + rest), [mod]) != Some([pkg, mod])
  {
    var files := ReExport(pkg, mod, true) + rest;
    var packages := Packages(files);
    ModulePathKey([pkg], "__init__");
    assert forall j :: 0 < j <= 1 ==> [mod][..j] == [mod];
    if exists i :: 0 <= i < |files| && Claims(packages, files[i], [mod]) {
      var i := FirstClaimExists(packages, files, [mod], |files|);
      OnePartClaim(pkg, mod, rest, i);
      ResolvesToFirstClaim(packages, files, [mod], 1, i);
    } else {
      ResolvesNowhere(packages, files, [mod]);
    }
  }

  // ----- test files -----

  /** The file name as it stands in the directory. */
  function BaseName(p: Path): string {
    Stem(p) + if p.python then ".py" else ""
  }

  /** Test files are told by their file names: `test_` in front, or `_test.py` behind. */
  lemma TestFileByName(p: Path)
    requires !p.python ==> !EndsWith(Stem(p), ".py")
    ensures IsTestFile(p) <==> "test_" <= BaseName(p) || EndsWith(BaseName(p), "_test.py")
  {
    var stem, name := Stem(p), BaseName(p);
    if p.python {
      PrefixOfName(stem);
      SuffixOfName(stem);
    } else {
      assert name == stem;
      LongerSuffix(stem);
    }
  }

  lemma LongerSuffix(s: string)
    ensures EndsWith(s, "_test.py") ==> EndsWith(s, ".py")
  {
    assert "_test.py"[5..] == ".py";
    assert |s| >= 8 ==> s[|s| - 8..][5..] == s[|s| - 3..];
  }

  lemma PrefixOfName(stem: string)
    ensures "test_" <= stem <==> "test_" <= stem + ".py"
  {
    var name := stem + ".py";
    assert forall i :: 0 <= i < 5 ==> "test_"[i] != '.';
    assert name[|stem|] == '.';
    if "test_" <= name && |stem| >= 5 {
      assert stem[..5] == name[..5];
    }
    if "test_" <= stem {
      assert name[..5] == stem[..5];
    }
  }

  lemma SuffixOfName(stem: string)
    ensures EndsWith(stem, "_test") <==> EndsWith(stem + ".py", "_test.py")
  {
    var name := stem + ".py";
    assert "_test.py" == "_test" + ".py";
    if |stem| >= 5 {
      assert name[|name| - 8..] == stem[|stem| - 5..] + ".py";
      assert (stem[|stem| - 5..] + ".py")[..5] == stem[|stem| - 5..] && ("_test" + ".py")[..5] == "_test";
    }
  }
}
