/** The code memory (codna/memory.py): a store of rows and a hash manifest kept in step.

    The first part says, on values, what one indexing run does; the classes at the end are the
    imperative code and are proved to do exactly that. The theorems are in module MemoryTheorems. */
module MemoryIndex {
  import opened Collections
  import opened Manifest
  import opened Wrappers

  datatype Unit = Unit(id: Id, text: string, language: string, service: Option<string>)

  datatype Row = Row(scope: Scope, service: string, text: string, space: string)

  datatype Meta = Meta(commit: string, branch: string, space: string)

  /** Everything one database directory holds. */
  datatype Memory = Memory(rows: map<Id, Row>, manifest: map<Id, Entry>, meta: Option<Meta>)

  const EMPTY := Memory(map[], map[], None)

  /** One `CodeMemory` instance: its repository, its service override and its embedding space. */
  datatype Config = Config(repo: string, service: Option<string>, space: string)

  /** What extraction hands to `index`: the units, the languages asked for and the git state. */
  datatype Extraction = Extraction(units: seq<Unit>, languages: seq<string>, commit: string, branch: string)

  datatype Report = Report(indexed: nat, skipped: nat, removed: nat, scopes: nat)

  // ----- one unit -----

  /** Python's `a or b`: an empty string counts as missing. */
  function OrElse(a: Option<string>, b: string): string {
    if a.Some? && a.value != "" then a.value else b
  }

  function ServiceKey(cfg: Config, u: Unit): string {
    OrElse(cfg.service, OrElse(u.service, ""))
  }

  function ScopeFor(cfg: Config, u: Unit): Scope {
    Scope(cfg.repo, ServiceKey(cfg, u), u.language)
  }

  function UnitDigest(cfg: Config, u: Unit): Digest {
    Digest(cfg.space, ServiceKey(cfg, u), u.text)
  }

  function RowFor(cfg: Config, u: Unit): Row {
    Row(ScopeFor(cfg, u), ServiceKey(cfg, u), u.text, cfg.space)
  }

  function EntryFor(cfg: Config, u: Unit): Entry {
    MakeEntry(UnitDigest(cfg, u), ScopeFor(cfg, u))
  }

  function RowDigest(row: Row): Digest {
    Digest(row.space, row.service, row.text)
  }

  // ----- grouping by scope -----

  /** The scopes of `units` in the order they first occur. */
  function ScopeOrder(cfg: Config, units: seq<Unit>): seq<Scope> {
    if units == [] then [] else
      var before := ScopeOrder(cfg, units[..|units| - 1]);
      var s := ScopeFor(cfg, units[|units| - 1]);
      if s in before then before else before + [s]
  }

  function GroupOf(cfg: Config, units: seq<Unit>, s: Scope): seq<Unit> {
    if units == [] then [] else
      var before := GroupOf(cfg, units[..|units| - 1], s);
      var u := units[|units| - 1];
      if ScopeFor(cfg, u) == s then before + [u] else before
  }

  function Groups(cfg: Config, units: seq<Unit>): map<Scope, seq<Unit>> {
    map s | s in ScopeOrder(cfg, units) :: GroupOf(cfg, units, s)
  }

  function Flatten(cfg: Config, units: seq<Unit>, scopes: seq<Scope>): seq<Unit> {
    if scopes == [] then [] else
      Flatten(cfg, units, scopes[..|scopes| - 1]) + GroupOf(cfg, units, scopes[|scopes| - 1])
  }

  /** The units in the order the indexing loops visit them. */
  function Grouped(cfg: Config, units: seq<Unit>): seq<Unit> {
    Flatten(cfg, units, ScopeOrder(cfg, units))
  }

  // ----- upserts -----

  function Ids(us: seq<Unit>): set<Id> {
    set u | u in us :: u.id
  }

  /** Upserting a batch: one write per unit, in order. */
  function Upserted(cfg: Config, rows: map<Id, Row>, us: seq<Unit>): map<Id, Row> {
    if us == [] then rows else
      var u := us[|us| - 1];
      Upserted(cfg, rows, us[..|us| - 1])[u.id := RowFor(cfg, u)]
  }

  function Recorded(cfg: Config, manifest: map<Id, Entry>, us: seq<Unit>): map<Id, Entry> {
    if us == [] then manifest else
      var u := us[|us| - 1];
      Recorded(cfg, manifest, us[..|us| - 1])[u.id := EntryFor(cfg, u)]
  }

  function Texts(us: seq<Unit>): map<Id, string> {
    if us == [] then map[] else
      var u := us[|us| - 1];
      Texts(us[..|us| - 1])[u.id := u.text]
  }

  // ----- one indexing run -----

  predicate Unchanged(cfg: Config, u: Unit, prev: map<Id, Entry>) {
    u.id in prev && HashOf(prev[u.id]) == Some(UnitDigest(cfg, u))
  }

  function Changed(cfg: Config, us: seq<Unit>, prev: map<Id, Entry>): seq<Unit> {
    if us == [] then [] else
      var before := Changed(cfg, us[..|us| - 1], prev);
      var u := us[|us| - 1];
      if Unchanged(cfg, u, prev) then before else before + [u]
  }

  /** The scopes an index owns: those it writes, plus one per requested language. */
  function Owned(cfg: Config, x: Extraction): set<Scope> {
    (set u | u in x.units :: ScopeFor(cfg, u)) +
    (set lang | lang in x.languages :: Scope(cfg.repo, OrElse(cfg.service, ""), lang))
  }

  predicate Vanishes(cfg: Config, x: Extraction, id: Id, entry: Entry) {
    && id !in Ids(x.units)
    && match ScopeOf(entry)
       case Some(s) => s in Owned(cfg, x)
       case None => LegacyIdBelongsToRepo(id, cfg.repo)
  }

  function Vanished(cfg: Config, x: Extraction, prev: map<Id, Entry>): set<Id> {
    set id | id in prev && Vanishes(cfg, x, id, prev[id])
  }

  function Previous(m: Memory, refresh: bool): map<Id, Entry> {
    if refresh then m.manifest else map[]
  }

  /** The state `index` leaves. */
  function IndexState(m: Memory, cfg: Config, x: Extraction, refresh: bool): Memory {
    var prev := Previous(m, refresh);
    var gone := Vanished(cfg, x, prev);
    var visited := Grouped(cfg, x.units);
    Memory(
      Upserted(cfg, m.rows - gone, Changed(cfg, visited, prev)),
      Recorded(cfg, prev - gone, visited),
      Some(Meta(x.commit, x.branch, cfg.space)))
  }

  function IndexReport(m: Memory, cfg: Config, x: Extraction, refresh: bool): Report {
    var prev := Previous(m, refresh);
    var visited := Grouped(cfg, x.units);
    var written := |Changed(cfg, visited, prev)|;
    ChangedShorter(cfg, visited, prev);
    Report(written, |visited| - written, |Vanished(cfg, x, prev)|, |ScopeOrder(cfg, x.units)|)
  }

  predicate EmbedderChanged(m: Memory, cfg: Config) {
    m.meta.Some? && m.meta.value.space != "" && m.meta.value.space != cfg.space
  }

  predicate IsStale(m: Memory, head: string) {
    m.meta.Some? && head != "" && m.meta.value.commit != "" && head != m.meta.value.commit
  }

  /** What `ensure_fresh` starts its index from: nothing of another embedding space survives, not even
      when the index then fails. */
  function KeptForRefresh(m: Memory, cfg: Config): Memory {
    if EmbedderChanged(m, cfg) then EMPTY else m
  }

  /** The state `ensure_fresh` leaves; `x` is what extraction would find at the current HEAD. */
  function EnsureFreshState(m: Memory, cfg: Config, x: Extraction): Memory {
    if EmbedderChanged(m, cfg) then IndexState(EMPTY, cfg, x, true)
    else if IsStale(m, x.commit) then IndexState(m, cfg, x, true)
    else m
  }

  // ----- facts the loops need -----

  lemma ChangedShorter(cfg: Config, us: seq<Unit>, prev: map<Id, Entry>)
    ensures |Changed(cfg, us, prev)| <= |us|
  {
  }

  lemma {:induction false} ChangedConcat(cfg: Config, a: seq<Unit>, b: seq<Unit>, prev: map<Id, Entry>)
    ensures Changed(cfg, a + b, prev) == Changed(cfg, a, prev) + Changed(cfg, b, prev)
  {
    if b == [] {
      assert a + b == a;
    } else {
      assert (a + b)[..|a + b| - 1] == a + b[..|b| - 1];
      ChangedConcat(cfg, a, b[..|b| - 1], prev);
    }
  }

  /** Two upserts in a row are one upsert of both batches. */
  lemma {:induction false} UpsertedConcat(cfg: Config, rows: map<Id, Row>, a: seq<Unit>, b: seq<Unit>)
    ensures Upserted(cfg, Upserted(cfg, rows, a), b) == Upserted(cfg, rows, a + b)
  {
    if b == [] {
      assert a + b == a;
    } else {
      assert (a + b)[..|a + b| - 1] == a + b[..|b| - 1];
      UpsertedConcat(cfg, rows, a, b[..|b| - 1]);
    }
  }

  /** Recording into a dictionary of its own and merging is recording into the merged one. */
  lemma {:induction false} RecordedMerge(cfg: Config, base: map<Id, Entry>, us: seq<Unit>)
    ensures base + Recorded(cfg, map[], us) == Recorded(cfg, base, us)
  {
    if us != [] {
      RecordedMerge(cfg, base, us[..|us| - 1]);
    }
  }

  lemma {:induction false} RecordedConcat(cfg: Config, base: map<Id, Entry>, a: seq<Unit>, b: seq<Unit>)
    ensures Recorded(cfg, Recorded(cfg, base, a), b) == Recorded(cfg, base, a + b)
  {
    if b == [] {
      assert a + b == a;
    } else {
      assert (a + b)[..|a + b| - 1] == a + b[..|b| - 1];
      RecordedConcat(cfg, base, a, b[..|b| - 1]);
    }
  }

  lemma FlattenNext(cfg: Config, units: seq<Unit>, scopes: seq<Scope>, k: nat)
    requires k < |scopes|
    ensures Flatten(cfg, units, scopes[..k + 1]) == Flatten(cfg, units, scopes[..k]) + GroupOf(cfg, units, scopes[k])
  {
    assert scopes[..k + 1][..k] == scopes[..k];
  }

  /** Handling one more group after the units in `done`. */
  lemma VisitNext(cfg: Config, base: map<Id, Row>, prev: map<Id, Entry>, done: seq<Unit>, group: seq<Unit>)
    ensures |Changed(cfg, done + group, prev)| == |Changed(cfg, done, prev)| + |Changed(cfg, group, prev)|
    ensures Upserted(cfg, Upserted(cfg, base, Changed(cfg, done, prev)), Changed(cfg, group, prev)) ==
            Upserted(cfg, base, Changed(cfg, done + group, prev))
    ensures Recorded(cfg, Recorded(cfg, map[], done), group) == Recorded(cfg, map[], done + group)
  {
    ChangedConcat(cfg, done, group, prev);
    UpsertedConcat(cfg, base, Changed(cfg, done, prev), Changed(cfg, group, prev));
    RecordedConcat(cfg, map[], done, group);
  }

  lemma {:induction false} ScopeOrderIsDistinct(cfg: Config, units: seq<Unit>)
    ensures Distinct(ScopeOrder(cfg, units))
    ensures forall u :: u in units ==> ScopeFor(cfg, u) in ScopeOrder(cfg, units)
    ensures forall s :: s in ScopeOrder(cfg, units) ==> exists u :: u in units && ScopeFor(cfg, u) == s
  {
    if units != [] {
      ScopeOrderIsDistinct(cfg, units[..|units| - 1]);
      var u := units[|units| - 1];
      assert forall v :: v in units <==> v == u || v in units[..|units| - 1];
    }
  }

  // ----- the imperative code -----

  /** The database directory: shared by every `CodeMemory` opened on it. */
  class Database {
    var rows: map<Id, Row>
    var manifest: map<Id, Entry>
    var meta: Option<Meta>

    constructor ()
      ensures Value() == EMPTY
    {
      rows, manifest, meta := map[], map[], None;
    }

    ghost function Value(): Memory
      reads this
    {
      Memory(rows, manifest, meta)
    }

    method Delete(ids: set<Id>)
      modifies this`rows
      ensures rows == old(rows) - ids
    {
      rows := rows - ids;
    }

    method UpsertTexts(cfg: Config, us: seq<Unit>)
      modifies this`rows
      ensures rows == Upserted(cfg, old(rows), us)
    {
      for i := 0 to |us|
        invariant rows == Upserted(cfg, old(rows), us[..i])
      {
        assert us[..i + 1][..i] == us[..i];
        rows := rows[us[i].id := RowFor(cfg, us[i])];
      }
      assert us[..|us|] == us;
    }
  }

  datatype MemoryError = UnsupportedLanguage(missing: set<string>)

  /** The registered languages when none are requested; an error for one nobody registered. */
  function ResolveLanguages(requested: Option<seq<string>>, registered: seq<string>):
    (r: Result<seq<string>, MemoryError>)
    ensures r.Success? <==> (requested.Some? ==> forall l :: l in requested.value ==> l in registered)
    ensures r.Success? ==> r.value == requested.GetOr(registered)
  {
    var resolved := requested.GetOr(registered);
    var missing := set l | l in resolved && l !in registered;
    if missing != {} then Failure(UnsupportedLanguage(missing)) else
      assert forall l :: l in resolved && l !in registered ==> l in missing;
      Success(resolved)
  }

  class CodeMemory {
    const db: Database
    const cfg: Config
    var unitTexts: Option<map<Id, string>>
    var indexedLanguages: Option<seq<string>>

    constructor (db: Database, cfg: Config)
      ensures this.db == db && this.cfg == cfg && unitTexts == None && indexedLanguages == None
    {
      this.db, this.cfg := db, cfg;
      unitTexts, indexedLanguages := None, None;
    }

    /** `index`: group by scope, prune, skip what is unchanged, upsert the rest, replace the manifest. */
    method Index(units: seq<Unit>, requested: Option<seq<string>>, registered: seq<string>,
                 commit: string, branch: string, refresh: bool) returns (r: Result<Report, MemoryError>)
      modifies this, db
      ensures r.Success? <==> ResolveLanguages(requested, registered).Success?
      ensures r.Failure? ==> unchanged(this) && unchanged(db)
      ensures r.Success? ==>
        var x := Extraction(units, requested.GetOr(registered), commit, branch);
        && db.Value() == IndexState(old(db.Value()), cfg, x, refresh)
        && r.value == IndexReport(old(db.Value()), cfg, x, refresh)
        && indexedLanguages == Some(x.languages)
        && unitTexts == Some(Texts(units))
    {
      var resolved := ResolveLanguages(requested, registered);
      if resolved.Failure? {
        return Failure(resolved.error);
      }
      var x := Extraction(units, resolved.value, commit, branch);
      indexedLanguages := Some(resolved.value);
      unitTexts := Some(Texts(units));

      var prev := if refresh then db.manifest else map[];
      var scopes, byScope := GroupByScope(units);

      var vanished := {};
      if refresh {
        vanished := Vanished(cfg, x, prev);
        if vanished != {} {
          db.Delete(vanished);
        }
      }
      assert Vanished(cfg, x, prev) == vanished;
      assert old(db.rows) - {} == old(db.rows);

      ghost var base := old(db.rows) - vanished;
      var written, same, newHashes := WriteGroups(units, scopes, byScope, prev);
      ghost var visited := Grouped(cfg, units);
      assert db.rows == Upserted(cfg, base, Changed(cfg, visited, prev));
      RecordedMerge(cfg, prev - vanished, visited);
      db.manifest := prev - vanished + newHashes;
      db.meta := Some(Meta(commit, branch, cfg.space));
      r := Success(Report(written, same, |vanished|, |scopes|));
    }

    /** The outer loop over scopes: upsert each group's changed units and collect the new hashes. */
    method WriteGroups(units: seq<Unit>, scopes: seq<Scope>, byScope: map<Scope, seq<Unit>>, prev: map<Id, Entry>)
      returns (written: nat, same: nat, newHashes: map<Id, Entry>)
      requires scopes == ScopeOrder(cfg, units)
      requires byScope == Groups(cfg, units)
      modifies db`rows
      ensures var visited := Grouped(cfg, units);
              && db.rows == Upserted(cfg, old(db.rows), Changed(cfg, visited, prev))
              && newHashes == Recorded(cfg, map[], visited)
              && written == |Changed(cfg, visited, prev)| && written + same == |visited|
    {
      written, same, newHashes := 0, 0, map[];
      ghost var base := db.rows;
      ghost var done: seq<Unit> := [];
      for k := 0 to |scopes|
        invariant done == Flatten(cfg, units, scopes[..k])
        invariant db.rows == Upserted(cfg, base, Changed(cfg, done, prev))
        invariant newHashes == Recorded(cfg, map[], done)
        invariant written == |Changed(cfg, done, prev)| && written + same == |done|
      {
        var group := byScope[scopes[k]];
        var changed, unchangedHere, hashes := Compare(group, prev, newHashes);
        if changed != [] {
          db.UpsertTexts(cfg, changed);
        }
        written, same, newHashes := written + |changed|, same + unchangedHere, hashes;
        FlattenNext(cfg, units, scopes, k);
        VisitNext(cfg, base, prev, done, group);
        done := done + group;
      }
      assert scopes[..|scopes|] == scopes;
    }

    /** `by_scope`: a dictionary from scope to its units, with its insertion order. */
    method GroupByScope(units: seq<Unit>) returns (scopes: seq<Scope>, byScope: map<Scope, seq<Unit>>)
      ensures scopes == ScopeOrder(cfg, units)
      ensures byScope == Groups(cfg, units)
    {
      scopes, byScope := [], map[];
      for i := 0 to |units|
        invariant scopes == ScopeOrder(cfg, units[..i])
        invariant byScope == Groups(cfg, units[..i])
      {
        NextUnit(cfg, units, i);
        var s := ScopeFor(cfg, units[i]);
        if s !in byScope {
          scopes, byScope := scopes + [s], byScope[s := []];
        }
        byScope := byScope[s := byScope[s] + [units[i]]];
      }
      assert units[..|units|] == units;
    }

    /** The inner loop over one scope: split off the changed units and record every hash. */
    method Compare(group: seq<Unit>, prev: map<Id, Entry>, hashes0: map<Id, Entry>)
      returns (changed: seq<Unit>, same: nat, hashes: map<Id, Entry>)
      ensures changed == Changed(cfg, group, prev)
      ensures same + |changed| == |group|
      ensures hashes == Recorded(cfg, hashes0, group)
    {
      changed, same, hashes := [], 0, hashes0;
      for i := 0 to |group|
        invariant changed == Changed(cfg, group[..i], prev)
        invariant same + |changed| == i
        invariant hashes == Recorded(cfg, hashes0, group[..i])
      {
        var u := group[i];
        assert group[..i + 1][..i] == group[..i];
        hashes := hashes[u.id := EntryFor(cfg, u)];
        if u.id in prev && HashOf(prev[u.id]) == Some(UnitDigest(cfg, u)) {
          same := same + 1;
        } else {
          changed := changed + [u];
        }
      }
      assert group[..|group|] == group;
    }

    /** `reset`: drop the collection, the run record and the manifest of the whole directory. */
    method Reset()
      modifies db
      ensures db.Value() == EMPTY
    {
      db.rows, db.manifest, db.meta := map[], map[], None;
    }

    /** `ensure_fresh`: rebuild on a new embedding space, refresh on a moved HEAD, else do nothing. */
    method EnsureFresh(units: seq<Unit>, requested: Option<seq<string>>, registered: seq<string>,
                       commit: string, branch: string) returns (r: Option<Result<Report, MemoryError>>)
      modifies this, db
      ensures ResolveLanguages(requested, registered).Success? ==>
        var x := Extraction(units, requested.GetOr(registered), commit, branch);
        db.Value() == EnsureFreshState(old(db.Value()), cfg, x)
      ensures r.None? <==> !EmbedderChanged(old(db.Value()), cfg) && !IsStale(old(db.Value()), commit)
      ensures r.None? ==> unchanged(this) && unchanged(db)
      ensures r.Some? ==> (r.value.Success? <==> ResolveLanguages(requested, registered).Success?)
      ensures r.Some? && r.value.Success? ==>
        var x := Extraction(units, requested.GetOr(registered), commit, branch);
        r.value.value == IndexReport(KeptForRefresh(old(db.Value()), cfg), cfg, x, true)
      ensures r.Some? && r.value.Failure? ==> db.Value() == KeptForRefresh(old(db.Value()), cfg)
    {
      if db.meta.Some? && db.meta.value.space != "" && db.meta.value.space != cfg.space {
        Reset();
        var report := Index(units, requested, registered, commit, branch, true);
        return Some(report);
      }
      if db.meta.Some? && commit != "" && db.meta.value.commit != "" && commit != db.meta.value.commit {
        var report := Index(units, requested, registered, commit, branch, true);
        return Some(report);
      }
      return None;
    }
  }

  /** What one more unit does to the scopes and to the groups. */
  lemma NextUnit(cfg: Config, units: seq<Unit>, i: nat)
    requires i < |units|
    ensures var s, before := ScopeFor(cfg, units[i]), Groups(cfg, units[..i]);
            && (s in before <==> s in ScopeOrder(cfg, units[..i]))
            && ScopeOrder(cfg, units[..i + 1]) == ScopeOrder(cfg, units[..i]) + (if s in before then [] else [s])
            && Groups(cfg, units[..i + 1]) == before[s := (if s in before then before[s] else []) + [units[i]]]
  {
    var s := ScopeFor(cfg, units[i]);
    assert units[..i + 1][..i] == units[..i];
    if s !in ScopeOrder(cfg, units[..i]) {
      AbsentGroupIsEmpty(cfg, units[..i], s);
    }
  }

  lemma {:induction false} AbsentGroupIsEmpty(cfg: Config, units: seq<Unit>, s: Scope)
    requires s !in ScopeOrder(cfg, units)
    ensures GroupOf(cfg, units, s) == []
  {
    if units != [] {
      AbsentGroupIsEmpty(cfg, units[..|units| - 1], s);
    }
  }
}
