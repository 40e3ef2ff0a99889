/** What indexing keeps and what it agrees with, over every run (codna/memory.py). */
module MemoryTheorems {
  import opened Collections
  import opened Manifest
  import opened MemoryIndex
  import opened Wrappers

  // ----- vocabulary -----

  /** How ids are read: every id names one repository and one language. */
  datatype Naming = Naming(repo: Id -> string, language: Id -> string)

  ghost predicate WellNamed(cfg: Config, x: Extraction, naming: Naming) {
    forall u :: u in x.units ==>
      && LegacyIdBelongsToRepo(u.id, cfg.repo)
      && naming.repo(u.id) == cfg.repo
      && naming.language(u.id) == u.language
  }

  /** Units sharing an id agree on what the hash covers. Distinct ids are a special case. */
  ghost predicate Coherent(cfg: Config, x: Extraction) {
    forall u, v :: u in x.units && v in x.units && u.id == v.id ==> UnitDigest(cfg, u) == UnitDigest(cfg, v)
  }

  /** No manifest entry lies: a hash it records is the hash of the stored row, a scope is the row's scope. */
  ghost predicate Truthful(m: Memory) {
    forall id :: id in m.manifest ==>
      && (HashOf(m.manifest[id]).Some? ==>
            id in m.rows && HashOf(m.manifest[id]).value == RowDigest(m.rows[id]))
      && (ScopeOf(m.manifest[id]).Some? && id in m.rows ==>
            ScopeOf(m.manifest[id]).value == m.rows[id].scope)
  }

  /** Every row sits in the partition its id and its service call for. */
  ghost predicate Placed(m: Memory, naming: Naming) {
    forall id :: id in m.rows ==>
      && LegacyIdBelongsToRepo(id, m.rows[id].scope.repo)
      && m.rows[id].scope == Scope(naming.repo(id), m.rows[id].service, naming.language(id))
  }

  /** Every row is known to the manifest. */
  ghost predicate Tracked(m: Memory) {
    m.rows.Keys <= m.manifest.Keys
  }

  function RowsIn(rows: map<Id, Row>, scopes: set<Scope>): map<Id, Row> {
    map id | id in rows && rows[id].scope in scopes :: rows[id]
  }

  /** What a from-empty index of the same extraction stores. */
  function Rebuild(cfg: Config, x: Extraction): map<Id, Row> {
    IndexState(EMPTY, cfg, x, true).rows
  }

  /** Stored rows of an owned scope that pruning cannot see: not produced now, unknown to the manifest. */
  function Orphans(m: Memory, cfg: Config, x: Extraction): set<Id> {
    set id | id in m.rows && m.rows[id].scope in Owned(cfg, x) && id !in Ids(x.units) && id !in m.manifest
  }

  // ----- grouping only reorders -----

  lemma {:induction false} GroupGains(cfg: Config, units: seq<Unit>, u: Unit, scopes: seq<Scope>)
    requires Distinct(scopes)
    ensures multiset(Flatten(cfg, units + [u], scopes)) ==
            multiset(Flatten(cfg, units, scopes)) + if ScopeFor(cfg, u) in scopes then multiset{u} else multiset{}
  {
    if scopes != [] {
      var n := |scopes| - 1;
      var s := scopes[n];
      GroupGains(cfg, units, u, scopes[..n]);
      assert (units + [u])[..|units|] == units;
      assert scopes == scopes[..n] + [s];
      assert ScopeFor(cfg, u) == s ==> ScopeFor(cfg, u) !in scopes[..n];
    }
  }

  /** The loops visit every unit of the extraction exactly as often as extraction produced it. */
  lemma {:induction false} GroupingPermutes(cfg: Config, units: seq<Unit>)
    ensures multiset(Grouped(cfg, units)) == multiset(units)
  {
    if units != [] {
      var n := |units| - 1;
      var u := units[n];
      var s := ScopeFor(cfg, u);
      var before := ScopeOrder(cfg, units[..n]);
      assert units == units[..n] + [u];
      GroupingPermutes(cfg, units[..n]);
      ScopeOrderIsDistinct(cfg, units[..n]);
      GroupGains(cfg, units[..n], u, before);
      if s !in before {
        AbsentGroupIsEmpty(cfg, units[..n], s);
        assert (before + [s])[..|before|] == before;
        assert GroupOf(cfg, units, s) == [u];
      }
    }
  }

  lemma VisitedUnits(cfg: Config, units: seq<Unit>)
    ensures forall u :: u in Grouped(cfg, units) <==> u in units
    ensures |Grouped(cfg, units)| == |units|
    ensures Ids(Grouped(cfg, units)) == Ids(units)
  {
    GroupingPermutes(cfg, units);
    var g := Grouped(cfg, units);
    assert |multiset(g)| == |multiset(units)|;
    forall u ensures u in g <==> u in units {
      assert u in g <==> u in multiset(g);
      assert u in units <==> u in multiset(units);
    }
  }

  // ----- reading back a batch of writes -----

  /** A written id holds the row of some unit of the batch; every other id is left alone. */
  lemma {:induction false} UpsertedAt(cfg: Config, rows: map<Id, Row>, us: seq<Unit>, id: Id) returns (u: Unit)
    ensures id in Upserted(cfg, rows, us) <==> id in rows || id in Ids(us)
    ensures id in Ids(us) ==> u in us && u.id == id && Upserted(cfg, rows, us)[id] == RowFor(cfg, u)
    ensures id !in Ids(us) && id in rows ==> Upserted(cfg, rows, us)[id] == rows[id]
  {
    u := Unit(id, "", "", None);
    if us != [] {
      var last := us[|us| - 1];
      assert forall v :: v in us <==> v == last || v in us[..|us| - 1];
      u := UpsertedAt(cfg, rows, us[..|us| - 1], id);
      if last.id == id {
        u := last;
      }
    }
  }

  lemma {:induction false} RecordedAt(cfg: Config, base: map<Id, Entry>, us: seq<Unit>, id: Id) returns (u: Unit)
    ensures id in Recorded(cfg, base, us) <==> id in base || id in Ids(us)
    ensures id in Ids(us) ==> u in us && u.id == id && Recorded(cfg, base, us)[id] == EntryFor(cfg, u)
    ensures id !in Ids(us) && id in base ==> Recorded(cfg, base, us)[id] == base[id]
  {
    u := Unit(id, "", "", None);
    if us != [] {
      var last := us[|us| - 1];
      assert forall v :: v in us <==> v == last || v in us[..|us| - 1];
      u := RecordedAt(cfg, base, us[..|us| - 1], id);
      if last.id == id {
        u := last;
      }
    }
  }

  lemma {:induction false} ChangedMembers(cfg: Config, us: seq<Unit>, prev: map<Id, Entry>)
    ensures forall u :: u in Changed(cfg, us, prev) <==> u in us && !Unchanged(cfg, u, prev)
  {
    if us != [] {
      ChangedMembers(cfg, us[..|us| - 1], prev);
      assert forall v :: v in us <==> v == us[|us| - 1] || v in us[..|us| - 1];
    }
  }

  /** After an index, a produced id of a coherent extraction holds that unit's row and entry. */
  lemma ProducedAt(m: Memory, cfg: Config, x: Extraction, refresh: bool, naming: Naming, u: Unit)
    requires Truthful(m) && Placed(m, naming) && WellNamed(cfg, x, naming) && Coherent(cfg, x)
    requires u in x.units
    ensures var m' := IndexState(m, cfg, x, refresh);
            && u.id in m'.rows && m'.rows[u.id] == RowFor(cfg, u)
            && u.id in m'.manifest && m'.manifest[u.id] == EntryFor(cfg, u)
  {
    var prev := Previous(m, refresh);
    var gone := Vanished(cfg, x, prev);
    var visited := Grouped(cfg, x.units);
    VisitedUnits(cfg, x.units);
    ChangedMembers(cfg, visited, prev);
    assert u in visited && u.id in Ids(visited);
    var w := RecordedAt(cfg, prev - gone, visited, u.id);
    assert w in x.units && UnitDigest(cfg, w) == UnitDigest(cfg, u);
    assert EntryFor(cfg, w) == EntryFor(cfg, u);
    var v := UpsertedAt(cfg, m.rows - gone, Changed(cfg, visited, prev), u.id);
    if u.id in Ids(Changed(cfg, visited, prev)) {
      assert v in x.units && UnitDigest(cfg, v) == UnitDigest(cfg, u);
    } else {
      assert Unchanged(cfg, u, prev);
      assert u.id !in gone;
    }
  }

  /** After an index, an id that was not produced is gone if it vanished and untouched otherwise. */
  lemma NotProducedAt(m: Memory, cfg: Config, x: Extraction, refresh: bool, id: Id)
    requires id !in Ids(x.units)
    ensures var m' := IndexState(m, cfg, x, refresh);
            var prev := Previous(m, refresh);
            var gone := id in prev && Vanishes(cfg, x, id, prev[id]);
            && (id in m'.rows <==> id in m.rows && !gone)
            && (id in m'.rows ==> m'.rows[id] == m.rows[id])
            && (id in m'.manifest <==> id in prev && !gone)
            && (id in m'.manifest ==> m'.manifest[id] == prev[id])
  {
    var prev := Previous(m, refresh);
    var visited := Grouped(cfg, x.units);
    VisitedUnits(cfg, x.units);
    ChangedMembers(cfg, visited, prev);
    var _ := UpsertedAt(cfg, m.rows - Vanished(cfg, x, prev), Changed(cfg, visited, prev), id);
    var _ := RecordedAt(cfg, prev - Vanished(cfg, x, prev), visited, id);
  }

  // ----- invariants -----

  /** An index keeps the manifest honest and the rows in place, whatever its refresh flag. */
  lemma IndexKeepsTruth(m: Memory, cfg: Config, x: Extraction, refresh: bool, naming: Naming)
    requires Truthful(m) && Placed(m, naming) && WellNamed(cfg, x, naming) && Coherent(cfg, x)
    ensures var m' := IndexState(m, cfg, x, refresh); Truthful(m') && Placed(m', naming)
    ensures refresh && Tracked(m) ==> Tracked(IndexState(m, cfg, x, refresh))
  {
    var m' := IndexState(m, cfg, x, refresh);
    forall id | id in m'.rows || id in m'.manifest
      ensures id in m'.manifest ==>
                && (HashOf(m'.manifest[id]).Some? ==>
                      id in m'.rows && HashOf(m'.manifest[id]).value == RowDigest(m'.rows[id]))
                && (ScopeOf(m'.manifest[id]).Some? && id in m'.rows ==>
                      ScopeOf(m'.manifest[id]).value == m'.rows[id].scope)
      ensures id in m'.rows ==>
                && LegacyIdBelongsToRepo(id, m'.rows[id].scope.repo)
                && m'.rows[id].scope == Scope(naming.repo(id), m'.rows[id].service, naming.language(id))
      ensures refresh && Tracked(m) && id in m'.rows ==> id in m'.manifest
    {
      if id in Ids(x.units) {
        var u :| u in x.units && u.id == id;
        ProducedAt(m, cfg, x, refresh, naming, u);
      } else {
        NotProducedAt(m, cfg, x, refresh, id);
      }
    }
  }

  lemma EmptyIsGood(naming: Naming)
    ensures Truthful(EMPTY) && Placed(EMPTY, naming) && Tracked(EMPTY)
  {
  }

  // ----- incremental indexing equals a rebuild -----

  lemma RebuildHasExactlyTheUnits(cfg: Config, x: Extraction, naming: Naming)
    requires WellNamed(cfg, x, naming) && Coherent(cfg, x)
    ensures Rebuild(cfg, x).Keys == Ids(x.units)
    ensures forall u :: u in x.units ==> u.id in Rebuild(cfg, x) && Rebuild(cfg, x)[u.id] == RowFor(cfg, u)
  {
    forall id ensures id in Rebuild(cfg, x) <==> id in Ids(x.units) {
      if id in Ids(x.units) {
        var u :| u in x.units && u.id == id;
        ProducedAt(EMPTY, cfg, x, true, naming, u);
      } else {
        NotProducedAt(EMPTY, cfg, x, true, id);
      }
    }
    forall u | u in x.units ensures u.id in Rebuild(cfg, x) && Rebuild(cfg, x)[u.id] == RowFor(cfg, u) {
      ProducedAt(EMPTY, cfg, x, true, naming, u);
    }
  }

  /** A refresh index of an honest memory agrees with a rebuild on the owned scopes exactly when no
      owned scope held an orphan. */
  lemma RefreshEqualsRebuildIffNoOrphan(m: Memory, cfg: Config, x: Extraction, naming: Naming)
    requires Truthful(m) && Placed(m, naming) && WellNamed(cfg, x, naming) && Coherent(cfg, x)
    ensures RowsIn(IndexState(m, cfg, x, true).rows, Owned(cfg, x)) == Rebuild(cfg, x)
            <==> Orphans(m, cfg, x) == {}
  {
    var kept := RowsIn(IndexState(m, cfg, x, true).rows, Owned(cfg, x));
    RebuildHasExactlyTheUnits(cfg, x, naming);
    forall id
      ensures id in kept <==> id in Rebuild(cfg, x) || id in Orphans(m, cfg, x)
      ensures id in Rebuild(cfg, x) ==> id in kept && kept[id] == Rebuild(cfg, x)[id]
      ensures id in Orphans(m, cfg, x) ==> id !in Rebuild(cfg, x)
    {
      KeptAt(m, cfg, x, naming, id);
    }
    ExtraKeys(kept, Rebuild(cfg, x), Orphans(m, cfg, x));
  }

  lemma ExtraKeys(a: map<Id, Row>, b: map<Id, Row>, extra: set<Id>)
    requires forall id :: id in a <==> id in b || id in extra
    requires forall id :: id in b ==> a[id] == b[id]
    requires forall id :: id in extra ==> id !in b
    ensures a == b <==> extra == {}
  {
    if extra != {} {
      var id :| id in extra;
      assert id in a && id !in b;
    }
  }

  /** What a refresh index keeps under one id in the owned scopes: the rebuilt row, or an orphan. */
  lemma KeptAt(m: Memory, cfg: Config, x: Extraction, naming: Naming, id: Id)
    requires Truthful(m) && Placed(m, naming) && WellNamed(cfg, x, naming) && Coherent(cfg, x)
    requires Rebuild(cfg, x).Keys == Ids(x.units)
    requires forall u :: u in x.units ==> u.id in Rebuild(cfg, x) && Rebuild(cfg, x)[u.id] == RowFor(cfg, u)
    ensures var kept := RowsIn(IndexState(m, cfg, x, true).rows, Owned(cfg, x));
            && (id in kept <==> id in Rebuild(cfg, x) || id in Orphans(m, cfg, x))
            && (id in Rebuild(cfg, x) ==> kept[id] == Rebuild(cfg, x)[id])
  {
    if id in Ids(x.units) {
      var u :| u in x.units && u.id == id;
      ProducedAt(m, cfg, x, true, naming, u);
      assert RowFor(cfg, u).scope in Owned(cfg, x);
    } else {
      NotProducedAt(m, cfg, x, true, id);
    }
  }

  /** For one extraction, indexing it twice agrees with a rebuild exactly when it is coherent: with two
      different units under one id, the second index re-upserts an earlier one over the last. */
  lemma TwiceEqualsRebuildIffCoherent(cfg: Config, x: Extraction, naming: Naming)
    requires WellNamed(cfg, x, naming)
    ensures IndexState(IndexState(EMPTY, cfg, x, true), cfg, x, true).rows == Rebuild(cfg, x) <==> Coherent(cfg, x)
  {
    var m1 := IndexState(EMPTY, cfg, x, true);
    var m2 := IndexState(m1, cfg, x, true);
    EmptyIsGood(naming);
    if Coherent(cfg, x) {
      IndexKeepsTruth(EMPTY, cfg, x, true, naming);
      ReindexIsNoOp(EMPTY, cfg, x, naming);
    } else {
      var u, v :| u in x.units && v in x.units && u.id == v.id && UnitDigest(cfg, u) != UnitDigest(cfg, v);
      LastWriterIsOverwritten(cfg, x, u, v);
    }
  }

  /** A from-empty index stores, per id, the row and the entry of one last unit. */
  lemma FirstIndexAt(cfg: Config, x: Extraction, id: Id) returns (w: Unit)
    requires id in Ids(x.units)
    ensures w in x.units && w.id == id
    ensures var m := IndexState(EMPTY, cfg, x, true);
            && id in m.rows && m.rows[id] == RowFor(cfg, w)
            && id in m.manifest && m.manifest[id] == EntryFor(cfg, w)
  {
    var visited := Grouped(cfg, x.units);
    VisitedUnits(cfg, x.units);
    AllChanged(cfg, visited);
    assert Vanished(cfg, x, map[]) == {};
    w := LastWrite(cfg, map[], map[], visited, id);
    assert EMPTY.rows - {} == EMPTY.rows && EMPTY.manifest - {} == EMPTY.manifest;
  }

  lemma LastWriterIsOverwritten(cfg: Config, x: Extraction, u: Unit, v: Unit)
    requires u in x.units && v in x.units && u.id == v.id && UnitDigest(cfg, u) != UnitDigest(cfg, v)
    ensures IndexState(IndexState(EMPTY, cfg, x, true), cfg, x, true).rows != Rebuild(cfg, x)
  {
    var m1 := IndexState(EMPTY, cfg, x, true);
    var id := u.id;
    var visited := Grouped(cfg, x.units);
    VisitedUnits(cfg, x.units);
    var w := FirstIndexAt(cfg, x, id);
    var todo := Changed(cfg, visited, m1.manifest);
    ChangedMembers(cfg, visited, m1.manifest);
    var other := if UnitDigest(cfg, u) == UnitDigest(cfg, w) then v else u;
    assert other in visited && !Unchanged(cfg, other, m1.manifest);
    assert other in todo;
    assert id in Ids(todo);
    var rows := m1.rows - Vanished(cfg, x, m1.manifest);
    var z := UpsertedAt(cfg, rows, todo, id);
    assert !Unchanged(cfg, z, m1.manifest);
    assert UnitDigest(cfg, z) != UnitDigest(cfg, w);
    assert RowDigest(Upserted(cfg, rows, todo)[id]) != RowDigest(m1.rows[id]);
  }

  lemma {:induction false} AllChanged(cfg: Config, us: seq<Unit>)
    ensures Changed(cfg, us, map[]) == us
  {
    if us != [] {
      AllChanged(cfg, us[..|us| - 1]);
    }
  }

  /** Rows and hashes of one batch are written by the same last unit. */
  lemma {:induction false} LastWrite(cfg: Config, rows: map<Id, Row>, base: map<Id, Entry>, us: seq<Unit>, id: Id)
    returns (w: Unit)
    requires id in Ids(us)
    ensures w in us && w.id == id
    ensures id in Upserted(cfg, rows, us) && Upserted(cfg, rows, us)[id] == RowFor(cfg, w)
    ensures id in Recorded(cfg, base, us) && Recorded(cfg, base, us)[id] == EntryFor(cfg, w)
  {
    w := us[|us| - 1];
    if w.id != id {
      assert forall v :: v in us <==> v == us[|us| - 1] || v in us[..|us| - 1];
      w := LastWrite(cfg, rows, base, us[..|us| - 1], id);
    }
  }

  // ----- a second index does nothing -----

  lemma {:induction false} NothingChanged(cfg: Config, us: seq<Unit>, prev: map<Id, Entry>)
    requires forall u :: u in us ==> Unchanged(cfg, u, prev)
    ensures Changed(cfg, us, prev) == []
  {
    if us != [] {
      NothingChanged(cfg, us[..|us| - 1], prev);
    }
  }

  /** After an index nothing is left to change and nothing vanishes. */
  lemma NothingLeftToDo(m: Memory, cfg: Config, x: Extraction, refresh: bool, naming: Naming)
    requires Truthful(m) && Placed(m, naming) && WellNamed(cfg, x, naming) && Coherent(cfg, x)
    ensures var m' := IndexState(m, cfg, x, refresh);
            && Changed(cfg, Grouped(cfg, x.units), m'.manifest) == []
            && Vanished(cfg, x, m'.manifest) == {}
            && forall u :: u in x.units ==> u.id in m'.manifest && m'.manifest[u.id] == EntryFor(cfg, u)
  {
    var m' := IndexState(m, cfg, x, refresh);
    VisitedUnits(cfg, x.units);
    forall u | u in x.units
      ensures Unchanged(cfg, u, m'.manifest) && m'.manifest[u.id] == EntryFor(cfg, u)
    {
      ProducedAt(m, cfg, x, refresh, naming, u);
    }
    NothingChanged(cfg, Grouped(cfg, x.units), m'.manifest);
    forall id | id in m'.manifest
      ensures !Vanishes(cfg, x, id, m'.manifest[id])
    {
      if id !in Ids(x.units) {
        NotProducedAt(m, cfg, x, refresh, id);
      }
    }
  }

  lemma {:induction false} RecordingAgainIsNoOp(cfg: Config, base: map<Id, Entry>, us: seq<Unit>)
    requires forall u :: u in us ==> u.id in base && base[u.id] == EntryFor(cfg, u)
    ensures Recorded(cfg, base, us) == base
  {
    if us != [] {
      RecordingAgainIsNoOp(cfg, base, us[..|us| - 1]);
    }
  }

  /** Indexing again at once leaves the whole memory as it is, writes nothing and removes nothing. */
  lemma ReindexIsNoOp(m: Memory, cfg: Config, x: Extraction, naming: Naming)
    requires Truthful(m) && Placed(m, naming) && WellNamed(cfg, x, naming) && Coherent(cfg, x)
    ensures var m' := IndexState(m, cfg, x, true);
            && IndexState(m', cfg, x, true) == m'
            && IndexReport(m', cfg, x, true).indexed == 0
            && IndexReport(m', cfg, x, true).removed == 0
            && IndexReport(m', cfg, x, true).skipped == |x.units|
  {
    var m' := IndexState(m, cfg, x, true);
    VisitedUnits(cfg, x.units);
    NothingLeftToDo(m, cfg, x, true, naming);
    assert m'.rows - {} == m'.rows && m'.manifest - {} == m'.manifest;
    RecordingAgainIsNoOp(cfg, m'.manifest, Grouped(cfg, x.units));
  }

  /** Written and skipped units add up to the extraction, duplicates included. */
  lemma CountsAddUp(m: Memory, cfg: Config, x: Extraction, refresh: bool)
    ensures var r := IndexReport(m, cfg, x, refresh); r.indexed + r.skipped == |x.units|
  {
    VisitedUnits(cfg, x.units);
    ChangedShorter(cfg, Grouped(cfg, x.units), Previous(m, refresh));
  }

  // ----- the frame -----

  /** A refresh finds an older, scope-less entry for the id under this repository's prefix. */
  predicate LegacyPruned(m: Memory, cfg: Config, refresh: bool, id: Id) {
    refresh && id in m.manifest && ScopeOf(m.manifest[id]).None? && LegacyIdBelongsToRepo(id, cfg.repo)
  }

  /** A row of a scope this index does not own stays as it is exactly when the extraction does not produce
      its id and no scope-less entry condemns it. */
  lemma ForeignRowStaysIffNeitherProducedNorLegacy(m: Memory, cfg: Config, x: Extraction, refresh: bool,
                                                   naming: Naming, id: Id)
    requires Truthful(m) && Placed(m, naming) && WellNamed(cfg, x, naming)
    requires id in m.rows && m.rows[id].scope !in Owned(cfg, x)
    ensures var m' := IndexState(m, cfg, x, refresh);
            id in m'.rows && m'.rows[id] == m.rows[id] <==> id !in Ids(x.units) && !LegacyPruned(m, cfg, refresh, id)
  {
    if id in Ids(x.units) {
      ForeignRowIsTakenOver(m, cfg, x, refresh, naming, id);
    } else {
      NotProducedAt(m, cfg, x, refresh, id);
    }
  }

  /** A produced id always ends up in an owned scope: it is never skipped while its row lies elsewhere. */
  lemma ForeignRowIsTakenOver(m: Memory, cfg: Config, x: Extraction, refresh: bool, naming: Naming, id: Id)
    requires Truthful(m) && Placed(m, naming) && WellNamed(cfg, x, naming)
    requires id in m.rows && m.rows[id].scope !in Owned(cfg, x) && id in Ids(x.units)
    ensures var m' := IndexState(m, cfg, x, refresh); id in m'.rows && m'.rows[id].scope in Owned(cfg, x)
  {
    var prev := Previous(m, refresh);
    var visited := Grouped(cfg, x.units);
    VisitedUnits(cfg, x.units);
    ChangedMembers(cfg, visited, prev);
    var u :| u in x.units && u.id == id;
    assert ScopeFor(cfg, u) in Owned(cfg, x);
    assert u in visited && !Unchanged(cfg, u, prev);
    assert id in Ids(Changed(cfg, visited, prev));
    var w := UpsertedAt(cfg, m.rows - Vanished(cfg, x, prev), Changed(cfg, visited, prev), id);
    assert w in x.units;
  }

  /** What becomes of the entry of a row that stays: a refresh keeps it, a run without refresh forgets it. */
  lemma ForeignEntryFollowsRefresh(m: Memory, cfg: Config, x: Extraction, refresh: bool, id: Id)
    requires id in m.manifest && id !in Ids(x.units) && !LegacyPruned(m, cfg, refresh, id)
    requires ScopeOf(m.manifest[id]).Some? ==> ScopeOf(m.manifest[id]).value !in Owned(cfg, x)
    ensures var m' := IndexState(m, cfg, x, refresh);
            if refresh then id in m'.manifest && m'.manifest[id] == m.manifest[id] else id !in m'.manifest
  {
    NotProducedAt(m, cfg, x, refresh, id);
  }

  /** Ids carry no service. Index a repository under one service and then under another in the same
      database, and the second index takes every row of the first over. */
  lemma SecondServiceTakesRows(a: Config, b: Config, x: Extraction, naming: Naming)
    requires a.repo == b.repo && a.service.Some? && b.service.Some?
    requires a.service != b.service && a.service.value != "" && b.service.value != ""
    requires WellNamed(a, x, naming) && Coherent(a, x) && x.units != []
    ensures var first := IndexState(EMPTY, a, x, true);
            var second := IndexState(first, b, x, true);
            && RowsIn(first.rows, Owned(a, x)) == Rebuild(a, x) != map[]
            && RowsIn(second.rows, Owned(a, x)) == map[]
            && Vanished(b, x, first.manifest) == {}
  {
    FirstIndexIsRebuild(a, x, naming);
    assert x.units[0] in x.units && x.units[0].id in Rebuild(a, x);
    SecondIndexTakesAll(IndexState(EMPTY, a, x, true), a, b, x, naming);
  }

  lemma SecondIndexTakesAll(first: Memory, a: Config, b: Config, x: Extraction, naming: Naming)
    requires a.repo == b.repo && a.service.Some? && b.service.Some?
    requires a.service != b.service && a.service.value != "" && b.service.value != ""
    requires Truthful(first) && Placed(first, naming) && WellNamed(b, x, naming)
    requires first.rows.Keys == first.manifest.Keys == Ids(x.units) && HoldsAll(first.rows, a, x)
    ensures RowsIn(IndexState(first, b, x, true).rows, Owned(a, x)) == map[]
    ensures Vanished(b, x, first.manifest) == {}
  {
    var rows := IndexState(first, b, x, true).rows;
    forall id | id in rows ensures rows[id].scope !in Owned(a, x) {
      SecondRowAt(first, a, b, x, naming, id);
    }
  }

  lemma FirstIndexIsRebuild(a: Config, x: Extraction, naming: Naming)
    requires WellNamed(a, x, naming) && Coherent(a, x)
    ensures var first := IndexState(EMPTY, a, x, true);
            && Truthful(first) && Placed(first, naming) && first.rows == Rebuild(a, x)
            && RowsIn(first.rows, Owned(a, x)) == Rebuild(a, x)
            && first.rows.Keys == first.manifest.Keys == Ids(x.units)
            && HoldsAll(first.rows, a, x)
  {
    EmptyIsGood(naming);
    IndexKeepsTruth(EMPTY, a, x, true, naming);
    RefreshEqualsRebuildIffNoOrphan(EMPTY, a, x, naming);
    RebuildHasExactlyTheUnits(a, x, naming);
    FirstManifest(a, x);
  }

  lemma FirstManifest(a: Config, x: Extraction)
    ensures IndexState(EMPTY, a, x, true).manifest.Keys == Ids(x.units)
  {
    VisitedUnits(a, x.units);
    forall id ensures id in IndexState(EMPTY, a, x, true).manifest <==> id in Ids(x.units) {
      var _ := RecordedAt(a, EMPTY.manifest - Vanished(a, x, EMPTY.manifest), Grouped(a, x.units), id);
    }
  }

  lemma SecondRowAt(first: Memory, a: Config, b: Config, x: Extraction, naming: Naming, id: Id)
    requires a.repo == b.repo && a.service.Some? && b.service.Some?
    requires a.service != b.service && a.service.value != "" && b.service.value != ""
    requires Truthful(first) && Placed(first, naming) && WellNamed(b, x, naming) && first.rows.Keys == Ids(x.units)
    requires HoldsAll(first.rows, a, x)
    requires id in IndexState(first, b, x, true).rows
    ensures IndexState(first, b, x, true).rows[id].scope !in Owned(a, x)
  {
    OwnedServices(a, b, x);
    if id in Ids(x.units) {
      var u :| u in x.units && u.id == id;
      assert ScopeFor(a, u) in Owned(a, x);
      assert first.rows[id].scope !in Owned(b, x);
      ForeignRowIsTakenOver(first, b, x, true, naming, id);
    } else {
      NotProducedAt(first, b, x, true, id);
    }
  }

  lemma OwnedServices(a: Config, b: Config, x: Extraction)
    requires a.service.Some? && b.service.Some? && a.service != b.service
    requires a.service.value != "" && b.service.value != ""
    ensures Owned(a, x) !! Owned(b, x)
  {
    forall s | s in Owned(a, x) ensures s.service == a.service.value && s !in Owned(b, x) {
    }
  }

  // ----- interrupted runs -----

  /** The state after a run that stopped early: some deletes done, then the first `k` upserts, and
      neither the manifest nor the run record replaced. */
  function Interrupted(m: Memory, cfg: Config, x: Extraction, refresh: bool, deleted: set<Id>, k: nat): Memory
    requires k <= |Changed(cfg, Grouped(cfg, x.units), Previous(m, refresh))|
  {
    m.(rows := Upserted(cfg, m.rows - deleted, Changed(cfg, Grouped(cfg, x.units), Previous(m, refresh))[..k]))
  }

  predicate StopsInside(m: Memory, cfg: Config, x: Extraction, refresh: bool, deleted: set<Id>, k: nat) {
    var gone := Vanished(cfg, x, Previous(m, refresh));
    && deleted <= gone
    && k <= |Changed(cfg, Grouped(cfg, x.units), Previous(m, refresh))|
    && (k > 0 ==> deleted == gone)
  }

  /** Deletes and upserts replayed over a partial run give what they give on the original store. */
  lemma ReplayAbsorbs(cfg: Config, rows: map<Id, Row>, deleted: set<Id>, gone: set<Id>, us: seq<Unit>, k: nat)
    requires deleted <= gone && k <= |us|
    requires gone !! Ids(us)
    ensures Upserted(cfg, Upserted(cfg, rows - deleted, us[..k]) - gone, us) == Upserted(cfg, rows - gone, us)
  {
    var partial := Upserted(cfg, rows - deleted, us[..k]) - gone;
    var a, b := Upserted(cfg, partial, us), Upserted(cfg, rows - gone, us);
    forall id ensures id in a <==> id in b
              ensures id in a ==> a[id] == b[id]
    {
      assert forall u :: u in us[..k] ==> u in us;
      var _ := UpsertedAt(cfg, rows - deleted, us[..k], id);
      var _ := UpsertedAt(cfg, partial, us, id);
      var _ := UpsertedAt(cfg, rows - gone, us, id);
      if id in Ids(us) {
        var _ := LastWrite(cfg, partial, map[], us, id);
        SameLastWrite(cfg, partial, rows - gone, us, id);
      }
    }
  }

  lemma {:induction false} SameLastWrite(cfg: Config, a: map<Id, Row>, b: map<Id, Row>, us: seq<Unit>, id: Id)
    requires id in Ids(us)
    ensures id in Upserted(cfg, a, us) && id in Upserted(cfg, b, us)
    ensures Upserted(cfg, a, us)[id] == Upserted(cfg, b, us)[id]
  {
    if us[|us| - 1].id != id {
      assert forall v :: v in us <==> v == us[|us| - 1] || v in us[..|us| - 1];
      SameLastWrite(cfg, a, b, us[..|us| - 1], id);
    }
  }

  /** Rerunning after an interruption gives the memory of an uninterrupted run. No assumption on the
      memory or on the extraction is needed. */
  lemma InterruptedRunConverges(m: Memory, cfg: Config, x: Extraction, refresh: bool, deleted: set<Id>, k: nat)
    requires StopsInside(m, cfg, x, refresh, deleted, k)
    ensures IndexState(Interrupted(m, cfg, x, refresh, deleted, k), cfg, x, refresh) == IndexState(m, cfg, x, refresh)
  {
    var prev := Previous(m, refresh);
    var gone := Vanished(cfg, x, prev);
    var todo := Changed(cfg, Grouped(cfg, x.units), prev);
    VisitedUnits(cfg, x.units);
    ChangedMembers(cfg, Grouped(cfg, x.units), prev);
    ReplayAbsorbs(cfg, m.rows, deleted, gone, todo, k);
  }

  /** Where one attempt stopped. */
  datatype Stop = Stop(deleted: set<Id>, k: nat)

  function Attempts(m: Memory, cfg: Config, x: Extraction, refresh: bool, stops: seq<Stop>): (r: Memory)
    requires forall s :: s in stops ==> StopsInside(m, cfg, x, refresh, s.deleted, s.k)
    ensures r.manifest == m.manifest && r.meta == m.meta
  {
    if stops == [] then m else
      var last := stops[|stops| - 1];
      assert StopsInside(m, cfg, x, refresh, last.deleted, last.k);
      var before := Attempts(m, cfg, x, refresh, stops[..|stops| - 1]);
      assert Previous(before, refresh) == Previous(m, refresh);
      Interrupted(before, cfg, x, refresh, last.deleted, last.k)
  }

  /** Any number of interrupted attempts still converges. */
  lemma {:induction false} RepeatedInterruptionsConverge(m: Memory, cfg: Config, x: Extraction, refresh: bool,
                                                        stops: seq<Stop>)
    requires forall s :: s in stops ==> StopsInside(m, cfg, x, refresh, s.deleted, s.k)
    ensures IndexState(Attempts(m, cfg, x, refresh, stops), cfg, x, refresh) == IndexState(m, cfg, x, refresh)
  {
    if stops != [] {
      var n := |stops| - 1;
      var before := Attempts(m, cfg, x, refresh, stops[..n]);
      assert StopsInside(m, cfg, x, refresh, stops[n].deleted, stops[n].k);
      InterruptedRunConverges(before, cfg, x, refresh, stops[n].deleted, stops[n].k);
      RepeatedInterruptionsConverge(m, cfg, x, refresh, stops[..n]);
    }
  }

  /** A run that stopped between the manifest and the run record. */
  function StoppedLate(m: Memory, cfg: Config, x: Extraction, refresh: bool): Memory {
    IndexState(m, cfg, x, refresh).(meta := m.meta)
  }

  /** Rerunning after such a stop gives the memory of an uninterrupted run, too. */
  lemma LateStopConverges(m: Memory, cfg: Config, x: Extraction, refresh: bool, naming: Naming)
    requires refresh ==> Truthful(m) && Placed(m, naming) && WellNamed(cfg, x, naming) && Coherent(cfg, x)
    ensures IndexState(StoppedLate(m, cfg, x, refresh), cfg, x, refresh) == IndexState(m, cfg, x, refresh)
  {
    if refresh {
      ReindexIsNoOp(m, cfg, x, naming);
    } else {
      var todo := Changed(cfg, Grouped(cfg, x.units), map[]);
      assert Vanished(cfg, x, map[]) == {};
      assert todo[..|todo|] == todo;
      ReplayAbsorbs(cfg, m.rows, {}, {}, todo, |todo|);
    }
  }

  // ----- a refresh of any memory, honest or not -----

  /** Every unit the index is going to skip has its row in the store. */
  ghost predicate SkippedAreStored(m: Memory, cfg: Config, x: Extraction) {
    forall u :: u in x.units && Unchanged(cfg, u, m.manifest) ==> u.id in m.rows && m.rows[u.id] == RowFor(cfg, u)
  }

  /** No stored row of an owned scope is neither produced nor pruned. */
  ghost predicate NothingStaysBehind(m: Memory, cfg: Config, x: Extraction) {
    forall id :: id in m.rows && m.rows[id].scope in Owned(cfg, x) && id !in Ids(x.units) ==>
      id in m.manifest && Vanishes(cfg, x, id, m.manifest[id])
  }

  /** For any memory at all a refresh agrees with a rebuild on the owned scopes exactly when what it skips
      is stored and nothing stays behind. */
  lemma RefreshEqualsRebuildIff(m: Memory, cfg: Config, x: Extraction, naming: Naming)
    requires WellNamed(cfg, x, naming) && Coherent(cfg, x)
    ensures RowsIn(IndexState(m, cfg, x, true).rows, Owned(cfg, x)) == Rebuild(cfg, x)
            <==> SkippedAreStored(m, cfg, x) && NothingStaysBehind(m, cfg, x)
  {
    RebuildHasExactlyTheUnits(cfg, x, naming);
    SameRowsIff(RowsIn(IndexState(m, cfg, x, true).rows, Owned(cfg, x)), Rebuild(cfg, x), cfg, x);
    SkippedIff(m, cfg, x, naming);
    BehindIff(m, cfg, x);
  }

  ghost predicate HoldsAll(rows: map<Id, Row>, cfg: Config, x: Extraction) {
    forall u :: u in x.units ==> u.id in rows && rows[u.id] == RowFor(cfg, u)
  }

  lemma SameRowsIff(kept: map<Id, Row>, built: map<Id, Row>, cfg: Config, x: Extraction)
    requires built.Keys == Ids(x.units) && HoldsAll(built, cfg, x)
    ensures kept == built <==> HoldsAll(kept, cfg, x) && kept.Keys <= Ids(x.units)
  {
    if HoldsAll(kept, cfg, x) && kept.Keys <= Ids(x.units) {
      forall id | id in Ids(x.units) ensures id in kept && id in built && kept[id] == built[id] {
        var u :| u in x.units && u.id == id;
      }
    }
  }

  lemma SkippedIff(m: Memory, cfg: Config, x: Extraction, naming: Naming)
    requires WellNamed(cfg, x, naming) && Coherent(cfg, x)
    ensures HoldsAll(RowsIn(IndexState(m, cfg, x, true).rows, Owned(cfg, x)), cfg, x) <==> SkippedAreStored(m, cfg, x)
  {
    var kept := RowsIn(IndexState(m, cfg, x, true).rows, Owned(cfg, x));
    forall u | u in x.units
      ensures (u.id in kept && kept[u.id] == RowFor(cfg, u)) <==>
              (Unchanged(cfg, u, m.manifest) ==> u.id in m.rows && m.rows[u.id] == RowFor(cfg, u))
    {
      RefreshedAt(m, cfg, x, naming, u);
      assert RowFor(cfg, u).scope in Owned(cfg, x);
    }
  }

  lemma BehindIff(m: Memory, cfg: Config, x: Extraction)
    ensures RowsIn(IndexState(m, cfg, x, true).rows, Owned(cfg, x)).Keys <= Ids(x.units) <==> NothingStaysBehind(m, cfg, x)
  {
    var kept := RowsIn(IndexState(m, cfg, x, true).rows, Owned(cfg, x));
    forall id | id !in Ids(x.units)
      ensures id in kept <==> id in m.rows && m.rows[id].scope in Owned(cfg, x)
                              && !(id in m.manifest && Vanishes(cfg, x, id, m.manifest[id]))
    {
      NotProducedAt(m, cfg, x, true, id);
    }
  }

  /** A produced id after a refresh of any memory: written if it changed, else whatever was stored. */
  lemma RefreshedAt(m: Memory, cfg: Config, x: Extraction, naming: Naming, u: Unit)
    requires WellNamed(cfg, x, naming) && Coherent(cfg, x) && u in x.units
    ensures var rows := IndexState(m, cfg, x, true).rows;
            if Unchanged(cfg, u, m.manifest)
            then (u.id in rows <==> u.id in m.rows) && (u.id in rows ==> rows[u.id] == m.rows[u.id])
            else u.id in rows && rows[u.id] == RowFor(cfg, u)
  {
    var visited := Grouped(cfg, x.units);
    VisitedUnits(cfg, x.units);
    ChangedMembers(cfg, visited, m.manifest);
    assert u in visited && u.id in Ids(x.units);
    assert u.id !in Vanished(cfg, x, m.manifest);
    var v := UpsertedAt(cfg, m.rows - Vanished(cfg, x, m.manifest), Changed(cfg, visited, m.manifest), u.id);
    if u.id in Ids(Changed(cfg, visited, m.manifest)) {
      assert v in x.units && UnitDigest(cfg, v) == UnitDigest(cfg, u);
      assert !Unchanged(cfg, u, m.manifest);
      assert RowFor(cfg, v) == RowFor(cfg, u);
    } else {
      assert Unchanged(cfg, u, m.manifest);
    }
  }

  // ----- interrupted on one extraction, rerun on another -----

  /** The ids a stopped run has upserted. */
  function Written(m: Memory, cfg: Config, edited: Extraction, k: nat): set<Id>
    requires k <= |Changed(cfg, Grouped(cfg, edited.units), m.manifest)|
  {
    Ids(Changed(cfg, Grouped(cfg, edited.units), m.manifest)[..k])
  }

  /** What the stopped run did to a unit that the next run will skip. */
  ghost predicate SkippedUntouched(m: Memory, cfg: Config, edited: Extraction, x: Extraction, deleted: set<Id>, k: nat)
    requires k <= |Changed(cfg, Grouped(cfg, edited.units), m.manifest)|
  {
    forall u :: u in x.units && Unchanged(cfg, u, m.manifest) ==>
      u.id !in deleted && u.id !in Written(m, cfg, edited, k)
  }

  /** Every upserted row of an owned scope is produced or pruned by the next run. */
  ghost predicate WrittenAreSettled(m: Memory, cfg: Config, edited: Extraction, x: Extraction, deleted: set<Id>, k: nat)
    requires k <= |Changed(cfg, Grouped(cfg, edited.units), m.manifest)|
  {
    var stopped := Interrupted(m, cfg, edited, true, deleted, k);
    forall id :: id in Written(m, cfg, edited, k) && id in stopped.rows && id !in Ids(x.units)
                 && stopped.rows[id].scope in Owned(cfg, x) ==>
      id in m.manifest && Vanishes(cfg, x, id, m.manifest[id])
  }

  /** After a stop on any extraction, the refresh on another one agrees with its rebuild exactly when the
      stopped run touched nothing the refresh will skip, and left no row the refresh can neither produce
      nor prune. Both can be checked before the refresh. */
  lemma RefreshAfterStopEqualsRebuildIff(m: Memory, cfg: Config, edited: Extraction, x: Extraction, deleted: set<Id>,
                                         k: nat, naming: Naming)
    requires Truthful(m) && Placed(m, naming) && Tracked(m)
    requires StopsInside(m, cfg, edited, true, deleted, k)
    requires WellNamed(cfg, x, naming) && Coherent(cfg, x)
    ensures var stopped := Interrupted(m, cfg, edited, true, deleted, k);
            RowsIn(IndexState(stopped, cfg, x, true).rows, Owned(cfg, x)) == Rebuild(cfg, x) <==>
            SkippedUntouched(m, cfg, edited, x, deleted, k) && WrittenAreSettled(m, cfg, edited, x, deleted, k)
  {
    RefreshEqualsRebuildIff(Interrupted(m, cfg, edited, true, deleted, k), cfg, x, naming);
    SkippedSide(m, cfg, edited, x, deleted, k, naming);
    BehindSide(m, cfg, edited, x, deleted, k, naming);
  }

  lemma SkippedSide(m: Memory, cfg: Config, edited: Extraction, x: Extraction, deleted: set<Id>, k: nat, naming: Naming)
    requires Truthful(m) && Placed(m, naming) && WellNamed(cfg, x, naming)
    requires StopsInside(m, cfg, edited, true, deleted, k)
    ensures SkippedAreStored(Interrupted(m, cfg, edited, true, deleted, k), cfg, x) <==>
            SkippedUntouched(m, cfg, edited, x, deleted, k)
  {
    var stopped := Interrupted(m, cfg, edited, true, deleted, k);
    forall u | u in x.units && Unchanged(cfg, u, m.manifest)
      ensures (u.id in stopped.rows && stopped.rows[u.id] == RowFor(cfg, u)) <==>
              (u.id !in deleted && u.id !in Written(m, cfg, edited, k))
    {
      SkippedAfterStop(m, cfg, edited, x, deleted, k, naming, u);
    }
  }

  lemma BehindSide(m: Memory, cfg: Config, edited: Extraction, x: Extraction, deleted: set<Id>, k: nat, naming: Naming)
    requires Truthful(m) && Placed(m, naming) && Tracked(m)
    requires StopsInside(m, cfg, edited, true, deleted, k)
    ensures NothingStaysBehind(Interrupted(m, cfg, edited, true, deleted, k), cfg, x) <==>
            WrittenAreSettled(m, cfg, edited, x, deleted, k)
  {
    var stopped := Interrupted(m, cfg, edited, true, deleted, k);
    forall id | id in stopped.rows && id !in Written(m, cfg, edited, k) && id !in Ids(x.units)
                && stopped.rows[id].scope in Owned(cfg, x)
      ensures id in m.manifest && Vanishes(cfg, x, id, m.manifest[id])
    {
      var _ := StoppedRowAt(m, cfg, edited, deleted, k, id);
    }
  }

  /** A row after a stop: one of the upserted units', or the old one unless it was deleted. */
  lemma StoppedRowAt(m: Memory, cfg: Config, edited: Extraction, deleted: set<Id>, k: nat, id: Id) returns (v: Unit)
    requires StopsInside(m, cfg, edited, true, deleted, k)
    ensures var rows := Interrupted(m, cfg, edited, true, deleted, k).rows;
            if id in Written(m, cfg, edited, k)
            then id in rows && rows[id] == RowFor(cfg, v) && v.id == id && !Unchanged(cfg, v, m.manifest)
            else (id in rows <==> id in m.rows && id !in deleted) && (id in rows ==> rows[id] == m.rows[id])
  {
    var todo := Changed(cfg, Grouped(cfg, edited.units), m.manifest);
    ChangedMembers(cfg, Grouped(cfg, edited.units), m.manifest);
    assert forall u :: u in todo[..k] ==> u in todo;
    v := UpsertedAt(cfg, m.rows - deleted, todo[..k], id);
  }

  lemma SkippedAfterStop(m: Memory, cfg: Config, edited: Extraction, x: Extraction, deleted: set<Id>, k: nat,
                         naming: Naming, u: Unit)
    requires Truthful(m) && Placed(m, naming) && StopsInside(m, cfg, edited, true, deleted, k)
    requires WellNamed(cfg, x, naming) && u in x.units && Unchanged(cfg, u, m.manifest)
    ensures var rows := Interrupted(m, cfg, edited, true, deleted, k).rows;
            (u.id in rows && rows[u.id] == RowFor(cfg, u)) <==>
            (u.id !in deleted && u.id !in Written(m, cfg, edited, k))
  {
    var v := StoppedRowAt(m, cfg, edited, deleted, k, u.id);
    if u.id in Written(m, cfg, edited, k) {
      assert UnitDigest(cfg, v) != UnitDigest(cfg, u);
    } else {
      assert m.rows[u.id].scope == ScopeFor(cfg, u);
    }
  }

  /** A row the manifest does not know stays through every later refresh that does not produce it. */
  lemma {:induction false} UntrackedRowStays(m: Memory, steps: seq<Step>, id: Id)
    requires id in m.rows && id !in m.manifest
    requires forall s :: s in steps ==> s.IndexStep? && s.refresh && id !in Ids(s.x.units)
    ensures var r := Run(m, steps); id in r.rows && r.rows[id] == m.rows[id] && id !in r.manifest
  {
    if steps != [] {
      var n := |steps| - 1;
      UntrackedRowStays(m, steps[..n], id);
      assert steps[n] in steps;
      NotProducedAt(Run(m, steps[..n]), steps[n].cfg, steps[n].x, true, id);
    }
  }

  /** A unit that was new, was upserted by a run that stopped, and then was reverted, leaves such a row. */
  lemma AddedThenRevertedStays(cfg: Config, u: Unit, languages: seq<string>, commit: string, later: seq<Step>)
    requires u.language in languages && ServiceKey(cfg, u) == OrElse(cfg.service, "")
    requires forall s :: s in later ==> s.IndexStep? && s.refresh && u.id !in Ids(s.x.units)
    ensures var none := Extraction([], languages, commit, "");
            var edited := Extraction([u], languages, commit, "");
            && StopsInside(EMPTY, cfg, edited, true, {}, 1)
            && var stopped := Interrupted(EMPTY, cfg, edited, true, {}, 1);
               && RowsIn(IndexState(stopped, cfg, none, true).rows, Owned(cfg, none)) != Rebuild(cfg, none)
               && u.id in Run(stopped, later).rows
  {
    var none := Extraction([], languages, commit, "");
    var edited := Extraction([u], languages, commit, "");
    SingleUnit(cfg, u);
    assert [u][..1] == [u];
    OneUpserted(cfg, map[], u);
    assert EMPTY.rows - {} == map[];
    var stopped := Interrupted(EMPTY, cfg, edited, true, {}, 1);
    assert stopped.rows == map[u.id := RowFor(cfg, u)];
    UntrackedRowStays(stopped, later, u.id);
    NotProducedAt(stopped, cfg, none, true, u.id);
    NotProducedAt(EMPTY, cfg, none, true, u.id);
    assert ScopeFor(cfg, u) in Owned(cfg, none);
    assert u.id in RowsIn(IndexState(stopped, cfg, none, true).rows, Owned(cfg, none));
  }

  /** Convergence is for the same extraction only. When a unit is re-upserted, the run dies, and the
      edit is then reverted, the next index takes the stale row for the unchanged one. */
  lemma RevertAfterInterruptionIsMissed(cfg: Config, u: Unit, text: string, languages: seq<string>, commit: string)
    requires text != u.text
    ensures var x := Extraction([u], languages, commit, "");
            var edited := Extraction([u.(text := text)], languages, commit, "");
            var m := IndexState(EMPTY, cfg, x, true);
            && StopsInside(m, cfg, edited, true, {}, 1)
            && RowsIn(IndexState(Interrupted(m, cfg, edited, true, {}, 1), cfg, x, true).rows, Owned(cfg, x))
               != Rebuild(cfg, x)
  {
    var x := Extraction([u], languages, commit, "");
    var v := u.(text := text);
    var edited := Extraction([v], languages, commit, "");
    var m := IndexState(EMPTY, cfg, x, true);
    FirstIndexOfOne(cfg, u, x);
    StoppedAfterOne(m, cfg, u, v, edited);
    var stopped := Interrupted(m, cfg, edited, true, {}, 1);
    UnchangedOneIsSkipped(stopped, cfg, u, x);
    assert ScopeFor(cfg, u) in Owned(cfg, x) by { assert u in x.units; }
    assert RowsIn(IndexState(stopped, cfg, x, true).rows, Owned(cfg, x))[u.id] == RowFor(cfg, v);
    assert Rebuild(cfg, x)[u.id] == RowFor(cfg, u);
  }

  lemma StoppedAfterOne(m: Memory, cfg: Config, u: Unit, v: Unit, edited: Extraction)
    requires m.manifest == map[u.id := EntryFor(cfg, u)] && edited.units == [v]
    requires v.id == u.id && UnitDigest(cfg, v) != UnitDigest(cfg, u)
    ensures StopsInside(m, cfg, edited, true, {}, 1)
    ensures Interrupted(m, cfg, edited, true, {}, 1) == m.(rows := m.rows[u.id := RowFor(cfg, v)])
  {
    SingleUnit(cfg, v);
    OneChanged(cfg, v, m.manifest);
    OneUpserted(cfg, m.rows, v);
    assert [v][..1] == [v];
    assert m.rows - {} == m.rows;
  }

  lemma OneChanged(cfg: Config, v: Unit, prev: map<Id, Entry>)
    ensures Changed(cfg, [v], prev) == if Unchanged(cfg, v, prev) then [] else [v]
  {
    assert [v][..0] == [] && [] + [v] == [v];
  }

  lemma OneUpserted(cfg: Config, rows: map<Id, Row>, v: Unit)
    ensures Upserted(cfg, rows, [v]) == rows[v.id := RowFor(cfg, v)]
  {
    assert [v][..0] == [];
  }

  lemma UnchangedOneIsSkipped(m: Memory, cfg: Config, u: Unit, x: Extraction)
    requires m.manifest == map[u.id := EntryFor(cfg, u)] && x.units == [u]
    ensures IndexState(m, cfg, x, true).rows == m.rows
  {
    SingleUnit(cfg, u);
    assert u in x.units;
    assert Vanished(cfg, x, m.manifest) == {};
    OneChanged(cfg, u, m.manifest);
    assert m.rows - {} == m.rows;
  }

  lemma FirstIndexOfOne(cfg: Config, u: Unit, x: Extraction)
    requires x.units == [u]
    ensures var m := IndexState(EMPTY, cfg, x, true);
            m.rows == map[u.id := RowFor(cfg, u)] && m.manifest == map[u.id := EntryFor(cfg, u)]
  {
    SingleUnit(cfg, u);
    assert Vanished(cfg, x, map[]) == {};
    assert EMPTY.rows - {} == map[] && EMPTY.manifest - {} == map[];
    OneUpserted(cfg, map[], u);
    assert [u][..0] == [];
    assert Recorded(cfg, map[], [u]) == map[][u.id := EntryFor(cfg, u)];
  }

  lemma SingleUnit(cfg: Config, u: Unit)
    ensures Grouped(cfg, [u]) == [u]
    ensures Changed(cfg, [u], map[]) == [u]
  {
    var s := ScopeFor(cfg, u);
    assert [u][..0] == [] && [s][..0] == [];
    assert ScopeOrder(cfg, [u]) == [] + [s] == [s];
    assert GroupOf(cfg, [u], s) == [] + [u] == [u];
    assert Flatten(cfg, [u], [s]) == [] + [u];
  }

  // ----- whole runs -----

  datatype Step =
    | IndexStep(cfg: Config, x: Extraction, refresh: bool)
    | EnsureFreshStep(cfg: Config, x: Extraction)
    | ResetStep

  function Apply(m: Memory, step: Step): Memory {
    match step
    case IndexStep(cfg, x, refresh) => IndexState(m, cfg, x, refresh)
    case EnsureFreshStep(cfg, x) => EnsureFreshState(m, cfg, x)
    case ResetStep => EMPTY
  }

  function Run(m: Memory, steps: seq<Step>): Memory {
    if steps == [] then m else Apply(Run(m, steps[..|steps| - 1]), steps[|steps| - 1])
  }

  ghost predicate Legal(step: Step, naming: Naming) {
    step.ResetStep? || (WellNamed(step.cfg, step.x, naming) && Coherent(step.cfg, step.x))
  }

  predicate Refreshing(step: Step) {
    step.IndexStep? ==> step.refresh
  }

  /** Whether the step, taken in `m`, runs `index`. */
  predicate Indexes(m: Memory, step: Step) {
    match step
    case IndexStep(_, _, _) => true
    case EnsureFreshStep(cfg, x) => EmbedderChanged(m, cfg) || IsStale(m, x.commit)
    case ResetStep => false
  }

  /** Over every run mixing repositories, services, languages, refresh flags and resets, the manifest
      never lies; over refreshing runs it also knows every row. */
  lemma {:induction false} RunKeepsTruth(m: Memory, steps: seq<Step>, naming: Naming)
    requires Truthful(m) && Placed(m, naming)
    requires forall s :: s in steps ==> Legal(s, naming)
    ensures var r := Run(m, steps); Truthful(r) && Placed(r, naming)
    ensures Tracked(m) && (forall s :: s in steps ==> Refreshing(s)) ==> Tracked(Run(m, steps))
  {
    if steps != [] {
      var n := |steps| - 1;
      var before := Run(m, steps[..n]);
      RunKeepsTruth(m, steps[..n], naming);
      assert Legal(steps[n], naming);
      StepKeepsTruth(before, steps[n], naming);
    }
  }

  lemma StepKeepsTruth(m: Memory, step: Step, naming: Naming)
    requires Truthful(m) && Placed(m, naming) && Legal(step, naming)
    ensures var r := Apply(m, step); Truthful(r) && Placed(r, naming)
    ensures Tracked(m) && Refreshing(step) ==> Tracked(Apply(m, step))
  {
    EmptyIsGood(naming);
    if step.IndexStep? {
      IndexKeepsTruth(m, step.cfg, step.x, step.refresh, naming);
    } else if step.EnsureFreshStep? {
      IndexKeepsTruth(EMPTY, step.cfg, step.x, true, naming);
      IndexKeepsTruth(m, step.cfg, step.x, true, naming);
    }
  }

  /** Every entry names its scope. */
  predicate Scoped(manifest: map<Id, Entry>) {
    forall id :: id in manifest ==> manifest[id].Record? && manifest[id].scope.Some?
  }

  lemma {:induction false} RecordingNamesScopes(cfg: Config, manifest: map<Id, Entry>, us: seq<Unit>)
    requires Scoped(manifest)
    ensures Scoped(Recorded(cfg, manifest, us))
  {
    if us != [] {
      RecordingNamesScopes(cfg, manifest, us[..|us| - 1]);
    }
  }

  lemma IndexNamesScopes(m: Memory, cfg: Config, x: Extraction, refresh: bool)
    requires Scoped(m.manifest)
    ensures Scoped(IndexState(m, cfg, x, refresh).manifest)
  {
    var prev := Previous(m, refresh);
    RecordingNamesScopes(cfg, prev - Vanished(cfg, x, prev), Grouped(cfg, x.units));
  }

  lemma {:induction false} RunNamesScopes(steps: seq<Step>)
    ensures Scoped(Run(EMPTY, steps).manifest)
  {
    if steps != [] {
      var step, before := steps[|steps| - 1], Run(EMPTY, steps[..|steps| - 1]);
      RunNamesScopes(steps[..|steps| - 1]);
      if !step.ResetStep? {
        IndexNamesScopes(before, step.cfg, step.x, step.IndexStep? ==> step.refresh);
        IndexNamesScopes(EMPTY, step.cfg, step.x, true);
      }
    }
  }

  /** In a memory that was never written by an older version, whatever run led to it, a row of a scope the
      index does not own stays as it is exactly when its id is not produced. */
  lemma ForeignRowOfARunStaysIffNotProduced(steps: seq<Step>, cfg: Config, x: Extraction, refresh: bool, naming: Naming,
                                            id: Id)
    requires (forall s :: s in steps ==> Legal(s, naming)) && WellNamed(cfg, x, naming)
    requires var m := Run(EMPTY, steps); id in m.rows && m.rows[id].scope !in Owned(cfg, x)
    ensures var m := Run(EMPTY, steps);
            var m' := IndexState(m, cfg, x, refresh);
            id in m'.rows && m'.rows[id] == m.rows[id] <==> id !in Ids(x.units)
  {
    EmptyIsGood(naming);
    RunKeepsTruth(EMPTY, steps, naming);
    RunNamesScopes(steps);
    var m := Run(EMPTY, steps);
    assert !LegacyPruned(m, cfg, refresh, id);
    ForeignRowStaysIffNeitherProducedNorLegacy(m, cfg, x, refresh, naming, id);
  }

  /** Incremental equals rebuild: after every indexing step of every refreshing run, the rows in the
      owned scopes are exactly those a from-empty index of the current extraction stores. */
  lemma RunEqualsRebuild(m: Memory, steps: seq<Step>, last: Step, naming: Naming)
    requires Truthful(m) && Placed(m, naming) && Tracked(m)
    requires forall s :: s in steps ==> Legal(s, naming) && Refreshing(s)
    requires Legal(last, naming) && Refreshing(last) && Indexes(Run(m, steps), last)
    ensures RowsIn(Run(m, steps + [last]).rows, Owned(last.cfg, last.x)) == Rebuild(last.cfg, last.x)
  {
    var before := Run(m, steps);
    assert (steps + [last])[..|steps|] == steps;
    RunKeepsTruth(m, steps, naming);
    EmptyIsGood(naming);
    RefreshEqualsRebuildIffNoOrphan(before, last.cfg, last.x, naming);
    RefreshEqualsRebuildIffNoOrphan(EMPTY, last.cfg, last.x, naming);
  }

  // ----- when `ensure_fresh` acts, told from commits and spaces alone -----

  /** The commit and the embedding space somebody following the run would write down. */
  datatype Followed = Followed(commit: string, space: string)

  function LastIndexed(steps: seq<Step>): Option<Followed> {
    if steps == [] then None else
      var before := LastIndexed(steps[..|steps| - 1]);
      match steps[|steps| - 1]
      case IndexStep(cfg, x, _) => Some(Followed(x.commit, cfg.space))
      case ResetStep => None
      case EnsureFreshStep(cfg, x) =>
        if before.None? then None
        else if OtherSpace(before.value.space, cfg.space) || Moved(before.value.commit, x.commit)
        then Some(Followed(x.commit, cfg.space)) else before
  }

  predicate OtherSpace(indexed: string, current: string) {
    indexed != "" && indexed != current
  }

  predicate Moved(indexed: string, head: string) {
    indexed != "" && head != "" && indexed != head
  }

  /** The run record always is what such a follower has. */
  lemma {:induction false} RecordFollowsRun(steps: seq<Step>)
    ensures var m := Run(EMPTY, steps);
            match LastIndexed(steps)
            case None => m.meta == None
            case Some(f) => m.meta.Some? && m.meta.value.commit == f.commit && m.meta.value.space == f.space
  {
    if steps != [] {
      RecordFollowsRun(steps[..|steps| - 1]);
    }
  }

  /** After any refreshing run `ensure_fresh` rebuilds on another embedding space, brings the owned scopes to
      exactly the rebuilt rows on a moved HEAD, and otherwise leaves the memory as it is. */
  lemma EnsureFreshIsExact(steps: seq<Step>, cfg: Config, b: Extraction, naming: Naming)
    requires forall s :: s in steps ==> Legal(s, naming) && Refreshing(s)
    requires WellNamed(cfg, b, naming) && Coherent(cfg, b)
    ensures var m := Run(EMPTY, steps);
            var r := EnsureFreshState(m, cfg, b);
            var f := LastIndexed(steps);
            if f.Some? && OtherSpace(f.value.space, cfg.space) then r == IndexState(EMPTY, cfg, b, true)
            else if f.Some? && Moved(f.value.commit, b.commit) then
              && RowsIn(r.rows, Owned(cfg, b)) == Rebuild(cfg, b)
              && r.meta == Some(Meta(b.commit, b.branch, cfg.space))
            else r == m
  {
    RecordFollowsRun(steps);
    EmptyIsGood(naming);
    RunKeepsTruth(EMPTY, steps, naming);
    RefreshEqualsRebuildIffNoOrphan(Run(EMPTY, steps), cfg, b, naming);
  }

  /** An index at one commit and `ensure_fresh` at another, by anybody, with anything before them. */
  lemma FreshAfterIndex(steps: seq<Step>, cfg: Config, a: Extraction, other: Config, b: Extraction, naming: Naming)
    requires forall s :: s in steps ==> Legal(s, naming) && Refreshing(s)
    requires WellNamed(cfg, a, naming) && Coherent(cfg, a) && WellNamed(other, b, naming) && Coherent(other, b)
    ensures var m := Run(EMPTY, steps + [IndexStep(cfg, a, true)]);
            var r := EnsureFreshState(m, other, b);
            && (cfg.space == other.space && a.commit != "" && b.commit != "" && a.commit != b.commit ==>
                  RowsIn(r.rows, Owned(other, b)) == Rebuild(other, b))
            && (cfg.space == other.space && a.commit == b.commit ==> r == m)
            && (cfg.space != "" && cfg.space != other.space ==> r == IndexState(EMPTY, other, b, true))
  {
    var all := steps + [IndexStep(cfg, a, true)];
    assert all[..|all| - 1] == steps;
    assert Legal(IndexStep(cfg, a, true), naming);
    EnsureFreshIsExact(all, other, b, naming);
  }

  // ----- what the report and the older formats mean -----

  /** Every unit is stored as it is now, under an entry that holds a hash. */
  ghost predicate AllKnown(m: Memory, cfg: Config, x: Extraction) {
    forall u :: u in x.units ==>
      && u.id in m.rows && m.rows[u.id] == RowFor(cfg, u)
      && u.id in m.manifest && HashOf(m.manifest[u.id]).Some?
  }

  /** The report counts what happened: the entries that went, the units that had to be written, and the
      partitions the extraction falls into. */
  lemma ReportCounts(m: Memory, cfg: Config, x: Extraction, naming: Naming)
    requires Truthful(m) && Placed(m, naming) && WellNamed(cfg, x, naming) && Coherent(cfg, x)
    ensures var r, m' := IndexReport(m, cfg, x, true), IndexState(m, cfg, x, true);
            && r.removed == |m.manifest.Keys - m'.manifest.Keys|
            && r.scopes == |set u | u in x.units :: ScopeFor(cfg, u)|
            && (r.indexed == 0 <==> AllKnown(m, cfg, x))
  {
    var m' := IndexState(m, cfg, x, true);
    forall id ensures id in Vanished(cfg, x, m.manifest) <==> id in m.manifest && id !in m'.manifest {
      if id in Ids(x.units) {
        var u :| u in x.units && u.id == id;
        ProducedAt(m, cfg, x, true, naming, u);
      } else {
        NotProducedAt(m, cfg, x, true, id);
      }
    }
    assert Vanished(cfg, x, m.manifest) == m.manifest.Keys - m'.manifest.Keys;
    ScopesCounted(cfg, x.units);
    WrittenNothingIff(m, cfg, x, naming);
  }

  lemma ScopesCounted(cfg: Config, units: seq<Unit>)
    ensures |ScopeOrder(cfg, units)| == |set u | u in units :: ScopeFor(cfg, u)|
  {
    ScopeOrderIsDistinct(cfg, units);
    DistinctSize(ScopeOrder(cfg, units));
    assert (set s | s in ScopeOrder(cfg, units)) == set u | u in units :: ScopeFor(cfg, u);
  }

  lemma WrittenNothingIff(m: Memory, cfg: Config, x: Extraction, naming: Naming)
    requires Truthful(m) && Placed(m, naming) && WellNamed(cfg, x, naming)
    ensures IndexReport(m, cfg, x, true).indexed == 0 <==> AllKnown(m, cfg, x)
  {
    var visited := Grouped(cfg, x.units);
    VisitedUnits(cfg, x.units);
    ChangedMembers(cfg, visited, m.manifest);
    forall u | u in x.units
      ensures Unchanged(cfg, u, m.manifest) <==>
              u.id in m.rows && m.rows[u.id] == RowFor(cfg, u) && u.id in m.manifest && HashOf(m.manifest[u.id]).Some?
    {
    }
    if forall u :: u in x.units ==> Unchanged(cfg, u, m.manifest) {
      NothingChanged(cfg, visited, m.manifest);
    } else {
      var u :| u in x.units && !Unchanged(cfg, u, m.manifest);
      assert u in Changed(cfg, visited, m.manifest);
    }
  }

  /** A manifest of the older, bare format is honoured: a unit whose bare hash it holds is not written. */
  lemma BareHashIsHonoured(m: Memory, cfg: Config, x: Extraction)
    requires forall u :: u in x.units ==>
               u.id in m.manifest && m.manifest[u.id] == Bare(Digest(cfg.space, ServiceKey(cfg, u), u.text))
    ensures IndexReport(m, cfg, x, true).indexed == 0
  {
    VisitedUnits(cfg, x.units);
    NothingChanged(cfg, Grouped(cfg, x.units), m.manifest);
  }

  /** And a bare entry that is not produced is pruned exactly when its id carries the repository's prefix. */
  lemma BareEntryPrunedIffPrefix(m: Memory, cfg: Config, x: Extraction, id: Id)
    requires id in m.manifest && m.manifest[id].Bare? && id !in Ids(x.units)
    ensures var m' := IndexState(m, cfg, x, true);
            if cfg.repo + ":" <= id then id !in m'.manifest && id !in m'.rows
            else id in m'.manifest && (id in m'.rows <==> id in m.rows)
  {
    NotProducedAt(m, cfg, x, true, id);
  }

  /** An empty service counts as none, for the instance and for a unit. */
  lemma EmptyServiceIsNone(m: Memory, cfg: Config, x: Extraction, refresh: bool, u: Unit)
    ensures var blank, none := cfg.(service := Some("")), cfg.(service := None);
            && RowFor(blank, u) == RowFor(none, u)
            && RowFor(none, u.(service := Some(""))) == RowFor(none, u.(service := None))
            && (u.service.Some? && u.service.value != "" ==> RowFor(none, u).service == u.service.value)
            && (cfg.service.Some? && cfg.service.value != "" ==> RowFor(cfg, u).service == cfg.service.value)
            && Owned(blank, x) == Owned(none, x)
  {
    forall v ensures ScopeFor(cfg.(service := Some("")), v) == ScopeFor(cfg.(service := None), v) {
    }
  }

  /** A run without refresh forgets every row it did not write: what it leaves behind stays for good. */
  lemma NoRefreshOrphansTheRest(m: Memory, cfg: Config, x: Extraction, naming: Naming)
    requires Truthful(m) && Placed(m, naming) && WellNamed(cfg, x, naming) && Coherent(cfg, x)
    ensures var m' := IndexState(m, cfg, x, false);
            && m'.manifest.Keys == Ids(x.units)
            && m'.rows.Keys == m.rows.Keys + Ids(x.units)
            && (Tracked(m') <==> m.rows.Keys <= Ids(x.units))
  {
    var m' := IndexState(m, cfg, x, false);
    forall id ensures id in m'.manifest <==> id in Ids(x.units)
              ensures id in m'.rows <==> id in m.rows || id in Ids(x.units)
    {
      if id in Ids(x.units) {
        var u :| u in x.units && u.id == id;
        ProducedAt(m, cfg, x, false, naming, u);
      } else {
        NotProducedAt(m, cfg, x, false, id);
      }
    }
  }

  // ----- the texts the reranker reads -----

  lemma {:induction false} TextOf(us: seq<Unit>, id: Id)
    ensures id in Texts(us) <==> id in Ids(us)
    ensures id in Texts(us) ==> exists u :: u in us && u.id == id && u.text == Texts(us)[id]
  {
    if us != [] {
      var rest, last := us[..|us| - 1], us[|us| - 1];
      TextOf(rest, id);
      assert forall u :: u in us <==> u in rest || u == last;
    }
  }

  /** The texts an index leaves for the reranker are those of the rows it stands for. */
  lemma TextsAreTheRows(m: Memory, cfg: Config, x: Extraction, refresh: bool, naming: Naming, id: Id)
    requires Truthful(m) && Placed(m, naming) && WellNamed(cfg, x, naming) && Coherent(cfg, x)
    ensures id in Texts(x.units) <==> id in Ids(x.units)
    ensures id in Texts(x.units) ==>
              var m' := IndexState(m, cfg, x, refresh); id in m'.rows && m'.rows[id].text == Texts(x.units)[id]
  {
    TextOf(x.units, id);
    if id in Texts(x.units) {
      var u :| u in x.units && u.id == id && u.text == Texts(x.units)[id];
      ProducedAt(m, cfg, x, refresh, naming, u);
    }
  }
}
