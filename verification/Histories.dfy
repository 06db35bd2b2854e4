/**
 * Reachable catalog databases: runs of commits and expiries from a freshly created lake. The log
 * of all snapshots ever committed, expired ones included, is kept beside the database.
 */
module Histories {
  import opened Prelude
  import opened Versions
  import opened Tags
  import opened Paths
  import opened Catalog
  import opened Persist
  import opened TimeTravel
  import opened Expiry
  import opened ExpirySafety

  /** `log[i]` is the snapshot row that the commit of snapshot `i` wrote. */
  datatype History = History(db: Database, log: seq<SnapshotRow>)

  ghost predicate GoodLog(log: seq<SnapshotRow>) {
    && log != []
    && (forall i :: 0 <= i < |log| ==> log[i].id == i)
    && (forall i, j :: 0 <= i <= j < |log| ==>
          log[i].schemaVersion <= log[j].schemaVersion && log[i].nextCatalogId <= log[j].nextCatalogId
          && log[i].nextFileId <= log[j].nextFileId)
  }

  /** Snapshot `i` started a new schema version. */
  predicate Boundary(log: seq<SnapshotRow>, i: int) {
    0 <= i < |log| && (i == 0 || log[i].schemaVersion != log[i - 1].schemaVersion)
  }

  /** Rows begin and end only where a schema version starts. */
  ghost predicate OnBoundaries<T>(rows: seq<Versioned<T>>, log: seq<SnapshotRow>) {
    forall v :: v in rows ==> Boundary(log, v.begin) && (v.end.Some? ==> Boundary(log, v.end.value))
  }

  ghost predicate CatalogOnBoundaries(db: Database, log: seq<SnapshotRow>) {
    && OnBoundaries(db.schemas, log) && OnBoundaries(db.tables, log) && OnBoundaries(db.views, log)
    && OnBoundaries(db.macros, log) && OnBoundaries(db.columns, log) && OnBoundaries(db.columnTags, log)
    && OnBoundaries(db.tags, log) && OnBoundaries(db.partitions, log) && OnBoundaries(db.sorts, log)
  }

  /** Every inlined-data table is recorded with a schema version at which its table still exists. */
  ghost predicate InlinedRecorded(db: Database, log: seq<SnapshotRow>) {
    && (forall r :: r in db.schemaVersions ==> 0 <= r.begin < |log| && log[r.begin].schemaVersion == r.schemaVersion)
    && (forall k :: k in db.inlinedTables ==>
          exists r :: r in db.schemaVersions && r.tableId == k.tableId && r.schemaVersion == k.schemaVersion
                      && TableVisible(db, r.begin, k.tableId))
  }

  /** The retained snapshot rows are rows of the log, and the last one is always retained. */
  ghost predicate Retained(db: Database, log: seq<SnapshotRow>) {
    && log != []
    && (forall r :: r in db.snapshots ==> 0 <= r.id < |log| && r == log[r.id])
    && log[|log| - 1] in db.snapshots
  }

  /** What every reachable history satisfies. */
  ghost predicate Sound(w: History) {
    && GoodLog(w.log) && Retained(w.db, w.log)
    && SettledCatalog(w.db, |w.log| - 1)
    && CatalogOnBoundaries(w.db, w.log)
    && SchemasContain(w.db)
    && InlinedRecorded(w.db, w.log)
  }

  // ----- the steps -----

  /** A freshly created lake (spec/init.rs). */
  ghost predicate Created(w: History) {
    && w.log == [SnapshotRow(0, 0, 1, 0)] && w.db.snapshots == w.log
    && w.db.schemas == [Versioned(0, None, SchemaRow(0, "main", Relative("main/")))]
    && w.db.tables == [] && w.db.views == [] && w.db.macros == [] && w.db.columns == [] && w.db.columnTags == []
    && w.db.tags == [] && w.db.partitions == [] && w.db.sorts == []
    && w.db.schemaVersions == [] && w.db.inlinedTables == []
  }

  /** The changes touch a relation that loading the catalog reads. */
  predicate TouchesCatalog(ch: TransactionChanges) {
    || ch.newSchemas != [] || ch.newTables != [] || ch.newViews != [] || ch.newMacros != []
    || ch.newMacroImpls != [] || ch.newMacroParameters != [] || ch.newColumns != []
    || ch.newPartitions != [] || ch.newPartitionColumns != [] || ch.newSorts != [] || ch.newSortExpressions != []
    || ch.newTags != [] || ch.newColumnTags != []
    || ch.droppedSchemas != {} || ch.droppedTables != {} || ch.droppedViews != {} || ch.droppedMacros != {}
    || ch.renamedTables != map[] || ch.retiredPartitionTables != {} || ch.retiredSortTables != {}
    || ch.retiredColumns != {} || ch.tableTags != [] || ch.columnTags != []
  }

  ghost predicate LiveSchema(db: Database, ch: TransactionChanges, id: int) {
    || (exists w :: w in db.schemas && w.row.schemaId == id && w.end.None? && id !in ch.droppedSchemas)
    || (exists s :: s in ch.newSchemas && s.schemaId == id)
  }

  /** Only empty schemas are dropped: every object still in them is dropped too. */
  ghost predicate DropsEmptySchemas(db: Database, ch: TransactionChanges) {
    && (forall v :: v in db.tables && v.end.None? && v.row.schemaId in ch.droppedSchemas ==> v.row.tableId in ch.droppedTables)
    && (forall v :: v in db.views && v.end.None? && v.row.schemaId in ch.droppedSchemas ==> v.row.viewId in ch.droppedViews)
    && (forall v :: v in db.macros && v.end.None? && v.row.schemaId in ch.droppedSchemas ==> v.row.macroId in ch.droppedMacros)
  }

  /** Objects are created in schemas that exist. */
  ghost predicate CreatesInSchemas(db: Database, ch: TransactionChanges) {
    && (forall t :: t in ch.newTables ==> LiveSchema(db, ch, t.schemaId))
    && (forall v :: v in ch.newViews ==> LiveSchema(db, ch, v.schemaId))
    && (forall m :: m in ch.newMacros ==> LiveSchema(db, ch, m.schemaId))
  }

  /** New tables and schemas have ids of their own. */
  ghost predicate FreshTables(db: Database, ch: TransactionChanges) {
    && (forall t, v :: t in ch.newTables && v in db.tables ==> v.row.tableId != t.tableId)
    && (forall t, u :: t in ch.newTables && u in ch.newTables && t.tableId == u.tableId ==> t == u)
  }

  ghost predicate FreshSchemas(db: Database, ch: TransactionChanges) {
    && (forall s, v :: s in ch.newSchemas && v in db.schemas ==> v.row.schemaId != s.schemaId)
    && (forall i, j :: 0 <= i < j < |ch.newSchemas| ==> ch.newSchemas[i].schemaId != ch.newSchemas[j].schemaId)
  }

  ghost predicate RespectsSchemas(db: Database, ch: TransactionChanges) {
    DropsEmptySchemas(db, ch) && CreatesInSchemas(db, ch) && FreshTables(db, ch) && FreshSchemas(db, ch)
  }

  /** The snapshot row of a serialised commit: allocated from the latest snapshot. */
  predicate NextSnapshot(log: seq<SnapshotRow>, ch: TransactionChanges, info: SnapshotRow) {
    && log != [] && info.id == |log|
    && var last := log[|log| - 1];
       && info.schemaVersion == last.schemaVersion + (if TouchesCatalog(ch) then 1 else 0)
       && last.nextCatalogId <= info.nextCatalogId && last.nextFileId <= info.nextFileId
  }

  /** A table's inlined-data table is created by a commit that changes the schema of the table. */
  ghost predicate InlinesChanged(after: Database, ch: TransactionChanges, n: int) {
    forall id :: id in ch.inlineTables ==> id in ch.schemaChangedTables && TableVisible(after, n, id)
  }

  /** A serialised commit: it builds on the latest snapshot with changes collected against it. */
  ghost predicate CommitStep(w: History, next: History, ch: TransactionChanges, info: SnapshotRow, made: string,
                             same: (string, string) -> bool) {
    var inlined := PersistedInlined(w.db, ch, info.schemaVersion, info.id);
    && NextSnapshot(w.log, ch, info)
    && Equivalence(same) && Collected(w.db, ch, info.id) && RespectsSchemas(w.db, ch)
    && inlined.Some?
    && next == History(Persisted(w.db, ch, info, made, same, inlined.value), w.log + [info])
    && InlinesChanged(next.db, ch, info.id)
  }

  function ExpiredIds(db: Database, matches: SnapshotRow -> bool): set<int> {
    set r | r in FindExpiredSnapshots(db, matches) :: r.id
  }

  ghost predicate ExpireStep(w: History, next: History, matches: SnapshotRow -> bool, catalog: LoadedCatalog, dataPath: DucklakePath) {
    && Expire(w.db, ExpiredIds(w.db, matches), catalog, dataPath) == Some(next.db)
    && next == History(next.db, w.log)
  }

  ghost predicate Step(w: History, next: History) {
    || (exists ch, info, made, same :: CommitStep(w, next, ch, info, made, same))
    || (exists matches, catalog, dataPath :: ExpireStep(w, next, matches, catalog, dataPath))
  }

  ghost predicate Run(history: seq<History>) {
    && history != [] && Created(history[0])
    && forall i :: 0 <= i < |history| - 1 ==> Step(history[i], history[i + 1])
  }

  // ----- one schema version, one catalog -----

  lemma SameVersionQuiet<T>(rows: seq<Versioned<T>>, log: seq<SnapshotRow>, a: int, b: int)
    requires GoodLog(log) && OnBoundaries(rows, log)
    requires 0 <= a <= b < |log| && log[a].schemaVersion == log[b].schemaVersion
    ensures View(rows, a) == View(rows, b)
  {
    forall v | v in rows
      ensures !(a < v.begin <= b) && (v.end.Some? ==> !(a < v.end.value <= b))
    {
    }
    QuietView(rows, a, b);
  }

  /** Snapshots that share a schema version load the same catalog. */
  lemma SameVersionSameCatalog(db: Database, log: seq<SnapshotRow>, a: int, b: int)
    requires GoodLog(log) && CatalogOnBoundaries(db, log)
    requires 0 <= a <= b < |log| && log[a].schemaVersion == log[b].schemaVersion
    ensures Load(db, a) == Load(db, b)
    ensures View(db.tables, a) == View(db.tables, b)
    ensures forall id :: ColumnsOf(db, a, id) == ColumnsOf(db, b, id)
  {
    SameVersionQuiet(db.schemas, log, a, b);
    SameVersionQuiet(db.tables, log, a, b);
    SameVersionQuiet(db.views, log, a, b);
    SameVersionQuiet(db.macros, log, a, b);
    SameVersionQuiet(db.columns, log, a, b);
    SameVersionQuiet(db.columnTags, log, a, b);
    SameVersionQuiet(db.tags, log, a, b);
    SameVersionQuiet(db.partitions, log, a, b);
    SameVersionQuiet(db.sorts, log, a, b);
    forall id ensures PartsOf(db, a, id) == PartsOf(db, b, id) {
      FilterCongruent((c: PartitionColumnRow) => c.tableId == id && PartitionActive(db, a, id, c.partitionId),
                      (c: PartitionColumnRow) => c.tableId == id && PartitionActive(db, b, id, c.partitionId), db.partitionColumns);
      FilterCongruent((e: SortExpressionRow) => e.tableId == id && SortActive(db, a, id, e.sortId),
                      (e: SortExpressionRow) => e.tableId == id && SortActive(db, b, id, e.sortId), db.sortExpressions);
    }
    LoadsAgree(db, a, db, b);
  }

  // ----- commits keep the invariant -----

  lemma BoundaryGrows(log: seq<SnapshotRow>, info: SnapshotRow, i: int)
    requires Boundary(log, i)
    ensures Boundary(log + [info], i)
  {
  }

  lemma AdvanceOnBoundaries<T>(rows: seq<Versioned<T>>, p: T -> bool, n: int, added: seq<Versioned<T>>,
                               log: seq<SnapshotRow>, info: SnapshotRow)
    requires OnBoundaries(rows, log) && InsertedAt(added, n)
    requires Boundary(log + [info], n)
    ensures OnBoundaries(Advance(rows, p, n, added), log + [info])
  {
    var retired := Retire(rows, p, n);
    forall v | v in Advance(rows, p, n, added)
      ensures Boundary(log + [info], v.begin) && (v.end.Some? ==> Boundary(log + [info], v.end.value))
    {
      if v in retired {
        var i :| 0 <= i < |retired| && retired[i] == v;
        assert rows[i] in rows;
      }
    }
  }

  lemma {:induction false} RoundsOnBoundaries<K>(rows: seq<Versioned<Tag<K>>>, pending: seq<Edits<K>>, round: nat, n: int,
                                                 same: (string, string) -> bool, log: seq<SnapshotRow>)
    requires OnBoundaries(rows, log) && Boundary(log, n)
    ensures OnBoundaries(RunRounds(rows, pending, round, n, same), log)
    decreases round
  {
    if round > 0 {
      var earlier: nat := round - 1;
      var before := RunRounds(rows, pending, earlier, n, same);
      var after := RunRounds(rows, pending, round, n, same);
      assert after == RunRound(before, pending, earlier, n, same);
      RoundsOnBoundaries(rows, pending, earlier, n, same, log);
      RoundOnBoundaries(before, pending, earlier, n, same, log);
    }
  }

  lemma RoundOnBoundaries<K>(rows: seq<Versioned<Tag<K>>>, pending: seq<Edits<K>>, round: nat, n: int,
                             same: (string, string) -> bool, log: seq<SnapshotRow>)
    requires OnBoundaries(rows, log) && Boundary(log, n)
    ensures OnBoundaries(RunRound(rows, pending, round, n, same), log)
  {
    InsertsAt(pending, round, n);
    var p := Matching<K>(Retirements(pending, round), same);
    var retired := Retire(rows, p, n);
    forall v | v in retired ensures Boundary(log, v.begin) && (v.end.Some? ==> Boundary(log, v.end.value)) {
      var i :| 0 <= i < |retired| && retired[i] == v;
      assert rows[i] in rows;
    }
  }

  lemma TagsAdvance<K>(rows: seq<Versioned<Tag<K>>>, ends: Tag<K> -> bool, added: seq<Tag<K>>, edits: seq<Edits<K>>, n: int,
                       same: (string, string) -> bool, log: seq<SnapshotRow>, info: SnapshotRow)
    requires Settled(rows, n - 1) && OnBoundaries(rows, log) && Boundary(log + [info], n)
    ensures Settled(PersistedTags(rows, ends, added, edits, n, same), n)
    ensures OnBoundaries(PersistedTags(rows, ends, added, edits, n, same), log + [info])
  {
    var start := Advance(rows, ends, n, Inserted(added, n));
    AdvanceSettled(rows, ends, n, Inserted(added, n));
    AdvanceOnBoundaries(rows, ends, n, Inserted(added, n), log, info);
    RoundsSettled(start, edits, LongestEdits(edits), n, same);
    RoundsOnBoundaries(start, edits, LongestEdits(edits), n, same, log + [info]);
  }

  lemma RetireNobody<T>(rows: seq<Versioned<T>>, p: T -> bool, n: int)
    requires forall v :: v in rows ==> !p(v.row)
    ensures Advance(rows, p, n, []) == rows
  {
    var retired := Retire(rows, p, n);
    forall i | 0 <= i < |rows| ensures retired[i] == rows[i] {
      assert rows[i] in rows;
    }
    assert retired == rows;
  }

  /** A commit that touches no catalog relation leaves them all as they are. */
  lemma DataCommitKeepsRelations(db: Database, ch: TransactionChanges, info: SnapshotRow, made: string,
                                 same: (string, string) -> bool, inlined: map<InlinedTableRow, seq<Versioned<string>>>)
    requires !TouchesCatalog(ch)
    requires SettledCatalog(db, info.id - 1)
    ensures
      var after := Persisted(db, ch, info, made, same, inlined);
      && after.schemas == db.schemas && after.tables == db.tables && after.views == db.views && after.macros == db.macros
      && after.columns == db.columns && after.columnTags == db.columnTags && after.tags == db.tags
      && after.partitions == db.partitions && after.sorts == db.sorts
  {
    var n := info.id;
    RetireNobody(db.schemas, SchemaEnds(ch), n);
    RetireNobody(db.tables, TableEnds(ch), n);
    RetireNobody(db.views, ViewEnds(ch), n);
    RetireNobody(db.macros, MacroEnds(ch), n);
    RetireNobody(db.columns, ColumnEnds(ch), n);
    RetireNobody(db.columnTags, ColumnTagEnds(ch), n);
    RetireNobody(db.tags, TagEnds(ch), n);
    RetireNobody(db.partitions, PartitionEnds(ch), n);
    RetireNobody(db.sorts, SortEnds(ch), n);
    NoCopies(Retire(db.tables, TableEnds(ch), n), n);
  }

  lemma {:induction false} NoCopies(rows: seq<Versioned<TableRow>>, n: int)
    ensures RenamedCopies(rows, map[], n) == []
  {
    if rows != [] {
      NoCopies(rows[1..], n);
    }
  }

  lemma CatalogAdvances(db: Database, ch: TransactionChanges, info: SnapshotRow, made: string, same: (string, string) -> bool,
                        inlined: map<InlinedTableRow, seq<Versioned<string>>>, log: seq<SnapshotRow>)
    requires SettledCatalog(db, info.id - 1) && CatalogOnBoundaries(db, log)
    requires InsertedAt(ch.newColumns, info.id) && InsertedAt(ch.newPartitions, info.id) && InsertedAt(ch.newSorts, info.id)
    requires Boundary(log + [info], info.id)
    ensures
      var after := Persisted(db, ch, info, made, same, inlined);
      SettledCatalog(after, info.id) && CatalogOnBoundaries(after, log + [info])
  {
    var n := info.id;
    AdvanceBoth(db.schemas, SchemaEnds(ch), n, Inserted(ch.newSchemas, n), log, info);
    AdvanceBoth(db.tables, TableEnds(ch), n,
                RenamedCopies(Retire(db.tables, TableEnds(ch), n), ch.renamedTables, n) + Inserted(ch.newTables, n), log, info);
    AdvanceBoth(db.views, ViewEnds(ch), n, Inserted(ch.newViews, n), log, info);
    AdvanceBoth(db.macros, MacroEnds(ch), n, Inserted(ch.newMacros, n), log, info);
    AdvanceBoth(db.columns, ColumnEnds(ch), n, ch.newColumns, log, info);
    AdvanceBoth(db.partitions, PartitionEnds(ch), n, ch.newPartitions, log, info);
    AdvanceBoth(db.sorts, SortEnds(ch), n, ch.newSorts, log, info);
    TagsAdvance(db.columnTags, ColumnTagEnds(ch), ch.newColumnTags, ch.columnTags, n, same, log, info);
    TagsAdvance(db.tags, TagEnds(ch), ch.newTags, ch.tableTags, n, same, log, info);
  }

  lemma AdvanceBoth<T>(rows: seq<Versioned<T>>, p: T -> bool, n: int, added: seq<Versioned<T>>,
                       log: seq<SnapshotRow>, info: SnapshotRow)
    requires Settled(rows, n - 1) && OnBoundaries(rows, log) && InsertedAt(added, n)
    requires Boundary(log + [info], n)
    ensures Settled(Advance(rows, p, n, added), n) && OnBoundaries(Advance(rows, p, n, added), log + [info])
  {
    AdvanceSettled(rows, p, n, added);
    AdvanceOnBoundaries(rows, p, n, added, log, info);
  }

  lemma LongerLog<T>(rows: seq<Versioned<T>>, h: int, log: seq<SnapshotRow>, info: SnapshotRow)
    requires Settled(rows, h - 1) && OnBoundaries(rows, log)
    ensures Settled(rows, h) && OnBoundaries(rows, log + [info])
  {
    forall v | v in rows ensures Boundary(log + [info], v.begin) && (v.end.Some? ==> Boundary(log + [info], v.end.value)) {
      BoundaryGrows(log, info, v.begin);
      if v.end.Some? { BoundaryGrows(log, info, v.end.value); }
    }
  }

  lemma CatalogRests(db: Database, h: int, log: seq<SnapshotRow>, info: SnapshotRow)
    requires SettledCatalog(db, h - 1) && CatalogOnBoundaries(db, log)
    ensures SettledCatalog(db, h) && CatalogOnBoundaries(db, log + [info])
  {
    LongerLog(db.schemas, h, log, info);
    LongerLog(db.tables, h, log, info);
    LongerLog(db.views, h, log, info);
    LongerLog(db.macros, h, log, info);
    LongerLog(db.columns, h, log, info);
    LongerLog(db.columnTags, h, log, info);
    LongerLog(db.tags, h, log, info);
    LongerLog(db.partitions, h, log, info);
    LongerLog(db.sorts, h, log, info);
  }

  /** A commit keeps rows beginning and ending where a schema version starts. */
  lemma CommitKeepsIntervals(db: Database, ch: TransactionChanges, info: SnapshotRow, made: string, same: (string, string) -> bool,
                             inlined: map<InlinedTableRow, seq<Versioned<string>>>, log: seq<SnapshotRow>, next: History)
    requires NextSnapshot(log, ch, info)
    requires SettledCatalog(db, |log| - 1) && CatalogOnBoundaries(db, log)
    requires InsertedAt(ch.newColumns, info.id) && InsertedAt(ch.newPartitions, info.id) && InsertedAt(ch.newSorts, info.id)
    requires next == History(Persisted(db, ch, info, made, same, inlined), log + [info])
    ensures SettledCatalog(next.db, |next.log| - 1) && CatalogOnBoundaries(next.db, next.log)
  {
    if TouchesCatalog(ch) {
      CatalogAdvances(db, ch, info, made, same, inlined, log);
    } else {
      CatalogRests(db, info.id, log, info);
      DataCommitKeepsRelations(db, ch, info, made, same, inlined);
    }
  }

  ghost predicate SchemasAdvance(db: Database, after: Database, ch: TransactionChanges, n: int) {
    after.schemas == Advance(db.schemas, SchemaEnds(ch), n, Inserted(ch.newSchemas, n)) && Settled(db.schemas, n - 1)
  }

  /** The schema of an old row still contains it after both were possibly ended by the commit. */
  lemma RetiredInSchema<T>(db: Database, after: Database, ch: TransactionChanges, n: int,
                           u: Versioned<T>, ends: T -> bool, schemaId: int)
    requires SchemasAdvance(db, after, ch, n)
    requires InSchema(db, u, schemaId)
    requires u.begin <= n && (u.end.Some? ==> u.end.value <= n)
    requires u.end.None? && schemaId in ch.droppedSchemas ==> ends(u.row)
    ensures InSchema(after, RetireOne(u, ends, n), schemaId)
  {
    var w :| w in db.schemas && w.row.schemaId == schemaId && Within(u, w);
    var i :| 0 <= i < |db.schemas| && db.schemas[i] == w;
    var ended := RetireOne(w, SchemaEnds(ch), n);
    assert after.schemas[i] == ended;
    assert Within(RetireOne(u, ends, n), ended);
  }

  lemma NewInSchema<T>(db: Database, after: Database, ch: TransactionChanges, n: int, v: Versioned<T>, schemaId: int)
    requires SchemasAdvance(db, after, ch, n)
    requires v.begin == n && LiveSchema(db, ch, schemaId)
    ensures InSchema(after, v, schemaId)
  {
    if w :| w in db.schemas && w.row.schemaId == schemaId && w.end.None? && schemaId !in ch.droppedSchemas {
      var i :| 0 <= i < |db.schemas| && db.schemas[i] == w;
      assert after.schemas[i] == w;
      assert Within(v, w);
    } else {
      var s :| s in ch.newSchemas && s.schemaId == schemaId;
      var i :| 0 <= i < |ch.newSchemas| && ch.newSchemas[i] == s;
      var w := Inserted(ch.newSchemas, n)[i];
      assert after.schemas[|db.schemas| + i] == w;
      assert Within(v, w);
    }
  }

  lemma {:induction false} CopyComesFrom(rows: seq<Versioned<TableRow>>, renames: map<int, string>, n: int, v: Versioned<TableRow>)
    requires v in RenamedCopies(rows, renames, n)
    ensures v.begin == n && v.row.tableId in renames
    ensures exists u :: u in rows && u.end == Some(n) && u.row.tableId == v.row.tableId && u.row.schemaId == v.row.schemaId
  {
    if v in RenamedCopies(rows[1..], renames, n) {
      CopyComesFrom(rows[1..], renames, n, v);
      var u :| u in rows[1..] && u.end == Some(n) && u.row.tableId == v.row.tableId && u.row.schemaId == v.row.schemaId;
      assert u in rows;
    } else {
      assert rows[0] in rows;
    }
  }

  lemma InRetired<T>(rows: seq<Versioned<T>>, p: T -> bool, n: int, v: Versioned<T>) returns (u: Versioned<T>)
    requires v in Retire(rows, p, n)
    ensures u in rows && v == RetireOne(u, p, n)
  {
    var i :| 0 <= i < |rows| && Retire(rows, p, n)[i] == v;
    u := rows[i];
  }

  /** Where a table version of the new database comes from. */
  lemma TableComesFrom(rows: seq<Versioned<TableRow>>, ch: TransactionChanges, n: int, v: Versioned<TableRow>)
    requires Settled(rows, n - 1) && v in PersistedTables(rows, ch, n)
    ensures
      || (exists u :: u in rows && v == RetireOne(u, TableEnds(ch), n))
      || (v.begin == n
          && exists u :: u in rows && u.end.None? && u.row.tableId in ch.renamedTables
                         && u.row.tableId == v.row.tableId && u.row.schemaId == v.row.schemaId)
      || (v.begin == n && v.row in ch.newTables)
  {
    var retired := Retire(rows, TableEnds(ch), n);
    var copies := RenamedCopies(retired, ch.renamedTables, n);
    if v in retired {
      var u := InRetired(rows, TableEnds(ch), n, v);
    } else if v in copies {
      CopyComesFrom(retired, ch.renamedTables, n, v);
      var c :| c in retired && c.end == Some(n) && c.row.tableId == v.row.tableId && c.row.schemaId == v.row.schemaId;
      var u := InRetired(rows, TableEnds(ch), n, c);
    } else {
      assert v in Inserted(ch.newTables, n);
    }
  }

  lemma CommitTableInSchema(db: Database, after: Database, ch: TransactionChanges, n: int, v: Versioned<TableRow>)
    requires SchemasAdvance(db, after, ch, n) && Settled(db.tables, n - 1)
    requires forall u :: u in db.tables ==> InSchema(db, u, u.row.schemaId)
    requires DropsEmptySchemas(db, ch) && CreatesInSchemas(db, ch)
    requires ch.droppedTables !! ch.renamedTables.Keys
    requires v in PersistedTables(db.tables, ch, n)
    ensures InSchema(after, v, v.row.schemaId)
  {
    hide Retire, Inserted, RenamedCopies, PersistedTables, SchemaEnds;
    TableComesFrom(db.tables, ch, n, v);
    if u :| u in db.tables && v == RetireOne(u, TableEnds(ch), n) {
      RetiredInSchema(db, after, ch, n, u, TableEnds(ch), u.row.schemaId);
    } else if v.begin == n && v.row in ch.newTables {
      NewInSchema(db, after, ch, n, v, v.row.schemaId);
    } else {
      var u :| u in db.tables && u.end.None? && u.row.tableId in ch.renamedTables
               && u.row.tableId == v.row.tableId && u.row.schemaId == v.row.schemaId;
      var w :| w in db.schemas && w.row.schemaId == u.row.schemaId && Within(u, w);
      NewInSchema(db, after, ch, n, v, v.row.schemaId);
    }
  }

  lemma CommitObjectsInSchema<T>(db: Database, after: Database, ch: TransactionChanges, n: int,
                                 rows: seq<Versioned<T>>, ends: T -> bool, added: seq<T>, schemaId: T -> int)
    requires SchemasAdvance(db, after, ch, n) && Settled(rows, n - 1)
    requires forall v :: v in rows ==> InSchema(db, v, schemaId(v.row))
    requires forall v :: v in rows && v.end.None? && schemaId(v.row) in ch.droppedSchemas ==> ends(v.row)
    requires forall x :: x in added ==> LiveSchema(db, ch, schemaId(x))
    ensures forall v :: v in Advance(rows, ends, n, Inserted(added, n)) ==> InSchema(after, v, schemaId(v.row))
  {
    forall v | v in Advance(rows, ends, n, Inserted(added, n)) ensures InSchema(after, v, schemaId(v.row)) {
      if v in Retire(rows, ends, n) {
        var u := InRetired(rows, ends, n, v);
        RetiredInSchema(db, after, ch, n, u, ends, schemaId(u.row));
      } else {
        assert v in Inserted(added, n);
        NewInSchema(db, after, ch, n, v, schemaId(v.row));
      }
    }
  }

  ghost predicate OneSchemaPerTable(rows: seq<Versioned<TableRow>>) {
    forall v, w :: v in rows && w in rows && v.row.tableId == w.row.tableId ==> v.row.schemaId == w.row.schemaId
  }

  lemma TableKeepsSchema(db: Database, ch: TransactionChanges, n: int, v: Versioned<TableRow>, x: Versioned<TableRow>)
    requires Settled(db.tables, n - 1) && OneSchemaPerTable(db.tables) && FreshTables(db, ch)
    requires v in PersistedTables(db.tables, ch, n) && x in PersistedTables(db.tables, ch, n)
    requires v.row.tableId == x.row.tableId
    ensures v.row.schemaId == x.row.schemaId
  {
    TableComesFrom(db.tables, ch, n, v);
    TableComesFrom(db.tables, ch, n, x);
  }

  lemma SchemaIdsStayUnique(db: Database, ch: TransactionChanges, n: int)
    requires FreshSchemas(db, ch)
    requires forall v, x :: v in db.schemas && x in db.schemas && v.row.schemaId == x.row.schemaId ==> v == x
    ensures
      var rows := Advance(db.schemas, SchemaEnds(ch), n, Inserted(ch.newSchemas, n));
      forall v, x :: v in rows && x in rows && v.row.schemaId == x.row.schemaId ==> v == x
  {
    hide Retire, Inserted, SchemaEnds;
    var retired: seq<Versioned<SchemaRow>> := Retire(db.schemas, SchemaEnds(ch), n);
    var added: seq<Versioned<SchemaRow>> := Inserted(ch.newSchemas, n);
    forall v | v in retired ensures exists u :: u in db.schemas && u.row == v.row && v == RetireOne(u, SchemaEnds(ch), n) {
      var u := InRetired(db.schemas, SchemaEnds(ch), n, v);
    }
    forall v, x | v in retired && x in added ensures v.row.schemaId != x.row.schemaId {
      assert x.row in ch.newSchemas;
    }
    forall v, x | v in added && x in added && v.row.schemaId == x.row.schemaId ensures v == x {
    }
  }

  lemma CommitKeepsSchemas(db: Database, after: Database, ch: TransactionChanges, n: int)
    requires SchemasContain(db) && RespectsSchemas(db, ch)
    requires Settled(db.tables, n - 1) && Settled(db.views, n - 1) && Settled(db.macros, n - 1)
    requires ch.droppedTables !! ch.renamedTables.Keys
    requires SchemasAdvance(db, after, ch, n)
    requires after.tables == PersistedTables(db.tables, ch, n)
    requires after.views == Advance(db.views, ViewEnds(ch), n, Inserted(ch.newViews, n))
    requires after.macros == Advance(db.macros, MacroEnds(ch), n, Inserted(ch.newMacros, n))
    ensures SchemasContain(after)
  {
    hide Advance, Retire, Inserted, Within, InSchema, LiveSchema, RenamedCopies;
    forall v | v in after.tables ensures InSchema(after, v, v.row.schemaId) {
      CommitTableInSchema(db, after, ch, n, v);
    }
    CommitObjectsInSchema(db, after, ch, n, db.views, ViewEnds(ch), ch.newViews, (v: ViewRow) => v.schemaId);
    CommitObjectsInSchema(db, after, ch, n, db.macros, MacroEnds(ch), ch.newMacros, (m: MacroRow) => m.schemaId);
    forall v, x | v in after.tables && x in after.tables && v.row.tableId == x.row.tableId
      ensures v.row.schemaId == x.row.schemaId
    {
      TableKeepsSchema(db, ch, n, v, x);
    }
    SchemaIdsStayUnique(db, ch, n);
  }

  lemma CommitKeepsInlined(db: Database, after: Database, ch: TransactionChanges, info: SnapshotRow, log: seq<SnapshotRow>)
    requires InlinedRecorded(db, log) && info.id == |log| && InlinesChanged(after, ch, info.id)
    requires forall s :: s < info.id ==> View(after.tables, s) == View(db.tables, s)
    requires after.schemaVersions
          == db.schemaVersions + Map((id: int) => SchemaVersionRow(info.id, info.schemaVersion, id), ch.schemaChangedTables)
    requires after.inlinedTables
          == db.inlinedTables + Map((id: int) => InlinedTableRow(id, info.schemaVersion), ch.inlineTables)
    ensures InlinedRecorded(after, log + [info])
  {
    var added := Map((id: int) => SchemaVersionRow(info.id, info.schemaVersion, id), ch.schemaChangedTables);
    forall r | r in after.schemaVersions
      ensures 0 <= r.begin < |log| + 1 && (log + [info])[r.begin].schemaVersion == r.schemaVersion
    {
      if r !in db.schemaVersions { assert r in added; }
    }
    forall k | k in after.inlinedTables
      ensures exists r :: r in after.schemaVersions && r.tableId == k.tableId && r.schemaVersion == k.schemaVersion
                          && TableVisible(after, r.begin, k.tableId)
    {
      if k in db.inlinedTables {
        var r :| r in db.schemaVersions && r.tableId == k.tableId && r.schemaVersion == k.schemaVersion
                 && TableVisible(db, r.begin, k.tableId);
        assert r in after.schemaVersions && TableVisible(after, r.begin, k.tableId);
      } else {
        assert k in Map((id: int) => InlinedTableRow(id, info.schemaVersion), ch.inlineTables);
        assert k.tableId in ch.inlineTables;
        var j :| 0 <= j < |ch.schemaChangedTables| && ch.schemaChangedTables[j] == k.tableId;
        assert after.schemaVersions[|db.schemaVersions| + j] == added[j];
      }
    }
  }

  lemma PastTables(db: Database, ch: TransactionChanges, n: int)
    ensures forall s :: s < n ==> View(PersistedTables(db.tables, ch, n), s) == View(db.tables, s)
  {
    forall s | s < n ensures View(PersistedTables(db.tables, ch, n), s) == View(db.tables, s) {
      AdvancePast(db.tables, TableEnds(ch), n,
                  RenamedCopies(Retire(db.tables, TableEnds(ch), n), ch.renamedTables, n) + Inserted(ch.newTables, n), s);
    }
  }

  lemma CommitKeepsLog(db: Database, after: Database, ch: TransactionChanges, info: SnapshotRow, log: seq<SnapshotRow>)
    requires GoodLog(log) && Retained(db, log) && NextSnapshot(log, ch, info)
    requires after.snapshots == db.snapshots + [info]
    ensures GoodLog(log + [info]) && Retained(after, log + [info])
  {
  }

  lemma SettledParts(db: Database, h: int)
    requires SettledCatalog(db, h)
    ensures Settled(db.schemas, h) && Settled(db.tables, h) && Settled(db.views, h) && Settled(db.macros, h)
  {
  }

  /** The relations of a persisted commit that the invariant speaks of. */
  lemma PersistedRelations(db: Database, ch: TransactionChanges, info: SnapshotRow, made: string, same: (string, string) -> bool,
                           inlined: map<InlinedTableRow, seq<Versioned<string>>>)
    ensures
      var after, n := Persisted(db, ch, info, made, same, inlined), info.id;
      && after.snapshots == db.snapshots + [info]
      && after.schemas == Advance(db.schemas, SchemaEnds(ch), n, Inserted(ch.newSchemas, n))
      && after.tables == PersistedTables(db.tables, ch, n)
      && after.views == Advance(db.views, ViewEnds(ch), n, Inserted(ch.newViews, n))
      && after.macros == Advance(db.macros, MacroEnds(ch), n, Inserted(ch.newMacros, n))
      && after.schemaVersions == db.schemaVersions + Map((id: int) => SchemaVersionRow(n, info.schemaVersion, id), ch.schemaChangedTables)
      && after.inlinedTables == db.inlinedTables + Map((id: int) => InlinedTableRow(id, info.schemaVersion), ch.inlineTables)
  {
    hide Advance, Inserted, PersistedTables, PersistedTags, Attached;
  }

  lemma CommitKeepsSound(w: History, next: History, ch: TransactionChanges, info: SnapshotRow, made: string,
                         same: (string, string) -> bool)
    requires Sound(w) && CommitStep(w, next, ch, info, made, same)
    ensures Sound(next)
  {
    hide SettledCatalog, CatalogOnBoundaries, SchemasContain, InlinedRecorded, GoodLog, Retained, View, Persisted, PersistedTables,
         Advance, Map, TouchesCatalog, FreshDependents, RespectsSchemas, InlinesChanged, Equivalence;
    var db, log, n := w.db, w.log, info.id;
    var inlined := PersistedInlined(db, ch, info.schemaVersion, info.id).value;
    PersistedRelations(db, ch, info, made, same, inlined);
    CommitKeepsLog(db, next.db, ch, info, log);
    CommitKeepsIntervals(db, ch, info, made, same, inlined, log, next);
    SettledParts(db, |log| - 1);
    CommitKeepsSchemas(db, next.db, ch, n);
    PastTables(db, ch, n);
    CommitKeepsInlined(db, next.db, ch, info, log);
  }

  // ----- expiry keeps the invariant -----

  lemma HeadIsNotExpired(db: Database, log: seq<SnapshotRow>, matches: SnapshotRow -> bool)
    requires GoodLog(log) && Retained(db, log)
    ensures |log| - 1 !in ExpiredIds(db, matches)
  {
  }

  lemma AfterExpirySnapshots(db: Database, ids: set<int>, catalog: LoadedCatalog, dataPath: DucklakePath, after: Database)
    requires Expire(db, ids, catalog, dataPath) == Some(after)
    ensures after.snapshots == Filter((r: SnapshotRow) => r.id !in ids, db.snapshots)
    ensures SnapshotIds(after) == SnapshotIds(db) - ids
  {
    hide View, Inactive, FindExpiredTables, Schedule;
    LiveSnapshots(db, ids);
  }

  lemma ExpireKeepsLog(db: Database, ids: set<int>, after: Database, log: seq<SnapshotRow>)
    requires after.snapshots == Filter((r: SnapshotRow) => r.id !in ids, db.snapshots)
    requires Retained(db, log) && log[|log| - 1].id !in ids
    ensures Retained(after, log)
  {
  }

  lemma FilterKeepsIntervals<T>(rows: seq<Versioned<T>>, keep: Versioned<T> -> bool, h: int, log: seq<SnapshotRow>)
    requires Settled(rows, h) && OnBoundaries(rows, log)
    ensures Settled(Filter(keep, rows), h) && OnBoundaries(Filter(keep, rows), log)
  {
  }

  lemma ExpireKeepsIntervals(db: Database, ids: set<int>, catalog: LoadedCatalog, dataPath: DucklakePath, after: Database,
                             log: seq<SnapshotRow>)
    requires Expire(db, ids, catalog, dataPath) == Some(after)
    requires SettledCatalog(db, |log| - 1) && CatalogOnBoundaries(db, log)
    ensures SettledCatalog(after, |log| - 1) && CatalogOnBoundaries(after, log)
  {
    AfterExpiry(db, ids, catalog, dataPath, after);
    AfterExpiryParts(db, ids, catalog, dataPath, after);
    var h := |log| - 1;
    var live, dead := Live(db, ids), DeadTables(db, ids);
    FilterKeepsIntervals(db.schemas, (v: Versioned<SchemaRow>) => !Inactive(v, live), h, log);
    FilterKeepsIntervals(db.tables, (v: Versioned<TableRow>) => v.row.tableId !in dead, h, log);
    FilterKeepsIntervals(db.views, (v: Versioned<ViewRow>) => !Inactive(v, live), h, log);
    FilterKeepsIntervals(db.macros, (v: Versioned<MacroRow>) => !Inactive(v, live), h, log);
    FilterKeepsIntervals(db.columns, (v: Versioned<ColumnRow>) => v.row.tableId !in dead, h, log);
    FilterKeepsIntervals(db.columnTags, (v: Versioned<ColumnTagRow>) => v.row.owner.0 !in dead, h, log);
    FilterKeepsIntervals(db.tags, (v: Versioned<TagRow>) => !Inactive(v, live), h, log);
    FilterKeepsIntervals(db.partitions, (v: Versioned<PartitionRow>) => v.row.tableId !in dead, h, log);
    FilterKeepsIntervals(db.sorts, (v: Versioned<SortRow>) => v.row.tableId !in dead, h, log);
  }

  lemma AfterExpiryRegistrations(db: Database, ids: set<int>, catalog: LoadedCatalog, dataPath: DucklakePath, after: Database)
    requires Expire(db, ids, catalog, dataPath) == Some(after)
    ensures after.schemaVersions == Filter((r: SchemaVersionRow) => r.tableId !in DeadTables(db, ids), db.schemaVersions)
    ensures after.inlinedTables == Filter((r: InlinedTableRow) => r.tableId !in DeadTables(db, ids), db.inlinedTables)
  {
  }

  lemma ExpireKeepsInlined(db: Database, ids: set<int>, catalog: LoadedCatalog, dataPath: DucklakePath, after: Database,
                           log: seq<SnapshotRow>)
    requires Expire(db, ids, catalog, dataPath) == Some(after)
    requires InlinedRecorded(db, log)
    ensures InlinedRecorded(after, log)
  {
    AfterExpiryRegistrations(db, ids, catalog, dataPath, after);
    forall k | k in after.inlinedTables
      ensures exists r :: r in after.schemaVersions && r.tableId == k.tableId && r.schemaVersion == k.schemaVersion
                          && TableVisible(after, r.begin, k.tableId)
    {
      var r :| r in db.schemaVersions && r.tableId == k.tableId && r.schemaVersion == k.schemaVersion
               && TableVisible(db, r.begin, k.tableId);
      KeptTableStaysVisible(db, ids, catalog, dataPath, after, r.begin, k.tableId);
      assert r in after.schemaVersions;
    }
  }

  lemma KeptTableStaysVisible(db: Database, ids: set<int>, catalog: LoadedCatalog, dataPath: DucklakePath, after: Database,
                              s: int, id: int)
    requires Expire(db, ids, catalog, dataPath) == Some(after)
    requires id !in DeadTables(db, ids) && TableVisible(db, s, id)
    ensures TableVisible(after, s, id)
  {
    KeptTableKeepsVersions(db, ids, catalog, dataPath, after, s, id);
    var t :| t in View(db.tables, s) && t.tableId == id;
    assert t in Filter((x: TableRow) => x.tableId == id, View(db.tables, s));
  }

  /** Expiry takes the matching snapshots, all of them and no others, but never the latest. */
  lemma ExpireTakesExactly(w: History, next: History, matches: SnapshotRow -> bool, catalog: LoadedCatalog, dataPath: DucklakePath)
    requires Sound(w) && ExpireStep(w, next, matches, catalog, dataPath)
    ensures forall r :: r in next.db.snapshots <==> r in w.db.snapshots && (!matches(r) || r.id == |w.log| - 1)
  {
    hide Expire, SettledCatalog, CatalogOnBoundaries, SchemasContain, InlinedRecorded, FindExpiredSnapshots;
    ExpireTakesMatching(w.db, matches, catalog, dataPath);
    var latest := w.log[|w.log| - 1];
    forall r | r in w.db.snapshots
      ensures (exists q :: q in w.db.snapshots && q.id > r.id) <==> r.id != |w.log| - 1
    {
      assert latest in w.db.snapshots;
    }
  }

  lemma ExpireKeepsSound(w: History, next: History, matches: SnapshotRow -> bool, catalog: LoadedCatalog, dataPath: DucklakePath)
    requires Sound(w) && ExpireStep(w, next, matches, catalog, dataPath)
    ensures Sound(next)
    ensures SnapshotIds(next.db) == SnapshotIds(w.db) - ExpiredIds(w.db, matches)
  {
    hide Expire, Filter, Boundary, InSchema;
    var ids := ExpiredIds(w.db, matches);
    HeadIsNotExpired(w.db, w.log, matches);
    AfterExpirySnapshots(w.db, ids, catalog, dataPath, next.db);
    ExpireKeepsLog(w.db, ids, next.db, w.log);
    ExpireKeepsIntervals(w.db, ids, catalog, dataPath, next.db, w.log);
    KeptObjectsKeepSchemas(w.db, ids, catalog, dataPath, next.db);
    ExpireKeepsInlined(w.db, ids, catalog, dataPath, next.db, w.log);
  }

  lemma CreatedSound(w: History)
    requires Created(w)
    ensures Sound(w)
  {
    assert Boundary(w.log, 0);
  }

  lemma StepKeepsSound(w: History, next: History)
    requires Sound(w) && Step(w, next)
    ensures Sound(next)
  {
    if ch, info, made, same :| CommitStep(w, next, ch, info, made, same) {
      CommitKeepsSound(w, next, ch, info, made, same);
    } else {
      var matches, catalog, dataPath :| ExpireStep(w, next, matches, catalog, dataPath);
      ExpireKeepsSound(w, next, matches, catalog, dataPath);
    }
  }

  /** Every database reachable by commits and expiries is sound. */
  lemma {:induction false} RunSound(run: seq<History>, i: nat)
    requires Run(run) && i < |run|
    ensures Sound(run[i])
  {
    if i == 0 {
      CreatedSound(run[0]);
    } else {
      RunSound(run, i - 1);
      assert Step(run[i - 1], run[i - 1 + 1]);
      StepKeepsSound(run[i - 1], run[i]);
    }
  }
}
