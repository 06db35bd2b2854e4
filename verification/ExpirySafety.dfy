/** What expiry promises: retained snapshots, historical schemas and file locations survive it. */
module ExpirySafety {
  import opened Prelude
  import opened Versions
  import opened Paths
  import opened Catalog
  import opened Expiry

  // ----- what each table looks like afterwards -----

  function Live(db: Database, ids: set<int>): set<int> { SnapshotIds(DeleteSnapshots(db, ids)) }

  function DeadTables(db: Database, ids: set<int>): set<int> { FindExpiredTables(DeleteSnapshots(db, ids)) }

  function DeadFiles(db: Database, ids: set<int>): set<int> { ExpiredFileIds(DeleteSnapshots(db, ids)) }

  lemma LiveSnapshots(db: Database, ids: set<int>)
    ensures Live(db, ids) == SnapshotIds(db) - ids
  {
    forall s | s in SnapshotIds(db) - ids ensures s in Live(db, ids) {
      var r :| r in db.snapshots && r.id == s;
      assert r in DeleteSnapshots(db, ids).snapshots;
    }
  }

  /** The versioned tables after expiry, each in terms of the one before. */
  lemma AfterExpiry(db: Database, ids: set<int>, catalog: LoadedCatalog, dataPath: DucklakePath, after: Database)
    requires Expire(db, ids, catalog, dataPath) == Some(after)
    ensures SnapshotIds(after) == Live(db, ids)
    ensures after.schemas == ActiveRows(db.schemas, Live(db, ids))
    ensures after.tags == ActiveRows(db.tags, Live(db, ids))
    ensures after.views == ActiveRows(db.views, Live(db, ids))
    ensures after.macros == ActiveRows(db.macros, Live(db, ids))
    ensures after.tables == Filter((v: Versioned<TableRow>) => v.row.tableId !in DeadTables(db, ids), db.tables)
  {
  }

  lemma AfterExpiryParts(db: Database, ids: set<int>, catalog: LoadedCatalog, dataPath: DucklakePath, after: Database)
    requires Expire(db, ids, catalog, dataPath) == Some(after)
    ensures after.columns == Filter((v: Versioned<ColumnRow>) => v.row.tableId !in DeadTables(db, ids), db.columns)
    ensures after.columnTags == Filter((v: Versioned<ColumnTagRow>) => v.row.owner.0 !in DeadTables(db, ids), db.columnTags)
    ensures after.partitions == Filter((v: Versioned<PartitionRow>) => v.row.tableId !in DeadTables(db, ids), db.partitions)
    ensures after.sorts == Filter((v: Versioned<SortRow>) => v.row.tableId !in DeadTables(db, ids), db.sorts)
  {
  }

  lemma AfterExpiryFiles(db: Database, ids: set<int>, catalog: LoadedCatalog, dataPath: DucklakePath, after: Database)
    requires Expire(db, ids, catalog, dataPath) == Some(after)
    ensures after.dataFiles == Filter((v: Versioned<DataFileRow>) => v.row.fileId !in DeadFiles(db, ids), db.dataFiles)
    ensures after.deleteFiles == Filter((v: Versioned<DeleteFileRow>) => v.row.fileId !in DeadFiles(db, ids), db.deleteFiles)
  {
  }

  // ----- file ids -----

  function FileIds(db: Database): seq<int> {
    Map((v: Versioned<DataFileRow>) => v.row.fileId, db.dataFiles)
    + Map((v: Versioned<DeleteFileRow>) => v.row.fileId, db.deleteFiles)
  }

  ghost predicate Distinct<T>(s: seq<T>) { forall i, j :: 0 <= i < j < |s| ==> s[i] != s[j] }

  lemma FileIdNamesOneRow(db: Database)
    requires Distinct(FileIds(db))
    ensures forall v, w :: v in db.dataFiles && w in db.dataFiles && v.row.fileId == w.row.fileId ==> v == w
    ensures forall v, w :: v in db.deleteFiles && w in db.deleteFiles && v.row.fileId == w.row.fileId ==> v == w
    ensures forall v, w :: v in db.dataFiles && w in db.deleteFiles ==> v.row.fileId != w.row.fileId
  {
    var n := |db.dataFiles|;
    var ids := FileIds(db);
    assert forall i :: 0 <= i < n ==> ids[i] == db.dataFiles[i].row.fileId;
    assert forall i :: 0 <= i < |db.deleteFiles| ==> ids[n + i] == db.deleteFiles[i].row.fileId;
  }

  /** An expired id names exactly one file row, of one of the two tables. */
  lemma DeadFileIsInactive(db: Database, ids: set<int>)
    requires Distinct(FileIds(db))
    ensures forall v :: v in db.dataFiles ==> (v.row.fileId in DeadFiles(db, ids) <==> Inactive(v, Live(db, ids)))
    ensures forall v :: v in db.deleteFiles ==> (v.row.fileId in DeadFiles(db, ids) <==> Inactive(v, Live(db, ids)))
  {
    FileIdNamesOneRow(db);
  }

  /** Why the ids must be distinct: a retained data file is kept exactly when no expired row has its id. */
  lemma RetainedFileIsKeptIff(db: Database, ids: set<int>, catalog: LoadedCatalog, dataPath: DucklakePath,
                              after: Database, s: int, v: Versioned<DataFileRow>)
    requires Expire(db, ids, catalog, dataPath) == Some(after)
    requires s in SnapshotIds(db) && s !in ids
    requires v in db.dataFiles && VisibleAt(v, s)
    ensures v in after.dataFiles
       <==> (forall w :: w in db.dataFiles && Inactive(w, SnapshotIds(db) - ids) ==> w.row.fileId != v.row.fileId)
            && (forall w :: w in db.deleteFiles && Inactive(w, SnapshotIds(db) - ids) ==> w.row.fileId != v.row.fileId)
  {
    hide View, Schedule, DirectoryOf;
    LiveSnapshots(db, ids);
    var cut := DeleteSnapshots(db, ids);
    forall w | w in db.dataFiles && Inactive(w, Live(db, ids)) ensures w.row.fileId in DeadFiles(db, ids) {
      assert w in InactiveRows(cut.dataFiles, SnapshotIds(cut));
    }
    forall w | w in db.deleteFiles && Inactive(w, Live(db, ids)) ensures w.row.fileId in DeadFiles(db, ids) {
      assert w in InactiveRows(cut.deleteFiles, SnapshotIds(cut));
    }
  }

  // ----- retained snapshots -----

  lemma SameMembers<T>(p: T -> bool, a: seq<T>, b: seq<T>)
    requires Filter(p, a) == Filter(p, b)
    ensures forall x :: p(x) ==> (x in a <==> x in b)
  {
    forall x | p(x) ensures x in a <==> x in b {
      assert x in a <==> x in Filter(p, a);
      assert x in b <==> x in Filter(p, b);
    }
  }

  /** The rows below partitions and sort orders of a kept table. */
  lemma KeptDependents(db: Database, ids: set<int>, catalog: LoadedCatalog, dataPath: DucklakePath, after: Database,
                       s: int, id: int)
    requires Expire(db, ids, catalog, dataPath) == Some(after)
    requires id !in DeadTables(db, ids)
    requires PartsOf(after, s, id).partitions == PartsOf(db, s, id).partitions
    requires PartsOf(after, s, id).sorts == PartsOf(db, s, id).sorts
    ensures PartsOf(after, s, id).partitionColumns == PartsOf(db, s, id).partitionColumns
    ensures PartsOf(after, s, id).sortExpressions == PartsOf(db, s, id).sortExpressions
  {
    var dead := DeadTables(db, ids);
    SameMembers((p: PartitionRow) => p.tableId == id, View(after.partitions, s), View(db.partitions, s));
    SameMembers((p: SortRow) => p.tableId == id, View(after.sorts, s), View(db.sorts, s));
    FilterAbsorbs((c: PartitionColumnRow) => c.tableId == id && PartitionActive(db, s, id, c.partitionId),
                  (c: PartitionColumnRow) => c.tableId !in dead, db.partitionColumns);
    FilterAbsorbs((e: SortExpressionRow) => e.tableId == id && SortActive(db, s, id, e.sortId),
                  (e: SortExpressionRow) => e.tableId !in dead, db.sortExpressions);
    FilterCongruent((c: PartitionColumnRow) => c.tableId == id && PartitionActive(after, s, id, c.partitionId),
                    (c: PartitionColumnRow) => c.tableId == id && PartitionActive(db, s, id, c.partitionId), after.partitionColumns);
    FilterCongruent((e: SortExpressionRow) => e.tableId == id && SortActive(after, s, id, e.sortId),
                    (e: SortExpressionRow) => e.tableId == id && SortActive(db, s, id, e.sortId), after.sortExpressions);
  }

  /** Rows kept by table id: what a kept table sees of them does not change at any snapshot. */
  lemma KeptParts(db: Database, ids: set<int>, catalog: LoadedCatalog, dataPath: DucklakePath, after: Database,
                  s: int, id: int)
    requires Expire(db, ids, catalog, dataPath) == Some(after)
    requires id !in DeadTables(db, ids)
    ensures PartsOf(after, s, id).(tags := []) == PartsOf(db, s, id).(tags := [])
  {
    AfterExpiryParts(db, ids, catalog, dataPath, after);
    var dead := DeadTables(db, ids);
    SelectedViewOfKept(db.columns, (v: Versioned<ColumnRow>) => v.row.tableId !in dead, (c: ColumnRow) => c.tableId == id, s);
    SelectedViewOfKept(db.columnTags, (v: Versioned<ColumnTagRow>) => v.row.owner.0 !in dead, (c: ColumnTagRow) => c.owner.0 == id, s);
    SelectedViewOfKept(db.partitions, (v: Versioned<PartitionRow>) => v.row.tableId !in dead, (c: PartitionRow) => c.tableId == id, s);
    SelectedViewOfKept(db.sorts, (v: Versioned<SortRow>) => v.row.tableId !in dead, (c: SortRow) => c.tableId == id, s);
    KeptDependents(db, ids, catalog, dataPath, after, s, id);
  }

  lemma RetainedObjects(db: Database, ids: set<int>, catalog: LoadedCatalog, dataPath: DucklakePath, after: Database, s: int)
    requires Expire(db, ids, catalog, dataPath) == Some(after)
    requires s in Live(db, ids)
    ensures View(after.schemas, s) == View(db.schemas, s)
    ensures View(after.tables, s) == View(db.tables, s)
    ensures View(after.views, s) == View(db.views, s)
    ensures View(after.macros, s) == View(db.macros, s)
    ensures View(after.tags, s) == View(db.tags, s)
    ensures forall t :: t in View(db.tables, s) ==> t.tableId !in DeadTables(db, ids)
  {
    AfterExpiry(db, ids, catalog, dataPath, after);
    var live, dead := Live(db, ids), DeadTables(db, ids);
    ViewOfKept(db.schemas, (v: Versioned<SchemaRow>) => !Inactive(v, live), s);
    ViewOfKept(db.views, (v: Versioned<ViewRow>) => !Inactive(v, live), s);
    ViewOfKept(db.macros, (v: Versioned<MacroRow>) => !Inactive(v, live), s);
    ViewOfKept(db.tags, (v: Versioned<TagRow>) => !Inactive(v, live), s);
    ViewOfKept(db.tables, (v: Versioned<TableRow>) => v.row.tableId !in dead, s);
  }

  lemma RetainedMacroParts(db: Database, ids: set<int>, catalog: LoadedCatalog, dataPath: DucklakePath, after: Database,
                           s: int, m: MacroRow)
    requires Expire(db, ids, catalog, dataPath) == Some(after)
    requires s in Live(db, ids) && m in View(db.macros, s)
    ensures MacroPartsOf(after, m.macroId) == MacroPartsOf(db, m.macroId)
  {
    RetainedObjects(db, ids, catalog, dataPath, after, s);
    assert m in View(after.macros, s);
    var v :| v in after.macros && VisibleAt(v, s) && v.row == m;
    var macros := after.macros;
    FilterAbsorbs((i: MacroImplRow) => i.macroId == m.macroId,
                  (i: MacroImplRow) => exists w :: w in macros && w.row.macroId == i.macroId, db.macroImpls);
    FilterAbsorbs((p: MacroParameterRow) => p.macroId == m.macroId,
                  (p: MacroParameterRow) => exists w :: w in macros && w.row.macroId == p.macroId, db.macroParameters);
  }

  /** Loading the catalog at a retained snapshot gives the same result before and after expiry. */
  lemma ExpiryKeepsCatalog(db: Database, ids: set<int>, catalog: LoadedCatalog, dataPath: DucklakePath,
                           after: Database, s: int)
    requires Expire(db, ids, catalog, dataPath) == Some(after)
    requires s in SnapshotIds(db) && s !in ids
    ensures Load(after, s) == Load(db, s)
  {
    LiveSnapshots(db, ids);
    RetainedObjects(db, ids, catalog, dataPath, after, s);
    forall t | t in View(db.tables, s) ensures PartsOf(after, s, t.tableId) == PartsOf(db, s, t.tableId) {
      KeptParts(db, ids, catalog, dataPath, after, s, t.tableId);
    }
    forall m | m in View(db.macros, s) ensures MacroPartsOf(after, m.macroId) == MacroPartsOf(db, m.macroId) {
      RetainedMacroParts(db, ids, catalog, dataPath, after, s, m);
    }
    LoadsAgree(after, s, db, s);
  }

  lemma RetainedFiles(db: Database, ids: set<int>, catalog: LoadedCatalog, dataPath: DucklakePath, after: Database, s: int)
    requires Expire(db, ids, catalog, dataPath) == Some(after)
    requires s in Live(db, ids) && Distinct(FileIds(db))
    ensures View(after.dataFiles, s) == View(db.dataFiles, s)
    ensures View(after.deleteFiles, s) == View(db.deleteFiles, s)
  {
    AfterExpiryFiles(db, ids, catalog, dataPath, after);
    DeadFileIsInactive(db, ids);
    var dead := DeadFiles(db, ids);
    ViewOfKept(db.dataFiles, (v: Versioned<DataFileRow>) => v.row.fileId !in dead, s);
    ViewOfKept(db.deleteFiles, (v: Versioned<DeleteFileRow>) => v.row.fileId !in dead, s);
  }

  lemma RetainedFileRows(db: Database, ids: set<int>, catalog: LoadedCatalog, dataPath: DucklakePath, after: Database,
                         s: int, id: int)
    requires Expire(db, ids, catalog, dataPath) == Some(after)
    requires s in Live(db, ids) && Distinct(FileIds(db))
    ensures Scan(after, s, id).fileStats == Scan(db, s, id).fileStats
    ensures Scan(after, s, id).partitionValues == Scan(db, s, id).partitionValues
  {
    RetainedFiles(db, ids, catalog, dataPath, after, s);
    var files := after.dataFiles;
    forall f | FileVisible(db, s, f) ensures exists v :: v in files && v.row.fileId == f {
      var x :| x in View(db.dataFiles, s) && x.fileId == f;
      var v :| v in files && VisibleAt(v, s) && v.row == x;
    }
    FilterCongruent((r: FileStatsRow) => r.tableId == id && FileVisible(after, s, r.dataFileId),
                    (r: FileStatsRow) => r.tableId == id && FileVisible(db, s, r.dataFileId), after.fileStats);
    FilterAbsorbs((r: FileStatsRow) => r.tableId == id && FileVisible(db, s, r.dataFileId),
                  (r: FileStatsRow) => exists v :: v in files && v.row.fileId == r.dataFileId, db.fileStats);
    FilterCongruent((r: PartitionValueRow) => r.tableId == id && FileVisible(after, s, r.dataFileId),
                    (r: PartitionValueRow) => r.tableId == id && FileVisible(db, s, r.dataFileId), after.partitionValues);
    FilterAbsorbs((r: PartitionValueRow) => r.tableId == id && FileVisible(db, s, r.dataFileId),
                  (r: PartitionValueRow) => exists v :: v in files && v.row.fileId == r.dataFileId, db.partitionValues);
  }

  lemma {:induction false} InlinedAgree(a: Database, b: Database, s: int, tables: seq<InlinedTableRow>)
    requires forall r :: r in tables ==> InlinedRows(a, r, s) == InlinedRows(b, r, s)
    ensures InlinedOf(a, s, tables) == InlinedOf(b, s, tables)
  {
    if tables != [] {
      InlinedAgree(a, b, s, tables[1..]);
    }
  }

  lemma KeptInlinedTables(db: Database, ids: set<int>, catalog: LoadedCatalog, dataPath: DucklakePath, after: Database,
                          s: int, id: int)
    requires Expire(db, ids, catalog, dataPath) == Some(after)
    requires id !in DeadTables(db, ids)
    ensures Scan(after, s, id).inlined == Scan(db, s, id).inlined
    ensures Filter((r: TableStatsRow) => r.tableId == id, after.tableStats)
         == Filter((r: TableStatsRow) => r.tableId == id, db.tableStats)
    ensures Filter((r: ColumnStatsRow) => r.tableId == id, after.columnStats)
         == Filter((r: ColumnStatsRow) => r.tableId == id, db.columnStats)
  {
    var dead := DeadTables(db, ids);
    var mine := (r: InlinedTableRow) => r.tableId == id;
    FilterAbsorbs(mine, (r: InlinedTableRow) => r.tableId !in dead, db.inlinedTables);
    InlinedAgree(after, db, s, Filter(mine, db.inlinedTables));
    FilterAbsorbs((r: TableStatsRow) => r.tableId == id, (r: TableStatsRow) => r.tableId !in dead, db.tableStats);
    FilterAbsorbs((r: ColumnStatsRow) => r.tableId == id, (r: ColumnStatsRow) => r.tableId !in dead, db.columnStats);
  }

  /** A scan of a table at a retained snapshot reads the same files, statistics and inlined rows. */
  lemma ExpiryKeepsScans(db: Database, ids: set<int>, catalog: LoadedCatalog, dataPath: DucklakePath,
                         after: Database, s: int, id: int)
    requires Expire(db, ids, catalog, dataPath) == Some(after)
    requires s in SnapshotIds(db) && s !in ids
    requires Distinct(FileIds(db))
    requires TableVisible(db, s, id)
    ensures Scan(after, s, id) == Scan(db, s, id)
    ensures Filter((r: TableStatsRow) => r.tableId == id, after.tableStats)
         == Filter((r: TableStatsRow) => r.tableId == id, db.tableStats)
    ensures Filter((r: ColumnStatsRow) => r.tableId == id, after.columnStats)
         == Filter((r: ColumnStatsRow) => r.tableId == id, db.columnStats)
  {
    LiveSnapshots(db, ids);
    RetainedObjects(db, ids, catalog, dataPath, after, s);
    RetainedFiles(db, ids, catalog, dataPath, after, s);
    RetainedFileRows(db, ids, catalog, dataPath, after, s, id);
    KeptInlinedTables(db, ids, catalog, dataPath, after, s, id);
  }

  // ----- files and their locations -----

  lemma {:induction false} Partition<T>(p: T -> bool, q: T -> bool, s: seq<T>)
    requires forall x :: x in s ==> p(x) == !q(x)
    ensures multiset(s) == multiset(Filter(p, s)) + multiset(Filter(q, s))
  {
    if s != [] {
      Partition(p, q, s[1..]);
      assert multiset(s) == multiset{s[0]} + multiset(s[1..]) by { assert s == [s[0]] + s[1..]; }
      assert s[0] in s;
      if p(s[0]) {
        assert Filter(p, s) == [s[0]] + Filter(p, s[1..]) && Filter(q, s) == [] + Filter(q, s[1..]);
      } else {
        assert Filter(q, s) == [s[0]] + Filter(q, s[1..]) && Filter(p, s) == [] + Filter(p, s[1..]);
      }
    }
  }

  /** The rows that were scheduled by an expiry, in order: one for each expired file. */
  function NewlyScheduled(db: Database, ids: set<int>, catalog: LoadedCatalog, dataPath: DucklakePath)
    : Option<seq<ScheduledRow>>
  {
    var cut := DeleteSnapshots(db, ids);
    Schedule(ExpiredFiles(cut), id => DirectoryOf(cut, catalog, dataPath, id), dataPath)
  }

  /** Every file row either stays or is scheduled, each exactly once. */
  lemma ExpiryConservesFiles(db: Database, ids: set<int>, catalog: LoadedCatalog, dataPath: DucklakePath, after: Database)
    requires Expire(db, ids, catalog, dataPath) == Some(after)
    requires Distinct(FileIds(db))
    ensures
      var live := SnapshotIds(db) - ids;
      && after.dataFiles == ActiveRows(db.dataFiles, live)
      && after.deleteFiles == ActiveRows(db.deleteFiles, live)
      && multiset(db.dataFiles) == multiset(after.dataFiles) + multiset(InactiveRows(db.dataFiles, live))
      && multiset(db.deleteFiles) == multiset(after.deleteFiles) + multiset(InactiveRows(db.deleteFiles, live))
    ensures
      var files := ExpiredFiles(DeleteSnapshots(db, ids));
      var scheduled := NewlyScheduled(db, ids, catalog, dataPath);
      && scheduled.Some? && after.scheduled == db.scheduled + scheduled.value
      && |scheduled.value| == |files|
      && forall i :: 0 <= i < |files| ==> scheduled.value[i].fileId == files[i].fileId
  {
    LiveSnapshots(db, ids);
    AfterExpiryFiles(db, ids, catalog, dataPath, after);
    DeadFileIsInactive(db, ids);
    var live, dead := Live(db, ids), DeadFiles(db, ids);
    FilterCongruent((v: Versioned<DataFileRow>) => v.row.fileId !in dead,
                    (v: Versioned<DataFileRow>) => !Inactive(v, live), db.dataFiles);
    FilterCongruent((v: Versioned<DeleteFileRow>) => v.row.fileId !in dead,
                    (v: Versioned<DeleteFileRow>) => !Inactive(v, live), db.deleteFiles);
    Partition((v: Versioned<DataFileRow>) => !Inactive(v, live), (v: Versioned<DataFileRow>) => Inactive(v, live), db.dataFiles);
    Partition((v: Versioned<DeleteFileRow>) => !Inactive(v, live), (v: Versioned<DeleteFileRow>) => Inactive(v, live), db.deleteFiles);
  }

  /**
   * Clean-up finds a scheduled file where its table kept it exactly when what follows the data
   * path is a plain path reference, or no data path was stripped.
   */
  lemma ScheduledLocation(db: Database, ids: set<int>, catalog: LoadedCatalog, dataPath: DucklakePath, i: nat)
    requires IsDirectory(dataPath)
    requires NewlyScheduled(db, ids, catalog, dataPath).Some?
    requires i < |ExpiredFiles(DeleteSnapshots(db, ids))|
    ensures
      var cut := DeleteSnapshots(db, ids);
      var file := ExpiredFiles(cut)[i];
      var row := NewlyScheduled(db, ids, catalog, dataPath).value[i];
      var directory := DirectoryOf(cut, catalog, dataPath, file.tableId);
      && directory.Some? && Join(directory.value, file.path).Some? && Join(dataPath, row.path).Some?
      && (Join(dataPath, row.path).value.AsStr() == Join(directory.value, file.path).value.AsStr()
          <==> file.path.Absolute? || dataPath.Relative?
               || IsPathReference(SuffixUnder(Join(directory.value, file.path).value, dataPath)))
  {
    var cut := DeleteSnapshots(db, ids);
    var file := ExpiredFiles(cut)[i];
    match FindTable(catalog.tables, file.tableId) {
      case Some(t) =>
        ScheduledPathKeepsLocation(file.path, dataPath, OrNamed(t.schema.path, t.schema.name),
                                   OrNamed(t.table.path, t.table.name));
      case None =>
        var found := FetchTableAndSchema(cut.tables, cut.schemas, file.tableId);
        ScheduledPathKeepsLocation(file.path, dataPath, found.value.1.path, found.value.0.path);
    }
  }

  // ----- historical schemas -----

  /** The interval of `inner` lies within the interval of `outer`. */
  predicate Within<A, B>(inner: Versioned<A>, outer: Versioned<B>) {
    && outer.begin <= inner.begin
    && (outer.end.Some? ==> inner.end.Some? && inner.end.value <= outer.end.value)
  }

  /** Some version of schema `id` is valid whenever the row is. */
  ghost predicate InSchema<T>(db: Database, v: Versioned<T>, id: int) {
    exists w :: w in db.schemas && w.row.schemaId == id && Within(v, w)
  }

  /** Objects live inside their schema, and a table never changes its schema. */
  ghost predicate SchemasContain(db: Database) {
    && (forall v :: v in db.tables ==> InSchema(db, v, v.row.schemaId))
    && (forall v :: v in db.views ==> InSchema(db, v, v.row.schemaId))
    && (forall v :: v in db.macros ==> InSchema(db, v, v.row.schemaId))
    && (forall v, w :: v in db.tables && w in db.tables && v.row.tableId == w.row.tableId
                       ==> v.row.schemaId == w.row.schemaId)
    && (forall v, w :: v in db.schemas && w in db.schemas && v.row.schemaId == w.row.schemaId ==> v == w)
  }

  lemma WithinActive<A, B>(inner: Versioned<A>, outer: Versioned<B>, live: set<int>)
    requires Within(inner, outer) && !Inactive(inner, live)
    ensures !Inactive(outer, live)
  {
  }

  /** The schema of a table, view or macro that expiry keeps is kept as well. */
  lemma KeptObjectsKeepSchemas(db: Database, ids: set<int>, catalog: LoadedCatalog, dataPath: DucklakePath, after: Database)
    requires Expire(db, ids, catalog, dataPath) == Some(after)
    requires SchemasContain(db)
    ensures SchemasContain(after)
  {
    AfterExpiry(db, ids, catalog, dataPath, after);
    var live := Live(db, ids);
    forall v | v in after.tables ensures InSchema(after, v, v.row.schemaId) {
      var w :| w in db.schemas && w.row.schemaId == v.row.schemaId && Within(v, w);
      if Inactive(v, live) {
        var other :| other in db.tables && other.row.tableId == v.row.tableId && !Inactive(other, live);
        assert InSchema(db, other, other.row.schemaId);
        WithinActive(other, w, live);
      } else {
        WithinActive(v, w, live);
      }
      assert w in after.schemas;
    }
    forall v | v in after.views ensures InSchema(after, v, v.row.schemaId) {
      var w :| w in db.schemas && w.row.schemaId == v.row.schemaId && Within(v, w);
      WithinActive(v, w, live);
      assert w in after.schemas;
    }
    forall v | v in after.macros ensures InSchema(after, v, v.row.schemaId) {
      var w :| w in db.schemas && w.row.schemaId == v.row.schemaId && Within(v, w);
      WithinActive(v, w, live);
      assert w in after.schemas;
    }
  }

  lemma ContainedFindSchema<T>(db: Database, rows: seq<Versioned<T>>, schemaId: T -> int, s: int)
    requires forall v :: v in rows ==> InSchema(db, v, schemaId(v.row))
    ensures forall x :: x in View(rows, s) ==> FindSchema(View(db.schemas, s), schemaId(x)).Some?
  {
    forall x | x in View(rows, s) ensures FindSchema(View(db.schemas, s), schemaId(x)).Some? {
      var v :| v in rows && VisibleAt(v, s) && v.row == x;
      var w :| w in db.schemas && w.row.schemaId == schemaId(x) && Within(v, w);
      assert w.row in View(db.schemas, s);
    }
  }

  lemma ContainedSchemasPresent(db: Database, s: int)
    requires SchemasContain(db)
    ensures SchemasPresent(db, s)
  {
    ContainedFindSchema(db, db.tables, (t: TableRow) => t.schemaId, s);
    ContainedFindSchema(db, db.views, (v: ViewRow) => v.schemaId, s);
    ContainedFindSchema(db, db.macros, (m: MacroRow) => m.schemaId, s);
  }

  lemma {:induction false} SetTablesOk(tables: seq<TableRow>, schemas: seq<SchemaRow>, parts: int -> TableParts)
    ensures SetTables(tables, schemas, parts).Ok?
       <==> forall t :: t in tables ==> BuildTable(t, schemas, parts(t.tableId)).Ok?
  {
    if tables != [] {
      assert forall t :: t in tables <==> t == tables[0] || t in tables[1..];
      SetTablesOk(tables[1..], schemas, parts);
    }
  }

  lemma BuildTableIgnoresTags(table: TableRow, a: seq<SchemaRow>, b: seq<SchemaRow>, p: TableParts, q: TableParts)
    requires p.(tags := []) == q.(tags := [])
    requires FindSchema(b, table.schemaId).Some?
    requires BuildTable(table, a, p).Ok?
    ensures BuildTable(table, b, q).Ok?
  {
  }

  /** What is left of a kept table at any snapshot id: its versions, its columns, and it still builds. */
  lemma KeptTableAt(db: Database, ids: set<int>, catalog: LoadedCatalog, dataPath: DucklakePath, after: Database,
                    s: int, t: TableRow)
    requires Expire(db, ids, catalog, dataPath) == Some(after)
    requires SchemasContain(db) && Load(db, s).Ok?
    requires t in View(after.tables, s)
    ensures t.tableId !in DeadTables(db, ids)
    ensures ColumnsOf(after, s, t.tableId) == ColumnsOf(db, s, t.tableId)
    ensures BuildTable(t, View(after.schemas, s), PartsOf(after, s, t.tableId)).Ok?
  {
    AfterExpiry(db, ids, catalog, dataPath, after);
    KeptObjectsKeepSchemas(db, ids, catalog, dataPath, after);
    ContainedSchemasPresent(after, s);
    SetTablesOk(View(db.tables, s), View(db.schemas, s), id => PartsOf(db, s, id));
    var v :| v in after.tables && VisibleAt(v, s) && v.row == t;
    assert t in View(db.tables, s);
    KeptParts(db, ids, catalog, dataPath, after, s, t.tableId);
    BuildTableIgnoresTags(t, View(db.schemas, s), View(after.schemas, s),
                          PartsOf(db, s, t.tableId), PartsOf(after, s, t.tableId));
  }

  /**
   * After expiry every snapshot id, expired ones included, still loads without meeting an object
   * whose schema is gone, and gives each table that was kept the columns it had there before.
   */
  lemma HistoricalSchemasSurvive(db: Database, ids: set<int>, catalog: LoadedCatalog, dataPath: DucklakePath,
                                 after: Database, s: int)
    requires Expire(db, ids, catalog, dataPath) == Some(after)
    requires SchemasContain(db) && Load(db, s).Ok?
    ensures Load(after, s).Ok?
    ensures |Load(after, s).value.tables| == |View(after.tables, s)|
    ensures forall i :: 0 <= i < |View(after.tables, s)| ==>
              var t := Load(after, s).value.tables[i];
              t.table == View(after.tables, s)[i] && t.columns == ColumnsOf(db, s, t.table.tableId)
  {
    hide Expire, View, PartsOf, TagsOf, MacroPartsOf, BuildTable, FindSchema, InSchema, ColumnsOf;
    KeptObjectsKeepSchemas(db, ids, catalog, dataPath, after);
    ContainedSchemasPresent(after, s);
    var schemas := View(after.schemas, s);
    SetTablesOk(View(after.tables, s), schemas, id => PartsOf(after, s, id));
    forall t | t in View(after.tables, s)
      ensures BuildTable(t, schemas, PartsOf(after, s, t.tableId)).Ok?
      ensures ColumnsOf(after, s, t.tableId) == ColumnsOf(db, s, t.tableId)
    {
      KeptTableAt(db, ids, catalog, dataPath, after, s, t);
    }
    ViewsFindSchemas(View(after.views, s), schemas, id => TagsOf(after, s, id));
    MacrosFindSchemas(View(after.macros, s), schemas, id => MacroPartsOf(after, id));
    LoadWithSchemas(after, s);
  }

  /** The versions of a kept table are all still there, at every snapshot id. */
  lemma KeptTableKeepsVersions(db: Database, ids: set<int>, catalog: LoadedCatalog, dataPath: DucklakePath,
                               after: Database, s: int, id: int)
    requires Expire(db, ids, catalog, dataPath) == Some(after)
    requires id !in DeadTables(db, ids)
    ensures Filter((t: TableRow) => t.tableId == id, View(after.tables, s))
         == Filter((t: TableRow) => t.tableId == id, View(db.tables, s))
  {
    var dead := DeadTables(db, ids);
    SelectedViewOfKept(db.tables, (v: Versioned<TableRow>) => v.row.tableId !in dead, (t: TableRow) => t.tableId == id, s);
  }

  // ----- what expired snapshots lose -----

  /** A lake whose only objects are the schema `main` and a view that lives in snapshot 1 alone. */
  function LakeWithDroppedView(): Database {
    Database([SnapshotRow(1, 1, 2, 0), SnapshotRow(2, 2, 2, 0)], [],
             [Versioned(0, None, SchemaRow(0, "main", Relative("main/")))], [],
             [Versioned(1, Some(2), ViewRow(1, 0, "v", "SELECT 1"))], [], [], [], [], [], [], [], [], [], [], [], [],
             [], [], [], [], [], [], map[], [], [], [], [], [])
  }

  /** Only scheduling files can fail. */
  lemma NoFilesNoFailure(db: Database, ids: set<int>, catalog: LoadedCatalog, dataPath: DucklakePath)
    requires ExpiredFiles(DeleteSnapshots(db, ids)) == []
    ensures Expire(db, ids, catalog, dataPath).Some?
  {
    hide DirectoryOf, FindExpiredTables, ExpiredFiles, DeleteDangling, DeleteTables;
  }

  lemma DroppedViewExpires(catalog: LoadedCatalog, dataPath: DucklakePath)
    ensures
      var db := LakeWithDroppedView();
      var after := Expire(db, {1}, catalog, dataPath);
      && after.Some? && after.value.views == [] && after.value.macros == [] && after.value.tables == []
      && after.value.schemas == db.schemas
  {
    hide Expire;
    var db := LakeWithDroppedView();
    var cut := DeleteSnapshots(db, {1});
    assert cut.snapshots == [SnapshotRow(2, 2, 2, 0)];
    assert SnapshotIds(cut) == {2};
    assert ExpiredFiles(cut) == [];
    NoFilesNoFailure(db, {1}, catalog, dataPath);
    AfterExpiry(db, {1}, catalog, dataPath, Expire(db, {1}, catalog, dataPath).value);
    assert Live(db, {1}) == {2};
  }

  /** Loading a snapshot that sees only the schema and the given views. */
  lemma LoadViewsOnly(db: Database, s: int, main: SchemaRow, views: seq<ViewRow>)
    requires View(db.schemas, s) == [main] && View(db.tables, s) == [] && View(db.macros, s) == []
    requires View(db.views, s) == views && forall v :: v in views ==> v.schemaId == main.schemaId
    ensures Load(db, s).Ok? && |Load(db, s).value.views| == |views|
  {
    hide PartsOf, TagsOf, MacroPartsOf, View;
    assert FindSchema([main], main.schemaId) == Some(main);
    SetViewsLength(views, [main], id => TagsOf(db, s, id));
  }

  lemma {:induction false} SetViewsLength(views: seq<ViewRow>, schemas: seq<SchemaRow>, tags: int -> seq<TagRow>)
    requires forall v :: v in views ==> FindSchema(schemas, v.schemaId).Some?
    ensures SetViews(views, schemas, tags).Ok? && |SetViews(views, schemas, tags).value| == |views|
  {
    if views != [] {
      assert views[0] in views;
      SetViewsLength(views[1..], schemas, tags);
    }
  }

  /**
   * Only retained snapshots keep their whole catalog: expiring snapshot 1 deletes the view it
   * alone saw, so loading snapshot 1 afterwards differs from what a cache may still hold for it.
   */
  lemma ExpiredSnapshotCanLose(catalog: LoadedCatalog, dataPath: DucklakePath)
    ensures
      var db := LakeWithDroppedView();
      var after := Expire(db, {1}, catalog, dataPath);
      && after.Some? && Load(db, 1).Ok? && Load(after.value, 1).Ok?
      && |Load(db, 1).value.views| == 1 && Load(after.value, 1).value.views == []
  {
    hide Expire, Load;
    var db := LakeWithDroppedView();
    var main, view := SchemaRow(0, "main", Relative("main/")), ViewRow(1, 0, "v", "SELECT 1");
    DroppedViewExpires(catalog, dataPath);
    assert View(db.schemas, 1) == [main] && View(db.tables, 1) == [] && View(db.macros, 1) == [] && View(db.views, 1) == [view];
    LoadViewsOnly(db, 1, main, [view]);
    LoadViewsOnly(Expire(db, {1}, catalog, dataPath).value, 1, main, []);
  }
}
