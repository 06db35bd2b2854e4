/**
 * Rows that belong to other rows: commits and expiry leave none without its owner, expiry leaves
 * nothing that no retained snapshot needs, and a new object gets exactly the rows made for it.
 */
module References {
  import opened Prelude
  import opened Versions
  import opened Tags
  import opened Paths
  import opened Catalog
  import opened Persist
  import opened TimeTravel
  import opened Expiry
  import opened ExpirySafety
  import Histories

  // ----- owners -----

  ghost predicate TableHas(db: Database, id: int) { exists v :: v in db.tables && v.row.tableId == id }

  ghost predicate MacroHas(db: Database, id: int) { exists v :: v in db.macros && v.row.macroId == id }

  ghost predicate PartitionHas(db: Database, id: int, table: int) {
    exists v :: v in db.partitions && v.row.partitionId == id && v.row.tableId == table
  }

  ghost predicate SortHas(db: Database, id: int, table: int) {
    exists v :: v in db.sorts && v.row.sortId == id && v.row.tableId == table
  }

  ghost predicate DataFileHas(db: Database, id: int, table: int) {
    exists v :: v in db.dataFiles && v.row.fileId == id && v.row.tableId == table
  }

  ghost predicate TableRowsRefer(db: Database) {
    && (forall v :: v in db.columns ==> TableHas(db, v.row.tableId))
    && (forall v :: v in db.columnTags ==> TableHas(db, v.row.owner.0))
    && (forall v :: v in db.partitions ==> TableHas(db, v.row.tableId))
    && (forall v :: v in db.sorts ==> TableHas(db, v.row.tableId))
    && (forall r :: r in db.schemaVersions ==> TableHas(db, r.tableId))
    && (forall r :: r in db.inlinedTables ==> TableHas(db, r.tableId))
  }

  ghost predicate DetailRowsRefer(db: Database) {
    && (forall r :: r in db.partitionColumns ==> PartitionHas(db, r.partitionId, r.tableId))
    && (forall r :: r in db.sortExpressions ==> SortHas(db, r.sortId, r.tableId))
    && (forall r :: r in db.macroImpls ==> MacroHas(db, r.macroId))
    && (forall r :: r in db.macroParameters ==> MacroHas(db, r.macroId))
  }

  ghost predicate FileRowsRefer(db: Database) {
    && (forall r :: r in db.fileStats ==> DataFileHas(db, r.dataFileId, r.tableId))
    && (forall r :: r in db.partitionValues ==> DataFileHas(db, r.dataFileId, r.tableId))
  }

  /** Variant statistics, which other clients of the lake may write. */
  ghost predicate VariantRowsRefer(db: Database) {
    forall r :: r in db.fileVariantStats ==> DataFileHas(db, r.dataFileId, r.tableId)
  }

  ghost predicate ChangesRefer(db: Database) { forall r :: r in db.changes ==> r.snapshotId in SnapshotIds(db) }

  /** The inlined-data tables are exactly the registered ones. */
  ghost predicate InlinedRefer(db: Database) { forall k :: k in db.inlinedData <==> k in db.inlinedTables }

  /** Statistics and column mappings of tables, names of mappings, and options of tables and schemas. */
  ghost predicate SideRowsRefer(db: Database) {
    && (forall r :: r in db.tableStats ==> TableHas(db, r.tableId))
    && (forall r :: r in db.columnStats ==> TableHas(db, r.tableId))
    && (forall r :: r in db.columnMappings ==> TableHas(db, r.tableId))
    && (forall r :: r in db.nameMappings ==> exists q :: q in db.columnMappings && q.mappingId == r.mappingId)
    && (forall r :: r in db.options ==> ScopePresent(db, r.scope))
  }

  ghost predicate Refers(db: Database) {
    && TableRowsRefer(db) && DetailRowsRefer(db) && FileRowsRefer(db) && ChangesRefer(db) && InlinedRefer(db)
    && SideRowsRefer(db)
  }

  // ----- expiry -----

  /** The row is open, or a retained snapshot sees it. */
  ghost predicate Needed<T>(v: Versioned<T>, live: set<int>) { v.end.None? || exists s :: s in live && VisibleAt(v, s) }

  lemma NeededIffActive<T>(v: Versioned<T>, live: set<int>)
    ensures Needed(v, live) <==> !Inactive(v, live)
  {
    if v.end.Some? && !Inactive(v, live) {
      var s :| s in live && s >= v.begin && s < v.end.value;
      assert VisibleAt(v, s);
    }
  }

  /** Everything left is needed: each row itself, and of each table some version. */
  ghost predicate NoGarbage(db: Database) {
    var live := SnapshotIds(db);
    && (forall v :: v in db.schemas ==> Needed(v, live))
    && (forall v :: v in db.tags ==> Needed(v, live))
    && (forall v :: v in db.views ==> Needed(v, live))
    && (forall v :: v in db.macros ==> Needed(v, live))
    && (forall v :: v in db.dataFiles ==> Needed(v, live))
    && (forall v :: v in db.deleteFiles ==> Needed(v, live))
    && (forall v :: v in db.tables ==> exists w :: w in db.tables && w.row.tableId == v.row.tableId && Needed(w, live))
  }

  /** No row outlives the snapshots that see it, nor a table its last active version. */
  lemma ExpiryLeavesNoGarbage(db: Database, ids: set<int>, catalog: LoadedCatalog, dataPath: DucklakePath, after: Database)
    requires Expire(db, ids, catalog, dataPath) == Some(after)
    ensures NoGarbage(after)
  {
    hide Expire, View, Filter, Inactive, Needed;
    AfterExpiry(db, ids, catalog, dataPath, after);
    AfterExpiryFiles(db, ids, catalog, dataPath, after);
    ExpiredFilesGone(db, ids, catalog, dataPath, after);
    var live, dead := Live(db, ids), DeadTables(db, ids);
    forall v | v in after.tables
      ensures exists w :: w in after.tables && w.row.tableId == v.row.tableId && Needed(w, live)
    {
      var w: Versioned<TableRow> :| w in db.tables && w.row.tableId == v.row.tableId && !Inactive(w, live);
      NeededIffActive(w, live);
      assert w in after.tables;
    }
    forall v: Versioned<SchemaRow> ensures Needed(v, live) <==> !Inactive(v, live) { NeededIffActive(v, live); }
    forall v: Versioned<TagRow> ensures Needed(v, live) <==> !Inactive(v, live) { NeededIffActive(v, live); }
    forall v: Versioned<ViewRow> ensures Needed(v, live) <==> !Inactive(v, live) { NeededIffActive(v, live); }
    forall v: Versioned<MacroRow> ensures Needed(v, live) <==> !Inactive(v, live) { NeededIffActive(v, live); }
    forall v: Versioned<DataFileRow> ensures Needed(v, live) <==> !Inactive(v, live) { NeededIffActive(v, live); }
    forall v: Versioned<DeleteFileRow> ensures Needed(v, live) <==> !Inactive(v, live) { NeededIffActive(v, live); }
  }

  lemma ExpiredFilesGone(db: Database, ids: set<int>, catalog: LoadedCatalog, dataPath: DucklakePath, after: Database)
    requires Expire(db, ids, catalog, dataPath) == Some(after)
    ensures forall v :: v in after.dataFiles ==> !Inactive(v, Live(db, ids))
    ensures forall v :: v in after.deleteFiles ==> !Inactive(v, Live(db, ids))
  {
    hide Expire, View;
    AfterExpiryFiles(db, ids, catalog, dataPath, after);
    var cut := DeleteSnapshots(db, ids);
    forall v | v in db.dataFiles && Inactive(v, Live(db, ids)) ensures v.row.fileId in DeadFiles(db, ids) {
      assert v in InactiveRows(cut.dataFiles, SnapshotIds(cut));
    }
    forall v | v in db.deleteFiles && Inactive(v, Live(db, ids)) ensures v.row.fileId in DeadFiles(db, ids) {
      assert v in InactiveRows(cut.deleteFiles, SnapshotIds(cut));
    }
  }

  lemma ExpiryKeepsTableRows(db: Database, ids: set<int>, catalog: LoadedCatalog, dataPath: DucklakePath, after: Database)
    requires Expire(db, ids, catalog, dataPath) == Some(after) && TableRowsRefer(db)
    ensures TableRowsRefer(after)
  {
    hide Expire, View, DeadTables, Filter;
    AfterExpiry(db, ids, catalog, dataPath, after);
    AfterExpiryParts(db, ids, catalog, dataPath, after);
    Histories.AfterExpiryRegistrations(db, ids, catalog, dataPath, after);
    forall id | id !in DeadTables(db, ids) && TableHas(db, id) ensures TableHas(after, id) {
      var v :| v in db.tables && v.row.tableId == id;
      assert v in after.tables;
    }
  }

  /** What expiry does to the rows without an interval of their own. */
  lemma AfterExpiryDetails(db: Database, ids: set<int>, catalog: LoadedCatalog, dataPath: DucklakePath, after: Database)
    requires Expire(db, ids, catalog, dataPath) == Some(after)
    ensures after.partitionColumns == Filter((r: PartitionColumnRow) => r.tableId !in DeadTables(db, ids), db.partitionColumns)
    ensures after.sortExpressions == Filter((r: SortExpressionRow) => r.tableId !in DeadTables(db, ids), db.sortExpressions)
    ensures forall r :: r in after.macroImpls ==> MacroHas(after, r.macroId)
    ensures forall r :: r in after.macroParameters ==> MacroHas(after, r.macroId)
    ensures forall r :: r in after.changes ==> r.snapshotId in SnapshotIds(after)
  {
    hide Schedule, DirectoryOf, View;
  }

  lemma ExpiryKeepsDetails(db: Database, ids: set<int>, catalog: LoadedCatalog, dataPath: DucklakePath, after: Database)
    requires Expire(db, ids, catalog, dataPath) == Some(after) && DetailRowsRefer(db)
    ensures DetailRowsRefer(after) && ChangesRefer(after)
  {
    AfterExpiryParts(db, ids, catalog, dataPath, after);
    AfterExpiryDetails(db, ids, catalog, dataPath, after);
    forall r | r in after.partitionColumns ensures PartitionHas(after, r.partitionId, r.tableId) {
      var v :| v in db.partitions && v.row.partitionId == r.partitionId && v.row.tableId == r.tableId;
      assert v in after.partitions;
    }
    forall r | r in after.sortExpressions ensures SortHas(after, r.sortId, r.tableId) {
      var v :| v in db.sorts && v.row.sortId == r.sortId && v.row.tableId == r.tableId;
      assert v in after.sorts;
    }
  }

  lemma AfterExpiryFileRows(db: Database, ids: set<int>, catalog: LoadedCatalog, dataPath: DucklakePath, after: Database)
    requires Expire(db, ids, catalog, dataPath) == Some(after)
    ensures forall r :: r in after.fileStats ==> r in db.fileStats && exists v :: v in after.dataFiles && v.row.fileId == r.dataFileId
    ensures forall r :: r in after.partitionValues ==>
              r in db.partitionValues && exists v :: v in after.dataFiles && v.row.fileId == r.dataFileId
    ensures forall r :: r in after.fileVariantStats ==>
              r in db.fileVariantStats && exists v :: v in after.dataFiles && v.row.fileId == r.dataFileId
    ensures forall k :: k in after.inlinedData <==>
              k in db.inlinedData && !(k in db.inlinedTables && k.tableId in DeadTables(db, ids))
  {
  }

  lemma ExpiryKeepsFileRows(db: Database, ids: set<int>, catalog: LoadedCatalog, dataPath: DucklakePath, after: Database)
    requires Expire(db, ids, catalog, dataPath) == Some(after) && FileRowsRefer(db) && InlinedRefer(db)
    requires Distinct(FileIds(db))
    ensures FileRowsRefer(after) && InlinedRefer(after)
    ensures VariantRowsRefer(db) ==> VariantRowsRefer(after)
  {
    hide Expire, View, DeadTables, DeadFiles, Filter, FileIds;
    AfterExpiryFiles(db, ids, catalog, dataPath, after);
    AfterExpiryFileRows(db, ids, catalog, dataPath, after);
    Histories.AfterExpiryRegistrations(db, ids, catalog, dataPath, after);
    FileIdNamesOneRow(db);
    forall r | r in after.fileStats ensures DataFileHas(after, r.dataFileId, r.tableId) {
      var v :| v in after.dataFiles && v.row.fileId == r.dataFileId;
      assert DataFileHas(db, r.dataFileId, r.tableId);
    }
    forall r | r in after.partitionValues ensures DataFileHas(after, r.dataFileId, r.tableId) {
      var v :| v in after.dataFiles && v.row.fileId == r.dataFileId;
      assert DataFileHas(db, r.dataFileId, r.tableId);
    }
    if VariantRowsRefer(db) {
      forall r | r in after.fileVariantStats ensures DataFileHas(after, r.dataFileId, r.tableId) {
        var v :| v in after.dataFiles && v.row.fileId == r.dataFileId;
        assert DataFileHas(db, r.dataFileId, r.tableId);
      }
    }
  }

  lemma AfterExpirySides(db: Database, ids: set<int>, catalog: LoadedCatalog, dataPath: DucklakePath, after: Database)
    requires Expire(db, ids, catalog, dataPath) == Some(after)
    ensures after.tableStats == Filter((r: TableStatsRow) => r.tableId !in DeadTables(db, ids), db.tableStats)
    ensures after.columnStats == Filter((r: ColumnStatsRow) => r.tableId !in DeadTables(db, ids), db.columnStats)
    ensures after.columnMappings == Filter((r: ColumnMappingRow) => r.tableId !in DeadTables(db, ids), db.columnMappings)
  {
    hide Schedule, DirectoryOf, View, FindExpiredTables, ExpiredFileIds;
  }

  lemma AfterExpiryNames(db: Database, ids: set<int>, catalog: LoadedCatalog, dataPath: DucklakePath, after: Database)
    requires Expire(db, ids, catalog, dataPath) == Some(after)
    ensures forall r :: r in after.nameMappings ==> exists q :: q in after.columnMappings && q.mappingId == r.mappingId
    ensures forall r :: r in after.options ==> ScopePresent(after, r.scope)
  {
    hide Schedule, DirectoryOf, View, FindExpiredTables, ExpiredFileIds;
  }

  lemma ExpiryKeepsSides(db: Database, ids: set<int>, catalog: LoadedCatalog, dataPath: DucklakePath, after: Database)
    requires Expire(db, ids, catalog, dataPath) == Some(after) && SideRowsRefer(db)
    ensures SideRowsRefer(after)
  {
    hide Expire, View, DeadTables, Filter;
    AfterExpiry(db, ids, catalog, dataPath, after);
    AfterExpirySides(db, ids, catalog, dataPath, after);
    AfterExpiryNames(db, ids, catalog, dataPath, after);
    forall id | id !in DeadTables(db, ids) && TableHas(db, id) ensures TableHas(after, id) {
      var v :| v in db.tables && v.row.tableId == id;
      assert v in after.tables;
    }
  }

  /** Expiry deletes every row with its owner, and only then. */
  lemma ExpiryKeepsReferences(db: Database, ids: set<int>, catalog: LoadedCatalog, dataPath: DucklakePath, after: Database)
    requires Expire(db, ids, catalog, dataPath) == Some(after)
    requires Refers(db) && Distinct(FileIds(db))
    ensures Refers(after)
    ensures VariantRowsRefer(db) ==> VariantRowsRefer(after)
  {
    hide Expire, TableRowsRefer, DetailRowsRefer, FileRowsRefer, VariantRowsRefer, ChangesRefer, InlinedRefer, SideRowsRefer;
    ExpiryKeepsSides(db, ids, catalog, dataPath, after);
    ExpiryKeepsTableRows(db, ids, catalog, dataPath, after);
    ExpiryKeepsDetails(db, ids, catalog, dataPath, after);
    ExpiryKeepsFileRows(db, ids, catalog, dataPath, after);
  }

  /** A table that is left: it has no version in the database, or one that is still needed. */
  ghost predicate TableLeft(db: Database, live: set<int>, id: int) {
    !TableHas(db, id) || exists v :: v in db.tables && v.row.tableId == id && Needed(v, live)
  }

  lemma TableLeftIff(db: Database, ids: set<int>, id: int)
    ensures TableLeft(db, Live(db, ids), id) <==> id !in DeadTables(db, ids)
  {
    var live := Live(db, ids);
    forall v: Versioned<TableRow> ensures Needed(v, live) <==> !Inactive(v, live) { NeededIffActive(v, live); }
    hide Needed, Inactive;
    if TableHas(db, id) && id !in DeadTables(db, ids) {
      var v :| v in db.tables && v.row.tableId == id;
    }
  }

  /** Of the rows of tables exactly those of tables that are left are kept. */
  lemma ExpiryKeepsRowsOfTables(db: Database, ids: set<int>, catalog: LoadedCatalog, dataPath: DucklakePath, after: Database)
    requires Expire(db, ids, catalog, dataPath) == Some(after)
    ensures
      var live := Live(db, ids);
      && (forall v :: v in after.tables <==> v in db.tables && TableLeft(db, live, v.row.tableId))
      && (forall v :: v in after.columns <==> v in db.columns && TableLeft(db, live, v.row.tableId))
      && (forall v :: v in after.columnTags <==> v in db.columnTags && TableLeft(db, live, v.row.owner.0))
      && (forall v :: v in after.partitions <==> v in db.partitions && TableLeft(db, live, v.row.tableId))
      && (forall v :: v in after.sorts <==> v in db.sorts && TableLeft(db, live, v.row.tableId))
      && (forall r :: r in after.partitionColumns <==> r in db.partitionColumns && TableLeft(db, live, r.tableId))
      && (forall r :: r in after.sortExpressions <==> r in db.sortExpressions && TableLeft(db, live, r.tableId))
      && (forall r :: r in after.schemaVersions <==> r in db.schemaVersions && TableLeft(db, live, r.tableId))
      && (forall r :: r in after.inlinedTables <==> r in db.inlinedTables && TableLeft(db, live, r.tableId))
      && (forall r :: r in after.tableStats <==> r in db.tableStats && TableLeft(db, live, r.tableId))
      && (forall r :: r in after.columnStats <==> r in db.columnStats && TableLeft(db, live, r.tableId))
      && (forall r :: r in after.columnMappings <==> r in db.columnMappings && TableLeft(db, live, r.tableId))
  {
    hide Expire, View, DeadTables, TableLeft, Filter, Inactive, Live;
    AfterExpiry(db, ids, catalog, dataPath, after);
    AfterExpiryParts(db, ids, catalog, dataPath, after);
    AfterExpiryDetails(db, ids, catalog, dataPath, after);
    AfterExpirySides(db, ids, catalog, dataPath, after);
    Histories.AfterExpiryRegistrations(db, ids, catalog, dataPath, after);
    forall id ensures TableLeft(db, Live(db, ids), id) <==> id !in DeadTables(db, ids) {
      TableLeftIff(db, ids, id);
    }
  }

  /** Of schemas, views, macros and their tags exactly the rows are kept that are open or that a retained snapshot sees. */
  lemma ExpiryKeepsNeededRows(db: Database, ids: set<int>, catalog: LoadedCatalog, dataPath: DucklakePath, after: Database)
    requires Expire(db, ids, catalog, dataPath) == Some(after)
    ensures
      var live := SnapshotIds(after);
      && (forall v :: v in after.schemas <==> v in db.schemas && Needed(v, live))
      && (forall v :: v in after.views <==> v in db.views && Needed(v, live))
      && (forall v :: v in after.macros <==> v in db.macros && Needed(v, live))
      && (forall v :: v in after.tags <==> v in db.tags && Needed(v, live))
  {
    hide Expire, View, DeadTables, Needed, Filter, Inactive;
    AfterExpiry(db, ids, catalog, dataPath, after);
    var live := SnapshotIds(after);
    forall v: Versioned<SchemaRow> ensures Needed(v, live) <==> !Inactive(v, live) { NeededIffActive(v, live); }
    forall v: Versioned<TagRow> ensures Needed(v, live) <==> !Inactive(v, live) { NeededIffActive(v, live); }
    forall v: Versioned<ViewRow> ensures Needed(v, live) <==> !Inactive(v, live) { NeededIffActive(v, live); }
    forall v: Versioned<MacroRow> ensures Needed(v, live) <==> !Inactive(v, live) { NeededIffActive(v, live); }
  }

  /** Of the rows that belong to other rows exactly those whose owner is left are kept. */
  lemma ExpiryKeepsOwnedRows(db: Database, ids: set<int>, catalog: LoadedCatalog, dataPath: DucklakePath, after: Database)
    requires Expire(db, ids, catalog, dataPath) == Some(after)
    ensures forall r :: r in after.changes <==> r in db.changes && exists q :: q in after.snapshots && q.id == r.snapshotId
    ensures forall r :: r in after.nameMappings <==>
              r in db.nameMappings && exists q :: q in after.columnMappings && q.mappingId == r.mappingId
    ensures forall r :: r in after.macroImpls <==> r in db.macroImpls && exists v :: v in after.macros && v.row.macroId == r.macroId
    ensures forall r :: r in after.macroParameters <==>
              r in db.macroParameters && exists v :: v in after.macros && v.row.macroId == r.macroId
    ensures forall r :: r in after.fileStats <==> r in db.fileStats && exists v :: v in after.dataFiles && v.row.fileId == r.dataFileId
    ensures forall r :: r in after.fileVariantStats <==>
              r in db.fileVariantStats && exists v :: v in after.dataFiles && v.row.fileId == r.dataFileId
    ensures forall r :: r in after.partitionValues <==>
              r in db.partitionValues && exists v :: v in after.dataFiles && v.row.fileId == r.dataFileId
    ensures forall r :: r in after.options <==>
              r in db.options
              && (r.scope.OfSchema? ==> exists v :: v in after.schemas && v.row.schemaId == r.scope.schemaId)
              && (r.scope.OfTable? ==> exists v :: v in after.tables && v.row.tableId == r.scope.tableId)
  {
    hide Filter, MarkFiles, FindExpiredTables, ActiveRows, Inactive;
    var cut := DeleteSnapshots(db, ids);
    var marked := MarkFiles(cut, catalog, dataPath);
    MarkKeepsOwned(cut, catalog, dataPath);
    var before := DeleteInactiveObjects(DeleteTables(marked.value, FindExpiredTables(cut)));
    assert after == DeleteDangling(before);
    DanglingIs(before);
  }

  lemma MarkKeepsOwned(db: Database, catalog: LoadedCatalog, dataPath: DucklakePath)
    ensures
      var marked := MarkFiles(db, catalog, dataPath);
      marked.Some? ==>
        && marked.value.changes == db.changes && marked.value.nameMappings == db.nameMappings
        && marked.value.macroImpls == db.macroImpls && marked.value.macroParameters == db.macroParameters
        && marked.value.fileStats == db.fileStats && marked.value.fileVariantStats == db.fileVariantStats
        && marked.value.partitionValues == db.partitionValues && marked.value.options == db.options
  {
  }

  lemma DanglingIs(db: Database)
    ensures
      var after := DeleteDangling(db);
      && after.snapshots == db.snapshots && after.columnMappings == db.columnMappings && after.macros == db.macros
      && after.dataFiles == db.dataFiles && after.schemas == db.schemas && after.tables == db.tables
      && (forall r :: r in after.changes <==> r in db.changes && exists q :: q in db.snapshots && q.id == r.snapshotId)
      && (forall r :: r in after.nameMappings <==>
            r in db.nameMappings && exists q :: q in db.columnMappings && q.mappingId == r.mappingId)
      && (forall r :: r in after.macroImpls <==> r in db.macroImpls && exists v :: v in db.macros && v.row.macroId == r.macroId)
      && (forall r :: r in after.macroParameters <==>
            r in db.macroParameters && exists v :: v in db.macros && v.row.macroId == r.macroId)
      && (forall r :: r in after.fileStats <==> r in db.fileStats && exists v :: v in db.dataFiles && v.row.fileId == r.dataFileId)
      && (forall r :: r in after.fileVariantStats <==>
            r in db.fileVariantStats && exists v :: v in db.dataFiles && v.row.fileId == r.dataFileId)
      && (forall r :: r in after.partitionValues <==>
            r in db.partitionValues && exists v :: v in db.dataFiles && v.row.fileId == r.dataFileId)
      && (forall r :: r in after.options <==>
            r in db.options
            && (r.scope.OfSchema? ==> exists v :: v in db.schemas && v.row.schemaId == r.scope.schemaId)
            && (r.scope.OfTable? ==> exists v :: v in db.tables && v.row.tableId == r.scope.tableId))
  {
    forall r: OptionRow
      ensures ScopePresent(db, r.scope)
         <==> && (r.scope.OfSchema? ==> exists v :: v in db.schemas && v.row.schemaId == r.scope.schemaId)
              && (r.scope.OfTable? ==> exists v :: v in db.tables && v.row.tableId == r.scope.tableId)
    {
    }
  }

  // ----- commits -----

  ghost predicate KnownTable(db: Database, ch: TransactionChanges, id: int) {
    TableHas(db, id) || exists t :: t in ch.newTables && t.tableId == id
  }

  /** Changes insert dependent rows beside their owner, or below an owner that is there. */
  ghost predicate InsertsRefer(db: Database, ch: TransactionChanges) {
    && (forall v :: v in ch.newColumns ==> KnownTable(db, ch, v.row.tableId))
    && (forall t :: t in ch.newColumnTags ==> KnownTable(db, ch, t.owner.0))
    && (forall e :: e in ch.columnTags ==> KnownTable(db, ch, e.owner.0))
    && (forall v :: v in ch.newPartitions ==> KnownTable(db, ch, v.row.tableId))
    && (forall v :: v in ch.newSorts ==> KnownTable(db, ch, v.row.tableId))
    && (forall id :: id in ch.schemaChangedTables ==> KnownTable(db, ch, id))
    && (forall id :: id in ch.inlineTables ==> KnownTable(db, ch, id))
  }

  ghost predicate DetailsRefer(ch: TransactionChanges) {
    && (forall r :: r in ch.newPartitionColumns ==>
          exists v :: v in ch.newPartitions && v.row.partitionId == r.partitionId && v.row.tableId == r.tableId)
    && (forall r :: r in ch.newSortExpressions ==>
          exists v :: v in ch.newSorts && v.row.sortId == r.sortId && v.row.tableId == r.tableId)
    && (forall r :: r in ch.newMacroImpls ==> exists m :: m in ch.newMacros && m.macroId == r.macroId)
    && (forall r :: r in ch.newMacroParameters ==> exists m :: m in ch.newMacros && m.macroId == r.macroId)
    && (forall r :: r in ch.fileStats ==> exists f :: f in ch.dataFiles && f.fileId == r.dataFileId && f.tableId == r.tableId)
    && (forall r :: r in ch.partitionValues ==> exists f :: f in ch.dataFiles && f.fileId == r.dataFileId && f.tableId == r.tableId)
  }

  /** Ending rows and adding rows keeps what holds of all old rows and of the added ones. */
  lemma AdvanceRefers<T>(rows: seq<Versioned<T>>, p: T -> bool, n: int, added: seq<Versioned<T>>, ok: T -> bool)
    requires forall v :: v in rows ==> ok(v.row)
    requires forall v :: v in added ==> ok(v.row)
    ensures forall v :: v in Advance(rows, p, n, added) ==> ok(v.row)
  {
    var retired := Retire(rows, p, n);
    forall v | v in retired ensures ok(v.row) {
      var i :| 0 <= i < |retired| && retired[i] == v;
      assert rows[i] in rows;
    }
  }

  /** It loses no row either. */
  lemma AdvanceKeeps<T>(rows: seq<Versioned<T>>, p: T -> bool, n: int, added: seq<Versioned<T>>)
    ensures forall v :: v in rows ==> exists w :: w in Advance(rows, p, n, added) && w.row == v.row
    ensures forall v :: v in added ==> v in Advance(rows, p, n, added)
  {
    var retired := Retire(rows, p, n);
    forall v | v in rows ensures exists w :: w in Advance(rows, p, n, added) && w.row == v.row {
      var i :| 0 <= i < |rows| && rows[i] == v;
      assert retired[i] in Advance(rows, p, n, added);
    }
  }

  lemma InsertedRows<T>(rows: seq<T>, n: int)
    ensures forall v :: v in Inserted(rows, n) ==> v.row in rows
    ensures forall x :: x in rows ==> Versioned(n, None, x) in Inserted(rows, n)
  {
    var inserted := Inserted(rows, n);
    forall x | x in rows ensures Versioned(n, None, x) in inserted {
      var i :| 0 <= i < |rows| && rows[i] == x;
      assert inserted[i] == Versioned(n, None, x);
    }
  }

  lemma {:induction false} InsertsOwners<K>(pending: seq<Edits<K>>, round: nat, n: int)
    ensures forall v :: v in Inserts(pending, round, n) ==> exists e :: e in pending && e.owner == v.row.owner
  {
    if pending != [] {
      InsertsOwners(pending[1..], round, n);
      assert pending[0] in pending;
    }
  }

  lemma {:induction false} RoundsRefer<K>(rows: seq<Versioned<Tag<K>>>, pending: seq<Edits<K>>, round: nat, n: int,
                                          same: (string, string) -> bool, ok: K -> bool)
    requires forall v :: v in rows ==> ok(v.row.owner)
    requires forall e :: e in pending ==> ok(e.owner)
    ensures forall v :: v in RunRounds(rows, pending, round, n, same) ==> ok(v.row.owner)
    decreases round
  {
    if round > 0 {
      var earlier: nat := round - 1;
      var before := RunRounds(rows, pending, earlier, n, same);
      RoundsRefer(rows, pending, earlier, n, same, ok);
      InsertsOwners(pending, earlier, n);
      AdvanceRefers(before, Matching(Retirements(pending, earlier), same), n, Inserts(pending, earlier, n), (t: Tag<K>) => ok(t.owner));
    }
  }

  lemma TagsRefer<K>(rows: seq<Versioned<Tag<K>>>, ends: Tag<K> -> bool, added: seq<Tag<K>>, edits: seq<Edits<K>>, n: int,
                     same: (string, string) -> bool, ok: K -> bool)
    requires forall v :: v in rows ==> ok(v.row.owner)
    requires forall t :: t in added ==> ok(t.owner)
    requires forall e :: e in edits ==> ok(e.owner)
    ensures forall v :: v in PersistedTags(rows, ends, added, edits, n, same) ==> ok(v.row.owner)
  {
    InsertedRows(added, n);
    AdvanceRefers(rows, ends, n, Inserted(added, n), (t: Tag<K>) => ok(t.owner));
    RoundsRefer(Advance(rows, ends, n, Inserted(added, n)), edits, LongestEdits(edits), n, same, ok);
  }

  /** The tables of the database and of the commit are all in the new database. */
  lemma TablesStay(db: Database, ch: TransactionChanges, n: int)
    ensures forall v :: v in db.tables ==> exists w :: w in PersistedTables(db.tables, ch, n) && w.row.tableId == v.row.tableId
    ensures forall t :: t in ch.newTables ==> exists w :: w in PersistedTables(db.tables, ch, n) && w.row.tableId == t.tableId
  {
    hide RenamedCopies, Retire;
    var copies := RenamedCopies(Retire(db.tables, TableEnds(ch), n), ch.renamedTables, n);
    InsertedRows(ch.newTables, n);
    AdvanceKeeps(db.tables, TableEnds(ch), n, copies + Inserted(ch.newTables, n));
    forall t | t in ch.newTables ensures exists w :: w in PersistedTables(db.tables, ch, n) && w.row.tableId == t.tableId {
      var w := Versioned(n, None, t);
      assert w in copies + Inserted(ch.newTables, n);
      assert w in PersistedTables(db.tables, ch, n);
    }
  }

  /** The relations of a persisted commit that refer to tables. */
  lemma PersistedTableRows(db: Database, ch: TransactionChanges, info: SnapshotRow, made: string, same: (string, string) -> bool,
                           inlined: map<InlinedTableRow, seq<Versioned<string>>>)
    ensures
      var after, n := Persisted(db, ch, info, made, same, inlined), info.id;
      && after.tables == PersistedTables(db.tables, ch, n)
      && after.columns == Advance(db.columns, ColumnEnds(ch), n, ch.newColumns)
      && after.columnTags == PersistedTags(db.columnTags, ColumnTagEnds(ch), ch.newColumnTags, ch.columnTags, n, same)
      && after.partitions == Advance(db.partitions, PartitionEnds(ch), n, ch.newPartitions)
      && after.sorts == Advance(db.sorts, SortEnds(ch), n, ch.newSorts)
      && after.schemaVersions == db.schemaVersions + Map((id: int) => SchemaVersionRow(n, info.schemaVersion, id), ch.schemaChangedTables)
      && after.inlinedTables == db.inlinedTables + Map((id: int) => InlinedTableRow(id, info.schemaVersion), ch.inlineTables)
  {
    hide Advance, PersistedTags, PersistedTables, Inserted, Map, Attached;
  }

  lemma KnownStays(db: Database, ch: TransactionChanges, info: SnapshotRow, made: string, same: (string, string) -> bool,
                   inlined: map<InlinedTableRow, seq<Versioned<string>>>)
    ensures forall id :: KnownTable(db, ch, id) ==> TableHas(Persisted(db, ch, info, made, same, inlined), id)
  {
    hide Persisted, PersistedTables;
    PersistedTableRows(db, ch, info, made, same, inlined);
    TablesStay(db, ch, info.id);
  }

  lemma CommitKeepsTableRows(db: Database, ch: TransactionChanges, info: SnapshotRow, made: string, same: (string, string) -> bool,
                             inlined: map<InlinedTableRow, seq<Versioned<string>>>)
    requires TableRowsRefer(db) && InsertsRefer(db, ch)
    ensures TableRowsRefer(Persisted(db, ch, info, made, same, inlined))
  {
    hide Persisted, PersistedTables, PersistedTags, Advance, View, TableHas;
    var after, n := Persisted(db, ch, info, made, same, inlined), info.id;
    PersistedTableRows(db, ch, info, made, same, inlined);
    KnownStays(db, ch, info, made, same, inlined);
    assert forall id :: TableHas(db, id) ==> KnownTable(db, ch, id);
    AdvanceRefers(db.columns, ColumnEnds(ch), n, ch.newColumns, (c: ColumnRow) => TableHas(after, c.tableId));
    AdvanceRefers(db.partitions, PartitionEnds(ch), n, ch.newPartitions, (p: PartitionRow) => TableHas(after, p.tableId));
    AdvanceRefers(db.sorts, SortEnds(ch), n, ch.newSorts, (p: SortRow) => TableHas(after, p.tableId));
    TagsRefer(db.columnTags, ColumnTagEnds(ch), ch.newColumnTags, ch.columnTags, n, same, (o: (int, int)) => TableHas(after, o.0));
  }

  /** The rows without an interval of their own after a commit, and what they refer to. */
  lemma PersistedDetailRows(db: Database, ch: TransactionChanges, info: SnapshotRow, made: string, same: (string, string) -> bool,
                            inlined: map<InlinedTableRow, seq<Versioned<string>>>)
    ensures
      var after, n := Persisted(db, ch, info, made, same, inlined), info.id;
      && after.macros == Advance(db.macros, MacroEnds(ch), n, Inserted(ch.newMacros, n))
      && after.partitions == Advance(db.partitions, PartitionEnds(ch), n, ch.newPartitions)
      && after.sorts == Advance(db.sorts, SortEnds(ch), n, ch.newSorts)
      && after.partitionColumns == db.partitionColumns + ch.newPartitionColumns
      && after.sortExpressions == db.sortExpressions + ch.newSortExpressions
      && after.macroImpls == db.macroImpls + ch.newMacroImpls
      && after.macroParameters == db.macroParameters + ch.newMacroParameters
      && after.snapshots == db.snapshots + [info] && after.changes == db.changes + [ChangesRow(n, made)]
  {
    hide Advance, PersistedTags, PersistedTables, Inserted, Map, Attached;
  }

  lemma CommitKeepsDetails(db: Database, ch: TransactionChanges, info: SnapshotRow, made: string, same: (string, string) -> bool,
                           inlined: map<InlinedTableRow, seq<Versioned<string>>>)
    requires DetailRowsRefer(db) && DetailsRefer(ch) && ChangesRefer(db)
    ensures DetailRowsRefer(Persisted(db, ch, info, made, same, inlined))
    ensures ChangesRefer(Persisted(db, ch, info, made, same, inlined))
  {
    hide Persisted, Advance, View, Inserted;
    var n := info.id;
    PersistedDetailRows(db, ch, info, made, same, inlined);
    AdvanceKeeps(db.macros, MacroEnds(ch), n, Inserted(ch.newMacros, n));
    AdvanceKeeps(db.partitions, PartitionEnds(ch), n, ch.newPartitions);
    AdvanceKeeps(db.sorts, SortEnds(ch), n, ch.newSorts);
    InsertedRows(ch.newMacros, n);
    var after := Persisted(db, ch, info, made, same, inlined);
    forall r | r in after.changes ensures r.snapshotId in SnapshotIds(after) {
      if r in db.changes {
        var q :| q in db.snapshots && q.id == r.snapshotId;
        assert q in after.snapshots;
      } else {
        assert info in after.snapshots;
      }
    }
  }

  lemma PersistedFileRows(db: Database, ch: TransactionChanges, info: SnapshotRow, made: string, same: (string, string) -> bool,
                          inlined: map<InlinedTableRow, seq<Versioned<string>>>)
    ensures
      var after, n := Persisted(db, ch, info, made, same, inlined), info.id;
      && after.dataFiles
         == Advance(Attached(db.dataFiles, DataFileTable(), ch.detachedTables), DataFileEnds(ch), n, Inserted(ch.dataFiles, n))
      && after.fileStats == Filter((r: FileStatsRow) => r.tableId !in ch.detachedTables, db.fileStats) + ch.fileStats
      && after.partitionValues
         == Filter((r: PartitionValueRow) => r.tableId !in ch.detachedTables, db.partitionValues) + ch.partitionValues
      && after.inlinedData == inlined
      && after.inlinedTables == db.inlinedTables + Map((id: int) => InlinedTableRow(id, info.schemaVersion), ch.inlineTables)
  {
    hide Advance, PersistedTags, PersistedTables, Inserted, Map, Attached;
  }

  lemma DataFilesStay(db: Database, ch: TransactionChanges, info: SnapshotRow, made: string, same: (string, string) -> bool,
                      inlined: map<InlinedTableRow, seq<Versioned<string>>>, id: int, table: int)
    ensures DataFileHas(db, id, table) && table !in ch.detachedTables ==>
              DataFileHas(Persisted(db, ch, info, made, same, inlined), id, table)
    ensures (exists f :: f in ch.dataFiles && f.fileId == id && f.tableId == table) ==>
              DataFileHas(Persisted(db, ch, info, made, same, inlined), id, table)
  {
    hide Persisted, Advance, View, Inserted;
    PersistedFileRows(db, ch, info, made, same, inlined);
    var rows := Attached(db.dataFiles, DataFileTable(), ch.detachedTables);
    AdvanceKeeps(rows, DataFileEnds(ch), info.id, Inserted(ch.dataFiles, info.id));
    InsertedRows(ch.dataFiles, info.id);
    if DataFileHas(db, id, table) && table !in ch.detachedTables {
      var v :| v in db.dataFiles && v.row.fileId == id && v.row.tableId == table;
      assert v in rows;
    }
  }

  /** Detaching takes the files of a table together with their statistics and partition values. */
  lemma CommitKeepsFileRows(db: Database, ch: TransactionChanges, info: SnapshotRow, made: string, same: (string, string) -> bool,
                            inlined: map<InlinedTableRow, seq<Versioned<string>>>)
    requires FileRowsRefer(db) && DetailsRefer(ch)
    ensures FileRowsRefer(Persisted(db, ch, info, made, same, inlined))
  {
    hide Persisted, View, Advance, DataFileHas;
    var after := Persisted(db, ch, info, made, same, inlined);
    PersistedFileRows(db, ch, info, made, same, inlined);
    forall r | r in after.fileStats ensures DataFileHas(after, r.dataFileId, r.tableId) {
      DataFilesStay(db, ch, info, made, same, inlined, r.dataFileId, r.tableId);
    }
    forall r | r in after.partitionValues ensures DataFileHas(after, r.dataFileId, r.tableId) {
      DataFilesStay(db, ch, info, made, same, inlined, r.dataFileId, r.tableId);
    }
  }

  lemma PersistedVariants(db: Database, ch: TransactionChanges, info: SnapshotRow, made: string, same: (string, string) -> bool,
                          inlined: map<InlinedTableRow, seq<Versioned<string>>>)
    ensures Persisted(db, ch, info, made, same, inlined).fileVariantStats == db.fileVariantStats
  {
    hide Advance, PersistedTags, PersistedTables, Inserted, Map, Attached, Filter;
  }

  /** The data files of a detached table are gone, unless the commit writes a file of that id. */
  lemma DetachedGone(db: Database, ch: TransactionChanges, info: SnapshotRow, made: string, same: (string, string) -> bool,
                     inlined: map<InlinedTableRow, seq<Versioned<string>>>, id: int, table: int)
    requires table in ch.detachedTables && forall f :: f in ch.dataFiles ==> f.fileId != id
    ensures !DataFileHas(Persisted(db, ch, info, made, same, inlined), id, table)
  {
    hide Persisted, View, Advance, Inserted;
    PersistedFileRows(db, ch, info, made, same, inlined);
    var rows := Attached(db.dataFiles, DataFileTable(), ch.detachedTables);
    InsertedRows(ch.dataFiles, info.id);
    AdvanceRefers(rows, DataFileEnds(ch), info.id, Inserted(ch.dataFiles, info.id), (f: DataFileRow) => f.fileId != id || f.tableId != table);
  }

  /**
   * Detaching does not take variant statistics along: exactly if a detached table has some, the
   * commit leaves statistics without their file, until the next expiry deletes them.
   */
  lemma CommitKeepsVariantsIff(db: Database, ch: TransactionChanges, info: SnapshotRow, made: string, same: (string, string) -> bool,
                               inlined: map<InlinedTableRow, seq<Versioned<string>>>)
    requires VariantRowsRefer(db)
    requires forall f, v :: f in ch.dataFiles && v in db.dataFiles ==> f.fileId != v.row.fileId
    ensures VariantRowsRefer(Persisted(db, ch, info, made, same, inlined))
       <==> forall r :: r in db.fileVariantStats ==> r.tableId !in ch.detachedTables
  {
    hide Persisted, DataFileHas;
    PersistedVariants(db, ch, info, made, same, inlined);
    forall r | r in db.fileVariantStats
      ensures DataFileHas(Persisted(db, ch, info, made, same, inlined), r.dataFileId, r.tableId) <==> r.tableId !in ch.detachedTables
    {
      DataFilesStay(db, ch, info, made, same, inlined, r.dataFileId, r.tableId);
      OldFile(db, ch, r);
      if r.tableId in ch.detachedTables {
        DetachedGone(db, ch, info, made, same, inlined, r.dataFileId, r.tableId);
      }
    }
  }

  lemma OldFile(db: Database, ch: TransactionChanges, r: FileStatsRow)
    requires DataFileHas(db, r.dataFileId, r.tableId)
    requires forall f, v :: f in ch.dataFiles && v in db.dataFiles ==> f.fileId != v.row.fileId
    ensures forall f :: f in ch.dataFiles ==> f.fileId != r.dataFileId
  {
  }

  lemma {:induction false} CreatedKeys(data: map<InlinedTableRow, seq<Versioned<string>>>, ids: seq<int>, schemaVersion: int)
    requires CreateInlined(data, ids, schemaVersion).Some?
    ensures forall k :: k in CreateInlined(data, ids, schemaVersion).value
                   <==> k in data || k in Map((id: int) => InlinedTableRow(id, schemaVersion), ids)
    decreases ids
  {
    if ids != [] {
      CreatedKeys(data[InlinedTableRow(ids[0], schemaVersion) := []], ids[1..], schemaVersion);
    }
  }

  lemma {:induction false} WrittenKeys(data: map<InlinedTableRow, seq<Versioned<string>>>, registered: seq<InlinedTableRow>,
                                       created: seq<int>, writes: seq<(int, seq<string>)>, schemaVersion: int, n: int)
    requires WriteInlined(data, registered, created, writes, schemaVersion, n).Some?
    ensures WriteInlined(data, registered, created, writes, schemaVersion, n).value.Keys == data.Keys
    decreases writes
  {
    if writes != [] {
      var key := InlineTarget(registered, created, writes[0].0, schemaVersion).value;
      WrittenKeys(data[key := data[key] + Inserted(writes[0].1, n)], registered, created, writes[1..], schemaVersion, n);
    }
  }

  /** Registrations and inlined-data tables are created together. */
  lemma CommitKeepsInlined(db: Database, ch: TransactionChanges, info: SnapshotRow, made: string, same: (string, string) -> bool)
    requires InlinedRefer(db) && PersistedInlined(db, ch, info.schemaVersion, info.id).Some?
    ensures InlinedRefer(Persisted(db, ch, info, made, same, PersistedInlined(db, ch, info.schemaVersion, info.id).value))
  {
    hide Persisted, Inserted, Map;
    var created := CreateInlined(db.inlinedData, ch.inlineTables, info.schemaVersion).value;
    CreatedKeys(db.inlinedData, ch.inlineTables, info.schemaVersion);
    WrittenKeys(created, db.inlinedTables, ch.inlineTables, ch.inlineData, info.schemaVersion, info.id);
    PersistedFileRows(db, ch, info, made, same, PersistedInlined(db, ch, info.schemaVersion, info.id).value);
  }

  lemma PersistedSideRows(db: Database, ch: TransactionChanges, info: SnapshotRow, made: string, same: (string, string) -> bool,
                          inlined: map<InlinedTableRow, seq<Versioned<string>>>)
    ensures
      var after, n := Persisted(db, ch, info, made, same, inlined), info.id;
      && after.schemas == Advance(db.schemas, SchemaEnds(ch), n, Inserted(ch.newSchemas, n))
      && after.tableStats == db.tableStats && after.columnStats == db.columnStats && after.options == db.options
      && after.columnMappings == db.columnMappings && after.nameMappings == db.nameMappings
  {
    hide Advance, PersistedTags, PersistedTables, Inserted, Map, Attached;
  }

  lemma CommitKeepsSides(db: Database, ch: TransactionChanges, info: SnapshotRow, made: string, same: (string, string) -> bool,
                         inlined: map<InlinedTableRow, seq<Versioned<string>>>)
    requires SideRowsRefer(db)
    ensures SideRowsRefer(Persisted(db, ch, info, made, same, inlined))
  {
    hide Persisted, Advance, View, Inserted;
    var after := Persisted(db, ch, info, made, same, inlined);
    PersistedSideRows(db, ch, info, made, same, inlined);
    KnownStays(db, ch, info, made, same, inlined);
    AdvanceKeeps(db.schemas, SchemaEnds(ch), info.id, Inserted(ch.newSchemas, info.id));
    assert forall id :: TableHas(db, id) ==> KnownTable(db, ch, id);
    forall r | r in after.options ensures ScopePresent(after, r.scope) {
      match r.scope {
        case Global =>
        case OfSchema(id) =>
        case OfTable(id) =>
          assert TableHas(db, id);
          assert TableHas(after, id);
      }
    }
  }

  /** A commit leaves no row without its owner either. */
  lemma CommitKeepsReferences(db: Database, ch: TransactionChanges, info: SnapshotRow, made: string, same: (string, string) -> bool)
    requires Refers(db) && InsertsRefer(db, ch) && DetailsRefer(ch)
    requires PersistedInlined(db, ch, info.schemaVersion, info.id).Some?
    ensures Refers(Persisted(db, ch, info, made, same, PersistedInlined(db, ch, info.schemaVersion, info.id).value))
  {
    hide Persisted, PersistedInlined, TableRowsRefer, DetailRowsRefer, FileRowsRefer, ChangesRefer, InlinedRefer, SideRowsRefer,
         InsertsRefer, DetailsRefer;
    var inlined := PersistedInlined(db, ch, info.schemaVersion, info.id).value;
    CommitKeepsTableRows(db, ch, info, made, same, inlined);
    CommitKeepsDetails(db, ch, info, made, same, inlined);
    CommitKeepsFileRows(db, ch, info, made, same, inlined);
    CommitKeepsInlined(db, ch, info, made, same);
    CommitKeepsSides(db, ch, info, made, same, inlined);
  }

  // ----- the rows of one object at the new head -----

  /** Of old and added rows together, an old object keeps its own and a new object has the added ones. */
  lemma RowsOfOne<R>(old_: seq<R>, added: seq<R>, mine: R -> bool, known: bool)
    requires known ==> forall r :: r in added ==> !mine(r)
    requires !known ==> forall r :: r in old_ ==> !mine(r)
    ensures Filter(mine, old_ + added) == if known then Filter(mine, old_) else Filter(mine, added)
  {
    FilterAppend(mine, old_, added);
    if known {
      FilterNone(mine, added);
      assert Filter(mine, old_) + [] == Filter(mine, old_);
    } else {
      FilterNone(mine, old_);
      assert [] + Filter(mine, added) == Filter(mine, added);
    }
  }

  /** After a commit a macro has its own implementations and parameters: the old ones, or for a new macro the new ones. */
  lemma NewHeadMacroParts(db: Database, ch: TransactionChanges, info: SnapshotRow, made: string, same: (string, string) -> bool,
                          inlined: map<InlinedTableRow, seq<Versioned<string>>>, id: int)
    requires DetailRowsRefer(db) && FreshDependents(db, ch)
    ensures MacroPartsOf(Persisted(db, ch, info, made, same, inlined), id)
         == if MacroHas(db, id) then MacroPartsOf(db, id)
            else MacroParts(Filter((i: MacroImplRow) => i.macroId == id, ch.newMacroImpls),
                            Filter((p: MacroParameterRow) => p.macroId == id, ch.newMacroParameters))
  {
    hide Persisted, Advance, View;
    PersistedDetailRows(db, ch, info, made, same, inlined);
    RowsOfOne(db.macroImpls, ch.newMacroImpls, (i: MacroImplRow) => i.macroId == id, MacroHas(db, id));
    RowsOfOne(db.macroParameters, ch.newMacroParameters, (p: MacroParameterRow) => p.macroId == id, MacroHas(db, id));
  }

  /** Likewise the columns of a partition and the expressions of a sort order. */
  lemma NewHeadDetails(db: Database, ch: TransactionChanges, info: SnapshotRow, made: string, same: (string, string) -> bool,
                       inlined: map<InlinedTableRow, seq<Versioned<string>>>, id: int)
    requires DetailRowsRefer(db) && FreshDependents(db, ch)
    ensures
      var mine := (c: PartitionColumnRow) => c.partitionId == id;
      Filter(mine, Persisted(db, ch, info, made, same, inlined).partitionColumns)
      == if exists v :: v in db.partitions && v.row.partitionId == id then Filter(mine, db.partitionColumns)
         else Filter(mine, ch.newPartitionColumns)
    ensures
      var mine := (e: SortExpressionRow) => e.sortId == id;
      Filter(mine, Persisted(db, ch, info, made, same, inlined).sortExpressions)
      == if exists v :: v in db.sorts && v.row.sortId == id then Filter(mine, db.sortExpressions)
         else Filter(mine, ch.newSortExpressions)
  {
    hide Persisted, Advance, View;
    PersistedDetailRows(db, ch, info, made, same, inlined);
    RowsOfOne(db.partitionColumns, ch.newPartitionColumns, (c: PartitionColumnRow) => c.partitionId == id,
              exists v :: v in db.partitions && v.row.partitionId == id);
    RowsOfOne(db.sortExpressions, ch.newSortExpressions, (e: SortExpressionRow) => e.sortId == id,
              exists v :: v in db.sorts && v.row.sortId == id);
  }

  /** And the statistics and partition values of a data file whose table was not detached. */
  lemma NewHeadFileRows(db: Database, ch: TransactionChanges, info: SnapshotRow, made: string, same: (string, string) -> bool,
                        inlined: map<InlinedTableRow, seq<Versioned<string>>>, id: int)
    requires FileRowsRefer(db) && FreshDependents(db, ch) && FileRowsMatch(db)
    requires forall v :: v in db.dataFiles && v.row.fileId == id ==> v.row.tableId !in ch.detachedTables
    ensures
      var mine := (r: FileStatsRow) => r.dataFileId == id;
      Filter(mine, Persisted(db, ch, info, made, same, inlined).fileStats)
      == if exists v :: v in db.dataFiles && v.row.fileId == id then Filter(mine, db.fileStats) else Filter(mine, ch.fileStats)
    ensures
      var mine := (r: PartitionValueRow) => r.dataFileId == id;
      Filter(mine, Persisted(db, ch, info, made, same, inlined).partitionValues)
      == if exists v :: v in db.dataFiles && v.row.fileId == id then Filter(mine, db.partitionValues) else Filter(mine, ch.partitionValues)
  {
    hide Persisted, Advance, View;
    PersistedFileRows(db, ch, info, made, same, inlined);
    var known := exists v :: v in db.dataFiles && v.row.fileId == id;
    var myStats, myValues := (r: FileStatsRow) => r.dataFileId == id, (r: PartitionValueRow) => r.dataFileId == id;
    var keptStats := (r: FileStatsRow) => r.tableId !in ch.detachedTables;
    var keptValues := (r: PartitionValueRow) => r.tableId !in ch.detachedTables;
    RowsOfOne(Filter(keptStats, db.fileStats), ch.fileStats, myStats, known);
    RowsOfOne(Filter(keptValues, db.partitionValues), ch.partitionValues, myValues, known);
    FilterAbsorbs(myStats, keptStats, db.fileStats);
    FilterAbsorbs(myValues, keptValues, db.partitionValues);
  }
}
