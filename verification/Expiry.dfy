/**
 * Snapshot expiry (maintenance/expire_snapshots.rs): the deletions of one database transaction,
 * what they leave alone, and where the files they schedule really are.
 */
module Expiry {
  import opened Prelude
  import opened Versions
  import opened Paths
  import opened Catalog

  // ----- the deletions as functions of the database -----

  /** `find_expired_snapshots`: the matching snapshots, except the latest. */
  function FindExpiredSnapshots(db: Database, matches: SnapshotRow -> bool): seq<SnapshotRow> {
    Filter((r: SnapshotRow) => matches(r) && exists q :: q in db.snapshots && q.id > r.id, db.snapshots)
  }

  function DeleteSnapshots(db: Database, ids: set<int>): Database {
    db.(snapshots := Filter((r: SnapshotRow) => r.id !in ids, db.snapshots))
  }

  /** `find_expired_tables`: tables with an inactive version and no version that is not inactive. */
  function FindExpiredTables(db: Database): set<int> {
    var live := SnapshotIds(db);
    set v | v in db.tables && Inactive(v, live)
            && !exists w :: w in db.tables && w.row.tableId == v.row.tableId && !Inactive(w, live)
      :: v.row.tableId
  }

  function InactiveRows<T>(rows: seq<Versioned<T>>, live: set<int>): seq<Versioned<T>> {
    Filter((v: Versioned<T>) => Inactive(v, live), rows)
  }

  /** The ids of expired data files and delete files share one lookup table. */
  function ExpiredFileIds(db: Database): set<int> {
    var live := SnapshotIds(db);
    (set v | v in InactiveRows(db.dataFiles, live) :: v.row.fileId)
    + (set v | v in InactiveRows(db.deleteFiles, live) :: v.row.fileId)
  }

  function DeleteFiles(db: Database, ids: set<int>, scheduled: seq<ScheduledRow>): Database {
    db.(scheduled := db.scheduled + scheduled,
        dataFiles := Filter((v: Versioned<DataFileRow>) => v.row.fileId !in ids, db.dataFiles),
        deleteFiles := Filter((v: Versioned<DeleteFileRow>) => v.row.fileId !in ids, db.deleteFiles))
  }

  /** `delete_tables`. */
  function DeleteTables(db: Database, ids: set<int>): Database {
    db.(columnMappings := Filter((r: ColumnMappingRow) => r.tableId !in ids, db.columnMappings),
        columnTags := Filter((v: Versioned<ColumnTagRow>) => v.row.owner.0 !in ids, db.columnTags),
        columns := Filter((v: Versioned<ColumnRow>) => v.row.tableId !in ids, db.columns),
        inlinedData := map k | k in db.inlinedData && !(k in db.inlinedTables && k.tableId in ids) :: db.inlinedData[k],
        inlinedTables := Filter((r: InlinedTableRow) => r.tableId !in ids, db.inlinedTables),
        partitionColumns := Filter((r: PartitionColumnRow) => r.tableId !in ids, db.partitionColumns),
        partitions := Filter((v: Versioned<PartitionRow>) => v.row.tableId !in ids, db.partitions),
        schemaVersions := Filter((r: SchemaVersionRow) => r.tableId !in ids, db.schemaVersions),
        sortExpressions := Filter((r: SortExpressionRow) => r.tableId !in ids, db.sortExpressions),
        sorts := Filter((v: Versioned<SortRow>) => v.row.tableId !in ids, db.sorts),
        columnStats := Filter((r: ColumnStatsRow) => r.tableId !in ids, db.columnStats),
        tableStats := Filter((r: TableStatsRow) => r.tableId !in ids, db.tableStats),
        tables := Filter((v: Versioned<TableRow>) => v.row.tableId !in ids, db.tables))
  }

  function ActiveRows<T>(rows: seq<Versioned<T>>, live: set<int>): seq<Versioned<T>> {
    Filter((v: Versioned<T>) => !Inactive(v, live), rows)
  }

  /** First half of `delete_expired_catalog_objects`: rows with an interval of their own. */
  function DeleteInactiveObjects(db: Database): Database {
    var live := SnapshotIds(db);
    db.(schemas := ActiveRows(db.schemas, live),
        tags := ActiveRows(db.tags, live),
        macros := ActiveRows(db.macros, live),
        views := ActiveRows(db.views, live))
  }

  predicate ScopePresent(db: Database, scope: Scope) {
    match scope
    case Global => true
    case OfSchema(id) => exists v :: v in db.schemas && v.row.schemaId == id
    case OfTable(id) => exists v :: v in db.tables && v.row.tableId == id
  }

  /** Second half: rows whose referenced row no longer exists. */
  function DeleteDangling(db: Database): Database {
    db.(changes := Filter((r: ChangesRow) => exists q :: q in db.snapshots && q.id == r.snapshotId, db.changes),
        nameMappings := Filter((r: NameMappingRow) =>
          exists q :: q in db.columnMappings && q.mappingId == r.mappingId, db.nameMappings),
        macroImpls := Filter((r: MacroImplRow) =>
          exists v :: v in db.macros && v.row.macroId == r.macroId, db.macroImpls),
        macroParameters := Filter((r: MacroParameterRow) =>
          exists v :: v in db.macros && v.row.macroId == r.macroId, db.macroParameters),
        fileStats := Filter((r: FileStatsRow) =>
          exists v :: v in db.dataFiles && v.row.fileId == r.dataFileId, db.fileStats),
        fileVariantStats := Filter((r: FileStatsRow) =>
          exists v :: v in db.dataFiles && v.row.fileId == r.dataFileId, db.fileVariantStats),
        partitionValues := Filter((r: PartitionValueRow) =>
          exists v :: v in db.dataFiles && v.row.fileId == r.dataFileId, db.partitionValues),
        options := Filter((r: OptionRow) => ScopePresent(db, r.scope), db.options))
  }

  // ----- where the scheduled files are -----

  /** `catalog.table(id)`. */
  function FindTable(tables: seq<CatalogTable>, id: int): (r: Option<CatalogTable>)
    ensures r.Some? ==> r.value in tables && r.value.table.tableId == id
    ensures r.None? ==> forall t :: t in tables ==> t.table.tableId != id
  {
    if tables == [] then None
    else if tables[0].table.tableId == id then Some(tables[0])
    else FindTable(tables[1..], id)
  }

  /** A row of the join of tables and schemas that `query_table_data_path` fetches. */
  function FetchTableAndSchema(tables: seq<Versioned<TableRow>>, schemas: seq<Versioned<SchemaRow>>, id: int)
    : (r: Option<(TableRow, SchemaRow)>)
    ensures r.Some? ==> exists v, w :: v in tables && w in schemas && r.value == (v.row, w.row)
    ensures r.Some? ==> r.value.0.tableId == id && r.value.0.schemaId == r.value.1.schemaId
    ensures r.None? <==> !exists v, w :: v in tables && w in schemas
                                         && v.row.tableId == id && v.row.schemaId == w.row.schemaId
  {
    if tables == [] then None
    else
      assert tables == [tables[0]] + tables[1..];
      var rows := Filter((w: Versioned<SchemaRow>) => w.row.schemaId == tables[0].row.schemaId, schemas);
      if tables[0].row.tableId == id && rows != [] then
        assert rows[0] in rows;
        Some((tables[0].row, rows[0].row))
      else FetchTableAndSchema(tables[1..], schemas, id)
  }

  /** The directory of a table: from the catalog loaded at the head, else from the database. */
  function DirectoryOf(db: Database, catalog: LoadedCatalog, dataPath: DucklakePath, id: int): Option<DucklakePath> {
    match FindTable(catalog.tables, id)
    case Some(t) => CatalogDataPath(dataPath, t.schema.name, t.schema.path, t.table.name, t.table.path)
    case None =>
      match FetchTableAndSchema(db.tables, db.schemas, id)
      case None => None
      case Some((table, schema)) => QueriedDataPath(dataPath, schema.path, table.path)
  }

  /**
   * The directory found for a table id is one of that table: of its entry in the catalog or, only if
   * it has none, of one of its versions in the database with the schema of that version.
   */
  lemma DirectoryIsOwn(db: Database, catalog: LoadedCatalog, dataPath: DucklakePath, id: int)
    ensures
      var found := DirectoryOf(db, catalog, dataPath, id);
      var known := exists t :: t in catalog.tables && t.table.tableId == id;
      && (known ==> exists t :: t in catalog.tables && t.table.tableId == id
                      && found == CatalogDataPath(dataPath, t.schema.name, t.schema.path, t.table.name, t.table.path))
      && (!known && found.Some? ==>
            exists v, w :: v in db.tables && w in db.schemas && v.row.tableId == id && v.row.schemaId == w.row.schemaId
                           && found == QueriedDataPath(dataPath, w.row.path, v.row.path))
      && (!known && !(exists v, w :: v in db.tables && w in db.schemas && v.row.tableId == id && v.row.schemaId == w.row.schemaId)
          ==> found.None?)
  {
    hide CatalogDataPath, QueriedDataPath;
    var row := FetchTableAndSchema(db.tables, db.schemas, id);
    if FindTable(catalog.tables, id).None? && row.Some? {
      var v, w :| v in db.tables && w in db.schemas && row.value == (v.row, w.row);
    }
  }

  datatype ExpiredFile = ExpiredFile(fileId: int, tableId: int, path: DucklakePath)

  /** Expired data files, then expired delete files. */
  function ExpiredFiles(db: Database): seq<ExpiredFile> {
    var live := SnapshotIds(db);
    Map((v: Versioned<DataFileRow>) => ExpiredFile(v.row.fileId, v.row.tableId, v.row.path),
        InactiveRows(db.dataFiles, live))
    + Map((v: Versioned<DeleteFileRow>) => ExpiredFile(v.row.fileId, v.row.tableId, v.row.path),
          InactiveRows(db.deleteFiles, live))
  }

  /** The row that schedules one file; `None` when its directory is unknown or the path cannot be joined. */
  function ScheduleOne(file: ExpiredFile, directories: int -> Option<DucklakePath>, dataPath: DucklakePath)
    : Option<ScheduledRow>
  {
    match directories(file.tableId)
    case None => None
    case Some(directory) =>
      match BuildDeletionFilePath(file.path, directory, dataPath)
      case None => None
      case Some(path) => Some(ScheduledRow(file.fileId, path))
  }

  function Schedule(files: seq<ExpiredFile>, directories: int -> Option<DucklakePath>, dataPath: DucklakePath)
    : (r: Option<seq<ScheduledRow>>)
    ensures r.Some? ==>
              |r.value| == |files|
              && forall i :: 0 <= i < |files| ==> ScheduleOne(files[i], directories, dataPath) == Some(r.value[i])
  {
    if files == [] then Some([])
    else
      match ScheduleOne(files[0], directories, dataPath)
      case None => None
      case Some(row) => Prepend([row], Schedule(files[1..], directories, dataPath))
  }

  function Prepend<T>(front: seq<T>, rest: Option<seq<T>>): Option<seq<T>> {
    match rest
    case None => None
    case Some(tail) => Some(front + tail)
  }

  function MarkFiles(db: Database, catalog: LoadedCatalog, dataPath: DucklakePath): Option<Database> {
    match Schedule(ExpiredFiles(db), id => DirectoryOf(db, catalog, dataPath, id), dataPath)
    case None => None
    case Some(scheduled) => Some(DeleteFiles(db, ExpiredFileIds(db), scheduled))
  }

  /** The whole transaction: what the database is once the given snapshots are expired. */
  function Expire(db: Database, ids: set<int>, catalog: LoadedCatalog, dataPath: DucklakePath): Option<Database> {
    var withoutSnapshots := DeleteSnapshots(db, ids);
    var tables := FindExpiredTables(withoutSnapshots);
    match MarkFiles(withoutSnapshots, catalog, dataPath)
    case None => None
    case Some(marked) => Some(DeleteDangling(DeleteInactiveObjects(DeleteTables(marked, tables))))
  }

  lemma SnapshotsLeft(db: Database, ids: set<int>, catalog: LoadedCatalog, dataPath: DucklakePath)
    ensures var after := Expire(db, ids, catalog, dataPath);
            after.Some? ==> after.value.snapshots == DeleteSnapshots(db, ids).snapshots
  {
    hide Filter, FindExpiredTables, Schedule, ExpiredFileIds, ExpiredFiles, ActiveRows;
  }

  /** Expiry finds every matching snapshot but the latest, and keeps the rows of all other ids. */
  lemma ExpireTakesMatching(db: Database, matches: SnapshotRow -> bool, catalog: LoadedCatalog, dataPath: DucklakePath)
    ensures
      var expired := FindExpiredSnapshots(db, matches);
      var after := Expire(db, set r | r in expired :: r.id, catalog, dataPath);
      && (forall r :: r in expired <==> r in db.snapshots && matches(r) && exists q :: q in db.snapshots && q.id > r.id)
      && (after.Some? ==>
            forall r :: r in after.value.snapshots <==> r in db.snapshots && forall e :: e in expired ==> e.id != r.id)
  {
    hide Expire;
    SnapshotsLeft(db, set r | r in FindExpiredSnapshots(db, matches) :: r.id, catalog, dataPath);
  }

  // ----- the transaction itself -----

  /** The open database transaction that expiry runs in. */
  class Transaction {
    var db: Database

    constructor (db: Database)
      ensures this.db == db
    {
      this.db := db;
    }

    /** Look up the directory of every table that has an expired file, each table once. */
    method FindDirectories(files: seq<ExpiredFile>, catalog: LoadedCatalog, dataPath: DucklakePath)
      returns (found: Option<map<int, DucklakePath>>)
      ensures found.Some? ==> forall f :: f in files ==>
                f.tableId in found.value
                && DirectoryOf(db, catalog, dataPath, f.tableId) == Some(found.value[f.tableId])
      ensures found.None? ==> exists f :: f in files && DirectoryOf(db, catalog, dataPath, f.tableId).None?
    {
      hide DirectoryOf;
      var pathByTableId: map<int, DucklakePath> := map[];
      for i := 0 to |files|
        invariant forall j :: 0 <= j < i ==> files[j].tableId in pathByTableId
        invariant forall id :: id in pathByTableId ==>
                    DirectoryOf(db, catalog, dataPath, id) == Some(pathByTableId[id])
      {
        if files[i].tableId !in pathByTableId {
          var path := DirectoryOf(db, catalog, dataPath, files[i].tableId);
          if path.None? {
            assert files[i] in files;
            return None;
          }
          pathByTableId := pathByTableId[files[i].tableId := path.value];
        }
      }
      found := Some(pathByTableId);
    }

    /** `mark_data_files_for_deletion`. */
    method MarkDataFilesForDeletion(catalog: LoadedCatalog, dataPath: DucklakePath) returns (ok: bool)
      modifies this
      ensures ok == MarkFiles(old(db), catalog, dataPath).Some?
      ensures ok ==> Some(db) == MarkFiles(old(db), catalog, dataPath)
      ensures !ok ==> db == old(db)
    {
      var files := ExpiredFiles(db);
      ghost var directories := id => DirectoryOf(old(db), catalog, dataPath, id);
      var found := FindDirectories(files, catalog, dataPath);
      if found.None? {
        ScheduleNeedsDirectory(files, directories, dataPath);
        return false;
      }
      var scheduled := BuildScheduled(files, found.value, dataPath);
      ScheduleFromMap(files, directories, found.value, dataPath);
      if scheduled.None? {
        return false;
      }
      db := DeleteFiles(db, ExpiredFileIds(db), scheduled.value);
      ok := true;
    }

    /** `expire_snapshots`, rolled back when a step fails. */
    method ExpireSnapshots(matches: SnapshotRow -> bool, catalog: LoadedCatalog, dataPath: DucklakePath)
      returns (expired: seq<SnapshotRow>, ok: bool)
      modifies this
      ensures expired == FindExpiredSnapshots(old(db), matches)
      ensures forall r :: r in expired <==>
                r in old(db).snapshots && matches(r) && exists q :: q in old(db).snapshots && q.id > r.id
      ensures ok == Expire(old(db), set r | r in expired :: r.id, catalog, dataPath).Some?
      ensures ok ==> Some(db) == Expire(old(db), set r | r in expired :: r.id, catalog, dataPath)
      ensures ok ==> forall r :: r in db.snapshots <==> r in old(db).snapshots && forall e :: e in expired ==> e.id != r.id
      ensures !ok ==> db == old(db)
    {
      hide Filter, FindExpiredTables, FindExpiredSnapshots, ExpiredFileIds, Schedule, DeleteTables, DeleteDangling;
      ExpireTakesMatching(db, matches, catalog, dataPath);
      var before := db;
      expired := FindExpiredSnapshots(db, matches);
      db := DeleteSnapshots(db, set r | r in expired :: r.id);
      var tableIds := FindExpiredTables(db);
      ok := MarkDataFilesForDeletion(catalog, dataPath);
      if !ok {
        db := before;
        return;
      }
      db := DeleteTables(db, tableIds);
      db := DeleteInactiveObjects(db);
      db := DeleteDangling(db);
    }
  }

  function Lookup<T>(paths: map<int, T>): int -> Option<T> {
    id => if id in paths then Some(paths[id]) else None
  }

  /** Build the rows to insert, in file order; fails where the program stops on a bad path. */
  method BuildScheduled(files: seq<ExpiredFile>, pathByTableId: map<int, DucklakePath>, dataPath: DucklakePath)
    returns (scheduled: Option<seq<ScheduledRow>>)
    requires forall f :: f in files ==> f.tableId in pathByTableId
    ensures scheduled == Schedule(files, Lookup(pathByTableId), dataPath)
  {
    var rows: seq<ScheduledRow> := [];
    ghost var directories := Lookup(pathByTableId);
    assert files[0..] == files;
    PrependNothing(Schedule(files, directories, dataPath));
    for i := 0 to |files|
      invariant Schedule(files, directories, dataPath) == Prepend(rows, Schedule(files[i..], directories, dataPath))
    {
      PrependStep(rows, files, i, directories, dataPath);
      var path := BuildDeletionFilePath(files[i].path, pathByTableId[files[i].tableId], dataPath);
      if path.None? {
        return None;
      }
      rows := rows + [ScheduledRow(files[i].fileId, path.value)];
    }
    assert rows + [] == rows;
    scheduled := Some(rows);
  }

  lemma PrependNothing<T>(rest: Option<seq<T>>)
    ensures Prepend([], rest) == rest
  {
    if rest.Some? {
      assert [] + rest.value == rest.value;
    }
  }

  lemma PrependStep(rows: seq<ScheduledRow>, files: seq<ExpiredFile>, i: nat,
                    directories: int -> Option<DucklakePath>, dataPath: DucklakePath)
    requires i < |files|
    ensures Prepend(rows, Schedule(files[i..], directories, dataPath))
         == match ScheduleOne(files[i], directories, dataPath)
            case None => None
            case Some(row) => Prepend(rows + [row], Schedule(files[i + 1..], directories, dataPath))
  {
    assert files[i..][0] == files[i] && files[i..][1..] == files[i + 1..];
    var one := ScheduleOne(files[i], directories, dataPath);
    var rest := Schedule(files[i + 1..], directories, dataPath);
    if one.Some? && rest.Some? {
      assert rows + ([one.value] + rest.value) == rows + [one.value] + rest.value;
    }
  }

  lemma {:induction false} ScheduleFromMap(files: seq<ExpiredFile>, directories: int -> Option<DucklakePath>,
                                           paths: map<int, DucklakePath>, dataPath: DucklakePath)
    requires forall f :: f in files ==> f.tableId in paths && directories(f.tableId) == Some(paths[f.tableId])
    ensures Schedule(files, Lookup(paths), dataPath) == Schedule(files, directories, dataPath)
  {
    if files != [] {
      assert files[0] in files;
      ScheduleFromMap(files[1..], directories, paths, dataPath);
    }
  }

  lemma {:induction false} ScheduleNeedsDirectory(files: seq<ExpiredFile>, directories: int -> Option<DucklakePath>,
                                                  dataPath: DucklakePath)
    requires exists f :: f in files && directories(f.tableId).None?
    ensures Schedule(files, directories, dataPath).None?
  {
    var f :| f in files && directories(f.tableId).None?;
    if f != files[0] {
      assert f in files[1..];
      ScheduleNeedsDirectory(files[1..], directories, dataPath);
    }
  }
}
