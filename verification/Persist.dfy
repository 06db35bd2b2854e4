/**
 * Persisting one commit (transaction/transaction_changes.rs and `finalize_commit`): the ordered
 * updates and inserts of one database transaction. Statistics rows are the subject of Commits.
 */
module Persist {
  import opened Prelude
  import opened Versions
  import opened Tags
  import opened Catalog

  /** The changes collected for one commit attempt. */
  datatype TransactionChanges = TransactionChanges(
    newSchemas: seq<SchemaRow>,
    newTables: seq<TableRow>,
    newViews: seq<ViewRow>,
    newMacros: seq<MacroRow>,
    newMacroImpls: seq<MacroImplRow>,
    newMacroParameters: seq<MacroParameterRow>,
    newColumns: seq<Versioned<ColumnRow>>,
    newPartitions: seq<Versioned<PartitionRow>>,
    newPartitionColumns: seq<PartitionColumnRow>,
    newSorts: seq<Versioned<SortRow>>,
    newSortExpressions: seq<SortExpressionRow>,
    newTags: seq<TagRow>,
    newColumnTags: seq<ColumnTagRow>,
    droppedSchemas: set<int>,
    droppedTables: set<int>,
    droppedViews: set<int>,
    droppedMacros: set<int>,
    detachedTables: set<int>,
    renamedTables: map<int, string>,
    retiredPartitionTables: set<int>,
    retiredSortTables: set<int>,
    retiredColumns: set<(int, int)>,
    tableTags: seq<Edits<int>>,
    columnTags: seq<Edits<(int, int)>>,
    dataFiles: seq<DataFileRow>,
    deleteFiles: seq<DeleteFileRow>,
    fileStats: seq<FileStatsRow>,
    partitionValues: seq<PartitionValueRow>,
    inlineTables: seq<int>,
    inlineData: seq<(int, seq<string>)>,
    schemaChangedTables: seq<int>
  )

  /** Rows inserted open by a commit of snapshot `n`. */
  function Inserted<T>(rows: seq<T>, n: int): (r: seq<Versioned<T>>)
    ensures InsertedAt(r, n)
    ensures |r| == |rows| && forall i :: 0 <= i < |rows| ==> r[i] == Versioned(n, None, rows[i])
  {
    if rows == [] then [] else [Versioned(n, None, rows[0])] + Inserted(rows[1..], n)
  }

  // ----- which rows a commit ends -----

  function TableEnds(ch: TransactionChanges): TableRow -> bool {
    (t: TableRow) => t.tableId in ch.droppedTables || t.tableId in ch.renamedTables
  }

  function SchemaEnds(ch: TransactionChanges): SchemaRow -> bool { (r: SchemaRow) => r.schemaId in ch.droppedSchemas }

  function ViewEnds(ch: TransactionChanges): ViewRow -> bool { (r: ViewRow) => r.viewId in ch.droppedViews }

  function MacroEnds(ch: TransactionChanges): MacroRow -> bool { (r: MacroRow) => r.macroId in ch.droppedMacros }

  function ColumnEnds(ch: TransactionChanges): ColumnRow -> bool {
    (r: ColumnRow) => r.tableId in ch.droppedTables || (r.tableId, r.columnId) in ch.retiredColumns
  }

  function ColumnTagEnds(ch: TransactionChanges): ColumnTagRow -> bool {
    (r: ColumnTagRow) => r.owner.0 in ch.droppedTables
  }

  function PartitionEnds(ch: TransactionChanges): PartitionRow -> bool {
    (r: PartitionRow) => r.tableId in ch.droppedTables || r.tableId in ch.retiredPartitionTables
  }

  function SortEnds(ch: TransactionChanges): SortRow -> bool {
    (r: SortRow) => r.tableId in ch.droppedTables || r.tableId in ch.retiredSortTables
  }

  function TagEnds(ch: TransactionChanges): TagRow -> bool {
    (r: TagRow) => r.owner in ch.droppedTables || r.owner in ch.droppedSchemas || r.owner in ch.droppedViews
  }

  function DataFileEnds(ch: TransactionChanges): DataFileRow -> bool { (r: DataFileRow) => r.tableId in ch.droppedTables }

  function DeleteFileEnds(ch: TransactionChanges): DeleteFileRow -> bool {
    (r: DeleteFileRow) => r.tableId in ch.droppedTables
  }

  // ----- renames -----

  /** `persist_table_renames`: copy the versions that this commit ended, under their new names. */
  function RenamedCopies(rows: seq<Versioned<TableRow>>, renames: map<int, string>, n: int): (r: seq<Versioned<TableRow>>)
    ensures InsertedAt(r, n)
  {
    if rows == [] then []
    else
      var rest := RenamedCopies(rows[1..], renames, n);
      var t := rows[0].row;
      if rows[0].end == Some(n) && t.tableId in renames
      then [Versioned(n, None, t.(name := renames[t.tableId]))] + rest
      else rest
  }

  function Rename(renames: map<int, string>): TableRow -> TableRow {
    (t: TableRow) => if t.tableId in renames then t.(name := renames[t.tableId]) else t
  }

  function IsRenamed(renames: map<int, string>): TableRow -> bool { (t: TableRow) => t.tableId in renames }

  function PersistedTables(rows: seq<Versioned<TableRow>>, ch: TransactionChanges, n: int): seq<Versioned<TableRow>> {
    var retired := Retire(rows, TableEnds(ch), n);
    Advance(rows, TableEnds(ch), n, RenamedCopies(retired, ch.renamedTables, n) + Inserted(ch.newTables, n))
  }

  // ----- inlined data -----

  /** `latest`: the registration of the table with the highest schema version. */
  function LatestRegistration(tables: seq<InlinedTableRow>, id: int): (r: Option<InlinedTableRow>)
    ensures r.Some? ==> r.value in tables && r.value.tableId == id
    ensures r.Some? ==> forall x :: x in tables && x.tableId == id ==> x.schemaVersion <= r.value.schemaVersion
    ensures r.None? ==> forall x :: x in tables ==> x.tableId != id
  {
    if tables == [] then None
    else
      var rest := LatestRegistration(tables[1..], id);
      if tables[0].tableId == id && (rest.None? || tables[0].schemaVersion > rest.value.schemaVersion)
      then Some(tables[0]) else rest
  }

  /** `CREATE TABLE` for each new inlined-data table; `None` when one of them already exists. */
  function CreateInlined(data: map<InlinedTableRow, seq<Versioned<string>>>, ids: seq<int>, schemaVersion: int)
    : Option<map<InlinedTableRow, seq<Versioned<string>>>>
    decreases ids
  {
    if ids == [] then Some(data)
    else
      var key := InlinedTableRow(ids[0], schemaVersion);
      if key in data then None else CreateInlined(data[key := []], ids[1..], schemaVersion)
  }

  function InlineTarget(registered: seq<InlinedTableRow>, created: seq<int>, id: int, schemaVersion: int)
    : Option<InlinedTableRow>
  {
    if id in created then Some(InlinedTableRow(id, schemaVersion)) else LatestRegistration(registered, id)
  }

  /** Append the rows of each table; `None` when a table has no inlined-data table to write to. */
  function WriteInlined(data: map<InlinedTableRow, seq<Versioned<string>>>, registered: seq<InlinedTableRow>,
                        created: seq<int>, writes: seq<(int, seq<string>)>, schemaVersion: int, n: int)
    : Option<map<InlinedTableRow, seq<Versioned<string>>>>
    decreases writes
  {
    if writes == [] then Some(data)
    else
      match InlineTarget(registered, created, writes[0].0, schemaVersion)
      case None => None
      case Some(key) =>
        if key !in data then None
        else
          WriteInlined(data[key := data[key] + Inserted(writes[0].1, n)], registered, created, writes[1..], schemaVersion, n)
  }

  function PersistedInlined(db: Database, ch: TransactionChanges, schemaVersion: int, n: int)
    : Option<map<InlinedTableRow, seq<Versioned<string>>>>
  {
    match CreateInlined(db.inlinedData, ch.inlineTables, schemaVersion)
    case None => None
    case Some(data) => WriteInlined(data, db.inlinedTables, ch.inlineTables, ch.inlineData, schemaVersion, n)
  }

  // ----- the whole commit -----

  function PersistedTags<K(==)>(rows: seq<Versioned<Tag<K>>>, ends: Tag<K> -> bool, added: seq<Tag<K>>,
                                edits: seq<Edits<K>>, n: int, same: (string, string) -> bool): seq<Versioned<Tag<K>>> {
    RunRounds(Advance(rows, ends, n, Inserted(added, n)), edits, LongestEdits(edits), n, same)
  }

  function Attached<T>(rows: seq<Versioned<T>>, tableId: T -> int, detached: set<int>): seq<Versioned<T>> {
    Filter((v: Versioned<T>) => tableId(v.row) !in detached, rows)
  }

  function DataFileTable(): DataFileRow -> int { (f: DataFileRow) => f.tableId }

  function DeleteFileTable(): DeleteFileRow -> int { (f: DeleteFileRow) => f.tableId }

  /** The database after the commit, given the inlined-data tables it leaves. */
  function Persisted(db: Database, ch: TransactionChanges, info: SnapshotRow, made: string,
                     same: (string, string) -> bool, inlined: map<InlinedTableRow, seq<Versioned<string>>>): Database
  {
    var n := info.id;
    Database(
      db.snapshots + [info],
      db.changes + [ChangesRow(n, made)],
      Advance(db.schemas, SchemaEnds(ch), n, Inserted(ch.newSchemas, n)),
      PersistedTables(db.tables, ch, n),
      Advance(db.views, ViewEnds(ch), n, Inserted(ch.newViews, n)),
      Advance(db.macros, MacroEnds(ch), n, Inserted(ch.newMacros, n)),
      db.macroImpls + ch.newMacroImpls,
      db.macroParameters + ch.newMacroParameters,
      Advance(db.columns, ColumnEnds(ch), n, ch.newColumns),
      PersistedTags(db.columnTags, ColumnTagEnds(ch), ch.newColumnTags, ch.columnTags, n, same),
      PersistedTags(db.tags, TagEnds(ch), ch.newTags, ch.tableTags, n, same),
      Advance(db.partitions, PartitionEnds(ch), n, ch.newPartitions),
      db.partitionColumns + ch.newPartitionColumns,
      Advance(db.sorts, SortEnds(ch), n, ch.newSorts),
      db.sortExpressions + ch.newSortExpressions,
      Advance(Attached(db.dataFiles, DataFileTable(), ch.detachedTables), DataFileEnds(ch), n, Inserted(ch.dataFiles, n)),
      Advance(Attached(db.deleteFiles, DeleteFileTable(), ch.detachedTables), DeleteFileEnds(ch), n, Inserted(ch.deleteFiles, n)),
      Filter((r: FileStatsRow) => r.tableId !in ch.detachedTables, db.fileStats) + ch.fileStats,
      db.fileVariantStats,
      Filter((r: PartitionValueRow) => r.tableId !in ch.detachedTables, db.partitionValues) + ch.partitionValues,
      db.scheduled,
      db.schemaVersions + Map((id: int) => SchemaVersionRow(n, info.schemaVersion, id), ch.schemaChangedTables),
      db.inlinedTables + Map((id: int) => InlinedTableRow(id, info.schemaVersion), ch.inlineTables),
      inlined,
      db.tableStats, db.columnStats, db.columnMappings, db.nameMappings, db.options)
  }

  // ----- the transaction itself -----

  lemma {:induction false} RetireTwice<T>(rows: seq<Versioned<T>>, p: T -> bool, q: T -> bool, both: T -> bool, n: int)
    requires forall x :: both(x) == (p(x) || q(x))
    ensures Retire(Retire(rows, p, n), q, n) == Retire(rows, both, n)
  {
    var twice, once := Retire(Retire(rows, p, n), q, n), Retire(rows, both, n);
    assert forall i :: 0 <= i < |rows| ==> twice[i] == once[i];
  }

  /** `persist_inline_data`. */
  method PersistInlineData(db: Database, ch: TransactionChanges, schemaVersion: int, n: int)
    returns (data: Option<map<InlinedTableRow, seq<Versioned<string>>>>)
    ensures data == PersistedInlined(db, ch, schemaVersion, n)
  {
    var tables := db.inlinedData;
    for i := 0 to |ch.inlineTables|
      invariant CreateInlined(db.inlinedData, ch.inlineTables, schemaVersion)
             == CreateInlined(tables, ch.inlineTables[i..], schemaVersion)
    {
      assert ch.inlineTables[i..][1..] == ch.inlineTables[i + 1..];
      var key := InlinedTableRow(ch.inlineTables[i], schemaVersion);
      if key in tables {
        return None;
      }
      tables := tables[key := []];
    }
    ghost var created := tables;
    for i := 0 to |ch.inlineData|
      invariant WriteInlined(created, db.inlinedTables, ch.inlineTables, ch.inlineData, schemaVersion, n)
             == WriteInlined(tables, db.inlinedTables, ch.inlineTables, ch.inlineData[i..], schemaVersion, n)
    {
      var write := ch.inlineData[i];
      assert ch.inlineData[i..][0] == write && ch.inlineData[i..][1..] == ch.inlineData[i + 1..];
      var key := InlineTarget(db.inlinedTables, ch.inlineTables, write.0, schemaVersion);
      if key.None? || key.value !in tables {
        return None;
      }
      tables := tables[key.value := tables[key.value] + Inserted(write.1, n)];
    }
    data := Some(tables);
  }

  /** The open database transaction of a commit. */
  class Transaction {
    var db: Database

    constructor (db: Database)
      ensures this.db == db
    {
      this.db := db;
    }

    /** `persist` up to the catalog relations: delete detached file rows, then retire. */
    method RetireRows(ch: TransactionChanges, n: int)
      modifies this
      ensures db == old(db).(
        fileStats := Filter((r: FileStatsRow) => r.tableId !in ch.detachedTables, old(db).fileStats),
        partitionValues := Filter((r: PartitionValueRow) => r.tableId !in ch.detachedTables, old(db).partitionValues),
        dataFiles := Retire(Attached(old(db).dataFiles, DataFileTable(), ch.detachedTables), DataFileEnds(ch), n),
        deleteFiles := Retire(Attached(old(db).deleteFiles, DeleteFileTable(), ch.detachedTables), DeleteFileEnds(ch), n),
        tables := Retire(old(db).tables, TableEnds(ch), n),
        schemas := Retire(old(db).schemas, SchemaEnds(ch), n),
        views := Retire(old(db).views, ViewEnds(ch), n),
        macros := Retire(old(db).macros, MacroEnds(ch), n),
        columns := Retire(old(db).columns, ColumnEnds(ch), n),
        columnTags := Retire(old(db).columnTags, ColumnTagEnds(ch), n),
        partitions := Retire(old(db).partitions, PartitionEnds(ch), n),
        sorts := Retire(old(db).sorts, SortEnds(ch), n),
        tags := Retire(old(db).tags, TagEnds(ch), n))
    {
      var byTable := (r: ColumnRow) => r.tableId in ch.droppedTables;
      var byColumn := (r: ColumnRow) => (r.tableId, r.columnId) in ch.retiredColumns;
      RetireTwice(db.columns, byTable, byColumn, ColumnEnds(ch), n);
      db := db.(fileStats := Filter((r: FileStatsRow) => r.tableId !in ch.detachedTables, db.fileStats));
      db := db.(partitionValues := Filter((r: PartitionValueRow) => r.tableId !in ch.detachedTables, db.partitionValues));
      db := db.(dataFiles := Attached(db.dataFiles, DataFileTable(), ch.detachedTables));
      db := db.(deleteFiles := Attached(db.deleteFiles, DeleteFileTable(), ch.detachedTables));
      db := db.(tables := Retire(db.tables, TableEnds(ch), n));
      db := db.(schemas := Retire(db.schemas, SchemaEnds(ch), n));
      db := db.(views := Retire(db.views, ViewEnds(ch), n));
      db := db.(macros := Retire(db.macros, MacroEnds(ch), n));
      db := db.(columns := Retire(db.columns, byTable, n));
      db := db.(columnTags := Retire(db.columnTags, ColumnTagEnds(ch), n));
      db := db.(dataFiles := Retire(db.dataFiles, DataFileEnds(ch), n));
      db := db.(deleteFiles := Retire(db.deleteFiles, DeleteFileEnds(ch), n));
      db := db.(partitions := Retire(db.partitions, PartitionEnds(ch), n));
      db := db.(sorts := Retire(db.sorts, SortEnds(ch), n));
      db := db.(tags := Retire(db.tags, TagEnds(ch), n));
      db := db.(columns := Retire(db.columns, byColumn, n));
    }

    /** `persist`, then `finalize_commit`; fails on a primary key or an existing inlined-data table. */
    method Commit(ch: TransactionChanges, info: SnapshotRow, made: string, same: (string, string) -> bool)
      returns (ok: bool)
      modifies this
      ensures ok ==> PersistedInlined(old(db), ch, info.schemaVersion, info.id).Some?
                     && db == Persisted(old(db), ch, info, made, same,
                                        PersistedInlined(old(db), ch, info.schemaVersion, info.id).value)
      ensures ok <==> info.id !in SnapshotIds(old(db))
                      && PersistedInlined(old(db), ch, info.schemaVersion, info.id).Some?
      ensures !ok ==> db == old(db)
    {
      var before := db;
      var n := info.id;
      RetireRows(ch, n);
      db := db.(schemas := db.schemas + Inserted(ch.newSchemas, n));
      var copies := RenamedCopies(db.tables, ch.renamedTables, n);
      assert db.tables + (copies + Inserted(ch.newTables, n)) == db.tables + copies + Inserted(ch.newTables, n);
      db := db.(tables := db.tables + copies);
      db := db.(tables := db.tables + Inserted(ch.newTables, n));
      db := db.(views := db.views + Inserted(ch.newViews, n), macros := db.macros + Inserted(ch.newMacros, n),
                macroImpls := db.macroImpls + ch.newMacroImpls, macroParameters := db.macroParameters + ch.newMacroParameters,
                columns := db.columns + ch.newColumns, partitions := db.partitions + ch.newPartitions,
                partitionColumns := db.partitionColumns + ch.newPartitionColumns, sorts := db.sorts + ch.newSorts,
                sortExpressions := db.sortExpressions + ch.newSortExpressions,
                tags := db.tags + Inserted(ch.newTags, n), columnTags := db.columnTags + Inserted(ch.newColumnTags, n));
      var tags := PersistTags(db.tags, ch.tableTags, n, same);
      var columnTags := PersistTags(db.columnTags, ch.columnTags, n, same);
      db := db.(tags := tags, columnTags := columnTags,
                dataFiles := db.dataFiles + Inserted(ch.dataFiles, n), partitionValues := db.partitionValues + ch.partitionValues,
                fileStats := db.fileStats + ch.fileStats, deleteFiles := db.deleteFiles + Inserted(ch.deleteFiles, n));
      var inlined := PersistInlineData(before, ch, info.schemaVersion, n);
      if inlined.None? || info.id in SnapshotIds(before) {
        db := before;
        return false;
      }
      db := db.(inlinedData := inlined.value,
                inlinedTables := db.inlinedTables + Map((id: int) => InlinedTableRow(id, info.schemaVersion), ch.inlineTables),
                snapshots := db.snapshots + [info], changes := db.changes + [ChangesRow(n, made)],
                schemaVersions := db.schemaVersions
                                  + Map((id: int) => SchemaVersionRow(n, info.schemaVersion, id), ch.schemaChangedTables));
      ok := true;
    }
  }
}
