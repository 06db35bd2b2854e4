/** A commit leaves every earlier snapshot as it was and makes the new head exactly its changes. */
module TimeTravel {
  import opened Prelude
  import opened Versions
  import opened Tags
  import opened Catalog
  import opened Persist

  /** What collecting the changes of an attempt at snapshot `n` guarantees about them. */
  ghost predicate Collected(db: Database, ch: TransactionChanges, n: int) {
    && InsertedAt(ch.newColumns, n) && InsertedAt(ch.newPartitions, n) && InsertedAt(ch.newSorts, n)
    && (forall t :: t in ch.newTables ==> t.tableId !in ch.renamedTables && t.tableId !in ch.droppedTables)
    && ch.droppedTables !! ch.renamedTables.Keys
    && DistinctOwners(ch.tableTags) && DistinctOwners(ch.columnTags)
    && FreshDependents(db, ch)
  }

  /** Rows without an interval of their own belong to objects this commit creates. */
  ghost predicate FreshDependents(db: Database, ch: TransactionChanges) {
    && (forall r, v :: r in ch.newMacroImpls && v in db.macros ==> v.row.macroId != r.macroId)
    && (forall r, v :: r in ch.newMacroParameters && v in db.macros ==> v.row.macroId != r.macroId)
    && (forall r, v :: r in ch.newPartitionColumns && v in db.partitions ==> v.row.partitionId != r.partitionId)
    && (forall r, v :: r in ch.newSortExpressions && v in db.sorts ==> v.row.sortId != r.sortId)
    && (forall r, v :: r in ch.fileStats && v in db.dataFiles ==> v.row.fileId != r.dataFileId)
    && (forall r, v :: r in ch.partitionValues && v in db.dataFiles ==> v.row.fileId != r.dataFileId)
  }

  /** Statistics and partition values of a file carry the file's table. */
  ghost predicate FileRowsMatch(db: Database) {
    && (forall r, v :: r in db.fileStats && v in db.dataFiles && v.row.fileId == r.dataFileId ==> v.row.tableId == r.tableId)
    && (forall r, v :: r in db.partitionValues && v in db.dataFiles && v.row.fileId == r.dataFileId ==> v.row.tableId == r.tableId)
  }

  // ----- the past -----

  lemma TagsPast<K>(rows: seq<Versioned<Tag<K>>>, ends: Tag<K> -> bool, added: seq<Tag<K>>, edits: seq<Edits<K>>,
                    n: int, same: (string, string) -> bool, s: int)
    requires s < n
    ensures View(PersistedTags(rows, ends, added, edits, n, same), s) == View(rows, s)
  {
    AdvancePast(rows, ends, n, Inserted(added, n), s);
    RoundsPast(Advance(rows, ends, n, Inserted(added, n)), edits, LongestEdits(edits), n, same, s);
  }

  /** Every versioned catalog relation shows an earlier snapshot what it showed before the commit. */
  lemma PastViews(db: Database, ch: TransactionChanges, info: SnapshotRow, made: string, same: (string, string) -> bool,
                  inlined: map<InlinedTableRow, seq<Versioned<string>>>, s: int)
    requires s < info.id && Collected(db, ch, info.id)
    ensures
      var after := Persisted(db, ch, info, made, same, inlined);
      && View(after.schemas, s) == View(db.schemas, s) && View(after.tables, s) == View(db.tables, s)
      && View(after.views, s) == View(db.views, s) && View(after.macros, s) == View(db.macros, s)
      && View(after.columns, s) == View(db.columns, s) && View(after.columnTags, s) == View(db.columnTags, s)
      && View(after.tags, s) == View(db.tags, s) && View(after.partitions, s) == View(db.partitions, s)
      && View(after.sorts, s) == View(db.sorts, s)
  {
    var n := info.id;
    AdvancePast(db.schemas, SchemaEnds(ch), n, Inserted(ch.newSchemas, n), s);
    AdvancePast(db.tables, TableEnds(ch), n,
                RenamedCopies(Retire(db.tables, TableEnds(ch), n), ch.renamedTables, n) + Inserted(ch.newTables, n), s);
    AdvancePast(db.views, ViewEnds(ch), n, Inserted(ch.newViews, n), s);
    AdvancePast(db.macros, MacroEnds(ch), n, Inserted(ch.newMacros, n), s);
    AdvancePast(db.columns, ColumnEnds(ch), n, ch.newColumns, s);
    AdvancePast(db.partitions, PartitionEnds(ch), n, ch.newPartitions, s);
    AdvancePast(db.sorts, SortEnds(ch), n, ch.newSorts, s);
    TagsPast(db.columnTags, ColumnTagEnds(ch), ch.newColumnTags, ch.columnTags, n, same, s);
    TagsPast(db.tags, TagEnds(ch), ch.newTags, ch.tableTags, n, same, s);
  }

  lemma FilterOld<T>(p: T -> bool, q: T -> bool, rows: seq<T>, added: seq<T>)
    requires forall x :: x in rows ==> p(x) == q(x)
    requires forall x :: x in added ==> !p(x)
    ensures Filter(p, rows + added) == Filter(q, rows)
  {
    FilterAppend(p, rows, added);
    FilterNone(p, added);
    FilterCongruent(p, q, rows);
  }

  lemma PastDependents(db: Database, ch: TransactionChanges, info: SnapshotRow, made: string, same: (string, string) -> bool,
                       inlined: map<InlinedTableRow, seq<Versioned<string>>>, s: int, id: int)
    requires s < info.id && Collected(db, ch, info.id)
    ensures PartsOf(Persisted(db, ch, info, made, same, inlined), s, id) == PartsOf(db, s, id)
  {
    hide Filter, View, Retire, Advance, Inserted, VisibleAt, PersistedTags;
    var after := Persisted(db, ch, info, made, same, inlined);
    PastViews(db, ch, info, made, same, inlined, s);
    FilterOld((c: PartitionColumnRow) => c.tableId == id && PartitionActive(after, s, id, c.partitionId),
              (c: PartitionColumnRow) => c.tableId == id && PartitionActive(db, s, id, c.partitionId),
              db.partitionColumns, ch.newPartitionColumns);
    FilterOld((e: SortExpressionRow) => e.tableId == id && SortActive(after, s, id, e.sortId),
              (e: SortExpressionRow) => e.tableId == id && SortActive(db, s, id, e.sortId),
              db.sortExpressions, ch.newSortExpressions);
  }

  /** Loading the catalog at an earlier snapshot is not affected by the commit. */
  lemma PastCatalog(db: Database, ch: TransactionChanges, info: SnapshotRow, made: string, same: (string, string) -> bool,
                    inlined: map<InlinedTableRow, seq<Versioned<string>>>, s: int)
    requires s < info.id && Collected(db, ch, info.id)
    ensures Load(Persisted(db, ch, info, made, same, inlined), s) == Load(db, s)
  {
    hide Filter, View, Retire, Advance, Inserted, VisibleAt, PersistedTags, PartsOf, Load;
    var after := Persisted(db, ch, info, made, same, inlined);
    PastViews(db, ch, info, made, same, inlined, s);
    forall t | t in View(db.tables, s) ensures PartsOf(after, s, t.tableId) == PartsOf(db, s, t.tableId) {
      PastDependents(db, ch, info, made, same, inlined, s, t.tableId);
    }
    forall m | m in View(db.macros, s) ensures MacroPartsOf(after, m.macroId) == MacroPartsOf(db, m.macroId) {
      FilterOld((i: MacroImplRow) => i.macroId == m.macroId, (i: MacroImplRow) => i.macroId == m.macroId,
                db.macroImpls, ch.newMacroImpls);
      FilterOld((p: MacroParameterRow) => p.macroId == m.macroId, (p: MacroParameterRow) => p.macroId == m.macroId,
                db.macroParameters, ch.newMacroParameters);
    }
    LoadsAgree(after, s, db, s);
  }

  lemma FilesPast<T>(rows: seq<Versioned<T>>, tableId: T -> int, detached: set<int>, ends: T -> bool, added: seq<T>,
                     n: int, s: int, mine: T -> bool)
    requires s < n
    requires forall v :: v in rows && mine(v.row) ==> tableId(v.row) !in detached
    ensures Filter(mine, View(Advance(Attached(rows, tableId, detached), ends, n, Inserted(added, n)), s))
         == Filter(mine, View(rows, s))
  {
    AdvancePast(Attached(rows, tableId, detached), ends, n, Inserted(added, n), s);
    SelectedViewOfKept(rows, (v: Versioned<T>) => tableId(v.row) !in detached, mine, s);
  }

  lemma PastFiles(db: Database, ch: TransactionChanges, info: SnapshotRow, made: string, same: (string, string) -> bool,
                  inlined: map<InlinedTableRow, seq<Versioned<string>>>, s: int, id: int)
    requires s < info.id && id !in ch.detachedTables
    ensures
      var after := Persisted(db, ch, info, made, same, inlined);
      && Scan(after, s, id).dataFiles == Scan(db, s, id).dataFiles
      && Scan(after, s, id).deleteFiles == Scan(db, s, id).deleteFiles
  {
    FilesPast(db.dataFiles, DataFileTable(), ch.detachedTables, DataFileEnds(ch), ch.dataFiles, info.id, s,
              (f: DataFileRow) => f.tableId == id);
    FilesPast(db.deleteFiles, DeleteFileTable(), ch.detachedTables, DeleteFileEnds(ch), ch.deleteFiles, info.id, s,
              (f: DeleteFileRow) => f.tableId == id);
  }

  /** A file of a table that keeps its files is visible to an earlier snapshot as before. */
  lemma PastFileVisible(db: Database, ch: TransactionChanges, info: SnapshotRow, made: string, same: (string, string) -> bool,
                        inlined: map<InlinedTableRow, seq<Versioned<string>>>, s: int, id: int, file: int)
    requires s < info.id && id !in ch.detachedTables
    requires forall v :: v in db.dataFiles && v.row.fileId == file ==> v.row.tableId == id
    ensures FileVisible(Persisted(db, ch, info, made, same, inlined), s, file) == FileVisible(db, s, file)
  {
    var after := Persisted(db, ch, info, made, same, inlined);
    var rows := Attached(db.dataFiles, DataFileTable(), ch.detachedTables);
    AdvancePast(rows, DataFileEnds(ch), info.id, Inserted(ch.dataFiles, info.id), s);
    assert View(after.dataFiles, s) == View(rows, s);
    if FileVisible(db, s, file) {
      var x :| x in View(db.dataFiles, s) && x.fileId == file;
      var v :| v in db.dataFiles && VisibleAt(v, s) && v.row == x;
      assert v in rows;
    }
    if FileVisible(after, s, file) {
      var x: DataFileRow :| x in View(rows, s) && x.fileId == file;
      var v :| v in rows && VisibleAt(v, s) && v.row == x;
    }
  }

  lemma PastFileRows(db: Database, ch: TransactionChanges, info: SnapshotRow, made: string, same: (string, string) -> bool,
                     inlined: map<InlinedTableRow, seq<Versioned<string>>>, s: int, id: int)
    requires s < info.id && id !in ch.detachedTables && FreshDependents(db, ch) && FileRowsMatch(db)
    ensures
      var after := Persisted(db, ch, info, made, same, inlined);
      && Scan(after, s, id).fileStats == Scan(db, s, id).fileStats
      && Scan(after, s, id).partitionValues == Scan(db, s, id).partitionValues
  {
    var after := Persisted(db, ch, info, made, same, inlined);
    var rows := Attached(db.dataFiles, DataFileTable(), ch.detachedTables);
    AdvancePast(rows, DataFileEnds(ch), info.id, Inserted(ch.dataFiles, info.id), s);
    var statsNow := (r: FileStatsRow) => r.tableId == id && FileVisible(after, s, r.dataFileId);
    var statsThen := (r: FileStatsRow) => r.tableId == id && FileVisible(db, s, r.dataFileId);
    var keptStats := (r: FileStatsRow) => r.tableId !in ch.detachedTables;
    forall r | r in Filter(keptStats, db.fileStats) ensures statsNow(r) == statsThen(r) {
      if r.tableId == id { PastFileVisible(db, ch, info, made, same, inlined, s, id, r.dataFileId); }
    }
    forall r | r in ch.fileStats ensures !statsNow(r) {
      NewFileInvisible(db, ch, info, made, same, inlined, s, r.dataFileId);
    }
    FilterOld(statsNow, statsThen, Filter(keptStats, db.fileStats), ch.fileStats);
    FilterAbsorbs(statsThen, keptStats, db.fileStats);
    var valuesNow := (r: PartitionValueRow) => r.tableId == id && FileVisible(after, s, r.dataFileId);
    var valuesThen := (r: PartitionValueRow) => r.tableId == id && FileVisible(db, s, r.dataFileId);
    var keptValues := (r: PartitionValueRow) => r.tableId !in ch.detachedTables;
    forall r | r in Filter(keptValues, db.partitionValues) ensures valuesNow(r) == valuesThen(r) {
      if r.tableId == id { PastFileVisible(db, ch, info, made, same, inlined, s, id, r.dataFileId); }
    }
    forall r | r in ch.partitionValues ensures !valuesNow(r) {
      NewFileInvisible(db, ch, info, made, same, inlined, s, r.dataFileId);
    }
    FilterOld(valuesNow, valuesThen, Filter(keptValues, db.partitionValues), ch.partitionValues);
    FilterAbsorbs(valuesThen, keptValues, db.partitionValues);
  }

  lemma NewFileInvisible(db: Database, ch: TransactionChanges, info: SnapshotRow, made: string, same: (string, string) -> bool,
                         inlined: map<InlinedTableRow, seq<Versioned<string>>>, s: int, file: int)
    requires s < info.id
    requires forall v :: v in db.dataFiles ==> v.row.fileId != file
    ensures !FileVisible(Persisted(db, ch, info, made, same, inlined), s, file)
  {
    var after := Persisted(db, ch, info, made, same, inlined);
    var rows := Attached(db.dataFiles, DataFileTable(), ch.detachedTables);
    AdvancePast(rows, DataFileEnds(ch), info.id, Inserted(ch.dataFiles, info.id), s);
    forall x: DataFileRow | x in View(rows, s) ensures x.fileId != file {
      var v :| v in rows && VisibleAt(v, s) && v.row == x;
    }
  }

  // ----- inlined rows -----

  /** Creating and filling inlined-data tables adds nothing that an earlier snapshot sees. */
  ghost predicate InlinedPast(before: map<InlinedTableRow, seq<Versioned<string>>>,
                              after: map<InlinedTableRow, seq<Versioned<string>>>, n: int) {
    && (forall k :: k in before ==> k in after)
    && (forall k, s :: k in after && s < n ==> View(after[k], s) == if k in before then View(before[k], s) else [])
  }

  lemma {:induction false} CreateInlinedPast(data: map<InlinedTableRow, seq<Versioned<string>>>, ids: seq<int>,
                                             schemaVersion: int, n: int)
    requires CreateInlined(data, ids, schemaVersion).Some?
    ensures InlinedPast(data, CreateInlined(data, ids, schemaVersion).value, n)
    decreases ids
  {
    if ids != [] {
      var key := InlinedTableRow(ids[0], schemaVersion);
      CreateInlinedPast(data[key := []], ids[1..], schemaVersion, n);
    }
  }

  lemma {:induction false} WriteInlinedPast(data: map<InlinedTableRow, seq<Versioned<string>>>, registered: seq<InlinedTableRow>,
                                            created: seq<int>, writes: seq<(int, seq<string>)>, schemaVersion: int, n: int)
    requires WriteInlined(data, registered, created, writes, schemaVersion, n).Some?
    ensures InlinedPast(data, WriteInlined(data, registered, created, writes, schemaVersion, n).value, n)
    decreases writes
  {
    if writes != [] {
      var key := InlineTarget(registered, created, writes[0].0, schemaVersion).value;
      var next := data[key := data[key] + Inserted(writes[0].1, n)];
      forall s | s < n ensures View(next[key], s) == View(data[key], s) {
        ViewAppend(data[key], Inserted(writes[0].1, n), s);
        ViewNothing(Inserted(writes[0].1, n), s);
      }
      WriteInlinedPast(next, registered, created, writes[1..], schemaVersion, n);
    }
  }

  lemma {:induction false} InlinedOfPast(a: Database, b: Database, s: int, tables: seq<InlinedTableRow>, added: seq<InlinedTableRow>)
    requires forall r :: r in tables ==> InlinedRows(a, r, s) == InlinedRows(b, r, s)
    requires forall r :: r in added ==> InlinedRows(a, r, s) == []
    ensures InlinedOf(a, s, tables + added) == InlinedOf(b, s, tables)
  {
    if tables != [] {
      assert (tables + added)[1..] == tables[1..] + added;
      InlinedOfPast(a, b, s, tables[1..], added);
    } else if added != [] {
      assert tables + added == added && added[0] in added;
      assert [] + added[1..] == added[1..];
      InlinedOfPast(a, b, s, [], added[1..]);
    }
  }

  lemma PastInlined(db: Database, ch: TransactionChanges, info: SnapshotRow, made: string, same: (string, string) -> bool,
                    s: int, id: int)
    requires s < info.id
    requires PersistedInlined(db, ch, info.schemaVersion, info.id).Some?
    ensures
      var inlined := PersistedInlined(db, ch, info.schemaVersion, info.id).value;
      Scan(Persisted(db, ch, info, made, same, inlined), s, id).inlined == Scan(db, s, id).inlined
  {
    var n := info.id;
    var inlined := PersistedInlined(db, ch, info.schemaVersion, n).value;
    var created := CreateInlined(db.inlinedData, ch.inlineTables, info.schemaVersion).value;
    CreateInlinedPast(db.inlinedData, ch.inlineTables, info.schemaVersion, n);
    WriteInlinedPast(created, db.inlinedTables, ch.inlineTables, ch.inlineData, info.schemaVersion, n);
    var after := Persisted(db, ch, info, made, same, inlined);
    forall r: InlinedTableRow ensures InlinedRows(after, r, s) == InlinedRows(db, r, s) {
    }
    var mine := (r: InlinedTableRow) => r.tableId == id;
    var added := Map((t: int) => InlinedTableRow(t, info.schemaVersion), ch.inlineTables);
    FilterAppend(mine, db.inlinedTables, added);
    forall r | r in Filter(mine, added) ensures InlinedRows(after, r, s) == [] {
      CreatedIsNew(db.inlinedData, ch.inlineTables, info.schemaVersion, r);
    }
    InlinedOfPast(after, db, s, Filter(mine, db.inlinedTables), Filter(mine, added));
  }

  lemma {:induction false} CreatedIsNew(data: map<InlinedTableRow, seq<Versioned<string>>>, ids: seq<int>, schemaVersion: int,
                                        r: InlinedTableRow)
    requires CreateInlined(data, ids, schemaVersion).Some?
    requires r in Map((t: int) => InlinedTableRow(t, schemaVersion), ids)
    ensures r !in data
    decreases ids
  {
    var key := InlinedTableRow(ids[0], schemaVersion);
    if r != key {
      CreatedIsNew(data[key := []], ids[1..], schemaVersion, r);
    }
  }

  /** A scan of a table at an earlier snapshot reads what it read before, unless its files were detached. */
  lemma PastScan(db: Database, ch: TransactionChanges, info: SnapshotRow, made: string, same: (string, string) -> bool,
                 s: int, id: int)
    requires s < info.id && id !in ch.detachedTables
    requires FreshDependents(db, ch) && FileRowsMatch(db)
    requires PersistedInlined(db, ch, info.schemaVersion, info.id).Some?
    ensures
      var inlined := PersistedInlined(db, ch, info.schemaVersion, info.id).value;
      Scan(Persisted(db, ch, info, made, same, inlined), s, id) == Scan(db, s, id)
  {
    var inlined := PersistedInlined(db, ch, info.schemaVersion, info.id).value;
    PastFiles(db, ch, info, made, same, inlined, s, id);
    PastFileRows(db, ch, info, made, same, inlined, s, id);
    PastInlined(db, ch, info, made, same, s, id);
  }

  // ----- the new head -----

  lemma {:induction false} ViewInserted<T>(rows: seq<T>, n: int)
    ensures View(Inserted(rows, n), n) == rows
  {
    if rows != [] {
      ViewInserted(rows[1..], n);
    }
  }

  /** The copies made for renames are the live versions of the renamed tables, renamed. */
  lemma {:induction false} RenamedView(rows: seq<Versioned<TableRow>>, ch: TransactionChanges, n: int)
    requires Settled(rows, n - 1)
    ensures View(RenamedCopies(Retire(rows, TableEnds(ch), n), ch.renamedTables, n), n)
         == Map(Rename(ch.renamedTables), Filter(IsRenamed(ch.renamedTables), View(rows, n - 1)))
  {
    if rows != [] {
      assert rows[0] in rows;
      RenamedView(rows[1..], ch, n);
      assert Retire(rows, TableEnds(ch), n)[1..] == Retire(rows[1..], TableEnds(ch), n);
    }
  }

  lemma EndsOrStays(ch: TransactionChanges)
    ensures forall t :: Not(TableEnds(ch))(t) == (t.tableId !in ch.droppedTables && t.tableId !in ch.renamedTables)
  {
  }

  /** The tables at the new head: the untouched ones, the renamed ones, the created ones. */
  lemma HeadTables(rows: seq<Versioned<TableRow>>, ch: TransactionChanges, n: int)
    requires Settled(rows, n - 1)
    ensures View(PersistedTables(rows, ch, n), n)
         == Filter((t: TableRow) => t.tableId !in ch.droppedTables && t.tableId !in ch.renamedTables, View(rows, n - 1))
            + Map(Rename(ch.renamedTables), Filter(IsRenamed(ch.renamedTables), View(rows, n - 1)))
            + ch.newTables
  {
    hide View, Filter, Retire, VisibleAt, RenamedCopies, Map, Not, IsRenamed, Rename, TableEnds;
    var copies := RenamedCopies(Retire(rows, TableEnds(ch), n), ch.renamedTables, n);
    AdvanceHead(rows, TableEnds(ch), n, copies + Inserted(ch.newTables, n));
    ViewAppend(copies, Inserted(ch.newTables, n), n);
    RenamedView(rows, ch, n);
    ViewInserted(ch.newTables, n);
    var untouched := (t: TableRow) => t.tableId !in ch.droppedTables && t.tableId !in ch.renamedTables;
    assert forall t :: Not(TableEnds(ch))(t) == untouched(t) by { EndsOrStays(ch); }
    FilterCongruent(Not(TableEnds(ch)), untouched, View(rows, n - 1));
    var kept, renamed := Filter(untouched, View(rows, n - 1)), View(copies, n);
    assert kept + (renamed + ch.newTables) == kept + renamed + ch.newTables;
  }

  function WithId(id: int): TableRow -> bool { (t: TableRow) => t.tableId == id }

  lemma {:induction false} RenamedOnce(tables: seq<TableRow>, renames: map<int, string>, id: int)
    requires id in renames
    ensures Filter(WithId(id), Map(Rename(renames), Filter(IsRenamed(renames), tables)))
         == Map(Rename(renames), Filter(WithId(id), tables))
  {
    if tables != [] {
      RenamedOnce(tables[1..], renames, id);
    }
  }

  /** Each renamed table keeps exactly as many live versions as it had, one of them renamed to each. */
  lemma RenamedTableHasOneVersion(db: Database, ch: TransactionChanges, n: int, id: int)
    requires Settled(db.tables, n - 1) && Collected(db, ch, n)
    requires id in ch.renamedTables
    ensures Filter(WithId(id), View(PersistedTables(db.tables, ch, n), n))
         == Map(Rename(ch.renamedTables), Filter(WithId(id), View(db.tables, n - 1)))
    ensures |Filter(WithId(id), View(db.tables, n - 1))| == 1 ==>
              var live := Filter(WithId(id), View(PersistedTables(db.tables, ch, n), n));
              |live| == 1 && live[0].name == ch.renamedTables[id]
  {
    hide View, PersistedTables, Advance, RenamedCopies, FreshDependents;
    var before := View(db.tables, n - 1);
    var kept := Filter((t: TableRow) => t.tableId !in ch.droppedTables && t.tableId !in ch.renamedTables, before);
    var renamed := Map(Rename(ch.renamedTables), Filter(IsRenamed(ch.renamedTables), before));
    HeadTables(db.tables, ch, n);
    FilterAppend(WithId(id), kept + renamed, ch.newTables);
    FilterAppend(WithId(id), kept, renamed);
    FilterNone(WithId(id), kept);
    FilterNone(WithId(id), ch.newTables);
    RenamedOnce(before, ch.renamedTables, id);
    var live := Filter(WithId(id), before);
    if |live| == 1 {
      assert live[0] in live;
    }
  }

  /** Ending by `p` leaves what `q` keeps. */
  lemma HeadKeeps<T>(rows: seq<Versioned<T>>, p: T -> bool, q: T -> bool, n: int, added: seq<Versioned<T>>)
    requires Settled(rows, n - 1) && InsertedAt(added, n) && forall x :: q(x) == !p(x)
    ensures View(Advance(rows, p, n, added), n) == Filter(q, View(rows, n - 1)) + View(added, n)
  {
    AdvanceHead(rows, p, n, added);
    FilterCongruent(Not(p), q, View(rows, n - 1));
  }

  /** At the new head every relation is the old head's without the ended rows, then the inserted ones. */
  lemma NewHead(db: Database, ch: TransactionChanges, info: SnapshotRow, made: string, same: (string, string) -> bool,
                inlined: map<InlinedTableRow, seq<Versioned<string>>>)
    requires Collected(db, ch, info.id)
    requires SettledCatalog(db, info.id - 1)
    ensures
      var after, n, h := Persisted(db, ch, info, made, same, inlined), info.id, info.id - 1;
      && View(after.schemas, n) == Filter((r: SchemaRow) => r.schemaId !in ch.droppedSchemas, View(db.schemas, h)) + ch.newSchemas
      && View(after.views, n) == Filter((r: ViewRow) => r.viewId !in ch.droppedViews, View(db.views, h)) + ch.newViews
      && View(after.macros, n) == Filter((r: MacroRow) => r.macroId !in ch.droppedMacros, View(db.macros, h)) + ch.newMacros
      && View(after.columns, n)
         == Filter((r: ColumnRow) => r.tableId !in ch.droppedTables && (r.tableId, r.columnId) !in ch.retiredColumns,
                   View(db.columns, h)) + View(ch.newColumns, n)
      && View(after.partitions, n)
         == Filter((r: PartitionRow) => r.tableId !in ch.droppedTables && r.tableId !in ch.retiredPartitionTables,
                   View(db.partitions, h)) + View(ch.newPartitions, n)
      && View(after.sorts, n)
         == Filter((r: SortRow) => r.tableId !in ch.droppedTables && r.tableId !in ch.retiredSortTables,
                   View(db.sorts, h)) + View(ch.newSorts, n)
  {
    hide View, Filter, Retire, Advance, Inserted, VisibleAt, RenamedCopies, PersistedTags, RunRounds, FreshDependents, Not;
    var n := info.id;
    HeadKeeps(db.schemas, SchemaEnds(ch), (r: SchemaRow) => r.schemaId !in ch.droppedSchemas, n, Inserted(ch.newSchemas, n));
    HeadKeeps(db.views, ViewEnds(ch), (r: ViewRow) => r.viewId !in ch.droppedViews, n, Inserted(ch.newViews, n));
    HeadKeeps(db.macros, MacroEnds(ch), (r: MacroRow) => r.macroId !in ch.droppedMacros, n, Inserted(ch.newMacros, n));
    HeadKeeps(db.columns, ColumnEnds(ch),
              (r: ColumnRow) => r.tableId !in ch.droppedTables && (r.tableId, r.columnId) !in ch.retiredColumns, n, ch.newColumns);
    HeadKeeps(db.partitions, PartitionEnds(ch),
              (r: PartitionRow) => r.tableId !in ch.droppedTables && r.tableId !in ch.retiredPartitionTables, n, ch.newPartitions);
    HeadKeeps(db.sorts, SortEnds(ch),
              (r: SortRow) => r.tableId !in ch.droppedTables && r.tableId !in ch.retiredSortTables, n, ch.newSorts);
    ViewInserted(ch.newSchemas, n);
    ViewInserted(ch.newViews, n);
    ViewInserted(ch.newMacros, n);
  }

  ghost predicate SettledCatalog(db: Database, h: int) {
    && Settled(db.schemas, h) && Settled(db.tables, h) && Settled(db.views, h) && Settled(db.macros, h)
    && Settled(db.columns, h) && Settled(db.columnTags, h) && Settled(db.tags, h)
    && Settled(db.partitions, h) && Settled(db.sorts, h)
  }

  ghost predicate SettledFiles(db: Database, h: int) { Settled(db.dataFiles, h) && Settled(db.deleteFiles, h) }

  /** Ending by table leaves the rows of the other tables whose files are still attached. */
  lemma HeadKeepsFiles<T>(rows: seq<Versioned<T>>, tableId: T -> int, detached: set<int>, ends: T -> bool, keeps: T -> bool,
                          n: int, added: seq<T>)
    requires Settled(rows, n - 1) && forall x :: keeps(x) == (!ends(x) && tableId(x) !in detached)
    ensures View(Advance(Attached(rows, tableId, detached), ends, n, Inserted(added, n)), n)
         == Filter(keeps, View(rows, n - 1)) + added
  {
    var attached := Attached(rows, tableId, detached);
    AdvanceHead(attached, ends, n, Inserted(added, n));
    ViewInserted(added, n);
    AttachedView(rows, tableId, detached, n - 1);
    FilterAndFilter(Not(ends), (x: T) => tableId(x) !in detached, keeps, View(rows, n - 1));
  }

  lemma {:induction false} AttachedView<T>(rows: seq<Versioned<T>>, tableId: T -> int, detached: set<int>, s: int)
    ensures View(Attached(rows, tableId, detached), s) == Filter((x: T) => tableId(x) !in detached, View(rows, s))
  {
    if rows != [] {
      var keep := (v: Versioned<T>) => tableId(v.row) !in detached;
      AttachedView(rows[1..], tableId, detached, s);
      ViewAppend(if keep(rows[0]) then [rows[0]] else [], Attached(rows[1..], tableId, detached), s);
      FilterAppend((x: T) => tableId(x) !in detached, View([rows[0]], s), View(rows[1..], s));
      assert [rows[0]] + rows[1..] == rows;
      ViewAppend([rows[0]], rows[1..], s);
    }
  }

  lemma {:induction false} FilterAndFilter<T>(p: T -> bool, q: T -> bool, both: T -> bool, s: seq<T>)
    requires forall x :: both(x) == (p(x) && q(x))
    ensures Filter(p, Filter(q, s)) == Filter(both, s)
  {
    if s != [] {
      FilterAndFilter(p, q, both, s[1..]);
      FilterAppend(p, if q(s[0]) then [s[0]] else [], Filter(q, s[1..]));
    }
  }

  /** Files at the new head: those of tables neither dropped nor detached, then the files this commit adds. */
  lemma NewHeadFiles(db: Database, ch: TransactionChanges, info: SnapshotRow, made: string, same: (string, string) -> bool,
                     inlined: map<InlinedTableRow, seq<Versioned<string>>>)
    requires SettledFiles(db, info.id - 1)
    ensures
      var after, n, h := Persisted(db, ch, info, made, same, inlined), info.id, info.id - 1;
      && View(after.dataFiles, n)
         == Filter((f: DataFileRow) => f.tableId !in ch.droppedTables && f.tableId !in ch.detachedTables, View(db.dataFiles, h))
            + ch.dataFiles
      && View(after.deleteFiles, n)
         == Filter((f: DeleteFileRow) => f.tableId !in ch.droppedTables && f.tableId !in ch.detachedTables, View(db.deleteFiles, h))
            + ch.deleteFiles
  {
    hide View, Filter, Retire, Advance, Inserted, VisibleAt, PersistedTags, RunRounds, Not;
    var n := info.id;
    HeadKeepsFiles(db.dataFiles, DataFileTable(), ch.detachedTables, DataFileEnds(ch),
                   (f: DataFileRow) => f.tableId !in ch.droppedTables && f.tableId !in ch.detachedTables, n, ch.dataFiles);
    HeadKeepsFiles(db.deleteFiles, DeleteFileTable(), ch.detachedTables, DeleteFileEnds(ch),
                   (f: DeleteFileRow) => f.tableId !in ch.droppedTables && f.tableId !in ch.detachedTables, n, ch.deleteFiles);
  }

  /** The new head's tags of an object: its tags before unless dropped, the initial ones, then its edits. */
  lemma NewHeadTags<K>(rows: seq<Versioned<Tag<K>>>, ends: Tag<K> -> bool, added: seq<Tag<K>>, edits: seq<Edits<K>>,
                       n: int, same: (string, string) -> bool, owner: K)
    requires Settled(rows, n - 1) && DistinctOwners(edits) && Equivalence(same)
    ensures
      var after := PersistedTags(rows, ends, added, edits, n, same);
      var before := Filter(Not(ends), Filter(OwnedBy(owner), View(rows, n - 1))) + Filter(OwnedBy(owner), added);
      && Filter(OwnedBy(owner), View(after, n)) == ApplyEdits(before, owner, ChangesOf(edits, owner), same)
      && (UniqueKeys(before, same) ==> UniqueKeys(Filter(OwnedBy(owner), View(after, n)), same))
  {
    var start := Advance(rows, ends, n, Inserted(added, n));
    var after := PersistedTags(rows, ends, added, edits, n, same);
    TagRounds(start, edits, n, same, owner);
    AdvanceSettled(rows, ends, n, Inserted(added, n));
    RoundsSettled(start, edits, LongestEdits(edits), n, same);
    HeadSeesOpen(after, n);
    HeadSeesOpen(rows, n - 1);
    AdvanceLive(rows, ends, n, Inserted(added, n), owner);
    AdvanceSettled([], ends, n, Inserted(added, n));
    HeadSeesOpen(Inserted(added, n), n);
    ViewInserted(added, n);
  }

  /** A commit records itself, its change row, and one schema version for every table whose schema it changes. */
  lemma NewHeadRecords(db: Database, ch: TransactionChanges, info: SnapshotRow, made: string, same: (string, string) -> bool,
                       inlined: map<InlinedTableRow, seq<Versioned<string>>>)
    ensures
      var after := Persisted(db, ch, info, made, same, inlined);
      && after.snapshots == db.snapshots + [info]
      && after.changes == db.changes + [ChangesRow(info.id, made)]
      && (forall r :: r in after.schemaVersions <==>
            || r in db.schemaVersions
            || (r.begin == info.id && r.schemaVersion == info.schemaVersion && r.tableId in ch.schemaChangedTables))
      && (forall k :: k in after.inlinedTables <==>
            k in db.inlinedTables || (k.schemaVersion == info.schemaVersion && k.tableId in ch.inlineTables))
      && after.scheduled == db.scheduled && after.options == db.options
  {
    hide Advance, PersistedTags, PersistedTables, Filter;
    MapMembers((id: int) => SchemaVersionRow(info.id, info.schemaVersion, id), ch.schemaChangedTables);
    MapMembers((id: int) => InlinedTableRow(id, info.schemaVersion), ch.inlineTables);
    forall r: SchemaVersionRow
      ensures r in Map((id: int) => SchemaVersionRow(info.id, info.schemaVersion, id), ch.schemaChangedTables) <==>
                r.begin == info.id && r.schemaVersion == info.schemaVersion && r.tableId in ch.schemaChangedTables
    {
      assert r == SchemaVersionRow(r.begin, r.schemaVersion, r.tableId);
    }
    forall k: InlinedTableRow
      ensures k in Map((id: int) => InlinedTableRow(id, info.schemaVersion), ch.inlineTables) <==>
                k.schemaVersion == info.schemaVersion && k.tableId in ch.inlineTables
    {
      assert k == InlinedTableRow(k.tableId, k.schemaVersion);
    }
  }

  /** If the owner is dropped it has no tags left, else those it had. */
  lemma EndedTags<K>(ends: Tag<K> -> bool, tags: seq<Tag<K>>, owner: K, dropped: bool)
    requires forall t: Tag<K> :: t.owner == owner ==> ends(t) == dropped
    ensures Filter(Not(ends), Filter(OwnedBy(owner), tags)) == if dropped then [] else Filter(OwnedBy(owner), tags)
  {
    if dropped {
      FilterNone(Not(ends), Filter(OwnedBy(owner), tags));
    } else {
      FilterAll(Not(ends), Filter(OwnedBy(owner), tags));
    }
  }

  /** `NewHeadTags` for a selection by owner, when the owner's tags end all or none. */
  lemma OwnTagsAtHead<K>(rows: seq<Versioned<Tag<K>>>, ends: Tag<K> -> bool, added: seq<Tag<K>>, edits: seq<Edits<K>>, n: int,
                         same: (string, string) -> bool, owner: K, mine: Tag<K> -> bool, dropped: bool)
    requires Settled(rows, n - 1) && DistinctOwners(edits) && Equivalence(same)
    requires forall t: Tag<K> :: mine(t) == (t.owner == owner)
    requires forall t: Tag<K> :: t.owner == owner ==> ends(t) == dropped
    ensures Filter(mine, View(PersistedTags(rows, ends, added, edits, n, same), n))
         == ApplyEdits((if dropped then [] else Filter(mine, View(rows, n - 1))) + Filter(mine, added), owner, ChangesOf(edits, owner), same)
  {
    hide View, Filter, PersistedTags, ApplyEdits, ChangesOf, Equivalence, Settled, DistinctOwners, Not;
    NewHeadTags(rows, ends, added, edits, n, same, owner);
    EndedTags(ends, View(rows, n - 1), owner, dropped);
    FilterCongruent(OwnedBy(owner), mine, View(rows, n - 1));
    FilterCongruent(OwnedBy(owner), mine, View(PersistedTags(rows, ends, added, edits, n, same), n));
    FilterCongruent(OwnedBy(owner), mine, added);
  }

  /** Tags of a schema, table or view at the new head: none of its old ones if it is dropped; then its edits. */
  lemma NewHeadObjectTags(db: Database, ch: TransactionChanges, info: SnapshotRow, made: string, same: (string, string) -> bool,
                          inlined: map<InlinedTableRow, seq<Versioned<string>>>, owner: int)
    requires SettledCatalog(db, info.id - 1) && Collected(db, ch, info.id) && Equivalence(same)
    ensures
      var dropped := owner in ch.droppedTables || owner in ch.droppedSchemas || owner in ch.droppedViews;
      TagsOf(Persisted(db, ch, info, made, same, inlined), info.id, owner)
      == ApplyEdits((if dropped then [] else TagsOf(db, info.id - 1, owner)) + Filter((t: TagRow) => t.owner == owner, ch.newTags),
                    owner, ChangesOf(ch.tableTags, owner), same)
  {
    hide View, Filter, Advance, PersistedTables, PersistedTags, ApplyEdits, ChangesOf, FreshDependents, Settled, Equivalence, DistinctOwners;
    OwnTagsAtHead(db.tags, TagEnds(ch), ch.newTags, ch.tableTags, info.id, same, owner, (t: TagRow) => t.owner == owner,
                  owner in ch.droppedTables || owner in ch.droppedSchemas || owner in ch.droppedViews);
  }

  /** Tags of a column at the new head: none of its old ones if its table is dropped; then its edits. */
  lemma NewHeadColumnTags(db: Database, ch: TransactionChanges, info: SnapshotRow, made: string, same: (string, string) -> bool,
                          inlined: map<InlinedTableRow, seq<Versioned<string>>>, owner: (int, int))
    requires SettledCatalog(db, info.id - 1) && Collected(db, ch, info.id) && Equivalence(same)
    ensures
      var mine, n := (t: ColumnTagRow) => t.owner == owner, info.id;
      Filter(mine, View(Persisted(db, ch, info, made, same, inlined).columnTags, n))
      == ApplyEdits((if owner.0 in ch.droppedTables then [] else Filter(mine, View(db.columnTags, n - 1))) + Filter(mine, ch.newColumnTags),
                    owner, ChangesOf(ch.columnTags, owner), same)
  {
    hide View, Filter, Advance, PersistedTables, PersistedTags, ApplyEdits, ChangesOf, FreshDependents, Settled, Equivalence, DistinctOwners;
    OwnTagsAtHead(db.columnTags, ColumnTagEnds(ch), ch.newColumnTags, ch.columnTags, info.id, same, owner,
                  (t: ColumnTagRow) => t.owner == owner, owner.0 in ch.droppedTables);
  }

  lemma {:induction false} RoundsSettled<K>(rows: seq<Versioned<Tag<K>>>, pending: seq<Edits<K>>, round: nat, n: int,
                                            same: (string, string) -> bool)
    requires Settled(rows, n)
    ensures Settled(RunRounds(rows, pending, round, n, same), n)
    decreases round
  {
    if round > 0 {
      var earlier: nat := round - 1;
      var before := RunRounds(rows, pending, earlier, n, same);
      var after := RunRounds(rows, pending, round, n, same);
      assert after == RunRound(before, pending, earlier, n, same);
      RoundsSettled(rows, pending, earlier, n, same);
      InsertsAt(pending, earlier, n);
      RoundSettled(before, pending, earlier, n, same);
    }
  }

  lemma RoundSettled<K>(rows: seq<Versioned<Tag<K>>>, pending: seq<Edits<K>>, round: nat, n: int,
                        same: (string, string) -> bool)
    requires Settled(rows, n)
    ensures Settled(RunRound(rows, pending, round, n, same), n)
  {
    InsertsAt(pending, round, n);
    var p := Matching<K>(Retirements(pending, round), same);
    var retired := Retire(rows, p, n);
    forall v | v in retired ensures v.begin <= n && (v.end.Some? ==> v.begin <= v.end.value <= n) {
      var i :| 0 <= i < |retired| && retired[i] == v;
      assert rows[i] in rows;
    }
  }
}
