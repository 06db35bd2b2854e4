/**
 * The catalog database and what a snapshot means: the rows `Catalog::load` and a table scan read
 * at a snapshot id. Columns of the database that no query here looks at are left out.
 */
module Catalog {
  import opened Prelude
  import opened Versions
  import opened Tags
  import opened Paths

  // ----- rows (spec/entities.rs) -----

  datatype SnapshotRow = SnapshotRow(id: int, schemaVersion: int, nextCatalogId: int, nextFileId: int)
  datatype ChangesRow = ChangesRow(snapshotId: int, changesMade: string)
  datatype SchemaRow = SchemaRow(schemaId: int, name: string, path: DucklakePath)
  datatype TableRow = TableRow(tableId: int, schemaId: int, name: string, path: DucklakePath)
  datatype ViewRow = ViewRow(viewId: int, schemaId: int, name: string, sql: string)
  datatype MacroRow = MacroRow(macroId: int, schemaId: int, name: string)
  datatype MacroImplRow = MacroImplRow(macroId: int, implId: int, sql: string)
  datatype MacroParameterRow = MacroParameterRow(macroId: int, implId: int, columnId: int, name: string)
  datatype ColumnRow = ColumnRow(tableId: int, columnId: int, parent: Option<int>, name: string, columnType: string)
  /** A tag of a column is owned by the table id and column id, any other tag by the object's id. */
  type ColumnTagRow = Tag<(int, int)>
  type TagRow = Tag<int>
  datatype PartitionRow = PartitionRow(partitionId: int, tableId: int)
  datatype PartitionColumnRow = PartitionColumnRow(partitionId: int, tableId: int, columnId: int, transform: string)
  datatype SortRow = SortRow(sortId: int, tableId: int)
  datatype SortExpressionRow = SortExpressionRow(sortId: int, tableId: int, expression: string)
  datatype DataFileRow = DataFileRow(fileId: int, tableId: int, path: DucklakePath, recordCount: nat, rowIdStart: int)
  datatype DeleteFileRow = DeleteFileRow(fileId: int, tableId: int, dataFileId: int, path: DucklakePath)
  datatype FileStatsRow = FileStatsRow(dataFileId: int, tableId: int, columnId: int, bounds: string)
  datatype PartitionValueRow = PartitionValueRow(dataFileId: int, tableId: int, value: Option<string>)
  datatype ScheduledRow = ScheduledRow(fileId: int, path: DucklakePath)
  datatype SchemaVersionRow = SchemaVersionRow(begin: int, schemaVersion: int, tableId: int)
  /** An inlined-data table is named after the table id and the schema version. */
  datatype InlinedTableRow = InlinedTableRow(tableId: int, schemaVersion: int)
  datatype TableStatsRow = TableStatsRow(tableId: int, nextRowId: int, recordCount: int)
  datatype ColumnStatsRow = ColumnStatsRow(tableId: int, columnId: int, bounds: string)
  datatype ColumnMappingRow = ColumnMappingRow(mappingId: int, tableId: int)
  datatype NameMappingRow = NameMappingRow(mappingId: int, sourceName: string)
  datatype Scope = Global | OfSchema(schemaId: int) | OfTable(tableId: int)
  datatype OptionRow = OptionRow(key: string, value: string, scope: Scope)

  datatype Database = Database(
    snapshots: seq<SnapshotRow>,
    changes: seq<ChangesRow>,
    schemas: seq<Versioned<SchemaRow>>,
    tables: seq<Versioned<TableRow>>,
    views: seq<Versioned<ViewRow>>,
    macros: seq<Versioned<MacroRow>>,
    macroImpls: seq<MacroImplRow>,
    macroParameters: seq<MacroParameterRow>,
    columns: seq<Versioned<ColumnRow>>,
    columnTags: seq<Versioned<ColumnTagRow>>,
    tags: seq<Versioned<TagRow>>,
    partitions: seq<Versioned<PartitionRow>>,
    partitionColumns: seq<PartitionColumnRow>,
    sorts: seq<Versioned<SortRow>>,
    sortExpressions: seq<SortExpressionRow>,
    dataFiles: seq<Versioned<DataFileRow>>,
    deleteFiles: seq<Versioned<DeleteFileRow>>,
    fileStats: seq<FileStatsRow>,
    fileVariantStats: seq<FileStatsRow>,
    partitionValues: seq<PartitionValueRow>,
    scheduled: seq<ScheduledRow>,
    schemaVersions: seq<SchemaVersionRow>,
    inlinedTables: seq<InlinedTableRow>,
    inlinedData: map<InlinedTableRow, seq<Versioned<string>>>,
    tableStats: seq<TableStatsRow>,
    columnStats: seq<ColumnStatsRow>,
    columnMappings: seq<ColumnMappingRow>,
    nameMappings: seq<NameMappingRow>,
    options: seq<OptionRow>
  )

  function SnapshotIds(db: Database): set<int> { set r | r in db.snapshots :: r.id }

  // ----- Catalog::load -----

  /** Everything about one table that loading collects by its id. */
  datatype TableParts = TableParts(
    columns: seq<ColumnRow>,
    columnTags: seq<ColumnTagRow>,
    partitions: seq<PartitionRow>,
    partitionColumns: seq<PartitionColumnRow>,
    sorts: seq<SortRow>,
    sortExpressions: seq<SortExpressionRow>,
    tags: seq<TagRow>
  )

  datatype MacroParts = MacroParts(impls: seq<MacroImplRow>, parameters: seq<MacroParameterRow>)

  datatype CatalogTable = CatalogTable(
    table: TableRow,
    schema: SchemaRow,
    columns: seq<ColumnRow>,
    columnTags: seq<ColumnTagRow>,
    partition: Option<(PartitionRow, seq<PartitionColumnRow>)>,
    sort: Option<(SortRow, seq<SortExpressionRow>)>,
    tags: seq<TagRow>
  )

  datatype CatalogView = CatalogView(view: ViewRow, schema: SchemaRow, tags: seq<TagRow>)
  datatype CatalogMacro = CatalogMacro(macro_: MacroRow, schema: SchemaRow, parts: MacroParts)
  datatype LoadedCatalog = LoadedCatalog(
    schemas: seq<SchemaRow>, tables: seq<CatalogTable>, views: seq<CatalogView>, macros: seq<CatalogMacro>)

  /** `MissingSchema` is the panic on a row whose schema is gone; the others are reported errors. */
  datatype LoadError = MissingSchema(schemaId: int) | InvalidPartitions(tableId: int) | InvalidSort(tableId: int)

  datatype Loaded<+T> = Ok(value: T) | Failed(error: LoadError)

  function TagsOf(db: Database, s: int, id: int): seq<TagRow> {
    Filter((t: TagRow) => t.owner == id, View(db.tags, s))
  }

  function ColumnsOf(db: Database, s: int, id: int): seq<ColumnRow> {
    Filter((c: ColumnRow) => c.tableId == id, View(db.columns, s))
  }

  predicate PartitionActive(db: Database, s: int, table: int, id: int) {
    exists p :: p in View(db.partitions, s) && p.tableId == table && p.partitionId == id
  }

  predicate SortActive(db: Database, s: int, table: int, id: int) {
    exists p :: p in View(db.sorts, s) && p.tableId == table && p.sortId == id
  }

  function PartsOf(db: Database, s: int, id: int): TableParts {
    TableParts(
      ColumnsOf(db, s, id),
      Filter((t: ColumnTagRow) => t.owner.0 == id, View(db.columnTags, s)),
      Filter((p: PartitionRow) => p.tableId == id, View(db.partitions, s)),
      Filter((c: PartitionColumnRow) => c.tableId == id && PartitionActive(db, s, id, c.partitionId), db.partitionColumns),
      Filter((p: SortRow) => p.tableId == id, View(db.sorts, s)),
      Filter((e: SortExpressionRow) => e.tableId == id && SortActive(db, s, id, e.sortId), db.sortExpressions),
      TagsOf(db, s, id))
  }

  function MacroPartsOf(db: Database, id: int): MacroParts {
    MacroParts(Filter((i: MacroImplRow) => i.macroId == id, db.macroImpls),
               Filter((p: MacroParameterRow) => p.macroId == id, db.macroParameters))
  }

  function FindSchema(schemas: seq<SchemaRow>, id: int): (r: Option<SchemaRow>)
    ensures r.Some? <==> exists s :: s in schemas && s.schemaId == id
    ensures r.Some? ==> r.value in schemas && r.value.schemaId == id
  {
    if schemas == [] then None
    else if schemas[|schemas| - 1].schemaId == id then Some(schemas[|schemas| - 1])
    else
      assert schemas == schemas[..|schemas| - 1] + [schemas[|schemas| - 1]];
      FindSchema(schemas[..|schemas| - 1], id)
  }

  /** One iteration of `set_tables`. */
  function BuildTable(table: TableRow, schemas: seq<SchemaRow>, parts: TableParts): Loaded<CatalogTable> {
    match FindSchema(schemas, table.schemaId)
    case None => Failed(MissingSchema(table.schemaId))
    case Some(schema) =>
      if |parts.partitions| > 1 then Failed(InvalidPartitions(table.tableId))
      else
        var partition := if parts.partitions == [] then None else
          var info := parts.partitions[0];
          Some((info, Filter((c: PartitionColumnRow) => c.partitionId == info.partitionId, parts.partitionColumns)));
        if partition.Some? && partition.value.1 == [] then Failed(InvalidPartitions(table.tableId))
        else if |parts.sorts| > 1 then Failed(InvalidSort(table.tableId))
        else
          var sort := if parts.sorts == [] then None else
            var info := parts.sorts[0];
            Some((info, Filter((e: SortExpressionRow) => e.sortId == info.sortId, parts.sortExpressions)));
          Ok(CatalogTable(table, schema, parts.columns, parts.columnTags, partition, sort, parts.tags))
  }

  function SetTables(tables: seq<TableRow>, schemas: seq<SchemaRow>, parts: int -> TableParts)
    : Loaded<seq<CatalogTable>>
  {
    if tables == [] then Ok([])
    else
      match BuildTable(tables[0], schemas, parts(tables[0].tableId))
      case Failed(e) => Failed(e)
      case Ok(table) =>
        match SetTables(tables[1..], schemas, parts)
        case Failed(e) => Failed(e)
        case Ok(rest) => Ok([table] + rest)
  }

  function SetViews(views: seq<ViewRow>, schemas: seq<SchemaRow>, tags: int -> seq<TagRow>)
    : Loaded<seq<CatalogView>>
  {
    if views == [] then Ok([])
    else
      match FindSchema(schemas, views[0].schemaId)
      case None => Failed(MissingSchema(views[0].schemaId))
      case Some(schema) =>
        match SetViews(views[1..], schemas, tags)
        case Failed(e) => Failed(e)
        case Ok(rest) => Ok([CatalogView(views[0], schema, tags(views[0].viewId))] + rest)
  }

  function SetMacros(macros: seq<MacroRow>, schemas: seq<SchemaRow>, parts: int -> MacroParts)
    : Loaded<seq<CatalogMacro>>
  {
    if macros == [] then Ok([])
    else
      match FindSchema(schemas, macros[0].schemaId)
      case None => Failed(MissingSchema(macros[0].schemaId))
      case Some(schema) =>
        match SetMacros(macros[1..], schemas, parts)
        case Failed(e) => Failed(e)
        case Ok(rest) => Ok([CatalogMacro(macros[0], schema, parts(macros[0].macroId))] + rest)
  }

  /** `Catalog::load`. */
  function Load(db: Database, s: int): Loaded<LoadedCatalog> {
    var schemas := View(db.schemas, s);
    match SetTables(View(db.tables, s), schemas, id => PartsOf(db, s, id))
    case Failed(e) => Failed(e)
    case Ok(tables) =>
      match SetViews(View(db.views, s), schemas, id => TagsOf(db, s, id))
      case Failed(e) => Failed(e)
      case Ok(views) =>
        match SetMacros(View(db.macros, s), schemas, id => MacroPartsOf(db, id))
        case Failed(e) => Failed(e)
        case Ok(macros) => Ok(LoadedCatalog(schemas, tables, views, macros))
  }

  /** Every visible object belongs to a visible schema. */
  ghost predicate SchemasPresent(db: Database, s: int) {
    var schemas := View(db.schemas, s);
    && (forall t :: t in View(db.tables, s) ==> FindSchema(schemas, t.schemaId).Some?)
    && (forall v :: v in View(db.views, s) ==> FindSchema(schemas, v.schemaId).Some?)
    && (forall m :: m in View(db.macros, s) ==> FindSchema(schemas, m.schemaId).Some?)
  }

  lemma {:induction false} SetTablesAgree(tables: seq<TableRow>, schemas: seq<SchemaRow>,
                                          p: int -> TableParts, q: int -> TableParts)
    requires forall t :: t in tables ==> p(t.tableId) == q(t.tableId)
    ensures SetTables(tables, schemas, p) == SetTables(tables, schemas, q)
  {
    if tables != [] {
      assert tables[0] in tables;
      SetTablesAgree(tables[1..], schemas, p, q);
    }
  }

  lemma {:induction false} SetViewsAgree(views: seq<ViewRow>, schemas: seq<SchemaRow>,
                                         p: int -> seq<TagRow>, q: int -> seq<TagRow>)
    requires forall v :: v in views ==> p(v.viewId) == q(v.viewId)
    ensures SetViews(views, schemas, p) == SetViews(views, schemas, q)
  {
    if views != [] {
      assert views[0] in views;
      SetViewsAgree(views[1..], schemas, p, q);
    }
  }

  lemma {:induction false} SetMacrosAgree(macros: seq<MacroRow>, schemas: seq<SchemaRow>,
                                          p: int -> MacroParts, q: int -> MacroParts)
    requires forall m :: m in macros ==> p(m.macroId) == q(m.macroId)
    ensures SetMacros(macros, schemas, p) == SetMacros(macros, schemas, q)
  {
    if macros != [] {
      assert macros[0] in macros;
      SetMacrosAgree(macros[1..], schemas, p, q);
    }
  }

  /**
   * Two loads, of possibly different databases at possibly different snapshots, agree as soon as
   * the visible objects agree and each of them finds the same dependent rows.
   */
  lemma LoadsAgree(a: Database, s: int, b: Database, t: int)
    requires View(a.schemas, s) == View(b.schemas, t)
    requires View(a.tables, s) == View(b.tables, t)
    requires View(a.views, s) == View(b.views, t)
    requires View(a.macros, s) == View(b.macros, t)
    requires forall x :: x in View(a.tables, s) ==> PartsOf(a, s, x.tableId) == PartsOf(b, t, x.tableId)
    requires forall v :: v in View(a.views, s) ==> TagsOf(a, s, v.viewId) == TagsOf(b, t, v.viewId)
    requires forall m :: m in View(a.macros, s) ==> MacroPartsOf(a, m.macroId) == MacroPartsOf(b, m.macroId)
    ensures Load(a, s) == Load(b, t)
  {
    hide View, PartsOf, TagsOf, MacroPartsOf, Filter, FindSchema, BuildTable, SetTables, SetViews, SetMacros;
    var schemas := View(a.schemas, s);
    SetTablesAgree(View(a.tables, s), schemas, id => PartsOf(a, s, id), id => PartsOf(b, t, id));
    SetViewsAgree(View(a.views, s), schemas, id => TagsOf(a, s, id), id => TagsOf(b, t, id));
    SetMacrosAgree(View(a.macros, s), schemas, id => MacroPartsOf(a, id), id => MacroPartsOf(b, id));
  }

  lemma {:induction false} TablesFindSchemas(tables: seq<TableRow>, schemas: seq<SchemaRow>, parts: int -> TableParts)
    requires forall t :: t in tables ==> FindSchema(schemas, t.schemaId).Some?
    ensures var r := SetTables(tables, schemas, parts); r.Failed? ==> !r.error.MissingSchema?
    ensures var r := SetTables(tables, schemas, parts);
            r.Ok? ==> |r.value| == |tables|
                      && forall i :: 0 <= i < |tables| ==>
                        r.value[i].table == tables[i] && r.value[i].columns == parts(tables[i].tableId).columns
  {
    if tables != [] {
      assert tables[0] in tables;
      TablesFindSchemas(tables[1..], schemas, parts);
    }
  }

  lemma {:induction false} ViewsFindSchemas(views: seq<ViewRow>, schemas: seq<SchemaRow>, tags: int -> seq<TagRow>)
    ensures SetViews(views, schemas, tags).Ok? <==> forall v :: v in views ==> FindSchema(schemas, v.schemaId).Some?
    ensures SetViews(views, schemas, tags).Failed? ==> SetViews(views, schemas, tags).error.MissingSchema?
  {
    if views != [] {
      assert views[0] in views;
      assert forall v :: v in views ==> v == views[0] || v in views[1..];
      ViewsFindSchemas(views[1..], schemas, tags);
    }
  }

  lemma {:induction false} MacrosFindSchemas(macros: seq<MacroRow>, schemas: seq<SchemaRow>, parts: int -> MacroParts)
    ensures SetMacros(macros, schemas, parts).Ok? <==> forall m :: m in macros ==> FindSchema(schemas, m.schemaId).Some?
    ensures SetMacros(macros, schemas, parts).Failed? ==> SetMacros(macros, schemas, parts).error.MissingSchema?
  {
    if macros != [] {
      assert macros[0] in macros;
      assert forall m :: m in macros ==> m == macros[0] || m in macros[1..];
      MacrosFindSchemas(macros[1..], schemas, parts);
    }
  }

  /** Loading never meets a table, view or macro without its schema, and gives each table its columns. */
  lemma LoadWithSchemas(db: Database, s: int)
    requires SchemasPresent(db, s)
    ensures Load(db, s).Failed? ==> !Load(db, s).error.MissingSchema?
    ensures Load(db, s).Ok? ==>
              |Load(db, s).value.tables| == |View(db.tables, s)|
              && forall i :: 0 <= i < |View(db.tables, s)| ==>
                   var t := Load(db, s).value.tables[i];
                   t.table == View(db.tables, s)[i] && t.columns == ColumnsOf(db, s, t.table.tableId)
  {
    var schemas := View(db.schemas, s);
    TablesFindSchemas(View(db.tables, s), schemas, id => PartsOf(db, s, id));
    ViewsFindSchemas(View(db.views, s), schemas, id => TagsOf(db, s, id));
    MacrosFindSchemas(View(db.macros, s), schemas, id => MacroPartsOf(db, id));
  }

  // ----- scanning a table (scan/queries.rs) -----

  datatype TableScan = TableScan(
    dataFiles: seq<DataFileRow>,
    fileStats: seq<FileStatsRow>,
    partitionValues: seq<PartitionValueRow>,
    deleteFiles: seq<DeleteFileRow>,
    inlined: seq<(InlinedTableRow, seq<string>)>
  )

  ghost predicate FileVisible(db: Database, s: int, id: int) {
    exists f :: f in View(db.dataFiles, s) && f.fileId == id
  }

  ghost predicate TableVisible(db: Database, s: int, id: int) {
    exists t :: t in View(db.tables, s) && t.tableId == id
  }

  function InlinedRows(db: Database, r: InlinedTableRow, s: int): seq<string> {
    if r in db.inlinedData then View(db.inlinedData[r], s) else []
  }

  /** The inlined-data tables that have rows for the snapshot, with those rows. */
  function InlinedOf(db: Database, s: int, tables: seq<InlinedTableRow>): seq<(InlinedTableRow, seq<string>)> {
    if tables == [] then []
    else
      var rest := InlinedOf(db, s, tables[1..]);
      var rows := InlinedRows(db, tables[0], s);
      if rows == [] then rest else [(tables[0], rows)] + rest
  }

  /** What the queries of a scan of table `id` at snapshot `s` return. */
  ghost function Scan(db: Database, s: int, id: int): TableScan {
    TableScan(
      Filter((f: DataFileRow) => f.tableId == id, View(db.dataFiles, s)),
      Filter((r: FileStatsRow) => r.tableId == id && FileVisible(db, s, r.dataFileId), db.fileStats),
      Filter((r: PartitionValueRow) => r.tableId == id && FileVisible(db, s, r.dataFileId), db.partitionValues),
      Filter((f: DeleteFileRow) => f.tableId == id, View(db.deleteFiles, s)),
      InlinedOf(db, s, Filter((r: InlinedTableRow) => r.tableId == id, db.inlinedTables)))
  }
}
