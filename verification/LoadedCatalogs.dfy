/**
 * What a loaded catalog holds, said of the rows a snapshot sees: every object with its own schema
 * and exactly its own dependent rows, and exactly when loading fails (catalog/load.rs).
 */
module LoadedCatalogs {
  import opened Prelude
  import opened Versions
  import opened Catalog

  // ----- what each object must hold -----

  /** `schema` is the row with this id; of several, the last one. */
  ghost predicate OwnSchema(schemas: seq<SchemaRow>, id: int, schema: SchemaRow) {
    exists k :: 0 <= k < |schemas| && schemas[k] == schema && schema.schemaId == id
                && forall j :: k < j < |schemas| ==> schemas[j].schemaId != id
  }

  /** The table's own rows; a partition and a sort order exactly when there is one, each with its own details. */
  ghost predicate TableHolds(db: Database, s: int, row: TableRow, t: CatalogTable) {
    var id := row.tableId;
    && t.table == row && OwnSchema(View(db.schemas, s), row.schemaId, t.schema)
    && t.columns == Filter((c: ColumnRow) => c.tableId == id, View(db.columns, s))
    && t.columnTags == Filter((g: ColumnTagRow) => g.owner.0 == id, View(db.columnTags, s))
    && t.tags == Filter((g: TagRow) => g.owner == id, View(db.tags, s))
    && (match t.partition
        case None => forall p :: p in View(db.partitions, s) ==> p.tableId != id
        case Some((info, columns)) =>
          && Filter((p: PartitionRow) => p.tableId == id, View(db.partitions, s)) == [info]
          && columns == Filter((c: PartitionColumnRow) => c.tableId == id && c.partitionId == info.partitionId, db.partitionColumns))
    && (match t.sort
        case None => forall p :: p in View(db.sorts, s) ==> p.tableId != id
        case Some((info, expressions)) =>
          && Filter((p: SortRow) => p.tableId == id, View(db.sorts, s)) == [info]
          && expressions == Filter((e: SortExpressionRow) => e.tableId == id && e.sortId == info.sortId, db.sortExpressions))
  }

  ghost predicate ViewHolds(db: Database, s: int, row: ViewRow, v: CatalogView) {
    && v.view == row && OwnSchema(View(db.schemas, s), row.schemaId, v.schema)
    && v.tags == Filter((g: TagRow) => g.owner == row.viewId, View(db.tags, s))
  }

  ghost predicate MacroHolds(db: Database, s: int, row: MacroRow, m: CatalogMacro) {
    && m.macro_ == row && OwnSchema(View(db.schemas, s), row.schemaId, m.schema)
    && m.parts.impls == Filter((i: MacroImplRow) => i.macroId == row.macroId, db.macroImpls)
    && m.parts.parameters == Filter((p: MacroParameterRow) => p.macroId == row.macroId, db.macroParameters)
  }

  /** Every visible object, in order, each with what it must hold. */
  ghost predicate CatalogHolds(db: Database, s: int, c: LoadedCatalog) {
    var tables, views, macros := View(db.tables, s), View(db.views, s), View(db.macros, s);
    && c.schemas == View(db.schemas, s)
    && |c.tables| == |tables| && (forall i :: 0 <= i < |tables| ==> TableHolds(db, s, tables[i], c.tables[i]))
    && |c.views| == |views| && (forall i :: 0 <= i < |views| ==> ViewHolds(db, s, views[i], c.views[i]))
    && |c.macros| == |macros| && (forall i :: 0 <= i < |macros| ==> MacroHolds(db, s, macros[i], c.macros[i]))
  }

  // ----- when an object can be loaded -----

  /** The schema is there, there is at most one partition and one sort order, and a partition has a column. */
  ghost predicate Loadable(db: Database, s: int, row: TableRow) {
    var id := row.tableId;
    var partitions := Filter((p: PartitionRow) => p.tableId == id, View(db.partitions, s));
    && SchemaVisible(db, s, row.schemaId)
    && |partitions| <= 1
    && (forall p :: p in partitions ==>
          exists c :: c in db.partitionColumns && c.tableId == id && c.partitionId == p.partitionId)
    && |Filter((p: SortRow) => p.tableId == id, View(db.sorts, s))| <= 1
  }

  ghost predicate SchemaVisible(db: Database, s: int, id: int) { exists x :: x in View(db.schemas, s) && x.schemaId == id }

  // ----- the proofs -----

  lemma {:induction false} FoundSchema(schemas: seq<SchemaRow>, id: int)
    ensures FindSchema(schemas, id).Some? ==> OwnSchema(schemas, id, FindSchema(schemas, id).value)
    decreases |schemas|
  {
    if schemas != [] {
      var last, rest := schemas[|schemas| - 1], schemas[..|schemas| - 1];
      FoundSchema(rest, id);
      if last.schemaId == id {
        assert OwnSchema(schemas, id, last);
      } else if FindSchema(rest, id).Some? {
        var schema := FindSchema(rest, id).value;
        var k :| 0 <= k < |rest| && rest[k] == schema && schema.schemaId == id
                 && forall j :: k < j < |rest| ==> rest[j].schemaId != id;
        assert schemas[k] == schema && forall j :: k < j < |schemas| ==> schemas[j].schemaId != id;
      }
    }
  }

  lemma {:induction false} FilterBoth<T>(p: T -> bool, q: T -> bool, both: T -> bool, s: seq<T>)
    requires forall x :: x in s ==> both(x) == (p(x) && q(x))
    ensures Filter(p, Filter(q, s)) == Filter(both, s)
  {
    if s != [] {
      FilterBoth(p, q, both, s[1..]);
      FilterAppend(p, if q(s[0]) then [s[0]] else [], Filter(q, s[1..]));
    }
  }

  lemma FilterFinds<T>(p: T -> bool, s: seq<T>)
    ensures Filter(p, s) != [] <==> exists x :: x in s && p(x)
  {
    if x :| x in s && p(x) {
      assert x in Filter(p, s);
    }
    if Filter(p, s) != [] {
      assert Filter(p, s)[0] in Filter(p, s);
    }
  }

  /** The columns of a partition that the table has. */
  lemma OwnPartitionColumns(db: Database, s: int, id: int, info: PartitionRow)
    requires info in View(db.partitions, s) && info.tableId == id
    ensures Filter((c: PartitionColumnRow) => c.partitionId == info.partitionId, PartsOf(db, s, id).partitionColumns)
         == Filter((c: PartitionColumnRow) => c.tableId == id && c.partitionId == info.partitionId, db.partitionColumns)
  {
    FilterBoth((c: PartitionColumnRow) => c.partitionId == info.partitionId,
               (c: PartitionColumnRow) => c.tableId == id && PartitionActive(db, s, id, c.partitionId),
               (c: PartitionColumnRow) => c.tableId == id && c.partitionId == info.partitionId, db.partitionColumns);
  }

  lemma OwnSortExpressions(db: Database, s: int, id: int, info: SortRow)
    requires info in View(db.sorts, s) && info.tableId == id
    ensures Filter((e: SortExpressionRow) => e.sortId == info.sortId, PartsOf(db, s, id).sortExpressions)
         == Filter((e: SortExpressionRow) => e.tableId == id && e.sortId == info.sortId, db.sortExpressions)
  {
    FilterBoth((e: SortExpressionRow) => e.sortId == info.sortId,
               (e: SortExpressionRow) => e.tableId == id && SortActive(db, s, id, e.sortId),
               (e: SortExpressionRow) => e.tableId == id && e.sortId == info.sortId, db.sortExpressions);
  }

  lemma TableLoads(db: Database, s: int, row: TableRow)
    ensures BuildTable(row, View(db.schemas, s), PartsOf(db, s, row.tableId)).Ok? <==> Loadable(db, s, row)
  {
    hide View, Filter, FindSchema, PartitionActive, SortActive;
    var id, parts := row.tableId, PartsOf(db, s, row.tableId);
    if |parts.partitions| == 1 {
      var info := parts.partitions[0];
      var mine := (c: PartitionColumnRow) => c.tableId == id && c.partitionId == info.partitionId;
      OwnPartitionColumns(db, s, id, info);
      FilterFinds(mine, db.partitionColumns);
      assert forall p :: p in parts.partitions <==> p == info;
      assert forall c :: mine(c) <==> c.tableId == id && c.partitionId == info.partitionId;
    }
  }

  /** Building a table succeeds exactly if it is loadable, and then gives it its own rows. */
  lemma TableBuilt(db: Database, s: int, row: TableRow)
    ensures
      var built := BuildTable(row, View(db.schemas, s), PartsOf(db, s, row.tableId));
      && (built.Ok? <==> Loadable(db, s, row))
      && (built.Ok? ==> TableHolds(db, s, row, built.value))
  {
    hide View, Filter, FindSchema, OwnSchema, PartitionActive, SortActive, Loadable;
    var id, parts := row.tableId, PartsOf(db, s, row.tableId);
    TableLoads(db, s, row);
    FoundSchema(View(db.schemas, s), row.schemaId);
    if parts.partitions != [] {
      assert parts.partitions[0] in parts.partitions;
      OwnPartitionColumns(db, s, id, parts.partitions[0]);
    }
    if parts.sorts != [] {
      assert parts.sorts[0] in parts.sorts;
      OwnSortExpressions(db, s, id, parts.sorts[0]);
    }
    assert |parts.partitions| == 1 ==> parts.partitions == [parts.partitions[0]];
    assert |parts.sorts| == 1 ==> parts.sorts == [parts.sorts[0]];
  }

  lemma {:induction false} TablesSet(db: Database, s: int, tables: seq<TableRow>)
    ensures
      var set_ := SetTables(tables, View(db.schemas, s), id => PartsOf(db, s, id));
      && (set_.Ok? <==> forall t :: t in tables ==> Loadable(db, s, t))
      && (set_.Ok? ==> |set_.value| == |tables| && forall i :: 0 <= i < |tables| ==> TableHolds(db, s, tables[i], set_.value[i]))
  {
    hide BuildTable, PartsOf, View, TableHolds, Loadable;
    if tables != [] {
      TableBuilt(db, s, tables[0]);
      TablesSet(db, s, tables[1..]);
      assert forall t :: t in tables <==> t == tables[0] || t in tables[1..];
    }
  }

  lemma ViewBuilt(db: Database, s: int, row: ViewRow)
    ensures
      var schema := FindSchema(View(db.schemas, s), row.schemaId);
      && (schema.Some? <==> SchemaVisible(db, s, row.schemaId))
      && (schema.Some? ==> ViewHolds(db, s, row, CatalogView(row, schema.value, TagsOf(db, s, row.viewId))))
  {
    hide View, Filter, FindSchema, OwnSchema;
    FoundSchema(View(db.schemas, s), row.schemaId);
  }

  lemma MacroBuilt(db: Database, s: int, row: MacroRow)
    ensures
      var schema := FindSchema(View(db.schemas, s), row.schemaId);
      && (schema.Some? <==> SchemaVisible(db, s, row.schemaId))
      && (schema.Some? ==> MacroHolds(db, s, row, CatalogMacro(row, schema.value, MacroPartsOf(db, row.macroId))))
  {
    hide View, Filter, FindSchema, OwnSchema;
    FoundSchema(View(db.schemas, s), row.schemaId);
  }

  lemma {:induction false} ViewsSet(db: Database, s: int, views: seq<ViewRow>)
    ensures
      var set_ := SetViews(views, View(db.schemas, s), id => TagsOf(db, s, id));
      && (set_.Ok? <==> forall v :: v in views ==> SchemaVisible(db, s, v.schemaId))
      && (set_.Ok? ==> |set_.value| == |views| && forall i :: 0 <= i < |views| ==> ViewHolds(db, s, views[i], set_.value[i]))
  {
    hide View, FindSchema, TagsOf, SchemaVisible, ViewHolds;
    if views != [] {
      ViewBuilt(db, s, views[0]);
      ViewsSet(db, s, views[1..]);
      assert forall v :: v in views <==> v == views[0] || v in views[1..];
    }
  }

  lemma {:induction false} MacrosSet(db: Database, s: int, macros: seq<MacroRow>)
    ensures
      var set_ := SetMacros(macros, View(db.schemas, s), id => MacroPartsOf(db, id));
      && (set_.Ok? <==> forall m :: m in macros ==> SchemaVisible(db, s, m.schemaId))
      && (set_.Ok? ==> |set_.value| == |macros| && forall i :: 0 <= i < |macros| ==> MacroHolds(db, s, macros[i], set_.value[i]))
  {
    hide View, FindSchema, MacroPartsOf, SchemaVisible, MacroHolds;
    if macros != [] {
      MacroBuilt(db, s, macros[0]);
      MacrosSet(db, s, macros[1..]);
      assert forall m :: m in macros <==> m == macros[0] || m in macros[1..];
    }
  }

  /**
   * Loading succeeds exactly if every visible table is loadable and every visible view and macro has
   * a visible schema; it then holds every visible object with its own rows and nothing else.
   */
  lemma LoadHolds(db: Database, s: int)
    ensures Load(db, s).Ok?
       <==> && (forall t :: t in View(db.tables, s) ==> Loadable(db, s, t))
            && (forall v :: v in View(db.views, s) ==> SchemaVisible(db, s, v.schemaId))
            && (forall m :: m in View(db.macros, s) ==> SchemaVisible(db, s, m.schemaId))
    ensures Load(db, s).Ok? ==> CatalogHolds(db, s, Load(db, s).value)
  {
    hide View, SetTables, SetViews, SetMacros, PartsOf, TagsOf, MacroPartsOf, Loadable, SchemaVisible, TableHolds, ViewHolds, MacroHolds;
    TablesSet(db, s, View(db.tables, s));
    ViewsSet(db, s, View(db.views, s));
    MacrosSet(db, s, View(db.macros, s));
  }

  // ----- what a scan reads -----

  lemma {:induction false} InlinedOfIs(db: Database, s: int, tables: seq<InlinedTableRow>)
    ensures forall k, rows :: (k, rows) in InlinedOf(db, s, tables) <==> k in tables && rows == InlinedRows(db, k, s) && rows != []
  {
    if tables != [] {
      InlinedOfIs(db, s, tables[1..]);
    }
  }

  /**
   * A scan reads exactly the table's files that the snapshot lies in the interval of, the statistics
   * and partition values of data files it sees, and the rows it sees in each registered inlined-data
   * table, leaving out tables without any.
   */
  lemma ScanHolds(db: Database, s: int, id: int)
    ensures
      var scan := Scan(db, s, id);
      && (forall f :: f in scan.dataFiles <==>
            exists v :: v in db.dataFiles && v.row == f && f.tableId == id && v.begin <= s && (v.end.Some? ==> s < v.end.value))
      && (forall f :: f in scan.deleteFiles <==>
            exists v :: v in db.deleteFiles && v.row == f && f.tableId == id && v.begin <= s && (v.end.Some? ==> s < v.end.value))
      && (forall r :: r in scan.fileStats <==>
            r in db.fileStats && r.tableId == id && exists v :: v in db.dataFiles && v.row.fileId == r.dataFileId && VisibleAt(v, s))
      && (forall r :: r in scan.partitionValues <==>
            r in db.partitionValues && r.tableId == id
            && exists v :: v in db.dataFiles && v.row.fileId == r.dataFileId && VisibleAt(v, s))
      && (forall k, rows :: (k, rows) in scan.inlined <==>
            k in db.inlinedTables && k.tableId == id && k in db.inlinedData && rows == View(db.inlinedData[k], s) && rows != [])
  {
    hide VisibleAt, View, Filter, InlinedOf, FileVisible;
    Selected(db.dataFiles, (f: DataFileRow) => f.tableId == id, s);
    Selected(db.deleteFiles, (f: DeleteFileRow) => f.tableId == id, s);
    InlinedOfIs(db, s, Filter((r: InlinedTableRow) => r.tableId == id, db.inlinedTables));
    forall file: int ensures FileVisible(db, s, file) <==> exists v :: v in db.dataFiles && v.row.fileId == file && VisibleAt(v, s) {
      FileSeen(db, s, file);
    }
  }

  lemma FileSeen(db: Database, s: int, file: int)
    ensures FileVisible(db, s, file) <==> exists v :: v in db.dataFiles && v.row.fileId == file && VisibleAt(v, s)
  {
    if v :| v in db.dataFiles && v.row.fileId == file && VisibleAt(v, s) {
      assert v.row in View(db.dataFiles, s);
    }
  }

  lemma Selected<T>(rows: seq<Versioned<T>>, p: T -> bool, s: int)
    ensures forall x :: x in Filter(p, View(rows, s)) <==>
              exists v :: v in rows && v.row == x && p(x) && v.begin <= s && (v.end.Some? ==> s < v.end.value)
  {
    forall x ensures x in View(rows, s) <==> exists v :: v in rows && v.row == x && v.begin <= s && (v.end.Some? ==> s < v.end.value) {
      if x in View(rows, s) {
        var v :| v in rows && VisibleAt(v, s) && v.row == x;
      }
    }
  }
}
