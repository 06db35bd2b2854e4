/**
 * How `Catalog::load` builds the catalog (catalog/load.rs, catalog/arena.rs): the dependent rows
 * are grouped by their object once, and every object removes its groups as it is set. The plain
 * reading of a snapshot, `Catalog.Load`, filters them for each object instead.
 */
module CatalogLoading {
  import opened Prelude
  import opened Versions
  import opened Catalog
  import opened LoadedCatalogs

  // ----- groups -----

  function WithKey<T, K(==)>(key: T -> K, k: K): T -> bool { (x: T) => key(x) == k }

  /** `remove(..).unwrap_or_default()`, without the removal. */
  function GroupOf<T, K(==)>(groups: map<K, seq<T>>, k: K): seq<T> { if k in groups then groups[k] else [] }

  /** The groups hold the rows of every key outside `taken`. */
  ghost predicate Holds<T, K(!new)>(groups: map<K, seq<T>>, rows: seq<T>, key: T -> K, taken: set<K>) {
    forall k :: k !in taken ==> GroupOf(groups, k) == Filter(WithKey(key, k), rows)
  }

  /** Nothing is left of the keys in `taken`. */
  ghost predicate Gone<T, K(!new)>(groups: map<K, seq<T>>, taken: set<K>) {
    forall k :: k in taken ==> k !in groups
  }

  /** `into_group_map_by`. */
  method GroupBy<T, K(==, !new)>(rows: seq<T>, key: T -> K) returns (groups: map<K, seq<T>>)
    ensures Holds(groups, rows, key, {})
  {
    groups := map[];
    for i := 0 to |rows|
      invariant Holds(groups, rows[..i], key, {})
    {
      var before, k := groups, key(rows[i]);
      groups := groups[k := GroupOf(groups, k) + [rows[i]]];
      assert rows[..i + 1] == rows[..i] + [rows[i]];
      forall j ensures GroupOf(groups, j) == Filter(WithKey(key, j), rows[..i + 1]) {
        assert GroupOf(before, j) == Filter(WithKey(key, j), rows[..i]);
        FilterAppend(WithKey(key, j), rows[..i], [rows[i]]);
      }
    }
    assert rows[..|rows|] == rows;
  }

  // ----- what draining the groups computes -----

  /** The rows the queries of a load return for one snapshot, apart from the objects themselves. */
  datatype Fetched = Fetched(
    columns: seq<ColumnRow>,
    columnTags: seq<ColumnTagRow>,
    partitions: seq<PartitionRow>,
    partitionColumns: seq<PartitionColumnRow>,
    sorts: seq<SortRow>,
    sortExpressions: seq<SortExpressionRow>,
    tags: seq<TagRow>,
    macroImpls: seq<MacroImplRow>,
    macroParameters: seq<MacroParameterRow>
  )

  predicate SortIdActive(db: Database, s: int, id: int) { exists p :: p in View(db.sorts, s) && p.sortId == id }

  predicate MacroIdActive(db: Database, s: int, id: int) { exists m :: m in View(db.macros, s) && m.macroId == id }

  /** The queries: partition columns are fetched whole, the others by snapshot or by active id. */
  function Fetch(db: Database, s: int): Fetched {
    Fetched(View(db.columns, s), View(db.columnTags, s), View(db.partitions, s), db.partitionColumns, View(db.sorts, s),
            Filter((e: SortExpressionRow) => SortIdActive(db, s, e.sortId), db.sortExpressions),
            View(db.tags, s),
            Filter((i: MacroImplRow) => MacroIdActive(db, s, i.macroId), db.macroImpls),
            Filter((p: MacroParameterRow) => MacroIdActive(db, s, p.macroId), db.macroParameters))
  }

  function ColumnTable(): ColumnRow -> int { (c: ColumnRow) => c.tableId }

  function ColumnTagTable(): ColumnTagRow -> int { (t: ColumnTagRow) => t.owner.0 }

  function PartitionTable(): PartitionRow -> int { (p: PartitionRow) => p.tableId }

  function PartitionColumnTable(): PartitionColumnRow -> int { (c: PartitionColumnRow) => c.tableId }

  function SortTable(): SortRow -> int { (p: SortRow) => p.tableId }

  function SortExpressionTable(): SortExpressionRow -> int { (e: SortExpressionRow) => e.tableId }

  function TagObject(): TagRow -> int { (t: TagRow) => t.owner }

  function ImplMacro(): MacroImplRow -> int { (i: MacroImplRow) => i.macroId }

  function ParameterMacro(): MacroParameterRow -> int { (p: MacroParameterRow) => p.macroId }

  /** What the groups give a table whose id was not set before; afterwards they give it nothing. */
  function PartsLeft(rows: Fetched, id: int, taken: set<int>): TableParts {
    if id in taken then TableParts([], [], [], [], [], [], [])
    else
      TableParts(
        Filter(WithKey(ColumnTable(), id), rows.columns),
        Filter(WithKey(ColumnTagTable(), id), rows.columnTags),
        Filter(WithKey(PartitionTable(), id), rows.partitions),
        Filter(WithKey(PartitionColumnTable(), id), rows.partitionColumns),
        Filter(WithKey(SortTable(), id), rows.sorts),
        Filter(WithKey(SortExpressionTable(), id), rows.sortExpressions),
        Filter(WithKey(TagObject(), id), rows.tags))
  }

  function TagsLeft(rows: Fetched, id: int, taken: set<int>): seq<TagRow> {
    if id in taken then [] else Filter(WithKey(TagObject(), id), rows.tags)
  }

  function MacroPartsLeft(rows: Fetched, id: int, taken: set<int>): MacroParts {
    if id in taken then MacroParts([], [])
    else MacroParts(Filter(WithKey(ImplMacro(), id), rows.macroImpls),
                    Filter(WithKey(ParameterMacro(), id), rows.macroParameters))
  }

  function Prefixed<T>(front: seq<T>, rest: Loaded<seq<T>>): Loaded<seq<T>> {
    match rest
    case Failed(e) => Failed(e)
    case Ok(tail) => Ok(front + tail)
  }

  function DrainTables(tables: seq<TableRow>, schemas: seq<SchemaRow>, rows: Fetched, taken: set<int>)
    : Loaded<seq<CatalogTable>>
    decreases |tables|
  {
    if tables == [] then Ok([])
    else
      match BuildTable(tables[0], schemas, PartsLeft(rows, tables[0].tableId, taken))
      case Failed(e) => Failed(e)
      case Ok(table) => Prefixed([table], DrainTables(tables[1..], schemas, rows, taken + {tables[0].tableId}))
  }

  function DrainViews(views: seq<ViewRow>, schemas: seq<SchemaRow>, rows: Fetched, taken: set<int>)
    : Loaded<seq<CatalogView>>
    decreases |views|
  {
    if views == [] then Ok([])
    else
      match FindSchema(schemas, views[0].schemaId)
      case None => Failed(MissingSchema(views[0].schemaId))
      case Some(schema) =>
        Prefixed([CatalogView(views[0], schema, TagsLeft(rows, views[0].viewId, taken))],
                 DrainViews(views[1..], schemas, rows, taken + {views[0].viewId}))
  }

  function DrainMacros(macros: seq<MacroRow>, schemas: seq<SchemaRow>, rows: Fetched, taken: set<int>)
    : Loaded<seq<CatalogMacro>>
    decreases |macros|
  {
    if macros == [] then Ok([])
    else
      match FindSchema(schemas, macros[0].schemaId)
      case None => Failed(MissingSchema(macros[0].schemaId))
      case Some(schema) =>
        Prefixed([CatalogMacro(macros[0], schema, MacroPartsLeft(rows, macros[0].macroId, taken))],
                 DrainMacros(macros[1..], schemas, rows, taken + {macros[0].macroId}))
  }

  function TableIds(tables: seq<TableRow>): set<int> { set t | t in tables :: t.tableId }

  function DrainedLoad(db: Database, s: int): Loaded<LoadedCatalog> {
    var schemas, rows := View(db.schemas, s), Fetch(db, s);
    match DrainTables(View(db.tables, s), schemas, rows, {})
    case Failed(e) => Failed(e)
    case Ok(tables) =>
      match DrainViews(View(db.views, s), schemas, rows, TableIds(View(db.tables, s)))
      case Failed(e) => Failed(e)
      case Ok(views) =>
        match DrainMacros(View(db.macros, s), schemas, rows, {})
        case Failed(e) => Failed(e)
        case Ok(macros) => Ok(LoadedCatalog(schemas, tables, views, macros))
  }

  // ----- the groups of one load -----

  datatype Groups = Groups(
    columns: map<int, seq<ColumnRow>>,
    columnTags: map<int, seq<ColumnTagRow>>,
    partitions: map<int, seq<PartitionRow>>,
    partitionColumns: map<int, seq<PartitionColumnRow>>,
    sorts: map<int, seq<SortRow>>,
    sortExpressions: map<int, seq<SortExpressionRow>>,
    tags: map<int, seq<TagRow>>,
    macroImpls: map<int, seq<MacroImplRow>>,
    macroParameters: map<int, seq<MacroParameterRow>>
  )

  ghost predicate TagsGrouped(g: Groups, rows: Fetched, taken: set<int>) {
    Holds(g.tags, rows.tags, TagObject(), taken) && Gone(g.tags, taken)
  }

  ghost predicate TablesGrouped(g: Groups, rows: Fetched, taken: set<int>) {
    && Holds(g.columns, rows.columns, ColumnTable(), taken) && Gone(g.columns, taken)
    && Holds(g.columnTags, rows.columnTags, ColumnTagTable(), taken) && Gone(g.columnTags, taken)
    && Holds(g.partitions, rows.partitions, PartitionTable(), taken) && Gone(g.partitions, taken)
    && Holds(g.partitionColumns, rows.partitionColumns, PartitionColumnTable(), taken)
    && Holds(g.sorts, rows.sorts, SortTable(), taken) && Gone(g.sorts, taken)
    && Holds(g.sortExpressions, rows.sortExpressions, SortExpressionTable(), taken)
    && TagsGrouped(g, rows, taken)
  }

  ghost predicate MacrosGrouped(g: Groups, rows: Fetched, taken: set<int>) {
    && Holds(g.macroImpls, rows.macroImpls, ImplMacro(), taken) && Gone(g.macroImpls, taken)
    && Holds(g.macroParameters, rows.macroParameters, ParameterMacro(), taken) && Gone(g.macroParameters, taken)
  }

  method GroupRows(rows: Fetched) returns (g: Groups)
    ensures TablesGrouped(g, rows, {}) && MacrosGrouped(g, rows, {})
  {
    hide Holds, Filter;
    var columns := GroupBy(rows.columns, ColumnTable());
    var columnTags := GroupBy(rows.columnTags, ColumnTagTable());
    var partitions := GroupBy(rows.partitions, PartitionTable());
    var partitionColumns := GroupBy(rows.partitionColumns, PartitionColumnTable());
    var sorts := GroupBy(rows.sorts, SortTable());
    var sortExpressions := GroupBy(rows.sortExpressions, SortExpressionTable());
    var tags := GroupBy(rows.tags, TagObject());
    var macroImpls := GroupBy(rows.macroImpls, ImplMacro());
    var macroParameters := GroupBy(rows.macroParameters, ParameterMacro());
    g := Groups(columns, columnTags, partitions, partitionColumns, sorts, sortExpressions, tags, macroImpls, macroParameters);
  }

  lemma Removed<T>(groups: map<int, seq<T>>, rows: seq<T>, key: T -> int, taken: set<int>, id: int)
    requires Holds(groups, rows, key, taken)
    ensures Holds(groups, rows, key, taken + {id}) && Holds(groups - {id}, rows, key, taken + {id})
    ensures id !in taken ==> GroupOf(groups, id) == Filter(WithKey(key, id), rows)
    ensures Gone(groups, taken) ==> Gone(groups - {id}, taken + {id})
    ensures Gone(groups, taken) && id in taken ==> GroupOf(groups, id) == []
  {
    hide Filter;
    forall k | k !in taken + {id} ensures GroupOf(groups - {id}, k) == Filter(WithKey(key, k), rows) {
      assert GroupOf(groups, k) == Filter(WithKey(key, k), rows);
    }
  }

  lemma TableRemoved(g: Groups, rows: Fetched, taken: set<int>, id: int)
    requires TablesGrouped(g, rows, taken)
    ensures
      var left := PartsLeft(rows, id, taken);
      && GroupOf(g.columns, id) == left.columns && GroupOf(g.columnTags, id) == left.columnTags
      && GroupOf(g.partitions, id) == left.partitions && GroupOf(g.sorts, id) == left.sorts
      && (id !in taken ==> GroupOf(g.partitionColumns, id) == left.partitionColumns)
      && (id !in taken ==> GroupOf(g.sortExpressions, id) == left.sortExpressions)
      && GroupOf(g.tags, id) == left.tags
    ensures TablesGrouped(g.(columns := g.columns - {id}, columnTags := g.columnTags - {id}, partitions := g.partitions - {id},
                             sorts := g.sorts - {id}, tags := g.tags - {id}), rows, taken + {id})
  {
    hide Filter, Holds, Gone;
    Removed(g.columns, rows.columns, ColumnTable(), taken, id);
    Removed(g.columnTags, rows.columnTags, ColumnTagTable(), taken, id);
    Removed(g.partitions, rows.partitions, PartitionTable(), taken, id);
    Removed(g.partitionColumns, rows.partitionColumns, PartitionColumnTable(), taken, id);
    Removed(g.sorts, rows.sorts, SortTable(), taken, id);
    Removed(g.sortExpressions, rows.sortExpressions, SortExpressionTable(), taken, id);
    Removed(g.tags, rows.tags, TagObject(), taken, id);
  }

  /** Once a table is taken, its partition columns and sort expressions may go or stay. */
  lemma DetailsRemoved(g: Groups, rows: Fetched, taken: set<int>, id: int)
    requires TablesGrouped(g, rows, taken) && id in taken
    ensures TablesGrouped(g.(partitionColumns := g.partitionColumns - {id}), rows, taken)
    ensures TablesGrouped(g.(sortExpressions := g.sortExpressions - {id}), rows, taken)
    ensures TablesGrouped(g.(partitionColumns := g.partitionColumns - {id}, sortExpressions := g.sortExpressions - {id}), rows, taken)
  {
    hide Filter, Holds, Gone;
    assert taken + {id} == taken;
    Removed(g.partitionColumns, rows.partitionColumns, PartitionColumnTable(), taken, id);
    Removed(g.sortExpressions, rows.sortExpressions, SortExpressionTable(), taken, id);
  }

  /** The body of `set_tables`: remove the groups of one table and build the table from them. */
  method TakeTable(table: TableRow, schema: SchemaRow, g: Groups, ghost schemas: seq<SchemaRow>, ghost rows: Fetched,
                   ghost taken: set<int>)
    returns (built: Loaded<CatalogTable>, left: Groups)
    requires TablesGrouped(g, rows, taken) && FindSchema(schemas, table.schemaId) == Some(schema)
    ensures built == BuildTable(table, schemas, PartsLeft(rows, table.tableId, taken))
    ensures built.Ok? ==> TablesGrouped(left, rows, taken + {table.tableId})
    ensures left.macroImpls == g.macroImpls && left.macroParameters == g.macroParameters
  {
    hide Filter, FindSchema, TablesGrouped;
    var id := table.tableId;
    TableRemoved(g, rows, taken, id);
    left := g.(columns := g.columns - {id}, columnTags := g.columnTags - {id}, partitions := g.partitions - {id},
               sorts := g.sorts - {id}, tags := g.tags - {id});
    DetailsRemoved(left, rows, taken + {id}, id);
    var infos := GroupOf(g.partitions, id);
    if |infos| > 1 {
      return Failed(InvalidPartitions(id)), left;
    }
    var partition: Option<(PartitionRow, seq<PartitionColumnRow>)> := None;
    if infos != [] {
      var info := infos[|infos| - 1];
      var found := Filter((c: PartitionColumnRow) => c.partitionId == info.partitionId, GroupOf(g.partitionColumns, id));
      left := left.(partitionColumns := left.partitionColumns - {id});
      if found == [] {
        return Failed(InvalidPartitions(id)), left;
      }
      partition := Some((info, found));
    }
    var orders := GroupOf(g.sorts, id);
    if |orders| > 1 {
      return Failed(InvalidSort(id)), left;
    }
    var sort: Option<(SortRow, seq<SortExpressionRow>)> := None;
    if orders != [] {
      var info := orders[|orders| - 1];
      sort := Some((info, Filter((e: SortExpressionRow) => e.sortId == info.sortId, GroupOf(g.sortExpressions, id))));
      left := left.(sortExpressions := left.sortExpressions - {id});
    }
    built := Ok(CatalogTable(table, schema, GroupOf(g.columns, id), GroupOf(g.columnTags, id), partition, sort, GroupOf(g.tags, id)));
  }

  // ----- the load itself -----

  lemma FindSchemaAppend(schemas: seq<SchemaRow>, schema: SchemaRow, id: int)
    ensures FindSchema(schemas + [schema], id) == if schema.schemaId == id then Some(schema) else FindSchema(schemas, id)
  {
    assert (schemas + [schema])[..|schemas|] == schemas;
  }

  /** What a schema arena and its id index find under an id. */
  function SchemaAt(schemas: seq<SchemaRow>, byId: map<int, nat>, id: int): Option<SchemaRow> {
    if id in byId && byId[id] < |schemas| then Some(schemas[byId[id]]) else None
  }

  /** The index finds the last schema pushed under an id. */
  ghost predicate SchemasIndexed(schemas: seq<SchemaRow>, byId: map<int, nat>) {
    && (forall id :: id in byId ==> byId[id] < |schemas|)
    && forall id :: SchemaAt(schemas, byId, id) == FindSchema(schemas, id)
  }

  /** The catalog while it is being loaded. */
  class CatalogLoader {
    var schemas: seq<SchemaRow>
    var schemaById: map<int, nat>
    var tables: seq<CatalogTable>
    var views: seq<CatalogView>
    var macros: seq<CatalogMacro>
    /** The fetched rows that no object has taken yet. */
    var groups: Groups

    constructor (groups: Groups)
      ensures schemas == [] && schemaById == map[] && tables == [] && views == [] && macros == []
      ensures this.groups == groups
    {
      schemas, schemaById, tables, views, macros := [], map[], [], [], [];
      this.groups := groups;
    }

    /** `set_schemas`. */
    method SetSchemas(fetched: seq<SchemaRow>)
      requires schemas == [] && schemaById == map[]
      modifies this`schemas, this`schemaById
      ensures schemas == fetched && SchemasIndexed(schemas, schemaById)
    {
      for i := 0 to |fetched|
        invariant schemas == fetched[..i] && SchemasIndexed(schemas, schemaById)
      {
        ghost var before, indexed := schemas, schemaById;
        schemas := schemas + [fetched[i]];
        schemaById := schemaById[fetched[i].schemaId := |schemas| - 1];
        assert schemas == fetched[..i + 1];
        forall id ensures SchemaAt(schemas, schemaById, id) == FindSchema(schemas, id) {
          assert SchemaAt(before, indexed, id) == FindSchema(before, id);
          FindSchemaAppend(before, fetched[i], id);
        }
      }
    }

    /** `set_tables`. */
    method SetTables(fetched: seq<TableRow>, ghost rows: Fetched) returns (error: Option<LoadError>)
      requires tables == [] && SchemasIndexed(schemas, schemaById) && TablesGrouped(groups, rows, {})
      modifies this`tables, this`groups
      ensures DrainTables(fetched, schemas, rows, {}) == if error.None? then Ok(tables) else Failed(error.value)
      ensures error.None? ==> TagsGrouped(groups, rows, TableIds(fetched))
      ensures groups.macroImpls == old(groups).macroImpls && groups.macroParameters == old(groups).macroParameters
    {
      hide BuildTable, FindSchema, PartsLeft, Holds, Gone;
      assert fetched[0..] == fetched && TableIds(fetched[..0]) == {};
      PrefixedNothing(DrainTables(fetched, schemas, rows, {}));
      for i := 0 to |fetched|
        invariant TablesGrouped(groups, rows, TableIds(fetched[..i]))
        invariant groups.macroImpls == old(groups).macroImpls && groups.macroParameters == old(groups).macroParameters
        invariant DrainTables(fetched, schemas, rows, {})
               == Prefixed(tables, DrainTables(fetched[i..], schemas, rows, TableIds(fetched[..i])))
      {
        var table := fetched[i];
        assert fetched[i..][0] == table && fetched[i..][1..] == fetched[i + 1..];
        assert TableIds(fetched[..i + 1]) == TableIds(fetched[..i]) + {table.tableId} by {
          assert fetched[..i + 1] == fetched[..i] + [table];
        }
        var schema := SchemaAt(schemas, schemaById, table.schemaId);
        if schema.None? {
          BuildNeedsSchema(table, schemas, PartsLeft(rows, table.tableId, TableIds(fetched[..i])));
          return Some(MissingSchema(table.schemaId));
        }
        var built, left := TakeTable(table, schema.value, groups, schemas, rows, TableIds(fetched[..i]));
        groups := left;
        if built.Failed? {
          return Some(built.error);
        }
        PrefixedTwice(tables, [built.value], DrainTables(fetched[i + 1..], schemas, rows, TableIds(fetched[..i + 1])));
        tables := tables + [built.value];
      }
      assert fetched[..|fetched|] == fetched && fetched[|fetched|..] == [] && tables + [] == tables;
      error := None;
    }

    /** `set_views`. */
    method SetViews(fetched: seq<ViewRow>, ghost rows: Fetched, ghost before: set<int>) returns (error: Option<LoadError>)
      requires views == [] && SchemasIndexed(schemas, schemaById) && TagsGrouped(groups, rows, before)
      modifies this`views, this`groups
      ensures DrainViews(fetched, schemas, rows, before) == if error.None? then Ok(views) else Failed(error.value)
      ensures groups.macroImpls == old(groups).macroImpls && groups.macroParameters == old(groups).macroParameters
    {
      hide FindSchema, Filter, Holds, Gone;
      ghost var taken := before;
      assert fetched[0..] == fetched;
      PrefixedNothing(DrainViews(fetched, schemas, rows, before));
      for i := 0 to |fetched|
        invariant TagsGrouped(groups, rows, taken)
        invariant groups.macroImpls == old(groups).macroImpls && groups.macroParameters == old(groups).macroParameters
        invariant DrainViews(fetched, schemas, rows, before)
               == Prefixed(views, DrainViews(fetched[i..], schemas, rows, taken))
      {
        var view := fetched[i];
        assert fetched[i..][0] == view && fetched[i..][1..] == fetched[i + 1..];
        var schema := SchemaAt(schemas, schemaById, view.schemaId);
        if schema.None? {
          return Some(MissingSchema(view.schemaId));
        }
        Removed(groups.tags, rows.tags, TagObject(), taken, view.viewId);
        var catalogView := CatalogView(view, schema.value, GroupOf(groups.tags, view.viewId));
        groups := groups.(tags := groups.tags - {view.viewId});
        PrefixedTwice(views, [catalogView], DrainViews(fetched[i + 1..], schemas, rows, taken + {view.viewId}));
        views := views + [catalogView];
        taken := taken + {view.viewId};
      }
      assert fetched[|fetched|..] == [] && views + [] == views;
      error := None;
    }

    /** `set_macros`. */
    method SetMacros(fetched: seq<MacroRow>, ghost rows: Fetched) returns (error: Option<LoadError>)
      requires macros == [] && SchemasIndexed(schemas, schemaById) && MacrosGrouped(groups, rows, {})
      modifies this`macros, this`groups
      ensures DrainMacros(fetched, schemas, rows, {}) == if error.None? then Ok(macros) else Failed(error.value)
    {
      hide FindSchema, Filter, Holds, Gone;
      ghost var taken: set<int> := {};
      assert fetched[0..] == fetched;
      PrefixedNothing(DrainMacros(fetched, schemas, rows, {}));
      for i := 0 to |fetched|
        invariant MacrosGrouped(groups, rows, taken)
        invariant DrainMacros(fetched, schemas, rows, {})
               == Prefixed(macros, DrainMacros(fetched[i..], schemas, rows, taken))
      {
        var macro_, id := fetched[i], fetched[i].macroId;
        assert fetched[i..][0] == macro_ && fetched[i..][1..] == fetched[i + 1..];
        var schema := SchemaAt(schemas, schemaById, macro_.schemaId);
        if schema.None? {
          return Some(MissingSchema(macro_.schemaId));
        }
        Removed(groups.macroImpls, rows.macroImpls, ImplMacro(), taken, id);
        Removed(groups.macroParameters, rows.macroParameters, ParameterMacro(), taken, id);
        var parts := MacroParts(GroupOf(groups.macroImpls, id), GroupOf(groups.macroParameters, id));
        groups := groups.(macroImpls := groups.macroImpls - {id}, macroParameters := groups.macroParameters - {id});
        var catalogMacro := CatalogMacro(macro_, schema.value, parts);
        PrefixedTwice(macros, [catalogMacro], DrainMacros(fetched[i + 1..], schemas, rows, taken + {id}));
        macros := macros + [catalogMacro];
        taken := taken + {id};
      }
      assert fetched[|fetched|..] == [] && macros + [] == macros;
      error := None;
    }
  }

  lemma PrefixedNothing<T>(rest: Loaded<seq<T>>)
    ensures Prefixed([], rest) == rest
  {
    if rest.Ok? {
      assert [] + rest.value == rest.value;
    }
  }

  lemma PrefixedTwice<T>(a: seq<T>, b: seq<T>, rest: Loaded<seq<T>>)
    ensures Prefixed(a, Prefixed(b, rest)) == Prefixed(a + b, rest)
  {
    if rest.Ok? {
      assert a + (b + rest.value) == a + b + rest.value;
    }
  }

  lemma BuildNeedsSchema(table: TableRow, schemas: seq<SchemaRow>, parts: TableParts)
    requires FindSchema(schemas, table.schemaId).None?
    ensures BuildTable(table, schemas, parts) == Failed(MissingSchema(table.schemaId))
  {
  }

  /** `Catalog::load`. */
  method LoadCatalog(db: Database, s: int) returns (loaded: Loaded<LoadedCatalog>)
    ensures loaded == DrainedLoad(db, s)
    ensures IdsDistinct(db, s) ==> loaded == Load(db, s)
    ensures IdsDistinct(db, s) && loaded.Ok? ==> CatalogHolds(db, s, loaded.value)
  {
    hide DrainTables, DrainViews, DrainMacros, View, Load, IdsDistinct, Fetch, TagsGrouped, MacrosGrouped, TablesGrouped,
         SchemasIndexed, TableIds, CatalogHolds, Loadable, SchemaVisible;
    if IdsDistinct(db, s) {
      DrainedLoadIsLoad(db, s);
      LoadHolds(db, s);
    }
    var rows := Fetch(db, s);
    var groups := GroupRows(rows);
    var loader := new CatalogLoader(groups);
    loader.SetSchemas(View(db.schemas, s));
    var error := loader.SetTables(View(db.tables, s), rows);
    if error.Some? {
      return Failed(error.value);
    }
    error := loader.SetViews(View(db.views, s), rows, TableIds(View(db.tables, s)));
    if error.Some? {
      return Failed(error.value);
    }
    MacrosUntouched(groups, loader.groups, rows);
    error := loader.SetMacros(View(db.macros, s), rows);
    if error.Some? {
      return Failed(error.value);
    }
    loaded := Ok(LoadedCatalog(loader.schemas, loader.tables, loader.views, loader.macros));
  }

  lemma MacrosUntouched(a: Groups, b: Groups, rows: Fetched)
    requires MacrosGrouped(a, rows, {}) && b.macroImpls == a.macroImpls && b.macroParameters == a.macroParameters
    ensures MacrosGrouped(b, rows, {})
  {
  }

  // ----- draining gives every object its rows -----

  /** One snapshot sees one version of every table, view and macro, and tables and views share no id. */
  predicate IdsDistinct(db: Database, s: int) {
    var tables, views, macros := View(db.tables, s), View(db.views, s), View(db.macros, s);
    && (forall i, j :: 0 <= i < j < |tables| ==> tables[i].tableId != tables[j].tableId)
    && (forall i, j :: 0 <= i < j < |views| ==> views[i].viewId != views[j].viewId)
    && (forall t, v :: t in tables && v in views ==> t.tableId != v.viewId)
    && (forall i, j :: 0 <= i < j < |macros| ==> macros[i].macroId != macros[j].macroId)
  }

  function Both<T>(p: T -> bool, q: T -> bool): T -> bool { (x: T) => p(x) && q(x) }

  lemma {:induction false} FilterTwice<T>(p: T -> bool, q: T -> bool, s: seq<T>)
    ensures Filter(p, Filter(q, s)) == Filter(Both(p, q), s)
  {
    if s != [] {
      FilterTwice(p, q, s[1..]);
      FilterAppend(p, if q(s[0]) then [s[0]] else [], Filter(q, s[1..]));
    }
  }

  /** Two selections that agree on what a later query picks give that query the same rows. */
  lemma SelectionsAgree<T>(p: T -> bool, q: T -> bool, r: T -> bool, s: seq<T>)
    requires forall x :: x in s && p(x) ==> q(x) == r(x)
    ensures Filter(p, Filter(q, s)) == Filter(p, Filter(r, s))
  {
    FilterTwice(p, q, s);
    FilterTwice(p, r, s);
    FilterCongruent(Both(p, q), Both(p, r), s);
  }

  lemma PartitionColumnsAgree(db: Database, s: int, id: int, info: PartitionRow)
    requires info in View(db.partitions, s) && info.tableId == id
    ensures
      var mine := (c: PartitionColumnRow) => c.partitionId == info.partitionId;
      Filter(mine, PartsLeft(Fetch(db, s), id, {}).partitionColumns) == Filter(mine, PartsOf(db, s, id).partitionColumns)
  {
    SelectionsAgree((c: PartitionColumnRow) => c.partitionId == info.partitionId, WithKey(PartitionColumnTable(), id),
                    (c: PartitionColumnRow) => c.tableId == id && PartitionActive(db, s, id, c.partitionId), db.partitionColumns);
  }

  lemma SortExpressionsAgree(db: Database, s: int, id: int, info: SortRow)
    requires info in View(db.sorts, s) && info.tableId == id
    ensures
      var mine := (e: SortExpressionRow) => e.sortId == info.sortId;
      Filter(mine, PartsLeft(Fetch(db, s), id, {}).sortExpressions) == Filter(mine, PartsOf(db, s, id).sortExpressions)
  {
    var active := (e: SortExpressionRow) => SortIdActive(db, s, e.sortId);
    FilterTwice(WithKey(SortExpressionTable(), id), active, db.sortExpressions);
    SelectionsAgree((e: SortExpressionRow) => e.sortId == info.sortId, Both(WithKey(SortExpressionTable(), id), active),
                    (e: SortExpressionRow) => e.tableId == id && SortActive(db, s, id, e.sortId), db.sortExpressions);
  }

  lemma PlainPartsAgree(db: Database, s: int, id: int)
    ensures
      var left, plain := PartsLeft(Fetch(db, s), id, {}), PartsOf(db, s, id);
      left.(partitionColumns := [], sortExpressions := []) == plain.(partitionColumns := [], sortExpressions := [])
  {
    FilterCongruent(WithKey(ColumnTable(), id), (c: ColumnRow) => c.tableId == id, View(db.columns, s));
    FilterCongruent(WithKey(ColumnTagTable(), id), (t: ColumnTagRow) => t.owner.0 == id, View(db.columnTags, s));
    FilterCongruent(WithKey(PartitionTable(), id), (p: PartitionRow) => p.tableId == id, View(db.partitions, s));
    FilterCongruent(WithKey(SortTable(), id), (p: SortRow) => p.tableId == id, View(db.sorts, s));
    FilterCongruent(WithKey(TagObject(), id), (t: TagRow) => t.owner == id, View(db.tags, s));
  }

  /** Rows of partitions and sort orders that a table does not have make no difference to it. */
  lemma FetchedPartsBuild(db: Database, s: int, table: TableRow, schemas: seq<SchemaRow>)
    ensures BuildTable(table, schemas, PartsLeft(Fetch(db, s), table.tableId, {}))
         == BuildTable(table, schemas, PartsOf(db, s, table.tableId))
  {
    hide Filter, View, FindSchema, Fetch;
    var id := table.tableId;
    var plain := PartsOf(db, s, id);
    PlainPartsAgree(db, s, id);
    if plain.partitions != [] {
      PartitionColumnsAgree(db, s, id, plain.partitions[0]);
    }
    if plain.sorts != [] {
      SortExpressionsAgree(db, s, id, plain.sorts[0]);
    }
  }

  lemma {:induction false} DrainTablesIsSetTables(db: Database, s: int, tables: seq<TableRow>, schemas: seq<SchemaRow>, taken: set<int>)
    requires forall t :: t in tables ==> t.tableId !in taken
    requires forall i, j :: 0 <= i < j < |tables| ==> tables[i].tableId != tables[j].tableId
    ensures DrainTables(tables, schemas, Fetch(db, s), taken) == SetTables(tables, schemas, id => PartsOf(db, s, id))
    decreases |tables|
  {
    hide Fetch, PartsOf, BuildTable;
    if tables != [] {
      var id := tables[0].tableId;
      assert PartsLeft(Fetch(db, s), id, taken) == PartsLeft(Fetch(db, s), id, {});
      FetchedPartsBuild(db, s, tables[0], schemas);
      DrainTablesIsSetTables(db, s, tables[1..], schemas, taken + {id});
    }
  }

  lemma {:induction false} DrainViewsIsSetViews(db: Database, s: int, views: seq<ViewRow>, schemas: seq<SchemaRow>, taken: set<int>)
    requires forall v :: v in views ==> v.viewId !in taken
    requires forall i, j :: 0 <= i < j < |views| ==> views[i].viewId != views[j].viewId
    ensures DrainViews(views, schemas, Fetch(db, s), taken) == SetViews(views, schemas, id => TagsOf(db, s, id))
    decreases |views|
  {
    if views != [] {
      var id := views[0].viewId;
      FilterCongruent(WithKey(TagObject(), id), (t: TagRow) => t.owner == id, View(db.tags, s));
      DrainViewsIsSetViews(db, s, views[1..], schemas, taken + {id});
    }
  }

  lemma {:induction false} DrainMacrosIsSetMacros(db: Database, s: int, macros: seq<MacroRow>, schemas: seq<SchemaRow>, taken: set<int>)
    requires forall m :: m in macros ==> m.macroId !in taken && m in View(db.macros, s)
    requires forall i, j :: 0 <= i < j < |macros| ==> macros[i].macroId != macros[j].macroId
    ensures DrainMacros(macros, schemas, Fetch(db, s), taken) == SetMacros(macros, schemas, id => MacroPartsOf(db, id))
    decreases |macros|
  {
    if macros != [] {
      var m := macros[0];
      assert m in View(db.macros, s);
      FilterCongruent(WithKey(ImplMacro(), m.macroId), (i: MacroImplRow) => i.macroId == m.macroId, Fetch(db, s).macroImpls);
      FilterAbsorbs((i: MacroImplRow) => i.macroId == m.macroId,
                    (i: MacroImplRow) => MacroIdActive(db, s, i.macroId), db.macroImpls);
      FilterCongruent(WithKey(ParameterMacro(), m.macroId), (p: MacroParameterRow) => p.macroId == m.macroId,
                      Fetch(db, s).macroParameters);
      FilterAbsorbs((p: MacroParameterRow) => p.macroId == m.macroId,
                    (p: MacroParameterRow) => MacroIdActive(db, s, p.macroId), db.macroParameters);
      DrainMacrosIsSetMacros(db, s, macros[1..], schemas, taken + {m.macroId});
    }
  }

  /** Building the catalog by draining the groups reads the snapshot as filtering for each object does. */
  lemma DrainedLoadIsLoad(db: Database, s: int)
    requires IdsDistinct(db, s)
    ensures DrainedLoad(db, s) == Load(db, s)
  {
    hide View, DrainTables, DrainViews, DrainMacros, SetTables, SetViews, SetMacros, Fetch, PartsOf, TagsOf, MacroPartsOf;
    var tables, views, macros := View(db.tables, s), View(db.views, s), View(db.macros, s);
    var schemas := View(db.schemas, s);
    assert forall v :: v in views ==> v.viewId !in TableIds(tables);
    DrainTablesIsSetTables(db, s, tables, schemas, {});
    DrainViewsIsSetViews(db, s, views, schemas, TableIds(tables));
    DrainMacrosIsSetMacros(db, s, macros, schemas, {});
  }

  /** A second visible row under one table id gets none of the columns that the first one took. */
  lemma SecondVersionLosesColumns(first: TableRow, second: TableRow, schema: SchemaRow, column: ColumnRow, rows: Fetched)
    requires first.tableId == second.tableId == column.tableId
    requires first.schemaId == second.schemaId == schema.schemaId
    requires rows == Fetched([column], [], [], [], [], [], [], [], [])
    ensures
      var loaded := DrainTables([first, second], [schema], rows, {});
      loaded.Ok? && |loaded.value| == 2 && loaded.value[0].columns == [column] && loaded.value[1].columns == []
  {
    var schemas, id := [schema], first.tableId;
    assert schemas[..0] == [] && FindSchema(schemas, first.schemaId) == Some(schema);
    var left, none := PartsLeft(rows, id, {}), PartsLeft(rows, id, {} + {id});
    assert left == TableParts([column], [], [], [], [], [], []);
    assert BuildTable(first, schemas, left) == Ok(CatalogTable(first, schema, [column], [], None, None, []));
    assert BuildTable(second, schemas, none) == Ok(CatalogTable(second, schema, [], [], None, None, []));
    assert [first, second][1..] == [second] && [second][1..] == [];
    assert DrainTables([], schemas, rows, {} + {id} + {id}) == Ok([]);
    assert DrainTables([second], schemas, rows, {} + {id}).Ok?;
  }
}
