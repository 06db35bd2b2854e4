/**
 * Catalogs shared by schema version (caches/catalog.rs, caches/snapshot.rs): whatever is evicted,
 * expired or committed in between, and however late a shared catalog is loaded, a retained
 * snapshot gets the catalog a fresh load would give it.
 */
module CatalogCaches {
  import opened Prelude
  import opened Versions
  import opened Tags
  import opened Paths
  import opened Catalog
  import opened Persist
  import opened TimeTravel
  import opened Expiry
  import opened ExpirySafety
  import opened Histories

  // ----- the two primitives -----

  /** Shares values by key without keeping them alive (primitives/weak_cache.rs). */
  class WeakCache<K(==), V(==)> {
    var values: map<K, V>

    constructor ()
      ensures values == map[]
    {
      values := map[];
    }

    /** Reuse the value of the key while a caller still holds it, else prune and insert `created`. */
    method GetOrInsertWith(key: K, held: set<V>, created: V) returns (value: V)
      modifies this
      ensures key in values && values[key] == value
      ensures key in old(values) && old(values)[key] in held ==> value == old(values)[key] && values == old(values)
      ensures !(key in old(values) && old(values)[key] in held) ==>
                value == created
                && forall k :: k in values <==> k == key || (k in old(values) && old(values)[k] in held)
      ensures forall k :: k in values && k != key ==> k in old(values) && values[k] == old(values)[k]
    {
      if key in values && values[key] in held {
        return values[key];
      }
      values := map k | k in values && values[k] in held :: values[k];
      value := created;
      values := values[key := value];
    }
  }

  /** A value that is loaded once (primitives/lazy.rs); a failed load leaves it unset. */
  class Lazy<T> {
    var value: Option<T>

    constructor ()
      ensures value == None
    {
      value := None;
    }

    method Get(load: Loaded<T>) returns (result: Loaded<T>)
      modifies this
      ensures result == Read(old(value), load)
      ensures value == Kept(old(value), load)
      ensures old(value).Some? ==> result == Ok(old(value).value) && value == old(value)
      ensures old(value).None? ==> result == load && value == if load.Ok? then Some(load.value) else None
    {
      if value.None? && load.Ok? {
        value := Some(load.value);
      }
      result := if value.Some? then Ok(value.value) else load;
    }
  }

  /** What reading a lazy value returns, when loading it now would give `load`. */
  function Read<T>(value: Option<T>, load: Loaded<T>): Loaded<T> { if value.Some? then Ok(value.value) else load }

  /** What the lazy value holds afterwards. */
  function Kept<T>(value: Option<T>, load: Loaded<T>): Option<T> {
    if value.None? && load.Ok? then Some(load.value) else value
  }

  // ----- the snapshot cache -----

  class SnapshotCache {
    var current: SnapshotRow

    constructor (current: SnapshotRow)
      ensures this.current == current
    {
      this.current := current;
    }

    /** `insert_snapshot`: the head never moves back, whatever order snapshots arrive in. */
    method InsertSnapshot(info: SnapshotRow) returns (snapshot: SnapshotRow)
      modifies this
      ensures snapshot == if old(current).id == info.id then old(current) else info
      ensures current == if info.id > old(current).id then info else old(current)
    {
      if current.id == info.id {
        return current;
      }
      snapshot := info;
      if snapshot.id > current.id {
        current := snapshot;
      }
    }

    /** `get_for_schema_version`. */
    method GetForSchemaVersion(db: Database, schemaVersion: int) returns (id: Option<int>)
      ensures id == SnapshotFor(db, current, schemaVersion)
      ensures current.schemaVersion == schemaVersion ==> id == Some(current.id)
      ensures current.schemaVersion != schemaVersion && (exists r :: r in db.snapshots && r.schemaVersion == schemaVersion) ==>
                exists r :: r in db.snapshots && r.schemaVersion == schemaVersion && id == Some(r.id)
                            && forall x :: x in db.snapshots && x.schemaVersion == schemaVersion ==> x.id <= r.id
      ensures current.schemaVersion != schemaVersion && !(exists r :: r in db.snapshots && r.schemaVersion == schemaVersion) ==>
                if id.Some?
                then exists x :: x in db.schemaVersions && x.schemaVersion == schemaVersion && x.begin == id.value
                                 && forall y :: y in db.schemaVersions && y.schemaVersion == schemaVersion ==> x.begin <= y.begin
                else forall x :: x in db.schemaVersions ==> x.schemaVersion != schemaVersion
    {
      if current.schemaVersion == schemaVersion {
        return Some(current.id);
      }
      var info := LatestWithVersion(db.snapshots, schemaVersion);
      if info.Some? {
        return Some(if current.id == info.value.id then current.id else info.value.id);
      }
      id := EarliestBegin(db.schemaVersions, schemaVersion);
    }
  }

  function LatestWithVersion(snapshots: seq<SnapshotRow>, schemaVersion: int): (r: Option<SnapshotRow>)
    ensures r.Some? ==> r.value in snapshots && r.value.schemaVersion == schemaVersion
    ensures r.Some? ==> forall x :: x in snapshots && x.schemaVersion == schemaVersion ==> x.id <= r.value.id
    ensures r.None? ==> forall x :: x in snapshots ==> x.schemaVersion != schemaVersion
  {
    if snapshots == [] then None
    else
      var rest := LatestWithVersion(snapshots[1..], schemaVersion);
      if snapshots[0].schemaVersion == schemaVersion && (rest.None? || snapshots[0].id > rest.value.id)
      then Some(snapshots[0]) else rest
  }

  function EarliestBegin(versions: seq<SchemaVersionRow>, schemaVersion: int): (r: Option<int>)
    ensures r.Some? ==> exists x :: x in versions && x.schemaVersion == schemaVersion && x.begin == r.value
    ensures r.Some? ==> forall x :: x in versions && x.schemaVersion == schemaVersion ==> r.value <= x.begin
    ensures r.None? ==> forall x :: x in versions ==> x.schemaVersion != schemaVersion
  {
    if versions == [] then None
    else
      assert versions == [versions[0]] + versions[1..];
      var rest := EarliestBegin(versions[1..], schemaVersion);
      if versions[0].schemaVersion == schemaVersion && (rest.None? || versions[0].begin < rest.value)
      then Some(versions[0].begin) else rest
  }

  /** The snapshot id that stands for a schema version: current, else latest retained, else synthesised. */
  function SnapshotFor(db: Database, current: SnapshotRow, schemaVersion: int): Option<int> {
    if current.schemaVersion == schemaVersion then Some(current.id)
    else
      match LatestWithVersion(db.snapshots, schemaVersion)
      case Some(info) => Some(info.id)
      case None => EarliestBegin(db.schemaVersions, schemaVersion)
  }

  // ----- runs with shared catalogs -----

  /** A shared lazy catalog: it captures the id of the snapshot it was created for. */
  datatype Cell = Cell(creator: int, schemaVersion: int, value: Option<LoadedCatalog>)

  /** All cells ever created; which of them a cache still reaches is left open. */
  datatype World = World(history: History, cells: seq<Cell>)

  ghost predicate DatabaseStep(a: World, b: World) {
    Step(a.history, b.history) && b.cells == a.cells && HeadLoads(b.history)
  }

  /** The catalog a commit leaves at the head is one that can be loaded. */
  ghost predicate HeadLoads(h: History) { h.log != [] && Load(h.db, |h.log| - 1).Ok? }

  /** `CatalogCache::get` on a miss: a new cell, not loaded yet, for any snapshot ever committed. */
  ghost predicate CreateStep(a: World, b: World, id: int) {
    && 0 <= id < |a.history.log|
    && b == World(a.history, a.cells + [Cell(id, a.history.log[id].schemaVersion, None)])
  }

  /** A caller reads cell `i`; the first successful load is kept. */
  ghost predicate ReadStep(a: World, b: World, i: nat) {
    && i < |a.cells|
    && var cell := a.cells[i];
       b == World(a.history, a.cells[i := cell.(value := Kept(cell.value, Load(a.history.db, cell.creator)))])
  }

  ghost predicate WorldStep(a: World, b: World) {
    || DatabaseStep(a, b)
    || (exists id :: CreateStep(a, b, id))
    || (exists i: nat :: ReadStep(a, b, i))
  }

  ghost predicate WorldRun(run: seq<World>) {
    && run != [] && Created(run[0].history) && run[0].cells == []
    && forall i :: 0 <= i < |run| - 1 ==> WorldStep(run[i], run[i + 1])
  }

  // ----- the invariant -----

  /** A loaded cell holds what every retained snapshot of its schema version would load. */
  ghost predicate Agrees(db: Database, cell: Cell) {
    cell.value.Some? ==>
      forall r :: r in db.snapshots && r.schemaVersion == cell.schemaVersion ==> Load(db, r.id) == Ok(cell.value.value)
  }

  ghost predicate HasTable(tables: seq<CatalogTable>, t: TableRow, columns: seq<ColumnRow>) {
    exists c :: c in tables && c.table == t && c.columns == columns
  }

  /** A loaded cell has every table still recorded for its schema version, with its columns. */
  ghost predicate Serves(db: Database, log: seq<SnapshotRow>, cell: Cell) {
    cell.value.Some? ==>
      forall a, t :: 0 <= a < |log| && log[a].schemaVersion == cell.schemaVersion && t in View(db.tables, a)
        ==> HasTable(cell.value.value.tables, t, ColumnsOf(db, a, t.tableId))
  }

  ghost predicate Placed(log: seq<SnapshotRow>, cell: Cell) {
    0 <= cell.creator < |log| && log[cell.creator].schemaVersion == cell.schemaVersion
  }

  /** Every snapshot ever committed still loads. */
  ghost predicate AllLoad(h: History) { forall a :: 0 <= a < |h.log| ==> Load(h.db, a).Ok? }

  ghost predicate CellsGood(db: Database, log: seq<SnapshotRow>, cells: seq<Cell>) {
    forall c :: c in cells ==> Placed(log, c) && Agrees(db, c) && Serves(db, log, c)
  }

  ghost predicate Inv(w: World) {
    Sound(w.history) && AllLoad(w.history) && CellsGood(w.history.db, w.history.log, w.cells)
  }

  /** The tables of a loaded catalog, with their columns. */
  lemma LoadServes(db: Database, s: int)
    requires SchemasContain(db) && Load(db, s).Ok?
    ensures forall t :: t in View(db.tables, s) ==> HasTable(Load(db, s).value.tables, t, ColumnsOf(db, s, t.tableId))
  {
    hide Load, View, InSchema, SchemasContain, SchemasPresent, ColumnsOf;
    ContainedSchemasPresent(db, s);
    LoadWithSchemas(db, s);
    var tables, rows := Load(db, s).value.tables, View(db.tables, s);
    forall t | t in rows ensures HasTable(tables, t, ColumnsOf(db, s, t.tableId)) {
      var i :| 0 <= i < |rows| && rows[i] == t;
      assert tables[i] in tables;
    }
  }

  lemma VersionsAgree(db: Database, log: seq<SnapshotRow>, a: int, b: int)
    requires GoodLog(log) && CatalogOnBoundaries(db, log)
    requires 0 <= a < |log| && 0 <= b < |log| && log[a].schemaVersion == log[b].schemaVersion
    ensures Load(db, a) == Load(db, b)
    ensures View(db.tables, a) == View(db.tables, b)
    ensures forall id :: ColumnsOf(db, a, id) == ColumnsOf(db, b, id)
  {
    hide Load, View, CatalogOnBoundaries, ColumnsOf;
    if a <= b { SameVersionSameCatalog(db, log, a, b); } else { SameVersionSameCatalog(db, log, b, a); }
  }

  /** Loading a cell now gives it a value that agrees and serves. */
  lemma LoadedCellGood(h: History, cell: Cell)
    requires Sound(h) && Placed(h.log, cell) && Load(h.db, cell.creator).Ok?
    ensures
      var loaded := cell.(value := Some(Load(h.db, cell.creator).value));
      Agrees(h.db, loaded) && Serves(h.db, h.log, loaded)
  {
    hide Load, View, ColumnsOf, CatalogOnBoundaries, SettledCatalog, SchemasContain, InlinedRecorded;
    var db, log := h.db, h.log;
    forall r | r in db.snapshots && r.schemaVersion == cell.schemaVersion ensures Load(db, r.id) == Load(db, cell.creator) {
      VersionsAgree(db, log, r.id, cell.creator);
    }
    LoadServes(db, cell.creator);
    var tables := Load(db, cell.creator).value.tables;
    forall a, t | 0 <= a < |log| && log[a].schemaVersion == cell.schemaVersion && t in View(db.tables, a)
      ensures HasTable(tables, t, ColumnsOf(db, a, t.tableId))
    {
      VersionsAgree(db, log, a, cell.creator);
    }
  }

  // ----- commits -----

  /** A commit changes nothing that an earlier snapshot loads, and what it adds loads like its version. */
  lemma CommitKeepsPast(h: History, next: History, ch: TransactionChanges, info: SnapshotRow, made: string,
                        same: (string, string) -> bool, a: int)
    requires CommitStep(h, next, ch, info, made, same) && a < |h.log|
    ensures Load(next.db, a) == Load(h.db, a)
    ensures View(next.db.tables, a) == View(h.db.tables, a)
    ensures forall id :: ColumnsOf(next.db, a, id) == ColumnsOf(h.db, a, id)
  {
    hide Load, View, PersistedInlined, Persisted, FreshDependents, RespectsSchemas, InlinesChanged, Equivalence;
    var inlined := PersistedInlined(h.db, ch, info.schemaVersion, info.id).value;
    PastCatalog(h.db, ch, info, made, same, inlined, a);
    PastViews(h.db, ch, info, made, same, inlined, a);
  }

  /** The facts about two databases that the cell invariant is carried over by. */
  ghost predicate PastKept(before: History, after: History) {
    forall a {:trigger Load(after.db, a)} {:trigger View(after.db.tables, a)} :: 0 <= a < |before.log| ==>
      && Load(after.db, a) == Load(before.db, a)
      && View(after.db.tables, a) == View(before.db.tables, a)
      && forall id :: ColumnsOf(after.db, a, id) == ColumnsOf(before.db, a, id)
  }

  ghost predicate Extends(before: History, after: History) {
    && before.log <= after.log
    && forall r :: r in after.db.snapshots ==> r in before.db.snapshots || (|before.log| <= r.id < |after.log| && r == after.log[r.id])
  }

  /** A snapshot newer than a cell's creator, of the same version: the version's last one before the commit has it too. */
  lemma CellOverCommit(before: History, after: History, cell: Cell)
    requires Sound(before) && Sound(after) && PastKept(before, after) && Extends(before, after)
    requires |after.log| == |before.log| + 1
    requires Placed(before.log, cell) && Agrees(before.db, cell) && Serves(before.db, before.log, cell)
    ensures Agrees(after.db, cell) && Serves(after.db, after.log, cell)
  {
    hide Load, View, ColumnsOf, CatalogOnBoundaries, SettledCatalog, SchemasContain, InlinedRecorded;
    var last := |before.log| - 1;
    if cell.value.Some? {
      forall r | r in after.db.snapshots && r.schemaVersion == cell.schemaVersion
        ensures Load(after.db, r.id) == Ok(cell.value.value)
      {
        if r.id <= last {
          assert r in before.db.snapshots;
        } else {
          VersionsAgree(after.db, after.log, r.id, last);
          assert before.log[last] in before.db.snapshots;
        }
      }
      forall a, t | 0 <= a < |after.log| && after.log[a].schemaVersion == cell.schemaVersion && t in View(after.db.tables, a)
        ensures HasTable(cell.value.value.tables, t, ColumnsOf(after.db, a, t.tableId))
      {
        if a > last {
          VersionsAgree(after.db, after.log, a, cell.creator);
        }
      }
    }
  }

  // ----- expiry -----

  lemma CellOverExpiry(h: History, next: History, matches: SnapshotRow -> bool, catalog: LoadedCatalog,
                       dataPath: DucklakePath, cell: Cell)
    requires Sound(h) && ExpireStep(h, next, matches, catalog, dataPath)
    requires Placed(h.log, cell) && Agrees(h.db, cell) && Serves(h.db, h.log, cell)
    ensures Agrees(next.db, cell) && Serves(next.db, next.log, cell)
  {
    hide Load, View, ColumnsOf, Sound, ExpiredIds, Expire, HasTable;
    var ids := ExpiredIds(h.db, matches);
    AfterExpirySnapshots(h.db, ids, catalog, dataPath, next.db);
    if cell.value.Some? {
      forall r | r in next.db.snapshots && r.schemaVersion == cell.schemaVersion
        ensures Load(next.db, r.id) == Ok(cell.value.value)
      {
        ExpiryKeepsCatalog(h.db, ids, catalog, dataPath, next.db, r.id);
      }
      forall a, t | 0 <= a < |next.log| && next.log[a].schemaVersion == cell.schemaVersion && t in View(next.db.tables, a)
        ensures HasTable(cell.value.value.tables, t, ColumnsOf(next.db, a, t.tableId))
      {
        KeptTableSame(h.db, ids, catalog, dataPath, next.db, a, t);
      }
    }
  }

  lemma KeptTableSame(db: Database, ids: set<int>, catalog: LoadedCatalog, dataPath: DucklakePath, after: Database,
                      a: int, t: TableRow)
    requires Expire(db, ids, catalog, dataPath) == Some(after)
    requires t in View(after.tables, a)
    ensures t in View(db.tables, a)
    ensures ColumnsOf(after, a, t.tableId) == ColumnsOf(db, a, t.tableId)
  {
    hide Expire;
    AfterExpiry(db, ids, catalog, dataPath, after);
    var v :| v in after.tables && VisibleAt(v, a) && v.row == t;
    KeptParts(db, ids, catalog, dataPath, after, a, t.tableId);
  }

  // ----- the run -----

  lemma DatabaseStepKeeps(a: World, b: World)
    requires Inv(a) && DatabaseStep(a, b)
    ensures Inv(b)
  {
    hide Load, View, CommitStep, ExpireStep, Sound, CellsGood;
    StepKeepsSound(a.history, b.history);
    if ch, info, made, same :| CommitStep(a.history, b.history, ch, info, made, same) {
      CommitStepKeeps(a, b, ch, info, made, same);
    } else {
      var matches, catalog, dataPath :| ExpireStep(a.history, b.history, matches, catalog, dataPath);
      ExpireStepKeeps(a, b, matches, catalog, dataPath);
    }
  }

  lemma CommitAppends(h: History, next: History, ch: TransactionChanges, info: SnapshotRow, made: string,
                      same: (string, string) -> bool)
    requires CommitStep(h, next, ch, info, made, same)
    ensures next.log == h.log + [info] && Extends(h, next)
  {
    hide Load, View, PersistedInlined, Collected, RespectsSchemas, InlinesChanged, Equivalence, Advance, PersistedTables, PersistedTags;
  }

  lemma CommitExtends(h: History, next: History, ch: TransactionChanges, info: SnapshotRow, made: string,
                      same: (string, string) -> bool)
    requires CommitStep(h, next, ch, info, made, same)
    ensures next.log == h.log + [info] && Extends(h, next) && PastKept(h, next)
  {
    hide Load, View, ColumnsOf, CommitStep, Extends, PastKept;
    CommitAppends(h, next, ch, info, made, same);
    forall a | 0 <= a < |h.log| ensures KeptAt(h.db, next.db, a) {
      CommitKeepsPast(h, next, ch, info, made, same, a);
    }
    KeptEverywhere(h, next);
  }

  ghost predicate KeptAt(before: Database, after: Database, a: int) {
    && Load(after, a) == Load(before, a)
    && View(after.tables, a) == View(before.tables, a)
    && forall id :: ColumnsOf(after, a, id) == ColumnsOf(before, a, id)
  }

  lemma KeptEverywhere(before: History, after: History)
    requires forall a :: 0 <= a < |before.log| ==> KeptAt(before.db, after.db, a)
    ensures PastKept(before, after)
  {
    hide Load, View, ColumnsOf;
    forall a {:trigger Load(after.db, a)} {:trigger View(after.db.tables, a)} | 0 <= a < |before.log|
      ensures Load(after.db, a) == Load(before.db, a)
      ensures View(after.db.tables, a) == View(before.db.tables, a)
      ensures forall id :: ColumnsOf(after.db, a, id) == ColumnsOf(before.db, a, id)
    {
      assert KeptAt(before.db, after.db, a);
    }
  }

  lemma CommitStepKeeps(a: World, b: World, ch: TransactionChanges, info: SnapshotRow, made: string,
                        same: (string, string) -> bool)
    requires Inv(a) && Sound(b.history) && HeadLoads(b.history) && b.cells == a.cells
    requires CommitStep(a.history, b.history, ch, info, made, same)
    ensures AllLoad(b.history) && CellsGood(b.history.db, b.history.log, b.cells)
  {
    hide Load, View, CommitStep, Sound, PastKept, Extends, Agrees, Serves;
    CommitExtends(a.history, b.history, ch, info, made, same);
    AllLoadOverCommit(a.history, b.history, info);
    forall c | c in b.cells ensures Placed(b.history.log, c) && Agrees(b.history.db, c) && Serves(b.history.db, b.history.log, c) {
      CellOverCommit(a.history, b.history, c);
    }
  }

  lemma AllLoadOverCommit(before: History, after: History, info: SnapshotRow)
    requires AllLoad(before) && HeadLoads(after) && PastKept(before, after) && after.log == before.log + [info]
    ensures AllLoad(after)
  {
    hide Load;
  }

  lemma ExpireStepKeeps(a: World, b: World, matches: SnapshotRow -> bool, catalog: LoadedCatalog, dataPath: DucklakePath)
    requires Inv(a) && b.cells == a.cells && ExpireStep(a.history, b.history, matches, catalog, dataPath)
    ensures AllLoad(b.history) && CellsGood(b.history.db, b.history.log, b.cells)
  {
    hide Load, View, Expire, GoodLog, Retained, CatalogOnBoundaries, SettledCatalog, SchemasContain, InlinedRecorded, Agrees, Serves;
    forall s | 0 <= s < |b.history.log| ensures Load(b.history.db, s).Ok? {
      HistoricalSchemasSurvive(a.history.db, ExpiredIds(a.history.db, matches), catalog, dataPath, b.history.db, s);
    }
    forall c | c in b.cells ensures Placed(b.history.log, c) && Agrees(b.history.db, c) && Serves(b.history.db, b.history.log, c) {
      CellOverExpiry(a.history, b.history, matches, catalog, dataPath, c);
    }
  }

  lemma CacheStepKeeps(a: World, b: World)
    requires Inv(a) && ((exists id :: CreateStep(a, b, id)) || (exists i: nat :: ReadStep(a, b, i)))
    ensures Inv(b)
  {
    hide Load, View, Sound;
    if i: nat :| ReadStep(a, b, i) {
      var cell, load := a.cells[i], Load(a.history.db, a.cells[i].creator);
      assert cell in a.cells;
      if cell.value.None? {
        assert load.Ok?;
        LoadedCellGood(a.history, cell);
      }
    }
  }

  lemma {:induction false} RunInv(run: seq<World>, i: nat)
    requires WorldRun(run) && i < |run|
    ensures Inv(run[i])
  {
    hide Sound, CellsGood, DatabaseStep, CreateStep, ReadStep;
    if i == 0 {
      InitialInv(run[0]);
    } else {
      RunInv(run, i - 1);
      assert WorldStep(run[i - 1], run[i - 1 + 1]);
      if DatabaseStep(run[i - 1], run[i]) {
        DatabaseStepKeeps(run[i - 1], run[i]);
      } else {
        CacheStepKeeps(run[i - 1], run[i]);
      }
    }
  }

  lemma InitialInv(w: World)
    requires Created(w.history) && w.cells == []
    ensures Inv(w)
  {
    CreatedSound(w.history);
    assert View(w.history.db.tables, 0) == [];
  }

  // ----- the theorems -----

  /**
   * In every run, reading the catalog of a retained snapshot through any cell of its schema
   * version gives exactly what loading that snapshot afresh gives.
   */
  lemma CacheReturnsFreshCatalog(run: seq<World>, i: nat, c: nat, r: SnapshotRow)
    requires WorldRun(run) && i < |run| && c < |run[i].cells|
    requires r in run[i].history.db.snapshots && r.schemaVersion == run[i].cells[c].schemaVersion
    ensures
      var db := run[i].history.db;
      var cell := run[i].cells[c];
      Read(cell.value, Load(db, cell.creator)) == Load(db, r.id)
  {
    hide Load, View, SettledCatalog, CatalogOnBoundaries, SchemasContain, InlinedRecorded, WorldRun, Serves;
    RunInv(run, i);
    var w := run[i];
    var cell := w.cells[c];
    assert cell in w.cells;
    VersionsAgree(w.history.db, w.history.log, cell.creator, r.id);
  }

  lemma ResolvedVersion(h: History, current: SnapshotRow, k: InlinedTableRow)
    requires Sound(h) && current in h.log && k in h.db.inlinedTables
    ensures
      var id := SnapshotFor(h.db, current, k.schemaVersion);
      id.Some? && 0 <= id.value < |h.log| && h.log[id.value].schemaVersion == k.schemaVersion
      && exists t :: t in View(h.db.tables, id.value) && t.tableId == k.tableId
  {
    hide View, SettledCatalog, CatalogOnBoundaries, SchemasContain;
    var db, log := h.db, h.log;
    var r :| r in db.schemaVersions && r.tableId == k.tableId && r.schemaVersion == k.schemaVersion
             && TableVisible(db, r.begin, k.tableId);
    var id := SnapshotFor(db, current, k.schemaVersion);
    assert id.Some?;
    VersionsAgree(db, log, r.begin, id.value);
    var t :| t in View(db.tables, r.begin) && t.tableId == k.tableId;
    assert t in View(db.tables, id.value);
  }

  /**
   * Inlined rows can always be decoded: for every registered inlined-data table the schema version
   * resolves to a snapshot, synthesised if need be, and both a fresh load of it and any shared
   * catalog of that version contain the table with the columns it had there.
   */
  lemma InlinedTablesDecode(run: seq<World>, i: nat, current: SnapshotRow, k: InlinedTableRow)
    requires WorldRun(run) && i < |run|
    requires current in run[i].history.log && k in run[i].history.db.inlinedTables
    ensures
      var db := run[i].history.db;
      var id := SnapshotFor(db, current, k.schemaVersion);
      && id.Some? && Load(db, id.value).Ok?
      && exists t :: t in View(db.tables, id.value) && t.tableId == k.tableId
           && HasTable(Load(db, id.value).value.tables, t, ColumnsOf(db, id.value, k.tableId))
           && forall c :: c in run[i].cells && c.schemaVersion == k.schemaVersion && c.value.Some?
                ==> HasTable(c.value.value.tables, t, ColumnsOf(db, id.value, k.tableId))
  {
    hide Load, View, SettledCatalog, CatalogOnBoundaries, InlinedRecorded, WorldRun, Agrees, GoodLog, Retained, SnapshotFor, ColumnsOf, HasTable;
    RunInv(run, i);
    var w := run[i];
    var db := w.history.db;
    ResolvedVersion(w.history, current, k);
    var id := SnapshotFor(db, current, k.schemaVersion).value;
    var t :| t in View(db.tables, id) && t.tableId == k.tableId;
    LoadServes(db, id);
    assert forall c :: c in w.cells && c.schemaVersion == k.schemaVersion && c.value.Some?
                       ==> Serves(db, w.history.log, c) && HasTable(c.value.value.tables, t, ColumnsOf(db, id, t.tableId));
  }
}
