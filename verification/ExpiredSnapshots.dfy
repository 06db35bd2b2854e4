/**
 * Snapshots that were expired while somebody still holds them: exactly when loading such a snapshot
 * gives what it gave before, and exactly when a shared catalog agrees with a load of it.
 */
module ExpiredSnapshots {
  import opened Prelude
  import opened Versions
  import opened Paths
  import opened Catalog
  import opened Expiry
  import opened ExpirySafety
  import opened References

  /** The object that carries a tag is one that the snapshot sees. */
  ghost predicate Carries(db: Database, s: int, id: int) {
    || (exists t :: t in View(db.tables, s) && t.tableId == id)
    || (exists v :: v in View(db.views, s) && v.viewId == id)
  }

  /** A version of the table is needed. */
  ghost predicate TableNeeded(db: Database, id: int, live: set<int>) {
    exists w :: w in db.tables && w.row.tableId == id && Needed(w, live)
  }

  /**
   * Everything that the snapshot sees is still open, or seen by a snapshot that is retained; of a
   * table it is enough that some version is.
   */
  ghost predicate Survives(db: Database, ids: set<int>, s: int) {
    var live := SnapshotIds(db) - ids;
    && (forall v :: v in db.schemas && VisibleAt(v, s) ==> Needed(v, live))
    && (forall v :: v in db.views && VisibleAt(v, s) ==> Needed(v, live))
    && (forall v :: v in db.macros && VisibleAt(v, s) ==> Needed(v, live))
    && (forall v :: v in db.tags && VisibleAt(v, s) && Carries(db, s, v.row.owner) ==> Needed(v, live))
    && (forall v :: v in db.tables && VisibleAt(v, s) ==> TableNeeded(db, v.row.tableId, live))
  }

  // ----- what a view loses when rows are deleted -----

  /** Deleting rows never lengthens a view, and shortens it exactly if one of its rows is deleted. */
  lemma {:induction false} KeptLength<T>(rows: seq<Versioned<T>>, keep: Versioned<T> -> bool, p: T -> bool, s: int)
    ensures |Filter(p, View(Filter(keep, rows), s))| <= |Filter(p, View(rows, s))|
    ensures |Filter(p, View(Filter(keep, rows), s))| == |Filter(p, View(rows, s))|
       <==> forall v :: v in rows && VisibleAt(v, s) && p(v.row) ==> keep(v)
  {
    if rows != [] {
      var head, rest := rows[0], rows[1..];
      KeptLength(rest, keep, p, s);
      var kept := if keep(head) then [head] else [];
      ViewAppend(kept, Filter(keep, rest), s);
      FilterAppend(p, View(kept, s), View(Filter(keep, rest), s));
      assert rows == [head] + rest;
      ViewAppend([head], rest, s);
      FilterAppend(p, View([head], s), View(rest, s));
      assert forall v :: v in rows <==> v == head || v in rest;
      OneRow(head, p, s);
      if keep(head) { OneRow(head, p, s); } else { NoRow<T>(p, s); }
    }
  }

  lemma OneRow<T>(v: Versioned<T>, p: T -> bool, s: int)
    ensures |Filter(p, View([v], s))| == if VisibleAt(v, s) && p(v.row) then 1 else 0
  {
    assert [v][1..] == [];
    if VisibleAt(v, s) { assert View([v], s) == [v.row] && [v.row][1..] == []; }
  }

  lemma NoRow<T>(p: T -> bool, s: int)
    ensures |Filter(p, View([], s))| == 0
  {
  }

  function Any<T>(): T -> bool { (x: T) => true }

  lemma ViewLength<T>(rows: seq<Versioned<T>>, keep: Versioned<T> -> bool, s: int)
    ensures |View(Filter(keep, rows), s)| <= |View(rows, s)|
    ensures |View(Filter(keep, rows), s)| == |View(rows, s)| <==> forall v :: v in rows && VisibleAt(v, s) ==> keep(v)
  {
    KeptLength(rows, keep, Any<T>(), s);
    FilterAll(Any<T>(), View(rows, s));
    FilterAll(Any<T>(), View(Filter(keep, rows), s));
  }

  // ----- the parts of a loaded catalog -----

  lemma {:induction false} SetTablesParts(tables: seq<TableRow>, schemas: seq<SchemaRow>, parts: int -> TableParts)
    requires SetTables(tables, schemas, parts).Ok?
    ensures
      var set_ := SetTables(tables, schemas, parts).value;
      |set_| == |tables| && forall i :: 0 <= i < |tables| ==> set_[i].table == tables[i] && set_[i].tags == parts(tables[i].tableId).tags
  {
    if tables != [] {
      SetTablesParts(tables[1..], schemas, parts);
    }
  }

  lemma {:induction false} SetViewsParts(views: seq<ViewRow>, schemas: seq<SchemaRow>, tags: int -> seq<TagRow>)
    requires SetViews(views, schemas, tags).Ok?
    ensures
      var set_ := SetViews(views, schemas, tags).value;
      |set_| == |views| && forall i :: 0 <= i < |views| ==> set_[i].view == views[i] && set_[i].tags == tags(views[i].viewId)
  {
    if views != [] {
      SetViewsParts(views[1..], schemas, tags);
    }
  }

  lemma {:induction false} SetMacrosLength(macros: seq<MacroRow>, schemas: seq<SchemaRow>, parts: int -> MacroParts)
    requires SetMacros(macros, schemas, parts).Ok?
    ensures |SetMacros(macros, schemas, parts).value| == |macros|
  {
    if macros != [] {
      SetMacrosLength(macros[1..], schemas, parts);
    }
  }

  /** A loaded catalog has every visible object, each with its tags. */
  ghost predicate Shows(v: LoadedCatalog, db: Database, s: int) {
    var tables, views := View(db.tables, s), View(db.views, s);
    && |v.schemas| == |View(db.schemas, s)| && |v.macros| == |View(db.macros, s)|
    && |v.tables| == |tables| && |v.views| == |views|
    && (forall k :: 0 <= k < |tables| ==> v.tables[k].table == tables[k] && v.tables[k].tags == TagsOf(db, s, tables[k].tableId))
    && (forall k :: 0 <= k < |views| ==> v.views[k].view == views[k] && v.views[k].tags == TagsOf(db, s, views[k].viewId))
  }

  lemma LoadShows(db: Database, s: int)
    requires Load(db, s).Ok?
    ensures Shows(Load(db, s).value, db, s)
  {
    hide View, TagsOf, SetTables, SetViews, SetMacros;
    var schemas := View(db.schemas, s);
    SetTablesParts(View(db.tables, s), schemas, id => PartsOf(db, s, id));
    SetViewsParts(View(db.views, s), schemas, id => TagsOf(db, s, id));
    SetMacrosLength(View(db.macros, s), schemas, id => MacroPartsOf(db, id));
  }

  /** Something that the catalog has is no longer in the database for the snapshot. */
  ghost predicate Lost(v: LoadedCatalog, db: Database, s: int) {
    || |View(db.schemas, s)| < |v.schemas| || |View(db.tables, s)| < |v.tables|
    || |View(db.views, s)| < |v.views| || |View(db.macros, s)| < |v.macros|
    || (exists k :: 0 <= k < |v.tables| && |TagsOf(db, s, v.tables[k].table.tableId)| < |v.tables[k].tags|)
    || (exists k :: 0 <= k < |v.views| && |TagsOf(db, s, v.views[k].view.viewId)| < |v.views[k].tags|)
  }

  /** What is lost is not loaded again. */
  lemma LostIsNotLoaded(v: LoadedCatalog, db: Database, s: int)
    requires Lost(v, db, s)
    ensures Load(db, s) != Ok(v)
  {
    hide Load, View, TagsOf;
    if Load(db, s).Ok? {
      LoadShows(db, s);
    }
  }

  // ----- what expiry takes from a snapshot -----

  lemma ActiveLength<T>(rows: seq<Versioned<T>>, live: set<int>, s: int)
    ensures |View(ActiveRows(rows, live), s)| <= |View(rows, s)|
    ensures |View(ActiveRows(rows, live), s)| == |View(rows, s)| <==> forall v :: v in rows && VisibleAt(v, s) ==> Needed(v, live)
  {
    hide View, Filter, Inactive, Needed;
    ViewLength(rows, (v: Versioned<T>) => !Inactive(v, live), s);
    forall v: Versioned<T> | v in rows ensures Needed(v, live) <==> !Inactive(v, live) { NeededIffActive(v, live); }
  }

  function OwnedTag(id: int): TagRow -> bool { (t: TagRow) => t.owner == id }

  lemma ActiveTagLength(rows: seq<Versioned<TagRow>>, live: set<int>, s: int, id: int)
    ensures |Filter(OwnedTag(id), View(ActiveRows(rows, live), s))| <= |Filter(OwnedTag(id), View(rows, s))|
    ensures |Filter(OwnedTag(id), View(ActiveRows(rows, live), s))| == |Filter(OwnedTag(id), View(rows, s))|
       <==> forall v :: v in rows && VisibleAt(v, s) && v.row.owner == id ==> Needed(v, live)
  {
    hide View, Filter, Inactive, Needed;
    KeptLength(rows, (v: Versioned<TagRow>) => !Inactive(v, live), OwnedTag(id), s);
    forall v: Versioned<TagRow> | v in rows ensures Needed(v, live) <==> !Inactive(v, live) { NeededIffActive(v, live); }
  }

  lemma TagsAreOwned(db: Database, s: int, id: int)
    ensures TagsOf(db, s, id) == Filter(OwnedTag(id), View(db.tags, s))
  {
    hide View, Filter;
    FilterCongruent((t: TagRow) => t.owner == id, OwnedTag(id), View(db.tags, s));
  }

  lemma TableLength(db: Database, ids: set<int>, s: int)
    ensures
      var after := Filter((v: Versioned<TableRow>) => v.row.tableId !in DeadTables(db, ids), db.tables);
      && |View(after, s)| <= |View(db.tables, s)|
      && (|View(after, s)| == |View(db.tables, s)|
          <==> forall v :: v in db.tables && VisibleAt(v, s) ==> TableNeeded(db, v.row.tableId, Live(db, ids)))
  {
    hide View, Filter, Inactive, Needed;
    ViewLength(db.tables, (v: Versioned<TableRow>) => v.row.tableId !in DeadTables(db, ids), s);
    forall v | v in db.tables
      ensures v.row.tableId !in DeadTables(db, ids) <==> TableNeeded(db, v.row.tableId, Live(db, ids))
    {
      forall w: Versioned<TableRow> ensures Needed(w, Live(db, ids)) <==> !Inactive(w, Live(db, ids)) {
        NeededIffActive(w, Live(db, ids));
      }
    }
  }

  /** Expiry lengthens nothing that a snapshot sees. */
  lemma ExpiryShortens(db: Database, ids: set<int>, catalog: LoadedCatalog, dataPath: DucklakePath, after: Database, s: int)
    requires Expire(db, ids, catalog, dataPath) == Some(after)
    ensures |View(after.schemas, s)| <= |View(db.schemas, s)| && |View(after.tables, s)| <= |View(db.tables, s)|
    ensures |View(after.views, s)| <= |View(db.views, s)| && |View(after.macros, s)| <= |View(db.macros, s)|
    ensures forall id :: |TagsOf(after, s, id)| <= |TagsOf(db, s, id)|
  {
    hide Expire, View, Filter, DeadTables, Live, ActiveRows, TagsOf;
    AfterExpiry(db, ids, catalog, dataPath, after);
    var live := Live(db, ids);
    ActiveLength(db.schemas, live, s);
    ActiveLength(db.views, live, s);
    ActiveLength(db.macros, live, s);
    TableLength(db, ids, s);
    forall id ensures |TagsOf(after, s, id)| <= |TagsOf(db, s, id)| {
      TagsAreOwned(db, s, id);
      TagsAreOwned(after, s, id);
      ActiveTagLength(db.tags, live, s, id);
    }
  }

  /** Something lost stays lost. */
  lemma LostStaysLost(v: LoadedCatalog, db: Database, ids: set<int>, catalog: LoadedCatalog, dataPath: DucklakePath,
                      after: Database, s: int)
    requires Expire(db, ids, catalog, dataPath) == Some(after) && Lost(v, db, s)
    ensures Lost(v, after, s)
  {
    hide Expire, View, TagsOf;
    ExpiryShortens(db, ids, catalog, dataPath, after, s);
  }

  /** A snapshot that does not survive loses something of its catalog. */
  lemma NotSurvivingLoses(db: Database, ids: set<int>, catalog: LoadedCatalog, dataPath: DucklakePath, after: Database, s: int)
    requires Expire(db, ids, catalog, dataPath) == Some(after) && Load(db, s).Ok?
    requires !Survives(db, ids, s)
    ensures Lost(Load(db, s).value, after, s)
  {
    hide Expire, View, Filter, DeadTables, Live, ActiveRows, TagsOf, Load, Needed, VisibleAt;
    AfterExpiry(db, ids, catalog, dataPath, after);
    LiveSnapshots(db, ids);
    LoadShows(db, s);
    ExpiryShortens(db, ids, catalog, dataPath, after, s);
    var live, v := Live(db, ids), Load(db, s).value;
    ActiveLength(db.schemas, live, s);
    ActiveLength(db.views, live, s);
    ActiveLength(db.macros, live, s);
    TableLength(db, ids, s);
    if t :| t in db.tags && VisibleAt(t, s) && Carries(db, s, t.row.owner) && !Needed(t, live) {
      TagLost(db, ids, after, s, t, live, v);
    }
  }

  lemma TagLost(db: Database, ids: set<int>, after: Database, s: int, t: Versioned<TagRow>, live: set<int>, v: LoadedCatalog)
    requires after.tags == ActiveRows(db.tags, live) && Shows(v, db, s)
    requires t in db.tags && VisibleAt(t, s) && Carries(db, s, t.row.owner) && !Needed(t, live)
    ensures Lost(v, after, s)
  {
    hide View, Filter, ActiveRows, TagsOf, Needed, VisibleAt;
    var id := t.row.owner;
    TagsAreOwned(db, s, id);
    TagsAreOwned(after, s, id);
    ActiveTagLength(db.tags, live, s, id);
    assert |TagsOf(after, s, id)| < |TagsOf(db, s, id)|;
    if x :| x in View(db.tables, s) && x.tableId == id {
      var k :| 0 <= k < |View(db.tables, s)| && View(db.tables, s)[k] == x;
      assert v.tables[k].table == x;
    } else {
      var x :| x in View(db.views, s) && x.viewId == id;
      var k :| 0 <= k < |View(db.views, s)| && View(db.views, s)[k] == x;
      assert v.views[k].view == x;
    }
  }

  /** The relations that hold objects show a surviving snapshot what they showed it. */
  lemma SurvivingViews(db: Database, ids: set<int>, catalog: LoadedCatalog, dataPath: DucklakePath, after: Database, s: int)
    requires Expire(db, ids, catalog, dataPath) == Some(after) && Survives(db, ids, s)
    ensures View(after.schemas, s) == View(db.schemas, s) && View(after.tables, s) == View(db.tables, s)
    ensures View(after.views, s) == View(db.views, s) && View(after.macros, s) == View(db.macros, s)
    ensures forall t :: t in View(db.tables, s) ==> t.tableId !in DeadTables(db, ids)
    ensures forall id :: Carries(db, s, id) ==> TagsOf(after, s, id) == TagsOf(db, s, id)
  {
    hide Expire, Inactive, Needed, VisibleAt, TagsOf;
    AfterExpiry(db, ids, catalog, dataPath, after);
    LiveSnapshots(db, ids);
    var live, dead := Live(db, ids), DeadTables(db, ids);
    forall v: Versioned<SchemaRow> ensures Needed(v, live) <==> !Inactive(v, live) { NeededIffActive(v, live); }
    forall v: Versioned<TagRow> ensures Needed(v, live) <==> !Inactive(v, live) { NeededIffActive(v, live); }
    forall v: Versioned<ViewRow> ensures Needed(v, live) <==> !Inactive(v, live) { NeededIffActive(v, live); }
    forall v: Versioned<MacroRow> ensures Needed(v, live) <==> !Inactive(v, live) { NeededIffActive(v, live); }
    forall v: Versioned<TableRow> ensures Needed(v, live) <==> !Inactive(v, live) { NeededIffActive(v, live); }
    ViewOfKept(db.schemas, (v: Versioned<SchemaRow>) => !Inactive(v, live), s);
    ViewOfKept(db.views, (v: Versioned<ViewRow>) => !Inactive(v, live), s);
    ViewOfKept(db.macros, (v: Versioned<MacroRow>) => !Inactive(v, live), s);
    assert forall v :: v in db.tables && VisibleAt(v, s) ==> v.row.tableId !in dead;
    ViewOfKept(db.tables, (v: Versioned<TableRow>) => v.row.tableId !in dead, s);
    forall id | Carries(db, s, id) ensures TagsOf(after, s, id) == TagsOf(db, s, id) {
      TagsAreOwned(db, s, id);
      TagsAreOwned(after, s, id);
      SelectedViewOfKept(db.tags, (v: Versioned<TagRow>) => !Inactive(v, live), OwnedTag(id), s);
    }
  }

  lemma SurvivingMacroParts(db: Database, ids: set<int>, catalog: LoadedCatalog, dataPath: DucklakePath, after: Database,
                            s: int, m: MacroRow)
    requires Expire(db, ids, catalog, dataPath) == Some(after) && m in View(after.macros, s)
    ensures MacroPartsOf(after, m.macroId) == MacroPartsOf(db, m.macroId)
  {
    hide View, Schedule, DirectoryOf;
    var v :| v in after.macros && VisibleAt(v, s) && v.row == m;
    var macros := after.macros;
    FilterAbsorbs((i: MacroImplRow) => i.macroId == m.macroId,
                  (i: MacroImplRow) => exists w :: w in macros && w.row.macroId == i.macroId, db.macroImpls);
    FilterAbsorbs((p: MacroParameterRow) => p.macroId == m.macroId,
                  (p: MacroParameterRow) => exists w :: w in macros && w.row.macroId == p.macroId, db.macroParameters);
  }

  lemma SurvivingLoads(db: Database, ids: set<int>, catalog: LoadedCatalog, dataPath: DucklakePath, after: Database, s: int)
    requires Expire(db, ids, catalog, dataPath) == Some(after) && Survives(db, ids, s)
    ensures Load(after, s) == Load(db, s)
  {
    hide Expire, Load, View, PartsOf, TagsOf, MacroPartsOf, DeadTables, Survives;
    SurvivingViews(db, ids, catalog, dataPath, after, s);
    forall t | t in View(db.tables, s) ensures PartsOf(after, s, t.tableId) == PartsOf(db, s, t.tableId) {
      KeptParts(db, ids, catalog, dataPath, after, s, t.tableId);
      assert Carries(db, s, t.tableId);
      PartsTags(db, s, t.tableId);
      PartsTags(after, s, t.tableId);
    }
    forall v | v in View(db.views, s) ensures TagsOf(after, s, v.viewId) == TagsOf(db, s, v.viewId) {
      assert Carries(db, s, v.viewId);
    }
    forall m | m in View(db.macros, s) ensures MacroPartsOf(after, m.macroId) == MacroPartsOf(db, m.macroId) {
      SurvivingMacroParts(db, ids, catalog, dataPath, after, s, m);
    }
    LoadsAgree(after, s, db, s);
  }

  lemma PartsTags(db: Database, s: int, id: int)
    ensures PartsOf(db, s, id).tags == TagsOf(db, s, id)
  {
  }

  /**
   * Loading any snapshot id, expired or not, gives after an expiry what it gave before exactly if
   * everything the snapshot sees is still open or seen by a retained snapshot.
   */
  lemma LoadSurvivesIff(db: Database, ids: set<int>, catalog: LoadedCatalog, dataPath: DucklakePath, after: Database, s: int)
    requires Expire(db, ids, catalog, dataPath) == Some(after) && Load(db, s).Ok?
    ensures Load(after, s) == Load(db, s) <==> Survives(db, ids, s)
  {
    hide Expire, Load, Survives, Lost;
    if Survives(db, ids, s) {
      SurvivingLoads(db, ids, catalog, dataPath, after, s);
    } else {
      NotSurvivingLoses(db, ids, catalog, dataPath, after, s);
      LostIsNotLoaded(Load(db, s).value, after, s);
    }
  }

  /** A retained snapshot survives. */
  lemma RetainedSurvives(db: Database, ids: set<int>, s: int)
    requires s in SnapshotIds(db) && s !in ids
    ensures Survives(db, ids, s)
  {
  }
}
