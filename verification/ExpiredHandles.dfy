/**
 * Shared catalogs read for snapshots that may have been expired: in every run, exactly when what a
 * handle returns is what a fresh load of its snapshot id returns.
 */
module ExpiredHandles {
  import opened Prelude
  import opened Versions
  import opened Tags
  import opened Paths
  import opened Catalog
  import opened Persist
  import opened TimeTravel
  import opened Expiry
  import opened ExpirySafety
  import opened Histories
  import opened CatalogCaches
  import opened ExpiredSnapshots

  ghost predicate ExpiresAt(run: seq<World>, j: nat, matches: SnapshotRow -> bool, catalog: LoadedCatalog, dataPath: DucklakePath) {
    j + 1 < |run| && ExpireStep(run[j].history, run[j + 1].history, matches, catalog, dataPath)
  }

  /** Cell `c` was loaded already in state `j`. */
  predicate LoadedAt(run: seq<World>, j: nat, c: nat) { j < |run| && c < |run[j].cells| && run[j].cells[c].value.Some? }

  /** Since the cell was loaded, everything its snapshot sees has survived every expiry. */
  ghost predicate KeptSince(run: seq<World>, i: nat, c: nat, s: int) {
    forall j: nat, matches, catalog, dataPath ::
      j < i && LoadedAt(run, j, c) && ExpiresAt(run, j, matches, catalog, dataPath)
      ==> Survives(run[j].history.db, ExpiredIds(run[j].history.db, matches), s)
  }

  // ----- one step -----

  /** Cells are only added and loaded. */
  ghost predicate CellsGrow(a: World, b: World) {
    && |a.cells| <= |b.cells|
    && (forall c :: 0 <= c < |a.cells| ==> b.cells[c].creator == a.cells[c].creator && b.cells[c].schemaVersion == a.cells[c].schemaVersion)
    && (forall c :: 0 <= c < |a.cells| && a.cells[c].value.Some? ==> b.cells[c].value == a.cells[c].value)
  }

  lemma StepGrows(a: World, b: World)
    requires WorldStep(a, b)
    ensures CellsGrow(a, b)
  {
    hide Load, HeadLoads, Step;
  }

  lemma {:induction false} LoadedBefore(run: seq<World>, j: nat, i: nat, c: nat)
    requires WorldRun(run) && j <= i < |run| && LoadedAt(run, j, c)
    ensures LoadedAt(run, i, c)
    decreases i
  {
    hide WorldStep;
    if j < i {
      LoadedBefore(run, j, i - 1, c);
      assert WorldStep(run[i - 1], run[i - 1 + 1]);
      StepGrows(run[i - 1], run[i]);
    }
  }

  /** A commit takes nothing from an earlier snapshot. */
  lemma CommitLosesNothing(h: History, next: History, ch: TransactionChanges, info: SnapshotRow, made: string,
                           same: (string, string) -> bool, v: LoadedCatalog, s: int)
    requires CommitStep(h, next, ch, info, made, same) && s < |h.log|
    ensures Lost(v, next.db, s) <==> Lost(v, h.db, s)
    ensures Load(next.db, s) == Load(h.db, s)
  {
    hide Load, View, PersistedInlined, RespectsSchemas, InlinesChanged, Equivalence, Collected, Persisted;
    var inlined := PersistedInlined(h.db, ch, info.schemaVersion, info.id).value;
    PastViews(h.db, ch, info, made, same, inlined, s);
    PastCatalog(h.db, ch, info, made, same, inlined, s);
    assert forall id :: TagsOf(next.db, s, id) == TagsOf(h.db, s, id);
  }

  /** What holds of a loaded cell: it is what its snapshot loads, or has something the database lost. */
  ghost predicate CellState(run: seq<World>, i: nat, c: nat, value: LoadedCatalog, s: int)
    requires i < |run|
  {
    && (KeptSince(run, i, c, s) ==> Load(run[i].history.db, s) == Ok(value))
    && (!KeptSince(run, i, c, s) ==> Lost(value, run[i].history.db, s))
  }

  /** Every expiry in step `p` lets the snapshot survive. */
  ghost predicate KeptAt(run: seq<World>, p: nat, c: nat, s: int) {
    forall matches, catalog, dataPath ::
      LoadedAt(run, p, c) && ExpiresAt(run, p, matches, catalog, dataPath)
      ==> Survives(run[p].history.db, ExpiredIds(run[p].history.db, matches), s)
  }

  ghost predicate NoExpiry(run: seq<World>, p: nat) {
    forall matches, catalog, dataPath :: !ExpiresAt(run, p, matches, catalog, dataPath)
  }

  lemma KeptStep(run: seq<World>, p: nat, i: nat, c: nat, s: int)
    requires i == p + 1 < |run|
    ensures KeptSince(run, i, c, s) <==> KeptSince(run, p, c, s) && KeptAt(run, p, c, s)
  {
    hide Survives, ExpiresAt, LoadedAt;
  }

  /** One expiry: the state of a cell follows from whether its snapshot survives. */
  lemma ExpiryMovesCell(run: seq<World>, p: nat, i: nat, c: nat, value: LoadedCatalog, s: int, matches: SnapshotRow -> bool,
                        catalog: LoadedCatalog, dataPath: DucklakePath)
    requires i == p + 1 < |run| && CellState(run, p, c, value, s) && LoadedAt(run, p, c)
    requires ExpiresAt(run, p, matches, catalog, dataPath)
    requires Load(run[p].history.db, s).Ok?
    ensures CellState(run, i, c, value, s)
  {
    hide Load, Survives, Lost, Expire;
    var a, b := run[p].history, run[i].history;
    KeptStep(run, p, i, c, s);
    if !KeptSince(run, p, c, s) {
      LostStaysLost(value, a.db, ExpiredIds(a.db, matches), catalog, dataPath, b.db, s);
    } else if KeptSince(run, i, c, s) {
      LoadSurvivesIff(a.db, ExpiredIds(a.db, matches), catalog, dataPath, b.db, s);
    } else {
      var m, d, q :| ExpiresAt(run, p, m, d, q) && !Survives(a.db, ExpiredIds(a.db, m), s);
      NotSurvivingLoses(a.db, ExpiredIds(a.db, m), d, q, b.db, s);
    }
  }

  lemma NoExpiryKeepsCell(run: seq<World>, p: nat, i: nat, c: nat, value: LoadedCatalog, s: int)
    requires i == p + 1 < |run| && CellState(run, p, c, value, s) && NoExpiry(run, p)
    requires Load(run[i].history.db, s) == Load(run[p].history.db, s)
    requires Lost(value, run[i].history.db, s) <==> Lost(value, run[p].history.db, s)
    ensures CellState(run, i, c, value, s)
  {
    hide Load, Survives, Lost, ExpiresAt;
    KeptStep(run, p, i, c, s);
  }

  // ----- the run -----

  /** Where cell `c` is after one more step. */
  lemma CellMoves(run: seq<World>, p: nat, i: nat, c: nat, value: LoadedCatalog)
    requires WorldRun(run) && i == p + 1 < |run| && LoadedAt(run, p, c)
    requires run[p].cells[c].value == Some(value) && CellState(run, p, c, value, run[p].cells[c].creator)
    ensures CellState(run, i, c, value, run[p].cells[c].creator)
  {
    hide Load, Survives, Lost, CellState, Sound, HeadLoads, CommitStep, ExpireStep;
    var a, b, s := run[p], run[i], run[p].cells[c].creator;
    RunInv(run, p);
    assert a.cells[c] in a.cells;
    assert WorldStep(run[p], run[p + 1]);
    if NoExpiry(run, p) {
      NotExpiring(run, p, i);
      if ch, info, made, same :| CommitStep(a.history, b.history, ch, info, made, same) {
        CommitLosesNothing(a.history, b.history, ch, info, made, same, value, s);
      }
      NoExpiryKeepsCell(run, p, i, c, value, s);
    } else {
      var matches, catalog, dataPath :| ExpiresAt(run, p, matches, catalog, dataPath);
      ExpiryMovesCell(run, p, i, c, value, s, matches, catalog, dataPath);
    }
  }

  lemma NotExpiring(run: seq<World>, p: nat, i: nat)
    requires i == p + 1 < |run| && WorldStep(run[p], run[i]) && NoExpiry(run, p)
    ensures run[i].history == run[p].history
         || exists ch, info, made, same :: CommitStep(run[p].history, run[i].history, ch, info, made, same)
  {
    hide CommitStep, ExpireStep, Load, HeadLoads;
    var a, b := run[p], run[i];
    forall matches, catalog, dataPath ensures !ExpireStep(a.history, b.history, matches, catalog, dataPath) {
      assert !ExpiresAt(run, p, matches, catalog, dataPath);
    }
  }

  lemma {:induction false} LoadedCellState(run: seq<World>, i: nat, c: nat)
    requires WorldRun(run) && LoadedAt(run, i, c)
    ensures CellState(run, i, c, run[i].cells[c].value.value, run[i].cells[c].creator)
    decreases i
  {
    hide Load, Survives, Lost, CellState, Sound, WorldStep;
    if i > 0 {
      assert WorldStep(run[i - 1], run[i - 1 + 1]);
      StepGrows(run[i - 1], run[i]);
      if LoadedAt(run, i - 1, c) {
        LoadedCellState(run, i - 1, c);
        CellMoves(run, i - 1, i, c, run[i].cells[c].value.value);
      } else {
        FirstLoaded(run, i, c);
      }
    }
  }

  /** A cell that has just been loaded holds what its snapshot loads. */
  lemma FirstLoaded(run: seq<World>, i: nat, c: nat)
    requires WorldRun(run) && 0 < i && LoadedAt(run, i, c) && !LoadedAt(run, i - 1, c)
    ensures CellState(run, i, c, run[i].cells[c].value.value, run[i].cells[c].creator)
  {
    hide Load, Survives, Lost, Step, HeadLoads;
    var a, b := run[i - 1], run[i];
    assert WorldStep(run[i - 1], run[i - 1 + 1]);
    assert ReadStep(a, b, c);
    forall j: nat | j < i ensures !LoadedAt(run, j, c) {
      if LoadedAt(run, j, c) {
        LoadedBefore(run, j, i - 1, c);
      }
    }
  }

  /**
   * In every run, what a shared catalog returns for a snapshot id of its schema version, retained or
   * expired, equals a fresh load of that id exactly if everything the catalog's own snapshot sees has
   * survived every expiry since the catalog was loaded.
   */
  lemma HandleIsFreshIff(run: seq<World>, i: nat, c: nat, s: int)
    requires WorldRun(run) && i < |run| && c < |run[i].cells|
    requires 0 <= s < |run[i].history.log| && run[i].history.log[s].schemaVersion == run[i].cells[c].schemaVersion
    ensures
      var db := run[i].history.db;
      var cell := run[i].cells[c];
      Read(cell.value, Load(db, cell.creator)) == Load(db, s) <==> KeptSince(run, i, c, cell.creator)
  {
    hide Load, Survives, Lost, SettledCatalog, CatalogOnBoundaries, SchemasContain, InlinedRecorded, WorldRun, Agrees, Serves;
    var h, cell := run[i].history, run[i].cells[c];
    RunInv(run, i);
    assert cell in run[i].cells;
    VersionsAgree(h.db, h.log, cell.creator, s);
    if cell.value.Some? {
      LoadedCellState(run, i, c);
      if Lost(cell.value.value, h.db, cell.creator) {
        LostIsNotLoaded(cell.value.value, h.db, cell.creator);
      }
    } else {
      forall j: nat | j < i ensures !LoadedAt(run, j, c) {
        if LoadedAt(run, j, c) {
          LoadedBefore(run, j, i, c);
        }
      }
    }
  }
}
