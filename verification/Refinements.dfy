/**
 * How the systems fit together: the commit protocol supplies the snapshot rows that histories ask
 * for, and the expiry of catalog rows is the expiry step of the object store.
 */
module Refinements {
  import opened Prelude
  import opened Versions
  import opened Paths
  import Catalog
  import CommitStates
  import Commits
  import Expiry
  import ExpirySafety
  import Histories
  import Persist
  import Storage

  // ----- the commit protocol and histories -----

  /** The snapshot rows of all commits, in commit order. */
  function SnapshotRows(log: seq<Commits.Entry>): (rows: seq<Catalog.SnapshotRow>)
    ensures |rows| == |log| && forall i :: 0 <= i < |log| ==> rows[i] == log[i].snap.info
  {
    Map((e: Commits.Entry) => e.snap.info, log)
  }

  lemma SequencesGrow(log: seq<Commits.Entry>, k: int, rules: (string, string) -> bool)
    requires 0 < k < |log| && Commits.Serialised(log, k, rules)
    ensures log[k - 1].snap.info.nextCatalogId <= log[k].snap.info.nextCatalogId
    ensures log[k - 1].snap.info.nextFileId <= log[k].snap.info.nextFileId
    ensures log[k].snap.info.id == k
  {
    hide Commits.Conflicts, Commits.SameStats, Commits.TablesConflict, Commits.Covers, Commits.Below, CommitStates.Upto;
  }

  lemma LogNotEmpty(s: Commits.System, rules: (string, string) -> bool)
    requires Commits.Inv(s, rules)
    ensures s.log != []
  {
    hide Commits.DatabaseInv, Commits.CellInv, Commits.ClientInv, Commits.Serialised;
  }

  lemma VersionOfNext(client: Commits.Client, out: CommitStates.Allocation)
    requires client.Busy?
    ensures Commits.NextSnap(client, out).info.schemaVersion
         == client.latest.info.schemaVersion + (if CommitStates.ChangesSchema(client.changes) then 1 else 0)
  {
  }

  /** The log of the protocol is a log that histories accept. */
  lemma LogIsGood(s: Commits.System, rules: (string, string) -> bool)
    requires Commits.Inv(s, rules)
    ensures Histories.GoodLog(SnapshotRows(s.log))
  {
    hide Commits.DatabaseInv, Commits.CellInv, Commits.ClientInv, Commits.Serialised;
    var rows := SnapshotRows(s.log);
    forall i, j | 0 <= i <= j < |rows|
      ensures rows[i].id == i
      ensures rows[i].schemaVersion <= rows[j].schemaVersion && rows[i].nextCatalogId <= rows[j].nextCatalogId
              && rows[i].nextFileId <= rows[j].nextFileId
    {
      Commits.LogIncreases(s.log, rules, i, j);
      EntryId(s.log, rules, i);
    }
    assert forall i :: 0 <= i < |rows| ==> rows[i].id == i;
  }

  lemma EntryId(log: seq<Commits.Entry>, rules: (string, string) -> bool, i: nat)
    requires Commits.LogInv(log, rules) && i < |log|
    ensures log[i].snap.info.id == i
  {
    if i > 0 {
      assert Commits.Serialised(log, i, rules);
    }
  }

  /**
   * A commit of the protocol writes the snapshot row that a history's commit step asks for, whenever
   * the changes it collected touch the catalog exactly if its change set changes the schema.
   */
  lemma CommitRowIsNext(a: Commits.System, b: Commits.System, c: nat, rest: string, rules: (string, string) -> bool,
                        ch: Persist.TransactionChanges)
    requires Commits.Inv(a, rules) && Commits.CommitStep(a, b, c, rest)
    requires Histories.TouchesCatalog(ch) == CommitStates.ChangesSchema(a.clients[c].changes)
    ensures b.log != [] && SnapshotRows(b.log) == SnapshotRows(a.log) + [Commits.Last(b.log).snap.info]
    ensures Histories.NextSnapshot(SnapshotRows(a.log), ch, Commits.Last(b.log).snap.info)
  {
    hide Commits.Inv, Commits.Outcome, Commits.NextSnap, Commits.PersistStats, Commits.SummaryOf, CommitStates.Wrote,
         Histories.TouchesCatalog, CommitStates.ChangesSchema, Commits.Serialised;
    Commits.CommitIsFromHead(a, b, c, rest, rules);
    Commits.CommitSerialised(a, b, c, rest, rules);
    var row := Commits.Last(b.log).snap.info;
    LogNotEmpty(a, rules);
    assert b.log == a.log + [Commits.Last(b.log)];
    assert SnapshotRows(b.log) == SnapshotRows(a.log) + [row];
    SequencesGrow(b.log, |a.log|, rules);
    VersionOfNext(a.clients[c], Commits.Outcome(a.clients[c], Commits.Loaded(a.clients[c], a.cells).value));
  }

  /** The tables that a commit creates have ids that no earlier snapshot has seen. */
  lemma CreatedIdsAreNew(a: Commits.System, b: Commits.System, c: nat, rest: string, rules: (string, string) -> bool, k: nat)
    requires Commits.Inv(a, rules) && Commits.CommitStep(a, b, c, rest) && k < |a.log|
    ensures
      var used := Commits.Loaded(a.clients[c], a.cells).value;
      Commits.CreatedIds(Commits.Outcome(a.clients[c], used), a.clients[c].changes) !! a.log[k].snap.tables
  {
    hide Commits.DatabaseInv, Commits.CellInv, Commits.ClientInv, Commits.SummaryOf, Commits.PersistStats, Commits.Outcome;
    var used := Commits.Loaded(a.clients[c], a.cells).value;
    Commits.CommitIsFromHead(a, b, c, rest, rules);
    Commits.CreatedFresh(a.clients[c], used);
    Commits.LogIncreases(a.log, rules, k, |a.log| - 1);
    if k > 0 { assert Commits.Serialised(a.log, k, rules); }
  }

  // ----- expiry and the object store -----

  /** The location of a table's file, given where tables keep their files. */
  function Where(directories: int -> Option<DucklakePath>, tableId: int, path: DucklakePath): Storage.Location {
    match directories(tableId)
    case None => ""
    case Some(directory) =>
      match Join(directory, path)
      case None => ""
      case Some(full) => full.AsStr()
  }

  /** The location that clean-up resolves a scheduled path to. */
  function ScheduledAt(dataPath: DucklakePath, path: DucklakePath): Storage.Location {
    match Join(dataPath, path)
    case None => ""
    case Some(full) => full.AsStr()
  }

  function FileAt(directories: int -> Option<DucklakePath>, f: Expiry.ExpiredFile): Storage.FileRow {
    Storage.FileRow(f.fileId, Where(directories, f.tableId, f.path))
  }

  function DataFileOf(v: Versioned<Catalog.DataFileRow>): Expiry.ExpiredFile {
    Expiry.ExpiredFile(v.row.fileId, v.row.tableId, v.row.path)
  }

  function DeleteFileOf(v: Versioned<Catalog.DeleteFileRow>): Expiry.ExpiredFile {
    Expiry.ExpiredFile(v.row.fileId, v.row.tableId, v.row.path)
  }

  /** The data files and delete files of the catalog, as the object store knows them. */
  function FileRows(db: Catalog.Database, directories: int -> Option<DucklakePath>): set<Storage.FileRow> {
    (set v | v in db.dataFiles :: FileAt(directories, DataFileOf(v)))
    + (set v | v in db.deleteFiles :: FileAt(directories, DeleteFileOf(v)))
  }

  function ScheduledRows(db: Catalog.Database, dataPath: DucklakePath): set<Storage.FileRow> {
    set r | r in db.scheduled :: Storage.FileRow(r.fileId, ScheduledAt(dataPath, r.path))
  }

  /** The directories as expiry looks them up. */
  function Directories(db: Catalog.Database, ids: set<int>, catalog: Catalog.LoadedCatalog, dataPath: DucklakePath)
    : int -> Option<DucklakePath>
  {
    id => Expiry.DirectoryOf(Expiry.DeleteSnapshots(db, ids), catalog, dataPath, id)
  }

  /** The files that expiry schedules. */
  function Moved(db: Catalog.Database, ids: set<int>, directories: int -> Option<DucklakePath>): set<Storage.FileRow> {
    set f | f in Expiry.ExpiredFiles(Expiry.DeleteSnapshots(db, ids)) :: FileAt(directories, f)
  }

  /** Every expired file lies where its scheduled path leads: see `ExpirySafety.ScheduledLocation`. */
  ghost predicate PlainPaths(db: Catalog.Database, ids: set<int>, directories: int -> Option<DucklakePath>, dataPath: DucklakePath) {
    forall f :: f in Expiry.ExpiredFiles(Expiry.DeleteSnapshots(db, ids)) ==>
      f.path.Absolute? || dataPath.Relative?
      || (directories(f.tableId).Some? && Join(directories(f.tableId).value, f.path).Some?
          && IsPathReference(SuffixUnder(Join(directories(f.tableId).value, f.path).value, dataPath)))
  }

  lemma ExpiredFilesAre(db: Catalog.Database, ids: set<int>)
    ensures
      var live := Remaining(db, ids);
      forall f :: f in Expiry.ExpiredFiles(Expiry.DeleteSnapshots(db, ids)) <==>
        || (exists v :: v in db.dataFiles && Inactive(v, live) && DataFileOf(v) == f)
        || (exists v :: v in db.deleteFiles && Inactive(v, live) && DeleteFileOf(v) == f)
  {
    ExpirySafety.LiveSnapshots(db, ids);
    var cut := Expiry.DeleteSnapshots(db, ids);
    var live := Remaining(db, ids);
    var data, deletes := Expiry.InactiveRows(cut.dataFiles, live), Expiry.InactiveRows(cut.deleteFiles, live);
    MapMembers((v: Versioned<Catalog.DataFileRow>) => Expiry.ExpiredFile(v.row.fileId, v.row.tableId, v.row.path), data);
    MapMembers((v: Versioned<Catalog.DeleteFileRow>) => Expiry.ExpiredFile(v.row.fileId, v.row.tableId, v.row.path), deletes);
  }

  function Remaining(db: Catalog.Database, ids: set<int>): set<int> { Catalog.SnapshotIds(db) - ids }

  lemma MovedAreRows(db: Catalog.Database, ids: set<int>, directories: int -> Option<DucklakePath>)
    ensures Moved(db, ids, directories) <= FileRows(db, directories)
  {
    hide Expiry.ExpiredFiles, Inactive, Where;
    ExpiredFilesAre(db, ids);
  }

  lemma FilesLeft(db: Catalog.Database, ids: set<int>, catalog: Catalog.LoadedCatalog, dataPath: DucklakePath, after: Catalog.Database)
    requires Expiry.Expire(db, ids, catalog, dataPath) == Some(after) && ExpirySafety.Distinct(ExpirySafety.FileIds(db))
    ensures forall v :: v in after.dataFiles <==> v in db.dataFiles && !Inactive(v, Remaining(db, ids))
    ensures forall v :: v in after.deleteFiles <==> v in db.deleteFiles && !Inactive(v, Remaining(db, ids))
  {
    hide Expiry.Expire, Expiry.ExpiredFiles, Inactive, ExpirySafety.Distinct, ExpirySafety.FileIds, ExpirySafety.NewlyScheduled;
    ExpirySafety.ExpiryConservesFiles(db, ids, catalog, dataPath, after);
  }

  /** What does not move stays. */
  lemma OthersStay(db: Catalog.Database, ids: set<int>, after: Catalog.Database, directories: int -> Option<DucklakePath>)
    requires forall v :: v in after.dataFiles <==> v in db.dataFiles && !Inactive(v, Remaining(db, ids))
    requires forall v :: v in after.deleteFiles <==> v in db.deleteFiles && !Inactive(v, Remaining(db, ids))
    ensures FileRows(db, directories) - Moved(db, ids, directories) <= FileRows(after, directories)
  {
    hide Expiry.ExpiredFiles, Inactive, Where;
    ExpiredFilesAre(db, ids);
    forall r | r in FileRows(db, directories) - Moved(db, ids, directories) ensures r in FileRows(after, directories) {
      if v :| v in db.dataFiles && FileAt(directories, DataFileOf(v)) == r {
        assert v in after.dataFiles;
      } else {
        var v :| v in db.deleteFiles && FileAt(directories, DeleteFileOf(v)) == r;
        assert v in after.deleteFiles;
      }
    }
  }

  /** What stays does not move: no two files share an id. */
  lemma StayersDoNotMove(db: Catalog.Database, ids: set<int>, after: Catalog.Database, directories: int -> Option<DucklakePath>)
    requires ExpirySafety.Distinct(ExpirySafety.FileIds(db))
    requires forall v :: v in after.dataFiles <==> v in db.dataFiles && !Inactive(v, Remaining(db, ids))
    requires forall v :: v in after.deleteFiles <==> v in db.deleteFiles && !Inactive(v, Remaining(db, ids))
    ensures FileRows(after, directories) <= FileRows(db, directories) && FileRows(after, directories) !! Moved(db, ids, directories)
  {
    hide Expiry.ExpiredFiles, Inactive, Where, ExpirySafety.Distinct, ExpirySafety.FileIds;
    ExpirySafety.FileIdNamesOneRow(db);
    ExpiredFilesAre(db, ids);
    forall r | r in FileRows(after, directories) ensures r !in Moved(db, ids, directories) {
      forall f | f in Expiry.ExpiredFiles(Expiry.DeleteSnapshots(db, ids)) ensures FileAt(directories, f) != r {
        if v :| v in db.dataFiles && Inactive(v, Remaining(db, ids)) && DataFileOf(v) == f {
          assert v.row.fileId == f.fileId;
        } else {
          var v :| v in db.deleteFiles && Inactive(v, Remaining(db, ids)) && DeleteFileOf(v) == f;
          assert v.row.fileId == f.fileId;
        }
      }
    }
  }

  /** File rows stay or move, each once. */
  lemma RowsMove(db: Catalog.Database, ids: set<int>, catalog: Catalog.LoadedCatalog, dataPath: DucklakePath, after: Catalog.Database,
                 directories: int -> Option<DucklakePath>)
    requires Expiry.Expire(db, ids, catalog, dataPath) == Some(after) && ExpirySafety.Distinct(ExpirySafety.FileIds(db))
    ensures Moved(db, ids, directories) <= FileRows(db, directories)
    ensures FileRows(after, directories) == FileRows(db, directories) - Moved(db, ids, directories)
  {
    hide Expiry.Expire, Inactive, Moved, FileRows;
    FilesLeft(db, ids, catalog, dataPath, after);
    MovedAreRows(db, ids, directories);
    OthersStay(db, ids, after, directories);
    StayersDoNotMove(db, ids, after, directories);
  }

  /** The scheduled rows grow by the moved files, at the locations the files had. */
  lemma ScheduledGrow(db: Catalog.Database, ids: set<int>, catalog: Catalog.LoadedCatalog, dataPath: DucklakePath, after: Catalog.Database)
    requires Expiry.Expire(db, ids, catalog, dataPath) == Some(after) && ExpirySafety.Distinct(ExpirySafety.FileIds(db))
    requires IsDirectory(dataPath) && PlainPaths(db, ids, Directories(db, ids, catalog, dataPath), dataPath)
    ensures ScheduledRows(after, dataPath)
         == ScheduledRows(db, dataPath) + Moved(db, ids, Directories(db, ids, catalog, dataPath))
  {
    hide Expiry.Expire, Expiry.ExpiredFiles, Expiry.Schedule, Expiry.DirectoryOf, Join, IsPathReference, SuffixUnder;
    ExpirySafety.ExpiryConservesFiles(db, ids, catalog, dataPath, after);
    var files := Expiry.ExpiredFiles(Expiry.DeleteSnapshots(db, ids));
    var added := ExpirySafety.NewlyScheduled(db, ids, catalog, dataPath).value;
    var directories := Directories(db, ids, catalog, dataPath);
    forall i | 0 <= i < |files|
      ensures Storage.FileRow(added[i].fileId, ScheduledAt(dataPath, added[i].path)) == FileAt(directories, files[i])
    {
      ExpirySafety.ScheduledLocation(db, ids, catalog, dataPath, i);
      assert files[i] in files;
    }
    var grown, moved := ScheduledRows(after, dataPath), Moved(db, ids, directories);
    forall r | r in moved ensures r in grown {
      var i :| 0 <= i < |files| && FileAt(directories, files[i]) == r;
      assert added[i] in after.scheduled;
    }
    forall r | r in grown ensures r in ScheduledRows(db, dataPath) + moved {
      var x :| x in after.scheduled && Storage.FileRow(x.fileId, ScheduledAt(dataPath, x.path)) == r;
      if x !in db.scheduled {
        var i :| 0 <= i < |added| && added[i] == x;
        assert files[i] in files;
      }
    }
  }

  /**
   * Expiry of the catalog is the expiry step of the object store: the file rows it takes are the ones
   * it schedules, and each resolves to the location it had.
   */
  lemma ExpireIsStorageStep(db: Catalog.Database, ids: set<int>, catalog: Catalog.LoadedCatalog, dataPath: DucklakePath,
                            after: Catalog.Database, a: Storage.World)
    requires Expiry.Expire(db, ids, catalog, dataPath) == Some(after) && ExpirySafety.Distinct(ExpirySafety.FileIds(db))
    requires IsDirectory(dataPath) && PlainPaths(db, ids, Directories(db, ids, catalog, dataPath), dataPath)
    requires a.rows == FileRows(db, Directories(db, ids, catalog, dataPath)) && a.scheduled == ScheduledRows(db, dataPath)
    ensures
      var directories := Directories(db, ids, catalog, dataPath);
      var b := a.(rows := FileRows(after, directories), scheduled := ScheduledRows(after, dataPath));
      Storage.ExpireStep(a, b, Moved(db, ids, directories))
  {
    hide Expiry.Expire, Moved, FileRows, ScheduledRows, PlainPaths, Directories;
    RowsMove(db, ids, catalog, dataPath, after, Directories(db, ids, catalog, dataPath));
    ScheduledGrow(db, ids, catalog, dataPath, after);
  }
}
