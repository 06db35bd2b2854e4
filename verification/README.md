# A verified model of the DuckLake catalog core

DuckLake keeps a data lake's metadata in SQL tables and its data in files. This project models the
parts of the Rust client on which the safety of a lake rests, and proves what they promise, for
every input, every run and every interleaving.

- **Versions, Catalog, LoadedCatalogs, CatalogLoading, Persist, Tags, TimeTravel, InlinedHead.**
  Catalog rows are valid over an interval of snapshots. A commit ends rows and inserts rows in one
  database transaction; earlier snapshots do not notice it and the new head is exactly the old one
  with the changes. Loading a catalog groups rows once and drains the groups, and reads what
  filtering for each object reads: every visible object with exactly its own rows.
- **Expiry, ExpirySafety, Paths.** Expiry deletes snapshots and all that only they needed, by a
  different rule for each relation. Retained snapshots load and scan as before, old schemas needed
  for inlined data stay readable, and every file row is either kept or scheduled once, at a path
  that leads to the file exactly under a stated condition.
- **References.** Rows that belong to other rows: neither commits nor expiry leave one without its
  owner, expiry leaves nothing that no retained snapshot needs, and a new object gets exactly the
  rows made for it.
- **Histories, CatalogCaches, ExpiredSnapshots, ExpiredHandles.** Runs of commits and expiries from
  a new lake, their invariant, and the catalogs that clients share by schema version with arbitrary
  eviction and late loading; and exactly when a snapshot that was expired under somebody's hands
  still reads as it did.
- **CommitStates, Commits, RowAccounting, CommitContents, CommitLimits, SerialisationLimits,
  StaleStatistics.** One commit attempt and the ids it hands out; the optimistic protocol of many
  clients with retries, conflict checks, shared lazily loaded statistics and concurrent expiry; and
  the exact limits of its guarantees.
- **Macros, MacroBinding, MacroMeaning, MacroGrouping, Scopes.** Scalar macro expansion preserves
  meaning, terminates, and reports recursion exactly when there is one. The visitor that collects a
  query's relations computes its free names.
- **Columns, ColumnArena, ColumnLaws, ColumnEdits, ColumnAdds, ColumnPaths.** Nested columns in a
  flat arena: round trips, paths, and edits that keep links, order, paths and ids.
- **Batch, Identifiers.** Batched SQL against row-at-a-time execution, printing and parsing of
  names.
- **Storage, ScheduledFiles, ScanLimits, Refinements.** The object store beside the catalog with
  clean-up and orphan deletion, exactly which orphan scans can lose a file, and how the protocol and
  expiry carry out the steps that histories and the object store are built from.

`Prelude` holds the order-preserving selection that every query is built from. Operations that the
program carries out step by step are methods, on classes where it updates an object; each is proved
against a function, and the theorems are about that function. What such a function gives is also said
without it, of the rows, positions, names and ids themselves (`MacroBinding`, `RowAccounting`,
`CommitContents`, `InlinedHead`, `LoadedCatalogs`, `ColumnPaths` and lemmas beside the others).

`dafny verify dfyconfig.toml` checks the project.

## What the code does not promise

Where the code falls short of its documentation or of what one would expect, the model follows the
code, shows an input or a run, and proves the exact condition.

- **Expiry and open transactions.** The slot of the next snapshot id is the only guard of a commit,
  and expiry frees slots together with the change records that conflict checks read. Given that the
  earlier commits are serialised and no transaction is of the kind of the next point, a commit is
  serialised exactly if the slot it takes was never used and no snapshot between its base and its head
  was expired before its last conflict check
  (`SerialisationLimits.SerialisedIff`, and `RunSerialisedIff` for whole runs).
  `CommitLimits.ExpiryCanBreakSerialisation` is a run in which a used slot is taken again and one id
  given to two tables, `SerialisationLimits.ExpiryCanHideChanges` one in which every slot is new but a
  record is missing from the check. The guarantees in `Commits` ask that no snapshot newer than the
  base of an open transaction is expired, which implies the condition.
- **The key of shared statistics.** A transaction whose change set only writes to tables, with nothing
  but empty lists of data files among its file writes and at least one of those, does not move the key
  that statistics are shared under (`CommitStates.StatsKeyMovesIff`). From any state of a run that was free of them, such a
  transaction and the next one give out a row id twice exactly if it also writes inlined rows
  (`StaleStatistics.StaleLosesIff`; `CommitLimits.StaleCommitLosesRows` is a run from a new lake). The
  guarantees in `Commits` exclude all transactions that leave the key where it was, also those that
  write no row.
- **Expired snapshots.** Loading a snapshot id after an expiry gives what it gave before exactly if
  everything the snapshot sees is still open or seen by a retained snapshot
  (`ExpiredSnapshots.LoadSurvivesIff`; `ExpirySafety.ExpiredSnapshotCanLose` is a lake that loses a
  view). A shared catalog equals a fresh load of any id of its version, expired or not, exactly if
  that held at every expiry since the catalog was loaded (`ExpiredHandles.HandleIsFreshIff`).
- **Variant statistics.** Detaching a table leaves the variant statistics of its files behind, exactly
  if there are some, until the next expiry deletes them (`References.CommitKeepsVariantsIff`).
- **Scheduled paths.** The data path is cut off as text and joined back as a URL. The two agree
  exactly when the rest is a plain path reference (`Paths.RelativeToCatalogKeepsLocation`,
  `Paths.ScheduledPathCanMove`). The directory queried for a table that the head no longer has
  forgets the default for empty stored paths (`Paths.QueriedPathIsCatalogPath`,
  `Paths.QueriedPathCanDiffer`).
- **Columns.** A struct with two fields of one name loses one of them, a struct without fields
  panics, and removing a nested field takes its id out of the index but leaves the schema that the
  transaction sees, and the taken name, as they were (`ColumnLaws.RoundTrip`,
  `ColumnEdits.SchemaAfterRemove`).
- **Batches.** Rows with more columns than the bind limit are dropped without an error
  (`Batch.InsertRows`). One batched update takes the first item of a row, one by one the last one
  wins (`Batch.BatchEqualsOneByOneIff`).
- **Identifiers.** An empty component is printed but never parsed (`Identifiers.IdentifierRoundTrip`).
- **Orphans.** From any state that a run with protected scans reaches, an orphan scan can lose a file that is committed meanwhile
  exactly if its age limit is missing, lies in the future, or is later than an upload that is not
  committed yet (`ScanLimits.ScanLosesIff`); deleting all orphans has no limit
  (`Storage.DeletingAllOrphansCanLoseFiles`).
- **Retries.** A unique violation is retried after the last attempt as well and then reported as
  used-up retries, whereas an existing table on the last attempt is reported as it is
  (`Commits.CommitLoop`).

## Model

| member | source | states |
|---|---|---|
| Versions.View | crates/ducklake/src/spec/query_clauses.rs:13-25 | a query at a snapshot returns the row of every version visible there and nothing else |
| Versions.RetirePast | crates/ducklake/src/transaction/transaction_changes.rs:223-239 | ending open rows at snapshot n changes the view of no snapshot before n |
| Versions.RetireHead | crates/ducklake/src/transaction/transaction_changes.rs:223-239 | at n the view is the previous head's view without the retired rows, in the same order |
| Versions.ViewOfKept | crates/ducklake/src/maintenance/expire_snapshots.rs:610-637 | deleting rows that a snapshot does not see leaves its view as it was |
| Versions.QuietView | crates/ducklake/src/caches/catalog.rs:24-33 | snapshots with no interval boundary between them see the same rows |
| Persist.Transaction.RetireRows | crates/ducklake/src/transaction/transaction_changes.rs:62-128 | deleting detached file rows and then retiring relation by relation, with two passes over columns, ends exactly the matching open rows of each relation and changes nothing else |
| Persist.PersistInlineData | crates/ducklake/src/transaction/transaction_changes.rs:329-400 | the two loops compute the inlined-data tables of `PersistedInlined`, which `InlinedHead.PersistedInlinedIs` spells out |
| InlinedHead.PersistedInlinedIs | crates/ducklake/src/transaction/transaction_changes.rs:329-400 | persisting inlined data succeeds exactly if no new table is there yet and every write has a table; each table then holds what it held followed by the rows of exactly the writes that go to it, in order |
| InlinedHead.NewHeadInlined | crates/ducklake/src/transaction/transaction_changes.rs:329-400 | at the new head an inlined-data table shows its old head's rows and then the rows written to it; a table that nothing is written to is unchanged |
| InlinedHead.NewHeadScan | crates/ducklake/src/scan/queries.rs:74-100 | a scan at the new head reads from every inlined-data table of its table, old or created by the commit, the earlier rows and then the new ones |
| Persist.Transaction.Commit | crates/ducklake/src/transaction/mod.rs:348-384 | a commit succeeds exactly when its snapshot id is free and its inlined-data tables can be created and written; it then leaves the database of `Persisted`, otherwise the database is unchanged |
| Persist.LatestRegistration | crates/ducklake/src/transaction/transaction_changes.rs:329-400 | the inlined-data table written to is the registered one of the table with the highest schema version |
| TimeTravel.PastViews | crates/ducklake/src/transaction/transaction_changes.rs:62-218 | no earlier snapshot sees any catalog relation differently after a commit |
| TimeTravel.PastCatalog | crates/ducklake/src/transaction/transaction_changes.rs:62-218 | loading the catalog at any earlier snapshot gives the same result, or the same error, before and after a commit |
| TimeTravel.PastScan | crates/ducklake/src/transaction/transaction_changes.rs:62-218 | scanning a table at any earlier snapshot reads the same files, statistics, partition values, delete files and inlined rows, unless the commit detached the table's files |
| TimeTravel.InlinedOfPast | crates/ducklake/src/scan/queries.rs:74-100 | inlined-data tables created by a later commit do not show in an earlier scan |
| TimeTravel.NewHead | crates/ducklake/src/transaction/transaction_changes.rs:62-218 | at the new head every relation is the old head's without the rows of dropped objects, retired columns and replaced partitions and sort orders, followed by the inserted rows |
| TimeTravel.NewHeadFiles | crates/ducklake/src/transaction/transaction_changes.rs:62-218 | the files at the new head are the old head's of tables neither dropped nor detached, followed by the written ones |
| TimeTravel.NewHeadTags | crates/ducklake/src/transaction/transaction_changes.rs:268-310 | the tags of an object at the new head are its earlier tags unless dropped, its initial tags, then its edits in order, with no key twice |
| TimeTravel.NewHeadObjectTags | crates/ducklake/src/transaction/transaction_changes.rs:62-218 | a schema, table or view has at the new head the tags it had, none of them if it was dropped, with its initial tags and then its edits |
| TimeTravel.NewHeadColumnTags | crates/ducklake/src/transaction/transaction_changes.rs:62-218 | the same for the tags of a column and its table |
| TimeTravel.NewHeadRecords | crates/ducklake/src/transaction/mod.rs:348-384 | a commit adds its own snapshot and change row, a schema version for every table whose schema it changes and a registration for every inlined-data table it creates, and nothing to other records |
| TimeTravel.HeadTables | crates/ducklake/src/transaction/transaction_changes.rs:243-266 | the tables at the new head are the untouched ones, the live version of each renamed table under its new name, and the created ones |
| TimeTravel.RenamedTableHasOneVersion | crates/ducklake/src/transaction/transaction_changes.rs:243-266 | a renamed table keeps as many live versions as it had; a table with one live version has exactly one afterwards, under the new name |
| Tags.CollectRound | crates/ducklake/src/transaction/transaction_changes.rs:268-310 | one pass over the pending objects collects the retirement and the insert of each object's next edit |
| Tags.PersistTags | crates/ducklake/src/transaction/transaction_changes.rs:268-310 | the loop runs exactly as many rounds as the longest edit list and then stops |
| Tags.RoundsAreEdits | crates/ducklake/src/transaction/transaction_changes.rs:268-310 | after any number of rounds, an object's live tags are its earlier tags with that many of its own edits applied one after the other, whatever the other objects do |
| Tags.EditsKeepKeysUnique | crates/ducklake/src/transaction/transaction_changes.rs:268-310 | when key equality is an equivalence, edits never leave two live tags with equal keys |
| Tags.TagRounds | crates/ducklake/src/transaction/transaction_changes.rs:268-310 | all rounds together equal sequential editing per object, keep keys unique, and are invisible to earlier snapshots |
| Tags.LastEditWins | crates/ducklake/src/transaction/transaction_changes.rs:268-310 | after the edits of a commit a key has the value of its last edit, or no tag if that removed it, and other keys keep theirs |
| Catalog.LoadsAgree | crates/ducklake/src/catalog/load.rs:41-193 | two loads agree as soon as the visible objects agree and each finds the same dependent rows |
| Catalog.LoadWithSchemas | crates/ducklake/src/catalog/load.rs:222-328 | when every visible object's schema is visible, loading never meets an object without its schema and gives each table its columns |
| LoadedCatalogs.LoadHolds | crates/ducklake/src/catalog/load.rs:41-193 | loading succeeds exactly if every visible object has a visible schema and every table at most one partition, with columns, and one sort order; the catalog then holds every visible object with its own schema, columns, tags, partition, sort order and macro parts, and nothing else |
| LoadedCatalogs.TableBuilt | crates/ducklake/src/catalog/load.rs:244-317 | a loaded table is partitioned and sorted exactly if a visible row says so, by that row with exactly its own columns or expressions, and has exactly its own columns and tags |
| LoadedCatalogs.ScanHolds | crates/ducklake/src/scan/queries.rs:5-100 | a scan reads exactly the table's files whose interval holds the snapshot, the statistics and partition values of files it sees, and the visible rows of its inlined-data tables |
| Catalog.FindSchema | crates/ducklake/src/catalog/arena.rs:23-38 | the schema found under an id is one pushed under it, and one is found whenever there is one |
| CatalogLoading.GroupBy | crates/ducklake/src/catalog/load.rs:139-169 | grouping fetched rows by a key gives, for every key, exactly the rows of that key in fetch order |
| CatalogLoading.TakeTable | crates/ducklake/src/catalog/load.rs:244-317 | building one table out of the groups it removes equals building it from filtered rows when its id comes up first, and from nothing when it comes up again; the groups of all other tables are untouched; what is built, `LoadedCatalogs.TableBuilt` says |
| CatalogLoading.CatalogLoader.SetSchemas | crates/ducklake/src/catalog/load.rs:196-220 | the schema arena's id index finds for every id the last schema pushed under it |
| CatalogLoading.CatalogLoader.SetTables | crates/ducklake/src/catalog/load.rs:222-328 | the loop over tables gives the tables, or the first error, of `DrainTables`, and leaves the tags of all other objects in their groups |
| CatalogLoading.CatalogLoader.SetViews | crates/ducklake/src/catalog/load.rs:331-376 | the loop over views takes the tags that the tables left |
| CatalogLoading.CatalogLoader.SetMacros | crates/ducklake/src/catalog/load.rs:378-414 | the loop over macros gives each its implementations and parameters |
| CatalogLoading.LoadCatalog | crates/ducklake/src/catalog/load.rs:41-193 | loading by grouping and draining equals reading the snapshot by filtering for each object, whenever the visible ids are distinct, and then holds what `LoadedCatalogs.LoadHolds` says |
| CatalogLoading.DrainedLoadIsLoad | crates/ducklake/src/catalog/load.rs:139-190 | the draining load refines the plain reading of a snapshot, errors included |
| CatalogLoading.SecondVersionLosesColumns | crates/ducklake/src/catalog/load.rs:244-247 | why the ids must be distinct: of two visible rows with one table id the second loads without columns |
| Expiry.Transaction.FindDirectories | crates/ducklake/src/maintenance/expire_snapshots.rs:312-375 | each table's directory is looked up once; the lookup fails exactly when some expired file's table has none |
| Expiry.BuildScheduled | crates/ducklake/src/maintenance/expire_snapshots.rs:376-398 | every expired file gets one scheduled row, in order, at the path its table's directory gives |
| Expiry.Transaction.MarkDataFilesForDeletion | crates/ducklake/src/maintenance/expire_snapshots.rs:312-426 | expired files are scheduled and their rows deleted together, or the database is unchanged |
| Expiry.Transaction.ExpireSnapshots | crates/ducklake/src/maintenance/expire_snapshots.rs:124-168 | expiry takes exactly the matching snapshots that have a newer one, keeps the rows of all other ids, and then deletes everything that `Expire` says, or nothing at all |
| Expiry.ExpireTakesMatching | crates/ducklake/src/maintenance/expire_snapshots.rs:171-200 | a snapshot is expired exactly if it matches and is not the latest; exactly the rows of expired ids go |
| Expiry.DirectoryIsOwn | crates/ducklake/src/maintenance/expire_snapshots.rs:426-494 | the directory of a file is that of its own table: from the catalog, or else from a version in the database with the schema of that version |
| Expiry.FetchTableAndSchema | crates/ducklake/src/maintenance/expire_snapshots.rs:428-471 | the joined table and schema belong together, and none are found only if no such pair exists |
| ExpirySafety.ExpiryKeepsCatalog | crates/ducklake/src/maintenance/expire_snapshots.rs:124-162 | for every retained snapshot, loading the catalog gives the same schemas, tables, columns, views, macros, partitions, sort orders and tags before and after expiry |
| ExpirySafety.ExpiryKeepsScans | crates/ducklake/src/maintenance/expire_snapshots.rs:400-421 | for every table of a retained snapshot, the visible files, delete files, their statistics and partition values, the inlined rows and the table statistics are the same before and after expiry |
| ExpirySafety.DeadFileIsInactive | crates/ducklake/src/maintenance/expire_snapshots.rs:400-421 | given one id per file over both relations, an id is expired exactly when its own row is inactive |
| ExpirySafety.RetainedFileIsKeptIff | crates/ducklake/src/maintenance/expire_snapshots.rs:400-421 | a retained data file survives exactly when no expired data or delete file carries its id |
| ExpirySafety.ExpiryConservesFiles | crates/ducklake/src/maintenance/expire_snapshots.rs:376-424 | old file rows are exactly the remaining ones plus the scheduled ones, each scheduled once |
| ExpirySafety.ScheduledLocation | crates/ducklake/src/maintenance/expire_snapshots.rs:376-398 | the scheduled path leads clean-up to the file's own location exactly when what follows the data path is a plain path reference, or nothing was stripped |
| ExpirySafety.KeptObjectsKeepSchemas | crates/ducklake/src/maintenance/expire_snapshots.rs:217-263 | the schema of every table, view and macro that expiry keeps is kept, over the object's whole interval |
| ExpirySafety.HistoricalSchemasSurvive | crates/ducklake/src/caches/snapshot.rs:251-283 | after expiry every snapshot id, expired ones included, still loads, and each kept table has the columns it had there |
| ExpirySafety.KeptTableKeepsVersions | crates/ducklake/src/maintenance/expire_snapshots.rs:217-263 | a table that expiry keeps keeps all of its versions, at every snapshot id |
| ExpirySafety.ExpiredSnapshotCanLose | crates/ducklake/src/maintenance/expire_snapshots.rs:496-545 | an expired snapshot does not keep its whole catalog: its own dropped view is gone from a later load |
| ExpiredSnapshots.LoadSurvivesIff | crates/ducklake/src/maintenance/expire_snapshots.rs:496-545 | loading any snapshot id, expired or not, gives after an expiry what it gave before exactly when every schema, view, macro, table and tag it sees is still open or seen by a retained snapshot |
| ExpiredSnapshots.NotSurvivingLoses | crates/ducklake/src/maintenance/expire_snapshots.rs:496-545 | otherwise its catalog has an object or a tag that the database no longer has for it |
| ExpiredSnapshots.LostStaysLost | crates/ducklake/src/maintenance/expire_snapshots.rs:496-545 | and no later expiry brings it back |
| ExpiredSnapshots.RetainedSurvives | crates/ducklake/src/maintenance/expire_snapshots.rs:496-545 | a retained snapshot always meets the condition |
| ExpiredHandles.LoadedCellState | crates/ducklake/src/caches/catalog.rs:24-33 | in every run a loaded shared catalog is what its snapshot loads, or has something that an expiry since then has taken |
| ExpiredHandles.HandleIsFreshIff | crates/ducklake/src/caches/catalog.rs:24-33 | in every run, what a shared catalog returns for any snapshot id of its version, retained or expired, equals a fresh load of that id exactly when everything its snapshot sees survived every expiry since it was loaded |
| References.ExpiryLeavesNoGarbage | crates/ducklake/src/maintenance/expire_snapshots.rs:124-162 | everything expiry leaves is needed: each remaining row is open or visible at a retained snapshot, and of each remaining table some version is |
| References.ExpiryKeepsNeededRows | crates/ducklake/src/maintenance/expire_snapshots.rs:496-564 | of schemas, views, macros and tags exactly the rows stay that are open or that a retained snapshot sees |
| References.ExpiryKeepsRowsOfTables | crates/ducklake/src/maintenance/expire_snapshots.rs:265-310 | of tables and the rows that carry a table id exactly those stay whose table has a version that is open or that a retained snapshot sees |
| References.ExpiryKeepsOwnedRows | crates/ducklake/src/maintenance/expire_snapshots.rs:496-564 | of change records, macro parts, file statistics, partition values, name mappings and options exactly those stay whose owner stays |
| References.ExpiryKeepsReferences | crates/ducklake/src/maintenance/expire_snapshots.rs:496-564 | expiry leaves no column, tag, partition, sort order, statistic, mapping, inlined-data table, macro part, file statistic, variant statistic, change record or option without the row it belongs to |
| References.CommitKeepsReferences | crates/ducklake/src/transaction/transaction_changes.rs:62-218 | a commit leaves no row without its owner, detaching of tables included, and registers exactly the inlined-data tables it creates |
| References.CommitKeepsVariantsIff | crates/ducklake/src/transaction/transaction_changes.rs:101-111 | a commit leaves variant statistics without their file exactly when it detaches a table that has some |
| References.NewHeadMacroParts | crates/ducklake/src/transaction/transaction_changes.rs:62-218 | after a commit an old macro has exactly its old implementations and parameters, a new one exactly those made for it |
| References.NewHeadDetails | crates/ducklake/src/transaction/transaction_changes.rs:62-218 | the same for the columns of a partition and the expressions of a sort order |
| References.NewHeadFileRows | crates/ducklake/src/transaction/transaction_changes.rs:62-218 | the same for the statistics and partition values of a data file |
| Paths.EnsureDirectory | crates/ducklake/src/io/path.rs:72-89 | the result is a directory, extends the given path, and is the given path when that is a directory already |
| Paths.UnderDirectory | crates/ducklake/src/io/path.rs:48-58 | joining a reference to a directory appends it exactly when it is a plain path reference (RFC 3986 section 5.2) |
| Paths.RelativeToCatalogKeepsLocation | crates/ducklake/src/maintenance/expire_snapshots.rs:473-492 | stripping the data path and joining it again gives the location back exactly when the rest is a plain path reference |
| Paths.ScheduledPathKeepsLocation | crates/ducklake/src/maintenance/cleanup_old_files.rs:76-83 | the path clean-up resolves equals the path the table resolves, exactly under that condition |
| Paths.ScheduledPathCanMove | crates/ducklake/src/maintenance/expire_snapshots.rs:473-492 | a file whose location has an empty segment after the data path is scheduled at a different location |
| Paths.TableDirectoryIs | crates/ducklake/src/catalog/views/table.rs:179-182 | a table's files lie below the data path, its schema's directory and its own; empty stored paths stand for the names, absolute ones for themselves |
| Paths.QueriedPathIsCatalogPath | crates/ducklake/src/maintenance/expire_snapshots.rs:428-471 | the directory queried from the database equals the catalog's exactly when the stored paths it needs are not empty |
| Paths.QueriedPathCanDiffer | crates/ducklake/src/maintenance/expire_snapshots.rs:428-471 | for a table with an empty stored path the two directories differ |
| Histories.SameVersionSameCatalog | crates/ducklake/src/caches/catalog.rs:24-33 | snapshots that share a schema version load equal catalogs |
| Histories.CommitKeepsSound | crates/ducklake/src/transaction/transaction_changes.rs:62-218 | every commit built on the latest snapshot keeps the history invariant: intervals on version boundaries, schemas around their objects, inlined-data tables recorded |
| Histories.ExpireKeepsSound | crates/ducklake/src/maintenance/expire_snapshots.rs:124-162 | every expiry keeps the history invariant and removes exactly the expired snapshots |
| Histories.ExpireTakesExactly | crates/ducklake/src/maintenance/expire_snapshots.rs:170-200 | in every reachable history an expiry takes the matching snapshots, all of them and no others, but never the latest |
| Histories.RunSound | crates/ducklake/src/transaction/commit_state.rs:22-37 | every database reached by any run of commits and expiries from a new lake satisfies the history invariant |
| CatalogCaches.WeakCache.GetOrInsertWith | crates/ducklake/src/primitives/weak_cache.rs:19-28 | a value still held is reused and nothing changes; otherwise the new value is inserted and exactly the entries no longer held are dropped |
| CatalogCaches.Lazy.Get | crates/ducklake/src/primitives/lazy.rs:29-31 | the first successful load is kept for ever, a failed one leaves the value unset |
| CatalogCaches.SnapshotCache.InsertSnapshot | crates/ducklake/src/caches/snapshot.rs:88-99 | the current snapshot never moves back, whatever order snapshots arrive in |
| CatalogCaches.SnapshotCache.GetForSchemaVersion | crates/ducklake/src/caches/snapshot.rs:59-84 | a schema version resolves to the current snapshot, else the latest retained one, else the earliest recorded begin |
| CatalogCaches.LatestWithVersion | crates/ducklake/src/caches/snapshot.rs:228-249 | the retained snapshot found is the latest of its schema version, and none is missed |
| CatalogCaches.EarliestBegin | crates/ducklake/src/caches/snapshot.rs:251-283 | the synthesised snapshot id is the earliest recorded begin of the schema version |
| CatalogCaches.LoadedCellGood | crates/ducklake/src/caches/snapshot.rs:129-144 | however late a shared catalog is loaded, it agrees with every retained snapshot of its version |
| CatalogCaches.RunInv | crates/ducklake/src/caches/catalog.rs:24-33 | in every interleaving of commits, expiries, cache misses and late reads, all shared catalogs agree with the database |
| CatalogCaches.CacheReturnsFreshCatalog | crates/ducklake/src/caches/catalog.rs:24-33 | in every run, reading a retained snapshot's catalog through any cell of its schema version equals a fresh load of that snapshot |
| CatalogCaches.ResolvedVersion | crates/ducklake/src/caches/snapshot.rs:59-84 | the schema version of every registered inlined-data table resolves to a snapshot of that version at which the table exists |
| CatalogCaches.InlinedTablesDecode | crates/ducklake/src/caches/snapshot.rs:251-283 | in every run, inlined rows can be decoded: a fresh load and every shared catalog of the resolved version hold the table with the columns it had there |
| CommitStates.CommitState.CatalogId | crates/ducklake/src/transaction/commit_state.rs:163-168 | hands out the next catalog id and moves the sequence by one |
| CommitStates.CommitState.FileId | crates/ducklake/src/transaction/commit_state.rs:153-157 | hands out the next file id and moves the sequence by one |
| CommitStates.CommitState.TableId | crates/ducklake/src/transaction/commit_state.rs:57-65 | a created table gets an id the first time it is asked for, and the same one ever after |
| CommitStates.CommitState.AddRows | crates/ducklake/src/caches/table_stats.rs:277-284 | new rows take the next row ids of the table and are counted |
| CommitStates.CommitState.WriteTableData | crates/ducklake/src/transaction/executors/table_write.rs:14-124 | each data file takes a file id, its row ids, then one id for each delete file: one row range for each file, in order, for the table and as large as the file |
| CommitStates.CommitState.WriteTableInlineData | crates/ducklake/src/transaction/executors/table_write.rs:141-208 | each inlined batch takes its row ids, one range for each batch and as large as the batch, and no file id |
| CommitStates.CommitState.Apply | crates/ducklake/src/transaction/changes/change.rs:456-600 | applying one change moves the allocation state as specified for its kind |
| CommitStates.CommitState.ApplyChanges | crates/ducklake/src/transaction/changes/change.rs:170-206 | applying a change set ends in the state `Attempt` gives, with a file id given up for inline-only writes |
| CommitStates.ApplyAllFollows | crates/ducklake/src/transaction/changes/change.rs:170-206 | any list of changes hands out consecutive ids, each once and in order, and gives every table its next row ids without gaps |
| CommitStates.AttemptFollows | crates/ducklake/src/transaction/changes/change.rs:170-216 | a whole attempt hands out every id between the old and the new sequences exactly once, in order |
| CommitStates.StatsKeyMovesIff | crates/ducklake/src/caches/table_stats.rs:32-51 | a commit that writes statistics moves the key they are cached under, exactly unless it writes nothing but empty lists of data files beside inlined rows |
| CommitStates.WrittenTables | crates/ducklake/src/transaction/changes/change.rs:170-206 | an attempt writes only to tables its changes name or tables it created |
| Commits.CommitLoop | crates/ducklake/src/transaction/mod.rs:215-299 | at most eleven attempts, each after the first from the head read before its conflict check; a unique violation, or an existing table before the last attempt, leads to another one unless the check finds a conflict; which outcome is returned when |
| Commits.CommitIsFromHead | crates/ducklake/src/transaction/mod.rs:386-405 | an attempt that finds its slot free was made from the latest snapshot |
| Commits.CommitUsesHeadStats | crates/ducklake/src/caches/table_stats.rs:113-173 | a successful attempt used statistics equal to those of its predecessor, although they are loaded lazily and not versioned |
| Commits.MadeConflictsWithNone | crates/ducklake/src/transaction/changes/applied_change.rs:92-274 | what a commit finally changed conflicts on no table with any commit since its transaction began, although the check was made with the ids of an earlier attempt |
| Commits.StepKeeps | crates/ducklake/src/transaction/mod.rs:215-299 | begin, late load, attempt, failure, refresh, check and expiry all keep the protocol invariant |
| Commits.RunKeeps | crates/ducklake/src/transaction/mod.rs:215-299 | the protocol invariant holds in every state of every careful run |
| Commits.CommitsAreSerialised | crates/ducklake/src/transaction/mod.rs:215-299 | in every interleaving each commit allocated from exactly its predecessor and was conflict-checked against every commit since its base |
| Commits.IdsAreNeverReused | crates/ducklake/src/transaction/commit_state.rs:153-168 | over all commits no catalog id and no file id is given out twice |
| Commits.RowIdsAreContiguous | crates/ducklake/src/transaction/transaction_changes.rs:403-492 | the row ranges given to a table over all commits are contiguous from 0, and its statistics row holds the next row id and their number: no update is lost |
| RowAccounting.AttemptTakes | crates/ducklake/src/transaction/executors/table_write.rs:14-124 | an attempt gives every data file and inlined batch of its change set one range of its size, in order, for its table; it takes one file id for every file and one catalog id for every object and new table |
| RowAccounting.CommitsGiveWhatTheyList | crates/ducklake/src/transaction/executors/table_write.rs:14-124 | in every run each commit gave every data file and batch it lists its own rows |
| RowAccounting.RowIdsCoverWrittenRows | crates/ducklake/src/transaction/executors/table_write.rs:214-232 | in every careful run the row ids of a table cover exactly the rows that all commits wrote to it, once each, and its next row id and record count are their number |
| CommitContents.SnapshotRowOf | crates/ducklake/src/transaction/commit_state.rs:22-37 | a commit takes the next snapshot id, a new schema version exactly if it does more than write to tables, and the ids its change set needs |
| CommitContents.RecordedChanges | crates/ducklake/src/transaction/changes/change.rs:157-183 | of the tables that were there, exactly those that the change set names are recorded as written, altered or dropped, and exactly the dropped ones leave the head |
| CommitContents.TablesAreAsAtBase | crates/ducklake/src/transaction/changes/applied_change.rs:92-280 | since a committed transaction began, no other commit altered or dropped a table that it writes to or alters, nor dropped one that it drops |
| CommitContents.AttemptsAreFew | crates/ducklake/src/transaction/mod.rs:229-298 | in every run, whatever the interleaving, a transaction makes at most eleven attempts |
| Commits.StatsRowsMatch | crates/ducklake/src/transaction/transaction_changes.rs:403-440 | a commit updates statistics rows that exist and inserts those that do not: a table it wrote to was loaded exactly when it has a row |
| CommitLimits.InOrderIffSlotNotExpired | crates/ducklake/src/transaction/mod.rs:386-405 | whatever was expired and whatever the change sets, as long as commits were in order of snapshot ids the next one is too exactly when the id it takes was not freed by expiry |
| SerialisationLimits.SerialisedIff | crates/ducklake/src/transaction/mod.rs:386-405 | given that the earlier commits are serialised and no transaction leaves the statistics key where it was, the next one is serialised, conflict checks included, exactly when its slot was never used and no snapshot between its base and its head was expired before its last conflict check |
| SerialisationLimits.RunSerialisedIff | crates/ducklake/src/transaction/mod.rs:215-299 | a whole run without such transactions is serialised exactly when every commit in it meets that condition |
| SerialisationLimits.RunKnows | crates/ducklake/src/transaction/mod.rs:386-405 | in every run a client that attempts a commit has checked exactly the snapshots after its base that were not expired when it checked |
| SerialisationLimits.ExpiryCanHideChanges | crates/ducklake/src/maintenance/expire_snapshots.rs:547-547 | a run in which every slot is new, yet expiry deleted the change record that the conflict check needed |
| CommitLimits.ExpiryCanBreakSerialisation | crates/ducklake/src/maintenance/expire_snapshots.rs:201-213 | a run in which expiry frees a slot below an open transaction, which then commits unchecked and gives out an id again |
| CommitLimits.StaleCommitLosesRows | crates/ducklake/src/transaction/changes/change.rs:208-216 | a run without expiry in which a commit that does not move the statistics key makes the next one give out the same row ids |
| StaleStatistics.StaleLosesIff | crates/ducklake/src/transaction/changes/change.rs:208-216 | from any state of a careful run, a transaction that leaves the statistics key where it was and the next one give out a row id of a table twice exactly when it writes inlined rows to the table |
| StaleStatistics.StaleRowsIff | crates/ducklake/src/transaction/changes/change.rs:208-216 | such a transaction gives out rows of a known table exactly when it writes inlined rows to it |
| Macros.BindArgumentsInLoops | crates/ducklake/src/view/sql.rs:336-377 | the two loops over arguments and parameters bind as the recursive definition does |
| MacroBinding.BoundExactly | crates/ducklake/src/view/sql.rs:336-377 | an argument without a name is bound to the parameter at its own position, a named one to the parameter of that name, no two to one parameter, every other parameter to its default, and nothing else is bound |
| MacroBinding.BindsIff | crates/ducklake/src/view/sql.rs:336-377 | binding succeeds exactly if all arguments are expressions, those without a name come first and have a parameter each, named ones name a parameter, none is given twice, and every parameter without an argument has a default |
| MacroBinding.SameNameIff | crates/ducklake/src/view/sql.rs:210-223 | names of macros and parameters are the same exactly if they agree up to the case of ASCII letters |
| MacroBinding.FindMacroFinds | crates/ducklake/src/view/sql.rs:210-223 | a qualified name finds the first scalar macro of its schema, an unqualified one the first of the default schema and only without any the first of `main`, any other name nothing |
| MacroBinding.ChooseExactly | crates/ducklake/src/view/sql.rs:294-334 | the one implementation of the dialect that accepts the arguments is taken; the four errors are raised exactly if none does, several do, a parameter is typed, or the body is not one expression |
| Macros.FindMacro | crates/ducklake/src/view/sql.rs:210-223 | what a call resolves to is a macro of the catalog; `MacroBinding.FindMacroFinds` says which |
| Macros.Choose | crates/ducklake/src/view/sql.rs:294-334 | the chosen implementation is one of the macro's, has a body, and accepts the arguments; `MacroBinding.ChooseExactly` says when it is chosen |
| Macros.CandidatesBind | crates/ducklake/src/view/sql.rs:294-334 | only implementations that accept the arguments are candidates |
| Macros.MacroExpander.ExpandBody | crates/ducklake/src/view/sql.rs:190-208 | the active stack is restored whatever happens; a macro that is active already is refused, any other body is expanded after substitution |
| Macros.MacroExpander.Visit | crates/ducklake/src/view/sql.rs:244-254 | the post-order visitor computes the recursive expansion and terminates |
| Macros.MacroExpander.VisitArgs | crates/ducklake/src/view/sql.rs:244-254 | arguments are expanded before the call that holds them |
| MacroMeaning.BindNatural | crates/ducklake/src/view/sql.rs:336-377 | binding depends on the shape of arguments only: binding values is evaluating what is bound |
| MacroMeaning.SubstitutionMeaning | crates/ducklake/src/view/sql.rs:379-388 | simultaneous substitution means binding the arguments' values, free of capture between nested macros |
| MacroMeaning.ExpandPreservesMeaning | crates/ducklake/src/view/sql.rs:146-168 | a successful expansion has, on every row and under every meaning of the other operations, the value of the original with its macros |
| MacroMeaning.ExpandIffMeaningful | crates/ducklake/src/view/sql.rs:146-168 | expansion succeeds on exactly the expressions that have a meaning |
| MacroMeaning.ExpandNormalises | crates/ducklake/src/view/sql.rs:244-254 | a successful result contains no call that resolves to a macro |
| MacroMeaning.ExpandIsIdempotent | crates/ducklake/src/view/sql.rs:244-254 | expanding a result again, with any macros active, changes nothing |
| MacroMeaning.ExpandFailsAsChecked | crates/ducklake/src/view/sql.rs:190-208 | expansion fails exactly when, and with the error that, following the bodies as written does; arguments never add a recursion |
| MacroMeaning.MeaningfulIffChecked | crates/ducklake/src/view/sql.rs:190-208 | an expression has a meaning exactly when that check finds no error |
| MacroMeaning.RankedNeverRecursive | crates/ducklake/src/view/sql.rs:190-208 | bodies that call lower-ranked macros only are never reported as recursive |
| MacroMeaning.AcyclicMacrosExpand | crates/ducklake/src/view/sql.rs:190-208 | `recursive macro` is never raised for acyclic macros, however calls are nested in arguments |
| MacroGrouping.SubstituteGrouped | crates/ducklake/src/view/sql.rs:379-389 | substituting parameters never makes an operand of an operator into an operator: what is put in is in parentheses |
| MacroGrouping.ExpandGrouped | crates/ducklake/src/view/sql.rs:244-254 | expansion keeps expressions grouped for printing, with any macros, nesting and arguments |
| Scopes.RelationVisitor.PreVisitQuery | crates/ducklake/src/view/sql.rs:428-448 | opens a scope that sees the enclosing names, and its own at once for WITH RECURSIVE |
| Scopes.RelationVisitor.PostVisitQuery | crates/ducklake/src/view/sql.rs:450-458 | closes the scope and brings the finished CTE into scope in the enclosing query |
| Scopes.RelationVisitor.PreVisitRelation | crates/ducklake/src/view/sql.rs:460-472 | records a name unless it is unqualified and names a CTE in scope |
| Scopes.RelationVisitor.VisitQuery | crates/ducklake/src/view/sql.rs:425-472 | visiting a query appends exactly its free relation names, in order, and leaves the stack as it found it but for the finished CTE |
| Scopes.RelationVisitor.VisitCtes | crates/ducklake/src/view/sql.rs:425-472 | the queue of pending names pairs every CTE with its own query |
| Scopes.RelationVisitor.VisitBody | crates/ducklake/src/view/sql.rs:425-472 | a body appends its free names and leaves the stack unchanged, nested subqueries included |
| Scopes.CollectRelations | crates/ducklake/src/view/sql.rs:102-121 | the collected list is the recursively defined list of free relation names |
| Scopes.InOrderIsAll | crates/ducklake/src/view/sql.rs:428-448 | with all names in scope from the start, adding them one by one changes nothing |
| Scopes.DependsOnFreeOnly | crates/ducklake/src/view/sql.rs:102-121 | the value of a query depends on the collected relations only, for any catalog contents |
| Scopes.ResolvesIff | crates/ducklake/src/view/sql.rs:102-121 | a catalog resolves every name of a query exactly if it has every collected relation: none is missing and none is collected in vain |
| Scopes.InScopeIsNeverCollected | crates/ducklake/src/view/sql.rs:460-472 | the unqualified name of a CTE in scope is never collected, however deep it stands |
| Columns.FlattenedChildren | crates/ducklake/src/catalog/typedefs/columns.rs:241-253 | grouping the flattened columns by parent finds the children of each, in order |
| ColumnArena.GroupByParent | crates/ducklake/src/catalog/typedefs/columns.rs:241-253 | the grouping loop gives every parent its children's arena indices |
| ColumnArena.CatalogColumns.PushColumn | crates/ducklake/src/catalog/typedefs/columns.rs:311-316 | appends to the arena and indexes the column by id |
| ColumnArena.CatalogColumns.AddColumnToArena | crates/ducklake/src/catalog/typedefs/columns.rs:230-299 | fails exactly on a struct without fields or a missing id to keep; otherwise appends the flattened columns in pre-order with links, ids and index, and returns their indices |
| ColumnArena.CatalogColumns.AddRootColumns | crates/ducklake/src/catalog/typedefs/columns.rs:390-405 | a schema's columns are added one after the other as roots |
| ColumnArena.CatalogColumns.ArenaIdxByPath | crates/ducklake/src/catalog/typedefs/columns.rs:78-103 | the loop follows a path component by component and fails where a component leads nowhere |
| ColumnArena.CatalogColumns.AddColumn | crates/ducklake/src/catalog/typedefs/columns.rs:196-228 | fails exactly when the name is taken at its level or building panics; otherwise registers the new column with its struct or the roots |
| ColumnArena.CatalogColumns.RenameColumn | crates/ducklake/src/catalog/typedefs/columns.rs:111-133 | fails exactly when the name is taken, changing nothing; otherwise changes the column's name and the key at its level in place |
| ColumnArena.CatalogColumns.RemoveColumn | crates/ducklake/src/catalog/typedefs/columns.rs:155-162 | lists the subtree and takes exactly its ids out of the index |
| ColumnArena.CatalogColumns.MarkColumnDeleted | crates/ducklake/src/catalog/typedefs/columns.rs:164-192 | the recursion appends the subtree in pre-order and unindexes it |
| ColumnLaws.RoundTrip | crates/ducklake/src/catalog/typedefs/columns.rs:455-493 | reading an added column back gives it up to ids exactly when no struct in it has two fields of one name |
| ColumnLaws.SchemaRoundTrip | crates/ducklake/src/catalog/typedefs/columns.rs:407-421 | building the arena from any schema and converting back gives every column in order; kept ids are kept, fresh ids are distinct, consecutive and below the next id |
| ColumnLaws.FreshIdsIndexed | crates/ducklake/src/catalog/typedefs/columns.rs:304-316 | fresh ids follow the next id in pre-order and index exactly the new columns |
| ColumnLaws.StampKeepsIds | crates/ducklake/src/catalog/typedefs/columns.rs:391-405 | with ids preserved a column is read back with its own ids |
| ColumnLaws.AddedSubtree | crates/ducklake/src/catalog/typedefs/columns.rs:49-76 | the pre-order indices of an added column line up with its flattened columns |
| ColumnLaws.AddedForward | crates/ducklake/src/catalog/typedefs/columns.rs:230-299 | adding keeps every column before the columns it refers to, so reading and removing terminate |
| ColumnEdits.RenamedEntries | crates/ducklake/src/catalog/typedefs/columns.rs:111-133 | renaming keeps the order of siblings and changes one name only |
| ColumnEdits.StepAfterRename | crates/ducklake/src/catalog/typedefs/columns.rs:111-133 | after a rename each path component resolves as before, but for the old and the new name at that level |
| ColumnEdits.PathsAfterRename | crates/ducklake/src/catalog/typedefs/columns.rs:78-133 | every path that resolved resolves to the same column with one component replaced |
| ColumnEdits.RenameBack | crates/ducklake/src/catalog/typedefs/columns.rs:111-133 | renaming back restores the arena and the roots |
| ColumnEdits.RenameKeepsLinks | crates/ducklake/src/catalog/typedefs/columns.rs:111-133 | a rename keeps parent and child links and names in agreement |
| ColumnEdits.RemoveListsSubtree | crates/ducklake/src/catalog/typedefs/columns.rs:155-192 | removing lists the column and exactly its descendants, each once |
| ColumnEdits.SchemaAfterRemove | crates/ducklake/src/catalog/typedefs/columns.rs:407-421 | exactly the subtree's ids leave the index; the schema loses a removed root and does not change for a nested column |
| ColumnAdds.ChildPositionsExact | crates/ducklake/src/typedefs/schema/column.rs:91-127 | the positions computed for a column's children are exactly the flattened columns with that parent |
| ColumnAdds.AddKeepsLinks | crates/ducklake/src/catalog/typedefs/columns.rs:196-299 | adding a column, below a struct or as a root, keeps all parent and child links and names in agreement |
| ColumnPaths.PathWalks | crates/ducklake/src/catalog/typedefs/columns.rs:78-103 | a path from a column resolves in the arena exactly if walking the nested column succeeds, to the column the walk finds; `element`, `key` and `value` name the parts of lists and maps |
| ColumnPaths.RootPathWalks | crates/ducklake/src/catalog/typedefs/columns.rs:78-103 | a whole path starts at the root of its first name and then walks the column there |
| ColumnPaths.AddedPathsWalk | crates/ducklake/src/catalog/typedefs/columns.rs:78-103 | after a column is added, below a struct or as a root, paths into it resolve as walking the added column does |
| Batch.BatchQueries | crates/ducklake/src/db/batch.rs:253-280 | the halving loop terminates and yields the batches of the recursive definition |
| Batch.BatchesCover | crates/ducklake/src/db/batch.rs:253-280 | batches follow the items in order, fit both limits, and stop only before an item that does not fit alone |
| Batch.FitIsLargest | crates/ducklake/src/db/batch.rs:253-280 | a batch has all the items offered, or twice as many did not fit |
| Batch.FailsIffItemTooLarge | crates/ducklake/src/db/batch.rs:253-280 | for costs that never shrink with more items, splitting fails exactly when some single item does not fit |
| Batch.OneByOneTakesLast | crates/ducklake/src/db/batch.rs:98-116 | executed one by one, the last item for a row wins |
| Batch.BatchEqualsOneByOneIff | crates/ducklake/src/db/batch.rs:98-116 | one batched CASE update equals its items one by one exactly when the first and the last item of each row agree |
| Batch.BatchedUpdates | crates/ducklake/src/db/batch.rs:98-116 | with distinct keys every split into batches updates as one item at a time does |
| Batch.UpdatedRows | crates/ducklake/src/db/batch.rs:98-116 | each row gets the value of the item with its key and keeps its other columns; rows without an item stay |
| Batch.CopiesMissFilter | crates/ducklake/src/db/batch.rs:121-160 | later batches do not copy the copies made by earlier ones |
| Batch.CopiedRows | crates/ducklake/src/db/batch.rs:121-160 | batched copies add exactly the copies of the original rows |
| Batch.BatchedCopies | crates/ducklake/src/db/batch.rs:121-160 | with distinct keys every split into batches copies what one item at a time copies |
| Batch.CopiesAre | crates/ducklake/src/db/batch.rs:121-160 | copies are one for each filtered row with an item: its key and other columns, the value of the item, and the fixed columns set |
| Batch.InsertRows | crates/ducklake/src/db/batch.rs:164-200 | all rows are inserted, within the bind limit, exactly when one row fits it; otherwise none is, without an error |
| Identifiers.IdentifierRoundTrip | crates/ducklake/src/utils/identifier.rs:33-56 | parsing a formatted dotted name gives its components back exactly when there are some and none is empty, whatever quotes, dots and commas they contain |
| Identifiers.ListRoundTrip | crates/ducklake/src/utils/identifier.rs:58-83 | parsing a formatted list, the empty one included, gives it back exactly when no identifier is empty |
| Identifiers.PlainIdentifierParses | crates/ducklake/src/utils/identifier.rs:33-46 | names without quotes, joined by dots, parse to themselves in order |
| Identifiers.PlainListParses | crates/ducklake/src/utils/identifier.rs:58-74 | names without quotes, joined by commas, parse to the list of them |
| Identifiers.UnquoteQuote | crates/ducklake/src/utils/identifier.rs:85-91 | undoubling quotes undoes doubling them |
| Identifiers.CapturesJoined | crates/ducklake/src/utils/identifier.rs:33-46 | greedy leftmost matching of the quoted form finds exactly the formatted components |
| Identifiers.ParsedNonEmpty | crates/ducklake/src/utils/identifier.rs:33-46 | no parsed name is empty or has an empty component |
| Storage.ObjectStore.DeleteObjects | crates/ducklake/src/maintenance/cleanup_old_files.rs:119-140 | exactly the listed locations leave the store |
| Storage.ObjectStore.DeleteOrphanedFiles | crates/ducklake/src/maintenance/delete_orphaned_files.rs:55-96 | returns exactly the listed objects that nothing references and that are old enough, and deletes them unless it is a dry run |
| Storage.CleanUpOldFiles | crates/ducklake/src/maintenance/cleanup_old_files.rs:54-112 | exactly the objects of files scheduled before the limit go, and then every row that shares an id with one of them; a dry run changes nothing |
| Storage.CleanUpTakesDueFiles | crates/ducklake/src/maintenance/cleanup_old_files.rs:54-112 | with an id per row exactly the due rows go |
| ScheduledFiles.ScheduledFileStays | crates/ducklake/src/maintenance/delete_orphaned_files.rs:100-159 | in every run with protected scans a scheduled file keeps its object and its row until a clean-up takes it: no orphan scan deletes it, whenever it began |
| Storage.RunInv | crates/ducklake/src/maintenance/delete_orphaned_files.rs:100-159 | uploads, commits, expiry, clean-ups and orphan scans, interleaved and stopped anywhere, keep every needed location apart from everything about to be deleted |
| Storage.FilesStayStored | crates/ducklake/src/maintenance/cleanup_old_files.rs:54-112 | in every run whose orphan scans spare files young enough to be still being written, the object of every file row stays in the store |
| Storage.DeletingAllOrphansCanLoseFiles | crates/ducklake/src/maintenance/delete_orphaned_files.rs:51-53 | without an age limit a run loses a file that is being written |
| ScanLimits.UnprotectedCanLose | crates/ducklake/src/maintenance/delete_orphaned_files.rs:55-96 | every scan without a protecting age limit has a continuation in which a file is committed and its object deleted |
| ScanLimits.ScanLosesIff | crates/ducklake/src/maintenance/delete_orphaned_files.rs:55-96 | from every state that a run with protected scans reaches, a scan can lose a committed file exactly when its age limit is missing, in the future, or later than an upload not committed yet |
| Refinements.LogIsGood | crates/ducklake/src/transaction/commit_state.rs:22-37 | the snapshot rows that the protocol writes form a log that histories accept |
| Refinements.CommitRowIsNext | crates/ducklake/src/transaction/commit_state.rs:22-37 | a commit of the protocol writes the snapshot row that the commit step of a history asks for |
| Refinements.CreatedIdsAreNew | crates/ducklake/src/transaction/commit_state.rs:153-168 | tables that a commit creates have ids that no earlier snapshot has seen |
| Refinements.ExpireIsStorageStep | crates/ducklake/src/maintenance/expire_snapshots.rs:376-424 | expiry of the catalog is the expiry step of the object store: the file rows it takes are those it schedules, each at the location it had |

## Left out

- Database drivers, SQL text, dialects, connection pools and upgrades: relations are sequences of
  rows, and a database transaction is one atomic step with its key checks.
- Object stores, Parquet, Arrow, encryption and file copying: the store is a map from locations to
  modification times.
- Percent-encoding and dot segments of URLs, clocks and UUIDs: paths are plain segment strings,
  times are integers, and a new file has a location that was never used.
- The several queries of one load or of one refresh of statistics run one after the other in the
  program; here each is one read of the database.
- Loading nested columns from rows, macro types, partition transforms and sort expressions beyond
  their rows, the name indexes of the loaded catalog, and the validation of views and macros.
- Minima, maxima and sizes in column and table statistics: only row ids and record counts are
  modelled; the others are updated beside them.
- Deletes of inlined rows, metadata options, table transfer, COPY encoding and the Python package.
- Normalisation of change sets, and the conflict rules about names, views and macros: a parameter of
  the protocol (`rules`). The rules about table ids are modelled.
- Table macros, window and filter modifiers beyond their rejection, subqueries in scalar macro
  bodies, projection aliases, list defaults, and functions whose value changes between calls.
- The SQL grammar: expressions and queries are small datatypes with the traversal order of the
  program. The value of a recursive CTE is a fixed, arbitrary number of unfoldings.
- CatalogLoading.LoadCatalog: that the ids a snapshot sees are distinct is a condition here, since it
  comes from the id sequence of `Commits`, which keeps no catalog rows.
- Histories.RunSound: that the changes collected for a commit touch the catalog exactly if its change
  set changes the schema, that rows of new objects carry new ids, that only empty schemas are dropped,
  and that an inlined-data table is created with a schema change of its table are conditions on the
  commit step. The snapshot row it asks for is the one the protocol writes
  (`Refinements.CommitRowIsNext`), and created tables have new ids (`Refinements.CreatedIdsAreNew`).
- Histories.CommitKeepsSound: under the same conditions.
- CatalogCaches.CacheReturnsFreshCatalog: that the head a commit leaves can be loaded is a condition
  on the commit step. What it does not say of expired snapshots, `ExpiredHandles.HandleIsFreshIff` does.
- Commits.RowIdsAreContiguous: `table_stats` has no unique key, so inserting a row for a table that has
  one leaves two; the protocol's model keeps the later one. In the runs of this theorem it never
  happens (`Commits.StatsRowsMatch`).
- CommitLimits.StaleCommitLosesRows: its second commit inserts such a second row in the program; the
  row ids it gives out do not depend on that.
- ScheduledFiles.ScheduledFileStays: the times at which files were scheduled are an input of
  `Storage.CleanUpOldFiles`; in runs a clean-up may take any scheduled files.
- Storage.FilesStayStored: that a scheduled file resolves to the location it had is a condition of the
  expiry step; `Refinements.ExpireIsStorageStep` derives the step from the catalog's expiry, given plain
  path references. An orphan scan that aborts because a file's table is missing is a scan that stops.
