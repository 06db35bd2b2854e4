/**
 * The optimistic commit protocol (transaction/mod.rs) over the shared statistics cells
 * (caches/table_stats.rs): clients interleave with one another, with late loads and with expiry.
 */
module Commits {
  import opened Prelude
  import opened CommitStates
  import Catalog

  const MAX_RETRIES := 10

  type SnapshotRow = Catalog.SnapshotRow

  /** A snapshot row, with the tables that are visible at it. */
  datatype Snap = Snap(info: SnapshotRow, tables: set<int>)

  /** The recorded changes of a commit: table ids by kind of change, and whatever else it records. */
  datatype Summary = Summary(inserted: set<int>, altered: set<int>, dropped: set<int>, rest: string)

  const NOTHING := Summary({}, {}, {}, "")

  /** The rules of `check_conflict` about table ids. */
  predicate TablesConflict(mine: Summary, theirs: Summary) {
    || mine.inserted * (theirs.dropped + theirs.altered) != {}
    || mine.dropped * theirs.dropped != {}
    || mine.altered * (theirs.altered + theirs.dropped) != {}
  }

  /** `check_conflict`; `rules` stands for its rules about names, views and macros. */
  predicate Conflicts(mine: Summary, theirs: Summary, rules: (string, string) -> bool) {
    TablesConflict(mine, theirs) || rules(mine.rest, theirs.rest)
  }

  /** A lazy value of statistics shared by key, created for `snap` and loaded when `at` was the head. */
  datatype Cell = Cell(snap: Snap, value: Option<map<int, TableStats>>, at: int)

  datatype Phase = Attempting | Failed | Checking

  /** A transaction being committed: its snapshot, its changes, and where its retry loop is. */
  datatype Client =
    | Idle
    | Busy(base: Snap, changes: seq<Change>, latest: Snap, cell: nat, attempt: nat, phase: Phase,
           checked: set<int>, tried: Summary)

  /** One successful commit, in commit order; `wrote` is what its change set lists, table and rows of each write. */
  datatype Entry = Entry(snap: Snap, base: int, checked: set<int>, tried: Summary, made: Summary,
                         used: map<int, TableStats>, stats: map<int, TableStats>,
                         catalogIds: seq<int>, fileIds: seq<int>, ranges: seq<RowRange>, wrote: seq<(int, nat)>)

  datatype System = System(snapshots: map<int, Snap>, made: map<int, Summary>, stats: map<int, TableStats>,
                           cells: seq<Cell>, clients: seq<Client>, log: seq<Entry>, expired: set<int>)

  function KeyOf(info: SnapshotRow): (int, int) { (info.schemaVersion, info.nextFileId) }

  predicate IsLatest(snapshots: map<int, Snap>, h: Snap) {
    h.info.id in snapshots && snapshots[h.info.id] == h && forall k :: k in snapshots ==> k <= h.info.id
  }

  /** A change names tables the transaction's own catalog has, and a change set is never empty. */
  predicate ValidChanges(cs: seq<Change>, tables: set<int>) {
    cs != [] && forall c :: c in cs && TableOf(c).Some? && TableOf(c).value.Existing? ==> TableOf(c).value.id in tables
  }

  // ----- one attempt -----

  /** The statistics an attempt starts from: what its cell holds, when it needs them at all. */
  function Loaded(client: Client, cells: seq<Cell>): Option<map<int, TableStats>>
    requires client.Busy? && client.cell < |cells|
  {
    if RequiresStats(client.changes) then cells[client.cell].value else Some(map[])
  }

  function Outcome(client: Client, stats: map<int, TableStats>): Allocation
    requires client.Busy?
  {
    Attempt(Start(client.latest.info.nextCatalogId, client.latest.info.nextFileId, stats), client.changes)
  }

  function SummaryOf(a: Allocation, cs: seq<Change>, rest: string): Summary {
    Summary(set c | c in cs && (c.WriteDataFiles? || c.WriteInlineData?) :: IdOf(a, c.table),
            set c | c in cs && c.AlterTable? :: IdOf(a, c.table),
            set c | c in cs && c.DropTable? :: IdOf(a, c.table), rest)
  }

  function CreatedIds(a: Allocation, cs: seq<Change>): set<int> {
    set n | n in CreatedTables(cs) :: IdOf(a, TableRef.Created(n))
  }

  /** `persist_statistics`: update the row of a table whose statistics were loaded, else insert one. */
  function PersistStats(rows: map<int, TableStats>, loaded: map<int, TableStats>, a: Allocation): map<int, TableStats> {
    map t | t in rows.Keys + a.written && (t in rows || t !in loaded) :: if t in a.written then StatsOf(a.stats, t) else rows[t]
  }

  function NextSnap(client: Client, a: Allocation): Snap
    requires client.Busy?
  {
    var last := client.latest.info;
    Snap(Catalog.SnapshotRow(last.id + 1, last.schemaVersion + (if ChangesSchema(client.changes) then 1 else 0),
                             a.nextCatalogId, a.nextFileId),
         (client.latest.tables - SummaryOf(a, client.changes, "").dropped) + CreatedIds(a, client.changes))
  }

  // ----- the steps -----

  /** `new_snapshot`: share a live cell of the same key, or create one. */
  predicate Acquire(before: seq<Cell>, after: seq<Cell>, snap: Snap, i: nat) {
    || (after == before && i < |before| && KeyOf(before[i].snap.info) == KeyOf(snap.info))
    || (after == before + [Cell(snap, None, 0)] && i == |before|)
  }

  /** Start a transaction at the latest snapshot. */
  predicate BeginStep(a: System, b: System, c: nat, head: Snap, cs: seq<Change>, i: nat) {
    && c < |a.clients| && a.clients[c].Idle? && IsLatest(a.snapshots, head) && ValidChanges(cs, head.tables)
    && Acquire(a.cells, b.cells, head, i)
    && b == a.(cells := b.cells, clients := a.clients[c := Busy(head, cs, head, i, 0, Attempting, {}, NOTHING)])
  }

  /** Somebody takes a handle on a snapshot: on the one just committed, or on one read from history. */
  predicate ShareStep(a: System, b: System, k: nat, i: nat) {
    k < |a.log| && Acquire(a.cells, b.cells, a.log[k].snap, i) && b == a.(cells := b.cells)
  }

  /** Somebody reads cell `i` for the first time: the rows as they are now, for the tables of its snapshot. */
  predicate LoadStep(a: System, b: System, i: nat) {
    && i < |a.cells| && a.cells[i].value.None?
    && var loaded := map t | t in a.stats && t in a.cells[i].snap.tables :: a.stats[t];
       b == a.(cells := a.cells[i := a.cells[i].(value := Some(loaded), at := |a.log| - 1)])
  }

  /** An attempt succeeds: the slot of its snapshot id is free in the database. */
  predicate CommitStep(a: System, b: System, c: nat, rest: string) {
    && c < |a.clients| && a.clients[c].Busy? && a.clients[c].phase.Attempting?
    && a.clients[c].cell < |a.cells| && Loaded(a.clients[c], a.cells).Some?
    && a.clients[c].latest.info.id + 1 !in a.snapshots
    && b == Committed(a, c, rest)
  }

  /** What the commit of an attempt writes. */
  function Committed(a: System, c: nat, rest: string): System
    requires c < |a.clients| && a.clients[c].Busy? && a.clients[c].cell < |a.cells| && Loaded(a.clients[c], a.cells).Some?
  {
    var client := a.clients[c];
    var used := Loaded(client, a.cells).value;
    var out := Outcome(client, used);
    var snap := NextSnap(client, out);
    var stats := PersistStats(a.stats, used, out);
    var made := SummaryOf(out, client.changes, rest);
    var entry := Entry(snap, client.base.info.id, client.checked, client.tried, made, used, stats,
                       out.catalogIds, out.fileIds, out.ranges, Wrote(out, client.changes));
    a.(snapshots := a.snapshots[snap.info.id := snap], made := a.made[snap.info.id := made], stats := stats,
       clients := a.clients[c := Idle], log := a.log + [entry])
  }

  datatype DatabaseError = UniqueViolation | TableExists | Other

  /** An attempt fails; the guard of the retry lets every unique violation through. */
  predicate FailStep(a: System, b: System, c: nat, error: DatabaseError, used: map<int, TableStats>, rest: string) {
    && c < |a.clients| && a.clients[c].Busy? && a.clients[c].phase.Attempting?
    && var client := a.clients[c];
       var retry := Retryable(error, client.attempt);
       var tried := SummaryOf(Outcome(client, used), client.changes, rest);
       b == a.(clients := a.clients[c := if retry then client.(phase := Failed, tried := tried) else Idle])
  }

  /** `get_latest` after a failure. */
  predicate RefreshStep(a: System, b: System, c: nat, head: Snap, i: nat) {
    && c < |a.clients| && a.clients[c].Busy? && a.clients[c].phase.Failed? && IsLatest(a.snapshots, head)
    && Acquire(a.cells, b.cells, head, i)
    && b == a.(cells := b.cells, clients := a.clients[c := a.clients[c].(latest := head, cell := i, phase := Checking)])
  }

  /** The change rows recorded for snapshots after the base, up to the refreshed one. */
  function Recorded(made: map<int, Summary>, base: int, latest: int): set<int> {
    set k | k in made && base < k <= latest
  }

  /** Check conflicts with the recorded changes, then try again, unless the attempts are used up. */
  predicate CheckStep(a: System, b: System, c: nat, rules: (string, string) -> bool) {
    && c < |a.clients| && a.clients[c].Busy? && a.clients[c].phase.Checking?
    && var client := a.clients[c];
       var ids := Recorded(a.made, client.base.info.id, client.latest.info.id);
       var conflict := exists k :: k in ids && Conflicts(client.tried, a.made[k], rules);
       b == a.(clients := a.clients[c :=
                 if conflict || client.attempt >= MAX_RETRIES then Idle
                 else client.(phase := Attempting, attempt := client.attempt + 1, checked := ids)])
  }

  /** Expiry deletes snapshots with their change rows, and statistics of tables no snapshot sees any more. */
  predicate ExpireStep(a: System, b: System, head: Snap, ids: set<int>, dead: set<int>) {
    && IsLatest(a.snapshots, head) && head.info.id !in ids
    && (forall k :: k in a.snapshots && k !in ids ==> a.snapshots[k].tables !! dead)
    && b == a.(snapshots := a.snapshots - ids, made := a.made - ids, stats := a.stats - dead,
               expired := a.expired + (ids * a.snapshots.Keys))
  }

  /** No snapshot newer than the base of an open transaction is expired. */
  predicate Polite(a: System, ids: set<int>) {
    forall c, k :: c in a.clients && c.Busy? && k in ids ==> k <= c.base.info.id
  }

  ghost predicate Step(a: System, b: System, rules: (string, string) -> bool) {
    || (exists c: nat, head, cs, i: nat :: BeginStep(a, b, c, head, cs, i))
    || (exists k: nat, i: nat :: ShareStep(a, b, k, i))
    || (exists i: nat :: LoadStep(a, b, i))
    || (exists c: nat, rest :: CommitStep(a, b, c, rest))
    || (exists c: nat, error, used, rest :: FailStep(a, b, c, error, used, rest))
    || (exists c: nat, head, i: nat :: RefreshStep(a, b, c, head, i))
    || (exists c: nat :: CheckStep(a, b, c, rules))
    || (exists head, ids, dead :: ExpireStep(a, b, head, ids, dead))
  }

  /** A step as the guarantees need it: expiry is polite, and no transaction is stale. */
  ghost predicate CarefulStep(a: System, b: System, rules: (string, string) -> bool) {
    || (exists c: nat, head, cs, i: nat :: BeginStep(a, b, c, head, cs, i) && !Stale(cs))
    || (exists k: nat, i: nat :: ShareStep(a, b, k, i))
    || (exists i: nat :: LoadStep(a, b, i))
    || (exists c: nat, rest :: CommitStep(a, b, c, rest))
    || (exists c: nat, error, used, rest :: FailStep(a, b, c, error, used, rest))
    || (exists c: nat, head, i: nat :: RefreshStep(a, b, c, head, i))
    || (exists c: nat :: CheckStep(a, b, c, rules))
    || (exists head, ids, dead :: ExpireStep(a, b, head, ids, dead) && Polite(a, ids))
  }

  /** A fresh lake, with clients that have not started. */
  ghost predicate Initial(s: System) {
    var snap := Snap(Catalog.SnapshotRow(0, 0, 1, 0), {});
    && s.snapshots == map[0 := snap] && s.made == map[0 := NOTHING] && s.stats == map[] && s.cells == [] && s.expired == {}
    && (forall c :: c in s.clients ==> c.Idle?)
    && s.log == [Entry(snap, 0, {}, NOTHING, NOTHING, map[], map[], [], [], [], [])]
  }

  ghost predicate Run(run: seq<System>, rules: (string, string) -> bool) {
    run != [] && Initial(run[0]) && forall i :: 0 <= i < |run| - 1 ==> Step(run[i], run[i + 1], rules)
  }

  ghost predicate CarefulRun(run: seq<System>, rules: (string, string) -> bool) {
    run != [] && Initial(run[0]) && forall i :: 0 <= i < |run| - 1 ==> CarefulStep(run[i], run[i + 1], rules)
  }

  // ----- the retry loop of one client -----

  /** What one attempt meets: success, or an error, the head read after it, and the conflict check's verdict. */
  datatype Answer = Accepted | Refused(error: DatabaseError, head: Snap, conflict: bool)

  datatype CommitResult =
    | Success(latest: Snap)
    | TransactionConflict
    | RetriesExceeded
    | Failure(error: DatabaseError)

  predicate Retryable(error: DatabaseError, attempt: int) {
    error.UniqueViolation? || (error.TableExists? && attempt < MAX_RETRIES)
  }

  /**
   * `Transaction::commit`: at most eleven attempts, the first from the transaction's own snapshot,
   * each later one from the head that was read before its conflict check.
   */
  method CommitLoop(base: Snap, answers: seq<Answer>) returns (result: CommitResult, attempts: nat)
    requires |answers| == 11
    ensures 1 <= attempts <= 11
    ensures forall j :: 0 <= j < attempts - 1 ==>
              && answers[j].Refused? && !answers[j].conflict
              && (answers[j].error.UniqueViolation? || (answers[j].error.TableExists? && j < 10))
    ensures answers[attempts - 1].Accepted? <==> result.Success?
    ensures result.Success? && attempts == 1 ==> result.latest == base
    ensures result.Success? && attempts > 1 ==> result.latest == answers[attempts - 2].head
    ensures result.RetriesExceeded? <==>
              forall j :: 0 <= j < 11 ==>
                && answers[j].Refused? && !answers[j].conflict
                && (answers[j].error.UniqueViolation? || (answers[j].error.TableExists? && j < 10))
    ensures result.RetriesExceeded? ==> answers[10].error.UniqueViolation?
    ensures result.TransactionConflict? <==>
              answers[attempts - 1].Refused? && answers[attempts - 1].conflict
              && (answers[attempts - 1].error.UniqueViolation?
                  || (answers[attempts - 1].error.TableExists? && attempts <= 10))
    ensures result.Failure? ==> answers[attempts - 1].Refused? && answers[attempts - 1].error == result.error
                                && (result.error.Other? || (result.error.TableExists? && attempts == 11))
  {
    var latest := base;
    attempts := 0;
    for i := 0 to MAX_RETRIES + 1
      invariant attempts == i
      invariant forall j :: 0 <= j < i ==>
                  && answers[j].Refused? && !answers[j].conflict
                  && (answers[j].error.UniqueViolation? || (answers[j].error.TableExists? && j < MAX_RETRIES))
      invariant latest == if i == 0 then base else answers[i - 1].head
    {
      attempts := attempts + 1;
      match answers[i]
      case Accepted =>
        assert !answers[i].Refused?;
        return Success(latest), attempts;
      case Refused(error, head, conflict) =>
        if !Retryable(error, i) {
          assert answers[i].Refused?;
          return Failure(error), attempts;
        }
        latest := head;
        if conflict {
          assert answers[i].conflict;
          return TransactionConflict, attempts;
        }
    }
    assert answers[MAX_RETRIES].error.UniqueViolation?;
    result := RetriesExceeded;
  }

  // ----- the invariant -----

  /** Statistics of the given tables agree, including which of them have a row. */
  predicate SameStats(x: map<int, TableStats>, y: map<int, TableStats>, tables: set<int>) {
    forall t :: t in tables ==> (t in x <==> t in y) && StatsOf(x, t) == StatsOf(y, t)
  }

  /** The ids are exactly those after `a`, up to `b`. */
  ghost predicate Covers(ids: set<int>, a: int, b: int) { forall k :: k in ids <==> a < k <= b }

  predicate Below(tables: set<int>, bound: int) { forall t :: t in tables ==> t < bound }

  function Last(log: seq<Entry>): Entry
    requires log != []
  {
    log[|log| - 1]
  }

  /** A commit allocated from exactly its predecessor, and was checked against all commits since its base. */
  ghost predicate Serialised(log: seq<Entry>, k: int, rules: (string, string) -> bool)
    requires 0 < k < |log|
  {
    var e, last := log[k], log[k - 1].snap;
    && e.snap.info.id == last.info.id + 1 == k
    && 0 <= e.base < k && Covers(e.checked, e.base, k - 1)
    && (forall j :: j in e.checked ==> !Conflicts(e.tried, log[j].made, rules))
    && last.info.schemaVersion <= e.snap.info.schemaVersion
    && last.info.nextCatalogId <= e.snap.info.nextCatalogId && last.info.nextFileId <= e.snap.info.nextFileId
    && e.catalogIds == Upto(last.info.nextCatalogId, e.snap.info.nextCatalogId)
    && (forall f :: f in e.fileIds ==> last.info.nextFileId <= f < e.snap.info.nextFileId)
    && (forall i, j :: 0 <= i < j < |e.fileIds| ==> e.fileIds[i] < e.fileIds[j])
    && KeyOf(e.snap.info) != KeyOf(last.info)
    && (e.made.inserted != {} ==> SameStats(e.used, log[k - 1].stats, last.tables))
    && (forall j :: e.base < j < k ==> !TablesConflict(e.made, log[j].made))
    && Below(e.made.inserted + e.made.altered + e.made.dropped, e.snap.info.nextCatalogId)
    && Below(e.snap.tables, e.snap.info.nextCatalogId)
    && (forall t :: t in last.tables ==> t in e.snap.tables || t in e.made.dropped)
    && (forall t :: t in e.snap.tables ==> t in last.tables || last.info.nextCatalogId <= t < e.snap.info.nextCatalogId)
  }

  ghost predicate LogInv(log: seq<Entry>, rules: (string, string) -> bool) {
    && log != []
    && log[0].snap == Snap(Catalog.SnapshotRow(0, 0, 1, 0), {}) && log[0].ranges == []
    && forall k :: 0 < k < |log| ==> Serialised(log, k, rules)
  }

  ghost predicate DatabaseInv(s: System) {
    && s.log != []
    && (forall k :: k in s.snapshots ==> 0 <= k < |s.log| && s.snapshots[k] == s.log[k].snap && s.snapshots[k].info.id == k)
    && |s.log| - 1 in s.snapshots
    && (forall k :: k in s.made ==> 0 <= k < |s.log| && s.made[k] == s.log[k].made)
    && (forall k :: k in s.snapshots ==> k in s.made)
    && SameStats(s.stats, Last(s.log).stats, Last(s.log).snap.tables)
    && Below(s.stats.Keys, Last(s.log).snap.info.nextCatalogId)
    && Below(Last(s.log).snap.tables, Last(s.log).snap.info.nextCatalogId)
  }

  ghost predicate At(log: seq<Entry>, snap: Snap) { 0 <= snap.info.id < |log| && log[snap.info.id].snap == snap }

  /** A cell loaded while its own snapshot was the head holds that snapshot's statistics. */
  ghost predicate CellInv(log: seq<Entry>, cell: Cell) {
    && At(log, cell.snap)
    && (cell.value.Some? ==>
          && cell.snap.info.id <= cell.at < |log|
          && (forall t :: t in cell.value.value ==> t in cell.snap.tables)
          && (cell.at == cell.snap.info.id ==> SameStats(cell.value.value, log[cell.at].stats, cell.snap.tables)))
  }

  /** The summary of a failed attempt names every known table the changes are about. */
  ghost predicate Names(tried: Summary, cs: seq<Change>) {
    && (forall c :: c in cs && (c.WriteDataFiles? || c.WriteInlineData?) && c.table.Existing? ==> c.table.id in tried.inserted)
    && (forall c :: c in cs && c.AlterTable? && c.table.Existing? ==> c.table.id in tried.altered)
    && (forall c :: c in cs && c.DropTable? && c.table.Existing? ==> c.table.id in tried.dropped)
  }

  ghost predicate ClientInv(s: System, client: Client, rules: (string, string) -> bool) {
    client.Busy? ==>
      && At(s.log, client.base) && At(s.log, client.latest) && client.base.info.id <= client.latest.info.id
      && (forall k :: client.base.info.id < k < |s.log| ==> k in s.snapshots)
      && ValidChanges(client.changes, client.base.tables) && !Stale(client.changes)
      && client.cell < |s.cells| && KeyOf(s.cells[client.cell].snap.info) == KeyOf(client.latest.info)
      && (client.phase.Attempting? ==>
            && Covers(client.checked, client.base.info.id, client.latest.info.id)
            && (client.checked != {} ==> Names(client.tried, client.changes))
            && forall k :: k in client.checked ==> !Conflicts(client.tried, s.log[k].made, rules))
      && (!client.phase.Attempting? ==> Names(client.tried, client.changes))
  }

  ghost predicate Inv(s: System, rules: (string, string) -> bool) {
    && LogInv(s.log, rules) && DatabaseInv(s)
    && (forall c :: c in s.cells ==> CellInv(s.log, c))
    && (forall c :: c in s.clients ==> ClientInv(s, c, rules))
  }

  // ----- consequences of the invariant -----

  lemma {:induction false} LogIncreases(log: seq<Entry>, rules: (string, string) -> bool, i: int, j: int)
    requires LogInv(log, rules) && 0 <= i <= j < |log|
    ensures log[i].snap.info.schemaVersion <= log[j].snap.info.schemaVersion
    ensures log[i].snap.info.nextFileId <= log[j].snap.info.nextFileId
    ensures log[i].snap.info.nextCatalogId <= log[j].snap.info.nextCatalogId
    ensures i < j ==> KeyOf(log[i].snap.info) != KeyOf(log[j].snap.info)
    decreases j
  {
    hide Conflicts, Covers, Upto;
    if i < j {
      LogIncreases(log, rules, i, j - 1);
      assert Serialised(log, j, rules);
    }
  }

  lemma {:induction false} TableStays(log: seq<Entry>, rules: (string, string) -> bool, i: int, j: int, t: int)
    requires LogInv(log, rules) && 0 <= i <= j < |log|
    requires t in log[i].snap.tables && forall k :: i < k <= j ==> t !in log[k].made.dropped
    ensures t in log[j].snap.tables
    decreases j
  {
    hide Conflicts, Covers, Upto;
    if i < j {
      TableStays(log, rules, i, j - 1, t);
      assert Serialised(log, j, rules);
    }
  }

  /** A successful attempt started from the latest snapshot: its predecessor's slot chain is intact. */
  lemma CommitIsFromHead(a: System, b: System, c: nat, rest: string, rules: (string, string) -> bool)
    requires Inv(a, rules) && CommitStep(a, b, c, rest)
    ensures a.clients[c].latest.info.id == |a.log| - 1
    ensures a.clients[c].latest == Last(a.log).snap
  {
    hide Outcome, NextSnap, PersistStats, SummaryOf, LogInv, DatabaseInv, CellInv, ValidChanges, Conflicts, Stale;
    var client := a.clients[c];
    assert ClientInv(a, client, rules);
  }

  /** The statistics a successful attempt used are those of its predecessor. */
  lemma CommitUsesHeadStats(a: System, b: System, c: nat, rest: string, rules: (string, string) -> bool)
    requires Inv(a, rules) && CommitStep(a, b, c, rest) && RequiresStats(a.clients[c].changes)
    ensures
      var used := Loaded(a.clients[c], a.cells).value;
      var head := Last(a.log);
      SameStats(used, head.stats, head.snap.tables) && forall t :: t in used ==> t in head.snap.tables
  {
    hide Outcome, NextSnap, PersistStats, SummaryOf, DatabaseInv, ValidChanges, Conflicts, Stale, Serialised, SameStats;
    CommitIsFromHead(a, b, c, rest, rules);
    var client := a.clients[c];
    assert ClientInv(a, client, rules);
    var cell := a.cells[client.cell];
    assert cell in a.cells && CellInv(a.log, cell);
    LogIncreases(a.log, rules, cell.snap.info.id, |a.log| - 1);
  }

  // ----- frames -----

  lemma ClientOver(a: System, b: System, client: Client, rules: (string, string) -> bool)
    requires ClientInv(a, client, rules) && a.log <= b.log
    requires |a.cells| <= |b.cells| && forall i :: 0 <= i < |a.cells| ==> b.cells[i].snap == a.cells[i].snap
    requires client.Busy? ==> forall k :: client.base.info.id < k < |b.log| ==> k in b.snapshots
    ensures ClientInv(b, client, rules)
  {
    hide ValidChanges, Stale, Names, Conflicts;
  }

  lemma CellsOver(before: seq<Entry>, after: seq<Entry>, cells: seq<Cell>)
    requires before <= after && forall c :: c in cells ==> CellInv(before, c)
    ensures forall c :: c in cells ==> CellInv(after, c)
  {
    hide SameStats;
    forall c | c in cells ensures CellInv(after, c) {
      assert CellInv(before, c);
    }
  }

  /** Replacing one client keeps the others' invariant. */
  lemma ClientsOver(a: System, b: System, c: nat, next: Client, rules: (string, string) -> bool)
    requires forall x :: x in a.clients ==> ClientInv(a, x, rules)
    requires a.log == b.log && a.snapshots == b.snapshots
    requires |a.cells| <= |b.cells| && forall i :: 0 <= i < |a.cells| ==> b.cells[i].snap == a.cells[i].snap
    requires c < |a.clients| && b.clients == a.clients[c := next] && ClientInv(b, next, rules)
    ensures forall x :: x in b.clients ==> ClientInv(b, x, rules)
  {
    hide ValidChanges, Stale, Names, Conflicts;
    forall x | x in b.clients ensures ClientInv(b, x, rules) {
      if x != next {
        assert x in a.clients;
        ClientOver(a, b, x, rules);
      }
    }
  }

  lemma LatestIsLast(s: System, head: Snap)
    requires DatabaseInv(s) && IsLatest(s.snapshots, head)
    ensures head == Last(s.log).snap && head.info.id == |s.log| - 1 && At(s.log, head)
  {
    hide SameStats, Below;
  }

  lemma Acquired(log: seq<Entry>, before: seq<Cell>, after: seq<Cell>, head: Snap, i: nat)
    requires Acquire(before, after, head, i) && At(log, head) && forall c :: c in before ==> CellInv(log, c)
    ensures forall c :: c in after ==> CellInv(log, c)
    ensures |before| <= |after| && forall k :: 0 <= k < |before| ==> after[k].snap == before[k].snap
    ensures i < |after| && KeyOf(after[i].snap.info) == KeyOf(head.info)
  {
    hide SameStats;
  }

  // ----- each step keeps the invariant -----

  lemma BeginKeeps(a: System, b: System, c: nat, head: Snap, cs: seq<Change>, i: nat, rules: (string, string) -> bool)
    requires Inv(a, rules) && BeginStep(a, b, c, head, cs, i) && !Stale(cs)
    ensures Inv(b, rules)
  {
    hide Stale, ValidChanges, Conflicts, LogInv, SameStats, Below, CellInv, Acquire;
    LatestIsLast(a, head);
    Acquired(a.log, a.cells, b.cells, head, i);
    ClientsOver(a, b, c, b.clients[c], rules);
  }

  lemma ShareKeeps(a: System, b: System, k: nat, i: nat, rules: (string, string) -> bool)
    requires Inv(a, rules) && ShareStep(a, b, k, i)
    ensures Inv(b, rules)
  {
    hide Stale, ValidChanges, Conflicts, SameStats, Below, CellInv, Acquire, Names, Upto;
    if k > 0 { assert Serialised(a.log, k, rules); }
    assert At(a.log, a.log[k].snap);
    Acquired(a.log, a.cells, b.cells, a.log[k].snap, i);
    forall x | x in b.clients ensures ClientInv(b, x, rules) {
      assert ClientInv(a, x, rules);
      ClientOver(a, b, x, rules);
    }
  }

  lemma LoadKeeps(a: System, b: System, i: nat, rules: (string, string) -> bool)
    requires Inv(a, rules) && LoadStep(a, b, i)
    ensures Inv(b, rules)
  {
    hide Stale, ValidChanges, Conflicts, LogInv, Names;
    forall x | x in b.clients ensures ClientInv(b, x, rules) {
      assert ClientInv(a, x, rules);
      ClientOver(a, b, x, rules);
    }
    assert a.cells[i] in a.cells && CellInv(a.log, a.cells[i]);
    assert CellInv(b.log, b.cells[i]);
    forall x | x in b.cells ensures CellInv(b.log, x) {
      if x != b.cells[i] { assert x in a.cells; }
    }
  }

  lemma TriedNames(client: Client, used: map<int, TableStats>, rest: string)
    requires client.Busy?
    ensures Names(SummaryOf(Outcome(client, used), client.changes, rest), client.changes)
  {
    hide Outcome;
    var out := Outcome(client, used);
    assert forall ref: TableRef :: ref.Existing? ==> IdOf(out, ref) == ref.id;
  }

  lemma FailKeeps(a: System, b: System, c: nat, error: DatabaseError, used: map<int, TableStats>, rest: string,
                  rules: (string, string) -> bool)
    requires Inv(a, rules) && FailStep(a, b, c, error, used, rest)
    ensures Inv(b, rules)
  {
    hide Stale, ValidChanges, Conflicts, LogInv, SameStats, Below, CellInv, Outcome, SummaryOf, Names;
    assert ClientInv(a, a.clients[c], rules);
    TriedNames(a.clients[c], used, rest);
    ClientsOver(a, b, c, b.clients[c], rules);
  }

  lemma RefreshKeeps(a: System, b: System, c: nat, head: Snap, i: nat, rules: (string, string) -> bool)
    requires Inv(a, rules) && RefreshStep(a, b, c, head, i)
    ensures Inv(b, rules)
  {
    hide Stale, ValidChanges, Conflicts, LogInv, SameStats, Below, CellInv, Acquire, Names;
    assert ClientInv(a, a.clients[c], rules);
    LatestIsLast(a, head);
    Acquired(a.log, a.cells, b.cells, head, i);
    ClientsOver(a, b, c, b.clients[c], rules);
  }

  lemma CheckKeeps(a: System, b: System, c: nat, rules: (string, string) -> bool)
    requires Inv(a, rules) && CheckStep(a, b, c, rules)
    ensures Inv(b, rules)
  {
    hide Stale, ValidChanges, Conflicts, LogInv, SameStats, Below, CellInv, Names;
    assert ClientInv(a, a.clients[c], rules);
    ClientsOver(a, b, c, b.clients[c], rules);
  }

  lemma ExpireKeeps(a: System, b: System, head: Snap, ids: set<int>, dead: set<int>, rules: (string, string) -> bool)
    requires Inv(a, rules) && ExpireStep(a, b, head, ids, dead) && Polite(a, ids)
    ensures Inv(b, rules)
  {
    hide Stale, ValidChanges, Conflicts, LogInv, CellInv, Names;
    LatestIsLast(a, head);
    forall x | x in b.clients ensures ClientInv(b, x, rules) {
      assert ClientInv(a, x, rules);
      ClientOver(a, b, x, rules);
    }
    assert Last(b.log).snap.tables !! dead;
  }

  // ----- the commit step -----

  lemma NotDropped(mine: Summary, theirs: Summary, rules: (string, string) -> bool, t: int)
    requires !Conflicts(mine, theirs, rules) && t in mine.inserted
    ensures t !in theirs.dropped
  {
    var clash := mine.inserted * (theirs.dropped + theirs.altered);
    assert t !in clash;
  }

  /** Tables that a successful attempt wrote to exist at its predecessor, or were created by it. */
  lemma WrittenKnown(a: System, b: System, c: nat, rest: string, rules: (string, string) -> bool, t: int)
    requires Inv(a, rules) && CommitStep(a, b, c, rest)
    requires t in Outcome(a.clients[c], Loaded(a.clients[c], a.cells).value).written
    ensures
      var last := Last(a.log).snap;
      t in last.tables
      || last.info.nextCatalogId <= t < Outcome(a.clients[c], Loaded(a.clients[c], a.cells).value).nextCatalogId
  {
    hide NextSnap, PersistStats, SummaryOf, DatabaseInv, CellInv, Stale, LogInv, ApplyAll, ChangesSchema, SameStats;
    CommitIsFromHead(a, b, c, rest, rules);
    var client := a.clients[c];
    assert ClientInv(a, client, rules);
    var start := Start(client.latest.info.nextCatalogId, client.latest.info.nextFileId, Loaded(client, a.cells).value);
    WrittenTables(start, client.changes, t);
    if w :| w in client.changes && (w.WriteDataFiles? || w.WriteInlineData?) && w.table == Existing(t) {
      assert TableOf(w) == Some(Existing(t));
      forall k | client.base.info.id < k <= client.latest.info.id ensures t !in a.log[k].made.dropped {
        assert k in client.checked && t in client.tried.inserted;
        NotDropped(client.tried, a.log[k].made, rules, t);
      }
      TableStays(a.log, rules, client.base.info.id, client.latest.info.id, t);
    }
  }

  /** The ids in a commit's summary: known tables named by the changes, or ids it has just taken. */
  lemma SummaryIds(client: Client, used: map<int, TableStats>, c: Change)
    requires client.Busy? && c in client.changes && TableOf(c).Some?
    ensures
      var out := Outcome(client, used);
      TableOf(c).value.Existing?
      || client.latest.info.nextCatalogId <= IdOf(out, TableOf(c).value) < out.nextCatalogId
  {
    hide ApplyAll, RowsFollow, OthersKeepStats, InlineWithoutFiles;
    var start := Start(client.latest.info.nextCatalogId, client.latest.info.nextFileId, used);
    ApplyAllFollows(start, client.changes, 0);
    if TableOf(c).value.Created? {
      CreatedResolved(start, client.changes, c, TableOf(c).value.number);
    }
  }

  predicate Writes(c: Change, t: int) { (c.WriteDataFiles? || c.WriteInlineData?) && c.table == Existing(t) }

  predicate Alters(c: Change, t: int) { c.AlterTable? && c.table == Existing(t) }

  predicate Drops(c: Change, t: int) { c.DropTable? && c.table == Existing(t) }

  /** A table id of a summary is one the changes name, or one between `from` and `to`. */
  ghost predicate Named(made: Summary, cs: seq<Change>, from: int, to: int, t: int) {
    && (t in made.inserted ==> from <= t < to || exists c :: c in cs && Writes(c, t))
    && (t in made.altered ==> from <= t < to || exists c :: c in cs && Alters(c, t))
    && (t in made.dropped ==> from <= t < to || exists c :: c in cs && Drops(c, t))
  }

  /** A commit's summary names known tables by the ids the changes name, other tables by new ids. */
  lemma MadeIds(client: Client, used: map<int, TableStats>, rest: string, t: int)
    requires client.Busy?
    ensures
      var out := Outcome(client, used);
      Named(SummaryOf(out, client.changes, rest), client.changes, client.latest.info.nextCatalogId, out.nextCatalogId, t)
  {
    hide Outcome;
    var out := Outcome(client, used);
    var made := SummaryOf(out, client.changes, rest);
    if t in made.inserted {
      var c :| c in client.changes && (c.WriteDataFiles? || c.WriteInlineData?) && IdOf(out, c.table) == t;
      SummaryIds(client, used, c);
    }
    if t in made.altered {
      var c :| c in client.changes && c.AlterTable? && IdOf(out, c.table) == t;
      SummaryIds(client, used, c);
    }
    if t in made.dropped {
      var c :| c in client.changes && c.DropTable? && IdOf(out, c.table) == t;
      SummaryIds(client, used, c);
    }
  }

  /** What `made` says about a table, `tried` said as well. */
  predicate NamedIn(made: Summary, tried: Summary, t: int) {
    && (t in made.inserted ==> t in tried.inserted) && (t in made.altered ==> t in tried.altered)
    && (t in made.dropped ==> t in tried.dropped)
  }

  /** Every table id in a set of ids is known to `mine`, or newer than all of `theirs`. */
  lemma NoClash(made: Summary, tried: Summary, theirs: Summary, rules: (string, string) -> bool, bound: int)
    requires !Conflicts(tried, theirs, rules)
    requires Below(theirs.inserted + theirs.altered + theirs.dropped, bound)
    requires forall t :: t < bound ==> NamedIn(made, tried, t)
    ensures !TablesConflict(made, theirs)
  {
    var all := theirs.inserted + theirs.altered + theirs.dropped;
    assert forall t :: t in theirs.dropped + theirs.altered ==> t in all;
    forall t | t in made.inserted ensures t !in theirs.dropped + theirs.altered {
      assert t < bound ==> NamedIn(made, tried, t);
      var clash := tried.inserted * (theirs.dropped + theirs.altered);
      assert t !in clash;
    }
    forall t | t in made.dropped ensures t !in theirs.dropped {
      assert t < bound ==> NamedIn(made, tried, t);
      var clash := tried.dropped * theirs.dropped;
      assert t !in clash;
    }
    forall t | t in made.altered ensures t !in theirs.altered + theirs.dropped {
      assert t < bound ==> NamedIn(made, tried, t);
      var clash := tried.altered * (theirs.altered + theirs.dropped);
      assert t !in clash;
    }
  }

  /** What a commit changed conflicts with no commit made since its transaction began. */
  lemma MadeConflictsWithNone(a: System, b: System, c: nat, rest: string, rules: (string, string) -> bool, j: int)
    requires Inv(a, rules) && CommitStep(a, b, c, rest)
    requires 0 < j < |a.log| && a.clients[c].base.info.id < j
    ensures !TablesConflict(Last(b.log).made, a.log[j].made)
  {
    hide PersistStats, CellInv, SameStats, Stale, Outcome, SummaryOf, NextSnap, Conflicts, Upto, ValidChanges;
    CommitIsFromHead(a, b, c, rest, rules);
    var client := a.clients[c];
    assert ClientInv(a, client, rules) && j in client.checked;
    var used := Loaded(client, a.cells).value;
    forall t | t < client.latest.info.nextCatalogId ensures NamedIn(Last(b.log).made, client.tried, t) {
      MadeIds(client, used, rest, t);
    }
    assert Serialised(a.log, j, rules);
    LogIncreases(a.log, rules, j, |a.log| - 1);
    NoClash(Last(b.log).made, client.tried, a.log[j].made, rules, client.latest.info.nextCatalogId);
  }

  lemma MadeBelow(a: System, b: System, c: nat, rest: string, rules: (string, string) -> bool)
    requires Inv(a, rules) && CommitStep(a, b, c, rest)
    ensures
      var made := Last(b.log).made;
      Below(made.inserted + made.altered + made.dropped, Last(b.log).snap.info.nextCatalogId)
  {
    hide PersistStats, CellInv, SameStats, Stale, Attempt, SummaryOf, Conflicts, Upto, RowsFollow, OthersKeepStats, InlineWithoutFiles,
         Wrote, CreatedIds, TablesConflict, Covers;
    CommitIsFromHead(a, b, c, rest, rules);
    var client := a.clients[c];
    assert ClientInv(a, client, rules);
    var used := Loaded(client, a.cells).value;
    AttemptFollows(Start(client.latest.info.nextCatalogId, client.latest.info.nextFileId, used), client.changes, 0);
    LogIncreases(a.log, rules, client.base.info.id, |a.log| - 1);
    if client.base.info.id > 0 { assert Serialised(a.log, client.base.info.id, rules); }
    var made := Last(b.log).made;
    assert Below(client.base.tables, client.base.info.nextCatalogId);
    forall t | t in made.inserted + made.altered + made.dropped ensures t < Last(b.log).snap.info.nextCatalogId {
      MadeIds(client, used, rest, t);
      assert forall x :: x in client.changes && TableOf(x) == Some(Existing(t)) ==> t < client.base.info.nextCatalogId;
    }
  }

  /** The new entry extends the log by a serialised commit. */
  lemma CommitSerialised(a: System, b: System, c: nat, rest: string, rules: (string, string) -> bool)
    requires Inv(a, rules) && CommitStep(a, b, c, rest)
    ensures Serialised(b.log, |a.log|, rules)
  {
    hide PersistStats, CellInv, LogInv, ApplyAll, SameStats, IdsFollow, TablesConflict, RowsFollow, OthersKeepStats, Attempt, Conflicts, Names;
    CommitIsFromHead(a, b, c, rest, rules);
    var client := a.clients[c];
    assert ClientInv(a, client, rules);
    var used := Loaded(client, a.cells).value;
    var out := Outcome(client, used);
    AttemptFollows(Start(client.latest.info.nextCatalogId, client.latest.info.nextFileId, used), client.changes, 0);
    CommitMovesKey(client, used);
    CreatedFresh(client, used);
    if RequiresStats(client.changes) { CommitUsesHeadStats(a, b, c, rest, rules); }
    MadeBelow(a, b, c, rest, rules);
    forall j | 0 < j < |a.log| && client.base.info.id < j ensures !TablesConflict(Last(b.log).made, b.log[j].made) {
      MadeConflictsWithNone(a, b, c, rest, rules, j);
    }
    var e := b.log[|a.log|];
    assert forall j :: j in e.checked ==> b.log[j] == a.log[j];
  }

  lemma CommitMovesKey(client: Client, used: map<int, TableStats>)
    requires client.Busy? && client.changes != [] && !Stale(client.changes)
    ensures KeyOf(NextSnap(client, Outcome(client, used)).info) != KeyOf(client.latest.info)
  {
    hide Attempt, Stale, SummaryOf;
    if RequiresStats(client.changes) {
      StatsKeyMovesIff(Start(client.latest.info.nextCatalogId, client.latest.info.nextFileId, used), client.changes);
    } else {
      assert client.changes[0] in client.changes;
    }
  }

  lemma CreatedFresh(client: Client, used: map<int, TableStats>)
    requires client.Busy?
    ensures
      var out := Outcome(client, used);
      forall t :: t in CreatedIds(out, client.changes) ==> client.latest.info.nextCatalogId <= t < out.nextCatalogId
  {
    hide ApplyAll, RowsFollow, OthersKeepStats, InlineWithoutFiles;
    var start := Start(client.latest.info.nextCatalogId, client.latest.info.nextFileId, used);
    ApplyAllFollows(start, client.changes, 0);
    forall n | n in CreatedTables(client.changes) ensures n in Outcome(client, used).resolved {
      var c :| c in client.changes && c.CreateTable? && c.number == n;
      CreatedResolved(start, client.changes, c, n);
    }
  }

  lemma NewTablesKnown(a: System, b: System, c: nat, rest: string, rules: (string, string) -> bool)
    requires Inv(a, rules) && CommitStep(a, b, c, rest)
    ensures Below(Last(b.log).snap.tables, Last(b.log).snap.info.nextCatalogId)
    ensures Below(b.stats.Keys, Last(b.log).snap.info.nextCatalogId)
  {
    hide CellInv, LogInv, ApplyAll, SameStats, Attempt, Conflicts, Names, Stale, ClientInv, SummaryOf, Wrote, Upto, Covers,
         TablesConflict, KeyOf, CreatedIds;
    CommitSerialised(a, b, c, rest, rules);
    var client := a.clients[c];
    var used := Loaded(client, a.cells).value;
    forall t | t in Outcome(client, used).written ensures t < Last(b.log).snap.info.nextCatalogId {
      WrittenKnown(a, b, c, rest, rules, t);
    }
  }

  lemma CommitDatabase(a: System, b: System, c: nat, rest: string, rules: (string, string) -> bool)
    requires Inv(a, rules) && CommitStep(a, b, c, rest)
    ensures DatabaseInv(b)
  {
    hide CellInv, LogInv, Conflicts, Names, Stale, ClientInv, SummaryOf, Outcome, PersistStats;
    CommitIsFromHead(a, b, c, rest, rules);
    NewTablesKnown(a, b, c, rest, rules);
  }

  lemma CommitKeeps(a: System, b: System, c: nat, rest: string, rules: (string, string) -> bool)
    requires Inv(a, rules) && CommitStep(a, b, c, rest)
    ensures Inv(b, rules)
  {
    hide CellInv, Conflicts, Names, Stale, SummaryOf, Outcome, PersistStats, DatabaseInv, NextSnap;
    CommitSerialised(a, b, c, rest, rules);
    CommitDatabase(a, b, c, rest, rules);
    CellsOver(a.log, b.log, a.cells);
    CommitLog(a.log, b.log, rules);
    CommitIsFromHead(a, b, c, rest, rules);
    forall x | x in b.clients ensures ClientInv(b, x, rules) {
      if x.Busy? {
        assert x in a.clients && ClientInv(a, x, rules);
        ClientOver(a, b, x, rules);
      }
    }
  }

  lemma CommitLog(before: seq<Entry>, after: seq<Entry>, rules: (string, string) -> bool)
    requires LogInv(before, rules) && |after| == |before| + 1 && before <= after && Serialised(after, |before|, rules)
    ensures LogInv(after, rules)
  {
    hide Conflicts, Upto;
    forall k | 0 < k < |after| ensures Serialised(after, k, rules) {
      if k < |before| {
        assert Serialised(before, k, rules);
        assert after[k] == before[k] && after[k - 1] == before[k - 1];
        assert forall j :: 0 <= j < k ==> after[j] == before[j];
      }
    }
  }

  lemma StepKeeps(a: System, b: System, rules: (string, string) -> bool)
    requires Inv(a, rules) && CarefulStep(a, b, rules)
    ensures Inv(b, rules)
  {
    hide Inv, BeginStep, ShareStep, LoadStep, CommitStep, FailStep, RefreshStep, CheckStep, ExpireStep, Stale, Polite;
    if c: nat, head, cs, i: nat :| BeginStep(a, b, c, head, cs, i) && !Stale(cs) {
      BeginKeeps(a, b, c, head, cs, i, rules);
    } else if k: nat, i: nat :| ShareStep(a, b, k, i) {
      ShareKeeps(a, b, k, i, rules);
    } else if i: nat :| LoadStep(a, b, i) {
      LoadKeeps(a, b, i, rules);
    } else if c: nat, rest :| CommitStep(a, b, c, rest) {
      CommitKeeps(a, b, c, rest, rules);
    } else if c: nat, error, used, rest :| FailStep(a, b, c, error, used, rest) {
      FailKeeps(a, b, c, error, used, rest, rules);
    } else if c: nat, head, i: nat :| RefreshStep(a, b, c, head, i) {
      RefreshKeeps(a, b, c, head, i, rules);
    } else if c: nat :| CheckStep(a, b, c, rules) {
      CheckKeeps(a, b, c, rules);
    } else {
      var head, ids, dead :| ExpireStep(a, b, head, ids, dead) && Polite(a, ids);
      ExpireKeeps(a, b, head, ids, dead, rules);
    }
  }

  lemma {:induction false} RunKeeps(run: seq<System>, rules: (string, string) -> bool, i: nat)
    requires CarefulRun(run, rules) && i < |run|
    ensures Inv(run[i], rules)
  {
    hide CarefulStep;
    if i > 0 {
      RunKeeps(run, rules, i - 1);
      assert CarefulStep(run[i - 1], run[i - 1 + 1], rules);
      StepKeeps(run[i - 1], run[i], rules);
    }
  }

  // ----- row ids -----

  /** All row ranges ever given to a table, in commit order. */
  function RangesOf(log: seq<Entry>, t: int): seq<RowRange> {
    if log == [] then [] else RangesOf(log[..|log| - 1], t) + Filter(OfTable(t), Last(log).ranges)
  }

  /** The ranges of a table are contiguous from 0, and its statistics continue them and count their rows. */
  ghost predicate RowsOf(log: seq<Entry>, t: int)
    requires log != []
  {
    && Contiguous(RangesOf(log, t), 0)
    && (t in Last(log).snap.tables ==>
          StatsOf(Last(log).stats, t) == TableStats(Rows(RangesOf(log, t)), Some(Rows(RangesOf(log, t)))))
    && (t >= Last(log).snap.info.nextCatalogId ==> RangesOf(log, t) == [])
  }

  /** What an attempt gives to a table follows the statistics it used. */
  lemma AttemptRows(client: Client, used: map<int, TableStats>, t: int)
    requires client.Busy?
    ensures
      var out := Outcome(client, used);
      var added := Filter(OfTable(t), out.ranges);
      && Contiguous(added, StatsOf(used, t).nextRowId)
      && StatsOf(out.stats, t).nextRowId == StatsOf(used, t).nextRowId + Rows(added)
      && StatsOf(out.stats, t).recordCount == Counted(StatsOf(used, t).recordCount, added)
      && (t !in out.written ==> StatsOf(out.stats, t) == StatsOf(used, t) && (t in out.stats <==> t in used))
  {
    hide Attempt, InlineWithoutFiles, IdsFollow;
    var start := Start(client.latest.info.nextCatalogId, client.latest.info.nextFileId, used);
    AttemptFollows(start, client.changes, t);
    var out := Outcome(client, used);
    assert out.ranges[|start.ranges|..] == out.ranges;
  }

  /** The row of a table after the commit: what the attempt counted if it wrote to it, else unchanged. */
  lemma PersistedStats(a: System, b: System, c: nat, rest: string, rules: (string, string) -> bool, t: int)
    requires Inv(a, rules) && CommitStep(a, b, c, rest)
    requires t in Last(b.log).snap.tables
    ensures
      var used := Loaded(a.clients[c], a.cells).value;
      var out := Outcome(a.clients[c], used);
      && (t in out.written ==> StatsOf(b.stats, t) == StatsOf(out.stats, t))
      && (t !in out.written ==> StatsOf(b.stats, t) == StatsOf(a.stats, t))
  {
    hide CellInv, LogInv, Conflicts, Names, Stale, ClientInv, SummaryOf, Outcome, Below;
    CommitIsFromHead(a, b, c, rest, rules);
    var client := a.clients[c];
    var used := Loaded(client, a.cells).value;
    if t in used && t in Outcome(client, used).written {
      CommitUsesHeadStats(a, b, c, rest, rules);
    }
  }

  /** The statistics an attempt used for a table continue the table's ranges. */
  lemma UsedContinues(a: System, b: System, c: nat, rest: string, rules: (string, string) -> bool, t: int)
    requires Inv(a, rules) && CommitStep(a, b, c, rest) && RowsOf(a.log, t)
    requires t in Outcome(a.clients[c], Loaded(a.clients[c], a.cells).value).written
    ensures StatsOf(Loaded(a.clients[c], a.cells).value, t)
         == TableStats(Rows(RangesOf(a.log, t)), Some(Rows(RangesOf(a.log, t))))
  {
    hide CellInv, LogInv, Conflicts, Names, Stale, ClientInv, SummaryOf, PersistStats, NextSnap, Contiguous;
    var client := a.clients[c];
    var used := Loaded(client, a.cells).value;
    WritingNeedsStats(client, used);
    CommitUsesHeadStats(a, b, c, rest, rules);
    WrittenKnown(a, b, c, rest, rules, t);
  }

  lemma WritingNeedsStats(client: Client, used: map<int, TableStats>)
    requires client.Busy?
    ensures Outcome(client, used).written != {} ==> RequiresStats(client.changes)
  {
    hide ApplyAll, InlineWithoutFiles;
    var start := Start(client.latest.info.nextCatalogId, client.latest.info.nextFileId, used);
    if !RequiresStats(client.changes) {
      NothingWritten(start, client.changes);
    }
  }

  /**
   * A commit updates the statistics rows that are there and inserts the others: whether a table's
   * statistics were loaded says whether the table has a row.
   */
  lemma StatsRowsMatch(a: System, b: System, c: nat, rest: string, rules: (string, string) -> bool, t: int)
    requires Inv(a, rules) && CommitStep(a, b, c, rest)
    requires t in Outcome(a.clients[c], Loaded(a.clients[c], a.cells).value).written
    ensures t in Loaded(a.clients[c], a.cells).value <==> t in a.stats
  {
    hide NextSnap, PersistStats, SummaryOf, Outcome, CellInv, ClientInv, LogInv, RequiresStats;
    CommitIsFromHead(a, b, c, rest, rules);
    WritingNeedsStats(a.clients[c], Loaded(a.clients[c], a.cells).value);
    CommitUsesHeadStats(a, b, c, rest, rules);
    WrittenKnown(a, b, c, rest, rules, t);
  }

  lemma {:induction false} NothingWritten(a: Allocation, cs: seq<Change>)
    requires !RequiresStats(cs)
    ensures ApplyAll(a, cs).written == a.written
    decreases cs
  {
    hide IdsFollow, RowsFollow, OthersKeepStats, ApplyChange;
    if cs != [] {
      assert cs[0] in cs;
      ApplyChangeFollows(a, cs[0], 0);
      NothingWritten(ApplyChange(a, cs[0]), cs[1..]);
    }
  }

  lemma CommitRows(a: System, b: System, c: nat, rest: string, rules: (string, string) -> bool, t: int)
    requires Inv(a, rules) && CommitStep(a, b, c, rest) && RowsOf(a.log, t)
    ensures b.log != [] && RowsOf(b.log, t)
  {
    hide Inv, Committed, Outcome, Contiguous, Rows, StatsOf, Filter;
    var client := a.clients[c];
    var used := Loaded(client, a.cells).value;
    var out := Outcome(client, used);
    var before, added := RangesOf(a.log, t), Filter(OfTable(t), out.ranges);
    NewEntry(a, b, c, rest, rules, t);
    assert b.log[..|b.log| - 1] == a.log;
    assert RangesOf(b.log, t) == before + added;
    ContiguousAppend(before, added, 0);
    AttemptRows(client, used, t);
    if t in out.written {
      UsedContinues(a, b, c, rest, rules, t);
    } else {
      UnwrittenRows(client, used, t);
      assert before + [] == before;
    }
    if t in Last(b.log).snap.tables {
      PersistedStats(a, b, c, rest, rules, t);
    }
    NoStats();
  }

  lemma NoStats()
    ensures NO_STATS == TableStats(Rows([]), Some(Rows([])))
  {
  }

  /** An attempt gives row ids only to tables it records as written. */
  lemma UnwrittenRows(client: Client, used: map<int, TableStats>, t: int)
    requires client.Busy? && t !in Outcome(client, used).written
    ensures Filter(OfTable(t), Outcome(client, used).ranges) == []
  {
    hide ApplyAll, InlineWithoutFiles;
    RangesWritten(Start(client.latest.info.nextCatalogId, client.latest.info.nextFileId, used), client.changes, t);
  }

  lemma {:induction false} RangesWritten(a: Allocation, cs: seq<Change>, t: int)
    requires t !in ApplyAll(a, cs).written
    ensures Filter(OfTable(t), ApplyAll(a, cs).ranges) == Filter(OfTable(t), a.ranges)
    decreases cs
  {
    hide IdsFollow, RowsFollow, OthersKeepStats, ApplyChange;
    if cs != [] {
      var b := ApplyChange(a, cs[0]);
      ApplyAllWrites(b, cs[1..]);
      RangesWritten(b, cs[1..], t);
      ChangeRanges(a, cs[0], t);
    }
  }

  lemma ApplyAllWrites(a: Allocation, cs: seq<Change>)
    ensures a.written <= ApplyAll(a, cs).written
  {
    hide IdsFollow, RowsFollow, ApplyAll;
    ApplyAllFollows(a, cs, 0);
  }

  lemma ChangeRanges(a: Allocation, c: Change, t: int)
    requires t !in ApplyChange(a, c).written
    ensures Filter(OfTable(t), ApplyChange(a, c).ranges) == Filter(OfTable(t), a.ranges)
  {
    hide WriteFiles, WriteBatches, TakeCatalogIds;
    match c {
      case CreateTable(number, n) => TakeCatalogIdsFollow(Resolve(a, TableRef.Created(number)), n);
      case AlterTable(table, n) => TakeCatalogIdsFollow(Resolve(a, table), n);
      case DropTable(table) =>
      case OtherObject(n) => TakeCatalogIdsFollow(a, n);
      case WriteDataFiles(table, files) => FilesRanges(Resolve(a, table), IdOf(a, table), files, t);
      case WriteInlineData(table, batches) => BatchesRanges(Resolve(a, table), IdOf(a, table), batches, t);
    }
  }

  lemma {:induction false} FilesRanges(a: Allocation, id: int, files: seq<DataFile>, t: int)
    requires t != id
    ensures Filter(OfTable(t), WriteFiles(a, id, files).ranges) == Filter(OfTable(t), a.ranges)
    decreases files
  {
    if files != [] {
      var b := TakeRows(TakeFileId(a), id, files[0].rows);
      TakeFileIdsFollow(b, files[0].deleteFiles);
      FilterAppend(OfTable(t), a.ranges, [RowRange(id, StatsOf(a.stats, id).nextRowId, files[0].rows)]);
      FilesRanges(TakeFileIds(b, files[0].deleteFiles), id, files[1..], t);
    }
  }

  lemma {:induction false} BatchesRanges(a: Allocation, id: int, batches: seq<nat>, t: int)
    requires t != id
    ensures Filter(OfTable(t), WriteBatches(a, id, batches).ranges) == Filter(OfTable(t), a.ranges)
    decreases batches
  {
    if batches != [] {
      FilterAppend(OfTable(t), a.ranges, [RowRange(id, StatsOf(a.stats, id).nextRowId, batches[0])]);
      BatchesRanges(TakeRows(a, id, batches[0]), id, batches[1..], t);
    }
  }

  /** What the row invariant needs to know about tables at the new head. */
  lemma NewEntry(a: System, b: System, c: nat, rest: string, rules: (string, string) -> bool, t: int)
    requires Inv(a, rules) && CommitStep(a, b, c, rest)
    ensures Last(a.log).snap.info.nextCatalogId <= Last(b.log).snap.info.nextCatalogId
    ensures t in Outcome(a.clients[c], Loaded(a.clients[c], a.cells).value).written ==> t < Last(b.log).snap.info.nextCatalogId
    ensures t in Last(b.log).snap.tables ==> t in Last(a.log).snap.tables || Last(a.log).snap.info.nextCatalogId <= t
    ensures t in Last(a.log).snap.tables ==> StatsOf(a.stats, t) == StatsOf(Last(a.log).stats, t)
    ensures t >= Last(a.log).snap.info.nextCatalogId ==> StatsOf(a.stats, t) == NO_STATS
    ensures Last(b.log).stats == b.stats && b.log == a.log + [Last(b.log)]
    ensures Last(b.log).ranges == Outcome(a.clients[c], Loaded(a.clients[c], a.cells).value).ranges
  {
    hide CellInv, LogInv, Conflicts, Names, Stale, ClientInv, SummaryOf, PersistStats, Outcome;
    CommitSerialised(a, b, c, rest, rules);
    CommitIsFromHead(a, b, c, rest, rules);
    NewTablesKnown(a, b, c, rest, rules);
    if t in Outcome(a.clients[c], Loaded(a.clients[c], a.cells).value).written {
      WrittenKnown(a, b, c, rest, rules, t);
    }
  }

  lemma {:induction false} RowsInRun(run: seq<System>, rules: (string, string) -> bool, i: nat, t: int)
    requires CarefulRun(run, rules) && i < |run|
    ensures run[i].log != [] && RowsOf(run[i].log, t)
  {
    hide Inv, CommitStep, Stale, RangesOf, Contiguous, Rows, StatsOf;
    if i == 0 {
      FirstRows(run[0], t);
    } else {
      RunKeeps(run, rules, i - 1);
      RowsInRun(run, rules, i - 1, t);
      assert CarefulStep(run[i - 1], run[i - 1 + 1], rules);
      var a, b := run[i - 1], run[i];
      if c: nat, rest :| CommitStep(a, b, c, rest) {
        CommitRows(a, b, c, rest, rules, t);
      }
    }
  }

  lemma FirstRows(s: System, t: int)
    requires Initial(s)
    ensures s.log != [] && RowsOf(s.log, t)
  {
    assert s.log[..0] == [] && RangesOf(s.log[..0], t) == [];
    assert RangesOf(s.log, t) == [] + [];
  }

  // ----- the theorems -----

  /**
   * In every careful run each commit allocated from exactly its predecessor, used its
   * predecessor's statistics, and was checked against every commit since its transaction began.
   */
  lemma CommitsAreSerialised(run: seq<System>, rules: (string, string) -> bool, i: nat, k: int)
    requires CarefulRun(run, rules) && i < |run| && 0 < k < |run[i].log|
    ensures Serialised(run[i].log, k, rules)
  {
    hide Serialised, CarefulRun, DatabaseInv, CellInv, ClientInv;
    RunKeeps(run, rules, i);
  }

  /** No catalog id and no file id is ever given out twice. */
  lemma IdsAreNeverReused(run: seq<System>, rules: (string, string) -> bool, i: nat, j: int, k: int)
    requires CarefulRun(run, rules) && i < |run| && 0 < j < k < |run[i].log|
    ensures forall x :: x in run[i].log[j].fileIds ==> x !in run[i].log[k].fileIds
    ensures forall x :: x in run[i].log[j].catalogIds ==> x !in run[i].log[k].catalogIds
    ensures forall p, q :: 0 <= p < q < |run[i].log[k].fileIds| ==> run[i].log[k].fileIds[p] != run[i].log[k].fileIds[q]
    ensures forall p, q :: 0 <= p < q < |run[i].log[k].catalogIds| ==> run[i].log[k].catalogIds[p] != run[i].log[k].catalogIds[q]
  {
    hide CarefulRun, DatabaseInv, CellInv, ClientInv, Conflicts;
    RunKeeps(run, rules, i);
    var log := run[i].log;
    assert Serialised(log, j, rules) && Serialised(log, k, rules);
    LogIncreases(log, rules, j, k - 1);
  }

  /**
   * Row ids are never lost or reused: a table's ranges over all commits are contiguous from 0, and its
   * statistics hold the next row id and the number of rows.
   */
  lemma RowIdsAreContiguous(run: seq<System>, rules: (string, string) -> bool, i: nat, t: int)
    requires CarefulRun(run, rules) && i < |run|
    ensures Contiguous(RangesOf(run[i].log, t), 0)
    ensures run[i].log != [] && (t in Last(run[i].log).snap.tables ==>
              StatsOf(run[i].stats, t) == TableStats(Rows(RangesOf(run[i].log, t)), Some(Rows(RangesOf(run[i].log, t)))))
  {
    hide CarefulRun, CellInv, ClientInv, LogInv, Contiguous, Rows, RangesOf;
    RunKeeps(run, rules, i);
    RowsInRun(run, rules, i, t);
  }
}
