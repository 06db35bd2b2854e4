/** Where the commit protocol goes wrong: when commits stay in order, and runs that break its guarantees. */
module CommitLimits {
  import opened Prelude
  import opened CommitStates
  import opened Commits

  // ----- expiry below an open transaction -----

  /** Commit order is snapshot order. */
  ghost predicate InOrder(log: seq<Entry>) { log != [] && forall k :: 0 <= k < |log| ==> log[k].snap.info.id == k }

  /** Every id below the next one is retained or was expired. */
  ghost predicate Accounted(s: System) {
    && InOrder(s.log)
    && (forall k :: k in s.snapshots ==> 0 <= k < |s.log| && s.snapshots[k].info.id == k)
    && (forall k :: 0 <= k < |s.log| ==> k in s.snapshots || k in s.expired)
    && (forall k :: k in s.expired ==> 0 <= k < |s.log|)
    && (forall c :: c in s.clients && c.Busy? ==> 0 <= c.latest.info.id < |s.log|)
  }

  lemma StepKeepsLog(a: System, b: System, rules: (string, string) -> bool)
    requires Step(a, b, rules)
    ensures a.log <= b.log
  {
    hide Acquire, Outcome, NextSnap, PersistStats, SummaryOf, IsLatest, ValidChanges, Loaded;
  }

  lemma CommitAccounts(a: System, b: System, c: nat, rest: string)
    requires CommitStep(a, b, c, rest) && Accounted(a) && InOrder(b.log)
    ensures Accounted(b)
  {
    hide Outcome, PersistStats, SummaryOf, Loaded, CreatedIds;
    assert b.log[|a.log|].snap.info.id == |a.log|;
    assert forall k :: 0 <= k < |a.log| ==> b.log[k] == a.log[k];
  }

  lemma ExpireAccounts(a: System, b: System, head: Snap, ids: set<int>, dead: set<int>)
    requires ExpireStep(a, b, head, ids, dead) && Accounted(a)
    ensures Accounted(b)
  {
  }

  /** The other steps move clients only between snapshots that are retained. */
  ghost predicate MovesClients(a: System, b: System) {
    && b.log == a.log && b.snapshots == a.snapshots && b.expired == a.expired
    && forall c :: c in b.clients && c.Busy? ==>
         (c.latest.info.id in a.snapshots || exists d :: d in a.clients && d.Busy? && d.latest == c.latest)
  }

  lemma MovesAccount(a: System, b: System)
    requires MovesClients(a, b) && Accounted(a)
    ensures Accounted(b)
  {
  }

  lemma StepMoves(a: System, b: System, rules: (string, string) -> bool)
    requires Step(a, b, rules)
    ensures
      || (exists c: nat, rest :: CommitStep(a, b, c, rest))
      || (exists head, ids, dead :: ExpireStep(a, b, head, ids, dead))
      || MovesClients(a, b)
  {
    hide Acquire, Outcome, SummaryOf, ValidChanges, Conflicts, CommitStep, ExpireStep;
    if c: nat, head, cs, i: nat :| BeginStep(a, b, c, head, cs, i) {
      assert forall x :: x in b.clients ==> x in a.clients || x == b.clients[c];
    } else if k: nat, i: nat :| ShareStep(a, b, k, i) {
    } else if i: nat :| LoadStep(a, b, i) {
    } else if c: nat, error, used, rest :| FailStep(a, b, c, error, used, rest) {
      assert forall x :: x in b.clients ==> x in a.clients || x == b.clients[c];
    } else if c: nat, head, i: nat :| RefreshStep(a, b, c, head, i) {
      assert forall x :: x in b.clients ==> x in a.clients || x == b.clients[c];
    } else if c: nat :| CheckStep(a, b, c, rules) {
      assert forall x :: x in b.clients ==> x in a.clients || x == b.clients[c];
    }
  }

  lemma StepAccounts(a: System, b: System, rules: (string, string) -> bool)
    requires Step(a, b, rules) && Accounted(a) && InOrder(b.log)
    ensures Accounted(b)
  {
    hide Accounted, CommitStep, ExpireStep, MovesClients, InOrder, Step;
    StepMoves(a, b, rules);
    if c: nat, rest :| CommitStep(a, b, c, rest) {
      CommitAccounts(a, b, c, rest);
    } else if head, ids, dead :| ExpireStep(a, b, head, ids, dead) {
      ExpireAccounts(a, b, head, ids, dead);
    } else {
      MovesAccount(a, b);
    }
  }

  lemma {:induction false} RunAccounts(run: seq<System>, rules: (string, string) -> bool, i: nat)
    requires Run(run, rules) && i < |run| && InOrder(run[i].log)
    ensures Accounted(run[i])
  {
    hide Step, Accounted;
    if i == 0 {
      InitialAccounts(run[0]);
    } else {
      assert Step(run[i - 1], run[i - 1 + 1], rules);
      var a, b := run[i - 1], run[i];
      StepKeepsLog(a, b, rules);
      PrefixInOrder(run, rules, i - 1, b.log);
      RunAccounts(run, rules, i - 1);
      StepAccounts(a, b, rules);
    }
  }

  lemma InitialAccounts(s: System)
    requires Initial(s)
    ensures Accounted(s)
  {
  }

  lemma {:induction false} PrefixInOrder(run: seq<System>, rules: (string, string) -> bool, i: nat, log: seq<Entry>)
    requires Run(run, rules) && i < |run| && run[i].log <= log && InOrder(log)
    ensures InOrder(run[i].log)
  {
    hide Step;
    NonEmptyLog(run, rules, i);
    assert forall k :: 0 <= k < |run[i].log| ==> run[i].log[k] == log[k];
  }

  lemma {:induction false} NonEmptyLog(run: seq<System>, rules: (string, string) -> bool, i: nat)
    requires Run(run, rules) && i < |run|
    ensures run[i].log != []
  {
    hide Step;
    if i > 0 {
      NonEmptyLog(run, rules, i - 1);
      assert Step(run[i - 1], run[i - 1 + 1], rules);
      StepKeepsLog(run[i - 1], run[i], rules);
    }
  }

  /**
   * Exactly when a commit is in order, whatever was expired before and whatever the change sets: as
   * long as commits were in order so far, the next one is too if and only if the slot it takes was
   * not freed by expiry.
   */
  lemma InOrderIffSlotNotExpired(run: seq<System>, rules: (string, string) -> bool, i: nat, c: nat, rest: string)
    requires Run(run, rules) && i + 1 < |run| && InOrder(run[i].log)
    requires CommitStep(run[i], run[i + 1], c, rest)
    ensures InOrder(run[i + 1].log) <==> run[i].clients[c].latest.info.id + 1 !in run[i].expired
  {
    hide Step, Outcome, PersistStats, SummaryOf, Loaded, CreatedIds;
    RunAccounts(run, rules, i);
    var a, b := run[i], run[i + 1];
    var client := a.clients[c];
    assert client in a.clients;
    assert b.log[|a.log|].snap.info.id == client.latest.info.id + 1;
    assert forall k :: 0 <= k < |a.log| ==> b.log[k] == a.log[k];
  }

  // ----- a run that shows it -----

  const NEW_TABLE := [CreateTable(0, 0)]
  const FIRST := Snap(Catalog.SnapshotRow(0, 0, 1, 0), {})
  const SECOND := Snap(Catalog.SnapshotRow(1, 1, 2, 0), {1})
  const THIRD := Snap(Catalog.SnapshotRow(2, 2, 3, 0), {1, 2})

  function Begun(head: Snap, cs: seq<Change>, cell: nat): Client { Busy(head, cs, head, cell, 0, Attempting, {}, NOTHING) }

  function TwoClients(): System {
    var snap := Snap(Catalog.SnapshotRow(0, 0, 1, 0), {});
    System(map[0 := snap], map[0 := NOTHING], map[], [], [Idle, Idle],
           [Entry(snap, 0, {}, NOTHING, NOTHING, map[], map[], [], [], [], [])], {})
  }

  /** A transaction begins at the head with a statistics cell of its own. */
  function BeginOf(a: System, c: nat, head: Snap, cs: seq<Change>): System
    requires c < |a.clients|
  {
    a.(cells := a.cells + [Cell(head, None, 0)], clients := a.clients[c := Begun(head, cs, |a.cells|)])
  }

  lemma NewTableOutcome(client: Client)
    requires client.Busy? && client.changes == NEW_TABLE
    ensures
      var last := client.latest.info;
      var id := last.nextCatalogId;
      var out := Outcome(client, map[]);
      && out == Allocation(id + 1, last.nextFileId, map[0 := id], map[], [id], [], [], {})
      && NextSnap(client, out) == Snap(Catalog.SnapshotRow(last.id + 1, last.schemaVersion + 1, id + 1, last.nextFileId),
                                       client.latest.tables + {id})
      && !RequiresStats(client.changes)
  {
    var last := client.latest.info;
    var start := Start(last.nextCatalogId, last.nextFileId, map[]);
    var change := CreateTable(0, 0);
    assert ApplyChange(start, change) == Allocation(last.nextCatalogId + 1, last.nextFileId, map[0 := last.nextCatalogId], map[],
                                                    [last.nextCatalogId], [], [], {});
    assert NEW_TABLE[0] == change && NEW_TABLE[1..] == [];
    assert ApplyAll(ApplyChange(start, change), []) == ApplyChange(start, change);
    assert change in NEW_TABLE;
    assert CreatedTables(NEW_TABLE) == {0};
  }

  /** The commit of a transaction that creates one table. */
  lemma CommitNewTable(a: System, c: nat, rest: string) returns (b: System)
    requires c < |a.clients| && a.clients[c].Busy? && a.clients[c].phase.Attempting? && a.clients[c].changes == NEW_TABLE
    requires a.clients[c].cell < |a.cells| && a.clients[c].latest.info.id + 1 !in a.snapshots && a.stats == map[]
    ensures
      var last := a.clients[c].latest;
      var id := last.info.nextCatalogId;
      var snap := Snap(Catalog.SnapshotRow(last.info.id + 1, last.info.schemaVersion + 1, id + 1, last.info.nextFileId),
                       last.tables + {id});
      && CommitStep(a, b, c, rest)
      && b.snapshots == a.snapshots[snap.info.id := snap] && b.made == a.made[snap.info.id := Summary({}, {}, {}, rest)]
      && b.stats == map[] && b.cells == a.cells
      && b.clients == a.clients[c := Idle] && b.expired == a.expired
      && |b.log| == |a.log| + 1 && b.log[..|a.log|] == a.log
      && Last(b.log).snap == snap && Last(b.log).catalogIds == [id] && Last(b.log).stats == map[]
  {
    hide Outcome, NextSnap;
    var client := a.clients[c];
    NewTableOutcome(client);
    NewTableSummary(Outcome(client, map[]), rest);
    b := Committed(a, c, rest);
    assert PersistStats(map[], map[], Outcome(client, map[])) == map[];
  }

  lemma NewTableSummary(out: Allocation, rest: string)
    ensures SummaryOf(out, NEW_TABLE, rest) == Summary({}, {}, {}, rest)
  {
  }

  lemma BeginIsStep(a: System, c: nat, head: Snap, cs: seq<Change>)
    requires c < |a.clients| && a.clients[c].Idle? && IsLatest(a.snapshots, head) && ValidChanges(cs, head.tables)
    ensures BeginStep(a, BeginOf(a, c, head, cs), c, head, cs, |a.cells|)
  {
    hide IsLatest, ValidChanges;
  }

  predicate GivesIdTwice(log: seq<Entry>) {
    |log| == 4 && log[1].catalogIds == log[3].catalogIds == [1] && log[1].snap.info.id == log[3].snap.info.id == 1
    && log[3].base == 0 && log[3].checked == {}
  }

  /**
   * Two transactions begin at snapshot 0. The second commits snapshot 1, a third snapshot 2, and
   * snapshot 1 is expired. The first transaction then takes the freed slot without ever checking
   * for conflicts, and gives its table the id that snapshot 1 had already given to another.
   */
  lemma ExpiryCanBreakSerialisation(rules: (string, string) -> bool)
    ensures exists run: seq<System> :: Run(run, rules) && |run| == 8 && GivesIdTwice(run[7].log)
  {
    hide BeginStep, CommitStep, ExpireStep, Run, Step, BeginOf;
    var s0, s1, s2, s3, s4 := FirstCommit();
    var s5, s6, s7 := SlotReused(s4);
    ExampleRun([s0, s1, s2, s3, s4, s5, s6, s7], FIRST, SECOND, THIRD, rules);
  }

  /** Both clients have begun, the second one has committed snapshot 1 and begun again. */
  lemma FirstCommit() returns (s0: System, s1: System, s2: System, s3: System, s4: System)
    ensures s0 == TwoClients() && BeginStep(s0, s1, 0, FIRST, NEW_TABLE, 0) && BeginStep(s1, s2, 1, FIRST, NEW_TABLE, 1)
    ensures CommitStep(s2, s3, 1, "") && BeginStep(s3, s4, 1, SECOND, NEW_TABLE, 2)
    ensures s4.clients == [Begun(FIRST, NEW_TABLE, 0), Begun(SECOND, NEW_TABLE, 2)] && |s4.cells| == 3
    ensures s4.snapshots == map[0 := FIRST, 1 := SECOND] && s4.stats == map[] && s4.expired == {}
    ensures s4.made == map[0 := NOTHING, 1 := NOTHING]
    ensures |s4.log| == 2 && s4.log[0].snap == FIRST && s4.log[1].snap == SECOND && s4.log[1].catalogIds == [1]
  {
    hide Outcome, NextSnap, SummaryOf, BeginStep, CommitStep;
    NewTableIsValid();
    s0 := TwoClients();
    s1 := BeginOf(s0, 0, FIRST, NEW_TABLE);
    BeginIsStep(s0, 0, FIRST, NEW_TABLE);
    s2 := BeginOf(s1, 1, FIRST, NEW_TABLE);
    BeginIsStep(s1, 1, FIRST, NEW_TABLE);
    s3 := CommitNewTable(s2, 1, "");
    assert {} + {1} == {1};
    assert Last(s3.log).snap == SECOND && s3.log[1] == Last(s3.log);
    s4 := BeginOf(s3, 1, SECOND, NEW_TABLE);
    BeginIsStep(s3, 1, SECOND, NEW_TABLE);
  }

  /** Snapshot 2 is committed, snapshot 1 expired, and the first client commits into its slot. */
  lemma SlotReused(s4: System) returns (s5: System, s6: System, s7: System)
    requires s4.clients == [Begun(FIRST, NEW_TABLE, 0), Begun(SECOND, NEW_TABLE, 2)] && |s4.cells| == 3
    requires s4.snapshots == map[0 := FIRST, 1 := SECOND] && s4.stats == map[]
    requires |s4.log| == 2 && s4.log[1].snap == SECOND && s4.log[1].catalogIds == [1]
    ensures CommitStep(s4, s5, 1, "") && ExpireStep(s5, s6, THIRD, {1}, {}) && CommitStep(s6, s7, 0, "")
    ensures GivesIdTwice(s7.log)
  {
    hide Outcome, NextSnap, SummaryOf, BeginStep, CommitStep;
    s5 := CommitNewTable(s4, 1, "");
    assert {1} + {2} == {1, 2};
    assert Last(s5.log).snap == THIRD && s5.log[1] == s4.log[1];
    s6 := s5.(snapshots := s5.snapshots - {1}, made := s5.made - {1}, stats := s5.stats - {},
              expired := s5.expired + ({1} * s5.snapshots.Keys));
    assert s5.snapshots[2] == THIRD && s6.stats == map[];
    s7 := CommitNewTable(s6, 0, "");
    assert s7.log[3] == Last(s7.log) && s7.log[1] == s6.log[1];
    CommitRecords(s6, s7, 0);
  }

  lemma CommitRecords(a: System, b: System, c: nat)
    requires CommitStep(a, b, c, "")
    ensures Last(b.log).checked == a.clients[c].checked && Last(b.log).base == a.clients[c].base.info.id
  {
  }

  lemma NewTableIsValid()
    ensures forall tables :: ValidChanges(NEW_TABLE, tables)
  {
  }

  lemma ExampleRun(run: seq<System>, first: Snap, second: Snap, third: Snap, rules: (string, string) -> bool)
    requires |run| == 8 && run[0] == TwoClients()
    requires BeginStep(run[0], run[1], 0, first, NEW_TABLE, 0) && BeginStep(run[1], run[2], 1, first, NEW_TABLE, 1)
    requires CommitStep(run[2], run[3], 1, "") && BeginStep(run[3], run[4], 1, second, NEW_TABLE, 2)
    requires CommitStep(run[4], run[5], 1, "") && ExpireStep(run[5], run[6], third, {1}, {})
    requires CommitStep(run[6], run[7], 0, "")
    ensures Run(run, rules)
  {
    hide BeginStep, ShareStep, CommitStep, ExpireStep, Stale, LoadStep, FailStep, RefreshStep, CheckStep;
    assert Initial(run[0]);
    forall i | 0 <= i < 7 ensures Step(run[i], run[i + 1], rules) {
      if i == 0 {
      } else if i == 1 {
      } else if i == 3 {
      }
    }
  }

  // ----- a transaction that does not move the statistics key -----

  const NO_FILES_AND_ROWS := [Change.WriteDataFiles(Existing(1), []), Change.WriteInlineData(Existing(1), [5])]
  const ROWS := [Change.WriteInlineData(Existing(1), [3])]

  /** An empty list of data files keeps the inline write from giving up a file id. */
  lemma NoFilesOutcome(a: Allocation)
    requires a == Start(2, 0, map[])
    ensures Attempt(a, NO_FILES_AND_ROWS)
         == Allocation(2, 0, map[], map[1 := TableStats(5, Some(5))], [], [], [RowRange(1, 0, 5)], {1})
    ensures RequiresStats(NO_FILES_AND_ROWS) && !ChangesSchema(NO_FILES_AND_ROWS)
  {
    var files, rows := Change.WriteDataFiles(Existing(1), []), Change.WriteInlineData(Existing(1), [5]);
    assert NO_FILES_AND_ROWS[0] == files && NO_FILES_AND_ROWS[1..] == [rows];
    var b := ApplyChange(a, files);
    assert b == a.(written := {1});
    assert WriteBatches(b, 1, [5]) == TakeRows(b, 1, 5) by { assert [5][1..] == []; }
    assert ApplyChange(b, rows) == Allocation(2, 0, map[], map[1 := TableStats(5, Some(5))], [], [], [RowRange(1, 0, 5)], {1});
    assert [rows][0] == rows && [rows][1..] == [];
    assert ApplyAll(b, [rows]) == ApplyChange(b, rows);
    assert files in NO_FILES_AND_ROWS;
  }

  lemma RowsOutcome(a: Allocation)
    requires a == Start(2, 0, map[])
    ensures Attempt(a, ROWS) == Allocation(2, 1, map[], map[1 := TableStats(3, Some(3))], [], [], [RowRange(1, 0, 3)], {1})
    ensures RequiresStats(ROWS) && !ChangesSchema(ROWS)
  {
    var rows := Change.WriteInlineData(Existing(1), [3]);
    assert ROWS[0] == rows && ROWS[1..] == [];
    assert WriteBatches(a, 1, [3]) == TakeRows(a, 1, 3) by { assert [3][1..] == []; }
    assert ApplyAll(ApplyChange(a, rows), []) == ApplyChange(a, rows);
    assert rows in ROWS;
  }

  predicate LosesRows(s: System) {
    |s.log| == 4 && s.log[2].ranges == [RowRange(1, 0, 5)] && s.log[3].ranges == [RowRange(1, 0, 3)]
    && 1 in s.stats && s.stats[1].nextRowId == 3 && s.expired == {}
  }

  /** The commit of a transaction that writes rows of table 1 with statistics it found empty. */
  lemma CommitRowsWithEmptyStats(a: System, c: nat, out: Allocation) returns (b: System)
    requires c < |a.clients| && a.clients[c].Busy? && a.clients[c].phase.Attempting?
    requires a.clients[c].cell < |a.cells| && a.cells[a.clients[c].cell].value == Some(map[])
    requires a.clients[c].latest.info.id + 1 !in a.snapshots
    requires RequiresStats(a.clients[c].changes) && !ChangesSchema(a.clients[c].changes)
    requires forall x :: x in a.clients[c].changes ==> !x.DropTable? && !x.CreateTable?
    requires out == Outcome(a.clients[c], map[]) && 1 in out.stats && out.written == {1}
    ensures CommitStep(a, b, c, "")
    ensures
      var last := a.clients[c].latest;
      var snap := Snap(Catalog.SnapshotRow(last.info.id + 1, last.info.schemaVersion, out.nextCatalogId, out.nextFileId), last.tables);
      && b.snapshots == a.snapshots[snap.info.id := snap] && b.cells == a.cells && b.clients == a.clients[c := Idle]
      && b.expired == a.expired && |b.log| == |a.log| + 1 && b.log[..|a.log|] == a.log
      && Last(b.log).snap == snap && Last(b.log).ranges == out.ranges
      && 1 in b.stats && b.stats[1] == out.stats[1]
  {
    hide Attempt, RequiresStats, ChangesSchema;
    var client := a.clients[c];
    b := Committed(a, c, "");
    assert SummaryOf(out, client.changes, "").dropped == {} && CreatedTables(client.changes) == {};
    assert CreatedIds(out, client.changes) == {};
    assert client.latest.tables - {} + {} == client.latest.tables;
    assert NextSnap(client, out).tables == client.latest.tables;
  }

  /**
   * Without any expiry: a transaction that writes an empty list of data files and inlined rows
   * leaves the statistics key as it was, so the next transaction shares the statistics loaded
   * before it, gives out the same row ids again, and overwrites the count of the rows.
   */
  lemma StaleCommitLosesRows(rules: (string, string) -> bool)
    ensures Stale(NO_FILES_AND_ROWS)
    ensures exists run: seq<System> :: Run(run, rules) && |run| == 8 && LosesRows(run[7])
  {
    hide BeginStep, CommitStep, Run, Step, BeginOf, LoadStep;
    NoFilesOutcome(Start(2, 0, map[]));
    assert NO_FILES_AND_ROWS[0] in NO_FILES_AND_ROWS;
    var s0, s1, s2, s3, s4 := EmptyStatsLoaded();
    var s5, s6, s7 := SharedTwice(s4);
    StaleRun([s0, s1, s2, s3, s4, s5, s6, s7], FIRST, SECOND, UNMOVED, rules);
  }

  /** The snapshot the stale transaction leaves: it has the key of the one before. */
  const UNMOVED := Snap(Catalog.SnapshotRow(2, 1, 2, 0), {1})

  /** Table 1 exists, the first client has begun to write to it, and its empty statistics are loaded. */
  lemma EmptyStatsLoaded() returns (s0: System, s1: System, s2: System, s3: System, s4: System)
    ensures s0 == TwoClients() && BeginStep(s0, s1, 0, FIRST, NEW_TABLE, 0) && CommitStep(s1, s2, 0, "")
    ensures BeginStep(s2, s3, 0, SECOND, NO_FILES_AND_ROWS, 1) && LoadStep(s3, s4, 1)
    ensures s4.clients == [Begun(SECOND, NO_FILES_AND_ROWS, 1), Idle] && s4.snapshots == map[0 := FIRST, 1 := SECOND]
    ensures |s4.cells| == 2 && s4.cells[1] == Cell(SECOND, Some(map[]), 1) && |s4.log| == 2 && s4.expired == {}
  {
    hide Outcome, NextSnap, SummaryOf, BeginStep, CommitStep;
    NewTableIsValid();
    s0 := TwoClients();
    s1 := BeginOf(s0, 0, FIRST, NEW_TABLE);
    BeginIsStep(s0, 0, FIRST, NEW_TABLE);
    s2 := CommitNewTable(s1, 0, "");
    assert {} + {1} == {1};
    assert Last(s2.log).snap == SECOND;
    s3 := BeginOf(s2, 0, SECOND, NO_FILES_AND_ROWS);
    BeginIsStep(s2, 0, SECOND, NO_FILES_AND_ROWS);
    s4 := s3.(cells := s3.cells[1 := Cell(SECOND, Some(map[]), 1)]);
    assert s3.stats == map[];
  }

  lemma BegunOutcome(head: Snap, cs: seq<Change>, cell: nat)
    ensures Outcome(Begun(head, cs, cell), map[])
         == Attempt(Start(head.info.nextCatalogId, head.info.nextFileId, map[]), cs)
  {
    hide Attempt;
  }

  /** The first client commits, the second begins with the same statistics cell and commits as well. */
  lemma SharedTwice(s4: System) returns (s5: System, s6: System, s7: System)
    requires s4.clients == [Begun(SECOND, NO_FILES_AND_ROWS, 1), Idle] && s4.snapshots == map[0 := FIRST, 1 := SECOND]
    requires |s4.cells| == 2 && s4.cells[1] == Cell(SECOND, Some(map[]), 1) && |s4.log| == 2 && s4.expired == {}
    ensures CommitStep(s4, s5, 0, "") && BeginStep(s5, s6, 1, UNMOVED, ROWS, 1) && CommitStep(s6, s7, 1, "")
    ensures LosesRows(s7)
  {
    hide Outcome, NextSnap, SummaryOf, BeginStep, CommitStep, Attempt, RequiresStats, ChangesSchema;
    NoFilesOutcome(Start(2, 0, map[]));
    RowsOutcome(Start(2, 0, map[]));
    BegunOutcome(SECOND, NO_FILES_AND_ROWS, 1);
    BegunOutcome(UNMOVED, ROWS, 1);
    s5 := CommitRowsWithEmptyStats(s4, 0, Outcome(s4.clients[0], map[]));
    assert Last(s5.log).snap == UNMOVED && s5.log[2] == Last(s5.log);
    s6 := s5.(clients := s5.clients[1 := Begun(UNMOVED, ROWS, 1)]);
    SharedBegin(s5, s6, UNMOVED);
    s7 := CommitRowsWithEmptyStats(s6, 1, Outcome(s6.clients[1], map[]));
    assert s7.log[3] == Last(s7.log) && s7.log[2] == s6.log[2];
  }

  lemma SharedBegin(a: System, b: System, head: Snap)
    requires |a.clients| == 2 && a.clients[1].Idle? && IsLatest(a.snapshots, head) && 1 in head.tables
    requires |a.cells| == 2 && KeyOf(a.cells[1].snap.info) == KeyOf(head.info)
    requires b == a.(clients := a.clients[1 := Begun(head, ROWS, 1)])
    ensures BeginStep(a, b, 1, head, ROWS, 1)
  {
  }

  lemma StaleRun(run: seq<System>, first: Snap, second: Snap, third: Snap, rules: (string, string) -> bool)
    requires |run| == 8 && run[0] == TwoClients()
    requires BeginStep(run[0], run[1], 0, first, NEW_TABLE, 0) && CommitStep(run[1], run[2], 0, "")
    requires BeginStep(run[2], run[3], 0, second, NO_FILES_AND_ROWS, 1) && LoadStep(run[3], run[4], 1)
    requires CommitStep(run[4], run[5], 0, "") && BeginStep(run[5], run[6], 1, third, ROWS, 1)
    requires CommitStep(run[6], run[7], 1, "")
    ensures Run(run, rules)
  {
    hide BeginStep, ShareStep, CommitStep, ExpireStep, LoadStep, FailStep, RefreshStep, CheckStep;
    assert Initial(run[0]);
    forall i | 0 <= i < 7 ensures Step(run[i], run[i + 1], rules) {
      if i == 0 {
      } else if i == 2 {
      } else if i == 3 {
      } else if i == 5 {
      }
    }
  }
}
