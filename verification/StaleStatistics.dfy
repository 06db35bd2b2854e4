/**
 * Exactly which change sets that leave the statistics key where it was make the next transaction
 * give out row ids again: those that write inlined rows.
 */
module StaleStatistics {
  import opened Prelude
  import opened CommitStates
  import opened Commits

  // ----- the rows of a stale change set -----

  function Total(batches: seq<nat>): nat { if batches == [] then 0 else batches[0] + Total(batches[1..]) }

  predicate RowsFor(c: Change, t: int) { c.WriteInlineData? && c.table == Existing(t) && Total(c.batches) > 0 }

  predicate WritesRows(cs: seq<Change>, t: int) { exists c :: c in cs && RowsFor(c, t) }

  function NextRow(a: Allocation, t: int): int { StatsOf(a.stats, t).nextRowId }

  /** The table was there before the attempt. */
  ghost predicate Older(a: Allocation, t: int) { t < a.nextCatalogId && forall k :: k in a.resolved ==> a.resolved[k] != t }

  lemma {:induction false} BatchRows(a: Allocation, id: int, batches: seq<nat>, t: int)
    ensures NextRow(WriteBatches(a, id, batches), t) == NextRow(a, t) + if t == id then Total(batches) else 0
    decreases batches
  {
    if batches != [] {
      BatchRows(TakeRows(a, id, batches[0]), id, batches[1..], t);
    }
  }

  lemma ChangeRows(a: Allocation, c: Change, t: int)
    requires Older(a, t) && (c.WriteDataFiles? || c.WriteInlineData?) && !TakesFile(c)
    ensures Older(ApplyChange(a, c), t)
    ensures NextRow(ApplyChange(a, c), t) == NextRow(a, t) + if RowsFor(c, t) then Total(c.batches) else 0
  {
    hide WriteBatches, IdsFollow;
    ApplyChangeFollows(a, c, t);
    if c.WriteInlineData? {
      BatchRows(Resolve(a, c.table), IdOf(a, c.table), c.batches, t);
    }
    ChangeKeepsOlder(a, c, t);
  }

  lemma ChangeKeepsOlder(a: Allocation, c: Change, t: int)
    requires Older(a, t)
    ensures Older(ApplyChange(a, c), t)
  {
    hide ApplyChange, RowsFollow, OthersKeepStats;
    ApplyChangeFollows(a, c, t);
  }

  ghost predicate OnlyRows(cs: seq<Change>) { forall c :: c in cs ==> (c.WriteDataFiles? || c.WriteInlineData?) && !TakesFile(c) }

  /** The statistics of a known table move exactly if rows are written to it. */
  lemma {:induction false} MovesIff(a: Allocation, cs: seq<Change>, t: int)
    requires Older(a, t) && OnlyRows(cs)
    ensures NextRow(ApplyAll(a, cs), t) >= NextRow(a, t)
    ensures NextRow(ApplyAll(a, cs), t) > NextRow(a, t) <==> WritesRows(cs, t)
    decreases cs
  {
    hide ApplyChange, Older;
    if cs != [] {
      ChangeRows(a, cs[0], t);
      MovesIff(ApplyChange(a, cs[0]), cs[1..], t);
      assert forall c :: c in cs <==> c == cs[0] || c in cs[1..];
    }
  }

  lemma {:induction false} RowsOfOne(ranges: seq<RowRange>, t: int, r: RowRange)
    requires r in ranges && r.tableId == t
    ensures Rows(Filter(OfTable(t), ranges)) >= r.count
  {
    if r != ranges[0] {
      RowsOfOne(ranges[1..], t, r);
    }
  }

  /** A row range that is not empty starts where the ranges start. */
  lemma {:induction false} FirstRange(ranges: seq<RowRange>, from: int) returns (r: RowRange)
    requires Contiguous(ranges, from) && Rows(ranges) > 0
    ensures r in ranges && r.start == from && r.count > 0
  {
    if ranges[0].count > 0 {
      r := ranges[0];
    } else {
      r := FirstRange(ranges[1..], from);
    }
  }

  /** The attempt of a stale change set gives rows of a known table exactly if it writes inlined rows to it. */
  lemma StaleRowsIff(client: Client, used: map<int, TableStats>, t: int)
    requires client.Busy? && Stale(client.changes) && t < client.latest.info.nextCatalogId
    ensures Rows(Filter(OfTable(t), Outcome(client, used).ranges)) > 0 <==> WritesRows(client.changes, t)
  {
    hide Attempt, Contiguous, Rows, WritesRows;
    AttemptRows(client, used, t);
    var start := Start(client.latest.info.nextCatalogId, client.latest.info.nextFileId, used);
    StaleIsOnlyRows(client.changes);
    MovesIff(start, client.changes, t);
    SameRows(start, client.changes, t);
  }

  lemma StaleIsOnlyRows(cs: seq<Change>)
    requires Stale(cs)
    ensures OnlyRows(cs) && RequiresStats(cs) && !ChangesSchema(cs)
  {
  }

  lemma SameRows(a: Allocation, cs: seq<Change>, t: int)
    ensures NextRow(Attempt(a, cs), t) == NextRow(ApplyAll(a, cs), t)
  {
    hide ApplyAll;
  }

  // ----- the next transaction -----

  /** The last two commits gave out a row id of the table twice. */
  ghost predicate Overlap(log: seq<Entry>, t: int) {
    |log| >= 2 && exists r, q :: r in log[|log| - 2].ranges && q in log[|log| - 1].ranges && Clash(r, q, t)
  }

  predicate Clash(r: RowRange, q: RowRange, t: int) {
    r.tableId == q.tableId == t && r.count > 0 && q.count > 0 && r.start <= q.start < r.start + r.count
  }

  /**
   * Client `c` begins with the change set, its statistics are loaded, it commits; then client `d`
   * begins and commits; and a row id of the table was given out twice.
   */
  ghost predicate Repeats(s: System, more: seq<System>, c: nat, d: nat, cs: seq<Change>, t: int) {
    && |more| == 5
    && (exists head, i: nat :: BeginStep(s, more[0], c, head, cs, i)) && (exists i: nat :: LoadStep(more[0], more[1], i))
    && (exists rest :: CommitStep(more[1], more[2], c, rest))
    && (exists head, next, i: nat :: BeginStep(more[2], more[3], d, head, next, i))
    && (exists rest :: CommitStep(more[3], more[4], d, rest))
    && Overlap(more[4].log, t)
  }

  function OneRow(t: int): seq<Change> { [Change.WriteInlineData(Existing(t), [1])] }

  function Working(head: Snap, cs: seq<Change>, cell: nat): Client { Busy(head, cs, head, cell, 0, Attempting, {}, NOTHING) }

  lemma OneRowOutcome(client: Client, used: map<int, TableStats>, t: int)
    requires client.Busy? && client.changes == OneRow(t)
    ensures RowRange(t, StatsOf(used, t).nextRowId, 1) in Outcome(client, used).ranges
    ensures RequiresStats(client.changes)
  {
    var start := Start(client.latest.info.nextCatalogId, client.latest.info.nextFileId, used);
    var write := Change.WriteInlineData(Existing(t), [1]);
    assert write in OneRow(t) && OneRow(t)[0] == write && OneRow(t)[1..] == [];
    assert WriteBatches(start, t, [1]) == TakeRows(start, t, 1) by { assert [1][1..] == []; }
    assert ApplyAll(ApplyChange(start, write), []) == ApplyChange(start, write);
  }

  /** A stale commit leaves the tables and the key as they were. */
  lemma StaleSnap(client: Client, used: map<int, TableStats>)
    requires client.Busy? && Stale(client.changes)
    ensures NextSnap(client, Outcome(client, used)).tables == client.latest.tables
    ensures KeyOf(NextSnap(client, Outcome(client, used)).info) == KeyOf(client.latest.info)
    ensures NextSnap(client, Outcome(client, used)).info.id == client.latest.info.id + 1
  {
    hide Attempt;
    StaleIsOnlyRows(client.changes);
    StatsKeyMovesIff(Start(client.latest.info.nextCatalogId, client.latest.info.nextFileId, used), client.changes);
    var out := Outcome(client, used);
    assert SummaryOf(out, client.changes, "").dropped == {} && CreatedTables(client.changes) == {};
    assert CreatedIds(out, client.changes) == {};
  }

  /** A commit ends the client's transaction and records what the attempt gave out. */
  lemma Records(a: System, b: System, c: nat, rest: string)
    requires CommitStep(a, b, c, rest)
    ensures
      var client := a.clients[c];
      var out := Outcome(client, Loaded(client, a.cells).value);
      && |b.log| == |a.log| + 1 && b.log[..|a.log|] == a.log && b.log[|a.log|].ranges == out.ranges
      && b.log[|a.log|].snap == NextSnap(client, out)
      && b.snapshots == a.snapshots[client.latest.info.id + 1 := NextSnap(client, out)]
      && b.clients == a.clients[c := Idle] && b.cells == a.cells
  {
    hide Outcome, SummaryOf, PersistStats, CreatedIds;
  }

  /** What the second transaction finds: a head with the old key, and the statistics that were loaded before. */
  ghost predicate Shared(s: System, d: nat, cell: nat, after: Snap, loaded: map<int, TableStats>, t: int) {
    && d < |s.clients| && s.clients[d].Idle? && IsLatest(s.snapshots, after) && t in after.tables
    && (forall k :: k in s.snapshots ==> k <= after.info.id)
    && cell < |s.cells| && s.cells[cell].value == Some(loaded) && KeyOf(s.cells[cell].snap.info) == KeyOf(after.info)
  }

  /** The first transaction, with a cell of its own. */
  lemma StaleCommits(s: System, rules: (string, string) -> bool, c: nat, d: nat, cs: seq<Change>, t: int)
    returns (s1: System, s2: System, s3: System, loaded: map<int, TableStats>, after: Snap)
    requires Inv(s, rules) && c < |s.clients| && d < |s.clients| && c != d && s.clients[c].Idle? && s.clients[d].Idle?
    requires Stale(cs) && ValidChanges(cs, Last(s.log).snap.tables) && t in Last(s.log).snap.tables
    ensures s.log != [] && BeginStep(s, s1, c, Last(s.log).snap, cs, |s.cells|) && LoadStep(s1, s2, |s.cells|) && CommitStep(s2, s3, c, "")
    ensures Shared(s3, d, |s.cells|, after, loaded, t)
    ensures |s3.log| == |s.log| + 1
            && s3.log[|s.log|].ranges == Outcome(Working(Last(s.log).snap, cs, |s.cells|), loaded).ranges
  {
    hide Inv, Stale, Outcome, NextSnap, Committed, RequiresStats, ValidChanges;
    HeadIsFree(s, rules);
    var head, cell := Last(s.log).snap, |s.cells|;
    StaleIsOnlyRows(cs);
    s1 := s.(cells := s.cells + [Cell(head, None, 0)], clients := s.clients[c := Working(head, cs, cell)]);
    loaded := map x | x in s1.stats && x in head.tables :: s1.stats[x];
    s2 := s1.(cells := s1.cells[cell := Cell(head, Some(loaded), |s1.log| - 1)]);
    assert LoadStep(s1, s2, cell);
    s3 := Committed(s2, c, "");
    Records(s2, s3, c, "");
    StaleSnap(s2.clients[c], loaded);
    after := NextSnap(s2.clients[c], Outcome(s2.clients[c], loaded));
    assert s3.clients[d] == s.clients[d];
  }

  /** The second transaction starts where the first one did. */
  lemma SharedCommits(s: System, d: nat, cell: nat, after: Snap, loaded: map<int, TableStats>, t: int)
    returns (s1: System, s2: System)
    requires Shared(s, d, cell, after, loaded, t)
    ensures BeginStep(s, s1, d, after, OneRow(t), cell) && CommitStep(s1, s2, d, "")
    ensures |s2.log| == |s.log| + 1 && s2.log[..|s.log|] == s.log
    ensures RowRange(t, StatsOf(loaded, t).nextRowId, 1) in s2.log[|s.log|].ranges
  {
    hide Outcome, NextSnap, Committed, RequiresStats;
    s1 := s.(clients := s.clients[d := Working(after, OneRow(t), cell)]);
    OneRowOutcome(s1.clients[d], loaded, t);
    s2 := Committed(s1, d, "");
    Records(s1, s2, d, "");
  }

  /** From any state: the stale commit, then a commit with the same statistics. */
  lemma CommitTwice(s: System, rules: (string, string) -> bool, c: nat, d: nat, cs: seq<Change>, t: int) returns (more: seq<System>)
    requires Inv(s, rules) && c < |s.clients| && d < |s.clients| && c != d && s.clients[c].Idle? && s.clients[d].Idle?
    requires Stale(cs) && ValidChanges(cs, Last(s.log).snap.tables) && t in Last(s.log).snap.tables && WritesRows(cs, t)
    ensures Repeats(s, more, c, d, cs, t)
  {
    hide Inv, Stale, WritesRows, Outcome, BeginStep, LoadStep, CommitStep, Shared, ValidChanges, Rows, Contiguous;
    var s1, s2, s3, loaded, after := StaleCommits(s, rules, c, d, cs, t);
    var s4, s5 := SharedCommits(s3, d, |s.cells|, after, loaded, t);
    var first := Working(Last(s.log).snap, cs, |s.cells|);
    HeadIsFree(s, rules);
    StaleRowsIff(first, loaded, t);
    AttemptRows(first, loaded, t);
    var r := FirstRange(Filter(OfTable(t), Outcome(first, loaded).ranges), StatsOf(loaded, t).nextRowId);
    var q := RowRange(t, StatsOf(loaded, t).nextRowId, 1);
    assert s5.log[|s5.log| - 2] == s3.log[|s.log|] && Clash(r, q, t);
    more := [s1, s2, s3, s4, s5];
    assert r in s5.log[|s5.log| - 2].ranges && q in s5.log[|s5.log| - 1].ranges;
    assert more[0] == s1 && more[1] == s2 && more[2] == s3 && more[3] == s4 && more[4] == s5;
    assert BeginStep(s, more[0], c, Last(s.log).snap, cs, |s.cells|) && LoadStep(more[0], more[1], |s.cells|);
    assert CommitStep(more[1], more[2], c, "") && BeginStep(more[2], more[3], d, after, OneRow(t), |s.cells|);
    assert CommitStep(more[3], more[4], d, "");
  }

  /** The head is the last committed snapshot, its successor's slot is free, and its tables have ids below its next one. */
  lemma HeadIsFree(s: System, rules: (string, string) -> bool)
    requires Inv(s, rules)
    ensures s.log != []
    ensures
      var head := Last(s.log).snap;
      && IsLatest(s.snapshots, head) && head.info.id == |s.log| - 1 && Below(head.tables, head.info.nextCatalogId)
      && forall k :: k in s.snapshots ==> k <= head.info.id
  {
    hide LogInv, CellInv, ClientInv, SameStats;
  }

  /**
   * Exactly which stale change sets lose row ids: from any state that a careful run reaches, such a
   * transaction and the next one give out a row id of a table twice, if and only if the change set
   * writes inlined rows to the table.
   */
  lemma StaleLosesIff(s: System, rules: (string, string) -> bool, c: nat, d: nat, cs: seq<Change>, t: int)
    requires Inv(s, rules) && c < |s.clients| && d < |s.clients| && c != d && s.clients[c].Idle? && s.clients[d].Idle?
    requires Stale(cs) && ValidChanges(cs, Last(s.log).snap.tables) && t in Last(s.log).snap.tables
    ensures (exists more :: Repeats(s, more, c, d, cs, t)) <==> WritesRows(cs, t)
  {
    hide Inv, Stale, WritesRows, Repeats;
    if WritesRows(cs, t) {
      var more := CommitTwice(s, rules, c, d, cs, t);
    } else {
      forall more: seq<System> ensures !Repeats(s, more, c, d, cs, t) {
        if Repeats(s, more, c, d, cs, t) {
          RepeatsWrites(s, rules, more, c, d, cs, t);
        }
      }
    }
  }

  /** The entry before the last is the commit of the change set. */
  lemma FirstEntry(s: System, more: seq<System>, c: nat, d: nat, cs: seq<Change>, t: int) returns (client: Client, used: map<int, TableStats>)
    requires Repeats(s, more, c, d, cs, t)
    ensures client.Busy? && client.changes == cs && IsLatest(s.snapshots, client.latest)
    ensures |more| == 5 && |more[4].log| >= 2 && more[4].log[|more[4].log| - 2].ranges == Outcome(client, used).ranges
  {
    hide Stale, Outcome, NextSnap, Committed, RequiresStats, Overlap, ValidChanges, Acquire;
    var head, i: nat :| BeginStep(s, more[0], c, head, cs, i);
    var l: nat :| LoadStep(more[0], more[1], l);
    var rest :| CommitStep(more[1], more[2], c, rest);
    var rest2 :| CommitStep(more[3], more[4], d, rest2);
    Records(more[1], more[2], c, rest);
    Records(more[3], more[4], d, rest2);
    client := more[1].clients[c];
    used := Loaded(client, more[1].cells).value;
    assert more[4].log[|s.log|] == more[2].log[|s.log|];
  }

  lemma RepeatsWrites(s: System, rules: (string, string) -> bool, more: seq<System>, c: nat, d: nat, cs: seq<Change>, t: int)
    requires Inv(s, rules) && Stale(cs) && t in Last(s.log).snap.tables && Repeats(s, more, c, d, cs, t)
    ensures WritesRows(cs, t)
  {
    hide Inv, Stale, WritesRows, Outcome, BeginStep, LoadStep, CommitStep, Rows;
    HeadIsFree(s, rules);
    var client, used := FirstEntry(s, more, c, d, cs, t);
    var log := more[4].log;
    var r, q :| r in log[|log| - 2].ranges && q in log[|log| - 1].ranges && Clash(r, q, t);
    RowsOfOne(Outcome(client, used).ranges, t, r);
    StaleRowsIff(client, used, t);
  }
}
