/**
 * What a commit hands out is what its change set asks for: a range of row ids as large as the file
 * for every data file, an id for every file, and record counts that tell how many rows were written.
 */
module RowAccounting {
  import opened Prelude
  import opened CommitStates
  import opened Commits

  // ----- one change -----

  /** Resolving a table takes a catalog id exactly if the table is new and has none yet. */
  lemma ResolveTakes(a: Allocation, ref: TableRef)
    ensures
      var b := Resolve(a, ref);
      && b.nextCatalogId - |b.resolved| == a.nextCatalogId - |a.resolved|
      && b.resolved.Keys == a.resolved.Keys + (if ref.Created? then {ref.number} else {})
      && b.ranges == a.ranges && b.nextFileId == a.nextFileId
  {
    if ref.Created? && ref.number !in a.resolved {
      assert a.resolved[ref.number := a.nextCatalogId].Keys == a.resolved.Keys + {ref.number};
    }
  }

  ghost predicate IdsTaken(a: Allocation, b: Allocation, c: Change) {
    && b.nextFileId == a.nextFileId + FilesListed([c])
    && b.nextCatalogId - |b.resolved| == a.nextCatalogId - |a.resolved| + CatalogIdsListed([c])
    && b.resolved.Keys == a.resolved.Keys + NewTables([c])
  }

  lemma ListedOnce(c: Change)
    ensures FilesListed([c]) == if c.WriteDataFiles? then |c.files| + DeleteFilesOf(c.files) else 0
    ensures CatalogIdsListed([c]) == if c.CreateTable? || c.AlterTable? || c.OtherObject? then c.catalogIds else 0
    ensures NewTables([c])
         == if TableOf(c).Some? && TableOf(c).value.Created? then {TableOf(c).value.number} else {}
  {
    assert [c][1..] == [] && FilesListed([]) == 0 && CatalogIdsListed([]) == 0;
  }

  /** The writes of a list with the ids that the tables have in `a`. */
  function WithIds(a: Allocation, listed: seq<(TableRef, nat)>): seq<(int, nat)> {
    Map((w: (TableRef, nat)) => (IdOf(a, w.0), w.1), listed)
  }

  /** One change gives the table it names the rows it lists. */
  lemma ChangeGives(a: Allocation, c: Change)
    ensures Gives(a, ApplyChange(a, c), WithIds(a, ListedBy(c)))
  {
    hide IdsFollow, Resolve, WriteFiles, WriteBatches, TakeCatalogIds, IdOf;
    match c {
      case CreateTable(number, n) =>
        ResolveTakes(a, TableRef.Created(number));
        TakeCatalogIdsFollow(Resolve(a, TableRef.Created(number)), n);
      case AlterTable(table, n) =>
        ResolveTakes(a, table);
        TakeCatalogIdsFollow(Resolve(a, table), n);
      case DropTable(table) => ResolveTakes(a, table);
      case OtherObject(n) => TakeCatalogIdsFollow(a, n);
      case WriteDataFiles(table, files) =>
        ResolveTakes(a, table);
        WriteFilesTake(Resolve(a, table), IdOf(a, table), files);
        assert WithIds(a, ListedBy(c)) == RowsOfFiles(IdOf(a, table), files);
      case WriteInlineData(table, batches) =>
        ResolveTakes(a, table);
        WriteBatchesTake(Resolve(a, table), IdOf(a, table), batches);
        assert WithIds(a, ListedBy(c)) == RowsOfBatches(IdOf(a, table), batches);
    }
  }

  /** One change takes the ids it needs. */
  lemma ChangeTakes(a: Allocation, c: Change)
    ensures IdsTaken(a, ApplyChange(a, c), c)
  {
    hide IdsFollow, FilesListed, CatalogIdsListed, NewTables, Resolve, WriteFiles, WriteBatches, TakeCatalogIds, IdOf, DeleteFilesOf, Gives;
    ListedOnce(c);
    if TableOf(c).Some? {
      ResolveTakes(a, TableOf(c).value);
    }
    match c {
      case CreateTable(number, n) => TakeCatalogIdsFollow(Resolve(a, TableRef.Created(number)), n);
      case AlterTable(table, n) => TakeCatalogIdsFollow(Resolve(a, table), n);
      case DropTable(table) =>
      case OtherObject(n) => TakeCatalogIdsFollow(a, n);
      case WriteDataFiles(table, files) => WriteFilesTake(Resolve(a, table), IdOf(a, table), files);
      case WriteInlineData(table, batches) => WriteBatchesTake(Resolve(a, table), IdOf(a, table), batches);
    }
  }

  // ----- a change set -----

  /** A table keeps the id it has once it is resolved. */
  lemma ListedKeepIds(a: Allocation, c: Change, cs: seq<Change>)
    ensures WithIds(ApplyAll(ApplyChange(a, c), cs), ListedBy(c)) == WithIds(a, ListedBy(c))
  {
    hide RowsFollow, OthersKeepStats, ApplyChange, ApplyAll;
    var b := ApplyChange(a, c);
    ApplyAllFollows(b, cs, 0);
    if ListedBy(c) != [] && c.table.Created? {
      ChangeResolves(a, c, c.table.number);
    }
  }

  lemma {:induction false} ChangesGive(a: Allocation, cs: seq<Change>)
    ensures Gives(a, ApplyAll(a, cs), Wrote(ApplyAll(a, cs), cs))
    decreases cs
  {
    if cs != [] {
      hide ApplyChange, ListedBy, IdOf, Map, Gives;
      var c, rest := cs[0], cs[1..];
      var b := ApplyChange(a, c);
      var d := ApplyAll(b, rest);
      ChangeGives(a, c);
      ChangesGive(b, rest);
      ListedKeepIds(a, c, rest);
      GivesTransitive(a, b, d, WithIds(a, ListedBy(c)), Wrote(d, rest));
      MapAppend((w: (TableRef, nat)) => (IdOf(d, w.0), w.1), ListedBy(c), Listed(rest));
    }
  }

  ghost predicate AllIdsTaken(a: Allocation, b: Allocation, cs: seq<Change>) {
    && b.nextFileId == a.nextFileId + FilesListed(cs)
    && b.nextCatalogId - |b.resolved| == a.nextCatalogId - |a.resolved| + CatalogIdsListed(cs)
    && b.resolved.Keys == a.resolved.Keys + NewTables(cs)
  }

  lemma ListedSum(c: Change, rest: seq<Change>)
    ensures FilesListed([c] + rest) == FilesListed([c]) + FilesListed(rest)
    ensures CatalogIdsListed([c] + rest) == CatalogIdsListed([c]) + CatalogIdsListed(rest)
    ensures NewTables([c] + rest) == NewTables([c]) + NewTables(rest)
  {
    assert ([c] + rest)[1..] == rest;
    ListedOnce(c);
  }

  lemma AllIdsStep(a: Allocation, b: Allocation, d: Allocation, c: Change, rest: seq<Change>)
    requires IdsTaken(a, b, c) && AllIdsTaken(b, d, rest)
    ensures AllIdsTaken(a, d, [c] + rest)
  {
    hide FilesListed, CatalogIdsListed, NewTables;
    ListedSum(c, rest);
    assert d.resolved.Keys == a.resolved.Keys + (NewTables([c]) + NewTables(rest));
  }

  lemma NoIds(a: Allocation)
    ensures AllIdsTaken(a, a, [])
  {
  }

  lemma {:induction false} ChangesTake(a: Allocation, cs: seq<Change>)
    ensures AllIdsTaken(a, ApplyAll(a, cs), cs)
    decreases cs
  {
    hide ApplyChange, IdsTaken, AllIdsTaken;
    if cs == [] {
      NoIds(a);
    } else {
      var b := ApplyChange(a, cs[0]);
      ChangeTakes(a, cs[0]);
      ChangesTake(b, cs[1..]);
      AllIdsStep(a, b, ApplyAll(b, cs[1..]), cs[0], cs[1..]);
      assert [cs[0]] + cs[1..] == cs;
    }
  }

  /**
   * An attempt gives exactly one range of row ids to every data file and every inlined batch, in the
   * order of the change set, for the table it is written to and of its number of rows; it takes one
   * file id for every file, and one catalog id for every object and every new table.
   */
  lemma AttemptTakes(a: Allocation, cs: seq<Change>)
    requires a.ranges == [] && a.resolved == map[]
    ensures
      var b := Attempt(a, cs);
      && RangesAre(b.ranges, Wrote(b, cs))
      && b.nextFileId == a.nextFileId + FilesListed(cs) + (if InlineWithoutFiles(cs) then 1 else 0)
      && b.nextCatalogId == a.nextCatalogId + CatalogIdsListed(cs) + |NewTables(cs)|
      && b.resolved.Keys == NewTables(cs)
  {
    hide RangesAre, InlineWithoutFiles, Listed, ApplyAll, NewTables;
    ChangesGive(a, cs);
    ChangesTake(a, cs);
    var b, c := ApplyAll(a, cs), Attempt(a, cs);
    assert b.ranges[|a.ranges|..] == b.ranges == c.ranges;
    SameIds(b, c, Listed(cs));
    assert b.resolved.Keys == NewTables(cs) && |b.resolved| == |b.resolved.Keys|;
  }

  lemma SameIds(a: Allocation, b: Allocation, listed: seq<(TableRef, nat)>)
    requires a.resolved == b.resolved && a.nextCatalogId == b.nextCatalogId
    ensures Map((w: (TableRef, nat)) => (IdOf(a, w.0), w.1), listed) == Map((w: (TableRef, nat)) => (IdOf(b, w.0), w.1), listed)
  {
    MapCongruent((w: (TableRef, nat)) => (IdOf(a, w.0), w.1), (w: (TableRef, nat)) => (IdOf(b, w.0), w.1), listed);
  }

  // ----- runs -----

  function RowsTo(wrote: seq<(int, nat)>, t: int): nat {
    if wrote == [] then 0 else (if wrote[0].0 == t then wrote[0].1 else 0) + RowsTo(wrote[1..], t)
  }

  /** All rows that the change sets of the log's commits list for a table. */
  function WrittenTo(log: seq<Entry>, t: int): nat {
    if log == [] then 0 else WrittenTo(log[..|log| - 1], t) + RowsTo(Last(log).wrote, t)
  }

  lemma {:induction false} RangesRows(ranges: seq<RowRange>, wrote: seq<(int, nat)>, t: int)
    requires RangesAre(ranges, wrote)
    ensures Rows(Filter(OfTable(t), ranges)) == RowsTo(wrote, t)
  {
    if ranges != [] {
      RangesRows(ranges[1..], wrote[1..], t);
    }
  }

  ghost predicate LogGives(log: seq<Entry>) { forall k :: 0 <= k < |log| ==> RangesAre(log[k].ranges, log[k].wrote) }

  /** In every run each commit gave every data file and inlined batch of its change set its own rows. */
  lemma {:induction false} CommitsGiveWhatTheyList(run: seq<System>, rules: (string, string) -> bool, i: nat)
    requires Run(run, rules) && i < |run|
    ensures LogGives(run[i].log)
  {
    hide Outcome, RangesAre, NextSnap, PersistStats, SummaryOf, Wrote, RequiresStats;
    if i == 0 {
      NothingGivenAtFirst();
    } else {
      CommitsGiveWhatTheyList(run, rules, i - 1);
      var a, b := run[i - 1], run[i];
      assert Step(run[i - 1], run[i - 1 + 1], rules);
      if c: nat, rest :| CommitStep(a, b, c, rest) {
        var client := a.clients[c];
        var used := Loaded(client, a.cells).value;
        OutcomeGives(client, used);
      }
    }
  }

  lemma NothingGivenAtFirst()
    ensures RangesAre([], [])
  {
  }

  lemma OutcomeGives(client: Client, used: map<int, TableStats>)
    requires client.Busy?
    ensures RangesAre(Outcome(client, used).ranges, Wrote(Outcome(client, used), client.changes))
  {
    hide Attempt;
    AttemptTakes(Start(client.latest.info.nextCatalogId, client.latest.info.nextFileId, used), client.changes);
  }

  lemma {:induction false} RangesOfLog(log: seq<Entry>, t: int)
    requires LogGives(log)
    ensures Rows(RangesOf(log, t)) == WrittenTo(log, t)
  {
    if log != [] {
      var before := log[..|log| - 1];
      RangesOfLog(before, t);
      RangesRows(Last(log).ranges, Last(log).wrote, t);
      ContiguousAppend(RangesOf(before, t), Filter(OfTable(t), Last(log).ranges), 0);
    }
  }

  lemma {:induction false} CarefulIsRun(run: seq<System>, rules: (string, string) -> bool)
    requires CarefulRun(run, rules)
    ensures Run(run, rules)
  {
    hide BeginStep, ShareStep, LoadStep, CommitStep, FailStep, RefreshStep, CheckStep, ExpireStep, Stale, Polite;
    forall i | 0 <= i < |run| - 1 ensures Step(run[i], run[i + 1], rules) {
      assert CarefulStep(run[i], run[i + 1], rules);
    }
  }

  /**
   * In every careful run a table's row ids cover exactly the rows that all commits wrote to it, once
   * each, and its statistics hold their number, as next row id and as record count.
   */
  lemma RowIdsCoverWrittenRows(run: seq<System>, rules: (string, string) -> bool, i: nat, t: int)
    requires CarefulRun(run, rules) && i < |run|
    ensures
      var s, written := run[i], WrittenTo(run[i].log, t);
      && Contiguous(RangesOf(s.log, t), 0) && Rows(RangesOf(s.log, t)) == written
      && s.log != [] && (t in Last(s.log).snap.tables ==> StatsOf(s.stats, t) == TableStats(written, Some(written)))
  {
    hide CarefulRun, Run, Contiguous, Rows, RangesOf, StatsOf, LogGives;
    CarefulIsRun(run, rules);
    CommitsGiveWhatTheyList(run, rules, i);
    RangesOfLog(run[i].log, t);
    RowIdsAreContiguous(run, rules, i, t);
  }
}
