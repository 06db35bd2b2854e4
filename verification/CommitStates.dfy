/**
 * One commit attempt (transaction/commit_state.rs, transaction/changes, transaction/executors):
 * the ids and row ids it hands out, starting from the sequences of one snapshot.
 */
module CommitStates {
  import opened Prelude

  /** Statistics of a table. Columns' statistics follow the same path and are left out. */
  datatype TableStats = TableStats(nextRowId: int, recordCount: Option<int>)

  const NO_STATS := TableStats(0, Some(0))

  /** A table of the catalog, or one this transaction creates, numbered within the transaction. */
  datatype TableRef = Existing(id: int) | Created(number: nat)

  datatype DataFile = DataFile(rows: nat, deleteFiles: nat)

  /** `catalogIds` counts the ids a change takes for partitions, sort orders, schemas, views and macros. */
  datatype Change =
    | CreateTable(number: nat, catalogIds: nat)
    | AlterTable(table: TableRef, catalogIds: nat)
    | DropTable(table: TableRef)
    | OtherObject(catalogIds: nat)
    | WriteDataFiles(table: TableRef, files: seq<DataFile>)
    | WriteInlineData(table: TableRef, batches: seq<nat>)

  predicate ChangesSchema(cs: seq<Change>) { exists c :: c in cs && !c.WriteDataFiles? && !c.WriteInlineData? }

  predicate RequiresStats(cs: seq<Change>) { exists c :: c in cs && (c.WriteDataFiles? || c.WriteInlineData?) }

  predicate InlineWithoutFiles(cs: seq<Change>) {
    (exists c :: c in cs && c.WriteInlineData?) && !(exists c :: c in cs && c.WriteDataFiles?)
  }

  /** Row ids `start .. start + count` given to rows of a table. */
  datatype RowRange = RowRange(tableId: int, start: int, count: nat)

  /** The state of an attempt: what is left of the sequences, and everything handed out so far. */
  datatype Allocation = Allocation(
    nextCatalogId: int,
    nextFileId: int,
    resolved: map<nat, int>,
    stats: map<int, TableStats>,
    catalogIds: seq<int>,
    fileIds: seq<int>,
    ranges: seq<RowRange>,
    written: set<int>
  )

  function Start(nextCatalogId: int, nextFileId: int, stats: map<int, TableStats>): Allocation {
    Allocation(nextCatalogId, nextFileId, map[], stats, [], [], [], {})
  }

  /** `table_stats`: the entry of the table, or the default one. */
  function StatsOf(stats: map<int, TableStats>, id: int): TableStats { if id in stats then stats[id] else NO_STATS }

  function WithRows(s: TableStats, rows: nat): TableStats {
    TableStats(s.nextRowId + rows, Some((if s.recordCount.Some? then s.recordCount.value else 0) + rows))
  }

  // ----- the steps as functions -----

  function TakeCatalogId(a: Allocation): Allocation {
    a.(nextCatalogId := a.nextCatalogId + 1, catalogIds := a.catalogIds + [a.nextCatalogId])
  }

  function TakeFileId(a: Allocation): Allocation {
    a.(nextFileId := a.nextFileId + 1, fileIds := a.fileIds + [a.nextFileId])
  }

  function TakeCatalogIds(a: Allocation, n: nat): Allocation
    decreases n
  {
    if n == 0 then a else TakeCatalogIds(TakeCatalogId(a), n - 1)
  }

  function TakeFileIds(a: Allocation, n: nat): Allocation
    decreases n
  {
    if n == 0 then a else TakeFileIds(TakeFileId(a), n - 1)
  }

  /** `table_id`: a created table gets its id when it is first asked for. */
  function Resolve(a: Allocation, ref: TableRef): Allocation {
    match ref
    case Existing(_) => a
    case Created(number) =>
      if number in a.resolved then a
      else TakeCatalogId(a).(resolved := a.resolved[number := a.nextCatalogId])
  }

  function IdOf(a: Allocation, ref: TableRef): int {
    match ref
    case Existing(id) => id
    case Created(number) => if number in a.resolved then a.resolved[number] else a.nextCatalogId
  }

  /** Give row ids to `rows` new rows of a table and count them. */
  function TakeRows(a: Allocation, id: int, rows: nat): Allocation {
    var s := StatsOf(a.stats, id);
    a.(ranges := a.ranges + [RowRange(id, s.nextRowId, rows)], stats := a.stats[id := WithRows(s, rows)])
  }

  function WriteFiles(a: Allocation, id: int, files: seq<DataFile>): Allocation
    decreases files
  {
    if files == [] then a
    else WriteFiles(TakeFileIds(TakeRows(TakeFileId(a), id, files[0].rows), files[0].deleteFiles), id, files[1..])
  }

  function WriteBatches(a: Allocation, id: int, batches: seq<nat>): Allocation
    decreases batches
  {
    if batches == [] then a else WriteBatches(TakeRows(a, id, batches[0]), id, batches[1..])
  }

  function Touch(a: Allocation, id: int): Allocation { a.(written := a.written + {id}) }

  function ApplyChange(a: Allocation, c: Change): Allocation {
    match c
    case CreateTable(number, n) => TakeCatalogIds(Resolve(a, Created(number)), n)
    case AlterTable(table, n) => TakeCatalogIds(Resolve(a, table), n)
    case DropTable(table) => Resolve(a, table)
    case OtherObject(n) => TakeCatalogIds(a, n)
    case WriteDataFiles(table, files) => Touch(WriteFiles(Resolve(a, table), IdOf(a, table), files), IdOf(a, table))
    case WriteInlineData(table, batches) => Touch(WriteBatches(Resolve(a, table), IdOf(a, table), batches), IdOf(a, table))
  }

  function ApplyAll(a: Allocation, cs: seq<Change>): Allocation
    decreases cs
  {
    if cs == [] then a else ApplyAll(ApplyChange(a, cs[0]), cs[1..])
  }

  /** A whole attempt: the changes, then a file id given up when only inline data was written. */
  function Attempt(a: Allocation, cs: seq<Change>): Allocation {
    var b := ApplyAll(a, cs);
    if InlineWithoutFiles(cs) then b.(nextFileId := b.nextFileId + 1) else b
  }

  // ----- what a change set asks for -----

  /** Table and row count of every data file, or of every inlined batch, that a change writes. */
  function ListedBy(c: Change): seq<(TableRef, nat)> {
    match c
    case WriteDataFiles(table, files) => seq(|files|, i requires 0 <= i < |files| => (table, files[i].rows))
    case WriteInlineData(table, batches) => seq(|batches|, i requires 0 <= i < |batches| => (table, batches[i]))
    case _ => []
  }

  function Listed(cs: seq<Change>): seq<(TableRef, nat)> { if cs == [] then [] else ListedBy(cs[0]) + Listed(cs[1..]) }

  /** The same with the ids that the tables have at the end of the attempt. */
  function Wrote(a: Allocation, cs: seq<Change>): seq<(int, nat)> {
    Map((w: (TableRef, nat)) => (IdOf(a, w.0), w.1), Listed(cs))
  }

  function DeleteFilesOf(files: seq<DataFile>): nat { if files == [] then 0 else files[0].deleteFiles + DeleteFilesOf(files[1..]) }

  /** One id for each data file and each delete file. */
  function FilesListed(cs: seq<Change>): nat {
    if cs == [] then 0
    else (if cs[0].WriteDataFiles? then |cs[0].files| + DeleteFilesOf(cs[0].files) else 0) + FilesListed(cs[1..])
  }

  function CatalogIdsListed(cs: seq<Change>): nat {
    if cs == [] then 0
    else (if cs[0].CreateTable? || cs[0].AlterTable? || cs[0].OtherObject? then cs[0].catalogIds else 0) + CatalogIdsListed(cs[1..])
  }

  function NewTables(cs: seq<Change>): set<nat> {
    set c | c in cs && TableOf(c).Some? && TableOf(c).value.Created? :: TableOf(c).value.number
  }

  /** One range for each entry, for its table and of its size. */
  predicate RangesAre(ranges: seq<RowRange>, wrote: seq<(int, nat)>) {
    |ranges| == |wrote| && forall k :: 0 <= k < |wrote| ==> ranges[k].tableId == wrote[k].0 && ranges[k].count == wrote[k].1
  }

  // ----- the state object -----

  class CommitState {
    var nextCatalogId: int
    var nextFileId: int
    var resolved: map<nat, int>
    var stats: map<int, TableStats>
    ghost var catalogIds: seq<int>
    ghost var fileIds: seq<int>
    var ranges: seq<RowRange>
    var written: set<int>

    ghost function Value(): Allocation
      reads this
    {
      Allocation(nextCatalogId, nextFileId, resolved, stats, catalogIds, fileIds, ranges, written)
    }

    constructor (nextCatalogId: int, nextFileId: int, stats: map<int, TableStats>)
      ensures Value() == Start(nextCatalogId, nextFileId, stats)
    {
      this.nextCatalogId, this.nextFileId, this.stats := nextCatalogId, nextFileId, stats;
      resolved, catalogIds, fileIds, ranges, written := map[], [], [], [], {};
    }

    method CatalogId() returns (id: int)
      modifies this
      ensures id == old(nextCatalogId) && Value() == TakeCatalogId(old(Value()))
    {
      id := nextCatalogId;
      catalogIds := catalogIds + [nextCatalogId];
      nextCatalogId := nextCatalogId + 1;
    }

    method FileId() returns (id: int)
      modifies this
      ensures id == old(nextFileId) && Value() == TakeFileId(old(Value()))
    {
      id := nextFileId;
      fileIds := fileIds + [nextFileId];
      nextFileId := nextFileId + 1;
    }

    method TableId(ref: TableRef) returns (id: int)
      modifies this
      ensures id == IdOf(old(Value()), ref) && Value() == Resolve(old(Value()), ref)
    {
      match ref
      case Existing(known) => id := known;
      case Created(number) =>
        if number in resolved { return resolved[number]; }
        id := CatalogId();
        resolved := resolved[number := id];
    }

    /** `advance_row_id` and `add_record_count`. */
    method AddRows(table: int, rows: nat)
      modifies this
      ensures Value() == TakeRows(old(Value()), table, rows)
    {
      var s := if table in stats then stats[table] else NO_STATS;
      ranges := ranges + [RowRange(table, s.nextRowId, rows)];
      stats := stats[table := TableStats(s.nextRowId + rows, Some((if s.recordCount.Some? then s.recordCount.value else 0) + rows))];
    }

    method TakeIds(n: nat)
      modifies this
      ensures Value() == TakeCatalogIds(old(Value()), n)
    {
      for i := 0 to n
        invariant TakeCatalogIds(old(Value()), n) == TakeCatalogIds(Value(), n - i)
      {
        var id := CatalogId();
      }
    }

    /** `write_table_data`. */
    method WriteTableData(ref: TableRef, files: seq<DataFile>)
      modifies this
      ensures Value() == ApplyChange(old(Value()), Change.WriteDataFiles(ref, files))
      ensures old(ranges) <= ranges && |ranges| == |old(ranges)| + |files|
      ensures forall k :: 0 <= k < |files| ==>
                && ranges[|old(ranges)|..][k].tableId == IdOf(old(Value()), ref)
                && ranges[|old(ranges)|..][k].count == files[k].rows
      ensures nextFileId == old(nextFileId) + |files| + DeleteFilesOf(files)
    {
      var table := TableId(ref);
      ghost var start := Value();
      WriteFilesTake(start, table, files);
      for i := 0 to |files|
        invariant WriteFiles(start, table, files) == WriteFiles(Value(), table, files[i..])
      {
        ghost var before := Value();
        var fileId := FileId();
        AddRows(table, files[i].rows);
        ghost var rows := Value();
        for j := 0 to files[i].deleteFiles
          invariant TakeFileIds(rows, files[i].deleteFiles) == TakeFileIds(Value(), files[i].deleteFiles - j)
        {
          var deleteFileId := FileId();
        }
        assert files[i..][0] == files[i] && files[i..][1..] == files[i + 1..];
      }
      written := written + {table};
    }

    /** `write_table_inline_data`. */
    method WriteTableInlineData(ref: TableRef, batches: seq<nat>)
      modifies this
      ensures Value() == ApplyChange(old(Value()), Change.WriteInlineData(ref, batches))
      ensures old(ranges) <= ranges && |ranges| == |old(ranges)| + |batches| && nextFileId == old(nextFileId)
      ensures forall k :: 0 <= k < |batches| ==>
                && ranges[|old(ranges)|..][k].tableId == IdOf(old(Value()), ref)
                && ranges[|old(ranges)|..][k].count == batches[k]
    {
      var table := TableId(ref);
      ghost var start := Value();
      WriteBatchesTake(start, table, batches);
      for i := 0 to |batches|
        invariant WriteBatches(start, table, batches) == WriteBatches(Value(), table, batches[i..])
      {
        assert batches[i..][0] == batches[i] && batches[i..][1..] == batches[i + 1..];
        AddRows(table, batches[i]);
      }
      written := written + {table};
    }

    method Apply(c: Change)
      modifies this
      ensures Value() == ApplyChange(old(Value()), c)
    {
      match c
      case CreateTable(number, n) => var id := TableId(Created(number)); TakeIds(n);
      case AlterTable(table, n) => var id := TableId(table); TakeIds(n);
      case DropTable(table) => var id := TableId(table);
      case OtherObject(n) => TakeIds(n);
      case WriteDataFiles(table, files) => WriteTableData(table, files);
      case WriteInlineData(table, batches) => WriteTableInlineData(table, batches);
    }

    /** `ChangeSet::apply`. */
    method ApplyChanges(cs: seq<Change>)
      modifies this
      ensures Value() == Attempt(old(Value()), cs)
    {
      var inlineData, dataFiles := false, false;
      for i := 0 to |cs|
        invariant ApplyAll(old(Value()), cs) == ApplyAll(Value(), cs[i..])
        invariant inlineData <==> exists c :: c in cs[..i] && c.WriteInlineData?
        invariant dataFiles <==> exists c :: c in cs[..i] && c.WriteDataFiles?
      {
        assert cs[i..][0] == cs[i] && cs[i..][1..] == cs[i + 1..];
        assert cs[..i + 1] == cs[..i] + [cs[i]];
        Apply(cs[i]);
        inlineData := inlineData || cs[i].WriteInlineData?;
        dataFiles := dataFiles || cs[i].WriteDataFiles?;
      }
      assert cs[..|cs|] == cs;
      if inlineData && !dataFiles {
        nextFileId := nextFileId + 1;
      }
    }
  }

  // ----- what an attempt hands out -----

  function Upto(from: int, to: int): seq<int>
    requires from <= to
  {
    seq(to - from, i => from + i)
  }

  /** Each range starts where the one before it ended, the first one at `from`. */
  predicate Contiguous(ranges: seq<RowRange>, from: int)
    decreases ranges
  {
    ranges == [] || (ranges[0].start == from && Contiguous(ranges[1..], from + ranges[0].count))
  }

  function Rows(ranges: seq<RowRange>): nat { if ranges == [] then 0 else ranges[0].count + Rows(ranges[1..]) }

  function OfTable(id: int): RowRange -> bool { (r: RowRange) => r.tableId == id }

  lemma {:induction false} ContiguousAppend(a: seq<RowRange>, b: seq<RowRange>, from: int)
    ensures Contiguous(a + b, from) <==> Contiguous(a, from) && Contiguous(b, from + Rows(a))
    ensures Rows(a + b) == Rows(a) + Rows(b)
    decreases a
  {
    if a == [] {
      assert a + b == b;
    } else {
      assert (a + b)[1..] == a[1..] + b;
      ContiguousAppend(a[1..], b, from + a[0].count);
    }
  }

  /** The record count of a table once the given ranges are counted; a table without a count starts at 0. */
  function Counted(count: Option<int>, added: seq<RowRange>): Option<int> {
    if added == [] then count else Some((if count.Some? then count.value else 0) + Rows(added))
  }

  /** The rows given to table `id` between `a` and `b` are the next ones by its statistics, and are counted. */
  ghost predicate RowsFollow(a: Allocation, b: Allocation, id: int) {
    && a.ranges <= b.ranges
    && var added := Filter(OfTable(id), b.ranges[|a.ranges|..]);
       && Contiguous(added, StatsOf(a.stats, id).nextRowId)
       && StatsOf(b.stats, id).nextRowId == StatsOf(a.stats, id).nextRowId + Rows(added)
       && StatsOf(b.stats, id).recordCount == Counted(StatsOf(a.stats, id).recordCount, added)
  }

  /** `b` is reached from `a` by handing out the next catalog ids and file ids, each once and in order. */
  ghost predicate IdsFollow(a: Allocation, b: Allocation) {
    && a.nextCatalogId <= b.nextCatalogId && a.nextFileId <= b.nextFileId
    && b.catalogIds == a.catalogIds + Upto(a.nextCatalogId, b.nextCatalogId)
    && b.fileIds == a.fileIds + Upto(a.nextFileId, b.nextFileId)
    && (forall k :: k in a.resolved ==> k in b.resolved && b.resolved[k] == a.resolved[k])
    && (forall k :: k in b.resolved && k !in a.resolved ==> a.nextCatalogId <= b.resolved[k] < b.nextCatalogId)
  }

  /** Only written tables change their statistics. */
  ghost predicate OthersKeepStats(a: Allocation, b: Allocation) {
    && a.written <= b.written
    && forall id :: id !in b.written ==> (id in b.stats <==> id in a.stats) && StatsOf(b.stats, id) == StatsOf(a.stats, id)
  }

  lemma IdsFollowTransitive(a: Allocation, b: Allocation, c: Allocation)
    requires IdsFollow(a, b) && IdsFollow(b, c)
    ensures IdsFollow(a, c)
  {
    assert Upto(a.nextCatalogId, b.nextCatalogId) + Upto(b.nextCatalogId, c.nextCatalogId)
        == Upto(a.nextCatalogId, c.nextCatalogId);
    assert Upto(a.nextFileId, b.nextFileId) + Upto(b.nextFileId, c.nextFileId) == Upto(a.nextFileId, c.nextFileId);
    assert c.catalogIds == a.catalogIds + (Upto(a.nextCatalogId, b.nextCatalogId) + Upto(b.nextCatalogId, c.nextCatalogId));
    assert c.fileIds == a.fileIds + (Upto(a.nextFileId, b.nextFileId) + Upto(b.nextFileId, c.nextFileId));
  }

  lemma RowsFollowTransitive(a: Allocation, b: Allocation, c: Allocation, id: int)
    requires RowsFollow(a, b, id) && RowsFollow(b, c, id)
    ensures RowsFollow(a, c, id)
  {
    hide Filter, StatsOf, OfTable, Contiguous;
    var first, second := b.ranges[|a.ranges|..], c.ranges[|b.ranges|..];
    assert c.ranges[|a.ranges|..] == first + second;
    FilterAppend(OfTable(id), first, second);
    ContiguousAppend(Filter(OfTable(id), first), Filter(OfTable(id), second), StatsOf(a.stats, id).nextRowId);
  }

  lemma {:induction false} TakeCatalogIdsFollow(a: Allocation, n: nat)
    ensures IdsFollow(a, TakeCatalogIds(a, n))
    ensures TakeCatalogIds(a, n) == a.(nextCatalogId := a.nextCatalogId + n, catalogIds := TakeCatalogIds(a, n).catalogIds)
    decreases n
  {
    if n > 0 {
      var b := TakeCatalogId(a);
      assert Upto(a.nextCatalogId, a.nextCatalogId + 1) == [a.nextCatalogId];
      TakeCatalogIdsFollow(b, n - 1);
      IdsFollowTransitive(a, b, TakeCatalogIds(b, n - 1));
    }
  }

  lemma {:induction false} TakeFileIdsFollow(a: Allocation, n: nat)
    ensures IdsFollow(a, TakeFileIds(a, n))
    ensures TakeFileIds(a, n) == a.(nextFileId := a.nextFileId + n, fileIds := TakeFileIds(a, n).fileIds)
    decreases n
  {
    if n > 0 {
      var b := TakeFileId(a);
      assert Upto(a.nextFileId, a.nextFileId + 1) == [a.nextFileId];
      TakeFileIdsFollow(b, n - 1);
      IdsFollowTransitive(a, b, TakeFileIds(b, n - 1));
    }
  }

  lemma ResolveFollows(a: Allocation, ref: TableRef)
    ensures IdsFollow(a, Resolve(a, ref))
    ensures Resolve(a, ref).(nextCatalogId := a.nextCatalogId, catalogIds := a.catalogIds, resolved := a.resolved) == a
    ensures ref.Created? ==> ref.number in Resolve(a, ref).resolved && Resolve(a, ref).resolved[ref.number] == IdOf(a, ref)
  {
    assert Upto(a.nextCatalogId, a.nextCatalogId + 1) == [a.nextCatalogId];
  }

  lemma TakeRowsFollows(a: Allocation, table: int, rows: nat, id: int)
    ensures RowsFollow(a, TakeRows(a, table, rows), id)
  {
    var b := TakeRows(a, table, rows);
    assert b.ranges[|a.ranges|..] == [RowRange(table, StatsOf(a.stats, table).nextRowId, rows)];
  }

  /** Handing out ids leaves row ids alone. */
  lemma SameRowsFollow(a: Allocation, b: Allocation, id: int)
    requires a.ranges == b.ranges && a.stats == b.stats
    ensures RowsFollow(a, b, id)
  {
  }

  /** Writing one data file: its id, its rows, then the ids of its delete files. */
  function WriteFile(a: Allocation, id: int, file: DataFile): Allocation {
    TakeFileIds(TakeRows(TakeFileId(a), id, file.rows), file.deleteFiles)
  }

  lemma WriteFileFollows(a: Allocation, table: int, file: DataFile, id: int)
    ensures IdsFollow(a, WriteFile(a, table, file)) && RowsFollow(a, WriteFile(a, table, file), id)
    ensures WriteFile(a, table, file).nextFileId == a.nextFileId + 1 + file.deleteFiles
    ensures WriteFile(a, table, file).written == a.written && OnlyTable(a, WriteFile(a, table, file), table)
  {
    var b := TakeFileId(a);
    var c := TakeRows(b, table, file.rows);
    assert Upto(a.nextFileId, a.nextFileId + 1) == [a.nextFileId];
    TakeRowsFollows(b, table, file.rows, id);
    TakeFileIdsFollow(c, file.deleteFiles);
    IdsFollowTransitive(a, c, TakeFileIds(c, file.deleteFiles));
  }

  /** Statistics change for one table at most. */
  ghost predicate OnlyTable(a: Allocation, b: Allocation, table: int) {
    forall id :: id != table ==> (id in b.stats <==> id in a.stats) && StatsOf(b.stats, id) == StatsOf(a.stats, id)
  }

  lemma {:induction false} WriteFilesFollows(a: Allocation, table: int, files: seq<DataFile>, id: int)
    ensures IdsFollow(a, WriteFiles(a, table, files)) && RowsFollow(a, WriteFiles(a, table, files), id)
    ensures WriteFiles(a, table, files).nextFileId == a.nextFileId <==> files == []
    ensures WriteFiles(a, table, files).written == a.written && OnlyTable(a, WriteFiles(a, table, files), table)
    decreases files
  {
    if files != [] {
      var b := WriteFile(a, table, files[0]);
      WriteFileFollows(a, table, files[0], id);
      WriteFilesFollows(b, table, files[1..], id);
      IdsFollowTransitive(a, b, WriteFiles(b, table, files[1..]));
      RowsFollowTransitive(a, b, WriteFiles(b, table, files[1..]), id);
    } else {
      SameRowsFollow(a, a, id);
    }
  }

  lemma {:induction false} WriteBatchesFollows(a: Allocation, table: int, batches: seq<nat>, id: int)
    ensures IdsFollow(a, WriteBatches(a, table, batches)) && RowsFollow(a, WriteBatches(a, table, batches), id)
    ensures WriteBatches(a, table, batches).nextFileId == a.nextFileId
    ensures WriteBatches(a, table, batches).written == a.written && OnlyTable(a, WriteBatches(a, table, batches), table)
    decreases batches
  {
    if batches != [] {
      var b := TakeRows(a, table, batches[0]);
      TakeRowsFollows(a, table, batches[0], id);
      WriteBatchesFollows(b, table, batches[1..], id);
      IdsFollowTransitive(a, b, WriteBatches(b, table, batches[1..]));
      RowsFollowTransitive(a, b, WriteBatches(b, table, batches[1..]), id);
    } else {
      SameRowsFollow(a, a, id);
    }
  }

  predicate TakesFile(c: Change) { c.WriteDataFiles? && c.files != [] }

  lemma ApplyChangeFollows(a: Allocation, c: Change, id: int)
    ensures IdsFollow(a, ApplyChange(a, c)) && RowsFollow(a, ApplyChange(a, c), id)
    ensures OthersKeepStats(a, ApplyChange(a, c))
    ensures ApplyChange(a, c).nextFileId == a.nextFileId <==> !TakesFile(c)
    ensures ApplyChange(a, c).written == a.written + Written(a, c)
  {
    hide IdsFollow, RowsFollow, WriteFiles, WriteBatches, TakeCatalogIds;
    match c {
      case CreateTable(number, n) =>
        var b := Resolve(a, Created(number));
        ResolveFollows(a, Created(number));
        TakeCatalogIdsFollow(b, n);
        IdsFollowTransitive(a, b, TakeCatalogIds(b, n));
        SameRowsFollow(a, TakeCatalogIds(b, n), id);
      case AlterTable(table, n) =>
        var b := Resolve(a, table);
        ResolveFollows(a, table);
        TakeCatalogIdsFollow(b, n);
        IdsFollowTransitive(a, b, TakeCatalogIds(b, n));
        SameRowsFollow(a, TakeCatalogIds(b, n), id);
      case DropTable(table) =>
        ResolveFollows(a, table);
        SameRowsFollow(a, Resolve(a, table), id);
      case OtherObject(n) =>
        TakeCatalogIdsFollow(a, n);
        SameRowsFollow(a, TakeCatalogIds(a, n), id);
      case WriteDataFiles(table, files) =>
        var b := Resolve(a, table);
        ResolveFollows(a, table);
        SameRowsFollow(a, b, id);
        WriteFilesFollows(b, IdOf(a, table), files, id);
        TouchFollows(a, b, WriteFiles(b, IdOf(a, table), files), IdOf(a, table), id);
      case WriteInlineData(table, batches) =>
        var b := Resolve(a, table);
        ResolveFollows(a, table);
        SameRowsFollow(a, b, id);
        WriteBatchesFollows(b, IdOf(a, table), batches, id);
        TouchFollows(a, b, WriteBatches(b, IdOf(a, table), batches), IdOf(a, table), id);
    }
  }

  function Written(a: Allocation, c: Change): set<int> {
    if c.WriteDataFiles? || c.WriteInlineData? then {IdOf(a, c.table)} else {}
  }

  lemma TouchFollows(a: Allocation, b: Allocation, c: Allocation, table: int, id: int)
    requires IdsFollow(a, b) && IdsFollow(b, c) && RowsFollow(a, b, id) && RowsFollow(b, c, id)
    ensures IdsFollow(a, Touch(c, table)) && RowsFollow(a, Touch(c, table), id)
  {
    IdsFollowTransitive(a, b, c);
    RowsFollowTransitive(a, b, c, id);
  }

  lemma {:induction false} ApplyAllFollows(a: Allocation, cs: seq<Change>, id: int)
    ensures IdsFollow(a, ApplyAll(a, cs)) && RowsFollow(a, ApplyAll(a, cs), id)
    ensures OthersKeepStats(a, ApplyAll(a, cs))
    ensures ApplyAll(a, cs).nextFileId == a.nextFileId <==> forall c :: c in cs ==> !TakesFile(c)
    decreases cs
  {
    hide RowsFollow, ApplyChange, StatsOf;
    if cs == [] {
      SameRowsFollow(a, a, id);
    } else {
      var b := ApplyChange(a, cs[0]);
      ApplyChangeFollows(a, cs[0], id);
      ApplyAllFollows(b, cs[1..], id);
      IdsFollowTransitive(a, b, ApplyAll(b, cs[1..]));
      RowsFollowTransitive(a, b, ApplyAll(b, cs[1..]), id);
      assert forall c :: c in cs <==> c == cs[0] || c in cs[1..];
    }
  }

  /** Between `a` and `b` exactly one range was given to each of the listed writes. */
  ghost predicate Gives(a: Allocation, b: Allocation, wrote: seq<(int, nat)>) {
    a.ranges <= b.ranges && RangesAre(b.ranges[|a.ranges|..], wrote)
  }

  lemma GivesTransitive(a: Allocation, b: Allocation, c: Allocation, v: seq<(int, nat)>, w: seq<(int, nat)>)
    requires Gives(a, b, v) && Gives(b, c, w)
    ensures Gives(a, c, v + w)
  {
    assert c.ranges[|a.ranges|..] == b.ranges[|a.ranges|..] + c.ranges[|b.ranges|..];
  }

  function RowsOfFiles(id: int, files: seq<DataFile>): seq<(int, nat)> {
    seq(|files|, i requires 0 <= i < |files| => (id, files[i].rows))
  }

  function RowsOfBatches(id: int, batches: seq<nat>): seq<(int, nat)> {
    seq(|batches|, i requires 0 <= i < |batches| => (id, batches[i]))
  }

  lemma {:induction false} WriteFilesTake(a: Allocation, id: int, files: seq<DataFile>)
    ensures
      var b := WriteFiles(a, id, files);
      && Gives(a, b, RowsOfFiles(id, files))
      && b.nextFileId == a.nextFileId + |files| + DeleteFilesOf(files)
      && b.nextCatalogId == a.nextCatalogId && b.resolved == a.resolved
    decreases files
  {
    if files != [] {
      var first := TakeRows(TakeFileId(a), id, files[0].rows);
      var b := TakeFileIds(first, files[0].deleteFiles);
      TakeFileIdsFollow(first, files[0].deleteFiles);
      assert Gives(a, b, [(id, files[0].rows)]);
      WriteFilesTake(b, id, files[1..]);
      GivesTransitive(a, b, WriteFiles(b, id, files[1..]), [(id, files[0].rows)], RowsOfFiles(id, files[1..]));
      assert RowsOfFiles(id, files) == [(id, files[0].rows)] + RowsOfFiles(id, files[1..]);
    }
  }

  lemma {:induction false} WriteBatchesTake(a: Allocation, id: int, batches: seq<nat>)
    ensures
      var b := WriteBatches(a, id, batches);
      && Gives(a, b, RowsOfBatches(id, batches))
      && b.nextFileId == a.nextFileId && b.nextCatalogId == a.nextCatalogId && b.resolved == a.resolved
    decreases batches
  {
    if batches != [] {
      var b := TakeRows(a, id, batches[0]);
      assert Gives(a, b, [(id, batches[0])]);
      WriteBatchesTake(b, id, batches[1..]);
      GivesTransitive(a, b, WriteBatches(b, id, batches[1..]), [(id, batches[0])], RowsOfBatches(id, batches[1..]));
      assert RowsOfBatches(id, batches) == [(id, batches[0])] + RowsOfBatches(id, batches[1..]);
    }
  }

  // ----- whole attempts -----

  /** Every id in the new prefix of the sequence, and no other, is handed out; each once, in order. */
  lemma AttemptFollows(a: Allocation, cs: seq<Change>, id: int)
    requires a.catalogIds == [] && a.fileIds == [] && a.ranges == [] && a.written == {}
    ensures
      var b := Attempt(a, cs);
      && a.nextCatalogId <= b.nextCatalogId && a.nextFileId <= b.nextFileId
      && b.catalogIds == Upto(a.nextCatalogId, b.nextCatalogId)
      && var given := if InlineWithoutFiles(cs) then b.nextFileId - 1 else b.nextFileId;
      && a.nextFileId <= given && b.fileIds == Upto(a.nextFileId, given)
      && RowsFollow(a, b, id) && OthersKeepStats(a, b)
  {
    hide RowsFollow, ApplyAll, OthersKeepStats, InlineWithoutFiles;
    ApplyAllFollows(a, cs, id);
    BumpKeepsRows(a, cs, id);
  }

  lemma BumpKeepsRows(a: Allocation, cs: seq<Change>, id: int)
    requires RowsFollow(a, ApplyAll(a, cs), id) && OthersKeepStats(a, ApplyAll(a, cs))
    ensures RowsFollow(a, Attempt(a, cs), id) && OthersKeepStats(a, Attempt(a, cs))
  {
  }

  /** Data is written as empty lists of data files only, and nothing else moves the statistics key. */
  predicate Stale(cs: seq<Change>) {
    !ChangesSchema(cs) && (exists c :: c in cs && c.WriteDataFiles?) && forall c :: c in cs ==> !TakesFile(c)
  }

  /** A commit that writes statistics moves the key they are cached under, unless it is stale. */
  lemma StatsKeyMovesIff(a: Allocation, cs: seq<Change>)
    requires RequiresStats(cs)
    ensures !ChangesSchema(cs) && Attempt(a, cs).nextFileId == a.nextFileId <==> Stale(cs)
  {
    hide RowsFollow, OthersKeepStats;
    ApplyAllFollows(a, cs, 0);
    if InlineWithoutFiles(cs) {
      assert forall c :: c in cs ==> !TakesFile(c);
    } else {
      assert exists c :: c in cs && c.WriteDataFiles?;
    }
  }

  /** Tables get written to only by reference: known tables, or tables created by the same attempt. */
  lemma {:induction false} WrittenTables(a: Allocation, cs: seq<Change>, id: int)
    requires id in ApplyAll(a, cs).written && id !in a.written
    ensures
      || (exists c :: c in cs && (c.WriteDataFiles? || c.WriteInlineData?) && c.table == Existing(id))
      || (exists k :: k in a.resolved && a.resolved[k] == id)
      || a.nextCatalogId <= id < ApplyAll(a, cs).nextCatalogId
    decreases cs
  {
    hide RowsFollow, OthersKeepStats, ApplyChange, StatsOf;
    var b := ApplyChange(a, cs[0]);
    ApplyChangeFollows(a, cs[0], 0);
    ApplyAllFollows(b, cs[1..], 0);
    if id in b.written {
      WrittenResolved(a, cs[0]);
      assert cs[0] in cs;
    } else {
      WrittenTables(b, cs[1..], id);
    }
  }

  lemma WrittenResolved(a: Allocation, c: Change)
    ensures forall id :: id in Written(a, c) ==>
              c.table == Existing(id) || (exists k :: k in a.resolved && a.resolved[k] == id)
              || (id == a.nextCatalogId && ApplyChange(a, c).nextCatalogId > id)
  {
    hide WriteFiles, WriteBatches;
    if c.WriteDataFiles? {
      WriteFilesFollows(Resolve(a, c.table), IdOf(a, c.table), c.files, 0);
    } else if c.WriteInlineData? {
      WriteBatchesFollows(Resolve(a, c.table), IdOf(a, c.table), c.batches, 0);
    }
  }

  function CreatedTables(cs: seq<Change>): set<nat> { set c | c in cs && c.CreateTable? :: c.number }

  /** The table a change is about, if any. */
  function TableOf(c: Change): Option<TableRef> {
    match c
    case CreateTable(number, _) => Some(TableRef.Created(number))
    case AlterTable(table, _) => Some(table)
    case DropTable(table) => Some(table)
    case OtherObject(_) => None
    case WriteDataFiles(table, _) => Some(table)
    case WriteInlineData(table, _) => Some(table)
  }

  lemma ChangeResolves(a: Allocation, c: Change, number: nat)
    requires TableOf(c) == Some(TableRef.Created(number))
    ensures number in ApplyChange(a, c).resolved && ApplyChange(a, c).resolved[number] == IdOf(a, TableRef.Created(number))
  {
    hide WriteFiles, WriteBatches, RowsFollow;
    var b := Resolve(a, TableRef.Created(number));
    match c {
      case CreateTable(_, n) => TakeCatalogIdsFollow(b, n);
      case AlterTable(_, n) => TakeCatalogIdsFollow(b, n);
      case DropTable(_) =>
      case WriteDataFiles(table, files) => WriteFilesFollows(b, IdOf(a, table), files, 0);
      case WriteInlineData(table, batches) => WriteBatchesFollows(b, IdOf(a, table), batches, 0);
    }
  }

  /** Every table the transaction creates has got an id by the end of the attempt. */
  lemma {:induction false} CreatedResolved(a: Allocation, cs: seq<Change>, c: Change, number: nat)
    requires c in cs && TableOf(c) == Some(TableRef.Created(number))
    ensures number in ApplyAll(a, cs).resolved
    decreases cs
  {
    hide RowsFollow, OthersKeepStats, StatsOf, ApplyChange;
    var b := ApplyChange(a, cs[0]);
    ApplyAllFollows(b, cs[1..], 0);
    if c == cs[0] {
      ChangeResolves(a, c, number);
    } else {
      assert c in cs[1..];
      CreatedResolved(b, cs[1..], c, number);
    }
  }
}
