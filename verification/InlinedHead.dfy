/**
 * Where the inlined rows of a commit go: which table each write reaches, what every inlined-data
 * table holds afterwards, and what a scan at the new head reads of it.
 */
module InlinedHead {
  import opened Prelude
  import opened Versions
  import opened Catalog
  import opened LoadedCatalogs
  import opened Persist
  import opened TimeTravel

  type InlinedData = map<InlinedTableRow, seq<Versioned<string>>>

  /**
   * Rows of table `id` go to `k`: to the inlined-data table that this commit creates for the table
   * or, if it creates none, to the one registered with the table's highest schema version.
   */
  predicate GoesTo(registered: seq<InlinedTableRow>, created: seq<int>, schemaVersion: int, id: int, k: InlinedTableRow) {
    && k.tableId == id
    && if id in created then k.schemaVersion == schemaVersion
       else k in registered && forall x :: x in registered && x.tableId == id ==> x.schemaVersion <= k.schemaVersion
  }

  /** The rows of all writes to `k`, in the order of the writes. */
  function RowsFor(registered: seq<InlinedTableRow>, created: seq<int>, schemaVersion: int,
                   writes: seq<(int, seq<string>)>, k: InlinedTableRow): seq<string>
    decreases writes
  {
    if writes == [] then []
    else
      (if GoesTo(registered, created, schemaVersion, writes[0].0, k) then writes[0].1 else [])
      + RowsFor(registered, created, schemaVersion, writes[1..], k)
  }

  lemma TargetIs(registered: seq<InlinedTableRow>, created: seq<int>, id: int, schemaVersion: int, k: InlinedTableRow)
    ensures InlineTarget(registered, created, id, schemaVersion) == Some(k) <==> GoesTo(registered, created, schemaVersion, id, k)
  {
    var latest := LatestRegistration(registered, id);
    if id !in created && latest.Some? && GoesTo(registered, created, schemaVersion, id, k) {
      assert latest.value.schemaVersion == k.schemaVersion;
    }
  }

  lemma {:induction false} InsertedAppend<T>(a: seq<T>, b: seq<T>, n: int)
    ensures Inserted(a + b, n) == Inserted(a, n) + Inserted(b, n)
  {
    assert forall i :: 0 <= i < |a + b| ==> Inserted(a + b, n)[i] == (Inserted(a, n) + Inserted(b, n))[i];
  }

  // ----- creating -----

  /** `CREATE TABLE` succeeds for all tables. */
  ghost predicate Creatable(data: InlinedData, ids: seq<int>, schemaVersion: int) {
    && (forall i :: 0 <= i < |ids| ==> InlinedTableRow(ids[i], schemaVersion) !in data)
    && (forall i, j :: 0 <= i < j < |ids| ==> ids[i] != ids[j])
  }

  predicate IsCreated(ids: seq<int>, schemaVersion: int, k: InlinedTableRow) {
    k.schemaVersion == schemaVersion && k.tableId in ids
  }

  lemma {:induction false} CreatedIff(data: InlinedData, ids: seq<int>, schemaVersion: int)
    ensures CreateInlined(data, ids, schemaVersion).Some? <==> Creatable(data, ids, schemaVersion)
    ensures CreateInlined(data, ids, schemaVersion).Some? ==>
              forall k ::
                var after := CreateInlined(data, ids, schemaVersion).value;
                && (k in after <==> k in data || IsCreated(ids, schemaVersion, k))
                && (k in data ==> after[k] == data[k])
                && (k in after && k !in data ==> after[k] == [])
    decreases ids
  {
    if ids != [] {
      var key, rest := InlinedTableRow(ids[0], schemaVersion), ids[1..];
      CreatedIff(data[key := []], rest, schemaVersion);
      CreatableStep(data, ids, schemaVersion);
      forall k ensures IsCreated(ids, schemaVersion, k) <==> k == key || IsCreated(rest, schemaVersion, k) {
      }
    }
  }

  lemma CreatableStep(data: InlinedData, ids: seq<int>, schemaVersion: int)
    requires ids != []
    ensures
      var key := InlinedTableRow(ids[0], schemaVersion);
      Creatable(data, ids, schemaVersion) <==> key !in data && Creatable(data[key := []], ids[1..], schemaVersion)
  {
    var key, rest := InlinedTableRow(ids[0], schemaVersion), ids[1..];
    assert forall i :: 0 <= i < |rest| ==> rest[i] == ids[i + 1];
    assert forall i :: 0 < i < |ids| ==> ids[i] == rest[i - 1];
    if key !in data && Creatable(data[key := []], rest, schemaVersion) {
      forall i | 0 < i < |ids| ensures ids[i] != ids[0] && InlinedTableRow(ids[i], schemaVersion) !in data {
        assert InlinedTableRow(rest[i - 1], schemaVersion) !in data[key := []];
      }
    }
    if Creatable(data, ids, schemaVersion) {
      forall i | 0 <= i < |rest| ensures InlinedTableRow(rest[i], schemaVersion) !in data[key := []] {
        assert ids[i + 1] != ids[0];
      }
    }
  }

  // ----- writing -----

  /** Every write has an inlined-data table to go to. */
  ghost predicate Writable(data: InlinedData, registered: seq<InlinedTableRow>, created: seq<int>, schemaVersion: int,
                           writes: seq<(int, seq<string>)>) {
    forall w :: w in writes ==> exists k :: k in data && GoesTo(registered, created, schemaVersion, w.0, k)
  }

  /** Each table has its rows of `data`, then those of the writes that go to it. */
  ghost predicate Filled(after: InlinedData, data: InlinedData, registered: seq<InlinedTableRow>, created: seq<int>,
                         schemaVersion: int, writes: seq<(int, seq<string>)>, n: int) {
    && after.Keys == data.Keys
    && forall k :: k in data ==>
         after[k] == data[k] + Inserted(RowsFor(registered, created, schemaVersion, writes, k), n)
  }

  lemma WritableStep(data: InlinedData, next: InlinedData, registered: seq<InlinedTableRow>, created: seq<int>,
                     schemaVersion: int, writes: seq<(int, seq<string>)>)
    requires writes != [] && next.Keys == data.Keys
    requires exists k :: k in data && GoesTo(registered, created, schemaVersion, writes[0].0, k)
    ensures Writable(data, registered, created, schemaVersion, writes)
       <==> Writable(next, registered, created, schemaVersion, writes[1..])
  {
    hide GoesTo;
    assert forall w :: w in writes <==> w == writes[0] || w in writes[1..];
    assert forall k :: k in data <==> k in next;
  }

  lemma FilledStep(after: InlinedData, data: InlinedData, registered: seq<InlinedTableRow>, created: seq<int>,
                   schemaVersion: int, writes: seq<(int, seq<string>)>, n: int, key: InlinedTableRow)
    requires writes != [] && key in data
    requires forall k :: k == key <==> GoesTo(registered, created, schemaVersion, writes[0].0, k)
    requires Filled(after, data[key := data[key] + Inserted(writes[0].1, n)], registered, created, schemaVersion, writes[1..], n)
    ensures Filled(after, data, registered, created, schemaVersion, writes, n)
  {
    hide GoesTo, Inserted;
    var next := data[key := data[key] + Inserted(writes[0].1, n)];
    assert next.Keys == data.Keys;
    forall k | k in data
      ensures after[k] == data[k] + Inserted(RowsFor(registered, created, schemaVersion, writes, k), n)
    {
      var later := RowsFor(registered, created, schemaVersion, writes[1..], k);
      assert k in next;
      if k == key {
        InsertedAppend(writes[0].1, later, n);
      } else {
        assert [] + later == later;
      }
    }
  }

  lemma NothingFilled(data: InlinedData, registered: seq<InlinedTableRow>, created: seq<int>, schemaVersion: int, n: int)
    ensures Filled(data, data, registered, created, schemaVersion, [], n)
  {
    assert forall k :: k in data ==> data[k] + Inserted<string>([], n) == data[k];
  }

  lemma {:induction false} WrittenIff(data: InlinedData, registered: seq<InlinedTableRow>, created: seq<int>,
                                      writes: seq<(int, seq<string>)>, schemaVersion: int, n: int)
    ensures WriteInlined(data, registered, created, writes, schemaVersion, n).Some?
       <==> Writable(data, registered, created, schemaVersion, writes)
    ensures WriteInlined(data, registered, created, writes, schemaVersion, n).Some? ==>
              Filled(WriteInlined(data, registered, created, writes, schemaVersion, n).value,
                     data, registered, created, schemaVersion, writes, n)
    decreases writes
  {
    if writes == [] {
      NothingFilled(data, registered, created, schemaVersion, n);
    } else {
      hide GoesTo, InlineTarget, Filled, Inserted;
      var target := InlineTarget(registered, created, writes[0].0, schemaVersion);
      forall k ensures target == Some(k) <==> GoesTo(registered, created, schemaVersion, writes[0].0, k) {
        TargetIs(registered, created, writes[0].0, schemaVersion, k);
      }
      assert writes[0] in writes;
      if target.Some? && target.value in data {
        var next := data[target.value := data[target.value] + Inserted(writes[0].1, n)];
        assert next.Keys == data.Keys;
        WritableStep(data, next, registered, created, schemaVersion, writes);
        WrittenIff(next, registered, created, writes[1..], schemaVersion, n);
        var after := WriteInlined(next, registered, created, writes[1..], schemaVersion, n);
        if after.Some? {
          FilledStep(after.value, data, registered, created, schemaVersion, writes, n, target.value);
        }
      }
    }
  }

  // ----- both -----

  /** The inlined-data tables once the commit's own are created. */
  predicate Exists(db: Database, ch: TransactionChanges, schemaVersion: int, k: InlinedTableRow) {
    k in db.inlinedData || IsCreated(ch.inlineTables, schemaVersion, k)
  }

  /**
   * Persisting inlined data succeeds exactly when no new table is there yet and every write has a
   * table; then each table holds what it held, followed by the rows of exactly the writes that go to it.
   */
  lemma PersistedInlinedIs(db: Database, ch: TransactionChanges, schemaVersion: int, n: int)
    ensures PersistedInlined(db, ch, schemaVersion, n).Some?
       <==> && Creatable(db.inlinedData, ch.inlineTables, schemaVersion)
            && forall w :: w in ch.inlineData ==>
                 exists k :: Exists(db, ch, schemaVersion, k) && GoesTo(db.inlinedTables, ch.inlineTables, schemaVersion, w.0, k)
    ensures PersistedInlined(db, ch, schemaVersion, n).Some? ==>
              forall k ::
                var after := PersistedInlined(db, ch, schemaVersion, n).value;
                && (k in after <==> Exists(db, ch, schemaVersion, k))
                && (k in after ==>
                      after[k] == (if k in db.inlinedData then db.inlinedData[k] else [])
                                  + Inserted(RowsFor(db.inlinedTables, ch.inlineTables, schemaVersion, ch.inlineData, k), n))
  {
    hide GoesTo, CreateInlined, WriteInlined, RowsFor, Inserted;
    CreatedIff(db.inlinedData, ch.inlineTables, schemaVersion);
    var created := CreateInlined(db.inlinedData, ch.inlineTables, schemaVersion);
    if created.Some? {
      WrittenIff(created.value, db.inlinedTables, ch.inlineTables, ch.inlineData, schemaVersion, n);
    }
  }

  /**
   * At the new head an inlined-data table shows what it showed before, followed by the rows written
   * to it; a table that nothing is written to shows the same rows.
   */
  lemma NewHeadInlined(db: Database, ch: TransactionChanges, info: SnapshotRow, k: InlinedTableRow)
    requires PersistedInlined(db, ch, info.schemaVersion, info.id).Some?
    ensures
      var after := PersistedInlined(db, ch, info.schemaVersion, info.id).value;
      var written := RowsFor(db.inlinedTables, ch.inlineTables, info.schemaVersion, ch.inlineData, k);
      && (k in after <==> Exists(db, ch, info.schemaVersion, k))
      && (k in after && k !in db.inlinedData ==> View(after[k], info.id) == written)
      && (k in db.inlinedData ==> View(after[k], info.id) == View(db.inlinedData[k], info.id) + written)
      && (k in db.inlinedData && Settled(db.inlinedData[k], info.id - 1) ==>
            View(after[k], info.id) == View(db.inlinedData[k], info.id - 1) + written)
  {
    hide GoesTo, PersistedInlined, RowsFor;
    var n := info.id;
    PersistedInlinedIs(db, ch, info.schemaVersion, n);
    var after := PersistedInlined(db, ch, info.schemaVersion, n).value;
    var written := RowsFor(db.inlinedTables, ch.inlineTables, info.schemaVersion, ch.inlineData, k);
    if k in after {
      var before: seq<Versioned<string>> := if k in db.inlinedData then db.inlinedData[k] else [];
      ViewAppend(before, Inserted(written, n), n);
      ViewInserted(written, n);
      if Settled(before, n - 1) {
        HeadSeesOpen(before, n - 1);
        assert Settled(before, n);
        HeadSeesOpen(before, n);
      }
    }
  }

  /**
   * A scan at the new head reads, from every registered inlined-data table of its table and from the
   * ones this commit creates, the rows it read before and then the rows this commit writes.
   */
  lemma NewHeadScan(db: Database, ch: TransactionChanges, info: SnapshotRow, made: string, same: (string, string) -> bool, id: int)
    requires PersistedInlined(db, ch, info.schemaVersion, info.id).Some?
    ensures
      var inlined := PersistedInlined(db, ch, info.schemaVersion, info.id).value;
      var scan := Scan(Persisted(db, ch, info, made, same, inlined), info.id, id).inlined;
      forall k, rows :: (k, rows) in scan <==>
        && k.tableId == id && (k in db.inlinedTables || IsCreated(ch.inlineTables, info.schemaVersion, k)) && rows != []
        && rows == if Exists(db, ch, info.schemaVersion, k)
                   then InlinedRows(db, k, info.id)
                        + RowsFor(db.inlinedTables, ch.inlineTables, info.schemaVersion, ch.inlineData, k)
                   else []
  {
    hide Persisted, PersistedInlined, RowsFor, InlinedRows, InlinedOf, Filter, Exists, IsCreated;
    var n := info.id;
    var inlined := PersistedInlined(db, ch, info.schemaVersion, n).value;
    var after := Persisted(db, ch, info, made, same, inlined);
    InlinedOfIs(after, n, Filter((r: InlinedTableRow) => r.tableId == id, after.inlinedTables));
    forall k: InlinedTableRow
      ensures k in after.inlinedTables <==> k in db.inlinedTables || IsCreated(ch.inlineTables, info.schemaVersion, k)
      ensures InlinedRows(after, k, n)
           == if Exists(db, ch, info.schemaVersion, k)
              then InlinedRows(db, k, n) + RowsFor(db.inlinedTables, ch.inlineTables, info.schemaVersion, ch.inlineData, k)
              else []
    {
      HeadRowsOf(db, ch, info, made, same, k);
    }
  }

  lemma HeadRowsOf(db: Database, ch: TransactionChanges, info: SnapshotRow, made: string, same: (string, string) -> bool, k: InlinedTableRow)
    requires PersistedInlined(db, ch, info.schemaVersion, info.id).Some?
    ensures
      var inlined := PersistedInlined(db, ch, info.schemaVersion, info.id).value;
      var after := Persisted(db, ch, info, made, same, inlined);
      && (k in after.inlinedTables <==> k in db.inlinedTables || IsCreated(ch.inlineTables, info.schemaVersion, k))
      && InlinedRows(after, k, info.id)
         == if Exists(db, ch, info.schemaVersion, k)
            then InlinedRows(db, k, info.id)
                 + RowsFor(db.inlinedTables, ch.inlineTables, info.schemaVersion, ch.inlineData, k)
            else []
  {
    hide GoesTo, PersistedInlined, RowsFor, View, Advance, PersistedTables, PersistedTags, Filter;
    NewHeadInlined(db, ch, info, k);
    MapKeys(ch.inlineTables, info.schemaVersion, k);
    var written := RowsFor(db.inlinedTables, ch.inlineTables, info.schemaVersion, ch.inlineData, k);
    assert [] + written == written;
  }

  lemma MapKeys(ids: seq<int>, schemaVersion: int, k: InlinedTableRow)
    ensures k in Map((id: int) => InlinedTableRow(id, schemaVersion), ids) <==> IsCreated(ids, schemaVersion, k)
  {
    var keys := Map((id: int) => InlinedTableRow(id, schemaVersion), ids);
    if k.tableId in ids && k.schemaVersion == schemaVersion {
      var i :| 0 <= i < |ids| && ids[i] == k.tableId;
      assert keys[i] == k;
    }
  }
}
