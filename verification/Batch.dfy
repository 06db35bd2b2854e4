/** Batched SQL (db/batch.rs): queries split by halving, and batches that equal row-at-a-time execution. */
module Batch {
  import opened Prelude

  // ----- splitting -----

  /** The first of `count`, `count / 2`, ... items whose query fits the bind limit; `None` when one item does not. */
  function Fit<T>(items: seq<T>, cost: seq<T> -> nat, limit: nat, count: nat): (r: Option<nat>)
    requires 0 < count <= |items|
    ensures r.Some? ==> 0 < r.value <= count && cost(items[..r.value]) <= limit
    ensures r.None? ==> cost(items[..1]) > limit
    decreases count
  {
    if cost(items[..count]) <= limit then Some(count)
    else if count == 1 then None
    else Fit(items, cost, limit, count / 2)
  }

  /** A batch is as large as halving finds it: it has all the items offered, or twice as many did not fit. */
  lemma {:induction false} FitIsLargest<T>(items: seq<T>, cost: seq<T> -> nat, limit: nat, count: nat)
    requires 0 < count <= |items|
    ensures
      var fit := Fit(items, cost, limit, count);
      && (fit.None? ==> cost(items[..1]) > limit)
      && (fit.Some? && fit.value < count ==> exists c :: fit.value < c <= count && c / 2 == fit.value && cost(items[..c]) > limit)
    decreases count
  {
    if cost(items[..count]) > limit && count > 1 {
      FitIsLargest(items, cost, limit, count / 2);
    }
  }

  function Min(a: nat, b: nat): nat { if a < b then a else b }

  /** The batches a caller consumes, and whether they end without an error. */
  function Batches<T>(items: seq<T>, maxItems: nat, cost: seq<T> -> nat, limit: nat): (seq<seq<T>>, bool)
    requires maxItems > 0
    decreases |items|
  {
    if items == [] then ([], true)
    else
      match Fit(items, cost, limit, Min(|items|, maxItems))
      case None => ([], false)
      case Some(count) =>
        var (rest, ok) := Batches(items[count..], maxItems, cost, limit);
        ([items[..count]] + rest, ok)
  }

  /** `batch_queries`, consumed to its end or its error. */
  method BatchQueries<T(==)>(items: seq<T>, maxItems: nat, cost: seq<T> -> nat, limit: nat)
    returns (batches: seq<seq<T>>, ok: bool)
    requires maxItems > 0
    ensures (batches, ok) == Batches(items, maxItems, cost, limit)
  {
    batches := [];
    var left := items;
    assert [] + Batches(items, maxItems, cost, limit).0 == Batches(items, maxItems, cost, limit).0;
    while left != []
      invariant Batches(items, maxItems, cost, limit)
             == (batches + Batches(left, maxItems, cost, limit).0, Batches(left, maxItems, cost, limit).1)
      decreases |left|
    {
      var count := Min(|left|, maxItems);
      while cost(left[..count]) > limit
        invariant 0 < count <= |left|
        invariant Fit(left, cost, limit, Min(|left|, maxItems)) == Fit(left, cost, limit, count)
        decreases count
      {
        if count == 1 {
          assert batches + [] == batches;
          return batches, false;
        }
        count := count / 2;
      }
      assert Batches(left, maxItems, cost, limit).0 == [left[..count]] + Batches(left[count..], maxItems, cost, limit).0;
      assert batches + ([left[..count]] + Batches(left[count..], maxItems, cost, limit).0)
          == batches + [left[..count]] + Batches(left[count..], maxItems, cost, limit).0;
      batches := batches + [left[..count]];
      left := left[count..];
    }
    assert batches + [] == batches;
    ok := true;
  }

  function Concat<T>(batches: seq<seq<T>>): seq<T> {
    if batches == [] then [] else batches[0] + Concat(batches[1..])
  }

  /** Batches follow the items in order, fit the limits, and stop only before an item that does not fit alone. */
  ghost predicate Covers<T>(items: seq<T>, batches: seq<seq<T>>, ok: bool, maxItems: nat, cost: seq<T> -> nat, limit: nat) {
    && (forall b :: b in batches ==> 0 < |b| <= maxItems && cost(b) <= limit)
    && Concat(batches) <= items
    && (ok ==> Concat(batches) == items)
    && (!ok ==> |Concat(batches)| < |items| && cost([items[|Concat(batches)|]]) > limit)
  }

  lemma CoversOneMore<T>(items: seq<T>, count: nat, rest: seq<seq<T>>, ok: bool, maxItems: nat, cost: seq<T> -> nat, limit: nat)
    requires 0 < count <= |items| && count <= maxItems && cost(items[..count]) <= limit
    requires Covers(items[count..], rest, ok, maxItems, cost, limit)
    ensures Covers(items, [items[..count]] + rest, ok, maxItems, cost, limit)
  {
    ConcatHead(items[..count], rest);
    PrefixBehind(items, count, Concat(rest));
    assert forall b :: b in [items[..count]] + rest <==> b == items[..count] || b in rest;
  }

  /** However long the items and whatever the cost, the batches cover them. */
  lemma {:induction false} BatchesCover<T>(items: seq<T>, maxItems: nat, cost: seq<T> -> nat, limit: nat)
    requires maxItems > 0
    ensures var (batches, ok) := Batches(items, maxItems, cost, limit); Covers(items, batches, ok, maxItems, cost, limit)
    decreases |items|
  {
    hide Covers, Fit;
    if items == [] {
      NothingCovered(maxItems, cost, limit);
    } else {
      var fit := Fit(items, cost, limit, Min(|items|, maxItems));
      if fit.Some? {
        BatchesCover(items[fit.value..], maxItems, cost, limit);
        var (rest, ok) := Batches(items[fit.value..], maxItems, cost, limit);
        CoversOneMore(items, fit.value, rest, ok, maxItems, cost, limit);
      } else {
        OneTooLarge(items, maxItems, cost, limit);
      }
    }
  }

  lemma NothingCovered<T>(maxItems: nat, cost: seq<T> -> nat, limit: nat)
    ensures Covers([], [], true, maxItems, cost, limit)
  {
  }

  lemma OneTooLarge<T>(items: seq<T>, maxItems: nat, cost: seq<T> -> nat, limit: nat)
    requires items != [] && cost(items[..1]) > limit
    ensures Covers(items, [], false, maxItems, cost, limit)
  {
    assert items[..1] == [items[0]];
  }

  lemma ConcatHead<T>(first: seq<T>, rest: seq<seq<T>>)
    ensures Concat([first] + rest) == first + Concat(rest)
  {
    assert ([first] + rest)[1..] == rest;
  }

  lemma PrefixBehind<T>(items: seq<T>, count: nat, more: seq<T>)
    requires count <= |items| && more <= items[count..]
    ensures items[..count] + more <= items
    ensures more == items[count..] ==> items[..count] + more == items
    ensures |more| < |items| - count ==> items[count..][|more|] == items[count + |more|]
  {
  }

  /** When a longer query never needs fewer parameters, it fails exactly if some item does not fit alone. */
  lemma {:induction false} FailsIffItemTooLarge<T>(items: seq<T>, maxItems: nat, cost: seq<T> -> nat, limit: nat)
    requires maxItems > 0
    requires forall s: seq<T>, i :: 0 <= i < |s| ==> cost([s[i]]) <= cost(s)
    ensures Batches(items, maxItems, cost, limit).1 <==> forall i :: 0 <= i < |items| ==> cost([items[i]]) <= limit
    decreases |items|
  {
    if items != [] {
      var fit := Fit(items, cost, limit, Min(|items|, maxItems));
      if fit.Some? {
        var count := fit.value;
        FailsIffItemTooLarge(items[count..], maxItems, cost, limit);
        forall i | 0 <= i < |items| ensures cost([items[i]]) <= limit <==> i < count || cost([items[count..][i - count]]) <= limit {
          if i < count {
            assert items[..count][i] == items[i];
          }
        }
        if Batches(items[count..], maxItems, cost, limit).1 {
          forall i | 0 <= i < |items| ensures cost([items[i]]) <= limit {
          }
        } else {
          var j :| 0 <= j < |items[count..]| && cost([items[count..][j]]) > limit;
          assert items[count + j] == items[count..][j];
        }
      } else {
        assert items[..1] == [items[0]];
      }
    }
  }

  // ----- updates -----

  /** A table row: its key, the columns an update sets, and the others. */
  datatype Row<K, V> = Row(key: K, value: V, others: string)

  datatype Item<K, V> = Item(key: K, value: V)

  /** The `CASE` of `replacement_value`: the first branch that matches. */
  function FirstValue<K(==), V>(items: seq<Item<K, V>>, key: K): Option<V> {
    if items == [] then None
    else if items[0].key == key then Some(items[0].value)
    else FirstValue(items[1..], key)
  }

  /** What is left when items are applied one after the other: the last one that matches. */
  function LastValue<K(==), V>(items: seq<Item<K, V>>, key: K): Option<V> {
    if items == [] then None
    else
      var rest := LastValue(items[1..], key);
      if rest.Some? then rest else if items[0].key == key then Some(items[0].value) else None
  }

  function WithValue<K, V>(r: Row<K, V>, v: Option<V>): Row<K, V> { if v.Some? then r.(value := v.value) else r }

  /** One batched `UPDATE`. */
  function UpdateBatch<K(==), V>(rows: seq<Row<K, V>>, items: seq<Item<K, V>>): seq<Row<K, V>> {
    Map((r: Row<K, V>) => WithValue(r, FirstValue(items, r.key)), rows)
  }

  function UpdateBatches<K(==), V>(rows: seq<Row<K, V>>, batches: seq<seq<Item<K, V>>>): seq<Row<K, V>>
    decreases batches
  {
    if batches == [] then rows else UpdateBatches(UpdateBatch(rows, batches[0]), batches[1..])
  }

  function UpdateOneByOne<K(==), V>(rows: seq<Row<K, V>>, items: seq<Item<K, V>>): seq<Row<K, V>>
    decreases items
  {
    if items == [] then rows else UpdateOneByOne(UpdateBatch(rows, [items[0]]), items[1..])
  }

  ghost predicate DistinctKeys<K, V>(items: seq<Item<K, V>>) {
    forall i, j :: 0 <= i < j < |items| ==> items[i].key != items[j].key
  }

  /** One by one, the last item for a row's key wins. */
  lemma {:induction false} OneByOneTakesLast<K, V>(rows: seq<Row<K, V>>, items: seq<Item<K, V>>)
    ensures UpdateOneByOne(rows, items) == Map((r: Row<K, V>) => WithValue(r, LastValue(items, r.key)), rows)
    decreases items
  {
    if items == [] {
      assert Map((r: Row<K, V>) => WithValue(r, LastValue(items, r.key)), rows) == rows;
    } else {
      var next := UpdateBatch(rows, [items[0]]);
      OneByOneTakesLast(next, items[1..]);
      forall i | 0 <= i < |rows|
        ensures WithValue(next[i], LastValue(items[1..], next[i].key)) == WithValue(rows[i], LastValue(items, rows[i].key))
      {
        assert FirstValue([items[0]], rows[i].key) == if items[0].key == rows[i].key then Some(items[0].value) else None;
      }
      assert UpdateOneByOne(rows, items) == Map((r: Row<K, V>) => WithValue(r, LastValue(items, r.key)), rows);
    }
  }

  /** A batched update does the same as its items one by one exactly if for every row the first and last item agree. */
  lemma BatchEqualsOneByOneIff<K, V>(rows: seq<Row<K, V>>, items: seq<Item<K, V>>)
    ensures UpdateBatch(rows, items) == UpdateOneByOne(rows, items)
       <==> forall i :: 0 <= i < |rows| ==> FirstValue(items, rows[i].key) == LastValue(items, rows[i].key)
  {
    OneByOneTakesLast(rows, items);
    var batch, last := UpdateBatch(rows, items), Map((r: Row<K, V>) => WithValue(r, LastValue(items, r.key)), rows);
    forall i | 0 <= i < |rows|
      ensures batch[i] == last[i] <==> FirstValue(items, rows[i].key) == LastValue(items, rows[i].key)
    {
      FirstIffLast(items, rows[i].key);
    }
    if batch == last {
      forall i | 0 <= i < |rows| ensures FirstValue(items, rows[i].key) == LastValue(items, rows[i].key) {
        assert batch[i] == last[i];
      }
    }
  }

  lemma {:induction false} FirstIffLast<K, V>(items: seq<Item<K, V>>, key: K)
    ensures FirstValue(items, key).Some? <==> LastValue(items, key).Some?
    ensures FirstValue(items, key).Some? <==> exists i :: 0 <= i < |items| && items[i].key == key
    ensures DistinctKeys(items) ==> FirstValue(items, key) == LastValue(items, key)
  {
    if items != [] {
      FirstIffLast(items[1..], key);
      if i :| 0 <= i < |items[1..]| && items[1..][i].key == key {
        assert items[i + 1].key == key;
      }
      if i :| 0 <= i < |items| && items[i].key == key {
        assert i > 0 ==> items[1..][i - 1].key == key;
      }
    }
  }

  lemma {:induction false} LastOfAppend<K, V>(a: seq<Item<K, V>>, b: seq<Item<K, V>>, key: K)
    ensures LastValue(a + b, key) == if LastValue(b, key).Some? then LastValue(b, key) else LastValue(a, key)
  {
    if a == [] {
      assert a + b == b;
    } else {
      assert (a + b)[1..] == a[1..] + b;
      LastOfAppend(a[1..], b, key);
    }
  }

  /** With distinct keys any split into batches updates the rows as one item at a time does. */
  lemma {:induction false} BatchedUpdates<K, V>(rows: seq<Row<K, V>>, batches: seq<seq<Item<K, V>>>)
    requires DistinctKeys(Concat(batches))
    ensures UpdateBatches(rows, batches) == UpdateOneByOne(rows, Concat(batches))
    decreases batches
  {
    if batches != [] {
      var first, rest := batches[0], Concat(batches[1..]);
      var all := first + rest;
      assert DistinctKeys(rest) && DistinctKeys(first) by { SplitDistinct(first, rest); }
      var next := UpdateBatch(rows, first);
      BatchedUpdates(next, batches[1..]);
      OneByOneTakesLast(next, rest);
      OneByOneTakesLast(rows, all);
      forall i | 0 <= i < |rows|
        ensures WithValue(next[i], LastValue(rest, next[i].key)) == WithValue(rows[i], LastValue(all, rows[i].key))
      {
        FirstIffLast(first, rows[i].key);
        LastOfAppend(first, rest, rows[i].key);
      }
      assert UpdateOneByOne(next, rest) == UpdateOneByOne(rows, all);
    }
  }

  /** Of distinct keys the item with the key gives the value. */
  lemma {:induction false} ItemOfKey<K, V>(items: seq<Item<K, V>>, key: K)
    requires DistinctKeys(items)
    ensures forall j :: 0 <= j < |items| && items[j].key == key ==> FirstValue(items, key) == Some(items[j].value)
    ensures (forall j :: 0 <= j < |items| ==> items[j].key != key) ==> FirstValue(items, key) == None
  {
    if items != [] {
      var rest := items[1..];
      assert forall j :: 0 < j < |items| ==> items[j] == rest[j - 1];
      assert forall j :: 0 <= j < |rest| ==> rest[j] == items[j + 1];
      ItemOfKey(rest, key);
    }
  }

  /** However they are split, updates give each row the value of the item with its key and change nothing else. */
  lemma UpdatedRows<K, V>(rows: seq<Row<K, V>>, batches: seq<seq<Item<K, V>>>)
    requires DistinctKeys(Concat(batches))
    ensures
      var after, items := UpdateBatches(rows, batches), Concat(batches);
      && |after| == |rows|
      && (forall i, j :: 0 <= i < |rows| && 0 <= j < |items| && items[j].key == rows[i].key ==>
            after[i] == Row(rows[i].key, items[j].value, rows[i].others))
      && (forall i :: 0 <= i < |rows| && (forall j :: 0 <= j < |items| ==> items[j].key != rows[i].key) ==> after[i] == rows[i])
  {
    var items := Concat(batches);
    BatchedUpdates(rows, batches);
    OneByOneTakesLast(rows, items);
    forall i | 0 <= i < |rows|
      ensures forall j :: 0 <= j < |items| && items[j].key == rows[i].key ==> LastValue(items, rows[i].key) == Some(items[j].value)
      ensures (forall j :: 0 <= j < |items| ==> items[j].key != rows[i].key) ==> LastValue(items, rows[i].key) == None
    {
      FirstIffLast(items, rows[i].key);
      ItemOfKey(items, rows[i].key);
    }
  }

  lemma SplitDistinct<K, V>(a: seq<Item<K, V>>, b: seq<Item<K, V>>)
    requires DistinctKeys(a + b)
    ensures DistinctKeys(a) && DistinctKeys(b)
    ensures forall key :: FirstValue(a, key).None? || FirstValue(b, key).None?
  {
    var s := a + b;
    forall i, j | 0 <= i < j < |a| ensures a[i].key != a[j].key {
      assert s[i].key != s[j].key;
    }
    forall i, j | 0 <= i < j < |b| ensures b[i].key != b[j].key {
      assert s[|a| + i].key != s[|a| + j].key;
    }
    forall key ensures FirstValue(a, key).None? || FirstValue(b, key).None? {
      FirstIffLast(a, key);
      FirstIffLast(b, key);
      if FirstValue(a, key).Some? {
        var i :| 0 <= i < |a| && a[i].key == key;
        forall j | 0 <= j < |b| ensures b[j].key != key {
          assert s[i].key != s[|a| + j].key;
        }
      }
    }
  }

  // ----- copies -----

  function Matches<K(==), V>(filter: Row<K, V> -> bool, items: seq<Item<K, V>>): Row<K, V> -> bool {
    (r: Row<K, V>) => filter(r) && FirstValue(items, r.key).Some?
  }

  /** The copy of a row: the item's value, and the fixed columns set. */
  function CopyOf<K(==), V>(items: seq<Item<K, V>>, fix: Row<K, V> -> Row<K, V>): Row<K, V> -> Row<K, V> {
    (r: Row<K, V>) => fix(WithValue(r, FirstValue(items, r.key)))
  }

  function Copies<K(==), V>(rows: seq<Row<K, V>>, items: seq<Item<K, V>>, filter: Row<K, V> -> bool, fix: Row<K, V> -> Row<K, V>)
    : seq<Row<K, V>>
  {
    Map(CopyOf(items, fix), Filter(Matches(filter, items), rows))
  }

  /** One batched `INSERT ... SELECT` from the table itself. */
  function CopyBatch<K(==), V>(rows: seq<Row<K, V>>, items: seq<Item<K, V>>, filter: Row<K, V> -> bool, fix: Row<K, V> -> Row<K, V>)
    : seq<Row<K, V>>
  {
    rows + Copies(rows, items, filter, fix)
  }

  function CopyBatches<K(==), V>(rows: seq<Row<K, V>>, batches: seq<seq<Item<K, V>>>, filter: Row<K, V> -> bool,
                                 fix: Row<K, V> -> Row<K, V>): seq<Row<K, V>>
    decreases batches
  {
    if batches == [] then rows else CopyBatches(CopyBatch(rows, batches[0], filter, fix), batches[1..], filter, fix)
  }

  /** Later batches do not copy the copies of earlier ones. */
  lemma CopiesMissFilter<K, V>(rows: seq<Row<K, V>>, items: seq<Item<K, V>>, later: seq<Item<K, V>>, filter: Row<K, V> -> bool,
                               fix: Row<K, V> -> Row<K, V>)
    requires forall r :: !filter(fix(r))
    ensures Copies(CopyBatch(rows, items, filter, fix), later, filter, fix) == Copies(rows, later, filter, fix)
  {
    var copies := Copies(rows, items, filter, fix);
    FilterAppend(Matches(filter, later), rows, copies);
    forall c | c in copies ensures !Matches(filter, later)(c) {
      var i :| 0 <= i < |copies| && copies[i] == c;
      var r := Filter(Matches(filter, items), rows)[i];
      assert c == fix(WithValue(r, FirstValue(items, r.key)));
    }
    hide Filter, Map;
    FilterNone(Matches(filter, later), copies);
    assert Filter(Matches(filter, later), rows) + [] == Filter(Matches(filter, later), rows);
  }

  lemma {:induction false} CopiesOfBoth<K, V>(rows: seq<Row<K, V>>, a: seq<Item<K, V>>, b: seq<Item<K, V>>, filter: Row<K, V> -> bool,
                                              fix: Row<K, V> -> Row<K, V>)
    requires forall key :: FirstValue(a, key).None? || FirstValue(b, key).None?
    ensures multiset(Copies(rows, a + b, filter, fix))
         == multiset(Copies(rows, a, filter, fix)) + multiset(Copies(rows, b, filter, fix))
  {
    if rows != [] {
      CopiesOfBoth(rows[1..], a, b, filter, fix);
      FirstOfAppend(a, b, rows[0].key);
      OneCopy(rows, a + b, filter, fix);
      OneCopy(rows, a, filter, fix);
      OneCopy(rows, b, filter, fix);
    }
  }

  lemma OneCopy<K, V>(rows: seq<Row<K, V>>, items: seq<Item<K, V>>, filter: Row<K, V> -> bool, fix: Row<K, V> -> Row<K, V>)
    requires rows != []
    ensures multiset(Copies(rows, items, filter, fix))
         == (if Matches(filter, items)(rows[0]) then multiset{CopyOf(items, fix)(rows[0])} else multiset{})
            + multiset(Copies(rows[1..], items, filter, fix))
  {
    if Matches(filter, items)(rows[0]) {
      assert Copies(rows, items, filter, fix) == [CopyOf(items, fix)(rows[0])] + Copies(rows[1..], items, filter, fix);
    }
  }

  lemma {:induction false} FirstOfAppend<K, V>(a: seq<Item<K, V>>, b: seq<Item<K, V>>, key: K)
    ensures FirstValue(a + b, key) == if FirstValue(a, key).Some? then FirstValue(a, key) else FirstValue(b, key)
  {
    if a == [] {
      assert a + b == b;
    } else {
      assert (a + b)[1..] == a[1..] + b;
      FirstOfAppend(a[1..], b, key);
    }
  }

  lemma {:induction false} CopiedRows<K, V>(rows: seq<Row<K, V>>, batches: seq<seq<Item<K, V>>>, filter: Row<K, V> -> bool,
                                            fix: Row<K, V> -> Row<K, V>)
    requires DistinctKeys(Concat(batches)) && forall r :: !filter(fix(r))
    ensures multiset(CopyBatches(rows, batches, filter, fix))
         == multiset(rows) + multiset(Copies(rows, Concat(batches), filter, fix))
    decreases batches
  {
    if batches == [] {
      NothingCopied(rows, filter, fix);
    } else {
      var first, rest := batches[0], Concat(batches[1..]);
      SplitDistinct(first, rest);
      var next := CopyBatch(rows, first, filter, fix);
      CopiedRows(next, batches[1..], filter, fix);
      CopiesMissFilter(rows, first, rest, filter, fix);
      CopiesOfBoth(rows, first, rest, filter, fix);
    }
  }

  lemma NothingCopied<K, V>(rows: seq<Row<K, V>>, filter: Row<K, V> -> bool, fix: Row<K, V> -> Row<K, V>)
    ensures Copies(rows, [], filter, fix) == []
  {
    FilterNone(Matches(filter, []), rows);
  }

  /** Each item a batch of its own. */
  function Singles<T>(items: seq<T>): seq<seq<T>> { if items == [] then [] else [[items[0]]] + Singles(items[1..]) }

  lemma {:induction false} ConcatSingles<T>(items: seq<T>)
    ensures Concat(Singles(items)) == items
  {
    if items != [] {
      ConcatSingles(items[1..]);
      assert [items[0]] + items[1..] == items;
    }
  }

  /** With distinct keys and copies that miss the filter, any split adds the rows that one item at a time adds. */
  lemma BatchedCopies<K, V>(rows: seq<Row<K, V>>, batches: seq<seq<Item<K, V>>>, filter: Row<K, V> -> bool,
                            fix: Row<K, V> -> Row<K, V>)
    requires DistinctKeys(Concat(batches)) && forall r :: !filter(fix(r))
    ensures multiset(CopyBatches(rows, batches, filter, fix))
         == multiset(CopyBatches(rows, Singles(Concat(batches)), filter, fix))
  {
    ConcatSingles(Concat(batches));
    CopiedRows(rows, batches, filter, fix);
    CopiedRows(rows, Singles(Concat(batches)), filter, fix);
  }

  /** The filtered rows that some item is for, in table order. */
  ghost function Sources<K, V>(rows: seq<Row<K, V>>, items: seq<Item<K, V>>, filter: Row<K, V> -> bool): seq<Row<K, V>> {
    if rows == [] then []
    else
      (if filter(rows[0]) && exists j :: 0 <= j < |items| && items[j].key == rows[0].key then [rows[0]] else [])
      + Sources(rows[1..], items, filter)
  }

  lemma {:induction false} SourcesMatch<K, V>(rows: seq<Row<K, V>>, items: seq<Item<K, V>>, filter: Row<K, V> -> bool)
    ensures Filter(Matches(filter, items), rows) == Sources(rows, items, filter)
  {
    if rows != [] {
      FirstIffLast(items, rows[0].key);
      SourcesMatch(rows[1..], items, filter);
    }
  }

  /** One copy for each source: its key and other columns, the value of its item, and the fixed columns set. */
  ghost predicate CopiedFrom<K, V>(copies: seq<Row<K, V>>, sources: seq<Row<K, V>>, items: seq<Item<K, V>>, fix: Row<K, V> -> Row<K, V>) {
    && |copies| == |sources|
    && forall i, j :: 0 <= i < |sources| && 0 <= j < |items| && items[j].key == sources[i].key ==>
         copies[i] == fix(Row(sources[i].key, items[j].value, sources[i].others))
  }

  lemma CopiesFromSources<K, V>(rows: seq<Row<K, V>>, items: seq<Item<K, V>>, filter: Row<K, V> -> bool, fix: Row<K, V> -> Row<K, V>)
    requires DistinctKeys(items)
    ensures CopiedFrom(Copies(rows, items, filter, fix), Sources(rows, items, filter), items, fix)
  {
    hide Filter, DistinctKeys;
    var sources, copies := Sources(rows, items, filter), Copies(rows, items, filter, fix);
    SourcesMatch(rows, items, filter);
    forall i, j | 0 <= i < |sources| && 0 <= j < |items| && items[j].key == sources[i].key
      ensures copies[i] == fix(Row(sources[i].key, items[j].value, sources[i].others))
    {
      ItemOfKey(items, sources[i].key);
      assert FirstValue(items, sources[i].key) == Some(items[j].value);
      assert WithValue(sources[i], Some(items[j].value)) == Row(sources[i].key, items[j].value, sources[i].others);
      assert copies[i] == fix(WithValue(sources[i], FirstValue(items, sources[i].key)));
    }
  }

  /** However they are split, copies add exactly one row for every filtered row that has an item. */
  lemma CopiesAre<K, V>(rows: seq<Row<K, V>>, batches: seq<seq<Item<K, V>>>, filter: Row<K, V> -> bool, fix: Row<K, V> -> Row<K, V>)
    requires DistinctKeys(Concat(batches)) && forall r :: !filter(fix(r))
    ensures
      var items := Concat(batches);
      exists copies: seq<Row<K, V>> ::
        && multiset(CopyBatches(rows, batches, filter, fix)) == multiset(rows) + multiset(copies)
        && CopiedFrom(copies, Sources(rows, items, filter), items, fix)
  {
    hide CopyBatches, Concat, Copies, Sources, CopiedFrom, DistinctKeys;
    CopiedRows(rows, batches, filter, fix);
    CopiesFromSources(rows, Concat(batches), filter, fix);
  }

  // ----- inserts -----

  /**
   * `insert_rows` without COPY: the rows that reach the table, and the size of each statement. Rows
   * with more columns than the bind limit are dropped without an error.
   */
  method InsertRows<T>(rows: seq<T>, columns: nat, maxBindParams: nat) returns (inserted: seq<T>, statements: seq<nat>)
    requires columns > 0
    ensures inserted == rows <==> rows == [] || columns <= maxBindParams
    ensures columns > maxBindParams ==> inserted == [] && statements == []
    ensures forall n :: n in statements ==> 0 < n && n * columns <= maxBindParams
  {
    inserted, statements := [], [];
    if rows == [] {
      return;
    }
    var chunkSize := maxBindParams / columns;
    ChunkFits(columns, maxBindParams);
    var left := rows;
    while true
      invariant inserted + left == rows
      invariant chunkSize == 0 ==> inserted == [] && statements == []
      invariant forall n :: n in statements ==> 0 < n && n * columns <= maxBindParams
      decreases |left|
    {
      var count := Min(chunkSize, |left|);
      if count == 0 {
        break;
      }
      SmallerFits(count, chunkSize, columns);
      assert left == left[..count] + left[count..];
      inserted, statements, left := inserted + left[..count], statements + [count], left[count..];
    }
  }

  lemma ChunkFits(columns: nat, limit: nat)
    requires columns > 0
    ensures (limit / columns) * columns <= limit && (limit / columns == 0 <==> columns > limit)
  {
  }

  lemma SmallerFits(a: nat, b: nat, n: nat)
    requires a <= b
    ensures a * n <= b * n
  {
  }
}
