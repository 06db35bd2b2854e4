/** Round trips through the column arena, and what renaming and removing columns leave alone. */
module ColumnLaws {
  import opened Prelude
  import opened Columns
  import opened ColumnArena

  // ----- names -----

  predicate NameIn(cs: ColumnList, name: string) {
    match cs
    case Nil => false
    case Cons(first, rest) => first.name == name || NameIn(rest, name)
  }

  predicate DistinctNames(cs: ColumnList) {
    match cs
    case Nil => true
    case Cons(first, rest) => !NameIn(rest, first.name) && DistinctNames(rest)
  }

  /** The fields of every struct in the column have different names. */
  predicate DistinctFields(c: Column)
    decreases c, 1
  {
    match c.dtype
    case Primitive(_) => true
    case List(item) => DistinctFields(item)
    case Struct(fields) => DistinctNames(fields) && AllDistinct(fields)
    case Map(key, value) => DistinctFields(key) && DistinctFields(value)
  }

  predicate AllDistinct(cs: ColumnList)
    decreases cs, 0
  {
    match cs
    case Nil => true
    case Cons(first, rest) => DistinctFields(first) && AllDistinct(rest)
  }

  // ----- columns up to their ids -----

  /** The column without its field ids. */
  function Strip(c: Column): Column
    decreases c, 1
  {
    c.(fieldId := None, dtype := StripType(c.dtype))
  }

  function StripType(t: DataType): DataType
    decreases t, 0
  {
    match t
    case Primitive(_) => t
    case List(item) => List(Strip(item))
    case Struct(fields) => Struct(StripList(fields))
    case Map(key, value) => Map(Strip(key), Strip(value))
  }

  function StripList(cs: ColumnList): ColumnList
    decreases cs, 0
  {
    match cs
    case Nil => Nil
    case Cons(first, rest) => Cons(Strip(first), StripList(rest))
  }

  /** The column with the ids of its flattened columns put in, the first one at `at`. */
  function Stamp(c: Column, ids: int -> int, at: nat): Column
    decreases c, 1
  {
    c.(fieldId := Some(ids(at)), dtype := StampType(c.dtype, ids, at + 1))
  }

  function StampType(t: DataType, ids: int -> int, at: nat): DataType
    decreases t, 0
  {
    match t
    case Primitive(_) => t
    case List(item) => List(Stamp(item, ids, at))
    case Struct(fields) => Struct(StampList(fields, ids, at))
    case Map(key, value) => Map(Stamp(key, ids, at), Stamp(value, ids, at + Size(key)))
  }

  function StampList(cs: ColumnList, ids: int -> int, at: nat): ColumnList
    decreases cs, 0
  {
    match cs
    case Nil => Nil
    case Cons(first, rest) => Cons(Stamp(first, ids, at), StampList(rest, ids, at + Size(first)))
  }

  lemma {:induction false} StampStrips(c: Column, ids: int -> int, at: nat)
    ensures Strip(Stamp(c, ids, at)) == Strip(c)
    decreases c, 1
  {
    match c.dtype
    case Primitive(_) =>
    case List(item) => StampStrips(item, ids, at + 1);
    case Struct(fields) => StampStripsList(fields, ids, at + 1);
    case Map(key, value) =>
      StampStrips(key, ids, at + 1);
      StampStrips(value, ids, at + 1 + Size(key));
  }

  lemma {:induction false} StampStripsList(cs: ColumnList, ids: int -> int, at: nat)
    ensures StripList(StampList(cs, ids, at)) == StripList(cs)
    decreases cs, 0
  {
    match cs
    case Nil =>
    case Cons(first, rest) =>
      StampStrips(first, ids, at);
      StampStripsList(rest, ids, at + Size(first));
  }

  // ----- field maps -----

  function Zip(cs: ColumnList, positions: seq<nat>): NameMap {
    if cs.Nil? || positions == [] then [] else [(cs.first.name, positions[0])] + Zip(cs.rest, positions[1..])
  }

  lemma {:induction false} InsertNew(m: NameMap, name: string, value: nat)
    requires !HasName(m, name)
    ensures Insert(m, name, value) == m + [(name, value)]
  {
    if m != [] {
      assert m[0].0 != name;
      assert !HasName(m[1..], name);
      InsertNew(m[1..], name, value);
    }
  }

  lemma {:induction false} InsertLength(m: NameMap, name: string, value: nat)
    ensures |Insert(m, name, value)| == if HasName(m, name) then |m| else |m| + 1
    ensures forall n :: HasName(Insert(m, name, value), n) <==> HasName(m, n) || n == name
  {
    if m != [] {
      assert forall n :: HasName(m, n) <==> m[0].0 == n || HasName(m[1..], n) by { HasNameHead(m); }
      if m[0].0 == name {
        HasNameHead([(name, value)] + m[1..]);
      } else {
        InsertLength(m[1..], name, value);
        HasNameHead([m[0]] + Insert(m[1..], name, value));
      }
    } else {
      HasNameHead([(name, value)]);
    }
  }

  lemma HasNameHead(m: NameMap)
    requires m != []
    ensures forall n :: HasName(m, n) <==> m[0].0 == n || HasName(m[1..], n)
  {
    forall n ensures HasName(m, n) <==> m[0].0 == n || HasName(m[1..], n) {
      if HasName(m[1..], n) {
        var i :| 0 <= i < |m[1..]| && m[1..][i].0 == n;
        assert m[i + 1].0 == n;
      }
      if HasName(m, n) && m[0].0 != n {
        var i :| 0 <= i < |m| && m[i].0 == n;
        assert m[1..][i - 1].0 == n;
      }
    }
  }

  /** With different names collecting keeps every field, in order. */
  lemma {:induction false} CollectDistinct(cs: ColumnList, positions: seq<nat>, m: NameMap)
    requires |positions| == Length(cs) && DistinctNames(cs)
    requires forall n :: NameIn(cs, n) ==> !HasName(m, n)
    ensures CollectFields(cs, positions, m) == m + Zip(cs, positions)
    decreases cs
  {
    if cs.Cons? {
      InsertNew(m, cs.first.name, positions[0]);
      InsertLength(m, cs.first.name, positions[0]);
      CollectDistinct(cs.rest, positions[1..], Insert(m, cs.first.name, positions[0]));
      assert m + [(cs.first.name, positions[0])] + Zip(cs.rest, positions[1..]) == m + Zip(cs, positions);
    } else {
      assert m + [] == m;
    }
  }

  /** Otherwise it loses some. */
  lemma {:induction false} CollectLength(cs: ColumnList, positions: seq<nat>, m: NameMap)
    requires |positions| == Length(cs)
    ensures |CollectFields(cs, positions, m)| <= |m| + Length(cs)
    ensures |CollectFields(cs, positions, m)| == |m| + Length(cs) ==>
              DistinctNames(cs) && forall n :: NameIn(cs, n) ==> !HasName(m, n)
    decreases cs
  {
    if cs.Cons? {
      InsertLength(m, cs.first.name, positions[0]);
      CollectLength(cs.rest, positions[1..], Insert(m, cs.first.name, positions[0]));
    }
  }

  lemma {:induction false} ZipIndices(cs: ColumnList, positions: seq<nat>)
    requires |positions| == Length(cs)
    ensures Indices(Zip(cs, positions)) == positions
    decreases cs
  {
    if cs.Cons? {
      ZipIndices(cs.rest, positions[1..]);
      assert Indices(Zip(cs, positions)) == [positions[0]] + Indices(Zip(cs.rest, positions[1..]));
    }
  }

  // ----- the arena after adding a column -----

  /** An arena with a column placed at `first`, everything before it being a forward arena of its own. */
  ghost predicate Extended(arena: seq<CatalogColumn>, first: nat, flat: seq<Flat>, outer: Option<nat>, next: int, preserve: bool) {
    && |arena| == first + |flat| && PlacedAt(arena, first, flat, outer, next, preserve) && Forward(arena[..first])
  }

  /** Adding a column keeps the arena pointing forward. */
  lemma AddedForward(arena: seq<CatalogColumn>, first: nat, c: Column, outer: Option<nat>, next: int, preserve: bool)
    requires Extended(arena, first, Flatten(c, None, 0), outer, next, preserve)
    ensures Forward(arena)
  {
    hide Flatten, ChildPositions, Forward, PlacedAt;
    var flat := Flatten(c, None, 0);
    forall i | 0 <= i < |arena| ensures Behind(Children(arena[i].dtype), i, |arena|) {
      if i < first {
        OldNode(arena, first, i);
      } else {
        Bounds(c, None, 0, i - first);
        PlacedNode(arena, first, flat, outer, next, preserve, i - first);
      }
    }
    assert Forward(arena) by { ForwardIf(arena); }
  }

  lemma ForwardIf(arena: seq<CatalogColumn>)
    requires forall i :: 0 <= i < |arena| ==> Behind(Children(arena[i].dtype), i, |arena|)
    ensures Forward(arena)
  {
  }

  lemma OldNode(arena: seq<CatalogColumn>, first: nat, i: nat)
    requires i < first <= |arena| && Forward(arena[..first])
    ensures Behind(Children(arena[i].dtype), i, |arena|)
  {
    assert arena[..first][i] == arena[i];
  }

  lemma {:induction false} CollectValues(cs: ColumnList, positions: seq<nat>, m: NameMap, lo: nat, hi: nat)
    requires forall j :: 0 <= j < |positions| ==> lo < positions[j] < hi
    requires forall j :: 0 <= j < |m| ==> lo < m[j].1 < hi
    ensures forall j :: 0 <= j < |CollectFields(cs, positions, m)| ==> lo < CollectFields(cs, positions, m)[j].1 < hi
    decreases cs
  {
    if cs.Cons? && positions != [] {
      InsertValues(m, cs.first.name, positions[0], lo, hi);
      CollectValues(cs.rest, positions[1..], Insert(m, cs.first.name, positions[0]), lo, hi);
    }
  }

  lemma {:induction false} InsertValues(m: NameMap, name: string, value: nat, lo: nat, hi: nat)
    requires lo < value < hi && forall j :: 0 <= j < |m| ==> lo < m[j].1 < hi
    ensures forall j :: 0 <= j < |Insert(m, name, value)| ==> lo < Insert(m, name, value)[j].1 < hi
  {
    if m != [] && m[0].0 != name {
      InsertValues(m[1..], name, value, lo, hi);
    }
  }

  /** The children of a placed column lie behind it, within the placed columns. */
  lemma PlacedNode(arena: seq<CatalogColumn>, first: nat, flat: seq<Flat>, outer: Option<nat>, next: int, preserve: bool, k: nat)
    requires PlacedAt(arena, first, flat, outer, next, preserve) && k < |flat|
    requires k + Size(flat[k].column) <= |flat|
    ensures Behind(Children(arena[first + k].dtype), first + k, |arena|)
  {
    hide ChildPositions;
    var t := flat[k].column.dtype;
    PositionsBound(t, k);
    var positions := Shift(ChildPositions(t, k), first);
    assert Some(arena[first + k]) == NodeAt(flat, k, first, outer, next, preserve);
    if t.Struct? {
      CollectValues(t.fields, positions, [], first + k, first + |flat|);
    }
  }

  // ----- the round trip -----

  function IdsFrom(flat: seq<Flat>, next: int, preserve: bool): int -> int {
    i => if 0 <= i < |flat| then IdOf(flat, next, preserve, i) else 0
  }

  /** A placed column and the rest of the arena it sits in. */
  ghost predicate Inside(arena: seq<CatalogColumn>, first: nat, flat: seq<Flat>, outer: Option<nat>, next: int, preserve: bool) {
    Forward(arena) && PlacedAt(arena, first, flat, outer, next, preserve)
  }

  /** The node of a buildable column. */
  lemma NodeOf(arena: seq<CatalogColumn>, first: nat, flat: seq<Flat>, outer: Option<nat>, next: int, preserve: bool, k: nat, c: Column)
    requires Inside(arena, first, flat, outer, next, preserve) && Segment(flat, k, c)
    ensures first + k < |arena| && Forward(arena)
    ensures
      var n := arena[first + k];
      && n.name == c.name && n.nullable == c.nullable && n.info == c.info && n.id == IdsFrom(flat, next, preserve)(k)
      && Some(n.dtype) == TypeFrom(c.dtype, Shift(ChildPositions(c.dtype, k), first))
      && Behind(Children(n.dtype), first + k, |arena|)
  {
    hide ChildPositions, TypeFrom, FlattenChildren;
    assert Some(arena[first + k]) == NodeAt(flat, k, first, outer, next, preserve);
  }

  /**
   * Reading a placed column back gives the column itself up to ids exactly when no struct in it
   * has two fields of one name; and then with the ids in pre-order.
   */
  lemma {:induction false} RoundTripAt(arena: seq<CatalogColumn>, first: nat, flat: seq<Flat>, outer: Option<nat>, next: int,
                                       preserve: bool, k: nat, c: Column)
    requires Inside(arena, first, flat, outer, next, preserve) && Segment(flat, k, c)
    ensures DistinctFields(c) ==> ColumnAt(arena, first + k) == Stamp(c, IdsFrom(flat, next, preserve), k)
    ensures Strip(ColumnAt(arena, first + k)) == Strip(c) ==> DistinctFields(c)
    decreases c, 1
  {
    hide Inside, Segment, IdsFrom, TypeFrom, ColumnAt, Strip, StripType, Stamp, StampType, Forward, CollectFields, Shift, ListPositions, ChildPositions, Indices;
    NodeOf(arena, first, flat, outer, next, preserve, k, c);
    ChildSegments(flat, k, c);
    NodeShape(arena, first, k, c);
    ReadBack(arena, first + k);
    StripParts(c);
    StampParts(c, IdsFrom(flat, next, preserve), k);
    StripParts(ColumnAt(arena, first + k));
    match c.dtype
    case Primitive(_) =>
    case List(item) =>
      RoundTripAt(arena, first, flat, outer, next, preserve, k + 1, item);
    case Map(key, value) =>
      RoundTripAt(arena, first, flat, outer, next, preserve, k + 1, key);
      RoundTripAt(arena, first, flat, outer, next, preserve, k + 1 + Size(key), value);
    case Struct(fields) =>
      InsideFits(arena, first, flat, outer, next, preserve);
      StructRoundTrip(arena, first, flat, outer, next, preserve, k, fields);
  }

  lemma InsideForward(arena: seq<CatalogColumn>, first: nat, flat: seq<Flat>, outer: Option<nat>, next: int, preserve: bool)
    requires Inside(arena, first, flat, outer, next, preserve)
    ensures Forward(arena)
  {
  }

  lemma InsideFits(arena: seq<CatalogColumn>, first: nat, flat: seq<Flat>, outer: Option<nat>, next: int, preserve: bool)
    requires Inside(arena, first, flat, outer, next, preserve)
    ensures first + |flat| <= |arena|
  {
  }

  /** The children of a placed column, by kind. */
  lemma NodeShape(arena: seq<CatalogColumn>, first: nat, k: nat, c: Column)
    requires first + k < |arena| && Behind(Children(arena[first + k].dtype), first + k, |arena|)
    requires Some(arena[first + k].dtype) == TypeFrom(c.dtype, Shift(ChildPositions(c.dtype, k), first))
    ensures
      var t := arena[first + k].dtype;
      && (c.dtype.Primitive? ==> t == PrimitiveType(c.dtype.name))
      && (c.dtype.List? ==> t == ListType(first + (k + 1)) && first + (k + 1) < |arena|)
      && (c.dtype.Map? ==> t == MapType(first + (k + 1), first + (k + 1 + Size(c.dtype.key)))
                           && first + (k + 1 + Size(c.dtype.key)) < |arena| && first + (k + 1) < |arena|)
      && (c.dtype.Struct? ==>
            t == StructType(CollectFields(c.dtype.fields, Shift(ListPositions(c.dtype.fields, k + 1), first), [])))
  {
    var children := Children(arena[first + k].dtype);
    if c.dtype.List? {
      assert children[0] == first + (k + 1);
    } else if c.dtype.Map? {
      assert children[0] == first + (k + 1) && children[1] == first + (k + 1 + Size(c.dtype.key));
    }
  }

  lemma ReadBack(arena: seq<CatalogColumn>, idx: nat)
    requires Forward(arena) && idx < |arena|
    ensures Behind(Children(arena[idx].dtype), idx, |arena|)
    ensures
      var n, c := arena[idx], ColumnAt(arena, idx);
      && c.name == n.name && c.nullable == n.nullable && c.info == n.info && c.fieldId == Some(n.id)
      && (n.dtype.PrimitiveType? ==> c.dtype == Primitive(n.dtype.name))
      && (n.dtype.ListType? ==> idx < n.dtype.item < |arena| && c.dtype == List(ColumnAt(arena, n.dtype.item)))
      && (n.dtype.MapType? ==> idx < n.dtype.key < |arena| && idx < n.dtype.value < |arena|
                               && c.dtype == Map(ColumnAt(arena, n.dtype.key), ColumnAt(arena, n.dtype.value)))
      && (n.dtype.StructType? ==> Behind(Indices(n.dtype.fields), idx, |arena|)
                                  && c.dtype == Struct(ColumnsAt(arena, Indices(n.dtype.fields), idx)))
  {
    var t := arena[idx].dtype;
    if t.ListType? {
      assert Children(t)[0] == t.item;
    } else if t.MapType? {
      assert Children(t)[0] == t.key && Children(t)[1] == t.value;
    }
  }

  lemma StripParts(c: Column)
    ensures Strip(c) == Column(c.name, Strip(c).dtype, c.nullable, c.info, None)
    ensures
      && (c.dtype.Primitive? ==> Strip(c).dtype == c.dtype)
      && (c.dtype.List? ==> Strip(c).dtype == List(Strip(c.dtype.item)))
      && (c.dtype.Struct? ==> Strip(c).dtype == Struct(StripList(c.dtype.fields)))
      && (c.dtype.Map? ==> Strip(c).dtype == Map(Strip(c.dtype.key), Strip(c.dtype.value)))
  {
  }

  lemma StampParts(c: Column, ids: int -> int, at: nat)
    ensures Stamp(c, ids, at) == Column(c.name, Stamp(c, ids, at).dtype, c.nullable, c.info, Some(ids(at)))
    ensures
      var t := Stamp(c, ids, at).dtype;
      && (c.dtype.Primitive? ==> t == c.dtype)
      && (c.dtype.List? ==> t == List(Stamp(c.dtype.item, ids, at + 1)))
      && (c.dtype.Struct? ==> t == Struct(StampList(c.dtype.fields, ids, at + 1)))
      && (c.dtype.Map? ==>
            t == Map(Stamp(c.dtype.key, ids, at + 1), Stamp(c.dtype.value, ids, at + 1 + Size(c.dtype.key))))
  {
  }

  /** The segments of a column's children. */
  lemma ChildSegments(flat: seq<Flat>, k: nat, c: Column)
    requires Segment(flat, k, c)
    ensures c.dtype.List? ==> Segment(flat, k + 1, c.dtype.item)
    ensures c.dtype.Map? ==> Segment(flat, k + 1, c.dtype.key) && Segment(flat, k + 1 + Size(c.dtype.key), c.dtype.value)
    ensures c.dtype.Struct? ==> k + 1 + SizeOfList(c.dtype.fields) <= |flat|
                                && flat[k + 1..k + 1 + SizeOfList(c.dtype.fields)] == FlattenList(c.dtype.fields, Some(k), k + 1)
  {
    hide Flatten, FlattenList, Segment, Size;
    SegmentBelow(flat, k, c);
    match c.dtype
    case Primitive(_) =>
    case List(item) => SegmentOf(flat, k + 1, item, Some(k));
    case Struct(fields) =>
    case Map(key, value) => PairSegments(flat, k, key, value);
  }

  lemma PairSegments(flat: seq<Flat>, k: nat, key: Column, value: Column)
    requires k + 1 + Size(key) + Size(value) <= |flat|
    requires flat[k + 1..k + 1 + Size(key) + Size(value)]
          == Flatten(key, Some(k), k + 1) + Flatten(value, Some(k), k + 1 + Size(key))
    ensures Segment(flat, k + 1, key) && Segment(flat, k + 1 + Size(key), value)
  {
    hide Flatten, Segment, Size;
    var n := Size(key);
    var below := flat[k + 1..k + 1 + n + Size(value)];
    assert flat[k + 1..k + 1 + n] == below[..n];
    assert flat[k + 1 + n..k + 1 + n + Size(value)] == below[n..];
    SegmentOf(flat, k + 1, key, Some(k));
    SegmentOf(flat, k + 1 + n, value, Some(k));
  }

  lemma SegmentBelow(flat: seq<Flat>, k: nat, c: Column)
    requires Segment(flat, k, c)
    ensures k + Size(c) <= |flat| && Size(c) == 1 + SizeOfType(c.dtype)
    ensures flat[k + 1..k + Size(c)] == FlattenChildren(c.dtype, k)
  {
  }

  lemma {:induction false} StructRoundTrip(arena: seq<CatalogColumn>, first: nat, flat: seq<Flat>, outer: Option<nat>, next: int,
                                           preserve: bool, k: nat, fields: ColumnList)
    requires Inside(arena, first, flat, outer, next, preserve)
    requires k + 1 + SizeOfList(fields) <= |flat| && first + k < |arena| && first + |flat| <= |arena|
    requires flat[k + 1..k + 1 + SizeOfList(fields)] == FlattenList(fields, Some(k), k + 1)
    requires
      var m := CollectFields(fields, Shift(ListPositions(fields, k + 1), first), []);
      Behind(Indices(m), first + k, |arena|)
    ensures
      var m := CollectFields(fields, Shift(ListPositions(fields, k + 1), first), []);
      var read := ColumnsAt(arena, Indices(m), first + k);
      && (DistinctNames(fields) && AllDistinct(fields) ==> read == StampList(fields, IdsFrom(flat, next, preserve), k + 1))
      && (StripList(read) == StripList(fields) ==> DistinctNames(fields) && AllDistinct(fields))
    decreases fields, 3
  {
    hide IdsFrom, Inside, Forward, Flatten, FlattenList, CollectFields, ListPositions, ColumnAt, Strip, Stamp;
    InsideForward(arena, first, flat, outer, next, preserve);
    var positions := Shift(ListPositions(fields, k + 1), first);
    var m := CollectFields(fields, positions, []);
    ColumnsLength(arena, Indices(m), first + k);
    StripLength(ColumnsAt(arena, Indices(m), first + k));
    StripLength(fields);
    CollectLength(fields, positions, []);
    if DistinctNames(fields) {
      CollectDistinct(fields, positions, []);
      assert [] + Zip(fields, positions) == Zip(fields, positions);
      ZipIndices(fields, positions);
      ListRoundTrip(arena, first, flat, outer, next, preserve, k, k + 1, fields);
    }
  }

  lemma {:induction false} ColumnsLength(arena: seq<CatalogColumn>, children: seq<nat>, idx: nat)
    requires Forward(arena) && idx < |arena| && Behind(children, idx, |arena|)
    ensures Length(ColumnsAt(arena, children, idx)) == |children|
    decreases |children|
  {
    if children != [] {
      ColumnsLength(arena, children[1..], idx);
    }
  }

  lemma {:induction false} StripLength(cs: ColumnList)
    ensures Length(StripList(cs)) == Length(cs)
  {
    if cs.Cons? {
      StripLength(cs.rest);
    }
  }

  lemma {:induction false} ListRoundTrip(arena: seq<CatalogColumn>, first: nat, flat: seq<Flat>, outer: Option<nat>, next: int,
                                         preserve: bool, k: nat, at: nat, fields: ColumnList)
    requires Inside(arena, first, flat, outer, next, preserve) && k < at && first + k < |arena| && first + |flat| <= |arena|
    requires at + SizeOfList(fields) <= |flat| && flat[at..at + SizeOfList(fields)] == FlattenList(fields, Some(k), at)
    ensures Behind(Shift(ListPositions(fields, at), first), first + k, |arena|)
    ensures
      var read := ColumnsAt(arena, Shift(ListPositions(fields, at), first), first + k);
      && (AllDistinct(fields) ==> read == StampList(fields, IdsFrom(flat, next, preserve), at))
      && (StripList(read) == StripList(fields) ==> AllDistinct(fields))
    decreases fields, 2
  {
    hide IdsFrom, PlacedAt, Flatten, FlattenList, ListPositions, ColumnAt, Forward, Shift, Strip, Stamp;
    ListPositionsBound(fields, at);
    PositionsHead(fields, at, first);
    if fields.Cons? {
      ListSegments(flat, k, at, fields);
      RoundTripAt(arena, first, flat, outer, next, preserve, at, fields.first);
      ListRoundTrip(arena, first, flat, outer, next, preserve, k, at + Size(fields.first), fields.rest);
    }
  }

  lemma PositionsHead(fields: ColumnList, at: nat, first: nat)
    ensures fields.Nil? ==> Shift(ListPositions(fields, at), first) == []
    ensures fields.Cons? ==> (Shift(ListPositions(fields, at), first)
                              == [first + at] + Shift(ListPositions(fields.rest, at + Size(fields.first)), first))
  {
  }

  lemma ListSegments(flat: seq<Flat>, k: nat, at: nat, fields: ColumnList)
    requires fields.Cons? && at + SizeOfList(fields) <= |flat|
    requires flat[at..at + SizeOfList(fields)] == FlattenList(fields, Some(k), at)
    ensures Segment(flat, at, fields.first)
    ensures at + Size(fields.first) + SizeOfList(fields.rest) <= |flat|
    ensures flat[at + Size(fields.first)..at + Size(fields.first) + SizeOfList(fields.rest)]
         == FlattenList(fields.rest, Some(k), at + Size(fields.first))
  {
    hide Segment, Flatten;
    var segment, n := flat[at..at + SizeOfList(fields)], Size(fields.first);
    assert flat[at..at + n] == segment[..n] == Flatten(fields.first, Some(k), at);
    assert flat[at + n..at + SizeOfList(fields)] == segment[n..];
    SegmentOf(flat, at, fields.first, Some(k));
  }

  /** Adding a column to an arena and reading it back: `add_column_to_arena` against `schema_column_from_arena_index`. */
  lemma RoundTrip(arena: seq<CatalogColumn>, first: nat, c: Column, outer: Option<nat>, next: int, preserve: bool)
    requires Extended(arena, first, Flatten(c, None, 0), outer, next, preserve)
    ensures Forward(arena)
    ensures Strip(ColumnAt(arena, first)) == Strip(c) <==> DistinctFields(c)
    ensures DistinctFields(c) ==> ColumnAt(arena, first) == Stamp(c, IdsFrom(Flatten(c, None, 0), next, preserve), 0)
  {
    hide IdsFrom;
    var flat := Flatten(c, None, 0);
    AddedForward(arena, first, c, outer, next, preserve);
    assert flat[0..Size(c)] == flat;
    SegmentOf(flat, 0, c, None);
    RoundTripAt(arena, first, flat, outer, next, preserve, 0, c);
    StampStrips(c, IdsFrom(flat, next, preserve), 0);
  }

  // ----- ids and order -----

  /** Fresh ids are distinct, follow the next id in pre-order, and index exactly the new columns. */
  lemma {:induction false} FreshIdsIndexed(byId: map<int, nat>, flat: seq<Flat>, first: nat, next: int, n: nat)
    requires n <= |flat| && forall k :: k in byId ==> k < next
    ensures
      var after := Indexed(byId, flat, first, next, false, n);
      && (forall k :: next <= k < next + n ==> k in after && after[k] == first + (k - next))
      && (forall k :: k in after <==> k in byId || next <= k < next + n)
      && (forall k :: k in byId ==> after[k] == byId[k])
  {
    if n > 0 {
      FreshIdsIndexed(byId, flat, first, next, n - 1);
    }
  }

  /** Ids that are kept are the columns' own. */
  lemma {:induction false} StampKeepsIds(flat: seq<Flat>, next: int, k: nat, c: Column)
    requires Segment(flat, k, c) && HasIds(flat)
    ensures Stamp(c, IdsFrom(flat, next, true), k) == c
    decreases c, 1
  {
    hide Segment;
    ChildSegments(flat, k, c);
    StampParts(c, IdsFrom(flat, next, true), k);
    assert flat[k] in flat && flat[k].column == c by { SegmentHead(flat, k, c); }
    match c.dtype
    case Primitive(_) =>
    case List(item) => StampKeepsIds(flat, next, k + 1, item);
    case Map(key, value) =>
      StampKeepsIds(flat, next, k + 1, key);
      StampKeepsIds(flat, next, k + 1 + Size(key), value);
    case Struct(fields) => StampKeepsListIds(flat, next, k, k + 1, fields);
  }

  lemma SegmentHead(flat: seq<Flat>, k: nat, c: Column)
    requires Segment(flat, k, c)
    ensures k < |flat| && flat[k].column == c
  {
  }

  lemma {:induction false} StampKeepsListIds(flat: seq<Flat>, next: int, k: nat, at: nat, fields: ColumnList)
    requires at + SizeOfList(fields) <= |flat| && flat[at..at + SizeOfList(fields)] == FlattenList(fields, Some(k), at)
    requires HasIds(flat)
    ensures StampList(fields, IdsFrom(flat, next, true), at) == fields
    decreases fields, 2
  {
    hide FlattenList;
    if fields.Cons? {
      ListSegments(flat, k, at, fields);
      StampKeepsIds(flat, next, at, fields.first);
      StampKeepsListIds(flat, next, k, at + Size(fields.first), fields.rest);
    }
  }

  /** With different field names the arena order is the pre-order of the tree: indices line up with flattened columns. */
  lemma {:induction false} SubtreeAt(arena: seq<CatalogColumn>, first: nat, flat: seq<Flat>, outer: Option<nat>, next: int,
                                     preserve: bool, k: nat, c: Column)
    requires Inside(arena, first, flat, outer, next, preserve) && Segment(flat, k, c) && DistinctFields(c)
    requires first + k < |arena| && Forward(arena)
    ensures Subtree(arena, first + k) == Range(first + k, Size(c))
    decreases c, 1
  {
    hide Inside, Segment, IdsFrom, TypeFrom, Subtree, Subtrees, Range, Forward, CollectFields, Indices, Shift, ListPositions,
         ChildPositions, Behind, Children, Flatten, FlattenList;
    NodeOf(arena, first, flat, outer, next, preserve, k, c);
    ChildSegments(flat, k, c);
    NodeShape(arena, first, k, c);
    InsideFits(arena, first, flat, outer, next, preserve);
    SubtreeParts(arena, first + k);
    RangeHead(first + k, SizeOfType(c.dtype));
    match c.dtype
    case Primitive(_) =>
    case List(item) =>
      SubtreeAt(arena, first, flat, outer, next, preserve, k + 1, item);
    case Map(key, value) =>
      SubtreeAt(arena, first, flat, outer, next, preserve, k + 1, key);
      SubtreeAt(arena, first, flat, outer, next, preserve, k + 1 + Size(key), value);
      RangeAppend(first + k + 1, Size(key), Size(value));
    case Struct(fields) =>
      DistinctIndices(fields, Shift(ListPositions(fields, k + 1), first));
      SubtreesAt(arena, first, flat, outer, next, preserve, k, k + 1, fields);
  }

  lemma DistinctIndices(fields: ColumnList, positions: seq<nat>)
    requires |positions| == Length(fields) && DistinctNames(fields)
    ensures Indices(CollectFields(fields, positions, [])) == positions
  {
    hide CollectFields, Indices;
    CollectDistinct(fields, positions, []);
    assert [] + Zip(fields, positions) == Zip(fields, positions);
    ZipIndices(fields, positions);
  }

  function Range(from: nat, n: nat): seq<nat> { seq(n, i requires 0 <= i < n => from + i) }

  lemma RangeHead(from: nat, n: nat)
    ensures Range(from, 1 + n) == [from] + Range(from + 1, n) && (n == 0 ==> Range(from + 1, n) == [])
  {
  }

  lemma NoRange(from: nat)
    ensures Range(from, 0) == []
  {
  }

  lemma RangeAppend(from: nat, m: nat, n: nat)
    ensures Range(from, m + n) == Range(from, m) + Range(from + m, n)
  {
  }

  /** The subtree of a column, by kind. */
  lemma SubtreeParts(arena: seq<CatalogColumn>, idx: nat)
    requires Forward(arena) && idx < |arena| && Behind(Children(arena[idx].dtype), idx, |arena|)
    ensures
      var t, r := arena[idx].dtype, Subtree(arena, idx);
      && (t.PrimitiveType? ==> r == [idx])
      && (t.ListType? ==> t.item < |arena| && r == [idx] + Subtree(arena, t.item))
      && (t.MapType? ==> t.key < |arena| && t.value < |arena| && r == [idx] + (Subtree(arena, t.key) + Subtree(arena, t.value)))
      && (t.StructType? ==> r == [idx] + Subtrees(arena, Indices(t.fields), idx))
  {
    hide Forward;
    SubtreeIs(arena, idx);
    hide Subtree;
    var t := arena[idx].dtype;
    match t
    case PrimitiveType(_) =>
    case StructType(_) =>
    case ListType(item) => OneSubtree(arena, item, idx);
    case MapType(key, value) => TwoSubtrees(arena, key, value, idx);
  }

  lemma OneSubtree(arena: seq<CatalogColumn>, child: nat, idx: nat)
    requires Forward(arena) && idx < |arena| && Behind([child], idx, |arena|)
    ensures child < |arena| && Subtrees(arena, [child], idx) == Subtree(arena, child)
  {
    hide Forward, Subtree;
    assert [child][0] == child && [child][1..] == [];
    assert Subtrees(arena, [child], idx) == Subtree(arena, child) + [];
  }

  lemma TwoSubtrees(arena: seq<CatalogColumn>, a: nat, b: nat, idx: nat)
    requires Forward(arena) && idx < |arena| && Behind([a, b], idx, |arena|)
    ensures a < |arena| && b < |arena| && Subtrees(arena, [a, b], idx) == Subtree(arena, a) + Subtree(arena, b)
  {
    hide Forward, Subtree;
    assert [a, b][0] == a && [a, b][1] == b && [a, b][1..] == [b];
    OneSubtree(arena, b, idx);
  }

  lemma {:induction false} SubtreesAt(arena: seq<CatalogColumn>, first: nat, flat: seq<Flat>, outer: Option<nat>, next: int,
                                      preserve: bool, k: nat, at: nat, fields: ColumnList)
    requires Inside(arena, first, flat, outer, next, preserve) && k < at && first + k < |arena| && first + |flat| <= |arena|
    requires at + SizeOfList(fields) <= |flat| && flat[at..at + SizeOfList(fields)] == FlattenList(fields, Some(k), at)
    requires AllDistinct(fields)
    ensures Behind(Shift(ListPositions(fields, at), first), first + k, |arena|)
    ensures Subtrees(arena, Shift(ListPositions(fields, at), first), first + k) == Range(first + at, SizeOfList(fields))
    decreases fields, 2
  {
    hide IdsFrom, PlacedAt, Flatten, FlattenList, ListPositions, Subtree, Range, Forward, Shift;
    ListPositionsBound(fields, at);
    PositionsHead(fields, at, first);
    if fields.Cons? {
      ListSegments(flat, k, at, fields);
      SubtreeAt(arena, first, flat, outer, next, preserve, at, fields.first);
      SubtreesAt(arena, first, flat, outer, next, preserve, k, at + Size(fields.first), fields.rest);
      RangeAppend(first + at, Size(fields.first), SizeOfList(fields.rest));
    } else {
      NoRange(first + at);
    }
  }

  /** `root_column_indices` of a column just added lists its new indices in order. */
  lemma AddedSubtree(arena: seq<CatalogColumn>, first: nat, c: Column, outer: Option<nat>, next: int, preserve: bool)
    requires Extended(arena, first, Flatten(c, None, 0), outer, next, preserve) && DistinctFields(c)
    ensures Forward(arena) && Subtree(arena, first) == Range(first, Size(c))
  {
    var flat := Flatten(c, None, 0);
    AddedForward(arena, first, c, outer, next, preserve);
    assert flat[0..Size(c)] == flat;
    SegmentOf(flat, 0, c, None);
    SubtreeAt(arena, first, flat, outer, next, preserve, 0, c);
  }

  // ----- whole schemas -----

  /** Columns added later do not change what is read of earlier ones. */
  lemma {:induction false} ColumnAtPrefix(a: seq<CatalogColumn>, b: seq<CatalogColumn>, idx: nat)
    requires Forward(a) && Forward(b) && a <= b && idx < |a|
    ensures ColumnAt(a, idx) == ColumnAt(b, idx)
    decreases |a| - idx, 0
  {
    hide Forward, ColumnAt;
    assert b[idx] == a[idx];
    ReadBack(a, idx);
    ReadBack(b, idx);
    var t := a[idx].dtype;
    match t
    case PrimitiveType(_) =>
    case ListType(item) => ColumnAtPrefix(a, b, item);
    case MapType(key, value) => ColumnAtPrefix(a, b, key); ColumnAtPrefix(a, b, value);
    case StructType(fields) => ColumnsAtPrefix(a, b, Indices(fields), idx);
  }

  lemma {:induction false} ColumnsAtPrefix(a: seq<CatalogColumn>, b: seq<CatalogColumn>, children: seq<nat>, idx: nat)
    requires Forward(a) && Forward(b) && a <= b && idx < |a| && Behind(children, idx, |a|)
    ensures Behind(children, idx, |b|) && ColumnsAt(a, children, idx) == ColumnsAt(b, children, idx)
    decreases |a| - idx - 1, 1, |children|
  {
    hide Forward, ColumnAt;
    if children != [] {
      ColumnAtPrefix(a, b, children[0]);
      ColumnsAtPrefix(a, b, children[1..], idx);
    }
  }

  function TotalSize(columns: seq<Column>): nat {
    if columns == [] then 0 else TotalSize(columns[..|columns| - 1]) + Size(columns[|columns| - 1])
  }

  predicate DistinctRoots(columns: seq<Column>) {
    forall i, j :: 0 <= i < j < |columns| ==> columns[i].name != columns[j].name
  }

  /** What reading a root gives for the schema column it was built from. */
  ghost predicate ReadsBack(arena: seq<CatalogColumn>, idx: nat, c: Column, preserve: bool) {
    && Forward(arena) && idx < |arena|
    && (Strip(ColumnAt(arena, idx)) == Strip(c) <==> DistinctFields(c))
    && (preserve && DistinctFields(c) ==> ColumnAt(arena, idx) == c)
  }

  /** The roots after adding the columns: their names in order, each with its column. */
  ghost predicate RootsOf(arena: seq<CatalogColumn>, byId: map<int, nat>, roots: NameMap, columns: seq<Column>, preserve: bool) {
    && |roots| == |columns|
    && forall i :: 0 <= i < |columns| ==>
         && roots[i].0 == columns[i].name && ReadsBack(arena, roots[i].1, columns[i], preserve)
         && arena[roots[i].1].id in byId
  }

  /** The ids of an arena that was filled with fresh ids only. */
  ghost predicate NumberedAt(arena: seq<CatalogColumn>, byId: map<int, nat>, next: int, j: nat) {
    j < |arena| && arena[j].id == next + j && next + j in byId && byId[next + j] == j
  }

  ghost predicate Sequential(arena: seq<CatalogColumn>, byId: map<int, nat>, next: int) {
    && (forall j :: 0 <= j < |arena| ==> NumberedAt(arena, byId, next, j))
    && forall k :: k in byId ==> next <= k < next + |arena|
  }

  /**
   * Building the arena from a schema and reading the schema back gives every column, in order and
   * up to ids, exactly when its structs' fields have different names; ids are kept or fresh.
   */
  lemma {:induction false} SchemaRoundTrip(columns: seq<Column>, preserve: bool, next: int, arena: seq<CatalogColumn>,
                                           byId: map<int, nat>, roots: NameMap, after: int)
    requires Built([], map[], [], next, columns, preserve, arena, byId, roots, after) && DistinctRoots(columns)
    requires forall c :: c in columns ==> preserve ==> HasIds(Flatten(c, None, 0))
    ensures Forward(arena) && |arena| == TotalSize(columns)
    ensures RootsOf(arena, byId, roots, columns, preserve)
    ensures !preserve ==> Sequential(arena, byId, next) && after == next + |arena|
    decreases |columns|
  {
    hide RootsOf, Forward, Sequential, DistinctRoots, PlacedAt, Indexed, Insert, Flatten, HasIds;
    if columns != [] {
      var n := |columns| - 1;
      var c := columns[n];
      var flat := Flatten(c, None, 0);
      var arena1, byId1, roots1, next1 :|
        && Built([], map[], [], next, columns[..n], preserve, arena1, byId1, roots1, next1)
        && |arena| == |arena1| + |flat| && arena[..|arena1|] == arena1
        && PlacedAt(arena, |arena1|, flat, None, next1, preserve)
        && byId == Indexed(byId1, flat, |arena1|, next1, preserve, |flat|)
        && after == next1 + (if preserve then 0 else |flat|)
        && roots == Insert(roots1, c.name, |arena1|);
      hide Built;
      assert forall x :: x in columns[..n] ==> x in columns;
      PrefixDistinct(columns, n);
      SchemaRoundTrip(columns[..n], preserve, next, arena1, byId1, roots1, next1);
      AddedForward(arena, |arena1|, c, None, next1, preserve);
      assert c in columns;
      RootAdded(columns, preserve, arena1, byId1, roots1, next1, arena, byId, roots);
      if !preserve {
        SequentialBelow(arena1, byId1, next);
        FreshIdsIndexed(byId1, flat, |arena1|, next1, |flat|);
        SequentialGrows(arena1, byId1, next, arena, byId, flat);
      }
    } else {
      NothingBuilt(next, preserve);
    }
  }

  lemma PrefixDistinct(columns: seq<Column>, n: nat)
    requires DistinctRoots(columns) && n <= |columns|
    ensures DistinctRoots(columns[..n])
  {
  }

  lemma SequentialBelow(arena: seq<CatalogColumn>, byId: map<int, nat>, next: int)
    requires Sequential(arena, byId, next)
    ensures forall k :: k in byId ==> k < next + |arena|
  {
  }

  lemma NothingBuilt(next: int, preserve: bool)
    ensures Forward([]) && RootsOf([], map[], [], [], preserve) && Sequential([], map[], next)
  {
  }

  lemma SequentialGrows(arena1: seq<CatalogColumn>, byId1: map<int, nat>, next: int, arena: seq<CatalogColumn>,
                        byId: map<int, nat>, flat: seq<Flat>)
    requires Sequential(arena1, byId1, next) && |arena| == |arena1| + |flat| && arena[..|arena1|] == arena1
    requires PlacedAt(arena, |arena1|, flat, None, next + |arena1|, false)
    requires forall k :: next + |arena1| <= k < next + |arena1| + |flat| ==> k in byId && byId[k] == k - next
    requires forall k :: k in byId <==> k in byId1 || next + |arena1| <= k < next + |arena1| + |flat|
    requires forall k :: k in byId1 ==> byId[k] == byId1[k]
    ensures Sequential(arena, byId, next)
  {
    hide PlacedAt;
    forall j | 0 <= j < |arena| ensures NumberedAt(arena, byId, next, j) {
      if j < |arena1| {
        assert arena[j] == arena[..|arena1|][j] == arena1[j];
        assert NumberedAt(arena1, byId1, next, j);
      } else {
        PlacedId(arena, |arena1|, flat, next + |arena1|, j - |arena1|);
        var k := next + j;
        assert k in byId && byId[k] == k - next;
      }
    }
    forall k | k in byId ensures next <= k < next + |arena| {
      assert k in byId1 || next + |arena1| <= k < next + |arena1| + |flat|;
    }
  }

  lemma PlacedId(arena: seq<CatalogColumn>, first: nat, flat: seq<Flat>, next: int, i: nat)
    requires PlacedAt(arena, first, flat, None, next, false) && i < |flat|
    ensures first + i < |arena| && arena[first + i].id == next + i
  {
    assert Some(arena[first + i]) == NodeAt(flat, i, first, None, next, false);
  }

  lemma {:induction false} IndexedKeeps(byId: map<int, nat>, flat: seq<Flat>, first: nat, next: int, preserve: bool, n: nat)
    requires n <= |flat|
    ensures forall k :: k in byId ==> k in Indexed(byId, flat, first, next, preserve, n)
    ensures forall i :: 0 <= i < n ==> IdOf(flat, next, preserve, i) in Indexed(byId, flat, first, next, preserve, n)
  {
    if n > 0 {
      IndexedKeeps(byId, flat, first, next, preserve, n - 1);
    }
  }

  lemma RootAdded(columns: seq<Column>, preserve: bool, arena1: seq<CatalogColumn>, byId1: map<int, nat>, roots1: NameMap,
                  next1: int, arena: seq<CatalogColumn>, byId: map<int, nat>, roots: NameMap)
    requires columns != [] && DistinctRoots(columns) && Forward(arena1) && Forward(arena)
    requires
      var n, flat := |columns| - 1, Flatten(columns[|columns| - 1], None, 0);
      && RootsOf(arena1, byId1, roots1, columns[..n], preserve)
      && |arena| == |arena1| + |flat| && arena[..|arena1|] == arena1
      && PlacedAt(arena, |arena1|, flat, None, next1, preserve) && (preserve ==> HasIds(flat))
      && byId == Indexed(byId1, flat, |arena1|, next1, preserve, |flat|)
      && roots == Insert(roots1, columns[n].name, |arena1|)
    ensures RootsOf(arena, byId, roots, columns, preserve)
  {
    hide Flatten, Strip, DistinctFields, Forward, ColumnAt, Indexed, PlacedAt, Insert, Stamp, IdsFrom;
    var n := |columns| - 1;
    var c := columns[n];
    var flat := Flatten(c, None, 0);
    forall i | 0 <= i < n ensures roots1[i].0 != c.name {
      assert columns[..n][i] == columns[i];
    }
    assert !HasName(roots1, c.name);
    InsertNew(roots1, c.name, |arena1|);
    IndexedKeeps(byId1, flat, |arena1|, next1, preserve, |flat|);
    RootReadsBack(arena1, arena, c, next1, preserve, byId);
    forall i | 0 <= i < n ensures ReadsBack(arena, roots[i].1, columns[i], preserve) && arena[roots[i].1].id in byId {
      assert columns[..n][i] == columns[i];
      ColumnAtPrefix(arena1, arena, roots1[i].1);
      assert arena[roots1[i].1] == arena1[roots1[i].1];
    }
  }

  lemma RootReadsBack(arena1: seq<CatalogColumn>, arena: seq<CatalogColumn>, c: Column, next1: int, preserve: bool, byId: map<int, nat>)
    requires Forward(arena1)
    requires
      var flat := Flatten(c, None, 0);
      && |arena| == |arena1| + |flat| && arena[..|arena1|] == arena1
      && PlacedAt(arena, |arena1|, flat, None, next1, preserve) && (preserve ==> HasIds(flat))
      && forall i :: 0 <= i < |flat| ==> IdOf(flat, next1, preserve, i) in byId
    ensures ReadsBack(arena, |arena1|, c, preserve) && arena[|arena1|].id in byId
  {
    hide Flatten, Strip, DistinctFields, Forward, ColumnAt;
    var flat := Flatten(c, None, 0);
    RoundTrip(arena, |arena1|, c, None, next1, preserve);
    assert Some(arena[|arena1| + 0]) == NodeAt(flat, 0, |arena1|, None, next1, preserve);
    if preserve {
      assert flat[0..Size(c)] == flat;
      SegmentOf(flat, 0, c, None);
      StampKeepsIds(flat, next1, 0, c);
    }
  }
}
