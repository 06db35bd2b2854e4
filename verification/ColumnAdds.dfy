/** Adding columns establishes and keeps the links between columns that the edits rely on. */
module ColumnAdds {
  import opened Prelude
  import opened Columns
  import opened ColumnArena
  import opened ColumnLaws
  import opened ColumnEdits

  // ----- flattened columns, wherever they are -----

  /** Every flattened column has its own segment and, when the whole has, different field names. */
  lemma {:induction false} SegmentInside(flat: seq<Flat>, i: nat, c: Column, k: nat)
    requires Segment(flat, i, c) && i <= k < i + Size(c)
    ensures k < |flat| && Segment(flat, k, flat[k].column)
    ensures DistinctFields(c) ==> DistinctFields(flat[k].column)
    decreases c, 1
  {
    hide Segment;
    SegmentHead(flat, i, c);
    if k > i {
      ChildSegments(flat, i, c);
      match c.dtype
      case List(item) => SegmentInside(flat, i + 1, item, k);
      case Struct(fields) => SegmentInsideList(flat, i, i + 1, fields, k);
      case Map(key, value) =>
        if k < i + 1 + Size(key) {
          SegmentInside(flat, i + 1, key, k);
        } else {
          SegmentInside(flat, i + 1 + Size(key), value, k);
        }
    }
  }

  lemma {:induction false} SegmentInsideList(flat: seq<Flat>, i: nat, at: nat, fields: ColumnList, k: nat)
    requires at + SizeOfList(fields) <= |flat| && flat[at..at + SizeOfList(fields)] == FlattenList(fields, Some(i), at)
    requires at <= k < at + SizeOfList(fields)
    ensures Segment(flat, k, flat[k].column)
    ensures AllDistinct(fields) ==> DistinctFields(flat[k].column)
    decreases fields, 2
  {
    hide Segment, FlattenList;
    ListSegments(flat, i, at, fields);
    if k < at + Size(fields.first) {
      SegmentInside(flat, at, fields.first, k);
    } else {
      SegmentInsideList(flat, i, at + Size(fields.first), fields.rest, k);
    }
  }

  /** Behind the first one, every flattened column has its parent before it. */
  lemma {:induction false} ParentBefore(c: Column, parent: Option<nat>, at: nat, k: nat)
    requires 0 < k < Size(c)
    ensures
      var f := Flatten(c, parent, at)[k];
      f.parent.Some? && at <= f.parent.value < at + k
    decreases Size(c), 1
  {
    assert Flatten(c, parent, at)[k] == FlattenChildren(c.dtype, at)[k - 1];
    ParentBeforeType(c.dtype, at, k - 1);
  }

  lemma {:induction false} ParentBeforeType(t: DataType, at: nat, k: nat)
    requires k < SizeOfType(t)
    ensures
      var f := FlattenChildren(t, at)[k];
      f.parent.Some? && at <= f.parent.value < at + 1 + k
    decreases 1 + SizeOfType(t), 0
  {
    match t
    case List(item) => if k > 0 { ParentBefore(item, Some(at), at + 1, k); }
    case Struct(fields) => ParentBeforeList(fields, at, at + 1, k);
    case Map(key, value) =>
      if 0 < k < Size(key) {
        ParentBefore(key, Some(at), at + 1, k);
      } else if k > Size(key) {
        ParentBefore(value, Some(at), at + 1 + Size(key), k - Size(key));
      }
  }

  lemma {:induction false} ParentBeforeList(cs: ColumnList, parent: nat, at: nat, k: nat)
    requires k < SizeOfList(cs) && parent < at
    ensures
      var f := FlattenList(cs, Some(parent), at)[k];
      f.parent.Some? && parent <= f.parent.value < at + k
    decreases SizeOfList(cs), 2
  {
    if 0 < k < Size(cs.first) {
      ParentBefore(cs.first, Some(parent), at, k);
    } else if k >= Size(cs.first) {
      ParentBeforeList(cs.rest, parent, at + Size(cs.first), k - Size(cs.first));
    }
  }

  lemma {:induction false} ChildrenHaveParent(flat: seq<Flat>, at: nat, p: nat)
    ensures forall q: nat :: q in ChildrenOf(flat, at, p) <==> at <= q < at + |flat| && flat[q - at].parent == Some(p)
  {
    if flat != [] {
      ChildrenHaveParent(flat[1..], at + 1, p);
      assert forall r :: 0 < r < |flat| ==> flat[r] == flat[1..][r - 1];
    }
  }

  /** The positions of the children of the column at `k` are exactly the columns with that parent. */
  lemma ChildPositionsExact(c: Column, k: nat)
    requires k < Size(c)
    ensures
      var flat := Flatten(c, None, 0);
      forall q: nat :: q in ChildPositions(flat[k].column.dtype, k) <==> q < |flat| && flat[q].parent == Some(k)
  {
    FlattenedChildren(c, None, 0, k);
    ChildrenHaveParent(Flatten(c, None, 0), 0, k);
  }

  // ----- field names -----

  lemma {:induction false} ZipKeys(cs: ColumnList, positions: seq<nat>)
    requires |positions| == Length(cs)
    ensures |Zip(cs, positions)| == Length(cs)
    ensures forall n :: HasName(Zip(cs, positions), n) ==> NameIn(cs, n)
    ensures DistinctNames(cs) ==> DistinctKeys(Zip(cs, positions))
    decreases cs
  {
    if cs.Cons? {
      ZipKeys(cs.rest, positions[1..]);
      HasNameHead(Zip(cs, positions));
      var z, rest := Zip(cs, positions), Zip(cs.rest, positions[1..]);
      assert z[1..] == rest;
      if DistinctNames(cs) {
        forall i, j | 0 <= i < j < |z| ensures z[i].0 != z[j].0 {
          assert z[j] == rest[j - 1];
          assert HasName(rest, rest[j - 1].0);
          if i > 0 { assert z[i] == rest[i - 1]; }
        }
      }
    }
  }

  /** Every entry leads to a flattened column of its name. */
  ghost predicate EntriesLead(z: NameMap, flat: seq<Flat>, first: nat) {
    forall t :: 0 <= t < |z| ==> first <= z[t].1 < first + |flat| && flat[z[t].1 - first].column.name == z[t].0
  }

  /** The entry of a field leads to the position of the field. */
  lemma {:induction false} ZipNames(flat: seq<Flat>, first: nat, i: nat, at: nat, fields: ColumnList)
    requires at + SizeOfList(fields) <= |flat| && flat[at..at + SizeOfList(fields)] == FlattenList(fields, Some(i), at)
    ensures EntriesLead(Zip(fields, Shift(ListPositions(fields, at), first)), flat, first)
    decreases fields
  {
    hide Segment, FlattenList, Flatten, ListPositions, Shift, EntriesLead;
    PositionsHead(fields, at, first);
    if fields.Cons? {
      ListSegments(flat, i, at, fields);
      SegmentHead(flat, at, fields.first);
      ZipNames(flat, first, i, at + Size(fields.first), fields.rest);
      var positions := Shift(ListPositions(fields, at), first);
      var rest := Shift(ListPositions(fields.rest, at + Size(fields.first)), first);
      assert positions[0] == first + at && positions[1..] == rest;
      assert Zip(fields, positions) == [(fields.first.name, first + at)] + Zip(fields.rest, rest);
      EntriesLeadHead(fields.first.name, at, Zip(fields.rest, rest), flat, first);
    } else {
      NoEntries(flat, first);
    }
  }

  lemma NoEntries(flat: seq<Flat>, first: nat)
    ensures EntriesLead([], flat, first)
  {
  }

  lemma EntriesLeadHead(name: string, at: nat, rest: NameMap, flat: seq<Flat>, first: nat)
    requires at < |flat| && flat[at].column.name == name && EntriesLead(rest, flat, first)
    ensures EntriesLead([(name, first + at)] + rest, flat, first)
  {
    var z := [(name, first + at)] + rest;
    forall t | 0 <= t < |z| ensures first <= z[t].1 < first + |flat| && flat[z[t].1 - first].column.name == z[t].0 {
      if t > 0 { assert z[t] == rest[t - 1]; }
    }
  }

  // ----- new columns -----

  /** An arena with a column of different field names placed behind a linked arena. */
  ghost predicate Added(arena0: seq<CatalogColumn>, roots: NameMap, parent: Option<nat>, c: Column, next: int, added: seq<CatalogColumn>) {
    && Linked(arena0, roots) && DistinctFields(c)
    && (parent.Some? ==> parent.value < |arena0| && arena0[parent.value].dtype.StructType?)
    && !HasName(Level(arena0, roots, parent), c.name)
    && |added| == |arena0| + Size(c) && added[..|arena0|] == arena0
    && PlacedAt(added, |arena0|, Flatten(c, None, 0), parent, next, false)
  }

  /** A new column: where its parent is, and its children, which know it. */
  lemma NewNode(arena0: seq<CatalogColumn>, roots: NameMap, parent: Option<nat>, c: Column, next: int, added: seq<CatalogColumn>, k: nat)
    requires Added(arena0, roots, parent, c, next, added) && k < Size(c)
    ensures
      var flat, first := Flatten(c, None, 0), |arena0|;
      && first + k < |added|
      && added[first + k].name == flat[k].column.name
      && added[first + k].parent == (if k == 0 then parent else if flat[k].parent.Some? then Some(first + flat[k].parent.value) else None)
      && Some(added[first + k].dtype) == TypeFrom(flat[k].column.dtype, Shift(ChildPositions(flat[k].column.dtype, k), first))
  {
    hide Linked, DistinctFields, ChildPositions, TypeFrom, Level;
    var flat, first := Flatten(c, None, 0), |arena0|;
    assert Some(added[first + k]) == NodeAt(flat, k, first, parent, next, false);
    assert flat[0].parent == None;
    if k > 0 { ParentBefore(c, None, 0, k); }
  }

  lemma NewChildren(arena0: seq<CatalogColumn>, roots: NameMap, parent: Option<nat>, c: Column, next: int, added: seq<CatalogColumn>, k: nat)
    requires Added(arena0, roots, parent, c, next, added) && k < Size(c)
    ensures
      var flat, first := Flatten(c, None, 0), |arena0|;
      first + k < |added| && Children(added[first + k].dtype) == Shift(ChildPositions(flat[k].column.dtype, k), first)
  {
    var flat, first := Flatten(c, None, 0), |arena0|;
    NewNode(arena0, roots, parent, c, next, added, k);
    hide Linked, Level, PlacedAt, Added, Flatten;
    assert DistinctFields(flat[k].column) by {
      assert Added(arena0, roots, parent, c, next, added);
      AddedDistinct(arena0, roots, parent, c, next, added, k);
    }
    if flat[k].column.dtype.Struct? {
      DistinctIndices(flat[k].column.dtype.fields, Shift(ListPositions(flat[k].column.dtype.fields, k + 1), first));
    }
  }

  lemma AddedDistinct(arena0: seq<CatalogColumn>, roots: NameMap, parent: Option<nat>, c: Column, next: int,
                      added: seq<CatalogColumn>, k: nat)
    requires Added(arena0, roots, parent, c, next, added) && k < Size(c)
    ensures DistinctFields(Flatten(c, None, 0)[k].column) && Segment(Flatten(c, None, 0), k, Flatten(c, None, 0)[k].column)
  {
    hide Linked, Level, PlacedAt;
    var flat := Flatten(c, None, 0);
    assert flat[0..Size(c)] == flat;
    SegmentOf(flat, 0, c, None);
    SegmentInside(flat, 0, c, k);
  }

  lemma NewLinked(arena0: seq<CatalogColumn>, roots: NameMap, parent: Option<nat>, c: Column, next: int, added: seq<CatalogColumn>, k: nat)
    requires Added(arena0, roots, parent, c, next, added) && k < Size(c)
    ensures |arena0| + k < |added| && NodeLinked(added, |arena0| + k)
  {
    hide Linked, Level, PlacedAt, Added, Flatten, ChildPositions, DistinctFields, TypeFrom;
    var flat, first := Flatten(c, None, 0), |arena0|;
    NewNode(arena0, roots, parent, c, next, added, k);
    NewChildren(arena0, roots, parent, c, next, added, k);
    AddedSize(arena0, roots, parent, c, next, added);
    ChildPositionsExact(c, k);
    var n := added[first + k];
    var positions := ChildPositions(flat[k].column.dtype, k);
    forall j | 0 <= j < |Children(n.dtype)| ensures Children(n.dtype)[j] < |added| && added[Children(n.dtype)[j]].parent == Some(first + k) {
      var q := positions[j];
      assert q in positions;
      NewNode(arena0, roots, parent, c, next, added, q);
      RootHasNoParent(c);
    }
    assert ChildrenPoint(added, first + k);
    NewNamed(arena0, roots, parent, c, next, added, k, first + k);
  }

  lemma AddedSize(arena0: seq<CatalogColumn>, roots: NameMap, parent: Option<nat>, c: Column, next: int, added: seq<CatalogColumn>)
    requires Added(arena0, roots, parent, c, next, added)
    ensures |added| == |arena0| + Size(c) && |Flatten(c, None, 0)| == Size(c) >= 1
  {
  }

  lemma RootHasNoParent(c: Column)
    ensures |Flatten(c, None, 0)| > 0 && Flatten(c, None, 0)[0] == Flat(c, None)
  {
  }

  /** The children of a column name it as their parent. */
  ghost predicate ChildrenPoint(arena: seq<CatalogColumn>, i: nat)
    requires i < |arena|
  {
    forall j :: 0 <= j < |Children(arena[i].dtype)| ==>
      Children(arena[i].dtype)[j] < |arena| && arena[Children(arena[i].dtype)[j]].parent == Some(i)
  }

  lemma NewNamed(arena0: seq<CatalogColumn>, roots: NameMap, parent: Option<nat>, c: Column, next: int, added: seq<CatalogColumn>,
                 k: nat, i: nat)
    requires Added(arena0, roots, parent, c, next, added) && k < Size(c) && i == |arena0| + k < |added|
    requires ChildrenPoint(added, i)
    ensures
      var t := added[i].dtype;
      && (t.StructType? ==> Named(added, t.fields, Some(i)))
      && (t.MapType? ==> t.key != t.value)
  {
    hide Linked, Level, PlacedAt, Added, Flatten, DistinctFields, ChildrenPoint, Segment, ListPositions, Shift, CollectFields, Zip, Named,
         EntriesLead, ChildPositions, FlattenList;
    var flat, first := Flatten(c, None, 0), |arena0|;
    NewNode(arena0, roots, parent, c, next, added, k);
    AddedDistinct(arena0, roots, parent, c, next, added, k);
    AddedSize(arena0, roots, parent, c, next, added);
    var t := flat[k].column.dtype;
    if t.Struct? {
      StructNames(flat[k].column);
      ChildSegments(flat, k, flat[k].column);
      var positions := Shift(ListPositions(t.fields, k + 1), first);
      ZipNames(flat, first, k, k + 1, t.fields);
      var z := FieldMap(t.fields, positions);
      StructOf(added[i].dtype, t, k, first);
      forall j | 0 <= j < |z| ensures z[j].1 < |added| && added[z[j].1].name == z[j].0 {
        NewNamedEntry(arena0, roots, parent, c, next, added, z, j);
      }
      FieldsNamed(added, z, i);
    } else if t.Map? {
      MapKeys(added[i].dtype, t, k, first);
    }
  }

  lemma NewNamedEntry(arena0: seq<CatalogColumn>, roots: NameMap, parent: Option<nat>, c: Column, next: int,
                      added: seq<CatalogColumn>, z: NameMap, j: nat)
    requires Added(arena0, roots, parent, c, next, added) && j < |z| && EntriesLead(z, Flatten(c, None, 0), |arena0|)
    ensures z[j].1 < |added| && added[z[j].1].name == z[j].0
  {
    hide Linked, Level, PlacedAt, Added, Flatten;
    AddedSize(arena0, roots, parent, c, next, added);
    assert |arena0| <= z[j].1 < |arena0| + Size(c);
    NewNode(arena0, roots, parent, c, next, added, z[j].1 - |arena0|);
  }

  lemma StructOf(n: CatalogType, t: DataType, k: nat, first: nat)
    requires t.Struct? && Some(n) == TypeFrom(t, Shift(ChildPositions(t, k), first))
    ensures n == StructType(CollectFields(t.fields, Shift(ListPositions(t.fields, k + 1), first), []))
  {
  }

  lemma MapKeys(n: CatalogType, t: DataType, k: nat, first: nat)
    requires t.Map? && Some(n) == TypeFrom(t, Shift(ChildPositions(t, k), first))
    ensures n.MapType? && n.key != n.value
  {
    assert Size(t.key) >= 1;
  }

  lemma FieldMap(fields: ColumnList, positions: seq<nat>) returns (z: NameMap)
    requires |positions| == Length(fields) && DistinctNames(fields)
    ensures z == Zip(fields, positions) == CollectFields(fields, positions, []) && DistinctKeys(z) && Indices(z) == positions
  {
    z := Zip(fields, positions);
    CollectDistinct(fields, positions, []);
    assert [] + z == z;
    ZipKeys(fields, positions);
    ZipIndices(fields, positions);
  }

  lemma FieldsNamed(arena: seq<CatalogColumn>, z: NameMap, i: nat)
    requires i < |arena| && arena[i].dtype == StructType(z) && ChildrenPoint(arena, i) && DistinctKeys(z)
    requires forall j :: 0 <= j < |z| ==> z[j].1 < |arena| && arena[z[j].1].name == z[j].0
    ensures Named(arena, z, Some(i))
  {
    forall j | 0 <= j < |z| ensures arena[z[j].1].parent == Some(i) {
      assert Children(arena[i].dtype)[j] == z[j].1;
    }
  }

  lemma StructNames(c: Column)
    requires DistinctFields(c) && c.dtype.Struct?
    ensures DistinctNames(c.dtype.fields)
  {
  }

  /** Each new column is known to its parent; the first one once it is registered. */
  lemma NewKnown(arena0: seq<CatalogColumn>, roots: NameMap, parent: Option<nat>, c: Column, next: int, added: seq<CatalogColumn>, k: nat)
    requires Added(arena0, roots, parent, c, next, added) && 0 < k < Size(c)
    ensures
      var i := |arena0| + k;
      i < |added| && added[i].parent.Some? && |arena0| <= added[i].parent.value < i
      && i in Children(added[added[i].parent.value].dtype)
  {
    hide Linked, Level, PlacedAt, Added, Flatten, ChildPositions, DistinctFields, TypeFrom;
    var flat, first := Flatten(c, None, 0), |arena0|;
    NewNode(arena0, roots, parent, c, next, added, k);
    ParentBefore(c, None, 0, k);
    AddedSize(arena0, roots, parent, c, next, added);
    var p := flat[k].parent.value;
    NewChildren(arena0, roots, parent, c, next, added, p);
    ChildPositionsExact(c, p);
    var positions := ChildPositions(flat[p].column.dtype, p);
    assert k in positions;
    var j :| 0 <= j < |positions| && positions[j] == k;
    assert Shift(positions, first)[j] == first + k;
  }

  // ----- registering -----

  /** Adding a column keeps all links, below a struct and as a root alike. */
  lemma AddKeepsLinks(arena0: seq<CatalogColumn>, roots: NameMap, parent: Option<nat>, c: Column, next: int, added: seq<CatalogColumn>)
    requires Added(arena0, roots, parent, c, next, added)
    ensures var (arena, roots1) := Registered(added, roots, parent, c.name, |arena0|); Linked(arena, roots1)
  {
    hide Linked, Level, PlacedAt, Added, Flatten, DistinctFields, NodeLinked, Known, Named;
    var first := |arena0|;
    var (arena, roots1) := Registered(added, roots, parent, c.name, first);
    AddedSize(arena0, roots, parent, c, next, added);
    RegisteredShape(arena0, roots, parent, c, next, added);
    forall i | 0 <= i < |arena| ensures NodeLinked(arena, i) && Known(arena, roots1, i) && Behind(Children(arena[i].dtype), i, |arena|) {
      if i < first {
        OldStaysLinked(arena0, roots, parent, c, next, added, i);
      } else {
        NewStaysLinked(arena0, roots, parent, c, next, added, i - first);
      }
    }
    RootsStayNamed(arena0, roots, parent, c, next, added);
    LinkedIf(arena, roots1);
  }

  /** Registering changes the names of one level only. */
  lemma RegisteredShape(arena0: seq<CatalogColumn>, roots: NameMap, parent: Option<nat>, c: Column, next: int, added: seq<CatalogColumn>)
    requires Added(arena0, roots, parent, c, next, added)
    ensures
      var (arena, roots1) := Registered(added, roots, parent, c.name, |arena0|);
      && |arena| == |added|
      && (forall i :: 0 <= i < |arena| ==> arena[i].parent == added[i].parent && arena[i].name == added[i].name)
      && (forall i :: 0 <= i < |arena| && Some(i) != parent ==> arena[i].dtype == added[i].dtype)
      && (forall i :: 0 <= i < |arena0| ==> added[i] == arena0[i])
      && (parent.None? ==> roots1 == roots + [(c.name, |arena0|)])
      && (parent.Some? ==> roots1 == roots && parent.value < |arena0| && arena0[parent.value].dtype.StructType?
                           && arena[parent.value].dtype == StructType(arena0[parent.value].dtype.fields + [(c.name, |arena0|)]))
      && added[|arena0|].parent == parent && added[|arena0|].name == c.name
  {
    hide Linked, PlacedAt, DistinctFields;
    NewNode(arena0, roots, parent, c, next, added, 0);
    RootHasNoParent(c);
    InsertNew(Level(arena0, roots, parent), c.name, |arena0|);
    assert forall i :: 0 <= i < |arena0| ==> added[i] == added[..|arena0|][i];
  }

  lemma LevelStaysNamed(arena: seq<CatalogColumn>, before: seq<CatalogColumn>, m: NameMap, parent: Option<nat>, first: nat, name: string)
    requires Named(before, m, parent) && !HasName(m, name) && first < |arena| && |before| <= |arena|
    requires forall i :: 0 <= i < |before| ==> arena[i].parent == before[i].parent && arena[i].name == before[i].name
    requires arena[first].parent == parent && arena[first].name == name
    ensures Named(arena, m + [(name, first)], parent)
  {
    var r := m + [(name, first)];
    forall i, j | 0 <= i < j < |r| ensures r[i].0 != r[j].0 {
      assert m[i].0 != name;
    }
  }

  lemma LevelFree(arena0: seq<CatalogColumn>, roots: NameMap, parent: Option<nat>, c: Column, next: int, added: seq<CatalogColumn>)
    requires Added(arena0, roots, parent, c, next, added)
    ensures !HasName(Level(arena0, roots, parent), c.name) && Linked(arena0, roots)
  {
  }

  lemma NamedInLonger(before: seq<CatalogColumn>, arena: seq<CatalogColumn>, m: NameMap, parent: Option<nat>)
    requires Named(before, m, parent) && |before| <= |arena|
    requires forall i :: 0 <= i < |before| ==> arena[i].parent == before[i].parent && arena[i].name == before[i].name
    ensures Named(arena, m, parent)
  {
  }

  lemma RootsStayNamed(arena0: seq<CatalogColumn>, roots: NameMap, parent: Option<nat>, c: Column, next: int, added: seq<CatalogColumn>)
    requires Added(arena0, roots, parent, c, next, added)
    ensures var (arena, roots1) := Registered(added, roots, parent, c.name, |arena0|); Named(arena, roots1, None)
  {
    hide Linked, PlacedAt, Added, Named, Registered, Flatten;
    RegisteredShape(arena0, roots, parent, c, next, added);
    LevelFree(arena0, roots, parent, c, next, added);
    AddedSize(arena0, roots, parent, c, next, added);
    LinkedParts(arena0, roots);
    var (arena, roots1) := Registered(added, roots, parent, c.name, |arena0|);
    if parent.None? {
      LevelStaysNamed(arena, arena0, roots, None, |arena0|, c.name);
    } else {
      NamedInLonger(arena0, arena, roots, None);
    }
  }

  lemma OldStaysLinked(arena0: seq<CatalogColumn>, roots: NameMap, parent: Option<nat>, c: Column, next: int, added: seq<CatalogColumn>, i: nat)
    requires Added(arena0, roots, parent, c, next, added) && i < |arena0|
    ensures
      var (arena, roots1) := Registered(added, roots, parent, c.name, |arena0|);
      i < |arena| && NodeLinked(arena, i) && Known(arena, roots1, i) && Behind(Children(arena[i].dtype), i, |arena|)
  {
    hide Linked, PlacedAt, Added, Named, Registered, Flatten, Known, NodeLinked, HasName;
    RegisteredShape(arena0, roots, parent, c, next, added);
    LevelFree(arena0, roots, parent, c, next, added);
    AddedSize(arena0, roots, parent, c, next, added);
    LinkedParts(arena0, roots);
    var (arena, roots1) := Registered(added, roots, parent, c.name, |arena0|);
    assert NodeLinked(arena0, i) && Known(arena0, roots, i) && Behind(Children(arena0[i].dtype), i, |arena0|);
    OldStaysKnown(arena0, roots, arena, roots1, parent, c.name, i);
    if Some(i) == parent {
      NodeNamed(arena0, i);
      LevelStaysNamed(arena, arena0, arena0[i].dtype.fields, Some(i), |arena0|, c.name);
      GrownNode(arena0, arena, i, c.name);
    } else {
      if arena0[i].dtype.StructType? {
        NodeNamed(arena0, i);
        NamedInLonger(arena0, arena, arena0[i].dtype.fields, Some(i));
      }
      KeptNode(arena0, arena, i);
    }
  }

  /** The struct that got a new field. */
  lemma GrownNode(before: seq<CatalogColumn>, arena: seq<CatalogColumn>, i: nat, name: string)
    requires i < |before| < |arena| && NodeLinked(before, i) && Behind(Children(before[i].dtype), i, |before|)
    requires before[i].dtype.StructType? && arena[i].dtype == StructType(before[i].dtype.fields + [(name, |before|)])
    requires forall j :: 0 <= j < |before| ==> arena[j].parent == before[j].parent
    requires arena[|before|].parent == Some(i) && Named(arena, arena[i].dtype.fields, Some(i))
    ensures NodeLinked(arena, i) && Behind(Children(arena[i].dtype), i, |arena|)
  {
    hide Named;
    var children, old_ := Children(arena[i].dtype), Children(before[i].dtype);
    assert children == old_ + [|before|];
  }

  lemma KeptNode(before: seq<CatalogColumn>, arena: seq<CatalogColumn>, i: nat)
    requires i < |before| <= |arena| && NodeLinked(before, i) && Behind(Children(before[i].dtype), i, |before|)
    requires arena[i].dtype == before[i].dtype
    requires forall j :: 0 <= j < |before| ==> arena[j].parent == before[j].parent
    requires arena[i].dtype.StructType? ==> Named(arena, arena[i].dtype.fields, Some(i))
    ensures NodeLinked(arena, i) && Behind(Children(arena[i].dtype), i, |arena|)
  {
    hide Named;
  }

  lemma OldStaysKnown(arena0: seq<CatalogColumn>, roots: NameMap, arena: seq<CatalogColumn>, roots1: NameMap, parent: Option<nat>,
                      name: string, i: nat)
    requires i < |arena0| < |arena| && Known(arena0, roots, i) && arena[i].parent == arena0[i].parent
    requires forall p :: 0 <= p < |arena0| && Some(p) != parent ==> arena[p].dtype == arena0[p].dtype
    requires parent.None? ==> roots1 == roots + [(name, |arena0|)]
    requires parent.Some? ==> roots1 == roots && parent.value < |arena0| && arena0[parent.value].dtype.StructType?
                              && arena[parent.value].dtype == StructType(arena0[parent.value].dtype.fields + [(name, |arena0|)])
    ensures Known(arena, roots1, i)
  {
    match arena0[i].parent
    case None =>
      var k :| 0 <= k < |roots| && roots[k].1 == i;
      assert roots1[k].1 == i;
    case Some(p) =>
      if Some(p) == parent {
        var fields := arena0[p].dtype.fields;
        var k :| 0 <= k < |Indices(fields)| && Indices(fields)[k] == i;
        assert Indices(fields + [(name, |arena0|)])[k] == i;
      }
  }

  lemma NewStaysLinked(arena0: seq<CatalogColumn>, roots: NameMap, parent: Option<nat>, c: Column, next: int, added: seq<CatalogColumn>, k: nat)
    requires Added(arena0, roots, parent, c, next, added) && k < Size(c)
    ensures
      var (arena, roots1) := Registered(added, roots, parent, c.name, |arena0|);
      var i := |arena0| + k;
      i < |arena| && NodeLinked(arena, i) && Known(arena, roots1, i) && Behind(Children(arena[i].dtype), i, |arena|)
  {
    hide Linked, PlacedAt, Added, Named, Registered, Flatten, Level;
    RegisteredShape(arena0, roots, parent, c, next, added);
    AddedSize(arena0, roots, parent, c, next, added);
    NewLinked(arena0, roots, parent, c, next, added, k);
    NewBehind(arena0, roots, parent, c, next, added, k);
    var (arena, roots1) := Registered(added, roots, parent, c.name, |arena0|);
    var i := |arena0| + k;
    if arena[i].dtype.StructType? {
      NamedInLonger(added, arena, arena[i].dtype.fields, Some(i));
    }
    if k > 0 {
      NewKnown(arena0, roots, parent, c, next, added, k);
    } else if parent.None? {
      assert roots1[|roots|].1 == i;
    } else {
      var fields := arena0[parent.value].dtype.fields;
      assert Indices(fields + [(c.name, |arena0|)])[|fields|] == i;
    }
  }

  lemma NewBehind(arena0: seq<CatalogColumn>, roots: NameMap, parent: Option<nat>, c: Column, next: int, added: seq<CatalogColumn>, k: nat)
    requires Added(arena0, roots, parent, c, next, added) && k < Size(c)
    ensures |arena0| + k < |added| && Behind(Children(added[|arena0| + k].dtype), |arena0| + k, |added|)
  {
    hide Linked, Level, Flatten, DistinctFields;
    Bounds(c, None, 0, k);
    PlacedNode(added, |arena0|, Flatten(c, None, 0), parent, next, false, k);
  }
}
