/** Nested columns, how they are flattened, and the arena that a catalog keeps them in. */
module Columns {
  import opened Prelude

  // ----- schema columns (typedefs/schema) -----

  datatype DataType = Primitive(name: string) | List(item: Column) | Struct(fields: ColumnList) | Map(key: Column, value: Column)

  /** `info` stands for the tags and defaults, which nothing here looks at. */
  datatype Column = Column(name: string, dtype: DataType, nullable: bool, info: string, fieldId: Option<int>)

  datatype ColumnList = Nil | Cons(first: Column, rest: ColumnList)

  function Size(c: Column): nat
    decreases c, 0
  {
    1 + SizeOfType(c.dtype)
  }

  function SizeOfType(t: DataType): nat
    decreases t, 0
  {
    match t
    case Primitive(_) => 0
    case List(item) => Size(item)
    case Struct(fields) => SizeOfList(fields)
    case Map(key, value) => Size(key) + Size(value)
  }

  function SizeOfList(cs: ColumnList): nat
    decreases cs, 0
  {
    match cs
    case Nil => 0
    case Cons(first, rest) => Size(first) + SizeOfList(rest)
  }

  function Length(cs: ColumnList): nat { if cs.Nil? then 0 else 1 + Length(cs.rest) }

  // ----- flattening (typedefs/schema/column.rs) -----

  datatype Flat = Flat(column: Column, parent: Option<nat>)

  /** The column at position `at`, then its children, each with everything below it: pre-order. */
  function Flatten(c: Column, parent: Option<nat>, at: nat): (r: seq<Flat>)
    ensures |r| == Size(c)
    decreases c, 1
  {
    [Flat(c, parent)] + FlattenChildren(c.dtype, at)
  }

  function FlattenChildren(t: DataType, at: nat): (r: seq<Flat>)
    ensures |r| == SizeOfType(t)
    decreases t, 1
  {
    match t
    case Primitive(_) => []
    case List(item) => Flatten(item, Some(at), at + 1)
    case Struct(fields) => FlattenList(fields, Some(at), at + 1)
    case Map(key, value) => Flatten(key, Some(at), at + 1) + Flatten(value, Some(at), at + 1 + Size(key))
  }

  function FlattenList(cs: ColumnList, parent: Option<nat>, at: nat): (r: seq<Flat>)
    ensures |r| == SizeOfList(cs)
    decreases cs, 1
  {
    match cs
    case Nil => []
    case Cons(first, rest) => Flatten(first, parent, at) + FlattenList(rest, parent, at + Size(first))
  }

  /** Where the children of a column at `at` go. */
  function ChildPositions(t: DataType, at: nat): seq<nat> {
    match t
    case Primitive(_) => []
    case List(_) => [at + 1]
    case Struct(fields) => ListPositions(fields, at + 1)
    case Map(key, _) => [at + 1, at + 1 + Size(key)]
  }

  function ListPositions(cs: ColumnList, at: nat): (r: seq<nat>)
    ensures |r| == Length(cs)
  {
    match cs
    case Nil => []
    case Cons(first, rest) => [at] + ListPositions(rest, at + Size(first))
  }

  /** The positions of the flattened columns, the first one at `at`, whose parent is `p`. */
  function ChildrenOf(flat: seq<Flat>, at: nat, p: nat): seq<nat> {
    if flat == [] then []
    else if flat[0].parent == Some(p) then [at] + ChildrenOf(flat[1..], at + 1, p)
    else ChildrenOf(flat[1..], at + 1, p)
  }

  lemma {:induction false} ChildrenOfAppend(a: seq<Flat>, b: seq<Flat>, at: nat, p: nat)
    ensures ChildrenOf(a + b, at, p) == ChildrenOf(a, at, p) + ChildrenOf(b, at + |a|, p)
    decreases a
  {
    if a == [] {
      assert a + b == b;
    } else {
      assert (a + b)[1..] == a[1..] + b;
      ChildrenOfAppend(a[1..], b, at + 1, p);
    }
  }

  /** Columns outside a flattened column, other than its parent, have no child in it. */
  lemma {:induction false} NoChildren(c: Column, parent: Option<nat>, at: nat, p: nat)
    requires parent != Some(p) && (p < at || p >= at + Size(c))
    ensures ChildrenOf(Flatten(c, parent, at), at, p) == []
    decreases c, 1
  {
    ChildrenOfAppend([Flat(c, parent)], FlattenChildren(c.dtype, at), at, p);
    match c.dtype
    case Primitive(_) =>
    case List(item) => NoChildren(item, Some(at), at + 1, p);
    case Struct(fields) => NoChildrenInList(fields, Some(at), at + 1, p);
    case Map(key, value) =>
      ChildrenOfAppend(Flatten(key, Some(at), at + 1), Flatten(value, Some(at), at + 1 + Size(key)), at + 1, p);
      NoChildren(key, Some(at), at + 1, p);
      NoChildren(value, Some(at), at + 1 + Size(key), p);
  }

  lemma {:induction false} NoChildrenInList(cs: ColumnList, parent: Option<nat>, at: nat, p: nat)
    requires parent != Some(p) && (p < at || p >= at + SizeOfList(cs))
    ensures ChildrenOf(FlattenList(cs, parent, at), at, p) == []
    decreases cs, 1
  {
    match cs
    case Nil =>
    case Cons(first, rest) =>
      ChildrenOfAppend(Flatten(first, parent, at), FlattenList(rest, parent, at + Size(first)), at, p);
      NoChildren(first, parent, at, p);
      NoChildrenInList(rest, parent, at + Size(first), p);
  }

  /** A flattened column contributes itself to its parent's children, and nothing else. */
  lemma OneChild(c: Column, parent: nat, at: nat)
    requires parent < at
    ensures ChildrenOf(Flatten(c, Some(parent), at), at, parent) == [at]
  {
    ChildrenOfAppend([Flat(c, Some(parent))], FlattenChildren(c.dtype, at), at, parent);
    match c.dtype
    case Primitive(_) =>
    case List(item) => NoChildren(item, Some(at), at + 1, parent);
    case Struct(fields) => NoChildrenInList(fields, Some(at), at + 1, parent);
    case Map(key, value) =>
      ChildrenOfAppend(Flatten(key, Some(at), at + 1), Flatten(value, Some(at), at + 1 + Size(key)), at + 1, parent);
      NoChildren(key, Some(at), at + 1, parent);
      NoChildren(value, Some(at), at + 1 + Size(key), parent);
  }

  lemma {:induction false} ListOfChildren(cs: ColumnList, parent: nat, at: nat)
    requires parent < at
    ensures ChildrenOf(FlattenList(cs, Some(parent), at), at, parent) == ListPositions(cs, at)
    decreases cs
  {
    match cs
    case Nil =>
    case Cons(first, rest) =>
      ChildrenOfAppend(Flatten(first, Some(parent), at), FlattenList(rest, Some(parent), at + Size(first)), at, parent);
      OneChild(first, parent, at);
      ListOfChildren(rest, parent, at + Size(first));
  }

  lemma OwnChildren(c: Column, parent: Option<nat>, at: nat)
    requires parent.Some? ==> parent.value < at
    ensures ChildrenOf(Flatten(c, parent, at), at, at) == ChildPositions(c.dtype, at)
  {
    ChildrenOfAppend([Flat(c, parent)], FlattenChildren(c.dtype, at), at, at);
    assert ChildrenOf([Flat(c, parent)], at, at) == [];
    BelowChildren(c.dtype, at);
  }

  lemma BelowChildren(t: DataType, at: nat)
    ensures ChildrenOf(FlattenChildren(t, at), at + 1, at) == ChildPositions(t, at)
  {
    hide ChildrenOf, Flatten, FlattenList, Size;
    match t
    case Primitive(_) => assert ChildrenOf([], at + 1, at) == [] by { NoFlat(at); }
    case List(item) => OneChild(item, at, at + 1);
    case Struct(fields) => ListOfChildren(fields, at, at + 1);
    case Map(key, value) =>
      ChildrenOfAppend(Flatten(key, Some(at), at + 1), Flatten(value, Some(at), at + 1 + Size(key)), at + 1, at);
      OneChild(key, at, at + 1);
      OneChild(value, at, at + 1 + Size(key));
  }

  lemma NoFlat(at: nat)
    ensures ChildrenOf([], at + 1, at) == []
  {
  }

  /** Grouping by parent finds the children of every flattened column, in order. */
  lemma {:induction false} FlattenedChildren(c: Column, parent: Option<nat>, at: nat, p: nat)
    requires at <= p < at + Size(c) && (parent.Some? ==> parent.value < at)
    ensures ChildrenOf(Flatten(c, parent, at), at, p) == ChildPositions(Flatten(c, parent, at)[p - at].column.dtype, p)
    decreases Size(c), 1
  {
    if p == at {
      OwnChildren(c, parent, at);
    } else {
      var below := FlattenChildren(c.dtype, at);
      ChildrenOfAppend([Flat(c, parent)], below, at, p);
      assert Flatten(c, parent, at)[p - at] == below[p - at - 1];
      TypeChildren(c.dtype, at, p);
    }
  }

  lemma {:induction false} TypeChildren(t: DataType, at: nat, p: nat)
    requires at < p < at + 1 + SizeOfType(t)
    ensures ChildrenOf(FlattenChildren(t, at), at + 1, p) == ChildPositions(FlattenChildren(t, at)[p - at - 1].column.dtype, p)
    decreases 1 + SizeOfType(t), 0
  {
    match t
    case List(item) => FlattenedChildren(item, Some(at), at + 1, p);
    case Struct(fields) => ListChildren(fields, at, at + 1, p);
    case Map(key, value) => PairChildren(key, value, at, p);
  }

  lemma {:induction false} PairChildren(key: Column, value: Column, at: nat, p: nat)
    requires at < p < at + 1 + Size(key) + Size(value)
    ensures
      var flat := Flatten(key, Some(at), at + 1) + Flatten(value, Some(at), at + 1 + Size(key));
      ChildrenOf(flat, at + 1, p) == ChildPositions(flat[p - at - 1].column.dtype, p)
    decreases Size(key) + Size(value), 2
  {
    hide ChildrenOf, ChildPositions, Flatten;
    var a, b := Flatten(key, Some(at), at + 1), Flatten(value, Some(at), at + 1 + Size(key));
    ChildrenOfAppend(a, b, at + 1, p);
    if p < at + 1 + Size(key) {
      FlattenedChildren(key, Some(at), at + 1, p);
      NoChildren(value, Some(at), at + 1 + Size(key), p);
    } else {
      NoChildren(key, Some(at), at + 1, p);
      FlattenedChildren(value, Some(at), at + 1 + Size(key), p);
    }
  }

  lemma {:induction false} ListChildren(cs: ColumnList, parent: nat, at: nat, p: nat)
    requires parent < at <= p < at + SizeOfList(cs)
    ensures ChildrenOf(FlattenList(cs, Some(parent), at), at, p)
         == ChildPositions(FlattenList(cs, Some(parent), at)[p - at].column.dtype, p)
    decreases SizeOfList(cs), 2
  {
    hide ChildrenOf, ChildPositions, Flatten;
    var a, b := Flatten(cs.first, Some(parent), at), FlattenList(cs.rest, Some(parent), at + Size(cs.first));
    ChildrenOfAppend(a, b, at, p);
    if p < at + Size(cs.first) {
      FlattenedChildren(cs.first, Some(parent), at, p);
      NoChildrenInList(cs.rest, Some(parent), at + Size(cs.first), p);
    } else {
      NoChildren(cs.first, Some(parent), at, p);
      ListChildren(cs.rest, parent, at + Size(cs.first), p);
    }
  }

  /** The column at position `i`, with its descendants directly behind it. */
  ghost predicate Segment(flat: seq<Flat>, i: nat, c: Column) {
    && i + Size(c) <= |flat|
    && flat[i].column == c
    && flat[i + 1..i + Size(c)] == FlattenChildren(c.dtype, i)
  }

  lemma SegmentOf(flat: seq<Flat>, i: nat, c: Column, parent: Option<nat>)
    requires i + Size(c) <= |flat| && flat[i..i + Size(c)] == Flatten(c, parent, i)
    ensures Segment(flat, i, c)
  {
    assert flat[i] == flat[i..i + Size(c)][0];
    assert flat[i + 1..i + Size(c)] == flat[i..i + Size(c)][1..];
  }

  /** The descendants of every flattened column fit behind it. */
  lemma {:induction false} Bounds(c: Column, parent: Option<nat>, at: nat, k: nat)
    requires k < Size(c)
    ensures k + Size(Flatten(c, parent, at)[k].column) <= Size(c)
    decreases Size(c), 1
  {
    if k > 0 {
      assert Flatten(c, parent, at)[k] == FlattenChildren(c.dtype, at)[k - 1];
      BoundsOfType(c.dtype, at, k - 1);
    }
  }

  lemma {:induction false} BoundsOfType(t: DataType, at: nat, k: nat)
    requires k < SizeOfType(t)
    ensures k + Size(FlattenChildren(t, at)[k].column) <= SizeOfType(t)
    decreases 1 + SizeOfType(t), 0
  {
    match t
    case List(item) => Bounds(item, Some(at), at + 1, k);
    case Struct(fields) => BoundsOfList(fields, Some(at), at + 1, k);
    case Map(key, value) =>
      if k < Size(key) {
        Bounds(key, Some(at), at + 1, k);
      } else {
        Bounds(value, Some(at), at + 1 + Size(key), k - Size(key));
      }
  }

  lemma {:induction false} BoundsOfList(cs: ColumnList, parent: Option<nat>, at: nat, k: nat)
    requires k < SizeOfList(cs)
    ensures k + Size(FlattenList(cs, parent, at)[k].column) <= SizeOfList(cs)
    decreases SizeOfList(cs), 2
  {
    if k < Size(cs.first) {
      Bounds(cs.first, parent, at, k);
    } else {
      BoundsOfList(cs.rest, parent, at + Size(cs.first), k - Size(cs.first));
    }
  }

  lemma {:induction false} ListPositionsBound(cs: ColumnList, at: nat)
    ensures forall j :: 0 <= j < |ListPositions(cs, at)| ==> at <= ListPositions(cs, at)[j] < at + SizeOfList(cs)
  {
    if cs.Cons? {
      ListPositionsBound(cs.rest, at + Size(cs.first));
    }
  }

  lemma PositionsBound(t: DataType, at: nat)
    ensures forall j :: 0 <= j < |ChildPositions(t, at)| ==> at < ChildPositions(t, at)[j] < at + 1 + SizeOfType(t)
  {
    if t.Struct? {
      ListPositionsBound(t.fields, at + 1);
    }
  }

  // ----- the arena -----

  /** `IndexMap`: names in insertion order. */
  type NameMap = seq<(string, nat)>

  datatype CatalogType = PrimitiveType(name: string) | ListType(item: nat) | StructType(fields: NameMap) | MapType(key: nat, value: nat)

  datatype CatalogColumn = CatalogColumn(id: int, name: string, dtype: CatalogType, parent: Option<nat>, nullable: bool, info: string)

  predicate HasName(m: NameMap, name: string) { exists i :: 0 <= i < |m| && m[i].0 == name }

  function Find(m: NameMap, name: string): (r: Option<nat>)
    ensures r.Some? ==> exists i :: 0 <= i < |m| && m[i] == (name, r.value)
    ensures r.Some? <==> HasName(m, name)
  {
    if m == [] then None
    else if m[0].0 == name then Some(m[0].1)
    else
      assert forall i :: 0 < i < |m| ==> m[i] == m[1..][i - 1];
      Find(m[1..], name)
  }

  /** `insert`: a new name goes to the end, a known one keeps its place and gets the new value. */
  function Insert(m: NameMap, name: string, value: nat): NameMap {
    if m == [] then [(name, value)]
    else if m[0].0 == name then [(name, value)] + m[1..]
    else [m[0]] + Insert(m[1..], name, value)
  }

  /** Collecting the fields zipped with the indices of their columns. */
  function CollectFields(fields: ColumnList, positions: seq<nat>, m: NameMap): NameMap {
    if fields.Nil? || positions == [] then m
    else CollectFields(fields.rest, positions[1..], Insert(m, fields.first.name, positions[0]))
  }

  function Shift(positions: seq<nat>, offset: nat): (r: seq<nat>)
    ensures |r| == |positions|
  {
    seq(|positions|, i requires 0 <= i < |positions| => offset + positions[i])
  }

  /** The catalog type of a column given the arena indices of its children; `None` where the lookup panics. */
  function TypeFrom(t: DataType, children: seq<nat>): Option<CatalogType> {
    match t
    case Primitive(name) => Some(PrimitiveType(name))
    case List(_) => if |children| < 1 then None else Some(ListType(children[0]))
    case Struct(fields) =>
      if children == [] then None else Some(StructType(CollectFields(fields, children, [])))
    case Map(_, _) => if |children| < 2 then None else Some(MapType(children[0], children[1]))
  }
}
