/** Paths into nested columns: resolving one in the arena finds what walking the nested column finds. */
module ColumnPaths {
  import opened Prelude
  import opened Columns
  import opened ColumnArena
  import opened ColumnLaws
  import opened ColumnEdits
  import opened ColumnAdds

  // ----- walking a nested column -----

  function FieldOf(cs: ColumnList, name: string): Option<Column> {
    match cs
    case Nil => None
    case Cons(first, rest) => if first.name == name then Some(first) else FieldOf(rest, name)
  }

  /** Fields of a struct go by their names; the item of a list, the key and the value of a map by fixed words. */
  function ChildOf(t: DataType, part: string): Option<Column> {
    match t
    case Primitive(_) => None
    case List(item) => if part == "element" then Some(item) else None
    case Struct(fields) => FieldOf(fields, part)
    case Map(key, value) => if part == "key" then Some(key) else if part == "value" then Some(value) else None
  }

  function Walk(c: Column, path: seq<string>): Option<Column>
    decreases |path|
  {
    if path == [] then Some(c)
    else
      match ChildOf(c.dtype, path[0])
      case None => None
      case Some(child) => Walk(child, path[1..])
  }

  // ----- one step -----

  /** Finding a name among children is finding the field of that name. */
  lemma {:induction false} FieldFound(arena: seq<CatalogColumn>, m: NameMap, idx: nat, name: string)
    requires Forward(arena) && idx < |arena| && Behind(Indices(m), idx, |arena|)
    requires forall t :: 0 <= t < |m| ==> m[t].1 < |arena| && arena[m[t].1].name == m[t].0
    ensures
      var found, field := Find(m, name), FieldOf(ColumnsAt(arena, Indices(m), idx), name);
      && (found.None? <==> field.None?)
      && (found.Some? ==> idx < found.value < |arena| && field == Some(ColumnAt(arena, found.value)))
    decreases |m|
  {
    hide Forward, ColumnAt;
    if m != [] {
      var rest := m[1..];
      assert Indices(m)[1..] == Indices(rest);
      assert Indices(m)[0] == m[0].1;
      forall t | 0 <= t < |rest| ensures rest[t].1 < |arena| && arena[rest[t].1].name == rest[t].0 {
        assert rest[t] == m[t + 1];
      }
      assert Behind(Indices(rest), idx, |arena|) by {
        assert forall k :: 0 <= k < |rest| ==> Indices(rest)[k] == Indices(m)[k + 1];
      }
      ReadBack(arena, m[0].1);
      FieldFound(arena, rest, idx, name);
    }
  }

  /** One step in the arena is one step in the column that is read there. */
  lemma StepWalks(arena: seq<CatalogColumn>, roots: NameMap, idx: nat, part: string)
    requires Linked(arena, roots) && idx < |arena|
    ensures
      var next, child := Step(arena, roots, Some(idx), part), ChildOf(ColumnAt(arena, idx).dtype, part);
      && (next.None? <==> child.None?)
      && (next.Some? ==> idx < next.value < |arena| && child == Some(ColumnAt(arena, next.value)))
  {
    hide Forward, ColumnAt, Known;
    ReadBack(arena, idx);
    var t := arena[idx].dtype;
    assert NodeLinked(arena, idx);
    if t.StructType? {
      FieldFound(arena, t.fields, idx, part);
    }
  }

  // ----- whole paths -----

  /** A path from a column resolves exactly if walking the column succeeds, to the column that the walk finds. */
  lemma {:induction false} PathWalks(arena: seq<CatalogColumn>, roots: NameMap, idx: nat, path: seq<string>)
    requires Linked(arena, roots) && idx < |arena|
    ensures
      var found, walked := Resolve(arena, roots, Some(idx), path), Walk(ColumnAt(arena, idx), path);
      && (found.None? <==> walked.None?)
      && (found.Some? ==> found.value < |arena| && walked == Some(ColumnAt(arena, found.value)))
    decreases |path|
  {
    hide Linked, Step, ColumnAt, ChildOf;
    LinkedForward(arena, roots);
    if path != [] {
      StepWalks(arena, roots, idx, path[0]);
      var next := Step(arena, roots, Some(idx), path[0]);
      if next.Some? {
        PathWalks(arena, roots, next.value, path[1..]);
      }
    }
  }

  lemma LinkedForward(arena: seq<CatalogColumn>, roots: NameMap)
    requires Linked(arena, roots)
    ensures Forward(arena)
  {
  }

  /** A whole path starts at the root column of its first component. */
  lemma RootPathWalks(arena: seq<CatalogColumn>, roots: NameMap, path: seq<string>)
    requires Linked(arena, roots) && path != []
    ensures
      var found, root := Resolve(arena, roots, None, path), Find(roots, path[0]);
      && (root.None? ==> found.None? && forall t :: 0 <= t < |roots| ==> roots[t].0 != path[0])
      && (root.Some? ==>
            && root.value < |arena| && arena[root.value].name == path[0] && arena[root.value].parent.None?
            && var walked := Walk(ColumnAt(arena, root.value), path[1..]);
               && (found.None? <==> walked.None?)
               && (found.Some? ==> found.value < |arena| && walked == Some(ColumnAt(arena, found.value))))
  {
    hide Forward, NodeLinked, Known, ColumnAt;
    LinkedForward(arena, roots);
    var root := Find(roots, path[0]);
    if root.Some? {
      PathWalks(arena, roots, root.value, path[1..]);
    }
  }

  // ----- columns up to their ids -----

  lemma {:induction false} FieldStripped(cs: ColumnList, name: string)
    ensures FieldOf(StripList(cs), name)
         == if FieldOf(cs, name).Some? then Some(Strip(FieldOf(cs, name).value)) else None
  {
    if cs.Cons? {
      FieldStripped(cs.rest, name);
    }
  }

  /** Walking does not look at ids. */
  lemma {:induction false} WalkStripped(c: Column, path: seq<string>)
    ensures Walk(Strip(c), path) == if Walk(c, path).Some? then Some(Strip(Walk(c, path).value)) else None
    decreases |path|
  {
    if path != [] {
      if c.dtype.Struct? {
        FieldStripped(c.dtype.fields, path[0]);
      }
      var child := ChildOf(c.dtype, path[0]);
      if child.Some? {
        WalkStripped(child.value, path[1..]);
      }
    }
  }

  // ----- an added column -----

  /** Columns that the two arenas have alike are read alike. */
  lemma {:induction false} ColumnAtBehind(a: seq<CatalogColumn>, b: seq<CatalogColumn>, from: nat, idx: nat)
    requires Forward(a) && Forward(b) && |a| == |b| && from <= idx < |a|
    requires forall i :: from <= i < |a| ==> a[i] == b[i]
    ensures ColumnAt(a, idx) == ColumnAt(b, idx)
    decreases |a| - idx, 0
  {
    hide Forward, ColumnAt;
    ReadBack(a, idx);
    ReadBack(b, idx);
    var t := a[idx].dtype;
    match t
    case PrimitiveType(_) =>
    case ListType(item) => ColumnAtBehind(a, b, from, item);
    case MapType(key, value) => ColumnAtBehind(a, b, from, key); ColumnAtBehind(a, b, from, value);
    case StructType(fields) => ColumnsAtBehind(a, b, from, Indices(fields), idx);
  }

  lemma {:induction false} ColumnsAtBehind(a: seq<CatalogColumn>, b: seq<CatalogColumn>, from: nat, children: seq<nat>, idx: nat)
    requires Forward(a) && Forward(b) && |a| == |b| && from <= idx < |a| && Behind(children, idx, |a|)
    requires forall i :: from <= i < |a| ==> a[i] == b[i]
    ensures ColumnsAt(a, children, idx) == ColumnsAt(b, children, idx)
    decreases |a| - idx - 1, 1, |children|
  {
    hide Forward, ColumnAt;
    if children != [] {
      ColumnAtBehind(a, b, from, children[0]);
      ColumnsAtBehind(a, b, from, children[1..], idx);
    }
  }

  /**
   * After a column is added, below a struct or as a root, a path from it resolves exactly if it walks
   * the column that was added, and leads to the column that the walk finds there.
   */
  lemma AddedPathsWalk(arena0: seq<CatalogColumn>, roots: NameMap, parent: Option<nat>, c: Column, next: int,
                       added: seq<CatalogColumn>, path: seq<string>)
    requires Added(arena0, roots, parent, c, next, added)
    ensures
      var (arena, roots1) := Registered(added, roots, parent, c.name, |arena0|);
      var found, walked := Resolve(arena, roots1, Some(|arena0|), path), Walk(c, path);
      && Linked(arena, roots1)
      && (found.None? <==> walked.None?)
      && (found.Some? ==> found.value < |arena| && Strip(ColumnAt(arena, found.value)) == Strip(walked.value))
  {
    hide Linked, Level, PlacedAt, Flatten, DistinctFields, Resolve, Walk, ColumnAt, Strip, Size, IdsFrom, Stamp;
    var first := |arena0|;
    var (arena, roots1) := Registered(added, roots, parent, c.name, first);
    AddKeepsLinks(arena0, roots, parent, c, next, added);
    LinkedForward(arena0, roots);
    LinkedForward(arena, roots1);
    SizeIsPositive(c);
    RoundTrip(added, first, c, parent, next, false);
    ColumnAtBehind(added, arena, first, first);
    PathWalks(arena, roots1, first, path);
    WalkStripped(c, path);
    WalkStripped(ColumnAt(arena, first), path);
  }

  lemma SizeIsPositive(c: Column)
    ensures Size(c) > 0
  {
  }
}
