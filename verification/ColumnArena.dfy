/** `CatalogColumns`: columns added to, renamed in and removed from a flat arena. */
module ColumnArena {
  import opened Prelude
  import opened Columns

  /** The catalog column for one flattened column; `None` where looking up its children panics. */
  function Node(f: Flat, children: seq<nat>, first: nat, outer: Option<nat>, id: int): Option<CatalogColumn> {
    var t := TypeFrom(f.column.dtype, children);
    if t.None? then None
    else Some(CatalogColumn(id, f.column.name, t.value, if f.parent.Some? then Some(first + f.parent.value) else outer,
                            f.column.nullable, f.column.info))
  }

  /** No struct anywhere in the column is without fields. */
  predicate Buildable(c: Column)
    decreases c, 1
  {
    BuildableType(c.dtype)
  }

  predicate BuildableType(t: DataType)
    decreases t, 0
  {
    match t
    case Primitive(_) => true
    case List(item) => Buildable(item)
    case Struct(fields) => fields.Cons? && BuildableList(fields)
    case Map(key, value) => Buildable(key) && Buildable(value)
  }

  predicate BuildableList(cs: ColumnList)
    decreases cs, 0
  {
    match cs
    case Nil => true
    case Cons(first, rest) => Buildable(first) && BuildableList(rest)
  }

  lemma {:induction false} BuildableFlat(c: Column, parent: Option<nat>, at: nat)
    ensures Buildable(c) <==> forall f :: f in Flatten(c, parent, at) ==> f.column.dtype != Struct(Nil)
    decreases c, 1
  {
    var below := FlattenChildren(c.dtype, at);
    assert forall f :: f in Flatten(c, parent, at) <==> f == Flat(c, parent) || f in below;
    match c.dtype
    case Primitive(_) =>
    case List(item) => BuildableFlat(item, Some(at), at + 1);
    case Struct(fields) => BuildableFlatList(fields, Some(at), at + 1);
    case Map(key, value) =>
      BuildableFlat(key, Some(at), at + 1);
      BuildableFlat(value, Some(at), at + 1 + Size(key));
  }

  lemma {:induction false} BuildableFlatList(cs: ColumnList, parent: Option<nat>, at: nat)
    ensures BuildableList(cs) <==> forall f :: f in FlattenList(cs, parent, at) ==> f.column.dtype != Struct(Nil)
    decreases cs, 0
  {
    match cs
    case Nil =>
    case Cons(first, rest) =>
      BuildableFlat(first, parent, at);
      BuildableFlatList(rest, parent, at + Size(first));
  }

  /** The ids given to the flattened columns: fresh ones in order, or the columns' own. */
  function IdOf(flat: seq<Flat>, next: int, preserve: bool, i: nat): int
    requires i < |flat|
  {
    if preserve && flat[i].column.fieldId.Some? then flat[i].column.fieldId.value else next + i
  }

  predicate HasIds(flat: seq<Flat>) { forall f :: f in flat ==> f.column.fieldId.Some? }

  /** What a column adds to an arena whose next index is `first`. */
  ghost predicate PlacedAt(arena: seq<CatalogColumn>, first: nat, flat: seq<Flat>, outer: Option<nat>, next: int, preserve: bool) {
    && first + |flat| <= |arena|
    && forall i :: 0 <= i < |flat| ==> Some(arena[first + i]) == NodeAt(flat, i, first, outer, next, preserve)
  }

  function NodeAt(flat: seq<Flat>, i: nat, first: nat, outer: Option<nat>, next: int, preserve: bool): Option<CatalogColumn>
    requires i < |flat|
  {
    Node(flat[i], Shift(ChildPositions(flat[i].column.dtype, i), first), first, outer, IdOf(flat, next, preserve, i))
  }

  /** The id index after pushing `n` more columns. */
  function Indexed(byId: map<int, nat>, flat: seq<Flat>, first: nat, next: int, preserve: bool, n: nat): map<int, nat>
    requires n <= |flat|
  {
    if n == 0 then byId
    else Indexed(byId, flat, first, next, preserve, n - 1)[IdOf(flat, next, preserve, n - 1) := first + n - 1]
  }

  /** Rename a key of an ordered map in place. */
  function Renamed(m: NameMap, old_: string, new_: string): NameMap {
    if m == [] then []
    else if m[0].0 == old_ then [(new_, m[0].1)] + m[1..]
    else [m[0]] + Renamed(m[1..], old_, new_)
  }

  predicate Behind(children: seq<nat>, idx: nat, end: nat) {
    forall k :: 0 <= k < |children| ==> idx < children[k] < end
  }

  /** Every column refers to columns behind it only. */
  ghost predicate Forward(arena: seq<CatalogColumn>) {
    forall i :: 0 <= i < |arena| ==> Behind(Children(arena[i].dtype), i, |arena|)
  }

  function Children(t: CatalogType): seq<nat> {
    match t
    case PrimitiveType(_) => []
    case ListType(item) => [item]
    case StructType(fields) => Indices(fields)
    case MapType(key, value) => [key, value]
  }

  function Indices(m: NameMap): (r: seq<nat>)
    ensures |r| == |m| && (forall i :: 0 <= i < |m| ==> r[i] == m[i].1)
  {
    seq(|m|, i requires 0 <= i < |m| => m[i].1)
  }

  /** A column and everything below it, in pre-order: `aggregate_column_indices`. */
  function Subtree(arena: seq<CatalogColumn>, idx: nat): (r: seq<nat>)
    requires Forward(arena) && idx < |arena|
    ensures forall k :: 0 <= k < |r| ==> idx <= r[k] < |arena|
    decreases |arena| - idx, 0
  {
    [idx] + Subtrees(arena, Children(arena[idx].dtype), idx)
  }

  function Subtrees(arena: seq<CatalogColumn>, children: seq<nat>, idx: nat): (r: seq<nat>)
    requires Forward(arena) && idx < |arena| && Behind(children, idx, |arena|)
    ensures forall k :: 0 <= k < |r| ==> idx < r[k] < |arena|
    decreases |arena| - idx - 1, 1, |children|
  {
    if children == [] then []
    else Subtree(arena, children[0]) + Subtrees(arena, children[1..], idx)
  }

  /** `schema_column_from_arena_index`. */
  function ColumnAt(arena: seq<CatalogColumn>, idx: nat): Column
    requires Forward(arena) && idx < |arena|
    decreases |arena| - idx, 0
  {
    var c := arena[idx];
    Column(c.name, TypeAt(arena, c.dtype, idx), c.nullable, c.info, Some(c.id))
  }

  /** `schema_dtype`. */
  function TypeAt(arena: seq<CatalogColumn>, t: CatalogType, idx: nat): DataType
    requires Forward(arena) && idx < |arena| && Behind(Children(t), idx, |arena|)
    decreases |arena| - idx - 1, 2
  {
    match t
    case PrimitiveType(name) => Primitive(name)
    case ListType(item) =>
      assert Children(t)[0] == item;
      List(ColumnAt(arena, item))
    case StructType(fields) => Struct(ColumnsAt(arena, Children(t), idx))
    case MapType(key, value) =>
      assert Children(t)[0] == key && Children(t)[1] == value;
      Map(ColumnAt(arena, key), ColumnAt(arena, value))
  }

  function ColumnsAt(arena: seq<CatalogColumn>, children: seq<nat>, idx: nat): ColumnList
    requires Forward(arena) && idx < |arena| && Behind(children, idx, |arena|)
    decreases |arena| - idx - 1, 1, |children|
  {
    if children == [] then Nil
    else Cons(ColumnAt(arena, children[0]), ColumnsAt(arena, children[1..], idx))
  }

  class CatalogColumns {
    var arena: seq<CatalogColumn>
    var byId: map<int, nat>
    var rootColumns: NameMap
    var nextColumnId: int

    constructor (nextColumnId: int)
      ensures arena == [] && byId == map[] && rootColumns == [] && this.nextColumnId == nextColumnId
    {
      arena, byId, rootColumns, this.nextColumnId := [], map[], [], nextColumnId;
    }

    method PushColumn(column: CatalogColumn) returns (idx: nat)
      modifies this
      ensures idx == |old(arena)| && arena == old(arena) + [column] && byId == old(byId)[column.id := idx]
      ensures rootColumns == old(rootColumns) && nextColumnId == old(nextColumnId)
    {
      idx := |arena|;
      byId := byId[column.id := idx];
      arena := arena + [column];
    }

    /** `add_column_to_arena`; `None` is a panic, on a struct without fields or a missing id to keep. */
    method AddColumnToArena(column: Column, parent: Option<nat>, preserve: bool) returns (result: Option<seq<nat>>)
      modifies this
      ensures rootColumns == old(rootColumns)
      ensures result.Some? <==> Buildable(column) && (preserve ==> HasIds(Flatten(column, None, 0)))
      ensures result.Some? ==>
                var flat, first := Flatten(column, None, 0), |old(arena)|;
                && |arena| == first + Size(column) && arena[..first] == old(arena)
                && PlacedAt(arena, first, flat, parent, old(nextColumnId), preserve)
                && byId == Indexed(old(byId), flat, first, old(nextColumnId), preserve, |flat|)
                && nextColumnId == old(nextColumnId) + (if preserve then 0 else Size(column))
                && |result.value| == Size(column) && forall i :: 0 <= i < Size(column) ==> result.value[i] == first + i
    {
      var first := |arena|;
      hide Flatten, ChildPositions, ChildrenOf, TypeFrom, Buildable, Shift, Node, NodeAt;
      var flat := Flatten(column, None, 0);
      BuildableFlat(column, None, 0);
      var childrenByParent := GroupByParent(flat, first);
      var indices: seq<nat> := [];
      ghost var next := nextColumnId;
      for idx := 0 to |flat|
        invariant rootColumns == old(rootColumns)
        invariant |arena| == first + idx && arena[..first] == old(arena)
        invariant forall i :: 0 <= i < idx ==> Some(arena[first + i]) == NodeAt(flat, i, first, parent, next, preserve)
        invariant forall i :: 0 <= i < idx ==> flat[i].column.dtype != Struct(Nil) && (preserve ==> flat[i].column.fieldId.Some?)
        invariant byId == Indexed(old(byId), flat, first, next, preserve, idx)
        invariant nextColumnId == next + (if preserve then 0 else idx)
        invariant |indices| == idx && forall i :: 0 <= i < idx ==> indices[i] == first + i
      {
        ghost var before := arena;
        FlattenedChildren(column, None, 0, idx);
        var children := Lookup(childrenByParent, idx);
        assert children == Shift(ChildPositions(flat[idx].column.dtype, idx), first);
        if preserve && flat[idx].column.fieldId.None? {
          assert flat[idx] in flat;
          return None;
        }
        var id;
        if preserve {
          id := flat[idx].column.fieldId.value;
        } else {
          id := nextColumnId;
          nextColumnId := nextColumnId + 1;
        }
        var node := Node(flat[idx], children, first, parent, id);
        NodeIs(flat, idx, first, parent, next, preserve, children, id);
        if node.None? {
          assert flat[idx] in flat;
          return None;
        }
        var pushed := PushColumn(node.value);
        indices := indices + [pushed];
        assert forall i :: 0 <= i < first + idx ==> arena[i] == before[i];
      }
      result := Some(indices);
    }

    /** `from_schema`, for the columns of a schema in order; false when building one of them panics. */
    method AddRootColumns(columns: seq<Column>, preserve: bool) returns (ok: bool)
      modifies this
      ensures ok <==> forall c :: c in columns ==> Buildable(c) && (preserve ==> HasIds(Flatten(c, None, 0)))
      ensures ok ==> Built(old(arena), old(byId), old(rootColumns), old(nextColumnId), columns, preserve,
                           arena, byId, rootColumns, nextColumnId)
    {
      ghost var steps := 0;
      assert columns[..0] == [];
      for k := 0 to |columns|
        invariant forall c :: c in columns[..k] ==> Buildable(c) && (preserve ==> HasIds(Flatten(c, None, 0)))
        invariant Built(old(arena), old(byId), old(rootColumns), old(nextColumnId), columns[..k], preserve,
                        arena, byId, rootColumns, nextColumnId)
      {
        assert columns[..k + 1] == columns[..k] + [columns[k]];
        var idxs := AddColumnToArena(columns[k], None, preserve);
        if idxs.None? {
          assert columns[k] in columns;
          return false;
        }
        rootColumns := Insert(rootColumns, columns[k].name, idxs.value[0]);
        assert columns[..k + 1][..k] == columns[..k] && columns[..k + 1][k] == columns[k];
      }
      assert columns[..|columns|] == columns;
      ok := true;
    }

    /** `ensure_column_unique_at_parent`; `None` is the unreachable case of a parent that is no struct. */
    function NamesAt(parent: Option<nat>): Option<NameMap>
      reads this
      requires parent.Some? ==> parent.value < |arena|
    {
      match parent
      case None => Some(rootColumns)
      case Some(p) => if arena[p].dtype.StructType? then Some(arena[p].dtype.fields) else None
    }

    /** `arena_idx_by_path`. */
    method ArenaIdxByPath(path: seq<string>) returns (idx: Option<nat>)
      requires path != [] && Forward(arena) && forall i :: 0 <= i < |rootColumns| ==> rootColumns[i].1 < |arena|
      ensures idx == Resolve(arena, rootColumns, None, path)
      ensures idx.Some? ==> idx.value < |arena|
    {
      idx := Find(rootColumns, path[0]);
      if idx.None? { return; }
      for k := 1 to |path|
        invariant idx.Some? && idx.value < |arena|
        invariant Resolve(arena, rootColumns, None, path) == Resolve(arena, rootColumns, idx, path[k..])
      {
        assert path[k..][0] == path[k] && path[k..][1..] == path[k + 1..];
        assert Behind(Children(arena[idx.value].dtype), idx.value, |arena|);
        var next := None;
        match arena[idx.value].dtype {
          case StructType(fields) =>
            next := Find(fields, path[k]);
            if next.Some? {
              var i :| 0 <= i < |fields| && fields[i] == (path[k], next.value);
              assert Children(arena[idx.value].dtype)[i] == next.value;
            }
          case ListType(item) =>
            assert Children(arena[idx.value].dtype)[0] == item;
            if path[k] == "element" { next := Some(item); }
          case MapType(key, value) =>
            assert Children(arena[idx.value].dtype)[0] == key && Children(arena[idx.value].dtype)[1] == value;
            if path[k] == "key" { next := Some(key); } else if path[k] == "value" { next := Some(value); }
          case PrimitiveType(_) =>
        }
        if next.None? { return None; }
        idx := next;
      }
    }

    /** `add_column`, below a struct or as a root; fails when the name is taken or building panics. */
    method AddColumn(parent: Option<nat>, column: Column) returns (result: Option<seq<nat>>)
      requires parent.Some? ==> parent.value < |arena|
      requires NamesAt(parent).Some?
      modifies this
      ensures result.Some? <==> !HasName(old(NamesAt(parent)).value, column.name) && Buildable(column)
      ensures result.Some? ==>
                var flat, first := Flatten(column, None, 0), |old(arena)|;
                exists added ::
                  && |added| == first + Size(column) && added[..first] == old(arena)
                  && PlacedAt(added, first, flat, parent, old(nextColumnId), false)
                  && (arena, rootColumns) == Registered(added, old(rootColumns), parent, column.name, first)
                  && byId == Indexed(old(byId), flat, first, old(nextColumnId), false, |flat|)
                  && nextColumnId == old(nextColumnId) + Size(column)
                  && |result.value| == Size(column) && forall i :: 0 <= i < Size(column) ==> result.value[i] == first + i
    {
      if HasNameIn(NamesAt(parent).value, column.name) {
        return None;
      }
      ghost var before := arena;
      result := AddColumnToArena(column, parent, false);
      if result.None? {
        return;
      }
      ghost var added := arena;
      assert parent.Some? ==> added[parent.value] == added[..|before|][parent.value] == before[parent.value];
      match parent
      case Some(p) =>
        arena := arena[p := arena[p].(dtype := StructType(Insert(arena[p].dtype.fields, column.name, result.value[0])))];
      case None =>
        rootColumns := Insert(rootColumns, column.name, result.value[0]);
    }

    /** `rename_column`; fails when the name is taken at this level. */
    method RenameColumn(idx: nat, newName: string) returns (ok: bool)
      requires idx < |arena| && (arena[idx].parent.Some? ==> arena[idx].parent.value < |arena| && arena[idx].parent.value != idx)
      requires NamesAt(arena[idx].parent).Some?
      modifies this
      ensures byId == old(byId) && nextColumnId == old(nextColumnId)
      ensures ok <==> !HasName(old(NamesAt(arena[idx].parent)).value, newName)
      ensures !ok ==> arena == old(arena) && rootColumns == old(rootColumns)
      ensures ok ==> (arena, rootColumns) == RenamedColumns(old(arena), old(rootColumns), idx, newName)
    {
      var parent := arena[idx].parent;
      if HasNameIn(NamesAt(parent).value, newName) {
        return false;
      }
      var oldName := arena[idx].name;
      match parent
      case None =>
        rootColumns := Renamed(rootColumns, oldName, newName);
        arena := arena[idx := arena[idx].(name := newName)];
        ok := true;
      case Some(p) =>
        var fields := Renamed(arena[p].dtype.fields, oldName, newName);
        arena := arena[p := arena[p].(dtype := StructType(fields))];
        arena := arena[idx := arena[idx].(name := newName)];
        ok := true;
    }

    /** `remove_column`: the ids of the column and of everything below it leave the index. */
    method RemoveColumn(idx: nat) returns (deletions: seq<nat>)
      requires Forward(arena) && idx < |arena|
      modifies this
      ensures arena == old(arena) && rootColumns == old(rootColumns) && nextColumnId == old(nextColumnId)
      ensures deletions == Subtree(arena, idx)
      ensures byId == old(byId) - IdsOf(arena, deletions)
    {
      deletions := MarkColumnDeleted(idx, []);
      assert [] + Subtree(arena, idx) == Subtree(arena, idx);
    }

    method MarkColumnDeleted(idx: nat, before: seq<nat>) returns (deletions: seq<nat>)
      requires Forward(arena) && idx < |arena|
      modifies this
      ensures arena == old(arena) && rootColumns == old(rootColumns) && nextColumnId == old(nextColumnId)
      ensures deletions == before + Subtree(arena, idx)
      ensures byId == old(byId) - IdsOf(arena, Subtree(arena, idx))
      decreases |arena| - idx
    {
      hide IdsOf, Subtrees, Subtree, Behind, Children, Forward;
      SubtreeIs(arena, idx);
      byId := byId - {arena[idx].id};
      deletions := before + [idx];
      var children := Children(arena[idx].dtype);
      ghost var index := byId;
      ghost var done: seq<nat> := [];
      assert children[0..] == children;
      NoIds(arena);
      for k := 0 to |children|
        invariant arena == old(arena) && rootColumns == old(rootColumns) && nextColumnId == old(nextColumnId)
        invariant Behind(children[k..], idx, |arena|)
        invariant deletions == before + [idx] + done
        invariant done + Subtrees(arena, children[k..], idx) == Subtrees(arena, children, idx)
        invariant byId == index - IdsOf(arena, done)
      {
        SubtreesHead(arena, children, idx, k);
        ghost var first, rest := Subtree(arena, children[k]), Subtrees(arena, children[k + 1..], idx);
        IdsOfAppend(arena, done, first);
        assert done + (first + rest) == done + first + rest;
        DeletedTwice(index, IdsOf(arena, done), IdsOf(arena, first));
        deletions := MarkColumnDeleted(children[k], deletions);
        done := done + first;
      }
      SubtreesEnd(arena, children, idx, done);
      IdsOfAppend(arena, [idx], done);
      OneId(arena, idx);
      DeletedTwice(old(byId), {arena[idx].id}, IdsOf(arena, done));
      assert before + [idx] + done == before + ([idx] + done);
    }
  }

  lemma SubtreesHead(arena: seq<CatalogColumn>, children: seq<nat>, idx: nat, k: nat)
    requires Forward(arena) && idx < |arena| && k < |children| && Behind(children[k..], idx, |arena|)
    ensures idx < children[k] < |arena| && Behind(children[k + 1..], idx, |arena|)
    ensures Subtrees(arena, children[k..], idx) == Subtree(arena, children[k]) + Subtrees(arena, children[k + 1..], idx)
  {
    assert children[k..][0] == children[k] && children[k..][1..] == children[k + 1..];
  }

  lemma SubtreesEnd(arena: seq<CatalogColumn>, children: seq<nat>, idx: nat, done: seq<nat>)
    requires Forward(arena) && idx < |arena| && Behind(children[|children|..], idx, |arena|) && Behind(children, idx, |arena|)
    requires done + Subtrees(arena, children[|children|..], idx) == Subtrees(arena, children, idx)
    ensures done == Subtrees(arena, children, idx)
  {
  }

  lemma SubtreeIs(arena: seq<CatalogColumn>, idx: nat)
    requires Forward(arena) && idx < |arena|
    ensures Behind(Children(arena[idx].dtype), idx, |arena|)
    ensures Subtree(arena, idx) == [idx] + Subtrees(arena, Children(arena[idx].dtype), idx)
  {
  }

  lemma DeletedTwice(m: map<int, nat>, a: set<int>, b: set<int>)
    ensures m - a - b == m - (a + b)
  {
  }

  lemma NoIds(arena: seq<CatalogColumn>)
    ensures IdsOf(arena, []) == {}
  {
  }

  lemma OneId(arena: seq<CatalogColumn>, idx: nat)
    requires idx < |arena|
    ensures IdsOf(arena, [idx]) == {arena[idx].id}
  {
  }

  /** The step from a column, or from the roots, to the child a path component names. */
  function Step(arena: seq<CatalogColumn>, roots: NameMap, at: Option<nat>, part: string): Option<nat> {
    match at
    case None => Find(roots, part)
    case Some(i) =>
      if i >= |arena| then None
      else
        match arena[i].dtype
        case PrimitiveType(_) => None
        case StructType(fields) => Find(fields, part)
        case ListType(item) => if part == "element" then Some(item) else None
        case MapType(key, value) => if part == "key" then Some(key) else if part == "value" then Some(value) else None
  }

  /** Where a path leads from a column, or from the roots. */
  function Resolve(arena: seq<CatalogColumn>, roots: NameMap, at: Option<nat>, path: seq<string>): Option<nat>
    decreases |path|
  {
    if path == [] then at
    else
      var next := Step(arena, roots, at, path[0]);
      if next.None? then None else Resolve(arena, roots, next, path[1..])
  }

  /** Registering a column that was added at `first` with its parent. */
  function Registered(arena: seq<CatalogColumn>, roots: NameMap, parent: Option<nat>, name: string, first: nat)
    : (seq<CatalogColumn>, NameMap)
  {
    match parent
    case None => (arena, Insert(roots, name, first))
    case Some(p) =>
      if p < |arena| && arena[p].dtype.StructType?
      then (arena[p := arena[p].(dtype := StructType(Insert(arena[p].dtype.fields, name, first)))], roots)
      else (arena, roots)
  }

  predicate HasNameIn(m: NameMap, name: string)
    ensures HasNameIn(m, name) == HasName(m, name)
  {
    Find(m, name).Some?
  }

  function IdsOf(arena: seq<CatalogColumn>, indices: seq<nat>): set<int> {
    set j | j in indices && j < |arena| :: arena[j].id
  }

  lemma IdsOfAppend(arena: seq<CatalogColumn>, a: seq<nat>, b: seq<nat>)
    ensures IdsOf(arena, a + b) == IdsOf(arena, a) + IdsOf(arena, b)
  {
  }

  /** The columns of a struct, or the roots, keep their order when one of them is renamed. */
  function RenamedColumns(arena: seq<CatalogColumn>, roots: NameMap, idx: nat, newName: string): (seq<CatalogColumn>, NameMap)
    requires idx < |arena|
  {
    var c := arena[idx];
    match c.parent
    case None => (arena[idx := c.(name := newName)], Renamed(roots, c.name, newName))
    case Some(p) =>
      if p < |arena| && arena[p].dtype.StructType? then
        var fields := Renamed(arena[p].dtype.fields, c.name, newName);
        (arena[p := arena[p].(dtype := StructType(fields))][idx := c.(name := newName)], roots)
      else (arena, roots)
  }

  /** The effect of adding all columns of a schema as roots. */
  ghost predicate Built(arena0: seq<CatalogColumn>, byId0: map<int, nat>, roots0: NameMap, next0: int, columns: seq<Column>,
                        preserve: bool, arena: seq<CatalogColumn>, byId: map<int, nat>, roots: NameMap, next: int)
    decreases |columns|
  {
    if columns == [] then arena == arena0 && byId == byId0 && roots == roots0 && next == next0
    else
      var n := |columns| - 1;
      var flat := Flatten(columns[n], None, 0);
      exists arena1, byId1, roots1, next1 ::
        && Built(arena0, byId0, roots0, next0, columns[..n], preserve, arena1, byId1, roots1, next1)
        && |arena| == |arena1| + |flat| && arena[..|arena1|] == arena1
        && PlacedAt(arena, |arena1|, flat, None, next1, preserve)
        && byId == Indexed(byId1, flat, |arena1|, next1, preserve, |flat|)
        && next == next1 + (if preserve then 0 else |flat|)
        && roots == Insert(roots1, columns[n].name, |arena1|)
  }

  /** Children of a flattened column exist unless it is a struct without fields. */
  lemma PositionsOf(t: DataType, at: nat, first: nat)
    ensures TypeFrom(t, Shift(ChildPositions(t, at), first)).Some? <==> t != Struct(Nil)
  {
  }

  lemma NodeIs(flat: seq<Flat>, i: nat, first: nat, outer: Option<nat>, next: int, preserve: bool, children: seq<nat>, id: int)
    requires i < |flat| && children == Shift(ChildPositions(flat[i].column.dtype, i), first)
    requires id == IdOf(flat, next, preserve, i)
    ensures Node(flat[i], children, first, outer, id) == NodeAt(flat, i, first, outer, next, preserve)
    ensures Node(flat[i], children, first, outer, id).None? <==> flat[i].column.dtype == Struct(Nil)
    ensures Node(flat[i], children, first, outer, id).Some? ==> Node(flat[i], children, first, outer, id).value.id == id
  {
    hide ChildPositions;
    PositionsOf(flat[i].column.dtype, i, first);
  }

  function Lookup(children: map<nat, seq<nat>>, p: nat): seq<nat> { if p in children then children[p] else [] }

  /** The loop that groups the flattened columns by parent. */
  method GroupByParent(flat: seq<Flat>, first: nat) returns (children: map<nat, seq<nat>>)
    ensures forall p: nat :: Lookup(children, p) == Shift(ChildrenOf(flat, 0, p), first)
  {
    children := map[];
    assert flat[..0] == [];
    for i := 0 to |flat|
      invariant forall p: nat :: Lookup(children, p) == Shift(ChildrenOf(flat[..i], 0, p), first)
    {
      ghost var before := children;
      if flat[i].parent.Some? {
        var p := flat[i].parent.value;
        children := children[p := Lookup(children, p) + [first + i]];
      }
      assert flat[..i + 1] == flat[..i] + [flat[i]];
      forall p: nat ensures Lookup(children, p) == Shift(ChildrenOf(flat[..i + 1], 0, p), first) {
        ChildrenOfAppend(flat[..i], [flat[i]], 0, p);
        LastChild(flat[i], i, p);
        ShiftAppend(ChildrenOf(flat[..i], 0, p), ChildrenOf([flat[i]], i, p), first);
        assert Lookup(before, p) == Shift(ChildrenOf(flat[..i], 0, p), first);
      }
    }
    assert flat[..|flat|] == flat;
  }

  lemma LastChild(f: Flat, i: nat, p: nat)
    ensures ChildrenOf([f], i, p) == if f.parent == Some(p) then [i] else []
  {
  }

  lemma ShiftAppend(a: seq<nat>, b: seq<nat>, offset: nat)
    ensures Shift(a + b, offset) == Shift(a, offset) + Shift(b, offset)
    ensures |b| == 1 ==> Shift(b, offset) == [offset + b[0]]
    ensures b == [] ==> Shift(a + b, offset) == Shift(a, offset)
  {
    if b == [] { assert a + b == a; }
  }
}
