/** What renaming and removing columns keep: sibling order, paths, parent links and the id index. */
module ColumnEdits {
  import opened Prelude
  import opened Columns
  import opened ColumnArena

  ghost predicate DistinctKeys(m: NameMap) { forall i, j :: 0 <= i < j < |m| ==> m[i].0 != m[j].0 }

  /** Each entry leads to the column of that name below the given parent. */
  ghost predicate Named(arena: seq<CatalogColumn>, m: NameMap, parent: Option<nat>) {
    && DistinctKeys(m)
    && forall t :: 0 <= t < |m| ==> m[t].1 < |arena| && arena[m[t].1].parent == parent && arena[m[t].1].name == m[t].0
  }

  /** A column's children know it as their parent. */
  ghost predicate NodeLinked(arena: seq<CatalogColumn>, p: nat)
    requires p < |arena|
  {
    var t := arena[p].dtype;
    && (forall k :: 0 <= k < |Children(t)| ==> Children(t)[k] < |arena| && arena[Children(t)[k]].parent == Some(p))
    && (t.StructType? ==> Named(arena, t.fields, Some(p)))
    && (t.MapType? ==> t.key != t.value)
  }

  /** A column is one of its parent's children, or one of the roots. */
  ghost predicate Known(arena: seq<CatalogColumn>, roots: NameMap, i: nat)
    requires i < |arena|
  {
    match arena[i].parent
    case None => exists k :: 0 <= k < |roots| && roots[k].1 == i
    case Some(p) => p < i && i in Children(arena[p].dtype)
  }

  ghost predicate Linked(arena: seq<CatalogColumn>, roots: NameMap) {
    && Forward(arena) && Named(arena, roots, None)
    && (forall p :: 0 <= p < |arena| ==> NodeLinked(arena, p))
    && (forall i :: 0 <= i < |arena| ==> Known(arena, roots, i))
  }

  // ----- renaming -----

  /** Renaming keeps the order: every entry stays where it is, and only one name differs. */
  lemma {:induction false} RenamedEntries(m: NameMap, from: string, to: string)
    requires DistinctKeys(m)
    ensures |Renamed(m, from, to)| == |m|
    ensures forall t :: 0 <= t < |m| ==> Renamed(m, from, to)[t] == (if m[t].0 == from then to else m[t].0, m[t].1)
  {
    if m != [] && m[0].0 != from {
      RenamedEntries(m[1..], from, to);
    }
  }

  lemma RenamedIndices(m: NameMap, from: string, to: string)
    requires DistinctKeys(m)
    ensures Indices(Renamed(m, from, to)) == Indices(m)
  {
    RenamedEntries(m, from, to);
  }

  lemma RenamedBack(m: NameMap, from: string, to: string)
    requires DistinctKeys(m) && !HasName(m, to)
    ensures DistinctKeys(Renamed(m, from, to)) && Renamed(Renamed(m, from, to), to, from) == m
  {
    RenamedEntries(m, from, to);
    var r := Renamed(m, from, to);
    forall i, j | 0 <= i < j < |r| ensures r[i].0 != r[j].0 {
      assert m[i].0 != to && m[j].0 != to;
    }
    RenamedEntries(r, to, from);
    forall t | 0 <= t < |m| ensures Renamed(r, to, from)[t] == m[t] {
      assert m[t].0 != to;
    }
  }

  lemma FindEntry(m: NameMap, t: nat)
    requires DistinctKeys(m) && t < |m|
    ensures Find(m, m[t].0) == Some(m[t].1)
  {
    assert HasName(m, m[t].0);
    var i :| 0 <= i < |m| && m[i] == (m[t].0, Find(m, m[t].0).value);
  }

  lemma FindRenamed(m: NameMap, from: string, to: string, part: string)
    requires DistinctKeys(m) && !HasName(m, to)
    ensures Find(Renamed(m, from, to), part) == if part == to then Find(m, from) else if part == from then None else Find(m, part)
  {
    RenamedEntries(m, from, to);
    RenamedBack(m, from, to);
    var r := Renamed(m, from, to);
    var before := if part == to then from else part;
    if HasName(r, part) {
      var t :| 0 <= t < |r| && r[t].0 == part;
      assert m[t].0 == before;
      FindEntry(r, t);
      FindEntry(m, t);
    }
    if HasName(m, before) && (part == to || part != from) {
      var t :| 0 <= t < |m| && m[t].0 == before;
      assert r[t].0 == part;
    }
  }

  /** The names at the level of a column: those of its parent struct, or the roots. */
  function Level(arena: seq<CatalogColumn>, roots: NameMap, parent: Option<nat>): NameMap {
    match parent
    case None => roots
    case Some(p) => if p < |arena| && arena[p].dtype.StructType? then arena[p].dtype.fields else []
  }

  /** What `rename_column` requires: the column is a root or the field of a struct, and the name is free. */
  ghost predicate Renameable(arena: seq<CatalogColumn>, roots: NameMap, idx: nat, name: string) {
    && Linked(arena, roots) && idx < |arena|
    && (arena[idx].parent.Some? ==> arena[idx].parent.value < |arena| && arena[arena[idx].parent.value].dtype.StructType?)
    && !HasName(Level(arena, roots, arena[idx].parent), name)
  }

  lemma LevelNamed(arena: seq<CatalogColumn>, roots: NameMap, idx: nat, name: string)
    requires Renameable(arena, roots, idx, name)
    ensures
      var c := arena[idx];
      var level := Level(arena, roots, c.parent);
      Named(arena, level, c.parent) && Find(level, c.name) == Some(idx) && c.name != name
  {
    var c := arena[idx];
    var level := Level(arena, roots, c.parent);
    assert Known(arena, roots, idx);
    if c.parent.Some? {
      assert NodeLinked(arena, c.parent.value);
      var t :| 0 <= t < |Children(arena[c.parent.value].dtype)| && Children(arena[c.parent.value].dtype)[t] == idx;
      assert level[t].1 == idx;
      FindEntry(level, t);
    } else {
      var t :| 0 <= t < |roots| && roots[t].1 == idx;
      FindEntry(level, t);
    }
    assert HasName(level, c.name);
  }

  /** Every step leads where it did, except that the renamed column answers to its new name only. */
  lemma StepAfterRename(arena: seq<CatalogColumn>, roots: NameMap, idx: nat, name: string, at: Option<nat>, part: string)
    requires Renameable(arena, roots, idx, name)
    ensures
      var (arena1, roots1) := RenamedColumns(arena, roots, idx, name);
      Step(arena1, roots1, at, part)
      == if at != arena[idx].parent then Step(arena, roots, at, part)
         else if part == name then Some(idx)
         else if part == arena[idx].name then None
         else Step(arena, roots, at, part)
  {
    hide Linked, RenamedColumns, Renamed, Find, Named;
    var c := arena[idx];
    LevelNamed(arena, roots, idx, name);
    RenamedShape(arena, roots, idx, name);
    LevelNames(arena, roots, idx, name);
    if at == c.parent {
      FindRenamed(Level(arena, roots, c.parent), c.name, name, part);
    }
  }

  lemma LevelNames(arena: seq<CatalogColumn>, roots: NameMap, idx: nat, name: string)
    requires Renameable(arena, roots, idx, name)
    ensures DistinctKeys(Level(arena, roots, arena[idx].parent))
    ensures arena[idx].parent.Some? ==> arena[idx].parent.value < idx
  {
    LevelNamed(arena, roots, idx, name);
    assert Known(arena, roots, idx);
  }

  /** The path with the component that names the renamed column replaced. */
  function Rewritten(arena: seq<CatalogColumn>, roots: NameMap, idx: nat, name: string, at: Option<nat>, path: seq<string>): seq<string>
    decreases |path|
  {
    if path == [] then []
    else
      var next := Step(arena, roots, at, path[0]);
      if next.None? then path
      else [if next == Some(idx) && idx < |arena| && at == arena[idx].parent then name else path[0]]
           + Rewritten(arena, roots, idx, name, next, path[1..])
  }

  /** Every path that led somewhere leads there still, with that one component replaced. */
  lemma {:induction false} PathsAfterRename(arena: seq<CatalogColumn>, roots: NameMap, idx: nat, name: string, at: Option<nat>,
                                            path: seq<string>)
    requires Renameable(arena, roots, idx, name) && Resolve(arena, roots, at, path).Some?
    ensures
      var (arena1, roots1) := RenamedColumns(arena, roots, idx, name);
      Resolve(arena1, roots1, at, Rewritten(arena, roots, idx, name, at, path)) == Resolve(arena, roots, at, path)
    decreases |path|
  {
    hide Renameable, Step, RenamedColumns;
    RenameFits(arena, roots, idx, name);
    if path != [] {
      var next := Step(arena, roots, at, path[0]);
      StepAfterRename(arena, roots, idx, name, at, path[0]);
      StepAfterRename(arena, roots, idx, name, at, name);
      PathsAfterRename(arena, roots, idx, name, next, path[1..]);
      if at == arena[idx].parent {
        RenamedStep(arena, roots, idx, name, at, path[0]);
      }
      var rewritten := Rewritten(arena, roots, idx, name, at, path);
      assert rewritten[1..] == Rewritten(arena, roots, idx, name, next, path[1..]);
    }
  }

  lemma RenameFits(arena: seq<CatalogColumn>, roots: NameMap, idx: nat, name: string)
    requires Renameable(arena, roots, idx, name)
    ensures idx < |arena|
  {
  }

  lemma RenamedStep(arena: seq<CatalogColumn>, roots: NameMap, idx: nat, name: string, at: Option<nat>, part: string)
    requires Renameable(arena, roots, idx, name) && idx < |arena|
    requires at == arena[idx].parent && Step(arena, roots, at, part).Some?
    ensures Step(arena, roots, at, part) == Some(idx) <==> part == arena[idx].name
    ensures part != name
  {
    LevelNamed(arena, roots, idx, name);
    var level := Level(arena, roots, at);
    var found := Find(level, part);
    assert Step(arena, roots, at, part) == found;
    var t :| 0 <= t < |level| && level[t] == (part, found.value);
  }

  /** Renaming back restores everything. */
  lemma RenameBack(arena: seq<CatalogColumn>, roots: NameMap, idx: nat, name: string)
    requires Renameable(arena, roots, idx, name)
    ensures
      var (arena1, roots1) := RenamedColumns(arena, roots, idx, name);
      |arena1| == |arena| && RenamedColumns(arena1, roots1, idx, arena[idx].name) == (arena, roots)
  {
    var c := arena[idx];
    LevelNamed(arena, roots, idx, name);
    LevelNames(arena, roots, idx, name);
    RenamedBack(Level(arena, roots, c.parent), c.name, name);
    RenamedTwice(arena, roots, idx, name);
  }

  lemma RenamedTwice(arena: seq<CatalogColumn>, roots: NameMap, idx: nat, name: string)
    requires idx < |arena| && (arena[idx].parent.Some? ==> arena[idx].parent.value < idx)
    requires arena[idx].parent.Some? ==> arena[arena[idx].parent.value].dtype.StructType?
    requires
      var level := Level(arena, roots, arena[idx].parent);
      Renamed(Renamed(level, arena[idx].name, name), name, arena[idx].name) == level
    ensures
      var (arena1, roots1) := RenamedColumns(arena, roots, idx, name);
      |arena1| == |arena| && RenamedColumns(arena1, roots1, idx, arena[idx].name) == (arena, roots)
  {
    hide Renamed;
    var (arena1, roots1) := RenamedColumns(arena, roots, idx, name);
    var (arena2, roots2) := RenamedColumns(arena1, roots1, idx, arena[idx].name);
    assert |arena2| == |arena| && forall i :: 0 <= i < |arena| ==> arena2[i] == arena[i];
    assert arena2 == arena && roots2 == roots;
  }

  /** Renaming keeps all links. */
  lemma RenameKeepsLinks(arena: seq<CatalogColumn>, roots: NameMap, idx: nat, name: string)
    requires Renameable(arena, roots, idx, name)
    ensures var (arena1, roots1) := RenamedColumns(arena, roots, idx, name); Linked(arena1, roots1)
  {
    hide Linked;
    var c := arena[idx];
    var (arena1, roots1) := RenamedColumns(arena, roots, idx, name);
    LevelNamed(arena, roots, idx, name);
    RenamedShape(arena, roots, idx, name);
    LinkedParts(arena, roots);
    forall i | 0 <= i < |arena| ensures NodeLinked(arena1, i) && Known(arena1, roots1, i) && Behind(Children(arena1[i].dtype), i, |arena1|) {
      RenameKeepsNode(arena, roots, idx, name, i);
    }
    if c.parent.None? {
      RenamedNamed(arena, arena1, roots, None, idx, name);
    } else {
      OthersNamed(arena, arena1, roots, None, idx);
    }
    assert Linked(arena1, roots1) by { LinkedIf(arena1, roots1); }
  }

  lemma LinkedParts(arena: seq<CatalogColumn>, roots: NameMap)
    requires Linked(arena, roots)
    ensures Forward(arena) && Named(arena, roots, None)
    ensures forall i :: 0 <= i < |arena| ==> NodeLinked(arena, i) && Known(arena, roots, i)
  {
  }

  lemma LinkedIf(arena: seq<CatalogColumn>, roots: NameMap)
    requires Named(arena, roots, None)
    requires forall i :: 0 <= i < |arena| ==>
               NodeLinked(arena, i) && Known(arena, roots, i) && Behind(Children(arena[i].dtype), i, |arena|)
    ensures Linked(arena, roots)
  {
  }

  /** Only the name of the column and the keys of its level change. */
  lemma RenamedShape(arena: seq<CatalogColumn>, roots: NameMap, idx: nat, name: string)
    requires Renameable(arena, roots, idx, name)
    ensures
      var (arena1, roots1) := RenamedColumns(arena, roots, idx, name);
      && |arena1| == |arena|
      && (forall i :: 0 <= i < |arena| ==> arena1[i].parent == arena[i].parent
                                           && Children(arena1[i].dtype) == Children(arena[i].dtype)
                                           && arena1[i].name == if i == idx then name else arena[i].name)
      && (forall i :: 0 <= i < |arena| && Some(i) != arena[idx].parent ==> arena1[i].dtype == arena[i].dtype)
      && Level(arena1, roots1, arena[idx].parent) == Renamed(Level(arena, roots, arena[idx].parent), arena[idx].name, name)
      && (arena[idx].parent.Some? ==> roots1 == roots && arena1[arena[idx].parent.value].dtype.StructType?)
      && Indices(roots1) == Indices(roots)
  {
    hide Linked, Named, Renamed, Find;
    LevelNamed(arena, roots, idx, name);
    LevelNames(arena, roots, idx, name);
    RenamedIndices(Level(arena, roots, arena[idx].parent), arena[idx].name, name);
    hide Indices, Renameable, DistinctKeys;
    var c := arena[idx];
    var (arena1, roots1) := RenamedColumns(arena, roots, idx, name);
    if c.parent.Some? {
      var p := c.parent.value;
      assert arena1[p].dtype == StructType(Renamed(arena[p].dtype.fields, c.name, name));
      assert Children(arena1[p].dtype) == Children(arena[p].dtype);
    }
  }

  lemma RenamedNamed(arena: seq<CatalogColumn>, arena1: seq<CatalogColumn>, level: NameMap, parent: Option<nat>, idx: nat, name: string)
    requires Named(arena, level, parent) && !HasName(level, name) && idx < |arena| == |arena1|
    requires Find(level, arena[idx].name) == Some(idx)
    requires forall i :: 0 <= i < |arena| ==> arena1[i].parent == arena[i].parent
                                              && arena1[i].name == if i == idx then name else arena[i].name
    ensures Named(arena1, Renamed(level, arena[idx].name, name), parent)
  {
    hide Renamed;
    var c := arena[idx];
    RenamedEntries(level, c.name, name);
    RenamedBack(level, c.name, name);
    var t0 :| 0 <= t0 < |level| && level[t0] == (c.name, idx);
    hide Find, HasName;
    var r := Renamed(level, c.name, name);
    forall t | 0 <= t < |r| ensures r[t].1 < |arena1| && arena1[r[t].1].parent == parent && arena1[r[t].1].name == r[t].0 {
      assert level[t].0 == c.name ==> t == t0;
      assert level[t].1 == idx ==> arena[level[t].1].name == c.name;
    }
  }

  lemma OthersNamed(arena: seq<CatalogColumn>, arena1: seq<CatalogColumn>, m: NameMap, parent: Option<nat>, idx: nat)
    requires Named(arena, m, parent) && idx < |arena| == |arena1| && arena[idx].parent != parent
    requires forall i :: 0 <= i < |arena| ==> arena1[i].parent == arena[i].parent && (i != idx ==> arena1[i].name == arena[i].name)
    ensures Named(arena1, m, parent)
  {
  }

  lemma RenameKeepsNode(arena: seq<CatalogColumn>, roots: NameMap, idx: nat, name: string, i: nat)
    requires Renameable(arena, roots, idx, name) && i < |arena|
    ensures
      var (arena1, roots1) := RenamedColumns(arena, roots, idx, name);
      |arena1| == |arena| && NodeLinked(arena1, i) && Known(arena1, roots1, i) && Behind(Children(arena1[i].dtype), i, |arena1|)
  {
    hide Linked, RenamedColumns, Named, Known, Find, Renamed, NodeLinked;
    var c := arena[idx];
    var (arena1, roots1) := RenamedColumns(arena, roots, idx, name);
    LevelNamed(arena, roots, idx, name);
    RenamedShape(arena, roots, idx, name);
    LinkedParts(arena, roots);
    assert NodeLinked(arena, i) && Known(arena, roots, i) && Behind(Children(arena[i].dtype), i, |arena|);
    if Some(i) == c.parent {
      RenamedNamed(arena, arena1, Level(arena, roots, c.parent), c.parent, idx, name);
    } else if arena[i].dtype.StructType? {
      NodeNamed(arena, i);
      OthersNamed(arena, arena1, arena[i].dtype.fields, Some(i), idx);
    }
    SameShape(arena, roots, arena1, roots1, i);
  }

  lemma NodeNamed(arena: seq<CatalogColumn>, i: nat)
    requires i < |arena| && NodeLinked(arena, i) && arena[i].dtype.StructType?
    ensures Named(arena, arena[i].dtype.fields, Some(i))
  {
  }

  lemma SameShape(arena: seq<CatalogColumn>, roots: NameMap, arena1: seq<CatalogColumn>, roots1: NameMap, i: nat)
    requires i < |arena| == |arena1| && NodeLinked(arena, i) && Known(arena, roots, i)
    requires forall j :: 0 <= j < |arena| ==> arena1[j].parent == arena[j].parent && Children(arena1[j].dtype) == Children(arena[j].dtype)
    requires Indices(roots1) == Indices(roots)
    requires arena1[i].dtype == arena[i].dtype || (arena1[i].dtype.StructType? && arena[i].dtype.StructType?)
    requires arena1[i].dtype.StructType? ==> Named(arena1, arena1[i].dtype.fields, Some(i))
    ensures NodeLinked(arena1, i) && Known(arena1, roots1, i)
  {
    hide Named;
    if arena[i].parent.None? {
      var k :| 0 <= k < |roots| && roots[k].1 == i;
      assert Indices(roots1)[k] == Indices(roots)[k];
      assert roots1[k].1 == i;
    }
  }

  // ----- removing -----

  /** `idx` is the column or one of its ancestors. */
  ghost predicate Under(arena: seq<CatalogColumn>, x: nat, idx: nat)
    requires x < |arena|
  {
    x == idx || (arena[x].parent.Some? && arena[x].parent.value < x && Under(arena, arena[x].parent.value, idx))
  }

  lemma {:induction false} UnderChild(arena: seq<CatalogColumn>, x: nat, child: nat, idx: nat)
    requires x < |arena| && child < |arena| && Under(arena, x, child) && arena[child].parent == Some(idx) && idx < child
    ensures Under(arena, x, idx)
    decreases x
  {
    if x != child {
      UnderChild(arena, arena[x].parent.value, child, idx);
    }
  }

  lemma {:induction false} UnderBelow(arena: seq<CatalogColumn>, x: nat, idx: nat)
    requires x < |arena| && Under(arena, x, idx)
    ensures idx <= x
    decreases x
  {
    if x != idx {
      UnderBelow(arena, arena[x].parent.value, idx);
    }
  }

  /** Two columns with one parent share no descendant. */
  lemma {:induction false} SiblingsApart(arena: seq<CatalogColumn>, x: nat, a: nat, b: nat)
    requires x < |arena| && a < |arena| && b < |arena| && Under(arena, x, a) && Under(arena, x, b)
    requires arena[a].parent == arena[b].parent && arena[a].parent.Some? && arena[a].parent.value < a && arena[a].parent.value < b
    ensures a == b
    decreases x
  {
    if x == a && x != b {
      UnderBelow(arena, arena[x].parent.value, b);
    } else if x == b && x != a {
      UnderBelow(arena, arena[x].parent.value, a);
    } else if x != a {
      SiblingsApart(arena, arena[x].parent.value, a, b);
    }
  }

  lemma {:induction false} SubtreeUnder(arena: seq<CatalogColumn>, roots: NameMap, idx: nat, x: nat)
    requires Linked(arena, roots) && idx < |arena| && x in Subtree(arena, idx)
    ensures x < |arena| && Under(arena, x, idx)
    decreases |arena| - idx, 0
  {
    hide Linked;
    LinkedParts(arena, roots);
    SubtreeIs(arena, idx);
    if x != idx {
      assert NodeLinked(arena, idx);
      var child := SubtreesUnder(arena, roots, Children(arena[idx].dtype), idx, x);
      UnderChild(arena, x, child, idx);
    }
  }

  lemma {:induction false} SubtreesUnder(arena: seq<CatalogColumn>, roots: NameMap, children: seq<nat>, idx: nat, x: nat)
    returns (child: nat)
    requires Linked(arena, roots) && idx < |arena| && Behind(children, idx, |arena|) && x in Subtrees(arena, children, idx)
    ensures child in children && idx < child < |arena| && x < |arena| && Under(arena, x, child)
    decreases |arena| - idx - 1, 1, |children|
  {
    hide Linked;
    LinkedParts(arena, roots);
    if x in Subtree(arena, children[0]) {
      child := children[0];
      SubtreeUnder(arena, roots, child, x);
    } else {
      child := SubtreesUnder(arena, roots, children[1..], idx, x);
    }
  }

  lemma {:induction false} SubtreesHave(arena: seq<CatalogColumn>, children: seq<nat>, idx: nat, child: nat, x: nat)
    requires Forward(arena) && idx < |arena| && Behind(children, idx, |arena|) && child in children && child < |arena|
    requires x in Subtree(arena, child)
    ensures x in Subtrees(arena, children, idx)
    decreases |children|
  {
    hide Forward, Subtree;
    if child != children[0] {
      SubtreesHave(arena, children[1..], idx, child, x);
    }
  }

  /** A child of a column in a subtree is in the subtree. */
  lemma {:induction false} SubtreeClosed(arena: seq<CatalogColumn>, idx: nat, p: nat, x: nat)
    requires Forward(arena) && idx < |arena| && p in Subtree(arena, idx) && p < |arena| && x in Children(arena[p].dtype)
    ensures x in Subtree(arena, idx)
    decreases |arena| - idx, 0
  {
    hide Forward;
    SubtreeIs(arena, idx);
    if p == idx {
      ChildBehind(arena, p, x);
      SubtreeIs(arena, x);
      SubtreesHave(arena, Children(arena[idx].dtype), idx, x, x);
    } else {
      SubtreesClosed(arena, Children(arena[idx].dtype), idx, p, x);
    }
  }

  lemma ChildBehind(arena: seq<CatalogColumn>, p: nat, x: nat)
    requires Forward(arena) && p < |arena| && x in Children(arena[p].dtype)
    ensures p < x < |arena|
  {
    var k :| 0 <= k < |Children(arena[p].dtype)| && Children(arena[p].dtype)[k] == x;
    assert Behind(Children(arena[p].dtype), p, |arena|);
  }

  lemma {:induction false} SubtreesClosed(arena: seq<CatalogColumn>, children: seq<nat>, idx: nat, p: nat, x: nat)
    requires Forward(arena) && idx < |arena| && Behind(children, idx, |arena|) && p in Subtrees(arena, children, idx)
    requires p < |arena| && x in Children(arena[p].dtype)
    ensures x in Subtrees(arena, children, idx)
    decreases |arena| - idx - 1, 1, |children|
  {
    hide Forward, Subtree;
    if p in Subtree(arena, children[0]) {
      SubtreeClosed(arena, children[0], p, x);
    } else {
      SubtreesClosed(arena, children[1..], idx, p, x);
    }
  }

  lemma {:induction false} UnderSubtree(arena: seq<CatalogColumn>, roots: NameMap, idx: nat, x: nat)
    requires Linked(arena, roots) && idx < |arena| && x < |arena| && Under(arena, x, idx)
    ensures x in Subtree(arena, idx)
    decreases x
  {
    hide Linked;
    LinkedParts(arena, roots);
    SubtreeIs(arena, idx);
    if x != idx {
      var p := arena[x].parent.value;
      UnderSubtree(arena, roots, idx, p);
      assert Known(arena, roots, x);
      SubtreeClosed(arena, idx, p, x);
    }
  }

  ghost predicate NoRepeats(s: seq<nat>) { forall i, j :: 0 <= i < j < |s| ==> s[i] != s[j] }

  lemma NoRepeatsAppend(a: seq<nat>, b: seq<nat>)
    requires NoRepeats(a) && NoRepeats(b) && forall x :: x in a ==> x !in b
    ensures NoRepeats(a + b)
  {
    forall i, j | 0 <= i < j < |a + b| ensures (a + b)[i] != (a + b)[j] {
      if i < |a| <= j {
        assert (a + b)[i] in a && (a + b)[j] in b;
      }
    }
  }

  lemma {:induction false} SubtreeOnce(arena: seq<CatalogColumn>, roots: NameMap, idx: nat)
    requires Linked(arena, roots) && idx < |arena|
    ensures NoRepeats(Subtree(arena, idx))
    decreases |arena| - idx, 0
  {
    hide Linked;
    LinkedParts(arena, roots);
    SubtreeIs(arena, idx);
    assert NodeLinked(arena, idx);
    ChildrenOnce(arena, roots, idx);
    SubtreesOnce(arena, roots, Children(arena[idx].dtype), idx);
    NoRepeatsAppend([idx], Subtrees(arena, Children(arena[idx].dtype), idx));
  }

  lemma ChildrenOnce(arena: seq<CatalogColumn>, roots: NameMap, idx: nat)
    requires idx < |arena| && NodeLinked(arena, idx)
    ensures NoRepeats(Children(arena[idx].dtype))
  {
  }

  lemma {:induction false} SubtreesOnce(arena: seq<CatalogColumn>, roots: NameMap, children: seq<nat>, idx: nat)
    requires Linked(arena, roots) && idx < |arena| && Behind(children, idx, |arena|) && NoRepeats(children)
    requires forall k :: 0 <= k < |children| ==> arena[children[k]].parent == Some(idx)
    ensures NoRepeats(Subtrees(arena, children, idx))
    decreases |arena| - idx - 1, 1, |children|
  {
    hide Linked, Subtree;
    LinkedParts(arena, roots);
    if children != [] {
      var first := children[0];
      SubtreeOnce(arena, roots, first);
      SubtreesOnce(arena, roots, children[1..], idx);
      forall x | x in Subtree(arena, first) ensures x !in Subtrees(arena, children[1..], idx) {
        if x in Subtrees(arena, children[1..], idx) {
          SubtreeUnder(arena, roots, first, x);
          var other := SubtreesUnder(arena, roots, children[1..], idx, x);
          var k :| 0 <= k < |children[1..]| && children[1..][k] == other;
          assert children[0] != children[k + 1];
          SiblingsApart(arena, x, first, other);
        }
      }
      NoRepeatsAppend(Subtree(arena, first), Subtrees(arena, children[1..], idx));
    }
  }

  /** Removing a column lists it and exactly its descendants, each once. */
  lemma RemoveListsSubtree(arena: seq<CatalogColumn>, roots: NameMap, idx: nat)
    requires Linked(arena, roots) && idx < |arena|
    ensures Forward(arena) && NoRepeats(Subtree(arena, idx))
    ensures forall x: nat :: x in Subtree(arena, idx) <==> x < |arena| && Under(arena, x, idx)
  {
    hide Linked, Under, Subtree;
    LinkedParts(arena, roots);
    SubtreeOnce(arena, roots, idx);
    forall x: nat ensures x in Subtree(arena, idx) <==> x < |arena| && Under(arena, x, idx) {
      if x in Subtree(arena, idx) { SubtreeUnder(arena, roots, idx, x); }
      if x < |arena| && Under(arena, x, idx) { UnderSubtree(arena, roots, idx, x); }
    }
  }

  /** The columns of the schema: the roots whose ids are still in the index, in order. */
  function SchemaOf(arena: seq<CatalogColumn>, byId: map<int, nat>, roots: NameMap): seq<Column>
    requires Forward(arena) && forall t :: 0 <= t < |roots| ==> roots[t].1 < |arena|
  {
    if roots == [] then []
    else if arena[roots[0].1].id in byId then [ColumnAt(arena, roots[0].1)] + SchemaOf(arena, byId, roots[1..])
    else SchemaOf(arena, byId, roots[1..])
  }

  ghost predicate DistinctIds(arena: seq<CatalogColumn>) {
    forall i, j :: 0 <= i < j < |arena| ==> arena[i].id != arena[j].id
  }

  function Without(roots: NameMap, idx: nat): NameMap {
    if roots == [] then []
    else if roots[0].1 == idx then Without(roots[1..], idx)
    else [roots[0]] + Without(roots[1..], idx)
  }

  lemma {:induction false} SchemaWithout(arena: seq<CatalogColumn>, byId: map<int, nat>, after: map<int, nat>, roots: NameMap, idx: nat)
    requires Forward(arena) && forall t :: 0 <= t < |roots| ==> roots[t].1 < |arena|
    requires forall t :: 0 <= t < |roots| ==>
               (arena[roots[t].1].id in after <==> arena[roots[t].1].id in byId && roots[t].1 != idx)
    ensures forall t :: 0 <= t < |Without(roots, idx)| ==> Without(roots, idx)[t].1 < |arena|
    ensures SchemaOf(arena, after, roots) == SchemaOf(arena, byId, Without(roots, idx))
  {
    if roots != [] {
      SchemaWithout(arena, byId, after, roots[1..], idx);
    }
  }

  lemma {:induction false} NothingWithout(roots: NameMap, idx: nat)
    requires forall t :: 0 <= t < |roots| ==> roots[t].1 != idx
    ensures Without(roots, idx) == roots
  {
    if roots != [] {
      NothingWithout(roots[1..], idx);
    }
  }

  /**
   * Removing drops exactly the ids of the subtree from the index. The schema loses the column when
   * it is a root; for a nested column the schema stays as it was.
   */
  lemma SchemaAfterRemove(arena: seq<CatalogColumn>, byId: map<int, nat>, roots: NameMap, idx: nat)
    requires Linked(arena, roots) && DistinctIds(arena) && idx < |arena|
    ensures Forward(arena) && forall t :: 0 <= t < |roots| ==> roots[t].1 < |arena|
    ensures forall t :: 0 <= t < |Without(roots, idx)| ==> Without(roots, idx)[t].1 < |arena|
    ensures
      var after := byId - IdsOf(arena, Subtree(arena, idx));
      && (forall i :: 0 <= i < |arena| ==> (arena[i].id in after <==> arena[i].id in byId && !Under(arena, i, idx)))
      && SchemaOf(arena, after, roots) == SchemaOf(arena, byId, Without(roots, idx))
      && (arena[idx].parent.Some? ==> SchemaOf(arena, after, roots) == SchemaOf(arena, byId, roots))
  {
    hide Linked, Subtree, Forward;
    LinkedParts(arena, roots);
    RemoveListsSubtree(arena, roots, idx);
    var after := byId - IdsOf(arena, Subtree(arena, idx));
    forall i | 0 <= i < |arena| ensures arena[i].id in after <==> arena[i].id in byId && !Under(arena, i, idx) {
      if arena[i].id in IdsOf(arena, Subtree(arena, idx)) {
        var j :| j in Subtree(arena, idx) && j < |arena| && arena[j].id == arena[i].id;
        assert i == j;
      }
    }
    forall t | 0 <= t < |roots| ensures Under(arena, roots[t].1, idx) <==> roots[t].1 == idx {
      assert arena[roots[t].1].parent == None;
    }
    SchemaWithout(arena, byId, after, roots, idx);
    if arena[idx].parent.Some? {
      NothingWithout(roots, idx);
    }
  }
}
