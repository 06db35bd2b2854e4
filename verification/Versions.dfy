/** Rows that carry a validity interval of snapshots, and what a snapshot sees of them. */
module Versions {
  import opened Prelude

  /** A catalog row: valid from snapshot `begin` up to, not including, snapshot `end`. */
  datatype Versioned<T> = Versioned(begin: int, end: Option<int>, row: T)

  /** `filter_for_snapshot`. */
  predicate VisibleAt<T>(v: Versioned<T>, s: int) {
    v.begin <= s && (v.end.None? || v.end.value > s)
  }

  /** What a query filtered for snapshot `s` returns, in table order. */
  function View<T>(rows: seq<Versioned<T>>, s: int): (r: seq<T>)
    ensures forall x :: x in r ==> exists v :: v in rows && VisibleAt(v, s) && v.row == x
    ensures forall v :: v in rows && VisibleAt(v, s) ==> v.row in r
  {
    if rows == [] then []
    else
      assert rows == [rows[0]] + rows[1..];
      if VisibleAt(rows[0], s) then [rows[0].row] + View(rows[1..], s) else View(rows[1..], s)
  }

  /** `retire_rows`: end every row that is still open and matches. */
  function Retire<T>(rows: seq<Versioned<T>>, p: T -> bool, n: int): (r: seq<Versioned<T>>)
    ensures |r| == |rows|
    ensures forall i :: 0 <= i < |rows| ==> r[i] == RetireOne(rows[i], p, n)
  {
    if rows == [] then []
    else [RetireOne(rows[0], p, n)] + Retire(rows[1..], p, n)
  }

  function RetireOne<T>(v: Versioned<T>, p: T -> bool, n: int): Versioned<T> {
    if v.end.None? && p(v.row) then v.(end := Some(n)) else v
  }

  /** No retained snapshot sees the row and none ever will: `condition_inactive_snapshot`. */
  predicate Inactive<T>(v: Versioned<T>, snapshots: set<int>) {
    v.end.Some? && !exists s :: s in snapshots && s >= v.begin && s < v.end.value
  }

  /** No row begins or ends later than snapshot `h`. */
  ghost predicate Settled<T>(rows: seq<Versioned<T>>, h: int) {
    forall v :: v in rows ==> v.begin <= h && (v.end.Some? ==> v.begin <= v.end.value <= h)
  }

  /** Rows a commit of snapshot `n` inserts: open, or already ended within the same commit. */
  ghost predicate InsertedAt<T>(rows: seq<Versioned<T>>, n: int) {
    forall v :: v in rows ==> v.begin == n && (v.end.None? || v.end.value == n)
  }

  /** No row begins or ends at a snapshot in `(a, b]`. */
  ghost predicate QuietBetween<T>(rows: seq<Versioned<T>>, a: int, b: int) {
    forall v :: v in rows ==>
      !(a < v.begin <= b) && (v.end.Some? ==> !(a < v.end.value <= b))
  }

  lemma {:induction false} ViewAppend<T>(a: seq<Versioned<T>>, b: seq<Versioned<T>>, s: int)
    ensures View(a + b, s) == View(a, s) + View(b, s)
  {
    if a == [] {
      assert a + b == b;
    } else {
      assert (a + b)[1..] == a[1..] + b;
      ViewAppend(a[1..], b, s);
    }
  }

  lemma {:induction false} ViewNothing<T>(rows: seq<Versioned<T>>, s: int)
    requires forall v :: v in rows ==> !VisibleAt(v, s)
    ensures View(rows, s) == []
  {
    if rows != [] {
      ViewNothing(rows[1..], s);
    }
  }

  /** Deleting rows that `s` does not see leaves the view at `s` alone. */
  lemma {:induction false} ViewOfKept<T>(rows: seq<Versioned<T>>, keep: Versioned<T> -> bool, s: int)
    requires forall v :: v in rows && VisibleAt(v, s) ==> keep(v)
    ensures View(Filter(keep, rows), s) == View(rows, s)
  {
    if rows != [] {
      ViewOfKept(rows[1..], keep, s);
      ViewAppend(if keep(rows[0]) then [rows[0]] else [], Filter(keep, rows[1..]), s);
    }
  }

  /** Deleting rows outside a selection leaves the selected part of every view alone. */
  lemma {:induction false} SelectedViewOfKept<T>(rows: seq<Versioned<T>>, keep: Versioned<T> -> bool,
                                                  p: T -> bool, s: int)
    requires forall v :: v in rows && VisibleAt(v, s) && p(v.row) ==> keep(v)
    ensures Filter(p, View(Filter(keep, rows), s)) == Filter(p, View(rows, s))
  {
    if rows != [] {
      SelectedViewOfKept(rows[1..], keep, p, s);
      var head := if keep(rows[0]) then [rows[0]] else [];
      ViewAppend(head, Filter(keep, rows[1..]), s);
      FilterAppend(p, View(head, s), View(Filter(keep, rows[1..]), s));
      FilterAppend(p, View([rows[0]], s), View(rows[1..], s));
      assert [rows[0]] + rows[1..] == rows;
      ViewAppend([rows[0]], rows[1..], s);
    }
  }

  /** Ending rows at `n` is invisible to every snapshot before `n`. */
  lemma {:induction false} RetirePast<T>(rows: seq<Versioned<T>>, p: T -> bool, n: int, s: int)
    requires s < n
    ensures View(Retire(rows, p, n), s) == View(rows, s)
  {
    if rows != [] {
      RetirePast(rows[1..], p, n, s);
      assert Retire(rows, p, n)[1..] == Retire(rows[1..], p, n);
    }
  }

  /** At `n` the view is the previous head's view without the retired rows. */
  lemma {:induction false} RetireHead<T>(rows: seq<Versioned<T>>, p: T -> bool, n: int)
    requires Settled(rows, n - 1)
    ensures View(Retire(rows, p, n), n) == Filter(Not(p), View(rows, n - 1))
  {
    if rows != [] {
      var live := Not(p);
      RetireHead(rows[1..], p, n);
      assert Retire(rows, p, n)[1..] == Retire(rows[1..], p, n);
      FilterAppend(live, if VisibleAt(rows[0], n - 1) then [rows[0].row] else [], View(rows[1..], n - 1));
    }
  }

  /** One commit's effect on a table: end the matching open rows, then insert. */
  function Advance<T>(rows: seq<Versioned<T>>, p: T -> bool, n: int, added: seq<Versioned<T>>): seq<Versioned<T>> {
    Retire(rows, p, n) + added
  }

  lemma AdvancePast<T>(rows: seq<Versioned<T>>, p: T -> bool, n: int, added: seq<Versioned<T>>, s: int)
    requires s < n && InsertedAt(added, n)
    ensures View(Advance(rows, p, n, added), s) == View(rows, s)
  {
    RetirePast(rows, p, n, s);
    ViewNothing(added, s);
    ViewAppend(Retire(rows, p, n), added, s);
  }

  lemma AdvanceHead<T>(rows: seq<Versioned<T>>, p: T -> bool, n: int, added: seq<Versioned<T>>)
    requires Settled(rows, n - 1) && InsertedAt(added, n)
    ensures View(Advance(rows, p, n, added), n)
         == Filter(Not(p), View(rows, n - 1)) + View(added, n)
  {
    RetireHead(rows, p, n);
    ViewAppend(Retire(rows, p, n), added, n);
  }

  lemma AdvanceSettled<T>(rows: seq<Versioned<T>>, p: T -> bool, n: int, added: seq<Versioned<T>>)
    requires Settled(rows, n - 1) && InsertedAt(added, n)
    ensures Settled(Advance(rows, p, n, added), n)
  {
    var retired := Retire(rows, p, n);
    forall v | v in Advance(rows, p, n, added)
      ensures v.begin <= n && (v.end.Some? ==> v.begin <= v.end.value <= n)
    {
      if v in retired {
        var i :| 0 <= i < |retired| && retired[i] == v;
        assert rows[i] in rows;
      }
    }
  }

  /** The rows still open, in table order. */
  function Open<T>(rows: seq<Versioned<T>>): seq<T> {
    if rows == [] then []
    else if rows[0].end.None? then [rows[0].row] + Open(rows[1..])
    else Open(rows[1..])
  }

  lemma {:induction false} OpenAppend<T>(a: seq<Versioned<T>>, b: seq<Versioned<T>>)
    ensures Open(a + b) == Open(a) + Open(b)
  {
    if a == [] {
      assert a + b == b;
    } else {
      assert (a + b)[1..] == a[1..] + b;
      OpenAppend(a[1..], b);
    }
  }

  lemma {:induction false} OpenRetired<T>(rows: seq<Versioned<T>>, p: T -> bool, n: int)
    ensures Open(Retire(rows, p, n)) == Filter(Not(p), Open(rows))
  {
    if rows != [] {
      OpenRetired(rows[1..], p, n);
      assert Retire(rows, p, n)[1..] == Retire(rows[1..], p, n);
      FilterAppend(Not(p), if rows[0].end.None? then [rows[0].row] else [], Open(rows[1..]));
    }
  }

  /** In a settled table the open rows are what the head sees. */
  lemma {:induction false} HeadSeesOpen<T>(rows: seq<Versioned<T>>, h: int)
    requires Settled(rows, h)
    ensures View(rows, h) == Open(rows)
  {
    if rows != [] {
      assert rows[0] in rows;
      HeadSeesOpen(rows[1..], h);
    }
  }

  /** Snapshots with no boundary between them see the same rows. */
  lemma {:induction false} QuietView<T>(rows: seq<Versioned<T>>, a: int, b: int)
    requires a <= b && QuietBetween(rows, a, b)
    ensures View(rows, a) == View(rows, b)
  {
    if rows != [] {
      assert rows[0] in rows;
      QuietView(rows[1..], a, b);
    }
  }
}
