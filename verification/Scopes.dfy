/**
 * Catalog relations of a query (view/sql.rs, `RelationVisitor`): a visitor with a stack of scopes
 * and queues of pending CTEs computes the free relation names of the query.
 */
module Scopes {

  type Name = seq<string>

  /** A query, visited in the order WITH, then body. A body combines relations, subqueries and the rest. */
  datatype Query = Query(recursive: bool, ctes: Ctes, body: Body)
  datatype Ctes = NoCte | Cte(name: string, query: Query, rest: Ctes)
  datatype Body = Relation(relation: Name) | Subquery(query: Query) | Both(left: Body, right: Body) | Other(text: string)

  datatype QueryScope = QueryScope(visible: set<string>, pending: seq<string>)

  function CteNames(ctes: Ctes): seq<string> {
    match ctes
    case NoCte => []
    case Cte(name, _, rest) => [name] + CteNames(rest)
  }

  function Elements(s: seq<string>): set<string> { set x | x in s }

  // ----- free relation names, by recursion over the query -----

  /** A name is free unless it is unqualified and names a CTE in scope. */
  predicate IsFree(name: Name, visible: set<string>) { !(|name| == 1 && name[0] in visible) }

  /** `WITH RECURSIVE` names are in scope in all of its CTEs, other names only after their CTE. */
  function FreeOf(q: Query, visible: set<string>): seq<Name>
    decreases q
  {
    var all := visible + Elements(CteNames(q.ctes));
    (if q.recursive then FreeOfAll(q.ctes, all) else FreeInOrder(q.ctes, visible)) + FreeOfBody(q.body, all)
  }

  function FreeOfAll(ctes: Ctes, visible: set<string>): seq<Name>
    decreases ctes
  {
    match ctes
    case NoCte => []
    case Cte(_, q, rest) => FreeOf(q, visible) + FreeOfAll(rest, visible)
  }

  function FreeInOrder(ctes: Ctes, visible: set<string>): seq<Name>
    decreases ctes
  {
    match ctes
    case NoCte => []
    case Cte(name, q, rest) => FreeOf(q, visible) + FreeInOrder(rest, visible + {name})
  }

  function FreeOfBody(b: Body, visible: set<string>): seq<Name>
    decreases b
  {
    match b
    case Relation(name) => if IsFree(name, visible) then [name] else []
    case Subquery(q) => FreeOf(q, visible)
    case Both(left, right) => FreeOfBody(left, visible) + FreeOfBody(right, visible)
    case Other(_) => []
  }

  /** When all names are in scope already, adding them one by one changes nothing. */
  lemma {:induction false} InOrderIsAll(ctes: Ctes, visible: set<string>)
    requires Elements(CteNames(ctes)) <= visible
    ensures FreeInOrder(ctes, visible) == FreeOfAll(ctes, visible)
    decreases ctes
  {
    match ctes
    case NoCte =>
    case Cte(name, q, rest) =>
      var names := CteNames(ctes);
      assert name == names[0] && name in Elements(names);
      assert visible + {name} == visible;
      forall x | x in Elements(CteNames(rest)) ensures x in visible {
        assert x in names;
      }
      InOrderIsAll(rest, visible);
  }

  // ----- the visitor -----

  function StartScope(q: Query, visible: set<string>): set<string> {
    if q.recursive then visible + Elements(CteNames(q.ctes)) else visible
  }

  lemma ScopeGrows(name: string, rest: Ctes, q: Query, visible: set<string>)
    ensures visible + {name} + Elements(CteNames(rest)) == visible + Elements(CteNames(Cte(name, q, rest)))
  {
    assert Elements([name] + CteNames(rest)) == {name} + Elements(CteNames(rest));
  }

  lemma NothingAdded(visible: set<string>)
    ensures visible + Elements([]) == visible
  {
  }

  lemma PoppedInto(outer: seq<QueryScope>, visible: set<string>, name: string, rest: seq<string>)
    ensures Popped(outer + [QueryScope(visible, [name] + rest)]) == outer + [QueryScope(visible + {name}, rest)]
  {
    assert ([name] + rest)[1..] == rest;
  }

  class RelationVisitor {
    var relations: seq<Name>
    var scopes: seq<QueryScope>

    constructor ()
      ensures relations == [] && scopes == []
    {
      relations, scopes := [], [];
    }

    ghost function Visible(): set<string>
      reads this
    {
      if scopes == [] then {} else scopes[|scopes| - 1].visible
    }

    /** No CTE of the innermost query is still to be visited. */
    ghost predicate InBody()
      reads this
    {
      scopes == [] || scopes[|scopes| - 1].pending == []
    }

    method PreVisitQuery(q: Query)
      modifies this
      ensures relations == old(relations)
      ensures scopes == old(scopes) + [QueryScope(StartScope(q, old(Visible())), CteNames(q.ctes))]
    {
      var visible := if scopes == [] then {} else scopes[|scopes| - 1].visible;
      var pending := CteNames(q.ctes);
      if q.recursive {
        visible := visible + (set x | x in pending);
      }
      scopes := scopes + [QueryScope(visible, pending)];
    }

    method PostVisitQuery()
      requires scopes != []
      modifies this
      ensures relations == old(relations)
      ensures scopes == Popped(old(scopes)[..|old(scopes)| - 1])
    {
      scopes := scopes[..|scopes| - 1];
      if scopes != [] {
        var parent := scopes[|scopes| - 1];
        if parent.pending != [] {
          var cte := parent.pending[0];
          scopes := scopes[|scopes| - 1 := QueryScope(parent.visible + {cte}, parent.pending[1..])];
        }
      }
    }

    method PreVisitRelation(name: Name)
      modifies this
      ensures scopes == old(scopes)
      ensures relations == old(relations) + (if |name| == 1 && name[0] in old(Visible()) then [] else [name])
    {
      if |name| == 1 && scopes != [] && name[0] in scopes[|scopes| - 1].visible {
        return;
      }
      relations := relations + [name];
    }

    /** The traversal of a query: before it, its WITH clause, its body, after it. */
    method VisitQuery(q: Query)
      modifies this
      ensures relations == old(relations) + FreeOf(q, old(Visible()))
      ensures scopes == Popped(old(scopes))
      decreases q
    {
      ghost var before, visible := scopes, Visible();
      ghost var all := visible + Elements(CteNames(q.ctes));
      PreVisitQuery(q);
      ghost var start := Visible();
      VisitCtes(q.ctes, before, start);
      if q.recursive {
        InOrderIsAll(q.ctes, all);
      }
      assert start + Elements(CteNames(q.ctes)) == all;
      ghost var withWith := relations;
      VisitBody(q.body);
      assert relations == withWith + FreeOfBody(q.body, all);
      assert scopes[..|scopes| - 1] == before;
      PostVisitQuery();
    }

    method VisitCtes(ctes: Ctes, ghost outer: seq<QueryScope>, ghost visible: set<string>)
      requires scopes == outer + [QueryScope(visible, CteNames(ctes))]
      modifies this
      ensures relations == old(relations) + FreeInOrder(ctes, visible)
      ensures scopes == outer + [QueryScope(visible + Elements(CteNames(ctes)), [])]
      decreases ctes
    {
      hide FreeOf, Elements;
      match ctes
      case NoCte => NothingAdded(visible);
      case Cte(name, q, rest) =>
        PoppedInto(outer, visible, name, CteNames(rest));
        VisitQuery(q);
        ghost var before := relations;
        VisitCtes(rest, outer, visible + {name});
        ScopeGrows(name, rest, q, visible);
        assert before + FreeInOrder(rest, visible + {name}) == old(relations) + FreeInOrder(ctes, visible);
    }

    method VisitBody(b: Body)
      requires InBody()
      modifies this
      ensures relations == old(relations) + FreeOfBody(b, old(Visible()))
      ensures scopes == old(scopes)
      decreases b
    {
      match b
      case Relation(name) => PreVisitRelation(name);
      case Subquery(q) => VisitQuery(q);
      case Both(left, right) =>
        VisitBody(left);
        VisitBody(right);
      case Other(_) =>
    }
  }

  /** After a query its CTE, if it was one, comes into scope in the enclosing query. */
  function Popped(scopes: seq<QueryScope>): seq<QueryScope> {
    if scopes == [] || scopes[|scopes| - 1].pending == [] then scopes
    else
      var parent := scopes[|scopes| - 1];
      scopes[|scopes| - 1 := QueryScope(parent.visible + {parent.pending[0]}, parent.pending[1..])]
  }

  /** The relations of a statement: the free names of its query. */
  method CollectRelations(q: Query) returns (relations: seq<Name>)
    ensures relations == FreeOf(q, {})
  {
    var visitor := new RelationVisitor();
    visitor.VisitQuery(q);
    relations := visitor.relations;
  }

  // ----- what the list is for -----

  /** How the parts of a body combine, what a catalog relation holds, and how often recursion unfolds. */
  datatype Semantics<!V> = Semantics(table: Name -> V, both: (V, V) -> V, other: string -> V, empty: V, rounds: nat)

  /** The value of a query where the CTEs in `env` are in scope. */
  function Eval<V>(sem: Semantics<V>, env: map<string, V>, q: Query): V
    decreases q
  {
    EvalBody(sem, if q.recursive then Unfold(sem, env, q.ctes, sem.rounds) else EvalInOrder(sem, env, q.ctes), q.body)
  }

  function EvalInOrder<V>(sem: Semantics<V>, env: map<string, V>, ctes: Ctes): map<string, V>
    decreases ctes
  {
    match ctes
    case NoCte => env
    case Cte(name, q, rest) => EvalInOrder(sem, env[name := Eval(sem, env, q)], rest)
  }

  /** All CTEs of a `WITH RECURSIVE` together, computed a number of times from empty relations. */
  function Unfold<V>(sem: Semantics<V>, env: map<string, V>, ctes: Ctes, rounds: nat): map<string, V>
    decreases ctes, rounds, 1
  {
    if rounds == 0 then Emptied(sem, env, ctes)
    else EvalTogether(sem, Unfold(sem, env, ctes, rounds - 1), env, ctes)
  }

  function Emptied<V>(sem: Semantics<V>, env: map<string, V>, ctes: Ctes): map<string, V>
    decreases ctes, 0, 0
  {
    match ctes
    case NoCte => env
    case Cte(name, _, rest) => Emptied(sem, env[name := sem.empty], rest)
  }

  function EvalTogether<V>(sem: Semantics<V>, before: map<string, V>, env: map<string, V>, ctes: Ctes): map<string, V>
    decreases ctes, 0, 0
  {
    match ctes
    case NoCte => env
    case Cte(name, q, rest) => EvalTogether(sem, before, env[name := Eval(sem, before, q)], rest)
  }

  function EvalBody<V>(sem: Semantics<V>, env: map<string, V>, b: Body): V
    decreases b
  {
    match b
    case Relation(name) => if |name| == 1 && name[0] in env then env[name[0]] else sem.table(name)
    case Subquery(q) => Eval(sem, env, q)
    case Both(left, right) => sem.both(EvalBody(sem, env, left), EvalBody(sem, env, right))
    case Other(text) => sem.other(text)
  }

  /** Two catalogs that agree on the listed names. */
  ghost predicate AgreeOn<V>(a: Semantics<V>, b: Semantics<V>, names: seq<Name>) {
    && a.both == b.both && a.other == b.other && a.empty == b.empty && a.rounds == b.rounds
    && forall n :: n in names ==> a.table(n) == b.table(n)
  }

  /** The listed relations are all that a query depends on. */
  lemma {:induction false} DependsOnFreeOnly<V>(a: Semantics<V>, b: Semantics<V>, env: map<string, V>, q: Query)
    requires AgreeOn(a, b, FreeOf(q, env.Keys))
    ensures Eval(a, env, q) == Eval(b, env, q)
    decreases q
  {
    var all := env.Keys + Elements(CteNames(q.ctes));
    if q.recursive {
      UnfoldAgrees(a, b, env, q.ctes, a.rounds);
      UnfoldKeys(a, env, q.ctes, a.rounds);
      BodyDependsOnFreeOnly(a, b, Unfold(a, env, q.ctes, a.rounds), q.body);
    } else {
      InOrderAgrees(a, b, env, q.ctes);
      InOrderKeys(a, env, q.ctes);
      BodyDependsOnFreeOnly(a, b, EvalInOrder(a, env, q.ctes), q.body);
    }
  }

  lemma {:induction false} InOrderKeys<V>(a: Semantics<V>, env: map<string, V>, ctes: Ctes)
    ensures EvalInOrder(a, env, ctes).Keys == env.Keys + Elements(CteNames(ctes))
    decreases ctes
  {
    match ctes
    case NoCte =>
    case Cte(name, q, rest) =>
      InOrderKeys(a, env[name := Eval(a, env, q)], rest);
      assert Elements(CteNames(ctes)) == {name} + Elements(CteNames(rest));
  }

  lemma {:induction false} InOrderAgrees<V>(a: Semantics<V>, b: Semantics<V>, env: map<string, V>, ctes: Ctes)
    requires AgreeOn(a, b, FreeInOrder(ctes, env.Keys))
    ensures EvalInOrder(a, env, ctes) == EvalInOrder(b, env, ctes)
    decreases ctes
  {
    match ctes
    case NoCte =>
    case Cte(name, q, rest) =>
      DependsOnFreeOnly(a, b, env, q);
      var next := env[name := Eval(a, env, q)];
      assert next.Keys == env.Keys + {name};
      InOrderAgrees(a, b, next, rest);
  }

  lemma {:induction false} UnfoldKeys<V>(a: Semantics<V>, env: map<string, V>, ctes: Ctes, rounds: nat)
    ensures Unfold(a, env, ctes, rounds).Keys == env.Keys + Elements(CteNames(ctes))
    decreases rounds
  {
    if rounds == 0 {
      EmptiedKeys(a, env, ctes);
    } else {
      UnfoldKeys(a, env, ctes, rounds - 1);
      TogetherKeys(a, Unfold(a, env, ctes, rounds - 1), env, ctes);
    }
  }

  lemma {:induction false} EmptiedKeys<V>(a: Semantics<V>, env: map<string, V>, ctes: Ctes)
    ensures Emptied(a, env, ctes).Keys == env.Keys + Elements(CteNames(ctes))
    decreases ctes
  {
    match ctes
    case NoCte =>
    case Cte(name, q, rest) =>
      EmptiedKeys(a, env[name := a.empty], rest);
      assert Elements(CteNames(ctes)) == {name} + Elements(CteNames(rest));
  }

  lemma {:induction false} TogetherKeys<V>(a: Semantics<V>, before: map<string, V>, env: map<string, V>, ctes: Ctes)
    ensures EvalTogether(a, before, env, ctes).Keys == env.Keys + Elements(CteNames(ctes))
    decreases ctes
  {
    match ctes
    case NoCte =>
    case Cte(name, q, rest) =>
      TogetherKeys(a, before, env[name := Eval(a, before, q)], rest);
      assert Elements(CteNames(ctes)) == {name} + Elements(CteNames(rest));
  }

  lemma {:induction false} EmptiedAgrees<V>(a: Semantics<V>, b: Semantics<V>, env: map<string, V>, ctes: Ctes)
    requires a.empty == b.empty
    ensures Emptied(a, env, ctes) == Emptied(b, env, ctes)
    decreases ctes
  {
    match ctes
    case NoCte =>
    case Cte(name, _, rest) => EmptiedAgrees(a, b, env[name := a.empty], rest);
  }

  lemma {:induction false} UnfoldAgrees<V>(a: Semantics<V>, b: Semantics<V>, env: map<string, V>, ctes: Ctes, rounds: nat)
    requires AgreeOn(a, b, FreeOfAll(ctes, env.Keys + Elements(CteNames(ctes))))
    ensures Unfold(a, env, ctes, rounds) == Unfold(b, env, ctes, rounds)
    decreases ctes, rounds, 1
  {
    if rounds == 0 {
      EmptiedAgrees(a, b, env, ctes);
    } else {
      UnfoldAgrees(a, b, env, ctes, rounds - 1);
      UnfoldKeys(a, env, ctes, rounds - 1);
      TogetherAgrees(a, b, Unfold(a, env, ctes, rounds - 1), env, ctes);
    }
  }

  lemma {:induction false} TogetherAgrees<V>(a: Semantics<V>, b: Semantics<V>, before: map<string, V>, env: map<string, V>, ctes: Ctes)
    requires AgreeOn(a, b, FreeOfAll(ctes, before.Keys))
    ensures EvalTogether(a, before, env, ctes) == EvalTogether(b, before, env, ctes)
    decreases ctes, 0, 0
  {
    match ctes
    case NoCte =>
    case Cte(name, q, rest) =>
      DependsOnFreeOnly(a, b, before, q);
      TogetherAgrees(a, b, before, env[name := Eval(a, before, q)], rest);
  }

  lemma {:induction false} BodyDependsOnFreeOnly<V>(a: Semantics<V>, b: Semantics<V>, env: map<string, V>, body: Body)
    requires AgreeOn(a, b, FreeOfBody(body, env.Keys))
    ensures EvalBody(a, env, body) == EvalBody(b, env, body)
    decreases body
  {
    match body
    case Relation(name) => if IsFree(name, env.Keys) { assert name in FreeOfBody(body, env.Keys); }
    case Subquery(q) => DependsOnFreeOnly(a, b, env, q);
    case Both(left, right) =>
      BodyDependsOnFreeOnly(a, b, env, left);
      BodyDependsOnFreeOnly(a, b, env, right);
    case Other(_) =>
  }

  // ----- nothing is listed in vain -----

  /**
   * Every relation of the query resolves: an unqualified name to a CTE in scope, any other name, or
   * one that no CTE in scope has, to a relation of the catalog.
   */
  predicate Resolves(q: Query, scope: set<string>, catalog: set<Name>)
    decreases q
  {
    var all := scope + Elements(CteNames(q.ctes));
    (if q.recursive then CtesResolve(q.ctes, all, false, catalog) else CtesResolve(q.ctes, scope, true, catalog))
    && BodyResolves(q.body, all, catalog)
  }

  /** `growing` says that a CTE comes into scope after its own query. */
  predicate CtesResolve(ctes: Ctes, scope: set<string>, growing: bool, catalog: set<Name>)
    decreases ctes
  {
    match ctes
    case NoCte => true
    case Cte(name, q, rest) =>
      Resolves(q, scope, catalog) && CtesResolve(rest, if growing then scope + {name} else scope, growing, catalog)
  }

  predicate BodyResolves(b: Body, scope: set<string>, catalog: set<Name>)
    decreases b
  {
    match b
    case Relation(name) => (|name| == 1 && name[0] in scope) || name in catalog
    case Subquery(q) => Resolves(q, scope, catalog)
    case Both(left, right) => BodyResolves(left, scope, catalog) && BodyResolves(right, scope, catalog)
    case Other(_) => true
  }

  predicate AllIn(names: seq<Name>, catalog: set<Name>) { forall n :: n in names ==> n in catalog }

  lemma AllInBoth(a: seq<Name>, b: seq<Name>, catalog: set<Name>)
    ensures AllIn(a + b, catalog) <==> AllIn(a, catalog) && AllIn(b, catalog)
  {
    if AllIn(a + b, catalog) {
      assert forall n :: n in a || n in b ==> n in a + b;
    }
  }

  /** A catalog resolves a query exactly if it has every collected relation: none is missing, none is there for nothing. */
  lemma {:induction false} ResolvesIff(q: Query, scope: set<string>, catalog: set<Name>)
    ensures Resolves(q, scope, catalog) <==> AllIn(FreeOf(q, scope), catalog)
    decreases q
  {
    hide AllIn;
    var all := scope + Elements(CteNames(q.ctes));
    BodyResolvesIff(q.body, all, catalog);
    if q.recursive {
      AllResolveIff(q.ctes, all, catalog);
      AllInBoth(FreeOfAll(q.ctes, all), FreeOfBody(q.body, all), catalog);
    } else {
      InOrderResolveIff(q.ctes, scope, catalog);
      AllInBoth(FreeInOrder(q.ctes, scope), FreeOfBody(q.body, all), catalog);
    }
  }

  lemma {:induction false} AllResolveIff(ctes: Ctes, scope: set<string>, catalog: set<Name>)
    ensures CtesResolve(ctes, scope, false, catalog) <==> AllIn(FreeOfAll(ctes, scope), catalog)
    decreases ctes
  {
    match ctes
    case NoCte =>
    case Cte(_, q, rest) =>
      ResolvesIff(q, scope, catalog);
      AllResolveIff(rest, scope, catalog);
      AllInBoth(FreeOf(q, scope), FreeOfAll(rest, scope), catalog);
  }

  lemma {:induction false} InOrderResolveIff(ctes: Ctes, scope: set<string>, catalog: set<Name>)
    ensures CtesResolve(ctes, scope, true, catalog) <==> AllIn(FreeInOrder(ctes, scope), catalog)
    decreases ctes
  {
    match ctes
    case NoCte =>
    case Cte(name, q, rest) =>
      ResolvesIff(q, scope, catalog);
      InOrderResolveIff(rest, scope + {name}, catalog);
      AllInBoth(FreeOf(q, scope), FreeInOrder(rest, scope + {name}), catalog);
  }

  lemma {:induction false} BodyResolvesIff(b: Body, scope: set<string>, catalog: set<Name>)
    ensures BodyResolves(b, scope, catalog) <==> AllIn(FreeOfBody(b, scope), catalog)
    decreases b
  {
    match b
    case Relation(_) =>
    case Subquery(q) => ResolvesIff(q, scope, catalog);
    case Both(left, right) =>
      BodyResolvesIff(left, scope, catalog);
      BodyResolvesIff(right, scope, catalog);
      AllInBoth(FreeOfBody(left, scope), FreeOfBody(right, scope), catalog);
    case Other(_) =>
  }

  /** The unqualified name of a CTE in scope is never collected, however deep in the query it stands. */
  lemma InScopeIsNeverCollected(q: Query, scope: set<string>, name: string)
    requires name in scope
    ensures [name] !in FreeOf(q, scope)
  {
    var names := FreeOf(q, scope);
    var catalog := set n | n in names;
    ResolvesIff(q, scope, catalog);
    ResolvesWithout(q, scope, catalog, name);
    ResolvesIff(q, scope, catalog - {[name]});
  }

  lemma {:induction false} ResolvesWithout(q: Query, scope: set<string>, catalog: set<Name>, name: string)
    requires name in scope && Resolves(q, scope, catalog)
    ensures Resolves(q, scope, catalog - {[name]})
    decreases q
  {
    var all := scope + Elements(CteNames(q.ctes));
    CtesResolveWithout(q.ctes, if q.recursive then all else scope, !q.recursive, catalog, name);
    BodyResolvesWithout(q.body, all, catalog, name);
  }

  lemma {:induction false} CtesResolveWithout(ctes: Ctes, scope: set<string>, growing: bool, catalog: set<Name>, name: string)
    requires name in scope && CtesResolve(ctes, scope, growing, catalog)
    ensures CtesResolve(ctes, scope, growing, catalog - {[name]})
    decreases ctes
  {
    match ctes
    case NoCte =>
    case Cte(own, q, rest) =>
      ResolvesWithout(q, scope, catalog, name);
      CtesResolveWithout(rest, if growing then scope + {own} else scope, growing, catalog, name);
  }

  lemma {:induction false} BodyResolvesWithout(b: Body, scope: set<string>, catalog: set<Name>, name: string)
    requires name in scope && BodyResolves(b, scope, catalog)
    ensures BodyResolves(b, scope, catalog - {[name]})
    decreases b
  {
    match b
    case Relation(_) =>
    case Subquery(q) => ResolvesWithout(q, scope, catalog, name);
    case Both(left, right) =>
      BodyResolvesWithout(left, scope, catalog, name);
      BodyResolvesWithout(right, scope, catalog, name);
    case Other(_) =>
  }
}
