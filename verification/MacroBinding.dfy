/**
 * Resolving a macro call, said of positions and names: which macro a name finds, which argument
 * meets which parameter, and when a call is accepted (view/sql.rs).
 */
module MacroBinding {
  import opened Macros

  // ----- a call's arguments by position -----

  /** One argument of a call; `Starred` is the argument that is not an expression. */
  datatype Argument<T> = Positional(value: T) | ByName(name: string, value: T) | Starred

  function List<T>(args: Args<T>): seq<Argument<T>> {
    match args
    case End => []
    case Unnamed(value, rest) => [Positional(value)] + List(rest)
    case Named(name, value, rest) => [ByName(name, value)] + List(rest)
    case Star(rest) => [Starred] + List(rest)
  }

  /** The lower-case name of the parameter that the argument at a position is for. */
  function Target<T>(parameters: seq<Parameter>, argument: Argument<T>, position: nat): string {
    match argument
    case Positional(_) => if position < |parameters| then Lower(parameters[position].name) else ""
    case ByName(name, _) => Lower(name)
    case Starred => ""
  }

  /** The same for argument `i` of a list that starts at position `index`. */
  function Key<T>(parameters: seq<Parameter>, arguments: seq<Argument<T>>, index: nat, i: nat): string
    requires i < |arguments|
  {
    Target(parameters, arguments[i], index + i)
  }

  predicate Known(parameters: seq<Parameter>, name: string) { exists p :: p in parameters && Lower(p.name) == Lower(name) }

  function ParameterKeys(parameters: seq<Parameter>): set<string> { set p | p in parameters :: Lower(p.name) }

  /** Positional arguments come first and have a parameter each, named ones name a parameter, none is given twice. */
  ghost predicate ArgumentsFit<T>(parameters: seq<Parameter>, arguments: seq<Argument<T>>, index: nat) {
    && (forall i :: 0 <= i < |arguments| ==> !arguments[i].Starred?)
    && (forall i :: 0 <= i < |arguments| && arguments[i].Positional? ==> index + i < |parameters|)
    && (forall i :: 0 <= i < |arguments| && arguments[i].ByName? ==> Known(parameters, arguments[i].name))
    && (forall i, j :: 0 <= i < j < |arguments| && arguments[i].ByName? ==> arguments[j].ByName?)
    && (forall i, j :: 0 <= i < j < |arguments| ==>
          Key(parameters, arguments, index, i) != Key(parameters, arguments, index, j))
  }

  ghost predicate IsGiven<T>(parameters: seq<Parameter>, arguments: seq<Argument<T>>, index: nat, key: string) {
    exists i :: 0 <= i < |arguments| && Key(parameters, arguments, index, i) == key
  }

  /** A name is the parameter's own if no parameter before it has it. */
  predicate FirstOfName(parameters: seq<Parameter>, k: nat)
    requires k < |parameters|
  {
    forall j :: 0 <= j < k ==> Lower(parameters[j].name) != Lower(parameters[k].name)
  }

  ghost predicate Accepts<T>(parameters: seq<Parameter>, arguments: seq<Argument<T>>) {
    && ArgumentsFit(parameters, arguments, 0)
    && forall k :: 0 <= k < |parameters| && FirstOfName(parameters, k) && !IsGiven(parameters, arguments, 0, Lower(parameters[k].name)) ==>
         parameters[k].default_.Some?
  }

  // ----- the loop over the arguments -----

  /** What the loop has from `arguments` on top of `bound`. */
  ghost predicate Given<T>(parameters: seq<Parameter>, arguments: seq<Argument<T>>, index: nat, bound: map<string, T>, given: map<string, T>) {
    && (forall k :: k in given <==> k in bound || IsGiven(parameters, arguments, index, k))
    && (forall k :: k in bound ==> k in given && given[k] == bound[k])
    && (forall i :: 0 <= i < |arguments| && !arguments[i].Starred? ==>
          Key(parameters, arguments, index, i) in given && given[Key(parameters, arguments, index, i)] == arguments[i].value)
  }

  ghost predicate FitsFrom<T>(parameters: seq<Parameter>, arguments: seq<Argument<T>>, index: nat, sawNamed: bool, bound: map<string, T>) {
    && ArgumentsFit(parameters, arguments, index)
    && (sawNamed ==> forall i :: 0 <= i < |arguments| ==> arguments[i].ByName?)
    && (forall i :: 0 <= i < |arguments| ==> Key(parameters, arguments, index, i) !in bound)
  }

  /** The positions of a list with one more argument in front. */
  lemma Shifted<T>(parameters: seq<Parameter>, head: Argument<T>, tail: seq<Argument<T>>, index: nat)
    ensures ([head] + tail)[0] == head && Key(parameters, [head] + tail, index, 0) == Target(parameters, head, index)
    ensures forall i :: 0 <= i < |tail| ==>
              ([head] + tail)[i + 1] == tail[i]
              && Key(parameters, [head] + tail, index, i + 1) == Key(parameters, tail, index + 1, i)
    ensures forall i :: 0 < i < |tail| + 1 ==>
              ([head] + tail)[i] == tail[i - 1]
              && Key(parameters, [head] + tail, index, i) == Key(parameters, tail, index + 1, i - 1)
  {
    hide Target;
    forall i | 0 < i < |tail| + 1
      ensures ([head] + tail)[i] == tail[i - 1]
      ensures Key(parameters, [head] + tail, index, i) == Key(parameters, tail, index + 1, i - 1)
    {
      assert index + i == index + 1 + (i - 1);
    }
    forall i | 0 <= i < |tail|
      ensures ([head] + tail)[i + 1] == tail[i]
      ensures Key(parameters, [head] + tail, index, i + 1) == Key(parameters, tail, index + 1, i)
    {
      assert index + (i + 1) == index + 1 + i;
    }
  }

  lemma ArgumentsFitBackward<T>(parameters: seq<Parameter>, head: Argument<T>, tail: seq<Argument<T>>, index: nat)
    requires ArgumentsFit(parameters, [head] + tail, index)
    ensures ArgumentsFit(parameters, tail, index + 1)
  {
    hide Target, Known, Key;
    var all := [head] + tail;
    var next := index + 1;
    Shifted(parameters, head, tail, index);
    forall i | 0 <= i < |tail|
      ensures !tail[i].Starred? && (tail[i].Positional? ==> next + i < |parameters|)
      ensures tail[i].ByName? ==> Known(parameters, tail[i].name)
    {
      assert all[i + 1] == tail[i];
    }
    forall i, j | 0 <= i < j < |tail|
      ensures tail[i].ByName? ==> tail[j].ByName?
      ensures Key(parameters, tail, next, i) != Key(parameters, tail, next, j)
    {
      assert all[i + 1] == tail[i] && all[j + 1] == tail[j];
      assert Key(parameters, all, index, i + 1) != Key(parameters, all, index, j + 1);
    }
  }

  lemma FitsBackward<T>(parameters: seq<Parameter>, head: Argument<T>, tail: seq<Argument<T>>, index: nat, sawNamed: bool, bound: map<string, T>)
    requires !head.Starred? && FitsFrom(parameters, [head] + tail, index, sawNamed, bound)
    ensures head.Positional? ==> !sawNamed && index < |parameters|
    ensures head.ByName? ==> Known(parameters, head.name)
    ensures Target(parameters, head, index) !in bound
    ensures FitsFrom(parameters, tail, index + 1, sawNamed || head.ByName?, bound[Target(parameters, head, index) := head.value])
  {
    hide Target, Known, Key;
    var all, key := [head] + tail, Target(parameters, head, index);
    var next := index + 1;
    Shifted(parameters, head, tail, index);
    ArgumentsFitBackward(parameters, head, tail, index);
    assert all[0] == head && Key(parameters, all, index, 0) == key;
    forall i | 0 <= i < |tail|
      ensures head.ByName? || sawNamed ==> tail[i].ByName?
      ensures Key(parameters, tail, next, i) !in bound[key := head.value]
    {
      assert all[i + 1] == tail[i] && Key(parameters, all, index, 0) != Key(parameters, all, index, i + 1);
    }
  }

  lemma FitsForward<T>(parameters: seq<Parameter>, head: Argument<T>, tail: seq<Argument<T>>, index: nat, sawNamed: bool, bound: map<string, T>)
    requires !head.Starred? && (head.Positional? ==> !sawNamed && index < |parameters|)
    requires head.ByName? ==> Known(parameters, head.name)
    requires Target(parameters, head, index) !in bound
    requires FitsFrom(parameters, tail, index + 1, sawNamed || head.ByName?, bound[Target(parameters, head, index) := head.value])
    ensures FitsFrom(parameters, [head] + tail, index, sawNamed, bound)
  {
    hide Target, Known, Key;
    var all := [head] + tail;
    var next := index + 1;
    Shifted(parameters, head, tail, index);
    forall i | 0 <= i < |all|
      ensures !all[i].Starred? && (all[i].Positional? ==> index + i < |parameters|)
      ensures all[i].ByName? ==> Known(parameters, all[i].name)
      ensures sawNamed ==> all[i].ByName?
      ensures Key(parameters, all, index, i) !in bound
    {
      if i > 0 {
        assert all[i] == tail[i - 1] && Key(parameters, tail, next, i - 1) !in bound;
      }
    }
    forall i, j | 0 <= i < j < |all|
      ensures all[i].ByName? ==> all[j].ByName?
      ensures Key(parameters, all, index, i) != Key(parameters, all, index, j)
    {
      assert all[j] == tail[j - 1] && Key(parameters, all, index, j) == Key(parameters, tail, next, j - 1);
      if i > 0 {
        assert all[i] == tail[i - 1] && Key(parameters, all, index, i) == Key(parameters, tail, next, i - 1);
        assert i - 1 < j - 1;
      }
    }
  }

  lemma GivenStep<T>(parameters: seq<Parameter>, head: Argument<T>, tail: seq<Argument<T>>, index: nat, bound: map<string, T>, given: map<string, T>)
    requires !head.Starred? && Target(parameters, head, index) !in bound
    requires Given(parameters, tail, index + 1, bound[Target(parameters, head, index) := head.value], given)
    ensures Given(parameters, [head] + tail, index, bound, given)
  {
    hide Target, Key;
    var all, key := [head] + tail, Target(parameters, head, index);
    var next := index + 1;
    Shifted(parameters, head, tail, index);
    assert given[key] == head.value;
    forall k ensures k in given <==> k in bound || IsGiven(parameters, all, index, k) {
      if IsGiven(parameters, tail, next, k) {
        var i :| 0 <= i < |tail| && Key(parameters, tail, next, i) == k;
        assert Key(parameters, all, index, i + 1) == k;
      }
      if IsGiven(parameters, all, index, k) {
        var i :| 0 <= i < |all| && Key(parameters, all, index, i) == k;
        if i > 0 {
          assert Key(parameters, tail, next, i - 1) == k;
        }
      }
      if k == key {
        assert Key(parameters, all, index, 0) == k;
      }
    }
    forall i | 0 <= i < |all| && !all[i].Starred?
      ensures Key(parameters, all, index, i) in given && given[Key(parameters, all, index, i)] == all[i].value
    {
      if i > 0 {
        assert all[i] == tail[i - 1] && Key(parameters, all, index, i) == Key(parameters, tail, next, i - 1);
      }
    }
  }

  lemma {:induction false} GivenIff<T>(parameters: seq<Parameter>, args: Args<T>, index: nat, sawNamed: bool, bound: map<string, T>)
    ensures BindGiven(parameters, args, index, sawNamed, bound).Some? <==> FitsFrom(parameters, List(args), index, sawNamed, bound)
    ensures BindGiven(parameters, args, index, sawNamed, bound).Some? ==>
              Given(parameters, List(args), index, bound, BindGiven(parameters, args, index, sawNamed, bound).value)
    decreases args, 0
  {
    hide FitsFrom, Given, ArgumentsFit, IsGiven;
    match args
    case End => NothingGiven(parameters, index, sawNamed, bound);
    case Star(rest) => StarUnfit(parameters, List(rest), index, sawNamed, bound);
    case Unnamed(value, rest) => Bound(parameters, Positional(value), rest, index, sawNamed, bound);
    case Named(name, value, rest) =>
      var found := FindParameter(parameters, name);
      if found.Some? {
        assert Known(parameters, name);
      }
      Bound(parameters, ByName(name, value), rest, index, sawNamed, bound);
  }

  /** The step for an argument that is an expression. */
  lemma {:induction false} Bound<T>(parameters: seq<Parameter>, head: Argument<T>, rest: Args<T>, index: nat, sawNamed: bool, bound: map<string, T>)
    requires !head.Starred?
    ensures
      var next := bound[Target(parameters, head, index) := head.value];
      var given := BindGiven(parameters, rest, index + 1, sawNamed || head.ByName?, next);
      var fits := FitsFrom(parameters, [head] + List(rest), index, sawNamed, bound);
      && (fits <==> && (head.Positional? ==> !sawNamed && index < |parameters|)
                    && (head.ByName? ==> Known(parameters, head.name))
                    && Target(parameters, head, index) !in bound && given.Some?)
      && (fits ==> Given(parameters, [head] + List(rest), index, bound, given.value))
    decreases rest, 1
  {
    hide FitsFrom, Given, ArgumentsFit, IsGiven;
    var next := bound[Target(parameters, head, index) := head.value];
    GivenIff(parameters, rest, index + 1, sawNamed || head.ByName?, next);
    if FitsFrom(parameters, [head] + List(rest), index, sawNamed, bound) {
      FitsBackward(parameters, head, List(rest), index, sawNamed, bound);
    }
    var given := BindGiven(parameters, rest, index + 1, sawNamed || head.ByName?, next);
    if given.Some? && Target(parameters, head, index) !in bound && (head.Positional? ==> !sawNamed && index < |parameters|)
       && (head.ByName? ==> Known(parameters, head.name)) {
      FitsForward(parameters, head, List(rest), index, sawNamed, bound);
      GivenStep(parameters, head, List(rest), index, bound, given.value);
    }
  }

  lemma NothingGiven<T>(parameters: seq<Parameter>, index: nat, sawNamed: bool, bound: map<string, T>)
    ensures FitsFrom(parameters, [], index, sawNamed, bound) && Given(parameters, [], index, bound, bound)
  {
  }

  lemma StarUnfit<T>(parameters: seq<Parameter>, tail: seq<Argument<T>>, index: nat, sawNamed: bool, bound: map<string, T>)
    ensures !FitsFrom(parameters, [Starred] + tail, index, sawNamed, bound)
  {
    assert ([Starred] + tail)[0].Starred?;
  }

  // ----- the loop over the parameters -----

  /** Parameter `k` is the first of its name and nothing was given for it. */
  predicate NeedsDefault(parameters: seq<Parameter>, given: set<string>, k: nat) {
    k < |parameters| && FirstOfName(parameters, k) && Lower(parameters[k].name) !in given
  }

  ghost predicate Defaulted<T>(parameters: seq<Parameter>, literal: string -> T, bound: map<string, T>, all: map<string, T>) {
    && all.Keys == bound.Keys + ParameterKeys(parameters)
    && (forall k :: k in bound ==> all[k] == bound[k])
    && (forall k: nat :: NeedsDefault(parameters, bound.Keys, k) ==>
          parameters[k].default_.Some? && Lower(parameters[k].name) in all
          && all[Lower(parameters[k].name)] == literal(parameters[k].default_.value))
  }

  ghost predicate DefaultsFit(parameters: seq<Parameter>, given: set<string>) {
    forall k: nat :: NeedsDefault(parameters, given, k) ==> parameters[k].default_.Some?
  }

  lemma NeedsShifted(parameters: seq<Parameter>, given: set<string>, k: nat)
    requires parameters != []
    ensures NeedsDefault(parameters, given, 0) <==> Lower(parameters[0].name) !in given
    ensures NeedsDefault(parameters, given, k + 1)
       <==> NeedsDefault(parameters[1..], given + {Lower(parameters[0].name)}, k)
  {
    hide Lower;
    var tail := parameters[1..];
    if k < |tail| {
      assert forall j :: 0 <= j < k ==> tail[j] == parameters[j + 1];
      assert forall j :: 0 < j < k + 1 ==> parameters[j] == tail[j - 1];
    }
  }

  lemma DefaultsStep<T>(parameters: seq<Parameter>, literal: string -> T, bound: map<string, T>, next: map<string, T>, all: map<string, T>)
    requires parameters != []
    requires var key := Lower(parameters[0].name);
             if key in bound then next == bound
             else parameters[0].default_.Some? && next == bound[key := literal(parameters[0].default_.value)]
    requires Defaulted(parameters[1..], literal, next, all)
    ensures Defaulted(parameters, literal, bound, all)
  {
    hide Lower, NeedsDefault;
    var head, tail, key := parameters[0], parameters[1..], Lower(parameters[0].name);
    assert ParameterKeys(parameters) == {key} + ParameterKeys(tail);
    assert next.Keys == bound.Keys + {key};
    forall k: nat | NeedsDefault(parameters, bound.Keys, k)
      ensures k < |parameters| && parameters[k].default_.Some? && Lower(parameters[k].name) in all
      ensures all[Lower(parameters[k].name)] == literal(parameters[k].default_.value)
    {
      NeedsInRange(parameters, bound.Keys, k);
      NeedsShifted(parameters, bound.Keys, if k > 0 then k - 1 else 0);
      if k > 0 {
        assert NeedsDefault(tail, next.Keys, k - 1) && parameters[k] == tail[k - 1];
      }
    }
  }

  lemma NeedsInRange(parameters: seq<Parameter>, given: set<string>, k: nat)
    ensures NeedsDefault(parameters, given, k) ==> k < |parameters|
  {
  }

  lemma DefaultsFitStep(parameters: seq<Parameter>, given: set<string>)
    requires parameters != []
    ensures
      var key := Lower(parameters[0].name);
      DefaultsFit(parameters, given)
      <==> (key in given || parameters[0].default_.Some?) && DefaultsFit(parameters[1..], given + {key})
  {
    hide Lower, NeedsDefault;
    var tail, key := parameters[1..], Lower(parameters[0].name);
    NeedsShifted(parameters, given, 0);
    if DefaultsFit(parameters, given) {
      forall k: nat | NeedsDefault(tail, given + {key}, k) ensures k < |tail| && tail[k].default_.Some? {
        NeedsInRange(tail, given + {key}, k);
        NeedsShifted(parameters, given, k);
        assert parameters[k + 1] == tail[k];
      }
    }
    if (key in given || parameters[0].default_.Some?) && DefaultsFit(tail, given + {key}) {
      forall k: nat | NeedsDefault(parameters, given, k) ensures k < |parameters| && parameters[k].default_.Some? {
        NeedsInRange(parameters, given, k);
        if k > 0 {
          NeedsShifted(parameters, given, k - 1);
          assert NeedsDefault(tail, given + {key}, k - 1) && parameters[k] == tail[k - 1];
        }
      }
    }
  }

  lemma {:induction false} DefaultsIff<T>(parameters: seq<Parameter>, literal: string -> T, bound: map<string, T>)
    ensures BindDefaults(parameters, literal, bound).Some? <==> DefaultsFit(parameters, bound.Keys)
    ensures BindDefaults(parameters, literal, bound).Some? ==>
              Defaulted(parameters, literal, bound, BindDefaults(parameters, literal, bound).value)
    decreases parameters
  {
    if parameters != [] {
      hide Lower, NeedsDefault, DefaultsFit, Defaulted;
      var key := Lower(parameters[0].name);
      DefaultsFitStep(parameters, bound.Keys);
      if key in bound || parameters[0].default_.Some? {
        var next := if key in bound then bound else bound[key := literal(parameters[0].default_.value)];
        assert next.Keys == bound.Keys + {key};
        DefaultsIff(parameters[1..], literal, next);
        var all := BindDefaults(parameters[1..], literal, next);
        if all.Some? {
          DefaultsStep(parameters, literal, bound, next, all.value);
        }
      }
    }
  }

  // ----- the two together -----

  /** A call is accepted exactly when its arguments fit and every parameter without one has a default. */
  lemma BindsIff<T>(parameters: seq<Parameter>, args: Args<T>, literal: string -> T)
    ensures BindArguments(parameters, args, literal).Some? <==> Accepts(parameters, List(args))
  {
    hide FitsFrom, Given, BindGiven, BindDefaults, Defaulted;
    GivenIff(parameters, args, 0, false, map[]);
    NothingBound(parameters, List(args));
    var given := BindGiven(parameters, args, 0, false, map[]);
    if given.Some? {
      DefaultsIff(parameters, literal, given.value);
      GivenKeysAre(parameters, List(args), given.value);
    }
  }

  lemma NothingBound<T>(parameters: seq<Parameter>, arguments: seq<Argument<T>>)
    ensures FitsFrom<T>(parameters, arguments, 0, false, map[]) <==> ArgumentsFit(parameters, arguments, 0)
  {
  }

  lemma GivenKeysAre<T>(parameters: seq<Parameter>, arguments: seq<Argument<T>>, given: map<string, T>)
    requires Given(parameters, arguments, 0, map[], given)
    ensures forall k :: k in given <==> IsGiven(parameters, arguments, 0, k)
  {
  }

  /**
   * An argument without a name is bound to the parameter at its own position, one with a name to
   * the parameter of that name, no two of them to one parameter, and every other parameter to its
   * default; nothing else is bound.
   */
  lemma BoundExactly<T>(parameters: seq<Parameter>, args: Args<T>, literal: string -> T)
    requires BindArguments(parameters, args, literal).Some?
    ensures
      var bound, arguments := BindArguments(parameters, args, literal).value, List(args);
      && bound.Keys == ParameterKeys(parameters)
      && (forall i :: 0 <= i < |arguments| && arguments[i].Positional? ==>
            i < |parameters| && Lower(parameters[i].name) in bound && bound[Lower(parameters[i].name)] == arguments[i].value)
      && (forall i :: 0 <= i < |arguments| && arguments[i].ByName? ==>
            Lower(arguments[i].name) in bound && bound[Lower(arguments[i].name)] == arguments[i].value)
      && (forall i, j :: 0 <= i < j < |arguments| ==> Key(parameters, arguments, 0, i) != Key(parameters, arguments, 0, j))
      && (forall k :: 0 <= k < |parameters| && FirstOfName(parameters, k) && !IsGiven(parameters, arguments, 0, Lower(parameters[k].name)) ==>
            parameters[k].default_.Some? && Lower(parameters[k].name) in bound
            && bound[Lower(parameters[k].name)] == literal(parameters[k].default_.value))
  {
    hide FitsFrom, BindGiven, BindDefaults;
    var arguments := List(args);
    GivenIff(parameters, args, 0, false, map[]);
    NothingBound(parameters, arguments);
    var given := BindGiven(parameters, args, 0, false, map[]).value;
    DefaultsIff(parameters, literal, given);
    assert Given(parameters, arguments, 0, map[], given);
    forall key | key in given ensures key in ParameterKeys(parameters) {
      var i :| 0 <= i < |arguments| && Key(parameters, arguments, 0, i) == key;
      if arguments[i].ByName? {
        assert Known(parameters, arguments[i].name);
      } else {
        assert parameters[i] in parameters;
      }
    }
    forall i | 0 <= i < |arguments| && arguments[i].Positional?
      ensures i < |parameters| && Lower(parameters[i].name) in given && given[Lower(parameters[i].name)] == arguments[i].value
    {
      assert 0 + i < |parameters| && Key(parameters, arguments, 0, i) == Lower(parameters[i].name);
    }
    forall i | 0 <= i < |arguments| && arguments[i].ByName?
      ensures Lower(arguments[i].name) in given && given[Lower(arguments[i].name)] == arguments[i].value
    {
      assert Key(parameters, arguments, 0, i) == Lower(arguments[i].name);
    }
  }

  // ----- which macro a name finds -----

  /** Two characters that differ in the case of an ASCII letter at most. */
  predicate SameLetter(c: char, d: char) {
    c == d || ('A' <= c <= 'Z' && d as int == c as int + 32) || ('A' <= d <= 'Z' && c as int == d as int + 32)
  }

  lemma LowerCharIs(c: char, d: char)
    ensures LowerChar(c) == LowerChar(d) <==> SameLetter(c, d)
  {
    assert forall x: char :: 'A' <= x <= 'Z' ==> LowerChar(x) as int == x as int + 32;
  }

  /** Names are the same exactly when they agree up to the case of ASCII letters. */
  lemma SameNameIff(a: string, b: string)
    ensures Lower(a) == Lower(b) <==> |a| == |b| && forall i :: 0 <= i < |a| ==> SameLetter(a[i], b[i])
  {
    if |a| == |b| {
      forall i | 0 <= i < |a| ensures Lower(a)[i] == Lower(b)[i] <==> SameLetter(a[i], b[i]) {
        LowerCharIs(a[i], b[i]);
      }
    }
    assert |Lower(a)| == |a| && |Lower(b)| == |b|;
  }

  predicate IsNamed(m: Macro, schema: string, name: string) {
    m.scalar && Lower(m.name.schema) == Lower(schema) && Lower(m.name.name) == Lower(name)
  }

  /** `m` is the first scalar macro of that name in the schema, letter case aside. */
  ghost predicate FirstNamed(macros: seq<Macro>, schema: string, name: string, m: Macro) {
    exists i :: 0 <= i < |macros| && macros[i] == m && IsNamed(m, schema, name)
                && forall j :: 0 <= j < i ==> !IsNamed(macros[j], schema, name)
  }

  ghost predicate NoneNamed(macros: seq<Macro>, schema: string, name: string) {
    forall m :: m in macros ==> !IsNamed(m, schema, name)
  }

  lemma {:induction false} FindInSchemaFinds(macros: seq<Macro>, schema: string, name: string)
    ensures
      var found := FindInSchema(macros, schema, name);
      if found.Some? then FirstNamed(macros, schema, name, found.value) else NoneNamed(macros, schema, name)
  {
    if macros != [] {
      var found := FindInSchema(macros, schema, name);
      if IsNamed(macros[0], schema, name) {
        assert FirstNamed(macros, schema, name, macros[0]);
      } else {
        FindInSchemaFinds(macros[1..], schema, name);
        if found.Some? {
          var i :| 0 <= i < |macros[1..]| && macros[1..][i] == found.value && IsNamed(found.value, schema, name)
                   && forall j :: 0 <= j < i ==> !IsNamed(macros[1..][j], schema, name);
          assert macros[i + 1] == found.value;
          forall j | 0 <= j < i + 1 ensures !IsNamed(macros[j], schema, name) {
            if j > 0 {
              assert macros[j] == macros[1..][j - 1];
            }
          }
        }
      }
    }
  }

  /**
   * A qualified name finds the first macro of its schema; an unqualified one the first of the
   * default schema and, only if there is none, the first of `main`; a longer name finds nothing.
   */
  lemma FindMacroFinds(ctx: Context, function_: seq<string>)
    ensures
      var found := FindMacro(ctx, function_);
      && (|function_| == 2 ==>
            if found.Some? then FirstNamed(ctx.macros, function_[0], function_[1], found.value)
            else NoneNamed(ctx.macros, function_[0], function_[1]))
      && (|function_| == 1 && !NoneNamed(ctx.macros, ctx.defaultSchema, function_[0]) ==>
            found.Some? && FirstNamed(ctx.macros, ctx.defaultSchema, function_[0], found.value))
      && (|function_| == 1 && NoneNamed(ctx.macros, ctx.defaultSchema, function_[0]) ==>
            if found.Some? then FirstNamed(ctx.macros, "main", function_[0], found.value)
            else NoneNamed(ctx.macros, "main", function_[0]))
      && (|function_| != 1 && |function_| != 2 ==> found.None?)
  {
    if |function_| == 1 {
      FindInSchemaFinds(ctx.macros, ctx.defaultSchema, function_[0]);
      FindInSchemaFinds(ctx.macros, "main", function_[0]);
      var own := FindInSchema(ctx.macros, ctx.defaultSchema, function_[0]);
      if own.Some? {
        assert own.value in ctx.macros && IsNamed(own.value, ctx.defaultSchema, function_[0]);
      }
    } else if |function_| == 2 {
      FindInSchemaFinds(ctx.macros, function_[0], function_[1]);
    }
  }

  // ----- which implementation a call takes -----

  /** The implementation is of the dialect and accepts the arguments. */
  ghost predicate Fits<T>(implementation: Implementation, args: Args<T>, dialect: string) {
    Lower(implementation.dialect) == Lower(dialect) && Accepts(implementation.parameters, List(args))
  }

  ghost predicate FitsAt<T>(implementations: seq<Implementation>, i: int, args: Args<T>, dialect: string) {
    0 <= i < |implementations| && Fits(implementations[i], args, dialect)
  }

  lemma {:induction false} CandidatesFit<T>(implementations: seq<Implementation>, args: Args<T>, literal: string -> T, dialect: string)
    ensures
      var candidates := Candidates(implementations, args, literal, dialect);
      && (candidates == [] <==> forall i :: !FitsAt(implementations, i, args, dialect))
      && (|candidates| > 1 <==> exists i, j :: i < j && FitsAt(implementations, i, args, dialect) && FitsAt(implementations, j, args, dialect))
      && (|candidates| == 1 ==> exists i :: FitsAt(implementations, i, args, dialect) && candidates[0] == implementations[i])
  {
    hide Accepts, List;
    if implementations != [] {
      var tail := implementations[1..];
      var rest := Candidates(tail, args, literal, dialect);
      CandidatesFit(tail, args, literal, dialect);
      BindsIff(implementations[0].parameters, args, literal);
      forall i: int ensures FitsAt(tail, i, args, dialect) ==> FitsAt(implementations, i + 1, args, dialect) && tail[i] == implementations[i + 1] {
      }
      forall i: int ensures i > 0 && FitsAt(implementations, i, args, dialect) ==> FitsAt(tail, i - 1, args, dialect) {
      }
      if FitsAt(implementations, 0, args, dialect) && rest != [] {
        var i :| FitsAt(tail, i, args, dialect);
        assert FitsAt(implementations, i + 1, args, dialect) && 0 < i + 1;
      }
      if |rest| > 1 {
        var i, j :| i < j && FitsAt(tail, i, args, dialect) && FitsAt(tail, j, args, dialect);
        assert i + 1 < j + 1 && FitsAt(implementations, i + 1, args, dialect) && FitsAt(implementations, j + 1, args, dialect);
      }
      if i, j :| i < j && FitsAt(implementations, i, args, dialect) && FitsAt(implementations, j, args, dialect) {
        assert FitsAt(tail, j - 1, args, dialect);
        if i > 0 {
          assert i - 1 < j - 1 && FitsAt(tail, i - 1, args, dialect);
        }
      }
    }
  }

  /**
   * The one implementation that fits is taken; each error is raised exactly in its own case:
   * none fits, several do, a parameter is typed, or the body is not one expression.
   */
  lemma ChooseExactly<T>(m: Macro, args: Args<T>, literal: string -> T, dialect: string)
    ensures
      var r, implementations := Choose(m, args, literal, dialect), m.implementations;
      && (r == Err(NoImplementation(m.name)) <==> forall i :: !FitsAt(implementations, i, args, dialect))
      && (r == Err(Overloaded(m.name))
          <==> exists i, j :: i < j && FitsAt(implementations, i, args, dialect) && FitsAt(implementations, j, args, dialect))
      && (forall i :: FitsAt(implementations, i, args, dialect) && r != Err(Overloaded(m.name)) ==>
            r == if exists p :: p in implementations[i].parameters && p.typed then Err(TypedParameters(m.name))
                 else if implementations[i].body.None? then Err(InvalidBody(m.name))
                 else Ok(implementations[i]))
  {
    hide Fits, Candidates;
    CandidatesFit(m.implementations, args, literal, dialect);
    var candidates := Candidates(m.implementations, args, literal, dialect);
    if |candidates| == 1 {
      var k :| FitsAt(m.implementations, k, args, dialect) && candidates[0] == m.implementations[k];
      forall i | FitsAt(m.implementations, i, args, dialect) ensures i == k {
        assert !(i < k) && !(k < i);
      }
    }
  }
}
