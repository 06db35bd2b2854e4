/**
 * What macro expansion promises: its results mean what the macros mean, contain no macro call any
 * more, and fail for recursion exactly when a body reaches a macro of its own chain.
 */
module MacroMeaning {
  import opened Prelude
  import opened Macros

  // ----- binding looks at the shape of arguments only -----

  function MapArgs<S, T>(f: S -> T, args: Args<S>): Args<T>
    decreases args
  {
    match args
    case End => End
    case Unnamed(value, rest) => Unnamed(f(value), MapArgs(f, rest))
    case Named(name, value, rest) => Named(name, f(value), MapArgs(f, rest))
    case Star(rest) => Star(MapArgs(f, rest))
  }

  function MapValues<S, T>(f: S -> T, m: map<string, S>): map<string, T> { map k | k in m :: f(m[k]) }

  function MapBound<S, T>(f: S -> T, m: Option<map<string, S>>): Option<map<string, T>> {
    if m.Some? then Some(MapValues(f, m.value)) else None
  }

  lemma {:induction false} BindGivenNatural<S, T>(f: S -> T, parameters: seq<Parameter>, args: Args<S>, index: nat,
                                                  sawNamed: bool, bound: map<string, S>)
    ensures BindGiven(parameters, MapArgs(f, args), index, sawNamed, MapValues(f, bound))
         == MapBound(f, BindGiven(parameters, args, index, sawNamed, bound))
    decreases args
  {
    match args
    case End =>
    case Star(rest) =>
    case Unnamed(value, rest) =>
      if !sawNamed && index < |parameters| {
        var key := Lower(parameters[index].name);
        if key !in bound {
          assert MapValues(f, bound[key := value]) == MapValues(f, bound)[key := f(value)];
          BindGivenNatural(f, parameters, rest, index + 1, sawNamed, bound[key := value]);
        }
      }
    case Named(name, value, rest) =>
      var parameter := FindParameter(parameters, name);
      if parameter.Some? {
        var key := Lower(parameter.value.name);
        if key !in bound {
          assert MapValues(f, bound[key := value]) == MapValues(f, bound)[key := f(value)];
          BindGivenNatural(f, parameters, rest, index + 1, true, bound[key := value]);
        }
      }
  }

  lemma {:induction false} BindDefaultsNatural<S, T>(f: S -> T, parameters: seq<Parameter>, from: string -> S, to: string -> T,
                                                     bound: map<string, S>)
    requires forall text :: to(text) == f(from(text))
    ensures BindDefaults(parameters, to, MapValues(f, bound)) == MapBound(f, BindDefaults(parameters, from, bound))
  {
    if parameters != [] {
      var key := Lower(parameters[0].name);
      if key in bound {
        BindDefaultsNatural(f, parameters[1..], from, to, bound);
      } else if parameters[0].default_.Some? {
        var value := from(parameters[0].default_.value);
        assert MapValues(f, bound[key := value]) == MapValues(f, bound)[key := f(value)];
        BindDefaultsNatural(f, parameters[1..], from, to, bound[key := value]);
      }
    }
  }

  /** Binding mapped arguments gives the mapped bindings. */
  lemma BindNatural<S, T>(f: S -> T, parameters: seq<Parameter>, args: Args<S>, from: string -> S, to: string -> T)
    requires forall text :: to(text) == f(from(text))
    ensures BindArguments(parameters, MapArgs(f, args), to) == MapBound(f, BindArguments(parameters, args, from))
  {
    assert MapValues(f, map[]) == map[];
    BindGivenNatural(f, parameters, args, 0, false, map[]);
    var given := BindGiven(parameters, args, 0, false, map[]);
    if given.Some? {
      BindDefaultsNatural(f, parameters, from, to, given.value);
    }
  }

  lemma {:induction false} CandidatesNatural<S, T>(f: S -> T, implementations: seq<Implementation>, args: Args<S>,
                                                   from: string -> S, to: string -> T, dialect: string)
    requires forall text :: to(text) == f(from(text))
    ensures Candidates(implementations, MapArgs(f, args), to, dialect) == Candidates(implementations, args, from, dialect)
  {
    if implementations != [] {
      CandidatesNatural(f, implementations[1..], args, from, to, dialect);
      BindNatural(f, implementations[0].parameters, args, from, to);
    }
  }

  lemma ChooseNatural<S, T>(f: S -> T, m: Macro, args: Args<S>, from: string -> S, to: string -> T, dialect: string)
    requires forall text :: to(text) == f(from(text))
    ensures Choose(m, MapArgs(f, args), to, dialect) == Choose(m, args, from, dialect)
  {
    CandidatesNatural(f, m.implementations, args, from, to, dialect);
  }

  // ----- results contain no macro call -----

  /** No call in the expression resolves to a macro. */
  predicate Normal(ctx: Context, e: Expr)
    decreases e
  {
    match e
    case Ident(_) => true
    case Literal(_) => true
    case Nested(inner) => Normal(ctx, inner)
    case Op(_, operands) => NormalArgs(ctx, operands)
    case Call(function_, args, _) => FindMacro(ctx, function_).None? && NormalArgs(ctx, args)
  }

  predicate NormalArgs(ctx: Context, args: Args<Expr>)
    decreases args
  {
    match args
    case End => true
    case Unnamed(value, rest) => Normal(ctx, value) && NormalArgs(ctx, rest)
    case Named(_, value, rest) => Normal(ctx, value) && NormalArgs(ctx, rest)
    case Star(rest) => NormalArgs(ctx, rest)
  }

  /** Expanding an expression without macro calls changes nothing, whatever is active. */
  lemma {:induction false} ExpandNormal(ctx: Context, active: set<MacroName>, e: Expr)
    requires Normal(ctx, e)
    ensures Expand(ctx, active, e) == Ok(e)
    decreases e
  {
    match e
    case Ident(_) =>
    case Literal(_) =>
    case Nested(inner) => ExpandNormal(ctx, active, inner);
    case Op(_, operands) => ExpandNormalArgs(ctx, active, operands);
    case Call(_, args, _) => ExpandNormalArgs(ctx, active, args);
  }

  lemma {:induction false} ExpandNormalArgs(ctx: Context, active: set<MacroName>, args: Args<Expr>)
    requires NormalArgs(ctx, args)
    ensures ExpandArgs(ctx, active, args) == Ok(args)
    decreases args
  {
    match args
    case End =>
    case Unnamed(value, rest) => ExpandNormal(ctx, active, value); ExpandNormalArgs(ctx, active, rest);
    case Named(_, value, rest) => ExpandNormal(ctx, active, value); ExpandNormalArgs(ctx, active, rest);
    case Star(rest) => ExpandNormalArgs(ctx, active, rest);
  }

  /** A successful expansion leaves no macro call. */
  lemma {:induction false} ExpandNormalises(ctx: Context, active: set<MacroName>, e: Expr)
    requires Expand(ctx, active, e).Ok?
    ensures Normal(ctx, Expand(ctx, active, e).value)
    decreases Names(ctx.macros) - active, e
  {
    match e
    case Ident(_) =>
    case Literal(_) =>
    case Nested(inner) => ExpandNormalises(ctx, active, inner);
    case Op(_, operands) => ExpandNormalisesArgs(ctx, active, operands);
    case Call(function_, args, plain) =>
      ExpandNormalisesArgs(ctx, active, args);
      var found := FindMacro(ctx, function_);
      if found.Some? {
        var m, expanded := found.value, ExpandArgs(ctx, active, args).value;
        var implementation := Choose(m, expanded, AsLiteral(), ctx.dialect).value;
        var bindings := BindArguments(implementation.parameters, expanded, AsLiteral()).value;
        Pushed(ctx, active, m);
        ExpandNormalises(ctx, active + {m.name}, Substitute(implementation.body.value, bindings));
      }
  }

  lemma {:induction false} ExpandNormalisesArgs(ctx: Context, active: set<MacroName>, args: Args<Expr>)
    requires ExpandArgs(ctx, active, args).Ok?
    ensures NormalArgs(ctx, ExpandArgs(ctx, active, args).value)
    decreases Names(ctx.macros) - active, args
  {
    match args
    case End =>
    case Unnamed(value, rest) => ExpandNormalises(ctx, active, value); ExpandNormalisesArgs(ctx, active, rest);
    case Named(_, value, rest) => ExpandNormalises(ctx, active, value); ExpandNormalisesArgs(ctx, active, rest);
    case Star(rest) => ExpandNormalisesArgs(ctx, active, rest);
  }

  /** Expanding twice is expanding once. */
  lemma ExpandIsIdempotent(ctx: Context, active: set<MacroName>, again: set<MacroName>, e: Expr)
    requires Expand(ctx, active, e).Ok?
    ensures Expand(ctx, again, Expand(ctx, active, e).value) == Expand(ctx, active, e)
  {
    ExpandNormalises(ctx, active, e);
    ExpandNormal(ctx, again, Expand(ctx, active, e).value);
  }

  // ----- meaning -----

  /** A row and the meaning of everything that is not a macro; any of them may be chosen freely. */
  datatype Semantics<!V> = Semantics(row: string -> V, literal: string -> V, op: (string, Args<V>) -> V,
                                     call: (seq<string>, Args<V>, bool) -> V)

  /** The value of an expression in which no call is a macro call. */
  function Eval<V>(sem: Semantics<V>, e: Expr): V
    decreases e
  {
    match e
    case Ident(name) => sem.row(name)
    case Literal(text) => sem.literal(text)
    case Nested(inner) => Eval(sem, inner)
    case Op(symbol, operands) => sem.op(symbol, EvalArgs(sem, operands))
    case Call(function_, args, plain) => sem.call(function_, EvalArgs(sem, args), plain)
  }

  function EvalArgs<V>(sem: Semantics<V>, args: Args<Expr>): Args<V>
    decreases args
  {
    match args
    case End => End
    case Unnamed(value, rest) => Unnamed(Eval(sem, value), EvalArgs(sem, rest))
    case Named(name, value, rest) => Named(name, Eval(sem, value), EvalArgs(sem, rest))
    case Star(rest) => Star(EvalArgs(sem, rest))
  }

  /**
   * The value of an expression with macro calls: the arguments are evaluated where the call
   * stands, the body sees its own parameters, bound to their values, over the row, and nothing of
   * the caller's parameters. `None` when a call has no meaning, for instance a recursive one.
   */
  function EvalMacros<V>(ctx: Context, active: set<MacroName>, sem: Semantics<V>, bound: map<string, V>, e: Expr): Option<V>
    decreases Names(ctx.macros) - active, e
  {
    match e
    case Ident(name) => Some(if Lower(name) in bound then bound[Lower(name)] else sem.row(name))
    case Literal(text) => Some(sem.literal(text))
    case Nested(inner) => EvalMacros(ctx, active, sem, bound, inner)
    case Op(symbol, operands) =>
      var values := EvalMacrosArgs(ctx, active, sem, bound, operands);
      if values.None? then None else Some(sem.op(symbol, values.value))
    case Call(function_, args, plain) =>
      var values := EvalMacrosArgs(ctx, active, sem, bound, args);
      if values.None? then None
      else
        var found := FindMacro(ctx, function_);
        if found.None? then Some(sem.call(function_, values.value, plain))
        else if !plain || found.value.name in active then None
        else
          var m := found.value;
          match Choose(m, values.value, sem.literal, ctx.dialect)
          case Err(_) => None
          case Ok(implementation) =>
            Pushed(ctx, active, m);
            EvalMacros(ctx, active + {m.name}, sem,
                       BindArguments(implementation.parameters, values.value, sem.literal).value, implementation.body.value)
  }

  function EvalMacrosArgs<V>(ctx: Context, active: set<MacroName>, sem: Semantics<V>, bound: map<string, V>, args: Args<Expr>)
    : Option<Args<V>>
    decreases Names(ctx.macros) - active, args
  {
    match args
    case End => Some(End)
    case Unnamed(value, rest) =>
      var v, r := EvalMacros(ctx, active, sem, bound, value), EvalMacrosArgs(ctx, active, sem, bound, rest);
      if v.None? || r.None? then None else Some(Unnamed(v.value, r.value))
    case Named(name, value, rest) =>
      var v, r := EvalMacros(ctx, active, sem, bound, value), EvalMacrosArgs(ctx, active, sem, bound, rest);
      if v.None? || r.None? then None else Some(Named(name, v.value, r.value))
    case Star(rest) =>
      var r := EvalMacrosArgs(ctx, active, sem, bound, rest);
      if r.None? then None else Some(Star(r.value))
  }

  lemma {:induction false} EvalMacrosNormal<V>(ctx: Context, active: set<MacroName>, sem: Semantics<V>, e: Expr)
    requires Normal(ctx, e)
    ensures EvalMacros(ctx, active, sem, map[], e) == Some(Eval(sem, e))
    decreases e
  {
    match e
    case Ident(_) =>
    case Literal(_) =>
    case Nested(inner) => EvalMacrosNormal(ctx, active, sem, inner);
    case Op(_, operands) => EvalMacrosNormalArgs(ctx, active, sem, operands);
    case Call(_, args, _) => EvalMacrosNormalArgs(ctx, active, sem, args);
  }

  lemma {:induction false} EvalMacrosNormalArgs<V>(ctx: Context, active: set<MacroName>, sem: Semantics<V>, args: Args<Expr>)
    requires NormalArgs(ctx, args)
    ensures EvalMacrosArgs(ctx, active, sem, map[], args) == Some(EvalArgs(sem, args))
    decreases args
  {
    match args
    case End =>
    case Unnamed(value, rest) => EvalMacrosNormal(ctx, active, sem, value); EvalMacrosNormalArgs(ctx, active, sem, rest);
    case Named(_, value, rest) => EvalMacrosNormal(ctx, active, sem, value); EvalMacrosNormalArgs(ctx, active, sem, rest);
    case Star(rest) => EvalMacrosNormalArgs(ctx, active, sem, rest);
  }

  function ValueOf<V>(sem: Semantics<V>): Expr -> V { (e: Expr) => Eval(sem, e) }

  ghost predicate NormalBindings(ctx: Context, bindings: map<string, Expr>) {
    forall k :: k in bindings ==> Normal(ctx, bindings[k])
  }

  /** Substituting expressions means binding their values: simultaneous, and free of capture. */
  lemma {:induction false} SubstitutionMeaning<V>(ctx: Context, active: set<MacroName>, sem: Semantics<V>, e: Expr,
                                                  bindings: map<string, Expr>)
    requires NormalBindings(ctx, bindings)
    ensures EvalMacros(ctx, active, sem, map[], Substitute(e, bindings))
         == EvalMacros(ctx, active, sem, MapValues(ValueOf(sem), bindings), e)
    decreases e
  {
    match e
    case Ident(name) =>
      if Lower(name) in bindings {
        EvalMacrosNormal(ctx, active, sem, bindings[Lower(name)]);
      }
    case Literal(_) =>
    case Nested(inner) => SubstitutionMeaning(ctx, active, sem, inner, bindings);
    case Op(_, operands) => SubstitutionMeaningArgs(ctx, active, sem, operands, bindings);
    case Call(_, args, _) => SubstitutionMeaningArgs(ctx, active, sem, args, bindings);
  }

  lemma {:induction false} SubstitutionMeaningArgs<V>(ctx: Context, active: set<MacroName>, sem: Semantics<V>, args: Args<Expr>,
                                                      bindings: map<string, Expr>)
    requires NormalBindings(ctx, bindings)
    ensures EvalMacrosArgs(ctx, active, sem, map[], SubstituteArgs(args, bindings))
         == EvalMacrosArgs(ctx, active, sem, MapValues(ValueOf(sem), bindings), args)
    decreases args
  {
    match args
    case End =>
    case Unnamed(value, rest) =>
      SubstitutionMeaning(ctx, active, sem, value, bindings);
      SubstitutionMeaningArgs(ctx, active, sem, rest, bindings);
    case Named(_, value, rest) =>
      SubstitutionMeaning(ctx, active, sem, value, bindings);
      SubstitutionMeaningArgs(ctx, active, sem, rest, bindings);
    case Star(rest) => SubstitutionMeaningArgs(ctx, active, sem, rest, bindings);
  }

  lemma {:induction false} EvalArgsIsMap<V>(sem: Semantics<V>, args: Args<Expr>)
    ensures EvalArgs(sem, args) == MapArgs(ValueOf(sem), args)
    decreases args
  {
    match args
    case End =>
    case Unnamed(_, rest) => EvalArgsIsMap(sem, rest);
    case Named(_, _, rest) => EvalArgsIsMap(sem, rest);
    case Star(rest) => EvalArgsIsMap(sem, rest);
  }

  lemma {:induction false} GivenNormal(ctx: Context, parameters: seq<Parameter>, args: Args<Expr>, index: nat, sawNamed: bool,
                                       bound: map<string, Expr>)
    requires NormalArgs(ctx, args) && NormalBindings(ctx, bound)
    requires BindGiven(parameters, args, index, sawNamed, bound).Some?
    ensures NormalBindings(ctx, BindGiven(parameters, args, index, sawNamed, bound).value)
    decreases args
  {
    match args
    case End =>
    case Unnamed(value, rest) =>
      GivenNormal(ctx, parameters, rest, index + 1, sawNamed, bound[Lower(parameters[index].name) := value]);
    case Named(name, value, rest) =>
      GivenNormal(ctx, parameters, rest, index + 1, true, bound[Lower(FindParameter(parameters, name).value.name) := value]);
  }

  lemma {:induction false} DefaultsNormal(ctx: Context, parameters: seq<Parameter>, bound: map<string, Expr>)
    requires NormalBindings(ctx, bound) && BindDefaults(parameters, AsLiteral(), bound).Some?
    ensures NormalBindings(ctx, BindDefaults(parameters, AsLiteral(), bound).value)
  {
    if parameters != [] {
      var key := Lower(parameters[0].name);
      DefaultsNormal(ctx, parameters[1..], if key in bound then bound else bound[key := Literal(parameters[0].default_.value)]);
    }
  }

  lemma BindingsNormal(ctx: Context, parameters: seq<Parameter>, args: Args<Expr>)
    requires NormalArgs(ctx, args) && BindArguments(parameters, args, AsLiteral()).Some?
    ensures NormalBindings(ctx, BindArguments(parameters, args, AsLiteral()).value)
  {
    GivenNormal(ctx, parameters, args, 0, false, map[]);
    DefaultsNormal(ctx, parameters, BindGiven(parameters, args, 0, false, map[]).value);
  }

  /** A successful expansion has, on every row, the value the original has with its macros. */
  lemma {:induction false} ExpandPreservesMeaning<V>(ctx: Context, active: set<MacroName>, sem: Semantics<V>, e: Expr)
    requires Expand(ctx, active, e).Ok?
    ensures EvalMacros(ctx, active, sem, map[], e) == Some(Eval(sem, Expand(ctx, active, e).value))
    decreases Names(ctx.macros) - active, e
  {
    match e
    case Ident(_) =>
    case Literal(_) =>
    case Nested(inner) => ExpandPreservesMeaning(ctx, active, sem, inner);
    case Op(_, operands) => ExpandPreservesMeaningArgs(ctx, active, sem, operands);
    case Call(function_, args, plain) =>
      ExpandPreservesMeaningArgs(ctx, active, sem, args);
      var found := FindMacro(ctx, function_);
      if found.Some? {
        var m, expanded := found.value, ExpandArgs(ctx, active, args).value;
        var implementation := Choose(m, expanded, AsLiteral(), ctx.dialect).value;
        var bindings := BindArguments(implementation.parameters, expanded, AsLiteral()).value;
        EvalArgsIsMap(sem, expanded);
        ChooseNatural(ValueOf(sem), m, expanded, AsLiteral(), sem.literal, ctx.dialect);
        BindNatural(ValueOf(sem), implementation.parameters, expanded, AsLiteral(), sem.literal);
        Pushed(ctx, active, m);
        ExpandPreservesMeaning(ctx, active + {m.name}, sem, Substitute(implementation.body.value, bindings));
        ExpandNormalisesArgs(ctx, active, args);
        BindingsNormal(ctx, implementation.parameters, expanded);
        SubstitutionMeaning(ctx, active + {m.name}, sem, implementation.body.value, bindings);
      }
  }

  lemma {:induction false} ExpandPreservesMeaningArgs<V>(ctx: Context, active: set<MacroName>, sem: Semantics<V>, args: Args<Expr>)
    requires ExpandArgs(ctx, active, args).Ok?
    ensures EvalMacrosArgs(ctx, active, sem, map[], args) == Some(EvalArgs(sem, ExpandArgs(ctx, active, args).value))
    decreases Names(ctx.macros) - active, args
  {
    match args
    case End =>
    case Unnamed(value, rest) =>
      ExpandPreservesMeaning(ctx, active, sem, value);
      ExpandPreservesMeaningArgs(ctx, active, sem, rest);
    case Named(_, value, rest) =>
      ExpandPreservesMeaning(ctx, active, sem, value);
      ExpandPreservesMeaningArgs(ctx, active, sem, rest);
    case Star(rest) => ExpandPreservesMeaningArgs(ctx, active, sem, rest);
  }

  // ----- when expansion fails -----

  function AnyLiteral(): string -> () { (text: string) => () }

  function Shape(): Expr -> () { (e: Expr) => () }

  /**
   * The first error met when following calls into the bodies as they are written, nothing
   * substituted: of an argument only its kind and name matter to the body.
   */
  function Check(ctx: Context, active: set<MacroName>, e: Expr): Option<Error>
    decreases Names(ctx.macros) - active, e
  {
    match e
    case Ident(_) => None
    case Literal(_) => None
    case Nested(inner) => Check(ctx, active, inner)
    case Op(_, operands) => CheckArgs(ctx, active, operands)
    case Call(function_, args, plain) =>
      var first := CheckArgs(ctx, active, args);
      var found := FindMacro(ctx, function_);
      if first.Some? || found.None? then first
      else if !plain then Some(UnsupportedModifiers(found.value.name))
      else
        match Choose(found.value, MapArgs(Shape(), args), AnyLiteral(), ctx.dialect)
        case Err(error) => Some(error)
        case Ok(implementation) =>
          if found.value.name in active then Some(Recursive(found.value.name))
          else
            Pushed(ctx, active, found.value);
            Check(ctx, active + {found.value.name}, implementation.body.value)
  }

  function CheckArgs(ctx: Context, active: set<MacroName>, args: Args<Expr>): Option<Error>
    decreases Names(ctx.macros) - active, args
  {
    match args
    case End => None
    case Unnamed(value, rest) =>
      var first := Check(ctx, active, value);
      if first.Some? then first else CheckArgs(ctx, active, rest)
    case Named(_, value, rest) =>
      var first := Check(ctx, active, value);
      if first.Some? then first else CheckArgs(ctx, active, rest)
    case Star(rest) => CheckArgs(ctx, active, rest)
  }

  function ErrorOf<T>(r: Result<T>): Option<Error> { if r.Ok? then None else Some(r.error) }

  lemma {:induction false} SubstituteKeepsShape(args: Args<Expr>, bindings: map<string, Expr>)
    ensures MapArgs(Shape(), SubstituteArgs(args, bindings)) == MapArgs(Shape(), args)
    decreases args
  {
    match args
    case End =>
    case Unnamed(_, rest) => SubstituteKeepsShape(rest, bindings);
    case Named(_, _, rest) => SubstituteKeepsShape(rest, bindings);
    case Star(rest) => SubstituteKeepsShape(rest, bindings);
  }

  lemma {:induction false} ExpandKeepsShape(ctx: Context, active: set<MacroName>, args: Args<Expr>)
    requires ExpandArgs(ctx, active, args).Ok?
    ensures MapArgs(Shape(), ExpandArgs(ctx, active, args).value) == MapArgs(Shape(), args)
    decreases args
  {
    match args
    case End =>
    case Unnamed(_, rest) => ExpandKeepsShape(ctx, active, rest);
    case Named(_, _, rest) => ExpandKeepsShape(ctx, active, rest);
    case Star(rest) => ExpandKeepsShape(ctx, active, rest);
  }

  lemma {:induction false} CheckNormal(ctx: Context, active: set<MacroName>, e: Expr)
    requires Normal(ctx, e)
    ensures Check(ctx, active, e) == None
    decreases e
  {
    match e
    case Ident(_) =>
    case Literal(_) =>
    case Nested(inner) => CheckNormal(ctx, active, inner);
    case Op(_, operands) => CheckNormalArgs(ctx, active, operands);
    case Call(_, args, _) => CheckNormalArgs(ctx, active, args);
  }

  lemma {:induction false} CheckNormalArgs(ctx: Context, active: set<MacroName>, args: Args<Expr>)
    requires NormalArgs(ctx, args)
    ensures CheckArgs(ctx, active, args) == None
    decreases args
  {
    match args
    case End =>
    case Unnamed(value, rest) => CheckNormal(ctx, active, value); CheckNormalArgs(ctx, active, rest);
    case Named(_, value, rest) => CheckNormal(ctx, active, value); CheckNormalArgs(ctx, active, rest);
    case Star(rest) => CheckNormalArgs(ctx, active, rest);
  }

  /** Substituted arguments, expanded already, never cause an error of their own. */
  lemma {:induction false} CheckSubstituted(ctx: Context, active: set<MacroName>, e: Expr, bindings: map<string, Expr>)
    requires NormalBindings(ctx, bindings)
    ensures Check(ctx, active, Substitute(e, bindings)) == Check(ctx, active, e)
    decreases e
  {
    match e
    case Ident(name) =>
      if Lower(name) in bindings {
        CheckNormal(ctx, active, bindings[Lower(name)]);
      }
    case Literal(_) =>
    case Nested(inner) => CheckSubstituted(ctx, active, inner, bindings);
    case Op(_, operands) => CheckSubstitutedArgs(ctx, active, operands, bindings);
    case Call(_, args, _) =>
      CheckSubstitutedArgs(ctx, active, args, bindings);
      SubstituteKeepsShape(args, bindings);
  }

  lemma {:induction false} CheckSubstitutedArgs(ctx: Context, active: set<MacroName>, args: Args<Expr>, bindings: map<string, Expr>)
    requires NormalBindings(ctx, bindings)
    ensures CheckArgs(ctx, active, SubstituteArgs(args, bindings)) == CheckArgs(ctx, active, args)
    decreases args
  {
    match args
    case End =>
    case Unnamed(value, rest) =>
      CheckSubstituted(ctx, active, value, bindings);
      CheckSubstitutedArgs(ctx, active, rest, bindings);
    case Named(_, value, rest) =>
      CheckSubstituted(ctx, active, value, bindings);
      CheckSubstitutedArgs(ctx, active, rest, bindings);
    case Star(rest) => CheckSubstitutedArgs(ctx, active, rest, bindings);
  }

  /**
   * Expansion fails exactly when, and how, the bodies as written do: `recursive macro` is raised
   * just when a body reaches a macro of its own chain, never because of what arguments contain.
   */
  lemma {:induction false} ExpandFailsAsChecked(ctx: Context, active: set<MacroName>, e: Expr)
    ensures ErrorOf(Expand(ctx, active, e)) == Check(ctx, active, e)
    decreases Names(ctx.macros) - active, e
  {
    match e
    case Ident(_) =>
    case Literal(_) =>
    case Nested(inner) => ExpandFailsAsChecked(ctx, active, inner);
    case Op(_, operands) => ExpandFailsAsCheckedArgs(ctx, active, operands);
    case Call(function_, args, plain) =>
      ExpandFailsAsCheckedArgs(ctx, active, args);
      var r, found := ExpandArgs(ctx, active, args), FindMacro(ctx, function_);
      if r.Ok? && found.Some? && plain {
        var m, expanded := found.value, r.value;
        ExpandKeepsShape(ctx, active, args);
        ChooseNatural(Shape(), m, expanded, AsLiteral(), AnyLiteral(), ctx.dialect);
        var chosen := Choose(m, expanded, AsLiteral(), ctx.dialect);
        if chosen.Ok? && m.name !in active {
          var bindings := BindArguments(chosen.value.parameters, expanded, AsLiteral()).value;
          ExpandNormalisesArgs(ctx, active, args);
          BindingsNormal(ctx, chosen.value.parameters, expanded);
          Pushed(ctx, active, m);
          ExpandFailsAsChecked(ctx, active + {m.name}, Substitute(chosen.value.body.value, bindings));
          CheckSubstituted(ctx, active + {m.name}, chosen.value.body.value, bindings);
        }
      }
  }

  lemma {:induction false} ExpandFailsAsCheckedArgs(ctx: Context, active: set<MacroName>, args: Args<Expr>)
    ensures ErrorOf(ExpandArgs(ctx, active, args)) == CheckArgs(ctx, active, args)
    decreases Names(ctx.macros) - active, args
  {
    match args
    case End =>
    case Unnamed(value, rest) =>
      ExpandFailsAsChecked(ctx, active, value);
      ExpandFailsAsCheckedArgs(ctx, active, rest);
    case Named(_, value, rest) =>
      ExpandFailsAsChecked(ctx, active, value);
      ExpandFailsAsCheckedArgs(ctx, active, rest);
    case Star(rest) => ExpandFailsAsCheckedArgs(ctx, active, rest);
  }

  function AnyValue<V>(): V -> () { (v: V) => () }

  /** An expression has a meaning exactly when checking finds no error. */
  lemma {:induction false} MeaningfulIffChecked<V>(ctx: Context, active: set<MacroName>, sem: Semantics<V>, bound: map<string, V>, e: Expr)
    ensures EvalMacros(ctx, active, sem, bound, e).Some? <==> Check(ctx, active, e).None?
    decreases Names(ctx.macros) - active, e
  {
    match e
    case Ident(_) =>
    case Literal(_) =>
    case Nested(inner) => MeaningfulIffChecked(ctx, active, sem, bound, inner);
    case Op(_, operands) => MeaningfulIffCheckedArgs(ctx, active, sem, bound, operands);
    case Call(function_, args, plain) =>
      MeaningfulIffCheckedArgs(ctx, active, sem, bound, args);
      var values, found := EvalMacrosArgs(ctx, active, sem, bound, args), FindMacro(ctx, function_);
      if values.Some? && found.Some? && plain {
        var m := found.value;
        ChooseNatural(AnyValue<V>(), m, values.value, sem.literal, AnyLiteral(), ctx.dialect);
        var chosen := Choose(m, values.value, sem.literal, ctx.dialect);
        if chosen.Ok? && m.name !in active {
          Pushed(ctx, active, m);
          var inner := BindArguments(chosen.value.parameters, values.value, sem.literal).value;
          MeaningfulIffChecked(ctx, active + {m.name}, sem, inner, chosen.value.body.value);
        }
      }
  }

  lemma {:induction false} MeaningfulIffCheckedArgs<V>(ctx: Context, active: set<MacroName>, sem: Semantics<V>,
                                                       bound: map<string, V>, args: Args<Expr>)
    ensures EvalMacrosArgs(ctx, active, sem, bound, args).Some? <==> CheckArgs(ctx, active, args).None?
    ensures var values := EvalMacrosArgs(ctx, active, sem, bound, args);
            values.Some? ==> MapArgs(AnyValue<V>(), values.value) == MapArgs(Shape(), args)
    decreases Names(ctx.macros) - active, args
  {
    match args
    case End =>
    case Unnamed(value, rest) =>
      MeaningfulIffChecked(ctx, active, sem, bound, value);
      MeaningfulIffCheckedArgs(ctx, active, sem, bound, rest);
    case Named(_, value, rest) =>
      MeaningfulIffChecked(ctx, active, sem, bound, value);
      MeaningfulIffCheckedArgs(ctx, active, sem, bound, rest);
    case Star(rest) => MeaningfulIffCheckedArgs(ctx, active, sem, bound, rest);
  }

  /** Expansion succeeds on exactly the expressions that have a meaning, and keeps it. */
  lemma ExpandIffMeaningful<V>(ctx: Context, sem: Semantics<V>, e: Expr)
    ensures Expand(ctx, {}, e).Ok? <==> EvalMacros(ctx, {}, sem, map[], e).Some?
    ensures Expand(ctx, {}, e).Ok? ==> EvalMacros(ctx, {}, sem, map[], e) == Some(Eval(sem, Expand(ctx, {}, e).value))
  {
    ExpandFailsAsChecked(ctx, {}, e);
    MeaningfulIffChecked(ctx, {}, sem, map[], e);
    if Expand(ctx, {}, e).Ok? {
      ExpandPreservesMeaning(ctx, {}, sem, e);
    }
  }

  // ----- macros that are not recursive -----

  /** Every macro called in the expression has a rank below `bound`. */
  ghost predicate CallsBelow(ctx: Context, rank: MacroName -> nat, bound: nat, e: Expr)
    decreases e
  {
    match e
    case Ident(_) => true
    case Literal(_) => true
    case Nested(inner) => CallsBelow(ctx, rank, bound, inner)
    case Op(_, operands) => ArgsCallBelow(ctx, rank, bound, operands)
    case Call(function_, args, _) =>
      && ArgsCallBelow(ctx, rank, bound, args)
      && (FindMacro(ctx, function_).Some? ==> rank(FindMacro(ctx, function_).value.name) < bound)
  }

  ghost predicate ArgsCallBelow(ctx: Context, rank: MacroName -> nat, bound: nat, args: Args<Expr>)
    decreases args
  {
    match args
    case End => true
    case Unnamed(value, rest) => CallsBelow(ctx, rank, bound, value) && ArgsCallBelow(ctx, rank, bound, rest)
    case Named(_, value, rest) => CallsBelow(ctx, rank, bound, value) && ArgsCallBelow(ctx, rank, bound, rest)
    case Star(rest) => ArgsCallBelow(ctx, rank, bound, rest)
  }

  /** The bodies of every macro call macros of lower rank only. */
  ghost predicate Ranked(ctx: Context, rank: MacroName -> nat) {
    forall m, i :: m in ctx.macros && i in m.implementations && i.body.Some? ==> CallsBelow(ctx, rank, rank(m.name), i.body.value)
  }

  lemma {:induction false} RankedNeverRecursive(ctx: Context, rank: MacroName -> nat, active: set<MacroName>, bound: nat, e: Expr)
    requires Ranked(ctx, rank) && CallsBelow(ctx, rank, bound, e)
    requires forall name :: name in active ==> rank(name) >= bound
    ensures var error := Check(ctx, active, e); error.Some? ==> !error.value.Recursive?
    decreases Names(ctx.macros) - active, e
  {
    match e
    case Ident(_) =>
    case Literal(_) =>
    case Nested(inner) => RankedNeverRecursive(ctx, rank, active, bound, inner);
    case Op(_, operands) => RankedNeverRecursiveArgs(ctx, rank, active, bound, operands);
    case Call(function_, args, plain) =>
      RankedNeverRecursiveArgs(ctx, rank, active, bound, args);
      var found := FindMacro(ctx, function_);
      if found.Some? {
        var m := found.value;
        var chosen := Choose(m, MapArgs(Shape(), args), AnyLiteral(), ctx.dialect);
        assert m.name !in active;
        if chosen.Ok? {
          Pushed(ctx, active, m);
          RankedNeverRecursive(ctx, rank, active + {m.name}, rank(m.name), chosen.value.body.value);
        }
      }
  }

  lemma {:induction false} RankedNeverRecursiveArgs(ctx: Context, rank: MacroName -> nat, active: set<MacroName>, bound: nat,
                                                    args: Args<Expr>)
    requires Ranked(ctx, rank) && ArgsCallBelow(ctx, rank, bound, args)
    requires forall name :: name in active ==> rank(name) >= bound
    ensures var error := CheckArgs(ctx, active, args); error.Some? ==> !error.value.Recursive?
    decreases Names(ctx.macros) - active, args
  {
    match args
    case End =>
    case Unnamed(value, rest) =>
      RankedNeverRecursive(ctx, rank, active, bound, value);
      RankedNeverRecursiveArgs(ctx, rank, active, bound, rest);
    case Named(_, value, rest) =>
      RankedNeverRecursive(ctx, rank, active, bound, value);
      RankedNeverRecursiveArgs(ctx, rank, active, bound, rest);
    case Star(rest) => RankedNeverRecursiveArgs(ctx, rank, active, bound, rest);
  }

  /** Macros that do not call themselves are never reported as recursive, however calls are nested. */
  lemma AcyclicMacrosExpand(ctx: Context, rank: MacroName -> nat, bound: nat, e: Expr)
    requires Ranked(ctx, rank) && CallsBelow(ctx, rank, bound, e)
    ensures var r := Expand(ctx, {}, e); r.Err? ==> !r.error.Recursive?
  {
    RankedNeverRecursive(ctx, rank, {}, bound, e);
    ExpandFailsAsChecked(ctx, {}, e);
  }
}
