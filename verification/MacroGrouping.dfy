/**
 * Expansion keeps expressions grouped as they are: whatever is put into an operator's operand is put
 * in parentheses, so printing and parsing the result again cannot regroup it.
 */
module MacroGrouping {
  import opened Macros
  import opened MacroBinding

  /** No operand of an operator is an operator itself, unless it is in parentheses. */
  predicate Grouped(e: Expr)
    decreases e
  {
    match e
    case Ident(_) => true
    case Literal(_) => true
    case Nested(inner) => Grouped(inner)
    case Op(_, operands) => Closed(operands) && GroupedArgs(operands)
    case Call(_, args, _) => GroupedArgs(args)
  }

  predicate GroupedArgs(args: Args<Expr>)
    decreases args
  {
    match args
    case End => true
    case Unnamed(value, rest) => Grouped(value) && GroupedArgs(rest)
    case Named(_, value, rest) => Grouped(value) && GroupedArgs(rest)
    case Star(rest) => GroupedArgs(rest)
  }

  predicate Closed(operands: Args<Expr>)
    decreases operands
  {
    match operands
    case End => true
    case Unnamed(value, rest) => !value.Op? && Closed(rest)
    case Named(_, value, rest) => !value.Op? && Closed(rest)
    case Star(rest) => Closed(rest)
  }

  ghost predicate GroupedBindings(bindings: map<string, Expr>) { forall k :: k in bindings ==> Grouped(bindings[k]) }

  /** The bodies of all macros are grouped, as parsed expressions are. */
  ghost predicate GroupedBodies(ctx: Context) {
    forall m, i :: m in ctx.macros && i in m.implementations && i.body.Some? ==> Grouped(i.body.value)
  }

  // ----- substitution -----

  lemma {:induction false} SubstituteGrouped(e: Expr, bindings: map<string, Expr>)
    requires Grouped(e) && GroupedBindings(bindings)
    ensures Grouped(Substitute(e, bindings)) && (Substitute(e, bindings).Op? ==> e.Op?)
    decreases e
  {
    match e
    case Ident(_) =>
    case Literal(_) =>
    case Nested(inner) => SubstituteGrouped(inner, bindings);
    case Op(_, operands) => SubstituteGroupedArgs(operands, bindings);
    case Call(_, args, _) => SubstituteGroupedArgs(args, bindings);
  }

  lemma {:induction false} SubstituteGroupedArgs(args: Args<Expr>, bindings: map<string, Expr>)
    requires GroupedArgs(args) && GroupedBindings(bindings)
    ensures GroupedArgs(SubstituteArgs(args, bindings))
    ensures Closed(args) ==> Closed(SubstituteArgs(args, bindings))
    decreases args
  {
    match args
    case End =>
    case Unnamed(value, rest) => SubstituteGrouped(value, bindings); SubstituteGroupedArgs(rest, bindings);
    case Named(_, value, rest) => SubstituteGrouped(value, bindings); SubstituteGroupedArgs(rest, bindings);
    case Star(rest) => SubstituteGroupedArgs(rest, bindings);
  }

  // ----- bindings -----

  lemma {:induction false} ArgumentsGrouped(args: Args<Expr>)
    requires GroupedArgs(args)
    ensures forall i :: 0 <= i < |List(args)| && !List(args)[i].Starred? ==> Grouped(List(args)[i].value)
    decreases args
  {
    match args
    case End =>
    case Unnamed(_, rest) => ArgumentsGrouped(rest);
    case Named(_, _, rest) => ArgumentsGrouped(rest);
    case Star(rest) => ArgumentsGrouped(rest);
  }

  /** The first parameter of a name. */
  lemma {:induction false} FirstParameter(parameters: seq<Parameter>, i: nat) returns (k: nat)
    requires i < |parameters|
    ensures k <= i && Lower(parameters[k].name) == Lower(parameters[i].name) && FirstOfName(parameters, k)
    decreases i
  {
    if j :| 0 <= j < i && Lower(parameters[j].name) == Lower(parameters[i].name) {
      k := FirstParameter(parameters, j);
    } else {
      k := i;
    }
  }

  lemma BindingsGrouped(parameters: seq<Parameter>, args: Args<Expr>)
    requires GroupedArgs(args) && BindArguments(parameters, args, AsLiteral()).Some?
    ensures GroupedBindings(BindArguments(parameters, args, AsLiteral()).value)
  {
    hide Lower, BindArguments;
    var bound, arguments := BindArguments(parameters, args, AsLiteral()).value, List(args);
    BoundExactly(parameters, args, AsLiteral());
    BindsIff(parameters, args, AsLiteral());
    ArgumentsGrouped(args);
    forall key | key in bound ensures Grouped(bound[key]) {
      var p :| p in parameters && Lower(p.name) == key;
      var i :| 0 <= i < |parameters| && parameters[i] == p;
      var k := FirstParameter(parameters, i);
      if IsGiven(parameters, arguments, 0, key) {
        var j :| 0 <= j < |arguments| && MacroBinding.Key(parameters, arguments, 0, j) == key;
        assert !arguments[j].Starred? && bound[key] == arguments[j].value;
      } else {
        assert bound[key] == Literal(parameters[k].default_.value);
      }
    }
  }

  // ----- expansion -----

  /**
   * Expanding a grouped expression with grouped macro bodies gives a grouped expression, and never
   * turns an operand into an operator: every call and every parameter is replaced in parentheses.
   */
  lemma {:induction false} ExpandGrouped(ctx: Context, active: set<MacroName>, e: Expr)
    requires Grouped(e) && GroupedBodies(ctx) && Expand(ctx, active, e).Ok?
    ensures Grouped(Expand(ctx, active, e).value) && (Expand(ctx, active, e).value.Op? ==> e.Op?)
    decreases Names(ctx.macros) - active, e
  {
    hide GroupedBodies, Choose, FindMacro, Substitute, BindArguments;
    match e
    case Ident(_) =>
    case Literal(_) =>
    case Nested(inner) => ExpandGrouped(ctx, active, inner);
    case Op(_, operands) => ExpandGroupedArgs(ctx, active, operands);
    case Call(function_, args, plain) =>
      ExpandGroupedArgs(ctx, active, args);
      var expanded := ExpandArgs(ctx, active, args).value;
      var found := FindMacro(ctx, function_);
      if found.Some? {
        var m := found.value;
        var implementation := Choose(m, expanded, AsLiteral(), ctx.dialect).value;
        var bindings := BindArguments(implementation.parameters, expanded, AsLiteral()).value;
        BindingsGrouped(implementation.parameters, expanded);
        BodyGrouped(ctx, m, implementation);
        SubstituteGrouped(implementation.body.value, bindings);
        Pushed(ctx, active, m);
        ExpandGrouped(ctx, active + {m.name}, Substitute(implementation.body.value, bindings));
      }
  }

  lemma BodyGrouped(ctx: Context, m: Macro, implementation: Implementation)
    requires GroupedBodies(ctx) && m in ctx.macros && implementation in m.implementations && implementation.body.Some?
    ensures Grouped(implementation.body.value)
  {
  }

  lemma {:induction false} ExpandGroupedArgs(ctx: Context, active: set<MacroName>, args: Args<Expr>)
    requires GroupedArgs(args) && GroupedBodies(ctx) && ExpandArgs(ctx, active, args).Ok?
    ensures GroupedArgs(ExpandArgs(ctx, active, args).value)
    ensures Closed(args) ==> Closed(ExpandArgs(ctx, active, args).value)
    decreases Names(ctx.macros) - active, args
  {
    hide GroupedBodies, Expand;
    match args
    case End =>
    case Unnamed(value, rest) => ExpandGrouped(ctx, active, value); ExpandGroupedArgs(ctx, active, rest);
    case Named(_, value, rest) => ExpandGrouped(ctx, active, value); ExpandGroupedArgs(ctx, active, rest);
    case Star(rest) => ExpandGroupedArgs(ctx, active, rest);
  }
}
