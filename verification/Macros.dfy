/**
 * Scalar macro expansion (view/sql.rs): the expander with its stack of active macros, and what it
 * promises about the expressions it returns.
 */
module Macros {
  import opened Prelude

  // ----- expressions -----

  /** Arguments of a call, with payload `T`; a star is an argument that is not an expression. */
  datatype Args<T> = End | Unnamed(value: T, rest: Args<T>) | Named(name: string, value: T, rest: Args<T>) | Star(rest: Args<T>)

  /** `plain` says that a call has no `DISTINCT`, `OVER` or `FILTER`. */
  datatype Expr =
    | Ident(name: string)
    | Literal(text: string)
    | Nested(inner: Expr)
    | Op(symbol: string, operands: Args<Expr>)
    | Call(function_: seq<string>, args: Args<Expr>, plain: bool)

  /** A default, when there is one, is a literal cast to the parameter's type. */
  datatype Parameter = Parameter(name: string, default_: Option<string>, typed: bool)
  /** The body is missing when the SQL is not one scalar expression. */
  datatype Implementation = Implementation(dialect: string, parameters: seq<Parameter>, body: Option<Expr>)
  datatype MacroName = MacroName(schema: string, name: string)
  datatype Macro = Macro(name: MacroName, scalar: bool, implementations: seq<Implementation>)

  datatype Error =
    | UnsupportedModifiers(name: MacroName)
    | NoImplementation(name: MacroName)
    | Overloaded(name: MacroName)
    | TypedParameters(name: MacroName)
    | InvalidBody(name: MacroName)
    | Recursive(name: MacroName)

  datatype Result<T> = Ok(value: T) | Err(error: Error)

  datatype Context = Context(macros: seq<Macro>, defaultSchema: string, dialect: string)

  // ----- names -----

  function LowerChar(c: char): char { if 'A' <= c <= 'Z' then 'a' + (c - 'A') else c }

  /** `to_ascii_lowercase`; two names are the same to `eq_ignore_ascii_case` when these agree. */
  function Lower(s: string): string { seq(|s|, i requires 0 <= i < |s| => LowerChar(s[i])) }

  function FindInSchema(macros: seq<Macro>, schema: string, name: string): (r: Option<Macro>)
    ensures r.Some? ==> r.value in macros
  {
    if macros == [] then None
    else if macros[0].scalar && Lower(macros[0].name.schema) == Lower(schema) && Lower(macros[0].name.name) == Lower(name)
    then Some(macros[0])
    else FindInSchema(macros[1..], schema, name)
  }

  /** `find_macro`: an unqualified name is looked up in the default schema, then in `main`. */
  function FindMacro(ctx: Context, function_: seq<string>): (r: Option<Macro>)
    ensures r.Some? ==> r.value in ctx.macros
  {
    if |function_| == 1 then
      var found := FindInSchema(ctx.macros, ctx.defaultSchema, function_[0]);
      if found.Some? then found else FindInSchema(ctx.macros, "main", function_[0])
    else if |function_| == 2 then FindInSchema(ctx.macros, function_[0], function_[1])
    else None
  }

  function Names(macros: seq<Macro>): set<MacroName> { set m | m in macros :: m.name }

  // ----- binding arguments to parameters -----

  function AsLiteral(): string -> Expr { (text: string) => Literal(text) }

  function FindParameter(parameters: seq<Parameter>, name: string): (r: Option<Parameter>)
    ensures r.Some? ==> r.value in parameters && Lower(r.value.name) == Lower(name)
    ensures r.None? ==> forall p :: p in parameters ==> Lower(p.name) != Lower(name)
  {
    if parameters == [] then None
    else if Lower(parameters[0].name) == Lower(name) then Some(parameters[0])
    else FindParameter(parameters[1..], name)
  }

  /** The loop over the arguments, from argument `index` on. */
  function BindGiven<T>(parameters: seq<Parameter>, args: Args<T>, index: nat, sawNamed: bool, bound: map<string, T>)
    : Option<map<string, T>>
    decreases args
  {
    match args
    case End => Some(bound)
    case Star(_) => None
    case Unnamed(value, rest) =>
      if sawNamed || index >= |parameters| then None
      else
        var key := Lower(parameters[index].name);
        if key in bound then None else BindGiven(parameters, rest, index + 1, sawNamed, bound[key := value])
    case Named(name, value, rest) =>
      match FindParameter(parameters, name)
      case None => None
      case Some(parameter) =>
        var key := Lower(parameter.name);
        if key in bound then None else BindGiven(parameters, rest, index + 1, true, bound[key := value])
  }

  /** The loop over the parameters that got no argument. */
  function BindDefaults<T>(parameters: seq<Parameter>, literal: string -> T, bound: map<string, T>): Option<map<string, T>> {
    if parameters == [] then Some(bound)
    else
      var key := Lower(parameters[0].name);
      if key in bound then BindDefaults(parameters[1..], literal, bound)
      else if parameters[0].default_.None? then None
      else BindDefaults(parameters[1..], literal, bound[key := literal(parameters[0].default_.value)])
  }

  /** `bind_arguments`, for expressions and equally for their values. */
  function BindArguments<T>(parameters: seq<Parameter>, args: Args<T>, literal: string -> T): Option<map<string, T>> {
    match BindGiven(parameters, args, 0, false, map[])
    case None => None
    case Some(bound) => BindDefaults(parameters, literal, bound)
  }

  /** The two loops of `bind_arguments`. */
  method BindArgumentsInLoops(parameters: seq<Parameter>, args: Args<Expr>) returns (r: Option<map<string, Expr>>)
    ensures r == BindArguments(parameters, args, AsLiteral())
  {
    var result: map<string, Expr> := map[];
    var sawNamed := false;
    var index := 0;
    var left := args;
    while left != End
      invariant BindGiven(parameters, args, 0, false, map[]) == BindGiven(parameters, left, index, sawNamed, result)
      decreases left
    {
      var key, value;
      match left {
        case Star(_) => return None;
        case Unnamed(v, rest) =>
          if sawNamed || index >= |parameters| { return None; }
          key, value, left := Lower(parameters[index].name), v, rest;
        case Named(name, v, rest) =>
          sawNamed := true;
          var parameter := FindParameter(parameters, name);
          if parameter.None? { return None; }
          key, value, left := Lower(parameter.value.name), v, rest;
      }
      if key in result { return None; }
      result := result[key := value];
      index := index + 1;
    }
    ghost var given := result;
    for i := 0 to |parameters|
      invariant BindDefaults(parameters, AsLiteral(), given) == BindDefaults(parameters[i..], AsLiteral(), result)
    {
      assert parameters[i..][0] == parameters[i] && parameters[i..][1..] == parameters[i + 1..];
      var key := Lower(parameters[i].name);
      if key !in result {
        if parameters[i].default_.None? { return None; }
        result := result[key := Literal(parameters[i].default_.value)];
      }
    }
    r := Some(result);
  }

  /** The implementations of the dialect that accept the arguments. */
  function Candidates<T>(implementations: seq<Implementation>, args: Args<T>, literal: string -> T, dialect: string)
    : seq<Implementation>
  {
    if implementations == [] then []
    else
      var rest := Candidates(implementations[1..], args, literal, dialect);
      if Lower(implementations[0].dialect) == Lower(dialect)
         && BindArguments(implementations[0].parameters, args, literal).Some?
      then [implementations[0]] + rest
      else rest
  }

  lemma {:induction false} CandidatesBind<T>(implementations: seq<Implementation>, args: Args<T>, literal: string -> T, dialect: string)
    ensures forall i :: i in Candidates(implementations, args, literal, dialect) ==>
              i in implementations && BindArguments(i.parameters, args, literal).Some?
  {
    if implementations != [] {
      CandidatesBind(implementations[1..], args, literal, dialect);
    }
  }

  /** `bind_implementation`: exactly one candidate, with untyped parameters only, and a body that parses. */
  function Choose<T>(m: Macro, args: Args<T>, literal: string -> T, dialect: string): (r: Result<Implementation>)
    ensures r.Ok? ==> r.value in m.implementations && r.value.body.Some?
                      && BindArguments(r.value.parameters, args, literal).Some?
  {
    var candidates := Candidates(m.implementations, args, literal, dialect);
    CandidatesBind(m.implementations, args, literal, dialect);
    if candidates == [] then Err(NoImplementation(m.name))
    else if |candidates| > 1 then Err(Overloaded(m.name))
    else
      assert candidates[0] in candidates;
      if exists p :: p in candidates[0].parameters && p.typed then Err(TypedParameters(m.name))
      else if candidates[0].body.None? then Err(InvalidBody(m.name))
      else Ok(candidates[0])
  }

  // ----- substitution -----

  /** `substitute_parameters`: every parameter at once; what is put in is not looked into again. */
  function Substitute(e: Expr, bindings: map<string, Expr>): Expr
    decreases e
  {
    match e
    case Ident(name) => if Lower(name) in bindings then Nested(bindings[Lower(name)]) else e
    case Literal(_) => e
    case Nested(inner) => Nested(Substitute(inner, bindings))
    case Op(symbol, operands) => Op(symbol, SubstituteArgs(operands, bindings))
    case Call(function_, args, plain) => Call(function_, SubstituteArgs(args, bindings), plain)
  }

  function SubstituteArgs(args: Args<Expr>, bindings: map<string, Expr>): Args<Expr>
    decreases args
  {
    match args
    case End => End
    case Unnamed(value, rest) => Unnamed(Substitute(value, bindings), SubstituteArgs(rest, bindings))
    case Named(name, value, rest) => Named(name, Substitute(value, bindings), SubstituteArgs(rest, bindings))
    case Star(rest) => Star(SubstituteArgs(rest, bindings))
  }

  // ----- expansion -----

  lemma Pushed(ctx: Context, active: set<MacroName>, m: Macro)
    requires m in ctx.macros && m.name !in active
    ensures Names(ctx.macros) - (active + {m.name}) < Names(ctx.macros) - active
  {
    assert m.name in Names(ctx.macros) - active && m.name !in Names(ctx.macros) - (active + {m.name});
  }

  /** The result of visiting `e` with the given macros active: arguments first, then the call itself. */
  function Expand(ctx: Context, active: set<MacroName>, e: Expr): Result<Expr>
    decreases Names(ctx.macros) - active, e
  {
    match e
    case Ident(_) => Ok(e)
    case Literal(_) => Ok(e)
    case Nested(inner) =>
      (match Expand(ctx, active, inner)
       case Err(error) => Err(error)
       case Ok(r) => Ok(Nested(r)))
    case Op(symbol, operands) =>
      (match ExpandArgs(ctx, active, operands)
       case Err(error) => Err(error)
       case Ok(r) => Ok(Op(symbol, r)))
    case Call(function_, args, plain) =>
      match ExpandArgs(ctx, active, args)
      case Err(error) => Err(error)
      case Ok(expanded) =>
        var found := FindMacro(ctx, function_);
        if found.None? then Ok(Call(function_, expanded, plain))
        else if !plain then Err(UnsupportedModifiers(found.value.name))
        else
          var m := found.value;
          match Choose(m, expanded, AsLiteral(), ctx.dialect)
          case Err(error) => Err(error)
          case Ok(implementation) =>
            if m.name in active then Err(Recursive(m.name))
            else
              var bindings := BindArguments(implementation.parameters, expanded, AsLiteral()).value;
              Pushed(ctx, active, m);
              match Expand(ctx, active + {m.name}, Substitute(implementation.body.value, bindings))
              case Err(error) => Err(error)
              case Ok(r) => Ok(Nested(r))
  }

  function ExpandArgs(ctx: Context, active: set<MacroName>, args: Args<Expr>): Result<Args<Expr>>
    decreases Names(ctx.macros) - active, args
  {
    match args
    case End => Ok(End)
    case Unnamed(value, rest) =>
      (match Expand(ctx, active, value)
       case Err(error) => Err(error)
       case Ok(v) =>
         match ExpandArgs(ctx, active, rest)
         case Err(error) => Err(error)
         case Ok(r) => Ok(Unnamed(v, r)))
    case Named(name, value, rest) =>
      (match Expand(ctx, active, value)
       case Err(error) => Err(error)
       case Ok(v) =>
         match ExpandArgs(ctx, active, rest)
         case Err(error) => Err(error)
         case Ok(r) => Ok(Named(name, v, r)))
    case Star(rest) =>
      match ExpandArgs(ctx, active, rest)
      case Err(error) => Err(error)
      case Ok(r) => Ok(Star(r))
  }

  // ----- the expander itself -----

  class MacroExpander {
    const ctx: Context
    var active: seq<MacroName>

    constructor (ctx: Context)
      ensures this.ctx == ctx && active == []
    {
      this.ctx := ctx;
      active := [];
    }

    ghost function Active(): set<MacroName>
      reads this
    {
      set m | m in active
    }

    method Visit(e: Expr) returns (r: Result<Expr>)
      modifies this
      ensures active == old(active)
      ensures r == Expand(ctx, old(Active()), e)
      decreases Names(ctx.macros) - Active(), 1, e
    {
      match e
      case Ident(_) => r := Ok(e);
      case Literal(_) => r := Ok(e);
      case Nested(inner) =>
        var v := Visit(inner);
        r := if v.Ok? then Ok(Nested(v.value)) else v;
      case Op(symbol, operands) =>
        var v := VisitArgs(operands);
        r := if v.Ok? then Ok(Op(symbol, v.value)) else Err(v.error);
      case Call(function_, args, plain) =>
        var v := VisitArgs(args);
        if v.Err? { return Err(v.error); }
        var found := FindMacro(ctx, function_);
        if found.None? { return Ok(Call(function_, v.value, plain)); }
        if !plain { return Err(UnsupportedModifiers(found.value.name)); }
        var implementation := Choose(found.value, v.value, AsLiteral(), ctx.dialect);
        if implementation.Err? { return Err(implementation.error); }
        var bindings := BindArgumentsInLoops(implementation.value.parameters, v.value);
        var body := ExpandBody(found.value, implementation.value.body.value, bindings.value);
        r := if body.Ok? then Ok(Nested(body.value)) else body;
    }

    method VisitArgs(args: Args<Expr>) returns (r: Result<Args<Expr>>)
      modifies this
      ensures active == old(active)
      ensures r == ExpandArgs(ctx, old(Active()), args)
      decreases Names(ctx.macros) - Active(), 1, args
    {
      match args
      case End => r := Ok(End);
      case Unnamed(value, rest) =>
        var v := Visit(value);
        if v.Err? { return Err(v.error); }
        var more := VisitArgs(rest);
        r := if more.Ok? then Ok(Unnamed(v.value, more.value)) else more;
      case Named(name, value, rest) =>
        var v := Visit(value);
        if v.Err? { return Err(v.error); }
        var more := VisitArgs(rest);
        r := if more.Ok? then Ok(Named(name, v.value, more.value)) else more;
      case Star(rest) =>
        var more := VisitArgs(rest);
        r := if more.Ok? then Ok(Star(more.value)) else more;
    }

    /** `expand_body`: push the macro, substitute, visit the body, pop it again whatever happened. */
    method ExpandBody(m: Macro, body: Expr, bindings: map<string, Expr>) returns (r: Result<Expr>)
      requires m in ctx.macros
      modifies this
      ensures active == old(active)
      ensures m.name in old(Active()) ==> r == Err(Recursive(m.name))
      ensures m.name !in old(Active()) ==> r == Expand(ctx, old(Active()) + {m.name}, Substitute(body, bindings))
      decreases Names(ctx.macros) - Active(), 0
    {
      if m.name in active { return Err(Recursive(m.name)); }
      ghost var before := Active();
      Pushed(ctx, before, m);
      active := active + [m.name];
      assert Active() == before + {m.name};
      r := Visit(Substitute(body, bindings));
      active := active[..|active| - 1];
    }
  }
}
