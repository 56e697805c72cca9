/**
 * Reference definitions for the macro view that src/core/transformer/MacroViewTransformer.ts
 * builds: which statements its searches visit, the complexity it computes, the calls it
 * extracts and the summary it writes for each top-level function.
 */
module MacroSpec {
  import opened Wrappers
  import opened Ast
  import opened IR
  import opened CallPattern

  /**
   * The statements of `ss` in pre-order, descending into then and else branches and loop
   * bodies but not into the bodies of nested function declarations.
   */
  function Flatten(ss: seq<AstNode>): seq<AstNode>
    decreases ss, 2
  {
    if ss == [] then [] else Flatten(ss[..|ss| - 1]) + Walk(ss[|ss| - 1])
  }

  /** One statement followed, in pre-order, by the statements nested in it. */
  function Walk(s: AstNode): seq<AstNode>
    decreases s, 1
  {
    match s
    case IfStatement(_, thenBranch, elseBranch, _) =>
      [s] + Flatten(thenBranch)
      + (if elseBranch.Present? then Flatten(elseBranch.stmts) else [])
    case ForStatement(_, _, _, body, _) => [s] + Flatten(body)
    case WhileStatement(_, body, _) => [s] + Flatten(body)
    case _ => [s]
  }

  /** Some statement of `ns` is a `for` or `while` statement. */
  predicate LoopIn(ns: seq<AstNode>)
  {
    exists n :: n in ns && n.IsLoop()
  }

  /** Some statement of `ns` is an `if` statement. */
  predicate IfIn(ns: seq<AstNode>)
  {
    exists n :: n in ns && n.IfStatement?
  }

  /** A `for` or `while` statement occurs in `ss` at any depth. */
  predicate HasLoop(ss: seq<AstNode>)
  {
    LoopIn(Flatten(ss))
  }

  /** An `if` statement occurs in `ss` at any depth. */
  predicate HasIf(ss: seq<AstNode>)
  {
    IfIn(Flatten(ss))
  }

  /**
   * The additive complexity of a statement list: a base of 1 for the list, plus the weight
   * of each statement.
   */
  function Complexity(ss: seq<AstNode>): int
    decreases ss, 2
  {
    if ss == [] then 1 else Complexity(ss[..|ss| - 1]) + Weight(ss[|ss| - 1])
  }

  /**
   * An `if` weighs 1 plus the complexity of its then branch and, when the else branch is
   * present (even empty), of its else branch; a loop weighs 1 plus the complexity of its
   * body; any other statement weighs nothing.
   */
  function Weight(s: AstNode): int
    decreases s, 1
  {
    match s
    case IfStatement(_, thenBranch, elseBranch, _) =>
      1 + Complexity(thenBranch)
      + (if elseBranch.Present? then Complexity(elseBranch.stmts) else 0)
    case ForStatement(_, _, _, body, _) => 1 + Complexity(body)
    case WhileStatement(_, body, _) => 1 + Complexity(body)
    case _ => 0
  }

  /** How many statements of `ns` branch: `if`, `for` and `while`. */
  function Branching(ns: seq<AstNode>): nat
  {
    if ns == [] then 0
    else Branching(ns[..|ns| - 1])
         + (if ns[|ns| - 1].IfStatement? || ns[|ns| - 1].IsLoop() then 1 else 0)
  }

  /** How many statements of `ns` are `if` statements with an else branch present. */
  function ElsePresent(ns: seq<AstNode>): nat
  {
    if ns == [] then 0
    else ElsePresent(ns[..|ns| - 1])
         + (if ns[|ns| - 1].IfStatement? && ns[|ns| - 1].elseBranch.Present? then 1 else 0)
  }

  /** A parameter as the summary lists it: `name: type` when typed, else the bare name. */
  function ParameterText(p: Parameter): (r: string)
    ensures |r| == |p.name| + if Truthy(p.paramType) then 2 + |p.paramType.value| else 0
    ensures r[..|p.name|] == p.name
    ensures Truthy(p.paramType) ==> r[|p.name|..] == ": " + p.paramType.value
  {
    if Truthy(p.paramType) then p.name + ": " + p.paramType.value else p.name
  }

  /** The inclusive number of lines a location spans. */
  function LineCount(loc: SourceLocation): int
  {
    loc.end.line - loc.start.line + 1
  }

  /** The summary of function declaration `fn` under identifier `id` (`func_<id>`). */
  function Summarize(fn: AstNode, id: nat): FunctionSummary
    requires fn.FunctionDeclaration?
  {
    FunctionSummary(id, fn.name,
      seq(|fn.parameters|, i requires 0 <= i < |fn.parameters| => ParameterText(fn.parameters[i])),
      fn.returnType, LineCount(fn.location), Complexity(fn.body), fn.location,
      HasLoop(fn.body), HasIf(fn.body))
  }

  /** The function declarations among the top-level statements, in order. */
  function TopFunctions(ss: seq<AstNode>): (r: seq<AstNode>)
    ensures |r| <= |ss|
    ensures forall n :: n in r ==> n in ss && n.FunctionDeclaration?
    ensures forall n :: n in ss && n.FunctionDeclaration? ==> n in r
  {
    if ss == [] then []
    else TopFunctions(ss[..|ss| - 1])
         + (if ss[|ss| - 1].FunctionDeclaration? then [ss[|ss| - 1]] else [])
  }

  /** The summaries of `fns`, numbered from `base`. */
  function Summaries(fns: seq<AstNode>, base: nat): (r: seq<FunctionSummary>)
    requires forall n :: n in fns ==> n.FunctionDeclaration?
    ensures |r| == |fns|
  {
    if fns == [] then []
    else Summaries(fns[..|fns| - 1], base) + [Summarize(fns[|fns| - 1], base + |fns| - 1)]
  }

  /** A call found in a function body, before it is numbered. */
  datatype CallSite = CallSite(caller: string, callee: string, location: SourceLocation)

  /** The call an expression statement makes, if its non-empty text matches the pattern. */
  function SiteOf(s: AstNode, caller: string): seq<CallSite>
  {
    if s.ExpressionStatement? && s.expression != "" && Callee(s.expression).Some? then
      [CallSite(caller, Callee(s.expression).value, s.location)]
    else []
  }

  /** The calls the statements of `ns` make, in order. */
  function SitesIn(ns: seq<AstNode>, caller: string): seq<CallSite>
  {
    if ns == [] then [] else SitesIn(ns[..|ns| - 1], caller) + SiteOf(ns[|ns| - 1], caller)
  }

  /** The calls of a function body, found in pre-order through branches and loop bodies. */
  function CallSitesOf(body: seq<AstNode>, caller: string): seq<CallSite>
  {
    SitesIn(Flatten(body), caller)
  }

  /** The calls of every top-level function declaration of a file, in order. */
  function FileCallSites(ss: seq<AstNode>): seq<CallSite>
  {
    if ss == [] then []
    else FileCallSites(ss[..|ss| - 1])
         + (if ss[|ss| - 1].FunctionDeclaration? then CallSitesOf(ss[|ss| - 1].body, ss[|ss| - 1].name)
            else [])
  }

  /** The call records for `sites`, numbered from `base` (`call_<base>`, ...). */
  function NumberCalls(sites: seq<CallSite>, base: nat): (r: seq<FunctionCall>)
    ensures |r| == |sites|
  {
    if sites == [] then []
    else
      var last := sites[|sites| - 1];
      NumberCalls(sites[..|sites| - 1], base)
      + [FunctionCall(base + |sites| - 1, last.caller, last.callee, last.location)]
  }
}
