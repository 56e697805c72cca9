/**
 * The macro-view transformer of src/core/transformer/MacroViewTransformer.ts: it summarises
 * every top-level function declaration of a program and collects the calls each one makes,
 * numbering both from counters that persist across transforms.
 */
module MacroView {
  import opened Wrappers
  import opened Ast
  import opened IR
  import opened CallPattern
  import opened MacroSpec
  import opened MacroProperties
  import opened SeqFacts

  /**
   * The statements of the search that are neither `if` nor loop: at most the statement's own
   * call is appended, under the next call number.
   */
  lemma OwnCallAdded(node: AstNode, caller: string, before: seq<FunctionCall>, cb: nat,
                     result: seq<FunctionCall>, counter: nat)
    requires !node.IfStatement? && !node.IsLoop()
    requires SiteOf(node, caller) != [] ==>
               result == before + [FunctionCall(cb, caller, Callee(node.expression).value,
                                                node.location)]
               && counter == cb + 1
    requires SiteOf(node, caller) == [] ==> result == before && counter == cb
    ensures result == before + NumberCalls(SitesIn(Walk(node), caller), cb)
    ensures counter == cb + |SitesIn(Walk(node), caller)|
  {
    WalkSites(node, caller);
    var own := SiteOf(node, caller);
    if own == [] {
      NumberFew(CallSite(caller, "", node.location), cb);
      AppendEmpty(before);
    } else {
      NumberFew(own[0], cb);
      assert own == [own[0]];
    }
  }

  /** An `if` statement: the calls of its then branch, then those of its else branch. */
  lemma IfCallsAdded(node: AstNode, caller: string, before: seq<FunctionCall>, cb: nat,
                     mid: seq<FunctionCall>, cm: nat, result: seq<FunctionCall>, counter: nat)
    requires node.IfStatement?
    requires mid == before + NumberCalls(CallSitesOf(node.thenBranch, caller), cb)
    requires cm == cb + |CallSitesOf(node.thenBranch, caller)|
    requires node.elseBranch.Present? ==>
               result == mid + NumberCalls(CallSitesOf(node.elseBranch.stmts, caller), cm)
               && counter == cm + |CallSitesOf(node.elseBranch.stmts, caller)|
    requires !node.elseBranch.Present? ==> result == mid && counter == cm
    ensures result == before + NumberCalls(SitesIn(Walk(node), caller), cb)
    ensures counter == cb + |SitesIn(Walk(node), caller)|
  {
    WalkSites(node, caller);
    var t := CallSitesOf(node.thenBranch, caller);
    if node.elseBranch.Present? {
      NumbersAppended(before, t, CallSitesOf(node.elseBranch.stmts, caller), cb, mid, cm, result);
    } else {
      AppendEmpty(t);
      assert SitesIn(Walk(node), caller) == t;
    }
  }

  /** One top-level function declaration: its summary extends the summaries. */
  lemma SummaryStepped(ss: seq<AstNode>, i: nat, f0: nat, functions: seq<FunctionSummary>,
                       fb: nat, summary: FunctionSummary)
    requires i < |ss| && ss[i].FunctionDeclaration?
    requires functions == Summaries(TopFunctions(ss[..i]), f0)
    requires fb == f0 + |TopFunctions(ss[..i])| && summary == Summarize(ss[i], fb)
    ensures functions + [summary] == Summaries(TopFunctions(ss[..i + 1]), f0)
    ensures |TopFunctions(ss[..i + 1])| == |TopFunctions(ss[..i])| + 1
  {
    assert ss[..i + 1][..i] == ss[..i];
    assert TopFunctions(ss[..i + 1]) == TopFunctions(ss[..i]) + [ss[i]];
    SummariesAppend(TopFunctions(ss[..i]), ss[i], f0);
  }

  /** One top-level function declaration: its calls extend the call graph. */
  lemma CallsStepped(ss: seq<AstNode>, i: nat, c0: nat, callGraph: seq<FunctionCall>,
                     cb: nat, calls: seq<FunctionCall>)
    requires i < |ss| && ss[i].FunctionDeclaration?
    requires callGraph == NumberCalls(FileCallSites(ss[..i]), c0)
    requires cb == c0 + |FileCallSites(ss[..i])|
    requires calls == NumberCalls(CallSitesOf(ss[i].body, ss[i].name), cb)
    ensures callGraph + calls == NumberCalls(FileCallSites(ss[..i + 1]), c0)
    ensures |FileCallSites(ss[..i + 1])|
         == |FileCallSites(ss[..i])| + |CallSitesOf(ss[i].body, ss[i].name)|
  {
    assert ss[..i + 1][..i] == ss[..i];
    assert FileCallSites(ss[..i + 1]) == FileCallSites(ss[..i]) + CallSitesOf(ss[i].body, ss[i].name);
    NumberCallsAppend(FileCallSites(ss[..i]), CallSitesOf(ss[i].body, ss[i].name), c0);
  }

  class MacroViewTransformer {
    /** The number of the next function summary (`func_<n>`). */
    var functionIdCounter: nat
    /** The number of the next call record (`call_<n>`). */
    var callIdCounter: nat

    constructor ()
      ensures functionIdCounter == 0 && callIdCounter == 0
    {
      functionIdCounter := 0;
      callIdCounter := 0;
    }

    /**
     * The macro view of a program: one summary per top-level function declaration and the
     * calls of each, both numbered on from the counters. The clock reading is a parameter.
     * The counters are never reset, so each call numbers on from where the previous one
     * stopped: by `SummariesAt` and `NumberCallsAt`, the ids of successive calls on one
     * transformer occupy disjoint ranges.
     */
    method Transform(ast: Program, language: string, file: string, timestamp: int)
      returns (data: MacroViewData)
      modifies this
      ensures data.metadata == IRMetadata(language, file, timestamp)
      ensures data.functions == Summaries(TopFunctions(ast.body), old(functionIdCounter))
      ensures functionIdCounter == old(functionIdCounter) + |TopFunctions(ast.body)|
      ensures data.callGraph == NumberCalls(FileCallSites(ast.body), old(callIdCounter))
      ensures callIdCounter == old(callIdCounter) + |FileCallSites(ast.body)|
    {
      ghost var f0, c0 := functionIdCounter, callIdCounter;
      var functions: seq<FunctionSummary> := [];
      var callGraph: seq<FunctionCall> := [];
      for i := 0 to |ast.body|
        invariant functions == Summaries(TopFunctions(ast.body[..i]), f0)
        invariant functionIdCounter == f0 + |TopFunctions(ast.body[..i])|
        invariant callGraph == NumberCalls(FileCallSites(ast.body[..i]), c0)
        invariant callIdCounter == c0 + |FileCallSites(ast.body[..i])|
      {
        var node := ast.body[i];
        if node.FunctionDeclaration? {
          ghost var functions0, callGraph0 := functions, callGraph;
          ghost var fb, cb := functionIdCounter, callIdCounter;
          var summary := AnalyzeFunctionNode(node);
          functions := functions + [summary];
          var calls := ExtractFunctionCalls(node);
          callGraph := callGraph + calls;
          SummaryStepped(ast.body, i, f0, functions0, fb, summary);
          CallsStepped(ast.body, i, c0, callGraph0, cb, calls);
        } else {
          FileSkip(ast.body, i);
        }
      }
      assert ast.body[..|ast.body|] == ast.body;
      data := MacroViewData(IRMetadata(language, file, timestamp), functions, callGraph);
    }

    /** The summary of one function declaration, numbered by the function counter. */
    method AnalyzeFunctionNode(node: AstNode) returns (summary: FunctionSummary)
      requires node.FunctionDeclaration?
      modifies `functionIdCounter
      ensures summary == Summarize(node, old(functionIdCounter))
      ensures functionIdCounter == old(functionIdCounter) + 1
    {
      var id := functionIdCounter;
      functionIdCounter := functionIdCounter + 1;
      var lineCount := node.location.end.line - node.location.start.line + 1;
      var hasLoops := CheckHasLoops(node.body);
      var hasConditionals := CheckHasConditionals(node.body);
      var complexity := CalculateComplexity(node.body);
      var parameters := seq(|node.parameters|, i requires 0 <= i < |node.parameters| =>
        ParameterText(node.parameters[i]));
      summary := FunctionSummary(id, node.name, parameters, node.returnType, lineCount,
        complexity, node.location, hasLoops, hasConditionals);
    }

    /**
     * Whether a loop occurs in `body`: the search stops at the first loop and looks inside
     * `if` branches; a loop nested in a loop is never needed, the outer one answers first.
     */
    method CheckHasLoops(body: seq<AstNode>) returns (found: bool)
      ensures found == HasLoop(body)
    {
      for i := 0 to |body|
        invariant !HasLoop(body[..i])
      {
        var node := body[i];
        SearchStep(body, i);
        PrefixInWhole(body, i + 1);
        WalkLoop(node);
        if node.ForStatement? || node.WhileStatement? {
          return true;
        }
        if node.IfStatement? {
          var inBranch := CheckHasLoops(node.thenBranch);
          if !inBranch && node.elseBranch.Present? {
            inBranch := CheckHasLoops(node.elseBranch.stmts);
          }
          if inBranch {
            return true;
          }
        }
      }
      assert body[..|body|] == body;
      return false;
    }

    /**
     * Whether an `if` occurs in `body`: the search stops at the first `if` and looks inside
     * loop bodies.
     */
    method CheckHasConditionals(body: seq<AstNode>) returns (found: bool)
      ensures found == HasIf(body)
    {
      for i := 0 to |body|
        invariant !HasIf(body[..i])
      {
        var node := body[i];
        SearchStep(body, i);
        PrefixInWhole(body, i + 1);
        WalkIf(node);
        if node.IfStatement? {
          return true;
        }
        if node.ForStatement? || node.WhileStatement? {
          var inBody := CheckHasConditionals(node.body);
          if inBody {
            return true;
          }
        }
      }
      assert body[..|body|] == body;
      return false;
    }

    /** The simplified cyclomatic complexity of a statement list, accumulated statement by
        statement. */
    method CalculateComplexity(body: seq<AstNode>) returns (complexity: int)
      ensures complexity == Complexity(body)
    {
      complexity := 1;
      for i := 0 to |body|
        invariant complexity == Complexity(body[..i])
      {
        var node := body[i];
        assert body[..i + 1][..i] == body[..i];
        if node.IfStatement? {
          complexity := complexity + 1;
          var inThen := CalculateComplexity(node.thenBranch);
          complexity := complexity + inThen;
          if node.elseBranch.Present? {
            var inElse := CalculateComplexity(node.elseBranch.stmts);
            complexity := complexity + inElse;
          }
        } else if node.ForStatement? || node.WhileStatement? {
          complexity := complexity + 1;
          var inBody := CalculateComplexity(node.body);
          complexity := complexity + inBody;
        }
      }
      assert body[..|body|] == body;
    }

    /** The calls a function declaration makes, numbered by the call counter. */
    method ExtractFunctionCalls(node: AstNode) returns (calls: seq<FunctionCall>)
      requires node.FunctionDeclaration?
      modifies `callIdCounter
      ensures calls == NumberCalls(CallSitesOf(node.body, node.name), old(callIdCounter))
      ensures callIdCounter == old(callIdCounter) + |CallSitesOf(node.body, node.name)|
    {
      calls := FindCallExpressionsRecursive(node.body, node.name, []);
      AppendEmpty(calls);
    }

    /**
     * Appends to `calls` the calls of `body` in pre-order: a non-empty expression statement
     * whose text matches the call pattern yields one call, and `if` branches and loop bodies
     * are searched in turn.
     */
    method FindCallExpressionsRecursive(body: seq<AstNode>, callerName: string,
                                        calls: seq<FunctionCall>)
      returns (result: seq<FunctionCall>)
      modifies `callIdCounter
      ensures result == calls + NumberCalls(CallSitesOf(body, callerName), old(callIdCounter))
      ensures callIdCounter == old(callIdCounter) + |CallSitesOf(body, callerName)|
    {
      ghost var c0 := callIdCounter;
      result := calls;
      assert body[..0] == [];
      AppendEmpty(calls);
      for i := 0 to |body|
        invariant result == calls + NumberCalls(CallSitesOf(body[..i], callerName), c0)
        invariant callIdCounter == c0 + |CallSitesOf(body[..i], callerName)|
      {
        var node := body[i];
        ghost var before, cb := result, callIdCounter;
        if node.ExpressionStatement? && node.expression != "" {
          var callMatch := Callee(node.expression);
          if callMatch.Some? {
            var id := callIdCounter;
            callIdCounter := callIdCounter + 1;
            result := result + [FunctionCall(id, callerName, callMatch.value, node.location)];
          }
        }
        if node.IfStatement? {
          result := FindCallExpressionsRecursive(node.thenBranch, callerName, result);
          ghost var mid, cm := result, callIdCounter;
          if node.elseBranch.Present? {
            result := FindCallExpressionsRecursive(node.elseBranch.stmts, callerName, result);
          }
          IfCallsAdded(node, callerName, before, cb, mid, cm, result, callIdCounter);
        } else if node.ForStatement? || node.WhileStatement? {
          result := FindCallExpressionsRecursive(node.body, callerName, result);
          WalkSites(node, callerName);
        } else {
          OwnCallAdded(node, callerName, before, cb, result, callIdCounter);
        }
        CallSitesStep(body, i, callerName);
        NumbersAppended(calls, CallSitesOf(body[..i], callerName), SitesIn(Walk(body[i]), callerName),
                        c0, before, cb, result);
      }
      assert body[..|body|] == body;
    }
  }
}
