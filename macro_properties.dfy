/**
 * Properties of the macro-view reference definitions: how the pre-order walk splits over
 * concatenation, the closed form of the complexity measure, when a function counts as
 * straight-line code, and what the extracted calls are.
 */
module MacroProperties {
  import opened Wrappers
  import opened Ast
  import opened IR
  import opened CallPattern
  import opened MacroSpec
  import opened SeqFacts

  /** The pre-order of a concatenation is the concatenation of the pre-orders. */
  lemma {:induction false} FlattenAppend(a: seq<AstNode>, c: seq<AstNode>)
    ensures Flatten(a + c) == Flatten(a) + Flatten(c)
    decreases |c|
  {
    if c == [] {
      AppendEmpty(a);
      AppendEmpty(Flatten(a));
    } else {
      var init := c[..|c| - 1];
      assert (a + c)[..|a + c| - 1] == a + init;
      assert (a + c)[|a + c| - 1] == c[|c| - 1];
      FlattenAppend(a, init);
      Regroup(Flatten(a), Flatten(init), Walk(c[|c| - 1]));
    }
  }

  /** Extending a prefix of a statement list by one statement extends its pre-order by that
      statement's walk. */
  lemma FlattenStep(ss: seq<AstNode>, i: nat)
    requires i < |ss|
    ensures Flatten(ss[..i + 1]) == Flatten(ss[..i]) + Walk(ss[i])
  {
    assert ss[..i + 1][..i] == ss[..i];
  }

  /** Whatever the pre-order of a prefix holds, the pre-order of the whole list holds. */
  lemma PrefixInWhole(ss: seq<AstNode>, i: nat)
    requires i <= |ss|
    ensures LoopIn(Flatten(ss[..i])) ==> HasLoop(ss)
    ensures IfIn(Flatten(ss[..i])) ==> HasIf(ss)
  {
    assert ss == ss[..i] + ss[i..];
    FlattenAppend(ss[..i], ss[i..]);
  }

  /** A statement's walk holds a loop when the statement is one, or when it is an `if` one of
      whose branches holds a loop. */
  lemma WalkLoop(s: AstNode)
    ensures LoopIn(Walk(s)) <==>
      s.IsLoop()
      || (s.IfStatement? && (HasLoop(s.thenBranch)
                             || (s.elseBranch.Present? && HasLoop(s.elseBranch.stmts))))
  {
    assert Walk(s)[0] == s;
    if s.IfStatement? {
      var rest := if s.elseBranch.Present? then Flatten(s.elseBranch.stmts) else [];
      assert Walk(s) == [s] + Flatten(s.thenBranch) + rest;
      if LoopIn(Walk(s)) {
        var n :| n in Walk(s) && n.IsLoop();
        assert n in Flatten(s.thenBranch) || n in rest;
      }
    }
  }

  /** A statement's walk holds an `if` when the statement is one, or when it is a loop whose
      body holds one. */
  lemma WalkIf(s: AstNode)
    ensures IfIn(Walk(s)) <==> s.IfStatement? || (s.IsLoop() && HasIf(s.body))
  {
    assert Walk(s)[0] == s;
    if s.IsLoop() {
      assert Walk(s) == [s] + Flatten(s.body);
      if IfIn(Walk(s)) {
        var n :| n in Walk(s) && n.IfStatement?;
        assert n in Flatten(s.body);
      }
    }
  }

  /** One step of a search over a statement list, for loops and for `if` statements. */
  lemma SearchStep(ss: seq<AstNode>, i: nat)
    requires i < |ss|
    ensures HasLoop(ss[..i + 1]) <==> HasLoop(ss[..i]) || LoopIn(Walk(ss[i]))
    ensures HasIf(ss[..i + 1]) <==> HasIf(ss[..i]) || IfIn(Walk(ss[i]))
  {
    FlattenStep(ss, i);
  }

  lemma {:induction false} BranchingAppend(a: seq<AstNode>, c: seq<AstNode>)
    ensures Branching(a + c) == Branching(a) + Branching(c)
    decreases |c|
  {
    if c == [] {
      AppendEmpty(a);
    } else {
      assert (a + c)[..|a + c| - 1] == a + c[..|c| - 1];
      BranchingAppend(a, c[..|c| - 1]);
    }
  }

  lemma {:induction false} ElsePresentAppend(a: seq<AstNode>, c: seq<AstNode>)
    ensures ElsePresent(a + c) == ElsePresent(a) + ElsePresent(c)
    decreases |c|
  {
    if c == [] {
      AppendEmpty(a);
    } else {
      assert (a + c)[..|a + c| - 1] == a + c[..|c| - 1];
      ElsePresentAppend(a, c[..|c| - 1]);
    }
  }

  /** Every `if` with an else branch is also a branching statement. */
  lemma {:induction false} ElsePresentAtMost(ns: seq<AstNode>)
    ensures ElsePresent(ns) <= Branching(ns)
  {
    if ns != [] {
      ElsePresentAtMost(ns[..|ns| - 1]);
    }
  }

  /** No statement branches exactly when there is neither a loop nor an `if`. */
  lemma {:induction false} BranchingZero(ns: seq<AstNode>)
    ensures Branching(ns) == 0 <==> !LoopIn(ns) && !IfIn(ns)
  {
    if ns != [] {
      var init, last := ns[..|ns| - 1], ns[|ns| - 1];
      BranchingZero(init);
      assert ns == init + [last];
      assert forall n :: n in ns <==> n in init || n == last;
    }
  }

  /**
   * The complexity of a statement list is 1, plus 2 for each `if` and loop at any depth,
   * plus 1 for each `if` whose else branch is present: every branching statement adds 1
   * itself and 1 for the base of the list it owns, and a present else branch adds the base
   * of its own list.
   */
  lemma {:induction false} ComplexityClosedForm(ss: seq<AstNode>)
    ensures Complexity(ss) == 1 + 2 * Branching(Flatten(ss)) + ElsePresent(Flatten(ss))
    decreases ss, 2
  {
    if ss != [] {
      var init, last := ss[..|ss| - 1], ss[|ss| - 1];
      ComplexityClosedForm(init);
      WeightClosedForm(last);
      BranchingAppend(Flatten(init), Walk(last));
      ElsePresentAppend(Flatten(init), Walk(last));
    }
  }

  /** The weight of one statement in the same terms, counted over its walk. */
  lemma {:induction false} WeightClosedForm(s: AstNode)
    ensures Weight(s) == 2 * Branching(Walk(s)) + ElsePresent(Walk(s))
    decreases s, 1
  {
    assert [s][..0] == [];
    match s
    case IfStatement(_, thenBranch, elseBranch, _) =>
      ComplexityClosedForm(thenBranch);
      var rest := if elseBranch.Present? then Flatten(elseBranch.stmts) else [];
      if elseBranch.Present? {
        ComplexityClosedForm(elseBranch.stmts);
      }
      BranchingAppend([s], Flatten(thenBranch));
      BranchingAppend([s] + Flatten(thenBranch), rest);
      ElsePresentAppend([s], Flatten(thenBranch));
      ElsePresentAppend([s] + Flatten(thenBranch), rest);
    case ForStatement(_, _, _, body, _) =>
      ComplexityClosedForm(body);
      BranchingAppend([s], Flatten(body));
      ElsePresentAppend([s], Flatten(body));
    case WhileStatement(_, body, _) =>
      ComplexityClosedForm(body);
      BranchingAppend([s], Flatten(body));
      ElsePresentAppend([s], Flatten(body));
    case FunctionDeclaration(_, _, _, _, _) =>
    case VariableDeclaration(_, _, _, _) =>
    case ReturnStatement(_, _) =>
    case ExpressionStatement(_, _) =>
  }

  /** The complexity is at least 1 and at most 1 + 3 per branching statement. */
  lemma ComplexityBounds(ss: seq<AstNode>)
    ensures 1 <= Complexity(ss) <= 1 + 3 * Branching(Flatten(ss))
  {
    ComplexityClosedForm(ss);
    ElsePresentAtMost(Flatten(ss));
  }

  /** A function body has complexity 1 exactly when it contains no loop and no `if`. */
  lemma ComplexityOneIff(ss: seq<AstNode>)
    ensures Complexity(ss) == 1 <==> !HasLoop(ss) && !HasIf(ss)
  {
    ComplexityClosedForm(ss);
    ElsePresentAtMost(Flatten(ss));
    BranchingZero(Flatten(ss));
  }

  /** A lone `if` without an else branch and with an empty then branch has complexity 3. */
  lemma LoneIfComplexity(c: string, loc: SourceLocation)
    ensures Complexity([IfStatement(c, [], Absent, loc)]) == 3
  {
  }

  /** An else branch that is present but empty still adds the base 1 of its list. */
  lemma EmptyElseComplexity(c: string, loc: SourceLocation)
    ensures Complexity([IfStatement(c, [], Present([]), loc)]) == 4
  {
  }

  /** A loop whose body is such a lone `if` has complexity 5. */
  lemma LoopOverIfComplexity(c: string, loc: SourceLocation)
    ensures Complexity([WhileStatement(c, [IfStatement(c, [], Absent, loc)], loc)]) == 5
  {
    var loop := WhileStatement(c, [IfStatement(c, [], Absent, loc)], loc);
    LoneIfComplexity(c, loc);
    assert Weight(loop) == 4;
    assert [loop][..0] == [];
  }

  lemma {:induction false} SitesInAppend(a: seq<AstNode>, c: seq<AstNode>, caller: string)
    ensures SitesIn(a + c, caller) == SitesIn(a, caller) + SitesIn(c, caller)
    decreases |c|
  {
    if c == [] {
      AppendEmpty(a);
      AppendEmpty(SitesIn(a, caller));
    } else {
      var init := c[..|c| - 1];
      assert (a + c)[..|a + c| - 1] == a + init;
      assert (a + c)[|a + c| - 1] == c[|c| - 1];
      SitesInAppend(a, init, caller);
      Regroup(SitesIn(a, caller), SitesIn(init, caller), SiteOf(c[|c| - 1], caller));
    }
  }

  /** The calls of a prefix extended by one statement: those of the statement's walk follow. */
  lemma CallSitesStep(ss: seq<AstNode>, i: nat, caller: string)
    requires i < |ss|
    ensures CallSitesOf(ss[..i + 1], caller)
         == CallSitesOf(ss[..i], caller) + SitesIn(Walk(ss[i]), caller)
  {
    FlattenStep(ss, i);
    SitesInAppend(Flatten(ss[..i]), Walk(ss[i]), caller);
  }

  /**
   * The calls in one statement's walk: its own call when it is an expression statement,
   * else those of its then and else branches or of its loop body, in that order.
   */
  lemma WalkSites(s: AstNode, caller: string)
    ensures s.IfStatement? ==>
              SitesIn(Walk(s), caller)
              == CallSitesOf(s.thenBranch, caller)
                 + (if s.elseBranch.Present? then CallSitesOf(s.elseBranch.stmts, caller) else [])
    ensures s.IsLoop() ==> SitesIn(Walk(s), caller) == CallSitesOf(s.body, caller)
    ensures !s.IfStatement? && !s.IsLoop() ==> SitesIn(Walk(s), caller) == SiteOf(s, caller)
  {
    assert [s][..0] == [];
    assert SitesIn([s], caller) == SiteOf(s, caller);
    if s.IfStatement? {
      var rest := if s.elseBranch.Present? then Flatten(s.elseBranch.stmts) else [];
      SitesInAppend([s], Flatten(s.thenBranch), caller);
      SitesInAppend([s] + Flatten(s.thenBranch), rest, caller);
      AppendEmpty(CallSitesOf(s.thenBranch, caller));
      if !s.elseBranch.Present? {
        assert SitesIn(rest, caller) == [];
      }
    } else if s.IsLoop() {
      SitesInAppend([s], Flatten(s.body), caller);
    }
  }

  /**
   * Every call found in `ns` names `caller` as its caller, and its callee and location come
   * from a non-empty expression statement of `ns` whose text matches the call pattern.
   */
  lemma {:induction false} SitesInSound(ns: seq<AstNode>, caller: string, k: nat)
    requires k < |SitesIn(ns, caller)|
    ensures SitesIn(ns, caller)[k].caller == caller
    ensures exists n :: n in ns && n.ExpressionStatement? && n.expression != ""
                        && Callee(n.expression) == Some(SitesIn(ns, caller)[k].callee)
                        && n.location == SitesIn(ns, caller)[k].location
  {
    var init, last := ns[..|ns| - 1], ns[|ns| - 1];
    assert last in ns;
    if k < |SitesIn(init, caller)| {
      SitesInSound(init, caller, k);
      var n :| n in init && n.ExpressionStatement? && n.expression != ""
               && Callee(n.expression) == Some(SitesIn(ns, caller)[k].callee)
               && n.location == SitesIn(ns, caller)[k].location;
      assert n in ns;
    }
  }

  /** The call record at position `k` is the `k`-th call, numbered `base + k`. */
  lemma {:induction false} NumberCallsAt(sites: seq<CallSite>, base: nat, k: nat)
    requires k < |sites|
    ensures NumberCalls(sites, base)[k]
         == FunctionCall(base + k, sites[k].caller, sites[k].callee, sites[k].location)
  {
    if k < |sites| - 1 {
      NumberCallsAt(sites[..|sites| - 1], base, k);
    }
  }

  /** Numbering two lists of calls one after the other numbers their concatenation. */
  lemma {:induction false} NumberCallsAppend(a: seq<CallSite>, c: seq<CallSite>, base: nat)
    ensures NumberCalls(a + c, base) == NumberCalls(a, base) + NumberCalls(c, base + |a|)
    decreases |c|
  {
    if c == [] {
      AppendEmpty(a);
      AppendEmpty(NumberCalls(a, base));
    } else {
      var init, last := c[..|c| - 1], c[|c| - 1];
      assert (a + c)[..|a + c| - 1] == a + init;
      assert (a + c)[|a + c| - 1] == last;
      NumberCallsAppend(a, init, base);
      Regroup(NumberCalls(a, base), NumberCalls(init, base + |a|),
        [FunctionCall(base + |a| + |c| - 1, last.caller, last.callee, last.location)]);
    }
  }

  /**
   * Records appended in two runs, the second numbered on from where the first stopped, are
   * the records of the two lists of calls together.
   */
  lemma NumbersAppended(calls: seq<FunctionCall>, done: seq<CallSite>, next: seq<CallSite>,
                        c0: nat, before: seq<FunctionCall>, cb: nat, result: seq<FunctionCall>)
    requires before == calls + NumberCalls(done, c0)
    requires cb == c0 + |done|
    requires result == before + NumberCalls(next, cb)
    ensures result == calls + NumberCalls(done + next, c0)
  {
    NumberCallsAppend(done, next, c0);
    Regroup(calls, NumberCalls(done, c0), NumberCalls(next, cb));
  }

  /** Numbering no calls gives no records; numbering one call gives one record. */
  lemma NumberFew(site: CallSite, base: nat)
    ensures NumberCalls([], base) == []
    ensures NumberCalls([site], base) == [FunctionCall(base, site.caller, site.callee, site.location)]
  {
    assert [site][..0] == [];
  }

  /** The call identifiers are consecutive from `base`, so they are distinct and all below
      `base` plus the number of calls. */
  lemma NumberCallsDistinct(sites: seq<CallSite>, base: nat, j: nat, k: nat)
    requires j < k < |sites|
    ensures NumberCalls(sites, base)[j].id < NumberCalls(sites, base)[k].id
    ensures NumberCalls(sites, base)[k].id < base + |sites|
  {
    NumberCallsAt(sites, base, j);
    NumberCallsAt(sites, base, k);
  }

  /** The summary at position `k` is that of the `k`-th function, numbered `base + k`. */
  lemma {:induction false} SummariesAt(fns: seq<AstNode>, base: nat, k: nat)
    requires forall n :: n in fns ==> n.FunctionDeclaration?
    requires k < |fns|
    ensures Summaries(fns, base)[k] == Summarize(fns[k], base + k)
  {
    if k < |fns| - 1 {
      var init := fns[..|fns| - 1];
      assert forall n :: n in init ==> n in fns;
      SummariesAt(init, base, k);
    }
  }

  /** Summaries of one more function: its summary is numbered right after the others. */
  lemma SummariesAppend(fns: seq<AstNode>, fn: AstNode, base: nat)
    requires forall n :: n in fns ==> n.FunctionDeclaration?
    requires fn.FunctionDeclaration?
    ensures Summaries(fns + [fn], base) == Summaries(fns, base) + [Summarize(fn, base + |fns|)]
  {
    assert (fns + [fn])[..|fns|] == fns;
  }

  /** A top-level statement that is not a function declaration contributes nothing. */
  lemma FileSkip(ss: seq<AstNode>, i: nat)
    requires i < |ss| && !ss[i].FunctionDeclaration?
    ensures TopFunctions(ss[..i + 1]) == TopFunctions(ss[..i])
    ensures FileCallSites(ss[..i + 1]) == FileCallSites(ss[..i])
  {
    assert ss[..i + 1][..i] == ss[..i];
    AppendEmpty(TopFunctions(ss[..i]));
    AppendEmpty(FileCallSites(ss[..i]));
  }
}
