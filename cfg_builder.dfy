/**
 * The builder object of src/core/transformer/IRTransformer.ts. Its two counters and two
 * arrays are fields that `Transform` resets and the private transforms extend; every
 * transform is specified against the reference semantics in `CfgSpec`.
 */
module CfgBuilder {
  import opened Wrappers
  import opened Ast
  import opened IR
  import opened CfgSpec
  import opened CfgProperties
  import opened SeqFacts

  /** The chain over one more identifier ends with one more edge. */
  lemma ChainStep(ids: seq<NodeId>, i: nat)
    requires i + 1 < |ids|
    ensures Chain(ids[..i + 2]) == Chain(ids[..i + 1]) + [Wire(ids[i], ids[i + 1], None)]
  {
    assert ids[..i + 2][..i + 1] == ids[..i + 1];
  }

  /** The prefix one longer is the prefix followed by the next element. */
  lemma PrefixStep(ss: seq<AstNode>, i: nat)
    requires i < |ss|
    ensures ss[..i + 1] != [] && ss[..i + 1][..i] == ss[..i] && ss[..i + 1][i] == ss[i]
  {
    assert ss[..i + 1][..i] == ss[..i];
  }

  /**
   * One more statement transformed from counter `mid`: the nodes, edges, returned ids and
   * counter then describe the list one statement longer.
   */
  lemma StatementStep(ss: seq<AstNode>, i: nat, b: nat, mid: nat, n0: seq<IRNode>,
                      n1: seq<IRNode>, n2: seq<IRNode>, w0: seq<Wire>, w1: seq<Wire>,
                      w2: seq<Wire>, ids1: seq<NodeId>, ids2: seq<NodeId>, counter: nat)
    requires i < |ss| && mid == b + SizeList(ss[..i])
    requires n1 == n0 + NodesOfList(ss[..i], b) && n2 == n1 + NodesOf(ss[i], mid)
    requires w1 == w0 + WiresOfList(ss[..i], b) && w2 == w1 + WiresOf(ss[i], mid)
    requires ids1 == ReturnIds(ss[..i], b) && ids2 == ids1 + [mid]
    requires counter == mid + Size(ss[i])
    ensures counter == b + SizeList(ss[..i + 1])
    ensures n2 == n0 + NodesOfList(ss[..i + 1], b)
    ensures w2 == w0 + WiresOfList(ss[..i + 1], b)
    ensures ids2 == ReturnIds(ss[..i + 1], b)
  {
    assert counter == b + SizeList(ss[..i + 1]) && ids2 == ReturnIds(ss[..i + 1], b) by {
      PrefixStep(ss, i);
    }
    assert NodesOfList(ss[..i + 1], b) == NodesOfList(ss[..i], b) + NodesOf(ss[i], mid) by {
      PrefixStep(ss, i);
    }
    assert WiresOfList(ss[..i + 1], b) == WiresOfList(ss[..i], b) + WiresOf(ss[i], mid) by {
      PrefixStep(ss, i);
    }
    Regroup(n0, NodesOfList(ss[..i], b), NodesOf(ss[i], mid));
    Regroup(w0, WiresOfList(ss[..i], b), WiresOf(ss[i], mid));
  }

  /**
   * The nodes an `if` transform pushes, step by step, are the nodes `IfNodes` lists; `tb`
   * and `eb` are the counter values at which the then and else statements were transformed.
   */
  lemma IfNodesPushed(s: AstNode, b: nat, tb: nat, eb: nat, n0: seq<IRNode>, n1: seq<IRNode>,
                      n2: seq<IRNode>, n3: seq<IRNode>, thenIds: seq<NodeId>,
                      elseIds: seq<NodeId>, control: IRNode, merge: IRNode)
    requires s.IfStatement? && tb == b + 2 && eb == ElseStart(s, b)
    requires thenIds == ReturnIds(s.thenBranch, tb)
    requires elseIds == ReturnIds(ElseStatements(s.elseBranch), eb)
    requires control == ControlFlowNode(b, If, Some(s.condition), IfBranches(thenIds, elseIds),
                                        s.location)
    requires merge == ProcessNode(b + 1, Expression, MergeLabel, None, s.location)
    requires n1 == n0 + NodesOfList(s.thenBranch, tb)
    requires n2 == n1 + BranchNodes(s.elseBranch, eb)
    requires n3 == n2 + [control] + [merge]
    ensures n3 == n0 + IfNodes(s, b)
  {
    PushTwoAfter(n0, NodesOfList(s.thenBranch, b + 2), BranchNodes(s.elseBranch, ElseStart(s, b)),
                 control, merge);
  }

  /** The edges an `if` transform adds, step by step, are the edges `IfWires` lists. */
  lemma IfWiresAdded(s: AstNode, b: nat, tb: nat, eb: nat, w0: seq<Wire>, w1: seq<Wire>,
                     w2: seq<Wire>, w3: seq<Wire>, thenIds: seq<NodeId>, elseIds: seq<NodeId>)
    requires s.IfStatement? && tb == b + 2 && eb == ElseStart(s, b)
    requires thenIds == ReturnIds(s.thenBranch, tb)
    requires elseIds == ReturnIds(ElseStatements(s.elseBranch), eb)
    requires w1 == w0 + WiresOfList(s.thenBranch, tb)
    requires w2 == w1 + BranchWires(s.elseBranch, eb)
    requires w3 == w2 + Link(b, thenIds, b + 1, Some(TrueLabel))
                      + Link(b, elseIds, b + 1, Some(FalseLabel))
    ensures w3 == w0 + IfWires(s, b)
  {
    Regroup4(w0, WiresOfList(s.thenBranch, b + 2), BranchWires(s.elseBranch, ElseStart(s, b)),
             Link(b, thenIds, b + 1, Some(TrueLabel)), Link(b, elseIds, b + 1, Some(FalseLabel)));
  }

  /** The nodes a loop transform pushes, step by step, are the nodes `LoopNodes` lists. */
  lemma LoopNodesPushed(s: AstNode, b: nat, n0: seq<IRNode>, n1: seq<IRNode>, n2: seq<IRNode>,
                        control: IRNode, exit: IRNode)
    requires s.IsLoop() && control == ControlNode(s, b) && exit == JoinNode(s, b)
    requires n1 == n0 + NodesOfList(s.body, b + 2)
    requires n2 == n1 + [control] + [exit]
    ensures n2 == n0 + LoopNodes(s, b)
  {
    PushTwo(n0, NodesOfList(s.body, b + 2), control, exit);
  }

  /** The edges a loop transform adds, step by step, are the edges `LoopWires` lists. */
  lemma LoopWiresAdded(s: AstNode, b: nat, w0: seq<Wire>, w1: seq<Wire>, w2: seq<Wire>,
                       bodyIds: seq<NodeId>, cont: string, exit: string)
    requires s.IsLoop() && cont == ContinueLabel(s) && exit == ExitLabel(s)
    requires bodyIds == ReturnIds(s.body, b + 2)
    requires w1 == w0 + WiresOfList(s.body, b + 2)
    requires w2 == w1 + (if bodyIds == [] then []
                         else Thread(b, bodyIds, b, Some(cont), Some(LoopBackLabel)))
                      + [Wire(b, b + 1, Some(exit))]
    ensures w2 == w0 + LoopWires(s, b)
  {
    Regroup3(w0, WiresOfList(s.body, b + 2), LoopBack(s, b), [Wire(b, b + 1, Some(exit))]);
  }

  class IRTransformer {
    var nodeIdCounter: nat
    var edgeIdCounter: nat
    var nodes: seq<IRNode>
    var edges: seq<IREdge>
    /** The edges without their identifiers, in the order they were added. */
    ghost var wires: seq<Wire>

    /** The i-th edge has identifier i and type control, so `|edges| == edgeIdCounter`. */
    ghost predicate Valid()
      reads this`edges, this`edgeIdCounter, this`wires
    {
      |edges| == edgeIdCounter && edges == Numbered(wires)
    }

    constructor ()
      ensures Valid()
      ensures nodeIdCounter == 0 && edgeIdCounter == 0 && nodes == [] && edges == []
    {
      nodeIdCounter, edgeIdCounter := 0, 0;
      nodes, edges := [], [];
      wires := [];
    }

    /** `node_${this.nodeIdCounter++}` */
    method GenerateNodeId() returns (id: NodeId)
      modifies this`nodeIdCounter
      ensures id == old(nodeIdCounter) && nodeIdCounter == old(nodeIdCounter) + 1
    {
      id := nodeIdCounter;
      nodeIdCounter := nodeIdCounter + 1;
    }

    /** `edge_${this.edgeIdCounter++}` */
    method GenerateEdgeId() returns (id: EdgeId)
      modifies this`edgeIdCounter
      ensures id == old(edgeIdCounter) && edgeIdCounter == old(edgeIdCounter) + 1
    {
      id := edgeIdCounter;
      edgeIdCounter := edgeIdCounter + 1;
    }

    /** Appends one control edge with a fresh identifier; edges are never modified. */
    method AddEdge(source: NodeId, target: NodeId, labelText: Option<string>)
      requires Valid()
      modifies this`edges, this`edgeIdCounter, this`wires
      ensures Valid()
      ensures wires == old(wires) + [Wire(source, target, labelText)]
      ensures edges == old(edges) + [IREdge(old(edgeIdCounter), source, target, labelText, Control)]
    {
      NumberedAppend(wires, Wire(source, target, labelText));
      var id := GenerateEdgeId();
      edges := edges + [IREdge(id, source, target, labelText, Control)];
      wires := wires + [Wire(source, target, labelText)];
    }

    /**
     * Resets both counters and both arrays, then transforms every top-level node (the ids
     * they return are not connected). Node ids are exactly 0 .. |nodes| - 1, each used once,
     * edge ids are exactly 0 .. |edges| - 1, every edge joins two existing nodes, and no
     * edge leaves a merge, loop-exit or function-end node.
     */
    method Transform(ast: Program, language: string, file: string, timestamp: int)
      returns (ir: IRGraph)
      modifies this
      ensures Valid()
      ensures ir == IRGraph("1.0.0", IRMetadata(language, file, timestamp),
                            NodesOfList(ast.body, 0), Numbered(WiresOfList(ast.body, 0)))
      ensures nodes == ir.nodes && edges == ir.edges
      ensures nodeIdCounter == SizeList(ast.body) == |ir.nodes|
      ensures edgeIdCounter == |ir.edges|
      ensures forall k :: IdCount(ir.nodes, k) == if 0 <= k < nodeIdCounter then 1 else 0
      ensures forall i :: 0 <= i < |ir.edges| ==>
                ir.edges[i].id == i && ir.edges[i].edgeType == Control
                && ir.edges[i].source < nodeIdCounter && ir.edges[i].target < nodeIdCounter
                && ir.edges[i].source !in JoinIdsList(ast.body, 0)
    {
      nodeIdCounter, edgeIdCounter := 0, 0;
      nodes, edges := [], [];
      wires := [];
      for i := 0 to |ast.body|
        invariant Valid()
        invariant nodeIdCounter == SizeList(ast.body[..i])
        invariant nodes == NodesOfList(ast.body[..i], 0)
        invariant wires == WiresOfList(ast.body[..i], 0)
      {
        var _ := TransformNode(ast.body[i]);
        assert ast.body[..i + 1][..i] == ast.body[..i];
      }
      assert ast.body[..|ast.body|] == ast.body;
      ir := IRGraph("1.0.0", IRMetadata(language, file, timestamp), nodes, edges);
      EachIdOnce(ast.body, 0);
      WiredList(ast.body, 0);
      forall i | 0 <= i < |edges|
        ensures edges[i].source < nodeIdCounter && edges[i].target < nodeIdCounter
        ensures edges[i].source !in JoinIdsList(ast.body, 0)
      {
        assert wires[i] in wires;
      }
    }

    /** Dispatches on the statement kind; the returned id is the first one minted. */
    method TransformNode(s: AstNode) returns (id: NodeId)
      requires Valid()
      modifies this
      decreases s, 1
      ensures Valid()
      ensures id == old(nodeIdCounter) && nodeIdCounter == old(nodeIdCounter) + Size(s)
      ensures nodes == old(nodes) + NodesOf(s, old(nodeIdCounter))
      ensures wires == old(wires) + WiresOf(s, old(nodeIdCounter))
    {
      match s
      case FunctionDeclaration(_, _, _, _, _) => id := TransformFunction(s);
      case IfStatement(_, _, _, _) => id := TransformIf(s);
      case ForStatement(_, _, _, _, _) => id := TransformFor(s);
      case WhileStatement(_, _, _) => id := TransformWhile(s);
      case VariableDeclaration(_, _, _, _) => id := TransformVariable(s);
      case ReturnStatement(_, _) => id := TransformReturn(s);
      case ExpressionStatement(_, _) => id := TransformExpression(s);
    }

    /**
     * Transforms each statement of a list in order and collects the ids they return, as
     * every compound transform does for its children.
     */
    method TransformStatements(ss: seq<AstNode>) returns (ids: seq<NodeId>)
      requires Valid()
      modifies this
      decreases ss, 2
      ensures Valid()
      ensures nodeIdCounter == old(nodeIdCounter) + SizeList(ss)
      ensures nodes == old(nodes) + NodesOfList(ss, old(nodeIdCounter))
      ensures wires == old(wires) + WiresOfList(ss, old(nodeIdCounter))
      ensures ids == ReturnIds(ss, old(nodeIdCounter))
    {
      ghost var b, n0, w0 := nodeIdCounter, nodes, wires;
      ids := [];
      assert ss[..0] == [];
      AppendEmpty(n0);
      AppendEmpty(w0);
      for i := 0 to |ss|
        invariant Valid()
        invariant nodeIdCounter == b + SizeList(ss[..i])
        invariant nodes == n0 + NodesOfList(ss[..i], b)
        invariant wires == w0 + WiresOfList(ss[..i], b)
        invariant ids == ReturnIds(ss[..i], b)
      {
        ghost var mid, n1, w1, ids1 := nodeIdCounter, nodes, wires, ids;
        var stmtId := TransformNode(ss[i]);
        ids := ids + [stmtId];
        StatementStep(ss, i, b, mid, n0, n1, nodes, w0, w1, wires, ids1, ids, nodeIdCounter);
      }
      assert ss[..|ss|] == ss;
    }

    /**
     * Adds the edge from `from` to the first of `ids` (labelled `first`), one unlabelled edge
     * between each consecutive pair, and the edge from the last of `ids` to `to` (labelled
     * `last`).
     */
    method AddThread(from: NodeId, ids: seq<NodeId>, to: NodeId, first: Option<string>,
                     last: Option<string>)
      requires ids != [] && Valid()
      modifies this`edges, this`edgeIdCounter, this`wires
      ensures Valid()
      ensures wires == old(wires) + Thread(from, ids, to, first, last)
    {
      ghost var w0, head := wires, [Wire(from, ids[0], first)];
      AddEdge(from, ids[0], first);
      AppendEmpty(w0 + head);
      for i := 0 to |ids| - 1
        invariant Valid()
        invariant wires == w0 + head + Chain(ids[..i + 1])
      {
        AddEdge(ids[i], ids[i + 1], None);
        ChainStep(ids, i);
        Regroup(w0 + head, Chain(ids[..i + 1]), [Wire(ids[i], ids[i + 1], None)]);
      }
      assert ids[..|ids|] == ids;
      AddEdge(ids[|ids| - 1], to, last);
      Regroup3(w0, head, Chain(ids), [Wire(ids[|ids| - 1], to, last)]);
    }

    /** Threads `ids` from `from` to `to`, or adds the single edge `from -> to` when empty. */
    method AddLink(from: NodeId, ids: seq<NodeId>, to: NodeId, first: Option<string>)
      requires Valid()
      modifies this`edges, this`edgeIdCounter, this`wires
      ensures Valid()
      ensures wires == old(wires) + Link(from, ids, to, first)
    {
      if |ids| > 0 {
        AddThread(from, ids, to, first, None);
      } else {
        AddEdge(from, to, first);
      }
    }

    /**
     * The edges an `if` transform adds once its nodes are pushed: the `true` edge threaded
     * through the then statements to the merge node, then the `false` edge through the else
     * statements.
     */
    method ConnectIf(nodeId: NodeId, thenIds: seq<NodeId>, elseIds: seq<NodeId>, mergeId: NodeId)
      requires Valid()
      modifies this`edges, this`edgeIdCounter, this`wires
      ensures Valid()
      ensures wires == old(wires) + Link(nodeId, thenIds, mergeId, Some(TrueLabel))
                                  + Link(nodeId, elseIds, mergeId, Some(FalseLabel))
    {
      AddLink(nodeId, thenIds, mergeId, Some(TrueLabel));
      AddLink(nodeId, elseIds, mergeId, Some(FalseLabel));
    }

    /**
     * The edges every loop transform adds once its nodes are pushed: a non-empty body is
     * threaded from the loop node (labelled `cont`) back to it (labelled `ループ`), then the
     * loop node is joined to its exit node (labelled `exit`).
     */
    method ConnectLoop(nodeId: NodeId, bodyIds: seq<NodeId>, exitId: NodeId, cont: string,
                       exit: string)
      requires Valid()
      modifies this`edges, this`edgeIdCounter, this`wires
      ensures Valid()
      ensures wires == old(wires)
                       + (if bodyIds == [] then []
                          else Thread(nodeId, bodyIds, nodeId, Some(cont), Some(LoopBackLabel)))
                       + [Wire(nodeId, exitId, Some(exit))]
    {
      ghost var w0 := wires;
      if |bodyIds| > 0 {
        AddThread(nodeId, bodyIds, nodeId, Some(cont), Some(LoopBackLabel));
      } else {
        assert w0 + [] == w0;
      }
      AddEdge(nodeId, exitId, Some(exit));
    }

    /**
     * Mints the start and end ids, pushes the start node, transforms the body, pushes the
     * end node, then threads start -> body -> end (or start -> end for an empty body).
     */
    method TransformFunction(fn: AstNode) returns (id: NodeId)
      requires fn.FunctionDeclaration? && Valid()
      modifies this
      decreases fn, 0
      ensures Valid()
      ensures id == old(nodeIdCounter) && nodeIdCounter == old(nodeIdCounter) + Size(fn)
      ensures nodes == old(nodes) + FunctionNodes(fn, old(nodeIdCounter))
      ensures wires == old(wires) + FunctionWires(fn, old(nodeIdCounter))
    {
      ghost var b, n0, w0 := nodeIdCounter, nodes, wires;
      var startId := GenerateNodeId();
      var endId := GenerateNodeId();
      nodes := nodes + [StartNode(startId, StartLabel(fn.name))];
      var bodyIds := TransformStatements(fn.body);
      nodes := nodes + [EndNode(endId, EndLabel(fn.name))];
      AddLink(startId, bodyIds, endId, None);
      id := startId;
      Regroup3(n0, [StartNode(b, StartLabel(fn.name))], NodesOfList(fn.body, b + 2),
               [EndNode(b + 1, EndLabel(fn.name))]);
      Regroup(w0, WiresOfList(fn.body, b + 2), Link(b, bodyIds, b + 1, None));
    }

    /** Transforms the statements of an else branch, when there is one. */
    method TransformElse(e: OptionalBranch) returns (ids: seq<NodeId>)
      requires Valid()
      modifies this
      decreases e, 1
      ensures Valid()
      ensures nodeIdCounter == old(nodeIdCounter) + BranchSize(e)
      ensures nodes == old(nodes) + BranchNodes(e, old(nodeIdCounter))
      ensures wires == old(wires) + BranchWires(e, old(nodeIdCounter))
      ensures ids == ReturnIds(ElseStatements(e), old(nodeIdCounter))
    {
      ids := [];
      if e.Present? {
        ids := TransformStatements(e.stmts);
      } else {
        assert nodes + [] == nodes && wires + [] == wires;
      }
    }

    /**
     * Mints the if id and the merge id, transforms the then and else statements, pushes
     * the if node (its branches are the ids returned for each branch) and the merge node,
     * then adds the `true` and `false` edges, each threaded through its branch to the merge.
     */
    method TransformIf(ifNode: AstNode) returns (id: NodeId)
      requires ifNode.IfStatement? && Valid()
      modifies this
      decreases ifNode, 0
      ensures Valid()
      ensures id == old(nodeIdCounter) && nodeIdCounter == old(nodeIdCounter) + Size(ifNode)
      ensures nodes == old(nodes) + IfNodes(ifNode, old(nodeIdCounter))
      ensures wires == old(wires) + IfWires(ifNode, old(nodeIdCounter))
    {
      ghost var b, n0, w0 := nodeIdCounter, nodes, wires;
      var nodeId := GenerateNodeId();
      var mergeId := GenerateNodeId();
      ghost var tb := nodeIdCounter;
      var thenIds := TransformStatements(ifNode.thenBranch);
      ghost var n1, w1, eb := nodes, wires, nodeIdCounter;
      var elseIds := TransformElse(ifNode.elseBranch);
      ghost var n2, w2 := nodes, wires;
      var control := ControlFlowNode(nodeId, If, Some(ifNode.condition),
                                     IfBranches(thenIds, elseIds), ifNode.location);
      var merge := ProcessNode(mergeId, Expression, MergeLabel, None, ifNode.location);
      nodes := nodes + [control];
      nodes := nodes + [merge];
      IfNodesPushed(ifNode, b, tb, eb, n0, n1, n2, nodes, thenIds, elseIds, control, merge);
      ConnectIf(nodeId, thenIds, elseIds, mergeId);
      IfWiresAdded(ifNode, b, tb, eb, w0, w1, w2, wires, thenIds, elseIds);
      id := nodeId;
    }

    /**
     * Mints the loop id and the exit id, transforms the body, pushes the `for` node and its
     * exit node, threads a non-empty body from `ループ継続` back to the loop node (`ループ`),
     * and always adds the `ループ終了` edge to the exit node.
     */
    method TransformFor(forNode: AstNode) returns (id: NodeId)
      requires forNode.ForStatement? && Valid()
      modifies this
      decreases forNode, 0
      ensures Valid()
      ensures id == old(nodeIdCounter) && nodeIdCounter == old(nodeIdCounter) + Size(forNode)
      ensures nodes == old(nodes) + LoopNodes(forNode, old(nodeIdCounter))
      ensures wires == old(wires) + LoopWires(forNode, old(nodeIdCounter))
    {
      ghost var b, n0, w0 := nodeIdCounter, nodes, wires;
      var nodeId := GenerateNodeId();
      var exitId := GenerateNodeId();
      var bodyIds := TransformStatements(forNode.body);
      ghost var n1, w1 := nodes, wires;
      var control := ControlFlowNode(nodeId, For, forNode.forCondition, LoopBranches(bodyIds), forNode.location);
      var exit := ProcessNode(exitId, Expression, LoopExitLabel, None, forNode.location);
      nodes := nodes + [control];
      nodes := nodes + [exit];
      LoopNodesPushed(forNode, b, n0, n1, nodes, control, exit);
      ConnectLoop(nodeId, bodyIds, exitId, LoopContinueLabel, LoopExitLabel);
      LoopWiresAdded(forNode, b, w0, w1, wires, bodyIds, LoopContinueLabel, LoopExitLabel);
      id := nodeId;
    }

    /** As `TransformFor`, with the labels `true`, `ループ` and `false`. */
    method TransformWhile(whileNode: AstNode) returns (id: NodeId)
      requires whileNode.WhileStatement? && Valid()
      modifies this
      decreases whileNode, 0
      ensures Valid()
      ensures id == old(nodeIdCounter) && nodeIdCounter == old(nodeIdCounter) + Size(whileNode)
      ensures nodes == old(nodes) + LoopNodes(whileNode, old(nodeIdCounter))
      ensures wires == old(wires) + LoopWires(whileNode, old(nodeIdCounter))
    {
      ghost var b, n0, w0 := nodeIdCounter, nodes, wires;
      var nodeId := GenerateNodeId();
      var exitId := GenerateNodeId();
      var bodyIds := TransformStatements(whileNode.body);
      ghost var n1, w1 := nodes, wires;
      var control := ControlFlowNode(nodeId, While, Some(whileNode.condition), LoopBranches(bodyIds), whileNode.location);
      var exit := ProcessNode(exitId, Expression, LoopExitLabel, None, whileNode.location);
      nodes := nodes + [control];
      nodes := nodes + [exit];
      LoopNodesPushed(whileNode, b, n0, n1, nodes, control, exit);
      ConnectLoop(nodeId, bodyIds, exitId, TrueLabel, FalseLabel);
      LoopWiresAdded(whileNode, b, w0, w1, wires, bodyIds, TrueLabel, FalseLabel);
      id := nodeId;
    }

    /** One variable node labelled `name = init` (or `name`); its details are the type text. */
    method TransformVariable(varNode: AstNode) returns (id: NodeId)
      requires varNode.VariableDeclaration? && Valid()
      modifies this
      ensures Valid()
      ensures id == old(nodeIdCounter) && nodeIdCounter == old(nodeIdCounter) + 1
      ensures nodes == old(nodes)
                       + [ProcessNode(id, Variable, VariableLabel(varNode.name, varNode.initializer),
                                      varNode.varType, varNode.location)]
      ensures wires == old(wires)
    {
      id := GenerateNodeId();
      var labelText := if Truthy(varNode.initializer)
                       then varNode.name + " = " + varNode.initializer.value
                       else varNode.name;
      nodes := nodes + [ProcessNode(id, Variable, labelText, varNode.varType, varNode.location)];
    }

    /** One return node labelled `return v` (or `return`). */
    method TransformReturn(returnNode: AstNode) returns (id: NodeId)
      requires returnNode.ReturnStatement? && Valid()
      modifies this
      ensures Valid()
      ensures id == old(nodeIdCounter) && nodeIdCounter == old(nodeIdCounter) + 1
      ensures nodes == old(nodes)
                       + [ProcessNode(id, Return, ReturnLabel(returnNode.value), None, returnNode.location)]
      ensures wires == old(wires)
    {
      id := GenerateNodeId();
      var labelText := if Truthy(returnNode.value) then "return " + returnNode.value.value else "return";
      nodes := nodes + [ProcessNode(id, Return, labelText, None, returnNode.location)];
    }

    /** One expression node labelled with the expression text. */
    method TransformExpression(exprNode: AstNode) returns (id: NodeId)
      requires exprNode.ExpressionStatement? && Valid()
      modifies this
      ensures Valid()
      ensures id == old(nodeIdCounter) && nodeIdCounter == old(nodeIdCounter) + 1
      ensures nodes == old(nodes)
                       + [ProcessNode(id, Expression, exprNode.expression, None, exprNode.location)]
      ensures wires == old(wires)
    {
      id := GenerateNodeId();
      nodes := nodes + [ProcessNode(id, Expression, exprNode.expression, None, exprNode.location)];
    }
  }
}
