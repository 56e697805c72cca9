/**
 * Reference semantics of the control-flow-graph builder
 * (src/core/transformer/IRTransformer.ts), written as functions of the statement and of
 * the node counter `b` at the moment its transformation starts.
 *
 * Node identifiers are minted in pre-order: a control node takes `b`, its merge/exit node
 * (or, for a function, its end node) takes `b + 1`, and the children are numbered from
 * `b + 2`. Nodes are pushed in post-order: children first, the control node and its
 * merge/exit node last. Every transform returns `b`, the first identifier it minted.
 * Lists are folded from the right, the order in which the builder's loops extend them.
 */
module CfgSpec {
  import opened Wrappers
  import opened Ast
  import opened IR

  /** An edge as `addEdge` receives it, before an edge identifier is attached. */
  datatype Wire = Wire(source: NodeId, target: NodeId, labelText: Option<string>)

  const TrueLabel: string := "true"
  const FalseLabel: string := "false"
  /** Labels of `for` loops: continue, back edge, exit. */
  const LoopContinueLabel: string := "ループ継続"
  const LoopBackLabel: string := "ループ"
  const LoopExitLabel: string := "ループ終了"
  /** Label of the merge node an `if` adds. */
  const MergeLabel: string := "合流"

  function StartLabel(name: string): string { "関数開始: " + name }
  function EndLabel(name: string): string { "関数終了: " + name }

  /** `name = init`, or `name` when the initializer is absent or empty. */
  function VariableLabel(name: string, init: Option<string>): string
  {
    if Truthy(init) then name + " = " + init.value else name
  }

  /** `return v`, or `return` when the value is absent or empty. */
  function ReturnLabel(value: Option<string>): string
  {
    if Truthy(value) then "return " + value.value else "return"
  }

  /** The label of the first edge into a non-empty loop body. */
  function ContinueLabel(s: AstNode): string
    requires s.IsLoop()
  {
    if s.ForStatement? then LoopContinueLabel else TrueLabel
  }

  /** The label of the edge from a loop node to its exit node. */
  function ExitLabel(s: AstNode): string
    requires s.IsLoop()
  {
    if s.ForStatement? then LoopExitLabel else FalseLabel
  }

  /** The number of node identifiers minted while transforming `s`. */
  function Size(s: AstNode): nat
    decreases s, 1
  {
    match s
    case FunctionDeclaration(_, _, body, _, _) => 2 + SizeList(body)
    case IfStatement(_, thenBranch, elseBranch, _) => 2 + SizeList(thenBranch) + BranchSize(elseBranch)
    case ForStatement(_, _, _, body, _) => 2 + SizeList(body)
    case WhileStatement(_, body, _) => 2 + SizeList(body)
    case VariableDeclaration(_, _, _, _) => 1
    case ReturnStatement(_, _) => 1
    case ExpressionStatement(_, _) => 1
  }

  /** The number of identifiers minted for an optional `else` branch. */
  function BranchSize(e: OptionalBranch): nat
    decreases e, 1
  {
    if e.Present? then SizeList(e.stmts) else 0
  }

  function SizeList(ss: seq<AstNode>): nat
    decreases ss, 2
  {
    if ss == [] then 0 else SizeList(ss[..|ss| - 1]) + Size(ss[|ss| - 1])
  }

  /** The identifiers the transforms of `ss` return, starting from counter `b`. */
  function ReturnIds(ss: seq<AstNode>, b: nat): seq<NodeId>
  {
    if ss == [] then [] else ReturnIds(ss[..|ss| - 1], b) + [b + SizeList(ss[..|ss| - 1])]
  }

  /** Where the else branch of `if` statement `s`, transformed from counter `b`, starts. */
  function ElseStart(s: AstNode, b: nat): nat
    requires s.IfStatement?
  {
    b + 2 + SizeList(s.thenBranch)
  }

  /** The branches of an `if` node: the ids returned for its then and else statements. */
  function IfBranches(thenIds: seq<NodeId>, elseIds: seq<NodeId>): map<string, seq<NodeId>>
  {
    map["then" := thenIds, "else" := elseIds]
  }

  /** The branches of a loop node: the ids returned for its body statements. */
  function LoopBranches(bodyIds: seq<NodeId>): map<string, seq<NodeId>>
  {
    map["body" := bodyIds]
  }

  /**
   * The control-flow node of an `if`, `for` or `while` transformed from counter `b`: it takes
   * the first identifier and records, per branch, the identifiers its statements returned.
   */
  function ControlNode(s: AstNode, b: nat): (r: IRNode)
    requires s.IfStatement? || s.IsLoop()
    ensures r.ControlFlowNode? && r.id == b
  {
    match s
    case IfStatement(condition, thenBranch, elseBranch, location) =>
      ControlFlowNode(b, If, Some(condition),
        IfBranches(ReturnIds(thenBranch, b + 2), ReturnIds(ElseStatements(elseBranch), ElseStart(s, b))),
        location)
    case ForStatement(_, condition, _, body, location) =>
      ControlFlowNode(b, For, condition, LoopBranches(ReturnIds(body, b + 2)), location)
    case WhileStatement(condition, body, location) =>
      ControlFlowNode(b, While, Some(condition), LoopBranches(ReturnIds(body, b + 2)), location)
  }

  /** The merge node of an `if`, or the exit node of a loop: it takes the second identifier. */
  function JoinNode(s: AstNode, b: nat): (r: IRNode)
    requires s.IfStatement? || s.IsLoop()
    ensures r.ProcessNode? && r.processKind == Expression && r.id == b + 1
  {
    ProcessNode(b + 1, Expression, if s.IfStatement? then MergeLabel else LoopExitLabel, None,
                s.location)
  }

  /** The single process node of a variable declaration, return or expression statement. */
  function StatementNode(s: AstNode, b: nat): (r: IRNode)
    requires s.VariableDeclaration? || s.ReturnStatement? || s.ExpressionStatement?
    ensures r.ProcessNode? && r.id == b
  {
    match s
    case VariableDeclaration(name, varType, initializer, location) =>
      ProcessNode(b, Variable, VariableLabel(name, initializer), varType, location)
    case ReturnStatement(value, location) =>
      ProcessNode(b, Return, ReturnLabel(value), None, location)
    case ExpressionStatement(expression, location) =>
      ProcessNode(b, Expression, expression, None, location)
  }

  /** The nodes pushed while transforming `s` from counter `b`, in push order. */
  function NodesOf(s: AstNode, b: nat): seq<IRNode>
    decreases s, 1
  {
    if s.IfStatement? then IfNodes(s, b)
    else if s.IsLoop() then LoopNodes(s, b)
    else if s.FunctionDeclaration? then FunctionNodes(s, b)
    else [StatementNode(s, b)]
  }

  /** Then branch, else branch, then the `if` node and its merge node. */
  function IfNodes(s: AstNode, b: nat): seq<IRNode>
    requires s.IfStatement?
    decreases s, 0
  {
    NodesOfList(s.thenBranch, b + 2) + BranchNodes(s.elseBranch, ElseStart(s, b))
      + [ControlNode(s, b), JoinNode(s, b)]
  }

  /** The body, then the loop node and its exit node. */
  function LoopNodes(s: AstNode, b: nat): seq<IRNode>
    requires s.IsLoop()
    decreases s, 0
  {
    NodesOfList(s.body, b + 2) + [ControlNode(s, b), JoinNode(s, b)]
  }

  /** The start node, the body, then the end node. */
  function FunctionNodes(s: AstNode, b: nat): seq<IRNode>
    requires s.FunctionDeclaration?
    decreases s, 0
  {
    [StartNode(b, StartLabel(s.name))] + NodesOfList(s.body, b + 2) + [EndNode(b + 1, EndLabel(s.name))]
  }

  /** The nodes of an optional `else` branch transformed from counter `b`. */
  function BranchNodes(e: OptionalBranch, b: nat): seq<IRNode>
    decreases e, 1
  {
    if e.Present? then NodesOfList(e.stmts, b) else []
  }

  function NodesOfList(ss: seq<AstNode>, b: nat): seq<IRNode>
    decreases ss, 2
  {
    if ss == [] then []
    else NodesOfList(ss[..|ss| - 1], b) + NodesOf(ss[|ss| - 1], b + SizeList(ss[..|ss| - 1]))
  }

  /** One unlabelled edge per consecutive pair of `ids`. */
  function Chain(ids: seq<NodeId>): seq<Wire>
  {
    if |ids| < 2 then []
    else Chain(ids[..|ids| - 1]) + [Wire(ids[|ids| - 2], ids[|ids| - 1], None)]
  }

  /**
   * The edges that thread a statement list between `from` and `to`: `from` to the first
   * returned id (labelled `first`), the consecutive pairs, and the last returned id to `to`
   * (labelled `last`).
   */
  function Thread(from: NodeId, ids: seq<NodeId>, to: NodeId, first: Option<string>,
                  last: Option<string>): seq<Wire>
    requires ids != []
  {
    [Wire(from, ids[0], first)] + Chain(ids) + [Wire(ids[|ids| - 1], to, last)]
  }

  /** A function body or an if branch: threaded, or a single edge when it is empty. */
  function Link(from: NodeId, ids: seq<NodeId>, to: NodeId, first: Option<string>): seq<Wire>
  {
    if ids == [] then [Wire(from, to, first)] else Thread(from, ids, to, first, None)
  }

  /** A loop body threaded from the loop node back to it; nothing when the body is empty. */
  function LoopBack(s: AstNode, b: nat): seq<Wire>
    requires s.IsLoop()
  {
    var ids := ReturnIds(s.body, b + 2);
    if ids == [] then [] else Thread(b, ids, b, Some(ContinueLabel(s)), Some(LoopBackLabel))
  }

  /** The edges added while transforming `s` from counter `b`, in the order they are added. */
  function WiresOf(s: AstNode, b: nat): seq<Wire>
    decreases s, 1
  {
    if s.IfStatement? then IfWires(s, b)
    else if s.IsLoop() then LoopWires(s, b)
    else if s.FunctionDeclaration? then FunctionWires(s, b)
    else []
  }

  /** The branches' own edges, then the `true` link and the `false` link to the merge node. */
  function IfWires(s: AstNode, b: nat): seq<Wire>
    requires s.IfStatement?
    decreases s, 0
  {
    WiresOfList(s.thenBranch, b + 2) + BranchWires(s.elseBranch, ElseStart(s, b))
      + Link(b, ReturnIds(s.thenBranch, b + 2), b + 1, Some(TrueLabel))
      + Link(b, ReturnIds(ElseStatements(s.elseBranch), ElseStart(s, b)), b + 1, Some(FalseLabel))
  }

  /** The body's own edges, the threaded body with its back edge, then the exit edge. */
  function LoopWires(s: AstNode, b: nat): seq<Wire>
    requires s.IsLoop()
    decreases s, 0
  {
    WiresOfList(s.body, b + 2) + LoopBack(s, b) + [Wire(b, b + 1, Some(ExitLabel(s)))]
  }

  /** The body's own edges, then start -> body -> end. */
  function FunctionWires(s: AstNode, b: nat): seq<Wire>
    requires s.FunctionDeclaration?
    decreases s, 0
  {
    WiresOfList(s.body, b + 2) + Link(b, ReturnIds(s.body, b + 2), b + 1, None)
  }

  function BranchWires(e: OptionalBranch, b: nat): seq<Wire>
    decreases e, 1
  {
    if e.Present? then WiresOfList(e.stmts, b) else []
  }

  function WiresOfList(ss: seq<AstNode>, b: nat): seq<Wire>
    decreases ss, 2
  {
    if ss == [] then []
    else WiresOfList(ss[..|ss| - 1], b) + WiresOf(ss[|ss| - 1], b + SizeList(ss[..|ss| - 1]))
  }

  /**
   * The identifiers minted for merge nodes, loop-exit nodes and function end nodes: the
   * nodes that sequencing never leaves, because transforms return the control node's id.
   */
  function JoinIds(s: AstNode, b: nat): set<NodeId>
    decreases s, 1
  {
    if s.IfStatement? then
      {b + 1} + JoinIdsList(s.thenBranch, b + 2) + BranchJoinIds(s.elseBranch, ElseStart(s, b))
    else if s.IsLoop() || s.FunctionDeclaration? then {b + 1} + JoinIdsList(s.body, b + 2)
    else {}
  }

  function BranchJoinIds(e: OptionalBranch, b: nat): set<NodeId>
    decreases e, 1
  {
    if e.Present? then JoinIdsList(e.stmts, b) else {}
  }

  function JoinIdsList(ss: seq<AstNode>, b: nat): set<NodeId>
    decreases ss, 2
  {
    if ss == [] then {}
    else JoinIdsList(ss[..|ss| - 1], b) + JoinIds(ss[|ss| - 1], b + SizeList(ss[..|ss| - 1]))
  }

  /** The edges as `addEdge` stores them: the i-th edge gets identifier i and type control. */
  function Numbered(ws: seq<Wire>): (es: seq<IREdge>)
  {
    seq(|ws|, i requires 0 <= i < |ws| =>
      IREdge(i, ws[i].source, ws[i].target, ws[i].labelText, Control))
  }

  /** How many nodes of `ns` carry identifier `k`. */
  function IdCount(ns: seq<IRNode>, k: int): nat
  {
    if ns == [] then 0
    else IdCount(ns[..|ns| - 1], k) + (if ns[|ns| - 1].id == k then 1 else 0)
  }

  /** The edges of `ws` that leave `x`, in order. */
  function Outgoing(ws: seq<Wire>, x: NodeId): seq<Wire>
  {
    if ws == [] then []
    else Outgoing(ws[..|ws| - 1], x) + (if ws[|ws| - 1].source == x then [ws[|ws| - 1]] else [])
  }

  /** The edges of `ws` that enter `x`, in order. */
  function Incoming(ws: seq<Wire>, x: NodeId): seq<Wire>
  {
    if ws == [] then []
    else Incoming(ws[..|ws| - 1], x) + (if ws[|ws| - 1].target == x then [ws[|ws| - 1]] else [])
  }

  /** Adding one wire adds one numbered edge whose identifier is the old edge count. */
  lemma NumberedAppend(ws: seq<Wire>, w: Wire)
    ensures Numbered(ws + [w])
         == Numbered(ws) + [IREdge(|ws|, w.source, w.target, w.labelText, Control)]
  {
    assert forall i :: 0 <= i < |ws| ==> (ws + [w])[i] == ws[i];
  }
}
