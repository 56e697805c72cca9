/**
 * The language-neutral graph (src/core/ir/IR.ts) and the macro-view records that
 * src/core/transformer/MacroViewTransformer.ts builds.
 *
 * Identifiers are modelled by the counter value they are minted from; their text is
 * `IdText(prefix, n)` ("node_3", "edge_0", "func_1", "call_2"), and `IdTextInjective`
 * shows that distinct counter values give distinct strings.
 */
module IR {
  import opened Wrappers
  import opened Ast

  type NodeId = nat
  type EdgeId = nat

  datatype ControlKind = If | For | While
  datatype ProcessKind = Variable | Return | Expression
  datatype EdgeType = Control | Data

  /** The closed union of the five node kinds. Start and end nodes carry no location. */
  datatype IRNode =
    | FunctionNode(id: NodeId, name: string, parameters: seq<string>, returnType: Option<string>,
                   bodyNodeIds: seq<NodeId>, location: SourceLocation)
    | ControlFlowNode(id: NodeId, kind: ControlKind, condition: Option<string>,
                      branches: map<string, seq<NodeId>>, location: SourceLocation)
    | ProcessNode(id: NodeId, processKind: ProcessKind, labelText: string, details: Option<string>,
                  location: SourceLocation)
    | StartNode(id: NodeId, labelText: string)
    | EndNode(id: NodeId, labelText: string)

  datatype IREdge = IREdge(id: EdgeId, source: NodeId, target: NodeId, labelText: Option<string>,
                           edgeType: EdgeType)

  datatype IRMetadata = IRMetadata(sourceLanguage: string, sourceFile: string, timestamp: int)

  datatype IRGraph = IRGraph(version: string, metadata: IRMetadata, nodes: seq<IRNode>,
                             edges: seq<IREdge>)

  datatype FunctionSummary = FunctionSummary(
    id: nat, name: string, parameters: seq<string>, returnType: Option<string>,
    lineCount: int, complexity: int, location: SourceLocation,
    hasLoops: bool, hasConditionals: bool)

  datatype FunctionCall = FunctionCall(id: nat, caller: string, callee: string,
                                       location: SourceLocation)

  datatype MacroViewData = MacroViewData(metadata: IRMetadata, functions: seq<FunctionSummary>,
                                         callGraph: seq<FunctionCall>)

  /** The decimal digit for `d`. */
  function DigitChar(d: nat): (c: char)
    requires d < 10
    ensures '0' <= c <= '9'
  {
    ('0' as int + d) as char
  }

  /** The decimal rendering of a counter value, as a template literal prints it. */
  function Decimal(n: nat): (r: string)
    ensures 1 <= |r|
    ensures n < 10 <==> |r| == 1
    ensures forall i :: 0 <= i < |r| ==> '0' <= r[i] <= '9'
  {
    if n < 10 then [DigitChar(n)] else Decimal(n / 10) + [DigitChar(n % 10)]
  }

  /** The text of an identifier: `${prefix}${n}`. */
  function IdText(prefix: string, n: nat): string
  {
    prefix + Decimal(n)
  }

  lemma {:induction false} DecimalInjective(m: nat, n: nat)
    ensures Decimal(m) == Decimal(n) ==> m == n
  {
    if Decimal(m) == Decimal(n) && 10 <= m && 10 <= n {
      var dm, dn := Decimal(m), Decimal(n);
      assert dm[..|dm| - 1] == Decimal(m / 10);
      assert dn[..|dn| - 1] == Decimal(n / 10);
      DecimalInjective(m / 10, n / 10);
      assert DigitChar(m % 10) == dm[|dm| - 1] == dn[|dn| - 1] == DigitChar(n % 10);
    }
  }

  /** Two identifiers with the same prefix are equal exactly when their counters are. */
  lemma IdTextInjective(prefix: string, m: nat, n: nat)
    ensures IdText(prefix, m) == IdText(prefix, n) <==> m == n
  {
    if IdText(prefix, m) == IdText(prefix, n) {
      assert Decimal(m) == IdText(prefix, m)[|prefix|..];
      assert Decimal(n) == IdText(prefix, n)[|prefix|..];
      DecimalInjective(m, n);
    }
  }

  /** Node and edge identifiers never collide: "node_" and "edge_" differ in the first letter. */
  lemma NodeAndEdgeIdsDiffer(m: nat, n: nat)
    ensures IdText("node_", m) != IdText("edge_", n)
  {
    assert IdText("node_", m)[0] == 'n';
    assert IdText("edge_", n)[0] == 'e';
  }
}
