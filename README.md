# Prism-Code core, modelled in Dafny

Prism-Code is a VS Code extension. It parses a TypeScript or JavaScript file into a small
language-independent AST. From that AST it builds two views:

- **The flow chart.** `IRTransformer` turns the AST into an intermediate representation (IR): a
  graph of start, end, control-flow (`if`, `for`, `while`) and process nodes, joined by
  control edges. Identifiers are `node_N` and `edge_N`, minted from two counters.
- **The macro view.** `MacroViewTransformer` summarises every top-level function and builds
  its call graph. A summary holds the parameters, line count, a simple additive complexity,
  and whether the function has loops or conditionals. The call graph lists the calls found in
  expression statements by the pattern `(\w+)\(`, numbered `func_N` and `call_N`.

`ParserFactory` holds the registered parsers. It picks the parser for a file by the file's
extension and reports the supported extensions (duplicates removed), the language names and
the glob pattern that finds every supported file.

The project has these modules:

- `Wrappers`: optional values and JavaScript truthiness of optional strings.
- `Ast` and `IR`: the data definitions of AST.ts and IR.ts.
- `CfgSpec`: what each transform pushes, as functions of the AST and the counter value it
  starts from.
- `CfgBuilder`: the `IRTransformer` class. Its counters and its node and edge lists are
  fields, and every method is proved against `CfgSpec`.
- `CfgProperties`: what the resulting graph looks like. Node ids are all distinct, edges join
  existing nodes, and the edges each `if`, loop and function adds around its own nodes are
  pinned down.
- `CfgReach`: every node of a function's graph is reachable from its start node.
- `CallPattern`: the call regular expression, with a reference predicate for what a match is.
- `MacroSpec` and `MacroProperties`: reference definitions of the macro view and their
  properties. These include a closed form of the complexity and the soundness of the
  extracted calls.
- `MacroView`: the `MacroViewTransformer` class, with each method proved against `MacroSpec`.
- `ParserFactory`: the registry, lookup, de-duplication and glob pattern.
- `SeqFacts`: small sequence-algebra helpers.

Identifiers are modelled by their counter values. `IR.IdText` gives their text, and
`IR.IdTextInjective` shows that distinct counters give distinct text. This is why the
uniqueness proved about counters is the uniqueness of the identifier strings.

## Model

| member | source | states |
|---|---|---|
| CfgBuilder.IRTransformer.constructor | src/core/transformer/IRTransformer.ts:9-12 | both counters start at 0 and both lists start empty |
| CfgBuilder.IRTransformer.GenerateNodeId | src/core/transformer/IRTransformer.ts:357-359 | returns the current node counter and advances it by one (post-increment) |
| CfgBuilder.IRTransformer.GenerateEdgeId | src/core/transformer/IRTransformer.ts:364-366 | returns the current edge counter and advances it by one |
| CfgBuilder.IRTransformer.AddEdge | src/core/transformer/IRTransformer.ts:344-352 | appends exactly one control edge whose id is the old edge count; earlier edges are untouched and the i-th edge keeps id i |
| CfgBuilder.IRTransformer.Transform | src/core/transformer/IRTransformer.ts:17-39 | after the reset, the result carries version 1.0.0, the given metadata and the nodes and edges the transforms push. The node ids are exactly 0 .. n-1, each used once. Edge i has id i and type control, joins two existing nodes, and never leaves a merge or loop-exit node: the statement after an `if` or loop is joined from its control node, whose id is the one the list collects, so the merge and exit nodes have no outgoing edge |
| CfgBuilder.IRTransformer.TransformNode | src/core/transformer/IRTransformer.ts:45-65 | dispatches each of the seven statement kinds to its transform; the returned id is the first one the statement mints, and exactly Size(s) ids are minted |
| CfgBuilder.IRTransformer.TransformStatements | src/core/transformer/IRTransformer.ts:82-86 | transforming a list in order pushes the nodes and edges of each statement in turn and returns the id each statement returned |
| CfgBuilder.IRTransformer.AddThread | src/core/transformer/IRTransformer.ts:96-106 | adds the edge into the first id, one unlabelled edge between each consecutive pair, and the edge out of the last id, in that order |
| CfgBuilder.IRTransformer.AddLink | src/core/transformer/IRTransformer.ts:96-110 | threads a non-empty id list between two nodes, or adds the single direct edge when the list is empty |
| CfgBuilder.IRTransformer.ConnectIf | src/core/transformer/IRTransformer.ts:158-181 | adds the `true` path through the then ids to the merge node, then the `false` path through the else ids |
| CfgBuilder.IRTransformer.ConnectLoop | src/core/transformer/IRTransformer.ts:219-231 | a non-empty body is threaded from the loop node back to it (last edge labelled `ループ`); the exit edge is always added last |
| CfgBuilder.IRTransformer.TransformFunction | src/core/transformer/IRTransformer.ts:70-113 | mints start and end ids first, pushes start, the body's nodes and end, and threads start to body to end; returns the start id |
| CfgBuilder.IRTransformer.TransformElse | src/core/transformer/IRTransformer.ts:130-136 | an absent else branch adds nothing and returns no ids; a present one is transformed as a statement list |
| CfgBuilder.IRTransformer.TransformIf | src/core/transformer/IRTransformer.ts:118-184 | mints the if and merge ids before the branches. It pushes the branch nodes, then the if node (whose branches map holds the ids of each branch), then the merge node, and then the true and false edges |
| CfgBuilder.IRTransformer.TransformFor | src/core/transformer/IRTransformer.ts:189-234 | mints the loop and exit ids before the body, pushes the body, the `for` node and the exit node, and adds the continue, back and exit edges |
| CfgBuilder.IRTransformer.TransformWhile | src/core/transformer/IRTransformer.ts:239-284 | as for `for`, with the labels `true`, `ループ` and `false` and the condition always present |
| CfgBuilder.IRTransformer.TransformVariable | src/core/transformer/IRTransformer.ts:289-305 | pushes one variable node labelled `name = init` when the initializer is a non-empty string, else `name`, with the type as details; no edge |
| CfgBuilder.IRTransformer.TransformReturn | src/core/transformer/IRTransformer.ts:310-323 | pushes one return node labelled `return v`, or `return` when the value is absent or empty; no edge |
| CfgBuilder.IRTransformer.TransformExpression | src/core/transformer/IRTransformer.ts:328-339 | pushes one expression node labelled with the expression text; no edge |
| CfgSpec.ControlNode | src/core/transformer/IRTransformer.ts:139-149 | the control-flow node of an `if` or loop is a control-flow node carrying the first id the statement minted |
| CfgSpec.JoinNode | src/core/transformer/IRTransformer.ts:151-156 | the merge or exit node is an expression process node carrying the second id minted |
| CfgSpec.StatementNode | src/core/transformer/IRTransformer.ts:289-339 | a simple statement becomes one process node carrying the id it minted |
| CfgSpec.NumberedAppend | src/core/transformer/IRTransformer.ts:344-352 | numbering the edges after one more is added extends the numbered list by one edge with the old count as id |
| IR.Decimal | src/core/transformer/IRTransformer.ts:357-359 | the decimal text of a counter is non-empty and all digits, one digit exactly below 10 |
| IR.DecimalInjective | src/core/transformer/IRTransformer.ts:357-359 | distinct counters print as distinct decimal text |
| IR.IdTextInjective | src/core/transformer/IRTransformer.ts:357-366 | two identifiers with the same prefix are equal exactly when their counter values are |
| IR.NodeAndEdgeIdsDiffer | src/core/transformer/IRTransformer.ts:357-366 | no node identifier equals an edge identifier |
| CfgProperties.NodeIdsExact | src/core/transformer/IRTransformer.ts:45-65 | the nodes one statement pushes carry each id of its range b .. b+Size-1 exactly once and no other id |
| CfgProperties.NodeIdsExactList | src/core/transformer/IRTransformer.ts:25-27 | the same for a statement list |
| CfgProperties.NodeCount | src/core/transformer/IRTransformer.ts:45-65 | a statement pushes exactly as many nodes as it mints ids |
| CfgProperties.NodeCountList | src/core/transformer/IRTransformer.ts:25-27 | a statement list pushes exactly as many nodes as it mints ids |
| CfgProperties.EachIdOnce | src/core/transformer/IRTransformer.ts:17-39 | over the whole program, the node list has one node per minted id and every id of the range occurs exactly once |
| CfgProperties.SizePositive | src/core/transformer/IRTransformer.ts:45-65 | every statement mints at least one id |
| CfgProperties.ReturnIdsInRange | src/core/transformer/IRTransformer.ts:82-86 | the ids a list's statements return are one per statement, lie in the list's range, and the first is the list's first id |
| CfgProperties.JoinIdsInRange | src/core/transformer/IRTransformer.ts:118-234 | the merge and exit ids of a statement lie in its range after its first id |
| CfgProperties.JoinIdsInRangeList | src/core/transformer/IRTransformer.ts:118-234 | the merge and exit ids of a list lie in its range, and no statement of the list returns one of them |
| CfgProperties.Wired | src/core/transformer/IRTransformer.ts:96-281 | every edge a statement adds joins two ids the statement minted, and none leaves a merge or exit node |
| CfgProperties.WiredList | src/core/transformer/IRTransformer.ts:96-281 | the same for a statement list |
| CfgProperties.IfOutgoing | src/core/transformer/IRTransformer.ts:158-181 | among the edges the `if`'s own transform adds, exactly two leave the if node: `true` to the first then statement and `false` to the first else statement, each going to the merge node when its branch is empty. The enclosing list's sequencing edge (lines 102-104) is not among them |
| CfgProperties.IfIncoming | src/core/transformer/IRTransformer.ts:158-181 | among the edges the `if`'s own transform adds, the merge node is entered exactly twice, once from the end of each branch, or from the if node with the branch's label when that branch is empty |
| CfgProperties.LoopEdges | src/core/transformer/IRTransformer.ts:219-231 | among the edges the loop's own transform adds, the loop node leaves by the continue edge to the first body statement (when there is one) and then by the exit edge. Among those edges it is entered only by the back edge from the last body statement, and the exit node only by the exit edge. The enclosing list's sequencing edges into and out of the loop node are not among them |
| CfgProperties.FunctionStartEdges | src/core/transformer/IRTransformer.ts:95-110 | among the edges the function's own transform adds, the start node has one unlabelled edge out, to the first body statement or to the end node, and none in. A nested function's start node is also entered by its enclosing list's sequencing edge |
| CfgProperties.FunctionEndEdges | src/core/transformer/IRTransformer.ts:95-110 | among the edges the function's own transform adds, the end node has one unlabelled edge in, from the last body statement or from the start node, and none out |
| CfgReach.StatementReach | src/core/transformer/IRTransformer.ts:45-65 | every id minted while transforming a statement is reachable from the id the transform returns, over the edges that transform adds |
| CfgReach.ListReach | src/core/transformer/IRTransformer.ts:96-107 | every id minted for a non-empty statement list is reachable from the first statement's id, over the statements' own edges and the edges between consecutive returned ids |
| CfgReach.LinkReach | src/core/transformer/IRTransformer.ts:96-110 | when a body is linked from one node to another (a function's start and end, an `if` node and its merge node), every id of the body and the target node are reachable from the source node; an empty body is bridged by the direct edge |
| CfgReach.IfReach | src/core/transformer/IRTransformer.ts:118-181 | from the `if` node, every node of both branches and the merge node are reachable |
| CfgReach.LoopReach | src/core/transformer/IRTransformer.ts:189-283 | from the loop node, every node of the body and the exit node are reachable |
| CfgReach.FunctionReach | src/core/transformer/IRTransformer.ts:70-113 | from the start node, every id the function's transform mints is reachable, the end node included |
| CfgReach.FunctionNodesReachable | src/core/transformer/IRTransformer.ts:70-113 | every node of a function's graph, the end node included, is reachable from its start node over the function's edges. A path that enters a merge or exit node stops there, since those nodes have no outgoing edge (`CfgProperties.Wired`); the end node is reached along the sequencing edges that leave each `if` and loop from its control node |
| CallPattern.FirstCallParen | src/core/transformer/MacroViewTransformer.ts:163 | finds the first `(` preceded by a word character at or after a position, or reports that there is none |
| CallPattern.RunStart | src/core/transformer/MacroViewTransformer.ts:163 | the start of the maximal run of word characters that ends before a position |
| CallPattern.Callee | src/core/transformer/MacroViewTransformer.ts:163-165 | a callee found is a non-empty run of word characters |
| CallPattern.CalleeNone | src/core/transformer/MacroViewTransformer.ts:163-164 | no callee is found exactly when the pattern matches nowhere in the text |
| CallPattern.CalleeFound | src/core/transformer/MacroViewTransformer.ts:163-165 | when a match starts at i and none starts earlier, the callee is that match's group |
| MacroSpec.ParameterText | src/core/transformer/MacroViewTransformer.ts:58-60 | a parameter prints as its name followed by `: type` exactly when its type is a non-empty string |
| MacroSpec.TopFunctions | src/core/transformer/MacroViewTransformer.ts:19-20 | keeps exactly the function declarations among the top-level statements |
| MacroProperties.WalkLoop | src/core/transformer/MacroViewTransformer.ts:78-94 | a statement's walk holds a loop exactly when it is a loop, or is an `if` whose then branch or present else branch has a loop: the recursion of `checkHasLoops` |
| MacroProperties.WalkIf | src/core/transformer/MacroViewTransformer.ts:99-112 | a statement's walk holds an `if` exactly when it is one, or is a loop whose body has one: the recursion of `checkHasConditionals` |
| MacroProperties.PrefixInWhole | src/core/transformer/MacroViewTransformer.ts:78-112 | a loop or `if` found in a prefix of a body is found in the body (the early `return true` is sound) |
| MacroProperties.ComplexityClosedForm | src/core/transformer/MacroViewTransformer.ts:118-135 | complexity is 1 plus 2 for each `if` and loop at any depth plus 1 for each `if` whose else branch is present |
| MacroProperties.WeightClosedForm | src/core/transformer/MacroViewTransformer.ts:121-131 | one statement adds 2 per branching statement in it and 1 per present else branch |
| MacroProperties.ComplexityBounds | src/core/transformer/MacroViewTransformer.ts:118-135 | complexity lies between 1 and 1 + 3 per branching statement |
| MacroProperties.ComplexityOneIff | src/core/transformer/MacroViewTransformer.ts:118-135 | complexity is 1 exactly when the body has no loop and no `if` at any depth |
| MacroProperties.BranchingZero | src/core/transformer/MacroViewTransformer.ts:118-135 | no branching statement exactly when there is neither a loop nor an `if` |
| MacroProperties.ElsePresentAtMost | src/core/transformer/MacroViewTransformer.ts:125-127 | there are no more present else branches than branching statements |
| MacroProperties.LoneIfComplexity | src/core/transformer/MacroViewTransformer.ts:122-124 | a lone `if` with an empty then branch and no else has complexity 3 |
| MacroProperties.EmptyElseComplexity | src/core/transformer/MacroViewTransformer.ts:125-127 | an empty but present else branch raises that to 4 |
| MacroProperties.LoopOverIfComplexity | src/core/transformer/MacroViewTransformer.ts:128-131 | a `while` whose body is such a lone `if` has complexity 5 |
| MacroProperties.WalkSites | src/core/transformer/MacroViewTransformer.ts:175-183 | the calls of one statement are those of its then branch and then its present else branch, or those of its loop body, or its own call |
| MacroProperties.SitesInSound | src/core/transformer/MacroViewTransformer.ts:158-172 | every call found names the calling function, and comes from a non-empty expression statement of the body whose pattern match gives the callee, at that statement's location |
| MacroProperties.NumberCallsAt | src/core/transformer/MacroViewTransformer.ts:166-171 | the k-th call record has id base+k and the caller, callee and location of the k-th call found |
| MacroProperties.NumberCallsDistinct | src/core/transformer/MacroViewTransformer.ts:167 | call ids strictly increase along the records and stay below base plus the number of calls, so they are distinct |
| MacroProperties.SummariesAt | src/core/transformer/MacroViewTransformer.ts:19-22 | the k-th summary is the summary of the k-th top-level function under id base+k |
| MacroView.MacroViewTransformer.constructor | src/core/transformer/MacroViewTransformer.ts:8-9 | both counters start at 0 |
| MacroView.MacroViewTransformer.Transform | src/core/transformer/MacroViewTransformer.ts:14-39 | the metadata is the given language, file and timestamp. The functions are the summaries of the top-level functions in order, numbered on from the function counter. The call graph is every call of those functions in order, numbered on from the call counter. Both counters advance by the counts |
| MacroView.MacroViewTransformer.AnalyzeFunctionNode | src/core/transformer/MacroViewTransformer.ts:44-73 | the summary of a function under the current function counter, which advances by one |
| MacroView.MacroViewTransformer.CheckHasLoops | src/core/transformer/MacroViewTransformer.ts:78-94 | true exactly when a `for` or `while` occurs at any depth, through if branches, but not inside nested function declarations |
| MacroView.MacroViewTransformer.CheckHasConditionals | src/core/transformer/MacroViewTransformer.ts:99-112 | true exactly when an `if` occurs at any depth, through loop bodies, but not inside nested function declarations |
| MacroView.MacroViewTransformer.CalculateComplexity | src/core/transformer/MacroViewTransformer.ts:118-135 | equals the reference complexity, whose closed form and bounds are proved in MacroProperties |
| MacroView.MacroViewTransformer.ExtractFunctionCalls | src/core/transformer/MacroViewTransformer.ts:140-148 | the numbered calls of the function's body, with the function's name as caller; the call counter advances by their number |
| MacroView.MacroViewTransformer.FindCallExpressionsRecursive | src/core/transformer/MacroViewTransformer.ts:153-185 | appends to the given calls exactly the numbered calls of the body in pre-order, and advances the call counter by their number |
| ParserFactory.LastIndexOf | src/parsers/ParserFactory.ts:28 | the last position of a character, or none when it does not occur |
| ParserFactory.BaseName | src/parsers/ParserFactory.ts:28 | the last path component is a suffix of the path without `/`, non-empty unless the path ends in `/` |
| ParserFactory.ExtName | src/parsers/ParserFactory.ts:28 | the extension is a suffix of the path that is empty or a `.` followed by no `.` or `/` |
| ParserFactory.ExtNameAppended | src/parsers/ParserFactory.ts:28 | appending `.` and a plain suffix to a path with a non-empty last component gives that suffix as the extension |
| ParserFactory.ExtNameNone | src/parsers/ParserFactory.ts:28 | a last component without `.` has the empty extension |
| ParserFactory.ParserForLeftmost | src/parsers/ParserFactory.ts:30-37 | no parser is found exactly when no parser lists the extension; otherwise the one found is the first that does |
| ParserFactory.GetParser | src/parsers/ParserFactory.ts:27-38 | the loop returns the first parser listing the path's extension, or none |
| ParserFactory.Dedupe | src/parsers/ParserFactory.ts:52 | the de-duplicated list has the same members and no duplicates |
| ParserFactory.DedupeOrder | src/parsers/ParserFactory.ts:52 | members keep the order of their first occurrences, as a JavaScript Set keeps insertion order |
| ParserFactory.DedupeUnique | src/parsers/ParserFactory.ts:52 | a list without duplicates is unchanged |
| ParserFactory.DedupeIdempotent | src/parsers/ParserFactory.ts:52 | de-duplicating twice is de-duplicating once |
| ParserFactory.GetSupportedExtensions | src/parsers/ParserFactory.ts:44-53 | the loop's result is the concatenation of every parser's extensions, de-duplicated |
| ParserFactory.SupportedIffSomeParser | src/parsers/ParserFactory.ts:44-53 | an extension is supported exactly when some parser lists it |
| ParserFactory.GetSupportedLanguages | src/parsers/ParserFactory.ts:59-61 | one language name per parser, in order |
| ParserFactory.Stems | src/parsers/ParserFactory.ts:70 | the stems of the extensions, one per extension, in order |
| ParserFactory.SplitJoin | src/parsers/ParserFactory.ts:71 | splitting a join on a separator that no part contains gives back the parts |
| ParserFactory.GetGlobPattern | src/parsers/ParserFactory.ts:67-72 | the pattern is built from the de-duplicated supported extensions |
| ParserFactory.GlobStems | src/parsers/ParserFactory.ts:67-72 | the pattern is `**/*.{`, then text that splits on `,` back into exactly the extension stems, then `}` |
| ParserFactory.RegistryExtensions | src/parsers/typescript/TypeScriptParser.ts:51-53 | the registry supports `.ts`, `.tsx`, `.js` and `.jsx`, in that order |
| ParserFactory.RegistryGlob | src/parsers/ParserFactory.ts:65 | the registry's pattern is `**/*.{ts,tsx,js,jsx}` |
| ParserFactory.RegistryLanguages | src/parsers/typescript/TypeScriptParser.ts:47-49 | the registry's only language is TypeScript |

## Left out

- The `Date.now()` timestamp of both transforms is a parameter of `Transform`.
- The `default` branch of `transformNode`, with its `console.warn`, is left out. It is
  unreachable for the seven statement kinds of AST.ts, which the model's datatype closes.
- `FunctionSummary`, `FunctionCall` and `MacroViewData` are imported from IR.ts but are not
  declared in it. Their fields are taken from how MacroViewTransformer.ts builds them
  (lines 62-72 and 166-171).
- Identifiers are counter values, so `func_N` and `call_N` are the numbers N. Their text is
  `IR.IdText`.
- The `calls` array that `findCallExpressionsRecursive` pushes into is a value threaded
  through the calls, so aliasing of that array is not modelled.
- Node's `path.extname` is modelled for `/`-separated paths only. Windows separators, the
  `..` component and the stripping of trailing separators are not modelled.
- The static `parsers` list is a parameter of the factory's operations. `Registry` is the
  one list the code registers.
- Parsing source text with ts-morph (`TypeScriptParser.parse`) is outside this model: the
  AST is taken as given.
- The webview, chat provider and extension entry points are UI and I/O, and are not part of
  this model.
- The doc comment of `calculateComplexity` (MacroViewTransformer.ts:115-116) describes the
  value as one plus the number of branch points. That would give 2 for a body holding one
  `if` with empty branches and 3 for a loop containing one `if`. The code (lines 118-135)
  also adds the base 1 of every nested list: it gives 3 for such an `if` without an else
  branch, 4 with an empty but present else branch, and 5 for a loop around a lone `if`. The
  model follows the code: see `MacroProperties.LoneIfComplexity`,
  `MacroProperties.EmptyElseComplexity` and `MacroProperties.LoopOverIfComplexity`, and
  `MacroProperties.ComplexityClosedForm` for the general count.
- JavaScript's truthiness is tested in three kinds of places, and the model keeps each kind. An
  optional string counts only when present and non-empty (`Wrappers.Truthy`). An empty
  expression text is skipped by the call search. An else branch that is present, even if
  empty, counts as present.
