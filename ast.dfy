/**
 * The syntax tree handed over by the parsing front end (src/core/parser/AST.ts).
 * Conditions, initializers, values and expressions are opaque text, never subtrees.
 */
module Ast {
  import opened Wrappers

  datatype Position = Position(line: int, column: int)

  datatype SourceLocation = SourceLocation(start: Position, end: Position)

  /** A function parameter: a name and an optional type annotation. */
  datatype Parameter = Parameter(name: string, paramType: Option<string>)

  /**
   * `elseBranch?: ASTNode[]`. An absent else branch is distinct from an empty one
   * (`[]` is truthy in JavaScript), and the macro view's complexity tells them apart.
   */
  datatype OptionalBranch = Absent | Present(stmts: seq<AstNode>)

  /** The closed union of the seven statement kinds. */
  datatype AstNode =
    | FunctionDeclaration(name: string, parameters: seq<Parameter>, body: seq<AstNode>,
                          returnType: Option<string>, location: SourceLocation)
    | IfStatement(condition: string, thenBranch: seq<AstNode>, elseBranch: OptionalBranch,
                  location: SourceLocation)
    | ForStatement(initializer: Option<string>, forCondition: Option<string>,
                   incrementor: Option<string>, body: seq<AstNode>, location: SourceLocation)
    | WhileStatement(condition: string, body: seq<AstNode>, location: SourceLocation)
    | VariableDeclaration(name: string, varType: Option<string>, initializer: Option<string>,
                          location: SourceLocation)
    | ReturnStatement(value: Option<string>, location: SourceLocation)
    | ExpressionStatement(expression: string, location: SourceLocation)
  {
    predicate IsLoop() { ForStatement? || WhileStatement? }
  }

  /** The root: `{ type: 'Program', body, sourceFile? }`. */
  datatype Program = Program(body: seq<AstNode>, sourceFile: Option<string>)

  /** The statements of an else branch; an absent branch contributes none. */
  function ElseStatements(e: OptionalBranch): seq<AstNode>
  {
    if e.Present? then e.stmts else []
  }
}
