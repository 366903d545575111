/**
 * The abstract syntax tree the checker and the code generators walk
 * (the node classes of node.h, as the later checker uses them).
 */
module Ast {
  import opened Wrappers

  /** The parser's binary-operator tokens: four arithmetic ones and six comparisons. */
  datatype Op = TPlus | TMinus | TMul | TDiv | TCeq | TCne | TClt | TCle | TCgt | TCge
  {
    predicate IsArithmetic() { TPlus? || TMinus? || TMul? || TDiv? }
    predicate IsComparison() { !IsArithmetic() }
  }

  /**
   * One AST node. An `NType` or `NSecurity` child is written by its name;
   * the target of an assignment or declaration by the identifier's name.
   * The payload of a double literal is floating point and is not kept.
   */
  datatype Node =
    | NSkip
    | NInteger(value: int)
    | NDouble
    | NBool(text: string)
    | NType(name: string)
    | NSecurity(name: string)
    | NIdentifier(name: string)
    | NBinaryOperator(op: Op, lhs: Node, rhs: Node)
    | NAssignment(target: string, rhs: Node)
    | NVariableDeclaration(typeName: string, security: string, id: string, init: Option<Node>)
    | NIfExpression(guard: Node, thenBranch: Node, elseBranch: Node)
    | NExpressionStatement(expression: Node)
    | NBlock(statements: seq<Node>)

  /** The phase flag a visitor callback receives with a node. */
  datatype Flag = NoFlag | Enter | Exit | GuardEnter | GuardExit | ThenEnter | ThenExit | ElseEnter | ElseExit
}
