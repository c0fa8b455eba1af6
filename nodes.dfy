/** The syntax tree the parser builds. */
module Nodes {
  import opened Tokens

  /** `Absent` is the `None` that the parser's `factor` returns for a token that cannot start
      a factor; it can end up inside a tree as an operand. */
  datatype Node =
    | NumberNode(tok: Token)
    | BinaryOperationNode(left: Node, opTok: Token, right: Node)
    | Absent

  /** A tree with numbers at the leaves and operators at the inner nodes, and no `Absent`. */
  predicate WellFormed(e: Node) {
    match e
    case NumberNode(t) => IsNumber(t) && WellFormedToken(t)
    case BinaryOperationNode(l, op, r) => IsOperator(op) && WellFormed(l) && WellFormed(r)
    case Absent => false
  }
}
