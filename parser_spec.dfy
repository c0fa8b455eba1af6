/** What the recursive-descent parser computes, as functions of the token list and the
    token index, and what is proved about it. */
module ParserSpec {
  import opened Wrappers
  import opened Tokens
  import opened Nodes

  /** The two tiers `binary_operation` serves: `Sum` is `expression` (operands are terms,
      operators `+ -`), `Product` is `term` (operands are factors, operators `* /`). */
  datatype Level = Sum | Product

  predicate InOps(level: Level, t: Token) {
    if level == Sum then IsSumOp(t) else IsProductOp(t)
  }

  /** How a parse ends when it does not return a node. */
  datatype Failure =
    | ExpectedRParen   // `raise Exception("Expected ')'")`
    | NoneAccess       // `tok.type` on a `current_token` that is `None`: the token list is empty
    | LoopsForever     // `binary_operation` loops with a current token that never changes
    | RecursesForever  // `factor` re-enters itself on a `(` that never changes

  /** A parsing function either returns a node and the new token index, or aborts. */
  datatype Reply = Done(node: Node, next: int) | Abort(failure: Failure)

  /** The parser's `current_token` at token index `i`: advancing past the end keeps the last
      token, and an empty list never has one. */
  function Current(tokens: seq<Token>, i: int): Option<Token> {
    if 0 <= i < |tokens| then Some(tokens[i])
    else if i >= |tokens| && |tokens| > 0 then Some(tokens[|tokens| - 1])
    else None
  }

  /** The tokens not yet consumed; the termination measure of the parser. */
  function Rest(tokens: seq<Token>, i: int): nat {
    if i < |tokens| then |tokens| - i else 0
  }

  /** `factor`: a number, or a parenthesised expression, or (falling through) `Absent` without
      consuming anything. Past the end, a `(` stays current for ever, so `factor` would call
      itself without end. */
  function Factor(tokens: seq<Token>, i: int): (r: Reply)
    requires i >= 0
    ensures r.Done? ==> i <= r.next
    ensures (r == Abort(NoneAccess)) == (tokens == [])
    decreases Rest(tokens, i), 0
  {
    match Current(tokens, i)
    case None => Abort(NoneAccess)
    case Some(t) =>
      if IsNumber(t) then Done(NumberNode(t), i + 1)
      else if t.LParen? then
        if i >= |tokens| then Abort(RecursesForever)
        else
          match Expression(tokens, i + 1)
          case Abort(f) => Abort(f)
          case Done(e, j) =>
            match Current(tokens, j)
            case Some(RParen) => Done(e, j + 1)
            case _ => Abort(ExpectedRParen)
      else Done(Absent, i)
  }

  /** `expression`: `binary_operation(term, (PLUS, MINUS))`. */
  function Expression(tokens: seq<Token>, i: int): (r: Reply)
    requires i >= 0
    ensures r.Done? ==> i <= r.next
    ensures (r == Abort(NoneAccess)) == (tokens == [])
    decreases Rest(tokens, i), 6
  {
    BinaryOperation(Sum, tokens, i)
  }

  /** `term`: `binary_operation(factor, (MUL, DIV))`. */
  function Term(tokens: seq<Token>, i: int): (r: Reply)
    requires i >= 0
    ensures r.Done? ==> i <= r.next
    ensures (r == Abort(NoneAccess)) == (tokens == [])
    decreases Rest(tokens, i), 3
  {
    BinaryOperation(Product, tokens, i)
  }

  /** `binary_operation`: one operand, then the loop. */
  function BinaryOperation(level: Level, tokens: seq<Token>, i: int): (r: Reply)
    requires i >= 0
    ensures r.Done? ==> i <= r.next
    ensures (r == Abort(NoneAccess)) == (tokens == [])
    decreases Rest(tokens, i), if level == Sum then 5 else 2
  {
    match (if level == Sum then Term(tokens, i) else Factor(tokens, i))
    case Abort(f) => Abort(f)
    case Done(left, j) => Loop(level, tokens, j, left)
  }

  /** The loop of `binary_operation` with the tree `left` built so far: while the current
      token is an operator of the tier, consume it, parse the next operand and fold. Past the
      end the current token never changes, so an operator there keeps the loop going for ever. */
  function Loop(level: Level, tokens: seq<Token>, i: int, left: Node): (r: Reply)
    requires i >= 0
    ensures r.Done? ==> i <= r.next
    ensures r != Abort(NoneAccess)
    decreases Rest(tokens, i), if level == Sum then 4 else 1
  {
    match Current(tokens, i)
    case None => Done(left, i)
    case Some(op) =>
      if !InOps(level, op) then Done(left, i)
      else if i >= |tokens| then Abort(LoopsForever)
      else
        match (if level == Sum then Term(tokens, i + 1) else Factor(tokens, i + 1))
        case Abort(f) => Abort(f)
        case Done(right, j) => Loop(level, tokens, j, BinaryOperationNode(left, op, right))
  }

  /** `Parser(tokens).parse()`: one expression from the first token; whatever follows it is
      left unread. The parser reads `.type` of a missing token exactly when the list is empty. */
  function Parse(tokens: seq<Token>): (r: Result<Node, Failure>)
    ensures (r == Failure(NoneAccess)) == (tokens == [])
  {
    match Expression(tokens, 0)
    case Done(e, _) => Success(e)
    case Abort(f) => Failure(f)
  }
}
