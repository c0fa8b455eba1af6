/** The parser as the source writes it: an object with a token cursor and mutually
    recursive methods, each proved to compute what its function in `ParserSpec` describes. */
module Parsing {
  import opened Wrappers
  import opened Tokens
  import opened Nodes
  import opened ParserSpec

  /** A method's result and final token index agree with a reply of the specification. */
  ghost predicate Agrees(res: Result<Node, Failure>, index: int, reply: Reply) {
    match reply
    case Done(e, j) => res == Success(e) && index == j
    case Abort(f) => res == Failure(f)
  }

  class Parser {
    const tokens: seq<Token>
    var tokIndex: int
    var currentToken: Option<Token>

    ghost predicate Valid()
      reads this
    {
      tokIndex >= -1 && currentToken == Current(tokens, tokIndex)
    }

    constructor (tokens: seq<Token>)
      ensures Valid() && this.tokens == tokens && tokIndex == 0
    {
      this.tokens := tokens;
      tokIndex := -1;
      currentToken := None;
      new;
      var _ := Advance();
    }

    /** Move to the next token; past the end the last token stays current. */
    method Advance() returns (tok: Option<Token>)
      requires Valid()
      modifies this
      ensures Valid() && tokIndex == old(tokIndex) + 1
      ensures currentToken == if tokIndex < |tokens| then Some(tokens[tokIndex]) else old(currentToken)
      ensures tok == currentToken
    {
      tokIndex := tokIndex + 1;
      if tokIndex < |tokens| {
        currentToken := Some(tokens[tokIndex]);
      }
      tok := currentToken;
    }

    method Parse() returns (res: Result<Node, Failure>)
      requires Valid() && tokIndex >= 0
      modifies this
      ensures Valid() && Agrees(res, tokIndex, ParserSpec.Expression(tokens, old(tokIndex)))
    {
      res := Expression();
    }

    method Expression() returns (res: Result<Node, Failure>)
      requires Valid() && tokIndex >= 0
      modifies this
      ensures Valid() && Agrees(res, tokIndex, ParserSpec.Expression(tokens, old(tokIndex)))
      decreases Rest(tokens, tokIndex), 6
    {
      res := BinaryOperation(Sum);
    }

    method Term() returns (res: Result<Node, Failure>)
      requires Valid() && tokIndex >= 0
      modifies this
      ensures Valid() && Agrees(res, tokIndex, ParserSpec.Term(tokens, old(tokIndex)))
      decreases Rest(tokens, tokIndex), 3
    {
      res := BinaryOperation(Product);
    }

    method Factor() returns (res: Result<Node, Failure>)
      requires Valid() && tokIndex >= 0
      modifies this
      ensures Valid() && Agrees(res, tokIndex, ParserSpec.Factor(tokens, old(tokIndex)))
      decreases Rest(tokens, tokIndex), 0
    {
      var tok := currentToken;
      if tok.None? {
        return Failure(NoneAccess);
      }
      var t := tok.value;
      if t.Int? || t.Float? {
        var _ := Advance();
        return Success(NumberNode(t));
      } else if t.LParen? {
        if tokIndex >= |tokens| {
          // The `(` is stale: every nested call would meet it again (ParserSpec.Factor).
          return Failure(RecursesForever);
        }
        var _ := Advance();
        var expr := Expression();
        if expr.Failure? {
          return expr;
        }
        if currentToken.Some? && currentToken.value.RParen? {
          var _ := Advance();
          return expr;
        }
        return Failure(ExpectedRParen);
      }
      return Success(Absent);
    }

    /** One operand of the tier, then fold operators of the tier left to right. */
    method BinaryOperation(level: Level) returns (res: Result<Node, Failure>)
      requires Valid() && tokIndex >= 0
      modifies this
      ensures Valid() && Agrees(res, tokIndex, ParserSpec.BinaryOperation(level, tokens, old(tokIndex)))
      decreases Rest(tokens, tokIndex), if level == Sum then 5 else 2
    {
      var left;
      if level == Sum {
        left := Term();
      } else {
        left := Factor();
      }
      if left.Failure? {
        return left;
      }
      var acc := left.value;
      while currentToken.Some? && InOps(level, currentToken.value)
        invariant Valid() && tokIndex >= old(tokIndex)
        invariant ParserSpec.BinaryOperation(level, tokens, old(tokIndex)) == Loop(level, tokens, tokIndex, acc)
        decreases Rest(tokens, tokIndex)
      {
        if tokIndex >= |tokens| {
          // The operator is stale: each further turn parses an `Absent` operand without
          // consuming a real token and finds the same operator again (StaleOperandIsAbsent).
          return Failure(LoopsForever);
        }
        var opTok := currentToken.value;
        var _ := Advance();
        var right;
        if level == Sum {
          right := Term();
        } else {
          right := Factor();
        }
        if right.Failure? {
          return right;
        }
        acc := BinaryOperationNode(acc, opTok, right.value);
      }
      return Success(acc);
    }
  }
}
