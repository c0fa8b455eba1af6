/** Properties of the parser: it inverts a printer of well-formed trees (which gives
    left associativity and the two precedence tiers), it ignores what follows the expression,
    and it fails, loops or recurses for ever on the inputs the source mishandles. */
module ParserLemmas {
  import opened Wrappers
  import opened Tokens
  import opened Nodes
  import opened ParserSpec

  /** Where a subtree is printed. */
  datatype Context = InExpression | InTerm | InFactor

  /** The tokens of a tree with just the parentheses the grammar needs: a `+`/`-` node is
      bracketed inside a term or a factor, a `*`/`/` node inside a factor. */
  function Render(e: Node, ctx: Context): seq<Token> {
    match e
    case NumberNode(t) => [t]
    case Absent => []
    case BinaryOperationNode(l, op, r) =>
      var inner :=
        if IsSumOp(op) then Render(l, InExpression) + [op] + Render(r, InTerm)
        else if IsProductOp(op) then Render(l, InTerm) + [op] + Render(r, InFactor)
        else [];
      if (IsSumOp(op) && ctx != InExpression) || (IsProductOp(op) && ctx == InFactor) then
        [LParen] + inner + [RParen]
      else inner
  }

  /** `tokens[i..]` starts with `r`. */
  predicate At(tokens: seq<Token>, i: int, r: seq<Token>) {
    0 <= i && i + |r| <= |tokens| && forall m :: 0 <= m < |r| ==> tokens[i + m] == r[m]
  }

  /** The current token at `j` does not continue a term. */
  predicate StopsTerm(tokens: seq<Token>, j: int) {
    !(Current(tokens, j).Some? && IsProductOp(Current(tokens, j).value))
  }

  /** The current token at `j` does not continue an expression. */
  predicate StopsExpression(tokens: seq<Token>, j: int) {
    !(Current(tokens, j).Some? && IsOperator(Current(tokens, j).value))
  }

  lemma AtSplit(tokens: seq<Token>, i: int, r1: seq<Token>, x: Token, r2: seq<Token>)
    requires At(tokens, i, r1 + [x] + r2)
    ensures At(tokens, i, r1) && tokens[i + |r1|] == x && At(tokens, i + |r1| + 1, r2)
  {
    var r := r1 + [x] + r2;
    forall m | 0 <= m < |r1|
      ensures tokens[i + m] == r1[m]
    {
      assert r[m] == r1[m];
    }
    assert tokens[i + |r1|] == r[|r1|];
    forall m | 0 <= m < |r2|
      ensures tokens[i + |r1| + 1 + m] == r2[m]
    {
      assert r[|r1| + 1 + m] == r2[m];
    }
  }

  /** One turn of the loop of `binary_operation` on an operator that is really there. */
  lemma LoopStep(level: Level, tokens: seq<Token>, k: int, left: Node, op: Token, right: Node, j: int)
    requires 0 <= k < |tokens| && tokens[k] == op && InOps(level, op)
    requires (if level == Sum then Term(tokens, k + 1) else Factor(tokens, k + 1)) == Done(right, j)
    ensures Loop(level, tokens, k, left) == Loop(level, tokens, j, BinaryOperationNode(left, op, right))
  {
  }

  /** `expression` starts its loop right after its first term. */
  lemma SumFirst(tokens: seq<Token>, i: int, e: Node, j: int)
    requires 0 <= i && Term(tokens, i) == Done(e, j)
    ensures BinaryOperation(Sum, tokens, i) == Loop(Sum, tokens, j, e)
  {
  }

  /** `term` starts its loop right after its first factor. */
  lemma ProductFirst(tokens: seq<Token>, i: int, e: Node, j: int)
    requires 0 <= i && Factor(tokens, i) == Done(e, j)
    ensures BinaryOperation(Product, tokens, i) == Loop(Product, tokens, j, e)
  {
  }

  /** The operands of a printed sum sit side by side around its operator. */
  lemma SumOperandsAt(tokens: seq<Token>, i: int, l: Node, op: Token, r: Node)
    requires IsSumOp(op) && At(tokens, i, Render(BinaryOperationNode(l, op, r), InExpression))
    ensures At(tokens, i, Render(l, InExpression))
    ensures i + |Render(l, InExpression)| < |tokens| && tokens[i + |Render(l, InExpression)|] == op
    ensures At(tokens, i + |Render(l, InExpression)| + 1, Render(r, InTerm))
    ensures |Render(BinaryOperationNode(l, op, r), InExpression)| == |Render(l, InExpression)| + 1 + |Render(r, InTerm)|
  {
    RenderSum(l, op, r);
    AtSplit(tokens, i, Render(l, InExpression), op, Render(r, InTerm));
  }

  /** The operands of a printed product sit side by side around its operator. */
  lemma ProductOperandsAt(tokens: seq<Token>, i: int, l: Node, op: Token, r: Node)
    requires IsProductOp(op) && At(tokens, i, Render(BinaryOperationNode(l, op, r), InTerm))
    ensures At(tokens, i, Render(l, InTerm))
    ensures i + |Render(l, InTerm)| < |tokens| && tokens[i + |Render(l, InTerm)|] == op
    ensures At(tokens, i + |Render(l, InTerm)| + 1, Render(r, InFactor))
    ensures |Render(BinaryOperationNode(l, op, r), InTerm)| == |Render(l, InTerm)| + 1 + |Render(r, InFactor)|
  {
    RenderProduct(l, op, r);
    AtSplit(tokens, i, Render(l, InTerm), op, Render(r, InFactor));
  }

  /** The loop of `expression` takes one more `+`/`-` and its right operand. */
  lemma SumStep(tokens: seq<Token>, i: int, k: int, j: int, l: Node, op: Token, r: Node)
    requires 0 <= i && 0 <= k < |tokens| && tokens[k] == op && IsSumOp(op)
    requires BinaryOperation(Sum, tokens, i) == Loop(Sum, tokens, k, l)
    requires Term(tokens, k + 1) == Done(r, j)
    ensures BinaryOperation(Sum, tokens, i) == Loop(Sum, tokens, j, BinaryOperationNode(l, op, r))
  {
    LoopStep(Sum, tokens, k, l, op, r, j);
  }

  /** The loop of `term` takes one more `*`/`/` and its right operand. */
  lemma ProductStep(tokens: seq<Token>, i: int, k: int, j: int, l: Node, op: Token, r: Node)
    requires 0 <= i && 0 <= k < |tokens| && tokens[k] == op && IsProductOp(op)
    requires BinaryOperation(Product, tokens, i) == Loop(Product, tokens, k, l)
    requires Factor(tokens, k + 1) == Done(r, j)
    ensures BinaryOperation(Product, tokens, i) == Loop(Product, tokens, j, BinaryOperationNode(l, op, r))
  {
    LoopStep(Product, tokens, k, l, op, r, j);
  }

  /** A parenthesised print: `(` at `i`, the inner print, and `)` after it. */
  lemma ParenthesisedAt(tokens: seq<Token>, i: int, inner: seq<Token>)
    requires At(tokens, i, [LParen] + inner + [RParen])
    ensures i < |tokens| && tokens[i] == LParen && At(tokens, i + 1, inner)
    ensures i + 1 + |inner| < |tokens| && tokens[i + 1 + |inner|] == RParen
    ensures StopsExpression(tokens, i + 1 + |inner|)
  {
    var r := [LParen] + inner + [RParen];
    assert tokens[i + 0] == r[0];
    forall m | 0 <= m < |inner|
      ensures tokens[i + 1 + m] == inner[m]
    {
      assert r[1 + m] == inner[m];
    }
    assert tokens[i + (1 + |inner|)] == r[1 + |inner|];
  }

  /** `(` expression `)` is a factor whose node is the inner expression's. */
  lemma ParenStep(tokens: seq<Token>, i: int, j: int, e: Node)
    requires 0 <= i < |tokens| && tokens[i] == LParen
    requires Expression(tokens, i + 1) == Done(e, j) && j < |tokens| && tokens[j] == RParen
    ensures Factor(tokens, i) == Done(e, j + 1)
  {
  }

  /** Only a `+`/`-` node prints differently in an expression and in a term. */
  lemma RenderTermAsExpression(e: Node)
    requires !(e.BinaryOperationNode? && IsSumOp(e.opTok))
    ensures Render(e, InTerm) == Render(e, InExpression)
  {
  }

  lemma RenderFactorAsTerm(e: Node)
    requires !(e.BinaryOperationNode? && IsProductOp(e.opTok))
    ensures Render(e, InFactor) == Render(e, InTerm)
  {
  }

  lemma RenderSum(l: Node, op: Token, r: Node)
    requires IsSumOp(op)
    ensures Render(BinaryOperationNode(l, op, r), InExpression) == Render(l, InExpression) + [op] + Render(r, InTerm)
  {
  }

  lemma RenderProduct(l: Node, op: Token, r: Node)
    requires IsProductOp(op)
    ensures Render(BinaryOperationNode(l, op, r), InExpression) == Render(l, InTerm) + [op] + Render(r, InFactor)
    ensures Render(BinaryOperationNode(l, op, r), InTerm) == Render(l, InTerm) + [op] + Render(r, InFactor)
  {
  }

  /** A well-formed tree prints to a non-empty list that ends with a number or `)`. */
  lemma {:induction false} RenderEndsWithOperand(e: Node, ctx: Context)
    requires WellFormed(e)
    ensures |Render(e, ctx)| > 0 && !IsOperator(Render(e, ctx)[|Render(e, ctx)| - 1])
  {
    match e
    case NumberNode(t) =>
    case BinaryOperationNode(l, op, r) =>
      if IsSumOp(op) {
        RenderEndsWithOperand(r, InTerm);
      } else {
        RenderEndsWithOperand(r, InFactor);
      }
  }

  /** Parsing an expression-level print reaches the loop of `expression` with the whole tree
      folded, provided the next token does not continue the last term. */
  lemma {:induction false} ExpressionReachesLoop(tokens: seq<Token>, i: int, e: Node)
    requires WellFormed(e) && At(tokens, i, Render(e, InExpression))
    requires StopsTerm(tokens, i + |Render(e, InExpression)|)
    ensures BinaryOperation(Sum, tokens, i) == Loop(Sum, tokens, i + |Render(e, InExpression)|, e)
    decreases |Render(e, InExpression)|, 4
  {
    if e.BinaryOperationNode? && IsSumOp(e.opTok) {
      SumReachesLoop(tokens, i, e.left, e.opTok, e.right);
    } else {
      RenderTermAsExpression(e);
      TermDone(tokens, i, e);
      SumFirst(tokens, i, e, i + |Render(e, InTerm)|);
    }
  }

  /** The sum case of `ExpressionReachesLoop`: both operands, then one turn of the loop. */
  lemma {:induction false} SumReachesLoop(tokens: seq<Token>, i: int, l: Node, op: Token, r: Node)
    requires IsSumOp(op) && WellFormed(BinaryOperationNode(l, op, r))
    requires At(tokens, i, Render(BinaryOperationNode(l, op, r), InExpression))
    requires StopsTerm(tokens, i + |Render(BinaryOperationNode(l, op, r), InExpression)|)
    ensures BinaryOperation(Sum, tokens, i)
         == Loop(Sum, tokens, i + |Render(BinaryOperationNode(l, op, r), InExpression)|, BinaryOperationNode(l, op, r))
    decreases |Render(BinaryOperationNode(l, op, r), InExpression)|, 3
  {
    SumOperandsAt(tokens, i, l, op, r);
    var k := i + |Render(l, InExpression)|;
    var j := k + 1 + |Render(r, InTerm)|;
    ExpressionReachesLoop(tokens, i, l);
    TermDone(tokens, k + 1, r);
    SumStep(tokens, i, k, j, l, op, r);
  }

  /** A term-level print followed by a token that does not continue it parses as a term. */
  lemma {:induction false} TermDone(tokens: seq<Token>, i: int, e: Node)
    requires WellFormed(e) && At(tokens, i, Render(e, InTerm))
    requires StopsTerm(tokens, i + |Render(e, InTerm)|)
    ensures Term(tokens, i) == Done(e, i + |Render(e, InTerm)|)
    decreases |Render(e, InTerm)|, 3
  {
    TermReachesLoop(tokens, i, e);
  }

  /** Parsing a term-level print reaches the loop of `term` with the whole tree folded. */
  lemma {:induction false} TermReachesLoop(tokens: seq<Token>, i: int, e: Node)
    requires WellFormed(e) && At(tokens, i, Render(e, InTerm))
    ensures BinaryOperation(Product, tokens, i) == Loop(Product, tokens, i + |Render(e, InTerm)|, e)
    decreases |Render(e, InTerm)|, 2
  {
    if e.BinaryOperationNode? && IsProductOp(e.opTok) {
      ProductReachesLoop(tokens, i, e.left, e.opTok, e.right);
    } else {
      RenderFactorAsTerm(e);
      FactorDone(tokens, i, e);
      ProductFirst(tokens, i, e, i + |Render(e, InFactor)|);
    }
  }

  /** The product case of `TermReachesLoop`: both operands, then one turn of the loop. */
  lemma {:induction false} ProductReachesLoop(tokens: seq<Token>, i: int, l: Node, op: Token, r: Node)
    requires IsProductOp(op) && WellFormed(BinaryOperationNode(l, op, r))
    requires At(tokens, i, Render(BinaryOperationNode(l, op, r), InTerm))
    ensures BinaryOperation(Product, tokens, i)
         == Loop(Product, tokens, i + |Render(BinaryOperationNode(l, op, r), InTerm)|, BinaryOperationNode(l, op, r))
    decreases |Render(BinaryOperationNode(l, op, r), InTerm)|, 1
  {
    ProductOperandsAt(tokens, i, l, op, r);
    var k := i + |Render(l, InTerm)|;
    var j := k + 1 + |Render(r, InFactor)|;
    TermReachesLoop(tokens, i, l);
    FactorDone(tokens, k + 1, r);
    ProductStep(tokens, i, k, j, l, op, r);
  }

  /** A factor-level print parses as a factor, whatever follows it. */
  lemma {:induction false} FactorDone(tokens: seq<Token>, i: int, e: Node)
    requires WellFormed(e) && At(tokens, i, Render(e, InFactor))
    ensures Factor(tokens, i) == Done(e, i + |Render(e, InFactor)|)
    decreases |Render(e, InFactor)|, 1
  {
    match e
    case NumberNode(t) =>
      assert tokens[i] == Render(e, InFactor)[0];
    case BinaryOperationNode(l, op, r) =>
      var inner := Render(e, InExpression);
      assert Render(e, InFactor) == [LParen] + inner + [RParen];
      ParenthesisedAt(tokens, i, inner);
      ExpressionDone(tokens, i + 1, e);
      var j := i + 1 + |inner|;
      ParenStep(tokens, i, j, e);
      assert j + 1 == i + |Render(e, InFactor)|;
  }

  /** An expression-level print followed by a token that does not continue it parses as an
      expression. */
  lemma {:induction false} ExpressionDone(tokens: seq<Token>, i: int, e: Node)
    requires WellFormed(e) && At(tokens, i, Render(e, InExpression))
    requires StopsExpression(tokens, i + |Render(e, InExpression)|)
    ensures Expression(tokens, i) == Done(e, i + |Render(e, InExpression)|)
    decreases |Render(e, InExpression)|, 5
  {
    ExpressionReachesLoop(tokens, i, e);
  }

  /** Round trip: parsing the print of a well-formed tree gives the tree back, and tokens after
      it that do not start with an operator are ignored rather than reported. */
  lemma ParseRender(e: Node, rest: seq<Token>)
    requires WellFormed(e)
    requires rest == [] || !IsOperator(rest[0])
    ensures Parse(Render(e, InExpression) + rest) == Success(e)
  {
    var r := Render(e, InExpression);
    var tokens := r + rest;
    RenderEndsWithOperand(e, InExpression);
    if rest == [] {
      assert Current(tokens, |r|) == Some(r[|r| - 1]);
    } else {
      assert Current(tokens, |r|) == Some(rest[0]);
    }
    ExpressionDone(tokens, 0, e);
  }

  /** Operators of one tier group to the left: `a o1 b o2 c` is `(a o1 b) o2 c`. */
  lemma LeftAssociative(level: Level, a: Token, o1: Token, b: Token, o2: Token, c: Token)
    requires IsNumber(a) && IsNumber(b) && IsNumber(c)
    requires WellFormedToken(a) && WellFormedToken(b) && WellFormedToken(c)
    requires InOps(level, o1) && InOps(level, o2)
    ensures Parse([a, o1, b, o2, c]) ==
            Success(BinaryOperationNode(BinaryOperationNode(NumberNode(a), o1, NumberNode(b)), o2, NumberNode(c)))
  {
    var l := BinaryOperationNode(NumberNode(a), o1, NumberNode(b));
    var e := BinaryOperationNode(l, o2, NumberNode(c));
    if level == Sum {
      RenderSum(NumberNode(a), o1, NumberNode(b));
      RenderSum(l, o2, NumberNode(c));
    } else {
      RenderProduct(NumberNode(a), o1, NumberNode(b));
      RenderProduct(l, o2, NumberNode(c));
    }
    assert Render(e, InExpression) == [a, o1, b, o2, c];
    ParseRender(e, []);
    assert [a, o1, b, o2, c] + [] == [a, o1, b, o2, c];
  }

  /** `*` and `/` bind tighter than `+` and `-`, on either side. */
  lemma ProductBindsTighter(a: Token, s: Token, b: Token, p: Token, c: Token)
    requires IsNumber(a) && IsNumber(b) && IsNumber(c)
    requires WellFormedToken(a) && WellFormedToken(b) && WellFormedToken(c)
    requires IsSumOp(s) && IsProductOp(p)
    ensures Parse([a, s, b, p, c]) ==
            Success(BinaryOperationNode(NumberNode(a), s, BinaryOperationNode(NumberNode(b), p, NumberNode(c))))
    ensures Parse([a, p, b, s, c]) ==
            Success(BinaryOperationNode(BinaryOperationNode(NumberNode(a), p, NumberNode(b)), s, NumberNode(c)))
  {
    var e1 := BinaryOperationNode(NumberNode(a), s, BinaryOperationNode(NumberNode(b), p, NumberNode(c)));
    RenderProduct(NumberNode(b), p, NumberNode(c));
    RenderSum(NumberNode(a), s, BinaryOperationNode(NumberNode(b), p, NumberNode(c)));
    assert Render(e1, InExpression) == [a, s, b, p, c];
    ParseRender(e1, []);
    assert [a, s, b, p, c] + [] == [a, s, b, p, c];
    var e2 := BinaryOperationNode(BinaryOperationNode(NumberNode(a), p, NumberNode(b)), s, NumberNode(c));
    RenderProduct(NumberNode(a), p, NumberNode(b));
    RenderSum(BinaryOperationNode(NumberNode(a), p, NumberNode(b)), s, NumberNode(c));
    assert Render(e2, InExpression) == [a, p, b, s, c];
    ParseRender(e2, []);
    assert [a, p, b, s, c] + [] == [a, p, b, s, c];
  }

  /** Parentheses override precedence: `(a s b) p c` keeps the sum as the left operand. */
  lemma ParenthesesGroup(a: Token, s: Token, b: Token, p: Token, c: Token)
    requires IsNumber(a) && IsNumber(b) && IsNumber(c)
    requires WellFormedToken(a) && WellFormedToken(b) && WellFormedToken(c)
    requires IsSumOp(s) && IsProductOp(p)
    ensures Parse([LParen, a, s, b, RParen, p, c]) ==
            Success(BinaryOperationNode(BinaryOperationNode(NumberNode(a), s, NumberNode(b)), p, NumberNode(c)))
  {
    var l := BinaryOperationNode(NumberNode(a), s, NumberNode(b));
    var e := BinaryOperationNode(l, p, NumberNode(c));
    RenderSum(NumberNode(a), s, NumberNode(b));
    assert Render(l, InTerm) == [LParen, a, s, b, RParen];
    RenderProduct(l, p, NumberNode(c));
    assert Render(e, InExpression) == [LParen, a, s, b, RParen, p, c];
    ParseRender(e, []);
    assert [LParen, a, s, b, RParen, p, c] + [] == [LParen, a, s, b, RParen, p, c];
  }

  /** With no tokens there is no current token, and `factor` dereferences `None`. */
  lemma EmptyTokensFail()
    ensures Parse([]) == Failure(NoneAccess)
  {
  }

  /** Past the end the current token is always the last one. When it is an operator of the
      tier, an operand parsed there is `Absent` and consumes nothing real, so every turn of the
      loop ends where it began and the loop never exits. */
  lemma StaleOperandIsAbsent(level: Level, tokens: seq<Token>, i: int)
    requires 0 < |tokens| <= i && InOps(level, tokens[|tokens| - 1])
    ensures Current(tokens, i) == Some(tokens[|tokens| - 1])
    ensures (if level == Sum then Term(tokens, i) else Factor(tokens, i)) == Done(Absent, i)
  {
    if level == Sum {
      assert Factor(tokens, i) == Done(Absent, i);
      assert Loop(Product, tokens, i, Absent) == Done(Absent, i);
    }
  }

  /** A trailing `+` or `-` after a complete expression makes `expression` loop for ever
      (the source hangs on `1+`). */
  lemma TrailingSumOperatorLoops(e: Node, o: Token)
    requires WellFormed(e) && IsSumOp(o)
    ensures Parse(Render(e, InExpression) + [o]) == Failure(LoopsForever)
  {
    var r := Render(e, InExpression);
    var tokens := r + [o];
    var n := |tokens|;
    assert tokens[|r|] == o && n == |r| + 1;
    ExpressionReachesLoop(tokens, 0, e);
    StaleOperandIsAbsent(Sum, tokens, n);
    LoopStep(Sum, tokens, |r|, e, o, Absent, n);
    assert Loop(Sum, tokens, n, BinaryOperationNode(e, o, Absent)) == Abort(LoopsForever);
  }

  /** A trailing `*` or `/` after a complete term makes `term` loop for ever (`2*`). */
  lemma TrailingProductOperatorLoops(e: Node, o: Token)
    requires WellFormed(e) && IsProductOp(o)
    ensures Parse(Render(e, InTerm) + [o]) == Failure(LoopsForever)
  {
    var r := Render(e, InTerm);
    var tokens := r + [o];
    var n := |tokens|;
    assert tokens[|r|] == o && n == |r| + 1;
    TermReachesLoop(tokens, 0, e);
    StaleOperandIsAbsent(Product, tokens, n);
    LoopStep(Product, tokens, |r|, e, o, Absent, n);
    assert Loop(Product, tokens, n, BinaryOperationNode(e, o, Absent)) == Abort(LoopsForever);
    assert Term(tokens, 0) == Abort(LoopsForever);
    assert BinaryOperation(Sum, tokens, 0) == Abort(LoopsForever);
  }

  /** A lone operator is no error either: `factor` returns `Absent` and the loop then spins
      on the operator (the source hangs on `+`). */
  lemma LoneOperatorLoops(o: Token)
    requires IsOperator(o)
    ensures Parse([o]) == Failure(LoopsForever)
  {
    var tokens := [o];
    var stuck := BinaryOperationNode(Absent, o, Absent);
    assert Factor(tokens, 0) == Done(Absent, 0);
    if IsSumOp(o) {
      assert Loop(Product, tokens, 0, Absent) == Done(Absent, 0);
      assert Term(tokens, 0) == Done(Absent, 0);
      StaleOperandIsAbsent(Sum, tokens, 1);
      LoopStep(Sum, tokens, 0, Absent, o, Absent, 1);
      assert Loop(Sum, tokens, 1, stuck) == Abort(LoopsForever);
      assert BinaryOperation(Sum, tokens, 0) == Loop(Sum, tokens, 0, Absent);
    } else {
      StaleOperandIsAbsent(Product, tokens, 1);
      LoopStep(Product, tokens, 0, Absent, o, Absent, 1);
      assert Loop(Product, tokens, 1, stuck) == Abort(LoopsForever);
      assert BinaryOperation(Product, tokens, 0) == Abort(LoopsForever);
      assert Term(tokens, 0) == Abort(LoopsForever);
      assert BinaryOperation(Sum, tokens, 0) == Abort(LoopsForever);
    }
  }

  /** A `(` as the last token is re-read by `factor` for ever (`(`). */
  lemma LoneOpenParenRecurses()
    ensures Parse([LParen]) == Failure(RecursesForever)
  {
    var tokens := [LParen];
    assert Factor(tokens, 1) == Abort(RecursesForever);
    assert Term(tokens, 1) == Abort(RecursesForever);
    assert Factor(tokens, 0) == Abort(RecursesForever);
  }

  /** A missing `)` after an expression that ends in a number raises "Expected ')'" (`(1+2`). */
  lemma UnclosedParenRaises(e: Node)
    requires WellFormed(e)
    requires IsNumber(Render(e, InExpression)[|Render(e, InExpression)| - 1])
    ensures Parse([LParen] + Render(e, InExpression)) == Failure(ExpectedRParen)
  {
    var r := Render(e, InExpression);
    var tokens := [LParen] + r;
    var n := |tokens|;
    assert tokens[1..1 + |r|] == r;
    assert Current(tokens, n) == Some(r[|r| - 1]);
    ExpressionDone(tokens, 1, e);
    assert Expression(tokens, 1) == Done(e, n);
    assert Factor(tokens, 0) == Abort(ExpectedRParen);
    assert BinaryOperation(Product, tokens, 0) == Abort(ExpectedRParen);
    assert Term(tokens, 0) == Abort(ExpectedRParen);
    assert BinaryOperation(Sum, tokens, 0) == Abort(ExpectedRParen);
  }

  /** The stale last `)` also closes an outer `(`: the source accepts the unbalanced `((1)`
      and returns the inner tree. */
  lemma ExtraOpenParenAccepted(e: Node)
    requires WellFormed(e)
    ensures Parse([LParen, LParen] + Render(e, InExpression) + [RParen]) == Success(e)
  {
    var r := Render(e, InExpression);
    var tokens := [LParen, LParen] + r + [RParen];
    var n := |tokens|;
    assert tokens[2..2 + |r|] == r && tokens[2 + |r|] == RParen;
    ExpressionDone(tokens, 2, e);
    assert Factor(tokens, 1) == Done(e, n);
    assert Current(tokens, n) == Some(RParen) && Current(tokens, n + 1) == Some(RParen);
    assert Loop(Product, tokens, n, e) == Done(e, n);
    assert Term(tokens, 1) == Done(e, n);
    assert Loop(Sum, tokens, n, e) == Done(e, n);
    assert Expression(tokens, 1) == Done(e, n);
    assert Factor(tokens, 0) == Done(e, n + 1);
    assert Loop(Product, tokens, n + 1, e) == Done(e, n + 1);
    assert Term(tokens, 0) == Done(e, n + 1);
    assert Loop(Sum, tokens, n + 1, e) == Done(e, n + 1);
    assert BinaryOperation(Sum, tokens, 0) == Done(e, n + 1);
  }
}
