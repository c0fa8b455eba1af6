/** `run`: lex the text, stop on a lexing error, otherwise parse the tokens. */
module Driver {
  import opened Wrappers
  import opened Decimal
  import opened Errors
  import opened Tokens
  import opened Nodes
  import opened LexerSpec
  import opened Lexing
  import opened ParserSpec
  import opened ParserLemmas
  import opened Parsing

  /** What `run` gives back: the pair `(ast, error)` it returns (an `ast` of `None` is
      `Absent`), or the way parsing stops instead of returning. */
  datatype RunOutcome =
    | Returned(ast: Node, error: Option<Error>)
    | Stopped(failure: Failure)

  /** `run`: an error comes back exactly when lexing fails, always with no tree, as an
      illegal-character error on line 0; the run crashes on a missing token exactly when the
      text lexes to no tokens at all. */
  function Pipeline(fileName: string, text: string): (out: RunOutcome)
    ensures (out.Returned? && out.error.Some?) == Tokenize(fileName, text).1.Some?
    ensures out.Returned? && out.error.Some? ==>
              out.ast == Absent && out.error.value.errorName == "Illegal Char" && out.error.value.posStart.ln == 0
    ensures (out == Stopped(NoneAccess)) == (Tokenize(fileName, text) == ([], None))
  {
    var (tokens, error) := Tokenize(fileName, text);
    if error.Some? then Returned(Absent, error)
    else
      match Parse(tokens)
      case Success(ast) => Returned(ast, None)
      case Failure(f) => Stopped(f)
  }

  method Run(fileName: string, text: string) returns (out: RunOutcome)
    ensures out == Pipeline(fileName, text)
  {
    var lexer := new Lexer(fileName, text);
    var tokens, error := lexer.MakeTokens();
    if error.Some? {
      return Returned(Absent, error);
    }
    var parser := new Parser(tokens);
    var ast := parser.Parse();
    match ast
    case Success(e) => out := Returned(e, None);
    case Failure(f) => out := Stopped(f);
  }

  /** Every token of a well-formed tree's print is well formed. */
  lemma {:induction false} RenderTokensWellFormed(e: Node, ctx: Context)
    requires WellFormed(e)
    ensures forall k :: 0 <= k < |Render(e, ctx)| ==> WellFormedToken(Render(e, ctx)[k])
  {
    match e
    case NumberNode(t) =>
    case BinaryOperationNode(l, op, r) =>
      if IsSumOp(op) {
        RenderTokensWellFormed(l, InExpression);
        RenderTokensWellFormed(r, InTerm);
      } else {
        RenderTokensWellFormed(l, InTerm);
        RenderTokensWellFormed(r, InFactor);
      }
  }

  /** End to end: printing a well-formed tree as text and running the pipeline on it gives
      the tree back with no error. */
  lemma RunRoundTrip(fileName: string, e: Node)
    requires WellFormed(e)
    ensures Pipeline(fileName, Unlex(Render(e, InExpression))) == Returned(e, None)
  {
    var tokens := Render(e, InExpression);
    RenderTokensWellFormed(e, InExpression);
    LexUnlex(fileName, tokens);
    ParseRender(e, []);
    assert tokens + [] == tokens;
  }

  /** A lexing error is returned as it is, without parsing, and names the first character the
      lexer cannot get past, on line 0. */
  lemma RunReportsLexError(fileName: string, text: string)
    requires Tokenize(fileName, text).1.Some?
    ensures Pipeline(fileName, text) == Returned(Absent, Tokenize(fileName, text).1)
    ensures exists k :: FirstRejected(text, 0, k) &&
              AsString(Pipeline(fileName, text).error.value) ==
              "Illegal Char: '" + [text[k]] + "' file: " + fileName + ", line: 0"
  {
    TokenizeErrorMessage(fileName, text);
  }

  /** Empty text lexes to no tokens, and the parser then dereferences `None`. */
  lemma RunEmptyText(fileName: string)
    ensures Pipeline(fileName, "") == Stopped(NoneAccess)
  {
    BlankTextHasNoTokens(fileName, "");
  }

  /** `1+` hangs: the stale `+` keeps the loop of `expression` going. */
  lemma RunTrailingPlusLoops(fileName: string)
    ensures Pipeline(fileName, "1+") == Stopped(LoopsForever)
  {
    var text := "1+";
    assert DigitRunEnd(text, 1) == 1;
    assert DigitRunEnd(text, 0) == 1;
    assert text[0..1] == "1";
    assert DigitsValue("1") == 1;
    assert ScanNumber(text, 0) == (Int(1), 1);
    assert LexFrom(fileName, text, 2, [Int(1), Plus]) == ([Int(1), Plus], None);
    assert text[1] == '+' && SymbolToken('+') == Some(Plus) && !IsDigit('+');
    assert [Int(1)] + [Plus] == [Int(1), Plus];
    assert LexFrom(fileName, text, 1, [Int(1)]) == ([Int(1), Plus], None);
    assert [] + [Int(1)] == [Int(1)];
    assert Tokenize(fileName, text) == ([Int(1), Plus], None);
    TrailingSumOperatorLoops(NumberNode(Int(1)), Plus);
    assert Render(NumberNode(Int(1)), InExpression) + [Plus] == [Int(1), Plus];
  }
}
