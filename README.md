# MyBasicLang front end in Dafny

A model of the lexer and parser in `basic.py` of MyBasicLang, a toy language front end. It
turns one line of arithmetic text into tokens and then into a syntax tree of numbers and
binary operations. `+ -` bind looser than `* /`, and parentheses group. The tree is not
evaluated.

The model keeps the source's structure:

- **Positions** (`positions.dfy`): the `Position` cursor is a class whose `Advance` and
  `Copy` change or copy its fields in place. `Pos` is a value snapshot of it.
- **Errors** (`errors.dfy`): the `Error` record, `IllegalCharError` and `as_string`.
- **Tokens / Nodes** (`tokens.dfy`, `nodes.dfy`): one datatype constructor per token type.
  `Int` carries the decimal value of its digits. `Float` keeps its digits symbolically, as the
  text before and after the dot. `NumberNode` and `BinaryOperationNode` form the tree. `Absent`
  is the `None` that `factor` returns when it falls through, and it can sit inside a tree.
- **LexerSpec** (`lexer_spec.dfy`): the lexer as functions of the text. `LexFrom` is the main
  loop, `ScanNumber` scans a number literal, `PosAt` gives the cursor position at each index,
  and `Tokenize` runs a fresh lexer. The file also holds the lemmas about the lexer.
- **Lexing** (`lexing.dfy`): the `Lexer` class with `Advance`, `MakeNumber` and `MakeTokens`.
  Their while loops are proved to compute `ScanNumber` and `LexFrom`.
- **ParserSpec** (`parser_spec.dfy`): the parser as functions of the token list and the token
  index: `Factor`, `Term`, `Expression`, `BinaryOperation`, `Loop` and `Parse`. `Current`
  gives the parser's current token. Past the end of the list it stays the last token.
- **ParserLemmas** (`parser_lemmas.dfy`): `Render` prints a tree with only the parentheses the
  grammar needs. Parsing that print gives the tree back, which is how left associativity,
  precedence and grouping are proved. The file also proves the inputs on which the source
  raises, crashes, loops or recurses without end.
- **Parsing** (`parsing.dfy`): the `Parser` class with `Advance` and the mutually recursive
  methods. Each method is proved to agree with its function in `ParserSpec`.
- **Driver** (`driver.dfy`): `run` as the method `Run`, proved equal to the function `Pipeline`.

How the model handles the source's edge cases:

- Positions and line numbers are 0-based, except that the first character of the line is in
  column 1. This is because the lexer's constructor advances over `None` first. A newline is
  an illegal character, so a lexing error always reports line 0.
- A dot is legal only inside a number, where it follows the number's digits. A second dot
  ends the number, and the main loop then rejects that dot as an illegal character:
  `1.2.3` fails at index 3. So does a dot after a blank or an operator. The lexer fails
  exactly when the text holds a character it cannot get past (`RejectedAt`), and the error
  is for the first such character.
- The parser has no end-of-input token. Past the end, the last token stays current.
  - With an operator there, `binary_operation` never exits its loop (`1+`, `+`, `2*`).
  - With a `(` there, `factor` re-enters itself without end (`(`).
  - With a `)` there, the check for a closing parenthesis passes again, so the unbalanced
    `((1)` parses as `1`.

  These outcomes cannot be computed by running a loop that never ends. The model stops at the
  point where the source starts repeating and returns `LoopsForever` or `RecursesForever`.
  `ParserLemmas.StaleOperandIsAbsent` proves that each further turn of such a loop consumes
  nothing and meets the same operator again.
- An empty token list has no current token. `factor` then reads `.type` of `None`, which the
  model returns as `NoneAccess`. `raise Exception("Expected ')'")` is returned as
  `ExpectedRParen`.
- Tokens after a complete expression are ignored, not reported.

Where the code and a cleaner design differ, the model follows the code. The code does not
reject trailing tokens, does not turn a lone operator or a trailing operator into an error
(it hangs), and accepts the `((1)` shape above.

## Model

| member | source | states |
|---|---|---|
| `Positions.Position.Advance` | basic.py:33-39 | index and column go up by one; on a newline the line goes up by one and the column is reset to 0 |
| `Positions.AdvancePos` | basic.py:33-39 | the value form of `advance`: the index moves on by one and the file stays; a newline moves to the next line at column 0, any other character (or `None`) to the next column on the same line |
| `Positions.Position.Copy` | basic.py:41-42 | the copy is a new object with the same index, column, line and file name |
| `Positions.SnapshotThenAdvance` | basic.py:120-122 | a copy taken before an advance keeps the old value while the original moves on |
| `Errors.AsString` | basic.py:16-19 | the rendered error starts with its name and `: `, and ends with the start position's line in decimal |
| `Errors.IllegalCharError` | basic.py:21-23 | an illegal-character error is named `Illegal Char` and keeps the details and the start and end positions it is given |
| `Errors.RenderedLineReadsBack` | basic.py:16-19 | the rendered error ends with the start line in decimal, and those digits read back as that line |
| `Decimal.NatToString` | basic.py:18 | a line number prints as a non-empty digit string with no leading zero |
| `Decimal.DigitsValueOfNatToString` | basic.py:141 | reading a printed number back with `int` gives the number |
| `LexerSpec.PosAt` | basic.py:71-84 | the lexer's position after the constructor's step over `None` and then `i` steps over the text is at index `i`, in the lexer's file |
| `LexerSpec.PosAtWithoutNewline` | basic.py:74-84 | before any newline the cursor at index i has column i + 1 and line 0 |
| `LexerSpec.DigitRunEnd` | basic.py:130 | the digit run from k ends at the first non-digit, and everything before it is a digit |
| `LexerSpec.ScanNumber` | basic.py:130-138 | a number literal consumes at least one character and stops inside the text |
| `LexerSpec.ScanNumberReads` | basic.py:126-143 | a number is the longest run of digits with at most one dot; no dot gives INT with the digits' decimal value, one dot gives FLOAT with the text around the dot; scanning stops at a non-digit and, for an INT, also not at a dot |
| `LexerSpec.NumberCharsAreLegal` | basic.py:130 | every character a number literal consumes is a digit or a dot |
| `LexerSpec.NumberDotFollowsDigit` | basic.py:130-138 | inside a number literal a dot always comes right after a digit, so two dots in a row never both belong to one number |
| `Lexing.ScanStops` | basic.py:130-143 | wherever the scanning loop stops (end of text, a character that is neither digit nor dot, or a second dot), the text read so far is the INT or FLOAT literal that `ScanNumber` describes, and the loop stops at its end |
| `LexerSpec.LexFrom` | basic.py:95-124 | the main loop from any index either succeeds or returns no tokens with an `Illegal Char` error |
| `LexerSpec.Tokenize` | basic.py:71-124 | a fresh lexer's `make_tokens` returns an error only with no tokens, as an `Illegal Char` error on line 0 |
| `LexerSpec.SecondDotIsIllegal` | basic.py:130-135 | `1.2.3` lexes `1.2` and then fails on the second dot with `'.'` at index 3 |
| `LexerSpec.NumberFractionIsDigits` | basic.py:130-138 | inside a number literal only digits follow a dot, so one literal never holds two dots |
| `LexerSpec.LexErrorIsRejected` | basic.py:95-138 | every lexing error is the `Illegal Char` error, from the character's position to the next, for a character the main loop cannot get past: an illegal character other than a dot, or a dot that no number takes (a dot at the cursor, a dot after a non-digit, or a second dot of one literal) |
| `LexerSpec.ForcedLexError` | basic.py:95-138 | each such character makes the main loop fail, with the error at that character or before it |
| `LexerSpec.LexFailsAtFirstRejected` | basic.py:95-138 | the main loop fails if and only if the text from the cursor holds such a character, and it then returns no tokens and the error for the first one |
| `LexerSpec.LexErrorAtFirstRejected` | basic.py:71-123 | with no newline before the cursor, the error for the first such character k starts at index k, line 0, column k + 1 |
| `LexerSpec.TokenizeRejectsFirst` | basic.py:95-123 | when k is the first such character, lexing gives no tokens and exactly `Illegal Char` for text[k], from index k (line 0, column k + 1) to one step past it |
| `LexerSpec.TokenizeErrorMessage` | basic.py:16-23 | a lexing error renders as `Illegal Char: '<c>' file: <name>, line: 0` for the first character c that the lexer cannot get past |
| `LexerSpec.LexSucceedsWithoutRejected` | basic.py:95-124 | text with no such character (digits, blanks, the six operator symbols, and dots that numbers take) lexes without error |
| `LexerSpec.FloatThenIllegalChar` | basic.py:95-143 | in `1.5+x` the number takes its dot, and lexing fails only at the `x`, index 4 |
| `LexerSpec.FloatPlusIntLexes` | basic.py:95-143 | `1.5+2` lexes to FLOAT 1.5, PLUS and INT 2, with no error |
| `LexerSpec.LexSymbols` | basic.py:97-118 | on operators, parentheses and blanks the lexer emits exactly one token per symbol, in source order, and skips blanks |
| `LexerSpec.BlankTextHasNoTokens` | basic.py:95-124 | empty or all-blank text gives no tokens and no error |
| `LexerSpec.LexUnlex` | basic.py:95-143 | lexing the blank-separated text of well-formed tokens gives back exactly those tokens |
| `Lexing.Lexer.constructor` | basic.py:71-76 | a new lexer sits at index 0, with the position reached by advancing over `None` |
| `Lexing.Lexer.Advance` | basic.py:78-84 | the position steps over the current character and the current character becomes the one at the new index, or none at the end |
| `Lexing.Lexer.MakeNumber` | basic.py:126-143 | the scanning loop (with its dot count and its break on a second dot) returns the token and stopping index that `ScanNumber` describes |
| `Lexing.Lexer.MakeTokens` | basic.py:86-124 | the main loop returns exactly what `LexFrom` describes from the current index: all tokens and no error, or no tokens and the first illegal-character error; the lexer stays consistent, its cursor ends at the end of the text on success, and on an error its value is the error's end position |
| `ParserSpec.Factor` | basic.py:210-228 | `factor` never moves the token index backwards, and it fails on a missing current token exactly when the token list is empty |
| `ParserSpec.Loop` | basic.py:238-242 | the loop of `binary_operation` never moves the token index backwards and never reads a missing token |
| `ParserSpec.BinaryOperation` | basic.py:230-244 | `binary_operation` never moves the token index backwards, and it fails on a missing current token exactly when the token list is empty |
| `ParserSpec.Expression` | basic.py:196-201 | `expression` never moves the token index backwards, and it fails on a missing current token exactly when the token list is empty |
| `ParserSpec.Term` | basic.py:203-208 | `term` never moves the token index backwards, and it fails on a missing current token exactly when the token list is empty |
| `ParserSpec.Parse` | basic.py:190-194 | `parse` fails on a missing current token exactly when the token list is empty |
| `Parsing.Parser.constructor` | basic.py:172-179 | a new parser is at token 0, with the first token current, or none if the list is empty |
| `Parsing.Parser.Advance` | basic.py:181-188 | the index goes up by one; the current token changes only while the index is inside the list |
| `Parsing.Parser.Parse` | basic.py:190-194 | `parse` returns whatever one `expression` from the current index returns |
| `Parsing.Parser.Expression` | basic.py:196-201 | returns the node, index and failure that `ParserSpec.Expression` describes |
| `Parsing.Parser.Term` | basic.py:203-208 | returns the node, index and failure that `ParserSpec.Term` describes |
| `Parsing.Parser.Factor` | basic.py:210-228 | a number token becomes a `NumberNode`; `(` expression `)` returns the inner node itself; a missing `)` raises; any other token gives `Absent` without consuming it |
| `Parsing.Parser.BinaryOperation` | basic.py:230-244 | the loop folds operators of its tier to the left, exactly as `ParserSpec.Loop` describes |
| `ParserLemmas.ParseRender` | basic.py:190-244 | parsing the minimal-parenthesis print of any well-formed tree gives that tree, and trailing tokens that do not start with an operator are ignored |
| `ParserLemmas.LeftAssociative` | basic.py:238-242 | `a o1 b o2 c` with both operators of one tier parses as `(a o1 b) o2 c` |
| `ParserLemmas.ProductBindsTighter` | basic.py:196-208 | `a + b * c` parses as `a + (b * c)`, and `a * b + c` as `(a * b) + c` |
| `ParserLemmas.ParenthesesGroup` | basic.py:221-226 | `(a + b) * c` keeps the parenthesised sum as the left operand, with no node for the parentheses |
| `ParserLemmas.EmptyTokensFail` | basic.py:215-217 | an empty token list fails on the `None` current token |
| `ParserLemmas.StaleOperandIsAbsent` | basic.py:238-242 | past the end, with an operator of the tier as the last token, an operand parses as `Absent` in place and the same operator stays current, so the loop never exits |
| `ParserLemmas.TrailingSumOperatorLoops` | basic.py:238-242 | a complete expression followed by `+` or `-` makes `expression` loop for ever |
| `ParserLemmas.TrailingProductOperatorLoops` | basic.py:238-242 | a complete term followed by `*` or `/` makes `term` loop for ever |
| `ParserLemmas.LoneOperatorLoops` | basic.py:230-244 | a lone operator is not an error: `factor` returns `Absent` and the loop never exits |
| `ParserLemmas.LoneOpenParenRecurses` | basic.py:221-223 | a lone `(` makes `factor` re-enter itself without end |
| `ParserLemmas.UnclosedParenRaises` | basic.py:224-228 | `(` followed by an expression that ends in a number raises "Expected ')'" |
| `ParserLemmas.ExtraOpenParenAccepted` | basic.py:224-226 | `((e)` parses as `e`, because the stale `)` closes the outer parenthesis too |
| `Driver.Run` | basic.py:253-260 | `run` lexes, returns `(None, error)` on a lexing error without parsing, and otherwise returns the parse result, exactly as `Pipeline` describes |
| `Driver.Pipeline` | basic.py:253-260 | `run` returns an error exactly when lexing fails, always with no tree, as an `Illegal Char` error on line 0; it crashes on a missing token exactly when the text lexes to no tokens |
| `Driver.RunRoundTrip` | basic.py:253-260 | running the printed text of a well-formed tree returns that tree and no error |
| `Driver.RunReportsLexError` | basic.py:255-256 | a lexing error comes back as it is, with no tree, and renders with the first character the lexer cannot get past and line 0 |
| `Driver.RunEmptyText` | basic.py:253-260 | empty text lexes to no tokens, and then parsing fails on the `None` current token |
| `Driver.RunTrailingPlusLoops` | basic.py:253-260 | the text `1+` makes the run loop for ever |

## Left out

- `float(num_str)` (basic.py:143): floating-point conversion. A FLOAT token keeps the digits
  before and after its dot instead of a float value.
- The `__repr__` printers (basic.py:62-64, 152-153, 161-162) are display only. Note that
  `Token.__repr__` drops a value of 0 because of Python truthiness.
- `Position.file_text` and the `file_text` argument are stored but never read, so they are
  not modelled. `Position.advance` returns `self`, and no caller uses that value.
- Python exceptions and hangs are modelled as `Failure` values. An `AttributeError` on `None`
  becomes `NoneAccess` and `Exception("Expected ')'")` becomes `ExpectedRParen`. A loop that
  never ends becomes `LoopsForever`. Recursion without end, which Python cuts off with a
  `RecursionError`, becomes `RecursesForever`. The model returns these at the point where the
  source starts repeating, not after running out a step budget.
- The error's `pos_end` is the lexer's own live `Position` object, not a copy (basic.py:123).
  The model stores its value. `Lexing.Lexer.MakeTokens` proves that this value equals the
  lexer's position when `make_tokens` returns, and nothing advances that object afterwards.
  The sharing itself is not modelled.
- Lexing.Lexer.Advance: requires the cursor not to be past the end of the text. Every caller
  advances only while there is a current character (or once, from index -1, in the
  constructor).
- Lexing.Lexer.MakeNumber: requires a digit under the cursor, which is the only case in
  which `make_tokens` calls it. Called elsewhere, the source would behave differently: on
  a dot the literal starts with `.` and `float` is applied (`.` alone raises, `.5` gives
  0.5), and on any other character `int('')` raises. That unreachable path is not
  modelled.
- Stack depth is not modelled. Python stops deep recursion with `RecursionError` (about
  1000 frames by default), and each level of parentheses costs about five frames, so text
  nested around 200 parentheses deep fails in the source. `ParserLemmas.ParseRender` and
  `Driver.RunRoundTrip` return the tree at any depth.
- Text is a sequence of characters. Nothing depends on how it is encoded.
