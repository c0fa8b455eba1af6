/** The lexer as the source writes it: an object with a cursor that loops over the text. */
module Lexing {
  import opened Wrappers
  import opened Decimal
  import opened Positions
  import opened Errors
  import opened Tokens
  import opened LexerSpec

  /** The position of the first dot of `s`. */
  function DotIndex(s: string): (k: nat)
    requires '.' in s
    ensures k < |s| && s[k] == '.' && '.' !in s[..k]
  {
    if s[0] == '.' then 0
    else
      var k := DotIndex(s[1..]) + 1;
      assert s[..k] == [s[0]] + s[1..][..k - 1];
      k
  }

  /** The float literal of a scanned text with one dot, kept as its two digit strings
      (the source converts it with `float`). */
  function FloatLiteral(s: string): Token
    requires '.' in s
  {
    var d := DotIndex(s);
    Float(s[..d], s[d + 1..])
  }

  /** Every character before the end of a digit run is a digit. */
  lemma InsideDigitRun(text: string, k: int, m: int)
    requires 0 <= k <= |text| && k <= m < DigitRunEnd(text, k)
    ensures IsDigit(text[m])
  {
    assert text[k..DigitRunEnd(text, k)][m - k] == text[m];
  }

  /** The digits before and after the one dot of a scanned float come back out of its text. */
  lemma FloatLiteralOf(whole: string, fraction: string)
    requires AllDigits(whole)
    ensures FloatLiteral(whole + "." + fraction) == Float(whole, fraction)
  {
    var s := whole + "." + fraction;
    var d := DotIndex(s);
    assert s[|whole|] == '.';
    assert s[..d] == whole && s[d + 1..] == fraction;
  }

  /** Where `make_number` can be while it scans from digit `start`: still in the digits
      before the dot (`dots == 0`), or past the dot in the digits after it (`dots == 1`). */
  predicate ScanInProgress(text: string, start: int, i: int, dots: int)
    requires 0 <= start < |text| && IsDigit(text[start])
  {
    var w := DigitRunEnd(text, start);
    start <= i <= |text| &&
    ((dots == 0 && i <= w) ||
     (dots == 1 && w < |text| && text[w] == '.' && w < i <= DigitRunEnd(text, w + 1)))
  }

  lemma ScanTakesDigit(text: string, start: int, i: int, dots: int)
    requires 0 <= start < |text| && IsDigit(text[start])
    requires ScanInProgress(text, start, i, dots) && i < |text| && IsDigit(text[i])
    ensures ScanInProgress(text, start, i + 1, dots)
  {
  }

  /** The first dot is taken exactly at the end of the leading digits. */
  lemma ScanTakesDot(text: string, start: int, i: int)
    requires 0 <= start < |text| && IsDigit(text[start])
    requires ScanInProgress(text, start, i, 0) && i < |text| && text[i] == '.'
    ensures i == DigitRunEnd(text, start) && ScanInProgress(text, start, i + 1, 1)
  {
    if i < DigitRunEnd(text, start) {
      InsideDigitRun(text, start, i);
    }
  }

  /** When the scan stops (end of text, a character that is neither digit nor dot, or a
      second dot), what it read is the literal `ScanNumber` describes. */
  lemma ScanStops(text: string, start: int, i: int, dots: int, numStr: string)
    requires 0 <= start < |text| && IsDigit(text[start])
    requires ScanInProgress(text, start, i, dots) && numStr == text[start..i]
    requires i == |text| || (!IsDigit(text[i]) && (text[i] != '.' || dots == 1))
    ensures dots == 0 ==> AllDigits(numStr) && ScanNumber(text, start) == (Int(DigitsValue(numStr)), i)
    ensures dots == 1 ==> '.' in numStr && ScanNumber(text, start) == (FloatLiteral(numStr), i)
  {
    if dots == 0 {
      ScanStopsInInteger(text, start, i, numStr);
    } else {
      ScanStopsInFraction(text, start, i, numStr);
    }
  }

  /** Stopping before any dot: the digits read are the whole run, and no dot follows. */
  lemma ScanStopsInInteger(text: string, start: int, i: int, numStr: string)
    requires 0 <= start < |text| && IsDigit(text[start])
    requires ScanInProgress(text, start, i, 0) && numStr == text[start..i]
    requires i == |text| || (!IsDigit(text[i]) && text[i] != '.')
    ensures AllDigits(numStr) && ScanNumber(text, start) == (Int(DigitsValue(numStr)), i)
  {
    if i < DigitRunEnd(text, start) {
      InsideDigitRun(text, start, i);
    }
  }

  /** Stopping after the dot: the text read is the leading digits, the dot and the digits
      after it. */
  lemma ScanStopsInFraction(text: string, start: int, i: int, numStr: string)
    requires 0 <= start < |text| && IsDigit(text[start])
    requires ScanInProgress(text, start, i, 1) && numStr == text[start..i]
    requires i == |text| || !IsDigit(text[i])
    ensures '.' in numStr && ScanNumber(text, start) == (FloatLiteral(numStr), i)
  {
    var w := DigitRunEnd(text, start);
    var f := DigitRunEnd(text, w + 1);
    if i < f {
      InsideDigitRun(text, w + 1, i);
    }
    assert i == f;
    assert ScanNumber(text, start) == (Float(text[start..w], text[w + 1..f]), f);
    ScanNumberReads(text, start);
    assert numStr == text[start..w] + "." + text[w + 1..f];
    FloatLiteralOf(text[start..w], text[w + 1..f]);
  }

  /** A slice grows by one character at its end. */
  lemma SliceGrows(text: string, start: int, k: int)
    requires 0 <= start <= k < |text|
    ensures text[start..k + 1] == text[start..k] + [text[k]]
  {
  }

  class Lexer {
    const text: string
    const fileName: string
    const position: Position
    var currentChar: Option<char>

    /** The cursor is at some index from -1 (before the first advance) to the end of the text,
        its value is the one reached by stepping over the text so far, and `currentChar`
        is the character under it. */
    ghost predicate Valid()
      reads this, position
    {
      -1 <= position.index <= |text| &&
      position.Value() == PosAt(fileName, text, position.index) &&
      currentChar == CharAt(text, position.index)
    }

    constructor (fileName: string, text: string)
      ensures Valid() && fresh(position)
      ensures this.text == text && this.fileName == fileName && position.index == 0
    {
      this.text := text;
      this.fileName := fileName;
      position := new Position(-1, 0, 0, fileName);
      currentChar := None;
      new;
      Advance();
    }

    /** Step the position over the current character and read the next one. */
    method Advance()
      requires Valid() && position.index < |text|
      modifies this`currentChar, position
      ensures Valid() && position.index == old(position.index) + 1
    {
      position.Advance(currentChar);
      currentChar := if position.index < |text| then Some(text[position.index]) else None;
    }

    /** Scan one number starting at the digit under the cursor. */
    method MakeNumber() returns (tok: Token)
      requires Valid() && 0 <= position.index < |text| && IsDigit(text[position.index])
      modifies this`currentChar, position
      ensures Valid() && (tok, position.index) == ScanNumber(text, old(position.index))
    {
      ghost var start := position.index;
      var numStr := "";
      var dotCount := 0;
      while currentChar.Some? && (IsDigit(currentChar.value) || currentChar.value == '.')
        invariant Valid() && start <= position.index <= |text|
        invariant numStr == text[start..position.index]
        invariant ScanInProgress(text, start, position.index, dotCount)
        decreases |text| - position.index
      {
        var c := currentChar.value;
        ghost var k := position.index;
        if c == '.' {
          if dotCount == 1 {
            break;
          }
          ScanTakesDot(text, start, k);
          dotCount := dotCount + 1;
          numStr := numStr + ".";
        } else {
          ScanTakesDigit(text, start, k, dotCount);
          numStr := numStr + [c];
        }
        SliceGrows(text, start, k);
        Advance();
      }
      ScanStops(text, start, position.index, dotCount, numStr);
      if dotCount == 0 {
        tok := Int(DigitsValue(numStr));
      } else {
        tok := FloatLiteral(numStr);
      }
    }

    /** Emit the tokens from the cursor to the end, or stop at the first illegal character.
        The cursor ends at the end of the text, or one step past the rejected character; the
        error's end is that cursor's value. */
    method MakeTokens() returns (tokens: seq<Token>, error: Option<Error>)
      requires Valid() && position.index >= 0
      modifies this`currentChar, position
      ensures (tokens, error) == LexFrom(fileName, text, old(position.index), [])
      ensures Valid()
      ensures error.None? ==> position.index == |text|
      ensures error.Some? ==> position.Value() == error.value.posEnd
    {
      tokens := [];
      while currentChar.Some?
        invariant Valid() && 0 <= position.index <= |text|
        invariant LexFrom(fileName, text, old(position.index), []) == LexFrom(fileName, text, position.index, tokens)
        decreases |text| - position.index
      {
        var c := currentChar.value;
        if c in " \t" {
          Advance();
        } else if IsDigit(c) {
          var tok := MakeNumber();
          tokens := tokens + [tok];
        } else if c == '+' {
          tokens := tokens + [Plus];
          Advance();
        } else if c == '-' {
          tokens := tokens + [Minus];
          Advance();
        } else if c == '/' {
          tokens := tokens + [Div];
          Advance();
        } else if c == '*' {
          tokens := tokens + [Mul];
          Advance();
        } else if c == '(' {
          tokens := tokens + [LParen];
          Advance();
        } else if c == ')' {
          tokens := tokens + [RParen];
          Advance();
        } else {
          var posStart := position.Copy();
          Advance();
          return [], Some(IllegalCharError(posStart.Value(), position.Value(), "'" + [c] + "'"));
        }
      }
      return tokens, None;
    }
  }
}
