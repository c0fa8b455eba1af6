/** Errors carry a name, a detail text and the source range they refer to. */
module Errors {
  import opened Positions
  import opened Decimal

  datatype Error = Error(errorName: string, details: string, posStart: Pos, posEnd: Pos)

  /** The only kind of error the pipeline reports as a value: a character the lexer does not know. */
  function IllegalCharError(posStart: Pos, posEnd: Pos, details: string): (e: Error)
    ensures e.errorName == "Illegal Char" && e.details == details
    ensures e.posStart == posStart && e.posEnd == posEnd
  {
    Error("Illegal Char", details, posStart, posEnd)
  }

  /** `<name>: <details> file: <file>, line: <line>`, with file and line taken from the start position. */
  function AsString(e: Error): (s: string)
    ensures |e.errorName| + 2 <= |s| && s[..|e.errorName| + 2] == e.errorName + ": "
    ensures |NatToString(e.posStart.ln)| <= |s| && s[|s| - |NatToString(e.posStart.ln)|..] == NatToString(e.posStart.ln)
  {
    var s := e.errorName + ": " + e.details + " file: " + e.posStart.fileName + ", line: " + NatToString(e.posStart.ln);
    assert s[..|e.errorName| + 2] == e.errorName + ": ";
    assert s[|s| - |NatToString(e.posStart.ln)|..] == NatToString(e.posStart.ln);
    s
  }

  /** The rendered text ends with the start line in decimal, which reads back as that line. */
  lemma RenderedLineReadsBack(e: Error)
    ensures var r, d := AsString(e), NatToString(e.posStart.ln);
            |d| <= |r| && r[|r| - |d|..] == d && AllDigits(r[|r| - |d|..]) && DigitsValue(r[|r| - |d|..]) == e.posStart.ln
  {
    DigitsValueOfNatToString(e.posStart.ln);
  }
}
