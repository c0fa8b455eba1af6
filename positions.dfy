/** The source cursor: an absolute index, a column and a line inside a named file. */
module Positions {
  import opened Wrappers

  /** A snapshot of a cursor, as a value. */
  datatype Pos = Pos(index: int, col: nat, ln: nat, fileName: string)

  /** The cursor after stepping over `c`, the character it was on (`None` before the first one):
      the index and the column move on by one, and a newline starts the next line at column 0. */
  function AdvancePos(p: Pos, c: Option<char>): (q: Pos)
    ensures q.index == p.index + 1 && q.fileName == p.fileName
    ensures c == Some('\n') ==> q.ln == p.ln + 1 && q.col == 0
    ensures c != Some('\n') ==> q.ln == p.ln && q.col == p.col + 1
  {
    if c == Some('\n') then Pos(p.index + 1, 0, p.ln + 1, p.fileName)
    else Pos(p.index + 1, p.col + 1, p.ln, p.fileName)
  }

  /** The mutable cursor the lexer owns and moves one character at a time. */
  class Position {
    var index: int
    var col: nat
    var ln: nat
    const fileName: string

    function Value(): Pos
      reads this
    {
      Pos(index, col, ln, fileName)
    }

    constructor (index: int, col: nat, ln: nat, fileName: string)
      ensures Value() == Pos(index, col, ln, fileName)
    {
      this.index := index;
      this.col := col;
      this.ln := ln;
      this.fileName := fileName;
    }

    method Advance(c: Option<char>)
      modifies this
      ensures index == old(index) + 1
      ensures ln == if c == Some('\n') then old(ln) + 1 else old(ln)
      ensures col == if c == Some('\n') then 0 else old(col) + 1
      ensures Value() == AdvancePos(old(Value()), c)
    {
      index := index + 1;
      col := col + 1;
      if c == Some('\n') {
        ln := ln + 1;
        col := 0;
      }
    }

    /** A new cursor with the same value and no state shared with this one. */
    method Copy() returns (p: Position)
      ensures fresh(p) && p.Value() == Value()
    {
      p := new Position(index, col, ln, fileName);
    }
  }

  /** Taking a copy and then advancing the original, as the lexer does at an illegal
      character: the copy keeps the value from before the step. */
  method SnapshotThenAdvance(p: Position, c: Option<char>) returns (before: Position)
    modifies p
    ensures fresh(before) && before.Value() == old(p.Value())
    ensures p.Value() == AdvancePos(old(p.Value()), c)
  {
    before := p.Copy();
    p.Advance(c);
  }
}
