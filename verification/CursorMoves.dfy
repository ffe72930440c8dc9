/** What tabulation and backspace mean for the cursor. */
module CursorMoves {
  import opened Wrappers
  import opened Basics
  import opened TerminalRows
  import TerminalRing
  import opened TerminalState

  // ----- Tab stops -----

  /** The number of tab stops in columns from up to but excluding end. */
  function Stops(tabs: seq<bool>, from: int, end: int): nat
    requires 0 <= from && end <= |tabs|
    decreases end - from
  {
    if end <= from then 0 else Stops(tabs, from, end - 1) + if tabs[end - 1] then 1 else 0
  }

  lemma {:induction false} FirstStop(tabs: seq<bool>, from: int, end: int)
    requires 0 <= from < end <= |tabs|
    ensures Stops(tabs, from, end) == Stops(tabs, from + 1, end) + if tabs[from] then 1 else 0
    decreases end - from
  {
    if from + 1 < end {
      FirstStop(tabs, from, end - 1);
    }
  }

  /** The n-th tab stop from a column on, or the last column if there are fewer. */
  lemma {:induction false} NextStop(t: Term, from: int, n: int)
    requires Inv(t) && 0 <= from && 1 <= n
    ensures var col := NextTabStop(t, from, n);
            if n <= Stops(t.tabs, from, t.cols) then
              from <= col && t.tabs[col] && Stops(t.tabs, from, col) == n - 1
            else col == t.cols - 1
    decreases t.cols - from
  {
    hide ScreensOk;
    if from < t.cols {
      FirstStop(t.tabs, from, t.cols);
      if !(t.tabs[from] && n == 1) {
        var rest := if t.tabs[from] then n - 1 else n;
        NextStop(t, from + 1, rest);
        if rest <= Stops(t.tabs, from + 1, t.cols) {
          FirstStop(t.tabs, from, NextTabStop(t, from + 1, rest));
        }
      }
    }
  }

  /** The n-th tab stop going left from a column, or the first column if there are fewer. */
  lemma {:induction false} PreviousStop(t: Term, from: int, n: int)
    requires Inv(t) && -1 <= from < t.cols && 1 <= n
    ensures var col := PreviousTabStop(t, from, n);
            if n <= Stops(t.tabs, 0, from + 1) then
              col <= from && t.tabs[col] && Stops(t.tabs, col + 1, from + 1) == n - 1
            else col == 0
    decreases from + 1
  {
    hide ScreensOk;
    if 0 <= from && !(t.tabs[from] && n == 1) {
      PreviousStop(t, from - 1, if t.tabs[from] then n - 1 else n);
    }
  }

  // ----- Backspace -----

  /**
    After a character of width 1, a backspace brings the cursor back to where it was, except in the last column: there
    the cursor has stayed, or has gone on to the next line.
   */
  lemma BackspaceAfterPrint(t: Term, g: Glyph)
    requires Inv(t) && ValidGlyph(g) && Translated(t, g).width == 1
    ensures var t' := Backspace(EmitCodePoint(t, g)); t'.row == t.row && t'.col == t.col <==> t.col < t.cols - 1
  {
    hide Inv, EmitCodePoint, Backspace;
    InRange(t);
    CursorAfterPrint(t, g);
    CursorAfterBackspace(EmitCodePoint(t, g));
  }

  lemma InRange(t: Term)
    requires Inv(t)
    ensures 0 <= t.col < t.cols && 2 <= t.cols
  {
  }

  /** A character of width 1 moves the cursor on; when it wraps, it has gone to column 1 of the next line. */
  lemma CursorAfterPrint(t: Term, g: Glyph)
    requires Inv(t) && ValidGlyph(g) && Translated(t, g).width == 1
    ensures var t', wraps := EmitCodePoint(t, g), t.autowrap && t.col == t.cols - 1 && t.aboutToWrap;
            && t'.cols == t.cols && (!wraps ==> t'.row == t.row)
            && t'.col == if wraps then 1 else Min(t.col + 1, t.cols - 1)
  {
    hide TerminalRing.Valid, Show, Translated;
    CursorAfterShow(t.(last := Some(g)), Translated(t, g));
  }

  lemma CursorAfterShow(t: Term, g: Glyph)
    requires Inv(t) && ValidGlyph(g) && g.width == 1
    ensures var t', wraps := Show(t, g), t.autowrap && t.col == t.cols - 1 && t.aboutToWrap;
            && t'.cols == t.cols && (!wraps ==> t'.row == t.row)
            && t'.col == if wraps then 1 else Min(t.col + 1, t.cols - 1)
  {
    hide ScreensOk, WrapLine, MakeRoom, WriteGlyph;
    CursorAfterWrite(MakeRoom(if MustWrap(t, g) then WrapLine(t) else t, g), g);
  }

  lemma CursorAfterWrite(t: Term, g: Glyph)
    requires Inv(t) && ValidGlyph(g) && g.width == 1
    ensures var t' := WriteGlyph(t, g); t'.cols == t.cols && t'.row == t.row && t'.col == Min(t.col + 1, t.cols - 1)
  {
    hide ScreensOk, PutGlyph;
  }

  lemma CursorAfterBackspace(t: Term)
    requires Inv(t) && 0 < t.col
    ensures Backspace(t).col == t.col - 1 && Backspace(t).row == t.row
  {
    hide ScreensOk;
  }
}
