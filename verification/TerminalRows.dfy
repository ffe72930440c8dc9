/**
  A terminal row at the level of its cells (TerminalRow.java).  A cell holds a
  base code point followed by its combining code points; the right half of a
  double-width character is a cell with no text.
 */
module TerminalRows {

  const SPACE: int := 32

  /** Foreground and background colour and the effect bits (TextStyle.java). */
  datatype Style = Style(fore: int, back: int, effect: int)

  const ZERO_STYLE := Style(0, 0, 0)
  const NORMAL := Style(256, 257, 0)

  datatype Cell = Cell(text: seq<int>, style: Style)

  datatype Line = Line(cells: seq<Cell>, wrap: bool)

  /** A code point together with its display width, which is 0, 1 or 2. */
  datatype Glyph = Glyph(codePoint: int, width: int)

  predicate ValidGlyph(g: Glyph) {
    0 <= g.width <= 2
  }

  predicate IsTail(row: seq<Cell>, i: int) {
    0 <= i < |row| && row[i].text == []
  }

  /** Every right half stands directly after the cell it belongs to. */
  predicate WellFormed(row: seq<Cell>) {
    forall i :: 0 <= i < |row| && row[i].text == [] ==> 0 < i && row[i - 1].text != []
  }

  /** All cells hold one code point of width 1. */
  predicate Narrow(row: seq<Cell>) {
    forall i :: 0 <= i < |row| ==> |row[i].text| == 1
  }

  function BlankCell(style: Style): Cell {
    Cell([SPACE], style)
  }

  function BlankCells(columns: nat, style: Style): (r: seq<Cell>)
    ensures |r| == columns && WellFormed(r) && Narrow(r)
  {
    seq(columns, _ => BlankCell(style))
  }

  // ----- TerminalRow.setChar -----

  /** A zero-width code point is stored after the text of the character it stands on. */
  function PutCombining(row: seq<Cell>, col: nat, codePoint: int, style: Style): (r: seq<Cell>)
    requires col < |row| && WellFormed(row)
    ensures |r| == |row| && WellFormed(r)
  {
    var styled := row[col := row[col].(style := style)];
    var base := if IsTail(row, col) then col - 1 else col;
    styled[base := styled[base].(text := styled[base].text + [codePoint])]
  }

  /** Writing over a right half turns the double-width character into two spaces. */
  function BreakLeft(row: seq<Cell>, col: nat, style: Style): (r: seq<Cell>)
    requires col < |row| && WellFormed(row)
    ensures |r| == |row| && WellFormed(r) && !IsTail(r, col)
  {
    if IsTail(row, col) then row[col - 1 := BlankCell(style)][col := Cell([SPACE], row[col].style)] else row
  }

  /** A double-width character that starts at the given column becomes two spaces. */
  function BreakRight(row: seq<Cell>, col: nat, style: Style): (r: seq<Cell>)
    requires col < |row| && WellFormed(row) && !IsTail(row, col)
    ensures |r| == |row| && WellFormed(r) && !IsTail(r, col) && !IsTail(r, col + 1)
  {
    if IsTail(row, col + 1) then row[col := BlankCell(style)][col + 1 := Cell([SPACE], row[col + 1].style)] else row
  }

  function PutNarrow(row: seq<Cell>, col: nat, codePoint: int, style: Style): (r: seq<Cell>)
    requires col < |row| && WellFormed(row)
    ensures |r| == |row| && WellFormed(r)
  {
    var r := BreakLeft(row[col := row[col].(style := style)], col, style);
    var filled := r[col := Cell([codePoint], style)];
    if IsTail(r, col + 1) then filled[col + 1 := Cell([SPACE], r[col + 1].style)] else filled
  }

  function PutWide(row: seq<Cell>, col: nat, codePoint: int, style: Style): (r: seq<Cell>)
    requires col + 1 < |row| && WellFormed(row)
    ensures |r| == |row| && WellFormed(r)
  {
    var r1 := BreakLeft(row[col := row[col].(style := style)], col, style);
    if IsTail(r1, col + 1) then
      r1[col := Cell([codePoint], style)]
    else
      var r2 := BreakRight(r1, col + 1, style);
      // Only the base of the overwritten next column is removed, so its combining
      // code points end up on the new character, except at the end of the row.
      var kept := if col + 2 == |row| then [] else r2[col + 1].text[1..];
      r2[col := Cell([codePoint] + kept, style)][col + 1 := Cell([], r2[col + 1].style)]
  }

  /** TerminalRow.setChar: the exception for a double-width character in the last column is the precondition. */
  function Put(row: seq<Cell>, col: nat, g: Glyph, style: Style): (r: seq<Cell>)
    requires col < |row| && WellFormed(row) && ValidGlyph(g)
    requires g.width == 2 ==> col + 1 < |row|
    ensures |r| == |row| && WellFormed(r)
  {
    if g.width == 0 then PutCombining(row, col, g.codePoint, style)
    else if g.width == 1 then PutNarrow(row, col, g.codePoint, style)
    else PutWide(row, col, g.codePoint, style)
  }

  lemma PutNarrowOnNarrow(row: seq<Cell>, col: nat, codePoint: int, style: Style)
    requires col < |row| && Narrow(row)
    ensures WellFormed(row)
    ensures Put(row, col, Glyph(codePoint, 1), style) == row[col := Cell([codePoint], style)]
    ensures Narrow(Put(row, col, Glyph(codePoint, 1), style))
  {
  }

  // ----- TerminalRow.copyInterval -----

  function PutCombiningAll(row: seq<Cell>, col: nat, codePoints: seq<int>, style: Style): (r: seq<Cell>)
    requires col < |row| && WellFormed(row)
    ensures |r| == |row| && WellFormed(r)
    decreases |codePoints|
  {
    if codePoints == [] then row
    else PutCombiningAll(PutCombining(row, col, codePoints[0], style), col, codePoints[1..], style)
  }

  /** The end column moves left off a character that it would cut in half. */
  function CopyEnd(src: seq<Cell>, x2: nat): (e: nat)
    requires x2 <= |src| && WellFormed(src)
    ensures e <= |src| && !IsTail(src, e) && x2 - 1 <= e <= x2
  {
    if IsTail(src, x2) then x2 - 1 else x2
  }

  /**
    Copies columns x to end of src to column dx of dst.  A row copied to itself
    (live) has its text copied up front, while styles are read from the row as
    it is being written.
   */
  function CopyCells(dst: seq<Cell>, src: seq<Cell>, x: nat, end: nat, dx: nat, live: bool): (r: seq<Cell>)
    requires WellFormed(dst) && WellFormed(src) && |dst| == |src|
    requires end <= |src| && !IsTail(src, end)
    requires x <= end ==> dx + (end - x) <= |dst|
    ensures |r| == |dst| && WellFormed(r)
    decreases end - x
  {
    if x >= end then dst
    else
      var cut := IsTail(src, x);
      var width := if IsTail(src, x + 1) then 2 else 1;
      var text := if cut then [SPACE] + src[x - 1].text[1..] else src[x].text;
      var style := if live then dst[x].style else src[x].style;
      assert !cut && width == 2 ==> x + 1 < end;
      assert cut ==> width == 1;
      var d1 := Put(dst, dx, Glyph(text[0], width), style);
      var d2 := PutCombiningAll(d1, dx, text[1..], if live then d1[x].style else style);
      CopyCells(d2, src, x + width, end, dx + width, live)
  }

  /** TerminalRow.copyInterval(src, x1, x2, dx) on the row dst; live when src is the same row object. */
  function CopyInterval(dst: seq<Cell>, src: seq<Cell>, x1: nat, x2: nat, dx: nat, live: bool): (r: seq<Cell>)
    requires WellFormed(dst) && WellFormed(src) && |dst| == |src|
    requires x1 <= x2 <= |src| && dx + (x2 - x1) <= |dst|
    ensures |r| == |dst| && WellFormed(r)
  {
    CopyCells(dst, src, x1, CopyEnd(src, x2), dx, live)
  }
}
