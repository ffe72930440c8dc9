/** What a block copy does to the rows of the screen, also when source and destination overlap (TerminalBuffer.java). */
module BlockCopies {
  import opened Wrappers
  import opened TerminalRows
  import opened TerminalRing
  import opened RowCopies

  // ----- Rows -----

  /** Row i of the screen after the rows of the block marked by done have been copied. */
  function RowOfCopy(r: Ring, sx: nat, sy: nat, w: nat, dx: nat, dy: nat, i: nat, done: bool): Line
    requires Valid(r) && i < r.rows && sx + w <= r.cols && dx + w <= r.cols
    requires done ==> dy <= i && i - dy + sy < r.rows
  {
    var line := r.view[i].value;
    if done then line.(cells := CopyInterval(line.cells, r.view[i - dy + sy].value.cells, sx, sx + w, dx, sy == dy))
    else line
  }

  /** Whether row i of the destination is among the first n rows that are copied. */
  predicate Done(sy: nat, h: nat, dy: nat, n: nat, i: nat) {
    if sy > dy then dy <= i < dy + n else dy + h - n <= i < dy + h
  }

  /** One row of a copy between existing rows. */
  lemma CopyRowExisting(r: Ring, sx: nat, sy: nat, w: nat, dx: nat, dy: nat)
    requires Valid(r) && sx + w <= r.cols && sy < r.rows && dx + w <= r.cols && dy < r.rows
    ensures var dest, source := r.view[dy].value, r.view[sy].value;
            CopyRow(r, sx, sy, w, dx, dy).view
            == r.view[dy := Some(dest.(cells := CopyInterval(dest.cells, source.cells, sx, sx + w, dx, sy == dy)))]
  {
    hide CopyInterval;
  }

  lemma {:induction false} CopyRowsAt(r: Ring, sx: nat, sy: nat, w: nat, h: nat, dx: nat, dy: nat, n: nat, i: nat)
    requires Valid(r) && n <= h && i < r.rows
    requires sx + w <= r.cols && sy + h <= r.rows && dx + w <= r.cols && dy + h <= r.rows
    ensures CopyRows(r, sx, sy, w, h, dx, dy, n).view[i]
            == Some(RowOfCopy(r, sx, sy, w, dx, dy, i, Done(sy, h, dy, n, i)))
    decreases n
  {
    hide CopyInterval, CopyRow, WellFormed;
    if n > 0 {
      var y := if sy > dy then n - 1 else h - n;
      CopyRowsAt(r, sx, sy, w, h, dx, dy, n - 1, i);
      CopyRowsAt(r, sx, sy, w, h, dx, dy, n - 1, sy + y);
      CopyRowsAt(r, sx, sy, w, h, dx, dy, n - 1, dy + y);
      CopyRowExisting(CopyRows(r, sx, sy, w, h, dx, dy, n - 1), sx, sy + y, w, dx, dy + y);
    }
  }

  /** Every row of the destination is written from the source row as it was before the call; no other row changes. */
  lemma BlockCopyRow(r: Ring, sx: nat, sy: nat, w: nat, h: nat, dx: nat, dy: nat, y: nat)
    requires Valid(r) && y < r.rows
    requires sx + w <= r.cols && sy + h <= r.rows && dx + w <= r.cols && dy + h <= r.rows
    ensures var s := Screen(r);
            Screen(BlockCopy(r, sx, sy, w, h, dx, dy))[y]
            == if dy <= y < dy + h then
                 s[y].(cells := CopyInterval(s[y].cells, s[y - dy + sy].cells, sx, sx + w, dx, sy == dy))
               else s[y]
  {
    hide CopyRows, CopyInterval;
    ScreenAt(r, y);
    ScreenAt(BlockCopy(r, sx, sy, w, h, dx, dy), y);
    if dy <= y < dy + h {
      ScreenAt(r, y - dy + sy);
    }
    if w == 0 {
      if dy <= y < dy + h {
        NothingToCopy(r.view[y].value.cells, r.view[y - dy + sy].value.cells, sx, dx, sy == dy);
      }
    } else {
      CopyRowsAt(r, sx, sy, w, h, dx, dy, h, y);
    }
  }

  // ----- The text of every cell -----

  /** The text in a column of a row, if there is such a place; a right half has none. */
  function TextAt(r: Ring, x: int, y: int): seq<int> {
    if 0 <= y < |r.view| && r.view[y].Some? && 0 <= x < |r.view[y].value.cells| then
      r.view[y].value.cells[x].text
    else []
  }

  /** The cells of a row of the screen. */
  function CellsAt(r: Ring, y: nat): (cells: seq<Cell>)
    requires Valid(r) && y < r.rows
    ensures |cells| == r.cols && WellFormed(cells)
  {
    r.view[y].value.cells
  }

  lemma CellsOnScreen(r: Ring, y: nat)
    requires Valid(r) && y < r.rows
    ensures Screen(r)[y].cells == CellsAt(r, y)
  {
    ScreenAt(r, y);
  }

  lemma TextOfCell(r: Ring, x: nat, y: nat)
    requires Valid(r) && x < r.cols && y < r.rows
    ensures TextAt(r, x, y) == CellsAt(r, y)[x].text
  {
  }

  /** A copy of columns sx on and rows sy on to columns dx on and rows dy on. */
  datatype Copy = Copy(sx: nat, sy: nat, w: nat, h: nat, dx: nat, dy: nat)

  predicate CopyFits(r: Ring, c: Copy) {
    c.sx + c.w <= r.cols && c.sy + c.h <= r.rows && c.dx + c.w <= r.cols && c.dy + c.h <= r.rows
  }

  function CopyBlockOf(r: Ring, c: Copy): (r': Ring)
    requires Valid(r) && CopyFits(r, c)
    ensures Valid(r') && r'.rows == r.rows && r'.cols == r.cols
  {
    BlockCopy(r, c.sx, c.sy, c.w, c.h, c.dx, c.dy)
  }

  /** The text of a cell after a copy, in terms of the cells before it. */
  function CopiedTextAt(r: Ring, c: Copy, x: nat, y: nat): seq<int>
    requires Valid(r) && CopyFits(r, c) && x < r.cols && y < r.rows
  {
    if c.dy <= y < c.dy + c.h then
      var source := CellsAt(r, y - c.dy + c.sy);
      CopiedText(CellsAt(r, y), source, c.sx, c.dx, Columns(source, c.sx, c.w), x)
    else TextAt(r, x, y)
  }

  /** The cells of a row after a copy. */
  lemma RowCopied(r: Ring, c: Copy, y: nat)
    requires Valid(r) && CopyFits(r, c) && y < r.rows
    ensures CellsAt(CopyBlockOf(r, c), y)
            == if c.dy <= y < c.dy + c.h then
                 CopyInterval(CellsAt(r, y), CellsAt(r, y - c.dy + c.sy), c.sx, c.sx + c.w, c.dx, c.sy == c.dy)
               else CellsAt(r, y)
  {
    hide BlockCopy, CopyInterval, CellsAt;
    BlockCopyRow(r, c.sx, c.sy, c.w, c.h, c.dx, c.dy, y);
    CellsOnScreen(r, y);
    CellsOnScreen(CopyBlockOf(r, c), y);
    if c.dy <= y < c.dy + c.h {
      CellsOnScreen(r, y - c.dy + c.sy);
    }
  }

  /**
    A block copy reads all cells before it writes any of them: the text of every cell afterwards is determined by the
    source and destination row before the call, for all rows and rectangles.
   */
  lemma BlockCopyIsSimultaneous(r: Ring, c: Copy, x: nat, y: nat)
    requires Valid(r) && CopyFits(r, c) && x < r.cols && y < r.rows
    ensures TextAt(CopyBlockOf(r, c), x, y) == CopiedTextAt(r, c, x, y)
  {
    hide CopyInterval, CopyBlockOf, CellsAt, CopiedText, TextAt;
    RowCopied(r, c, y);
    TextOfCell(CopyBlockOf(r, c), x, y);
    TextOfCell(r, x, y);
    if c.dy <= y < c.dy + c.h {
      CopyIntervalText(CellsAt(r, y), CellsAt(r, y - c.dy + c.sy), c.sx, c.w, c.dx, c.sy == c.dy, x);
    }
  }

  /**
    A row of the destination is a plain copy of the text of the source row, and is otherwise unchanged, exactly if no
    double-width character is cut visibly at an edge or lands over a column with combining code points.
   */
  lemma BlockCopyIsPlainIff(r: Ring, c: Copy, y: nat)
    requires Valid(r) && CopyFits(r, c) && c.dy <= y < c.dy + c.h
    ensures var dst, src := CellsAt(r, y), CellsAt(r, y - c.dy + c.sy);
            IsPlainCopy(dst, src, CellsAt(CopyBlockOf(r, c), y), c.sx, c.w, c.dx) <==>
              CanCopy(dst, src, c.sx, c.w, c.dx)
  {
    hide CopyInterval, CopyBlockOf, CellsAt, IsPlainCopy, CanCopy;
    RowCopied(r, c, y);
    PlainCopyIff(CellsAt(r, y), CellsAt(r, y - c.dy + c.sy), c.sx, c.w, c.dx, c.sy == c.dy);
  }

  /** The style of every cell of the destination rows, for all rows and rectangles. */
  lemma BlockCopyStyle(r: Ring, c: Copy, x: nat, y: nat)
    requires Valid(r) && CopyFits(r, c) && x < r.cols && c.dy <= y < c.dy + c.h
    ensures var dst, src := CellsAt(r, y), CellsAt(r, y - c.dy + c.sy);
            CellsAt(CopyBlockOf(r, c), y)[x].style
            == ArrivedStyle(dst, src, c.sx, c.dx, c.sy == c.dy, Columns(src, c.sx, c.w), x)
  {
    hide CopyInterval, CopyBlockOf, CellsAt, ArrivedStyle;
    RowCopied(r, c, y);
    CopyIntervalStyle(CellsAt(r, y), CellsAt(r, y - c.dy + c.sy), c.sx, c.w, c.dx, c.sy == c.dy, x);
  }

  // ----- Filling -----

  /** Cell i of a row in which w columns from sx on are overwritten with a width-1 character. */
  function FilledCell(row: seq<Cell>, sx: nat, w: nat, codePoint: int, style: Style, i: nat): Cell
    requires i < |row|
  {
    if sx <= i < sx + w then Cell([codePoint], style)
    else if 0 < w && i == sx - 1 && IsTail(row, sx) then BlankCell(style)
    else if 0 < w && i == sx + w && IsTail(row, sx + w) then Cell([SPACE], row[i].style)
    else row[i]
  }

  lemma {:induction false} FillCellsAt(row: seq<Cell>, sx: nat, w: nat, codePoint: int, style: Style, i: nat)
    requires WellFormed(row) && sx + w <= |row| && i < |row|
    ensures FillCells(row, sx, w, codePoint, style)[i] == FilledCell(row, sx, w, codePoint, style, i)
    decreases w
  {
    hide PutNarrow;
    if w > 0 {
      var before, col := FillCells(row, sx, w - 1, codePoint, style), sx + w - 1;
      FillCellsAt(row, sx, w - 1, codePoint, style, i);
      FillCellsAt(row, sx, w - 1, codePoint, style, col);
      if col + 1 < |row| {
        FillCellsAt(row, sx, w - 1, codePoint, style, col + 1);
      }
      PutNarrowAt(before, col, codePoint, style, i);
    }
  }

  lemma SetLastRow(r: Ring, sx: nat, sy: nat, w: nat, h: nat, codePoint: int, style: Style, y: nat)
    requires Valid(r) && y < r.rows && 0 < w && sx + w <= r.cols && 0 < h && sy + h <= r.rows
    ensures var before, after := BlockSet(r, sx, sy, w, h - 1, codePoint, style),
            BlockSet(r, sx, sy, w, h, codePoint, style);
            var cells := CellsAt(before, y);
            CellsAt(after, y) == if y == sy + h - 1 then FillCells(cells, sx, w, codePoint, style) else cells
  {
    hide FillCells;
  }

  /** The cells of a row after a block has been filled. */
  lemma {:induction false} RowFilled(r: Ring, sx: nat, sy: nat, w: int, h: int, codePoint: int, style: Style, y: nat)
    requires Valid(r) && y < r.rows && sx + w <= r.cols && sy + h <= r.rows
    ensures CellsAt(BlockSet(r, sx, sy, w, h, codePoint, style), y)
            == if 0 < w && sy <= y < sy + h then FillCells(CellsAt(r, y), sx, w, codePoint, style) else CellsAt(r, y)
    decreases if h < 0 then 0 else h
  {
    hide FillCells, CellsAt;
    if h > 0 && w > 0 {
      RowFilled(r, sx, sy, w, h - 1, codePoint, style, y);
      SetLastRow(r, sx, sy, w, h, codePoint, style, y);
    }
  }

  const BLANK: seq<int> := [SPACE]

  /** Columns sx on and rows sy on; nothing if w or h is not positive. */
  datatype Area = Area(sx: nat, sy: nat, w: int, h: int)

  predicate AreaFits(r: Ring, a: Area) {
    a.sx + a.w <= r.cols && a.sy + a.h <= r.rows
  }

  function ClearArea(r: Ring, a: Area, style: Style): (r': Ring)
    requires Valid(r) && AreaFits(r, a)
    ensures Valid(r') && r'.rows == r.rows && r'.cols == r.cols
  {
    BlockSet(r, a.sx, a.sy, a.w, a.h, SPACE, style)
  }

  /**
    Column x is blanked with the area: it is inside, or it is the other half of a character whose one half is inside.
    The texts of column a.sx and of column x tell whether these are right halves.
   */
  predicate Blanks(a: Area, x: int, y: int, left: seq<int>, here: seq<int>) {
    && a.sy <= y < a.sy + a.h && 0 < a.w
    && (a.sx <= x < a.sx + a.w || (x == a.sx - 1 && left == []) || (x == a.sx + a.w && here == []))
  }

  /** Clearing an area, for all rows: characters that are cut by its edge are blanked as a whole. */
  lemma ClearText(r: Ring, a: Area, style: Style, x: nat, y: nat)
    requires Valid(r) && AreaFits(r, a) && x < r.cols && y < r.rows
    ensures TextAt(ClearArea(r, a, style), x, y)
            == if Blanks(a, x, y, TextAt(r, a.sx, y), TextAt(r, x, y)) then BLANK else TextAt(r, x, y)
  {
    hide BlockSet, CellsAt, TextAt, FillCells;
    RowFilled(r, a.sx, a.sy, a.w, a.h, SPACE, style, y);
    TextOfCell(ClearArea(r, a, style), x, y);
    TextOfCell(r, x, y);
    if 0 < a.w && a.sy <= y < a.sy + a.h {
      FillCellsAt(CellsAt(r, y), a.sx, a.w, SPACE, style, x);
      TextOfCell(r, a.sx, y);
    }
  }

  /** A cell after a copy and then a clear: all editing sequences but the erasures have this form. */
  function MovedAndCleared(r: Ring, c: Copy, a: Area, x: nat, y: nat): seq<int>
    requires Valid(r) && CopyFits(r, c) && AreaFits(r, a) && x < r.cols && y < r.rows
  {
    var left := if a.sx < r.cols then CopiedTextAt(r, c, a.sx, y) else [];
    if Blanks(a, x, y, left, CopiedTextAt(r, c, x, y)) then BLANK else CopiedTextAt(r, c, x, y)
  }

  lemma CopyThenClear(r: Ring, c: Copy, a: Area, style: Style, x: nat, y: nat)
    requires Valid(r) && CopyFits(r, c) && AreaFits(r, a) && x < r.cols && y < r.rows
    ensures TextAt(ClearArea(CopyBlockOf(r, c), a, style), x, y) == MovedAndCleared(r, c, a, x, y)
  {
    hide CopyBlockOf, ClearArea, TextAt, CopiedTextAt;
    ClearText(CopyBlockOf(r, c), a, style, x, y);
    BlockCopyIsSimultaneous(r, c, x, y);
    if a.sx < r.cols {
      BlockCopyIsSimultaneous(r, c, a.sx, y);
    }
  }
}
