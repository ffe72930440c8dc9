/** What the editing sequences do to the text of any screen. */
module Editing {
  import opened Basics
  import opened TerminalRows
  import opened TerminalRing
  import opened RowCopies
  import opened BlockCopies
  import opened LineEditing
  import opened TerminalState

  /** The active buffer and a place on the screen. */
  ghost predicate On(t: Term, r: Ring, x: nat, y: nat) {
    Inv(t) && r == t.Cur() && Valid(r) && r.rows == t.rows && r.cols == t.cols && x < t.cols && y < t.rows
  }

  lemma OnScreen(t: Term, x: nat, y: nat)
    requires Inv(t) && x < t.cols && y < t.rows
    ensures On(t, t.Cur(), x, y) && On(NoWrap(t), t.Cur(), x, y)
    ensures 0 <= t.row < t.rows && 0 <= t.col < t.cols && 0 <= t.top < t.bottom <= t.rows
  {
    hide Valid;
  }

  // ----- Erasing -----

  lemma BlockCleared(t: Term, r: Ring, a: Area, x: nat, y: nat)
    requires On(t, r, x, y) && AreaFits(r, a)
    ensures TextAt(ClearBlock(t, a.sx, a.sy, a.w, a.h).Cur(), x, y)
            == if Blanks(a, x, y, TextAt(r, a.sx, y), TextAt(r, x, y)) then BLANK else TextAt(r, x, y)
  {
    hide BlockSet, TextAt, Valid;
    ClearText(r, a, t.Pen(), x, y);
  }

  /** Two areas without a common row. */
  lemma BlocksCleared(t: Term, r: Ring, a: Area, b: Area, x: nat, y: nat)
    requires On(t, r, x, y) && AreaFits(r, a) && AreaFits(r, b)
    requires a.sy + a.h <= b.sy || b.sy + b.h <= a.sy
    ensures TextAt(ClearBlock(ClearBlock(t, a.sx, a.sy, a.w, a.h), b.sx, b.sy, b.w, b.h).Cur(), x, y)
            == if Blanks(a, x, y, TextAt(r, a.sx, y), TextAt(r, x, y))
                  || Blanks(b, x, y, TextAt(r, b.sx, y), TextAt(r, x, y))
               then BLANK else TextAt(r, x, y)
  {
    hide BlockSet, TextAt, Valid, Blanks;
    ClearTwice(r, a, b, t.Pen(), x, y);
  }

  lemma ClearTwice(r: Ring, a: Area, b: Area, style: Style, x: nat, y: nat)
    requires Valid(r) && AreaFits(r, a) && AreaFits(r, b) && x < r.cols && y < r.rows
    requires a.sy + a.h <= b.sy || b.sy + b.h <= a.sy
    ensures TextAt(ClearArea(ClearArea(r, a, style), b, style), x, y)
            == if Blanks(a, x, y, TextAt(r, a.sx, y), TextAt(r, x, y))
                  || Blanks(b, x, y, TextAt(r, b.sx, y), TextAt(r, x, y))
               then BLANK else TextAt(r, x, y)
  {
    hide ClearArea, TextAt;
    ClearText(r, a, style, x, y);
    ClearText(ClearArea(r, a, style), b, style, x, y);
    if b.sx < r.cols {
      ClearText(r, a, style, b.sx, y);
    }
  }

  /** ECH: a character of which only one half is erased goes as a whole. */
  lemma EraseCharsText(t: Term, n: nat, x: nat, y: nat)
    requires Inv(t) && x < t.cols && y < t.rows
    ensures TextAt(EraseChars(t, n).Cur(), x, y)
            == if y == t.row && 0 < n && (t.col <= x < t.col + n || (x == t.col - 1 && TextAt(t.Cur(), t.col, y) == [])
                                          || (x == t.col + n && TextAt(t.Cur(), x, y) == []))
               then BLANK else TextAt(t.Cur(), x, y)
  {
    hide TextAt, Valid, Inv, ClearBlock;
    OnScreen(t, x, y);
    BlockCleared(NoWrap(t), t.Cur(), Area(t.col, t.row, Min(n, t.cols - t.col), 1), x, y);
  }

  /** The columns of the cursor row that EL erases, where left and here are the texts of the cursor column and of x. */
  predicate ErasedInRow(mode: nat, col: int, x: int, left: seq<int>, here: seq<int>) {
    || (mode == 0 && (col <= x || (x == col - 1 && left == [])))
    || (mode == 1 && (x <= col || (x == col + 1 && here == [])))
    || mode == 2
  }

  lemma EraseInLineText(t: Term, mode: nat, x: nat, y: nat)
    requires Inv(t) && x < t.cols && y < t.rows
    ensures TextAt(EraseInLine(t, mode).Cur(), x, y)
            == if y == t.row && ErasedInRow(mode, t.col, x, TextAt(t.Cur(), t.col, y), TextAt(t.Cur(), x, y)) then BLANK
               else TextAt(t.Cur(), x, y)
  {
    hide TextAt, Valid, Inv, ClearBlock;
    OnScreen(t, x, y);
    if mode == 0 {
      BlockCleared(t, t.Cur(), Area(t.col, t.row, t.cols - t.col, 1), x, y);
    } else if mode == 1 {
      BlockCleared(t, t.Cur(), Area(0, t.row, t.col + 1, 1), x, y);
    } else if mode == 2 {
      BlockCleared(t, t.Cur(), Area(0, t.row, t.cols, 1), x, y);
    }
  }

  /** ED 0 erases from the cursor to the end, ED 1 from the beginning to the cursor, ED 2 everything. */
  lemma EraseInDisplayText(t: Term, mode: nat, x: nat, y: nat)
    requires Inv(t) && x < t.cols && y < t.rows && mode != 3
    ensures TextAt(EraseInDisplay(t, mode).Cur(), x, y)
            == if mode == 2 || (mode == 0 && y > t.row) || (mode == 1 && y < t.row)
                  || (y == t.row && ErasedInRow(mode, t.col, x, TextAt(t.Cur(), t.col, y), TextAt(t.Cur(), x, y)))
               then BLANK else TextAt(t.Cur(), x, y)
  {
    hide TextAt, Inv, EraseInDisplay;
    OnScreen(t, x, y);
    if mode == 0 {
      EraseBelowText(t, x, y);
    } else if mode == 1 {
      EraseAboveText(t, x, y);
    } else if mode == 2 {
      EraseAllText(t, x, y);
    } else {
      EraseNothing(t, mode);
    }
  }

  lemma EraseBelowText(t: Term, x: nat, y: nat)
    requires Inv(t) && x < t.cols && y < t.rows
    ensures TextAt(EraseInDisplay(t, 0).Cur(), x, y)
            == if || y > t.row
                  || (y == t.row && ErasedInRow(0, t.col, x, TextAt(t.Cur(), t.col, y), TextAt(t.Cur(), x, y))) then
                 BLANK
               else TextAt(t.Cur(), x, y)
  {
    hide TextAt, Valid, Inv, ClearBlock, WithoutHistory;
    OnScreen(t, x, y);
    BlocksCleared(t, t.Cur(), Area(t.col, t.row, t.cols - t.col, 1), Area(0, t.row + 1, t.cols, t.rows - (t.row + 1)),
                  x, y);
  }

  lemma EraseAboveText(t: Term, x: nat, y: nat)
    requires Inv(t) && x < t.cols && y < t.rows
    ensures TextAt(EraseInDisplay(t, 1).Cur(), x, y)
            == if || y < t.row
                  || (y == t.row && ErasedInRow(1, t.col, x, TextAt(t.Cur(), t.col, y), TextAt(t.Cur(), x, y))) then
                 BLANK
               else TextAt(t.Cur(), x, y)
  {
    hide TextAt, Valid, Inv, ClearBlock, WithoutHistory;
    OnScreen(t, x, y);
    BlocksCleared(t, t.Cur(), Area(0, 0, t.cols, t.row), Area(0, t.row, t.col + 1, 1), x, y);
  }

  lemma EraseAllText(t: Term, x: nat, y: nat)
    requires Inv(t) && x < t.cols && y < t.rows
    ensures TextAt(EraseInDisplay(t, 2).Cur(), x, y) == BLANK
  {
    hide TextAt, Valid, Inv, ClearBlock, WithoutHistory;
    OnScreen(t, x, y);
    BlockCleared(t, t.Cur(), Area(0, 0, t.cols, t.rows), x, y);
  }

  lemma EraseNothing(t: Term, mode: nat)
    requires Inv(t) && mode > 3
    ensures EraseInDisplay(t, mode) == t
  {
    hide Inv;
  }

  // ----- Moving lines -----

  /** The combining code points in column x + 1 that a double-width character stored in column x takes over. */
  function KeptAt(r: Ring, x: int, y: int): seq<int> {
    var next := TextAt(r, x + 1, y);
    if x + 2 < r.cols && 1 < |next| && TextAt(r, x + 2, y) != [] then next[1..] else []
  }

  predicate IsWide(r: Ring, x: int, y: int) {
    x + 1 < r.cols && TextAt(r, x, y) != [] && TextAt(r, x + 1, y) == []
  }

  /** The text of column x of one row when the row is copied over another one. */
  function Arriving(r: Ring, x: int, from: int, to: int): seq<int> {
    var text := TextAt(r, x, from);
    if IsWide(r, x, from) then [text[0]] + KeptAt(r, x, to) + text[1..] else text
  }

  /** It is the text of the row, unless it takes over combining code points. */
  lemma ArrivingIsText(r: Ring, x: int, from: int, to: int)
    ensures Arriving(r, x, from, to) == TextAt(r, x, from) <==> !(IsWide(r, x, from) && KeptAt(r, x, to) != [])
  {
    hide TextAt, KeptAt;
    var text := TextAt(r, x, from);
    if IsWide(r, x, from) {
      PutBetween(text, KeptAt(r, x, to), []);
      assert [] + text[1..] == text[1..];
    }
  }

  lemma KeptOfCells(r: Ring, x: nat, y: nat)
    requires Valid(r) && x < r.cols && y < r.rows
    ensures KeptAt(r, x, y) == Kept(CellsAt(r, y), x)
    ensures IsWide(r, x, y) == (!IsTail(CellsAt(r, y), x) && IsTail(CellsAt(r, y), x + 1))
  {
    hide CellsAt, TextAt;
    TextOfCell(r, x, y);
    if x + 1 < r.cols { TextOfCell(r, x + 1, y); }
    if x + 2 < r.cols { TextOfCell(r, x + 2, y); }
  }

  lemma MovedText(r: Ring, sy: nat, h: nat, dy: nat, cy: nat, n: nat, style: Style, x: nat, y: nat)
    requires Valid(r) && sy + h <= r.rows && dy + h <= r.rows && cy + n <= r.rows && x < r.cols && y < r.rows
    ensures TextAt(RowsMoved(r, sy, h, dy, cy, n, style), x, y)
            == if cy <= y < cy + n then BLANK
               else if dy <= y < dy + h then Arriving(r, x, y - dy + sy, y)
               else TextAt(r, x, y)
  {
    hide CellsAt, TextAt, RowsMoved, Over, WrapAt, Kept, KeptAt;
    MovedRow(r, sy, h, dy, cy, n, style, y);
    TextOfCell(RowsMoved(r, sy, h, dy, cy, n, style), x, y);
    TextOfCell(r, x, y);
    if dy <= y < dy + h {
      OverText(CellsAt(r, y), CellsAt(r, y - dy + sy), sy == dy, x);
      KeptOfCells(r, x, y);
      KeptOfCells(r, x, y - dy + sy);
      TextOfCell(r, x, y - dy + sy);
    }
  }

  /** IL: the lines from the cursor on move down within the region; nothing happens below it. */
  lemma InsertLinesText(t: Term, n: nat, x: nat, y: nat)
    requires Inv(t) && x < t.cols && y < t.rows
    ensures TextAt(InsertLines(t, n).Cur(), x, y)
            == if !(t.row <= y < t.bottom) then TextAt(t.Cur(), x, y)
               else if y < t.row + n then BLANK
               else Arriving(t.Cur(), x, y - n, y)
  {
    hide TextAt, Valid, Inv, InsertLines, Arriving, RowsMoved;
    OnScreen(t, x, y);
    if t.row < t.bottom {
      InsertLinesRows(t, t.Cur(), n);
      var k := LinesMoved(t, n);
      MovedText(t.Cur(), t.row, t.bottom - t.row - k, t.row + k, t.row, k, t.Pen(), x, y);
    } else {
      InsertNothing(t, n);
    }
  }

  /** DL: the lines below the deleted ones move up within the region. */
  lemma DeleteLinesText(t: Term, n: nat, x: nat, y: nat)
    requires Inv(t) && x < t.cols && y < t.rows
    ensures TextAt(DeleteLines(t, n).Cur(), x, y)
            == if !(t.row <= y < t.bottom) then TextAt(t.Cur(), x, y)
               else if t.bottom <= y + n then BLANK
               else Arriving(t.Cur(), x, y + n, y)
  {
    hide TextAt, Valid, Inv, DeleteLines, Arriving, RowsMoved;
    OnScreen(t, x, y);
    if t.row < t.bottom {
      DeleteLinesRows(t, t.Cur(), n);
      var k := LinesMoved(t, n);
      MovedText(t.Cur(), t.row + k, t.bottom - t.row - k, t.row, t.bottom - k, k, t.Pen(), x, y);
    } else {
      DeleteNothing(t, n);
    }
  }

  lemma ScrollDownRows(t: Term, r: Ring, n: nat)
    requires Inv(t) && r == t.Cur() && Valid(r) && 0 <= t.top < t.bottom <= r.rows
    ensures var k := Min(t.bottom - t.top, n);
            RowsMoved(r, t.top, t.bottom - t.top - k, t.top + k, t.top, k, t.Pen()) == ScrollRegionDown(t, n).Cur()
  {
    hide Valid, BlockCopy, BlockSet;
  }

  /** SD: the region moves down. */
  lemma ScrollRegionDownText(t: Term, n: nat, x: nat, y: nat)
    requires Inv(t) && x < t.cols && y < t.rows
    ensures TextAt(ScrollRegionDown(t, n).Cur(), x, y)
            == if !(t.top <= y < t.bottom) then TextAt(t.Cur(), x, y)
               else if y < t.top + n then BLANK
               else Arriving(t.Cur(), x, y - n, y)
  {
    hide TextAt, Valid, Inv, ScrollRegionDown, Arriving, RowsMoved;
    OnScreen(t, x, y);
    ScrollDownRows(t, t.Cur(), n);
    var k := Min(t.bottom - t.top, n);
    MovedText(t.Cur(), t.top, t.bottom - t.top - k, t.top + k, t.top, k, t.Pen(), x, y);
  }

  lemma ReverseIndexRows(t: Term)
    requires Inv(t) && t.row <= t.top
    ensures ReverseIndex(t) == ScrollRegionDown(t, 1)
  {
    hide Valid, CopyBlock, ClearBlock;
  }

  lemma ReverseIndexMoves(t: Term)
    requires Inv(t) && t.row > t.top
    ensures ReverseIndex(t).Cur() == t.Cur()
  {
    hide Inv;
  }

  /** RI: the region moves down if the cursor is at its top or above. */
  lemma ReverseIndexText(t: Term, x: nat, y: nat)
    requires Inv(t) && x < t.cols && y < t.rows
    ensures TextAt(ReverseIndex(t).Cur(), x, y)
            == if t.row > t.top || !(t.top <= y < t.bottom) then TextAt(t.Cur(), x, y)
               else if y == t.top then BLANK
               else Arriving(t.Cur(), x, y - 1, y)
  {
    hide TextAt, Inv, ScrollRegionDown, ReverseIndex, Arriving;
    if t.row <= t.top {
      ReverseIndexRows(t);
      ScrollRegionDownText(t, 1, x, y);
    } else {
      ReverseIndexMoves(t);
    }
  }

  // ----- Moving columns -----

  /** A row of the screen after a copy within the row and a clear. */
  lemma BlockMovedAndCleared(t: Term, r: Ring, c: Copy, a: Area, x: nat, y: nat)
    requires On(t, r, x, y) && CopyFits(r, c) && AreaFits(r, a)
    ensures TextAt(ClearBlock(CopyBlock(t, c.sx, c.sy, c.w, c.h, c.dx, c.dy), a.sx, a.sy, a.w, a.h).Cur(), x, y)
            == MovedAndCleared(r, c, a, x, y)
  {
    hide BlockCopy, BlockSet, TextAt, Valid, MovedAndCleared;
    CopyThenClear(r, c, a, t.Pen(), x, y);
  }

  /** A copy and a clear of the same rows that cut no character and let none take over combining code points. */
  predicate Clean(r: Ring, c: Copy, a: Area, y: nat)
    requires Valid(r) && CopyFits(r, c) && y < r.rows
  {
    var row := CellsAt(r, y);
    && c.sy == c.dy == a.sy && a.h == c.h && c.dy <= y < c.dy + c.h
    && CanCopy(row, row, c.sx, c.w, c.dx)
    && (0 < a.sx && !(c.dx <= a.sx < c.dx + c.w) ==> !IsTail(row, a.sx))
    && (c.dx <= a.sx < c.dx + c.w ==> !IsTail(row, a.sx - c.dx + c.sx))
    && (c.dx <= a.sx + a.w < c.dx + c.w ==> !IsTail(row, a.sx + a.w - c.dx + c.sx))
    && (!(c.dx <= a.sx + a.w < c.dx + c.w) ==> !IsTail(row, a.sx + a.w))
  }

  /** So it is on every row without double-width characters. */
  lemma CleanWithoutHalves(r: Ring, c: Copy, a: Area, y: nat)
    requires Valid(r) && CopyFits(r, c) && y < r.rows && NoHalves(CellsAt(r, y), 0, r.cols)
    requires c.sy == c.dy == a.sy && a.h == c.h && c.dy <= y < c.dy + c.h
    ensures Clean(r, c, a, y)
  {
    hide Kept;
    var row := CellsAt(r, y);
    assert forall i :: !IsTail(row, i);
    assert !Lands(row, row, c.sx, Columns(row, c.sx, c.w), c.dx);
  }

  lemma CopiedPlainly(r: Ring, c: Copy, x: nat, y: nat)
    requires Valid(r) && CopyFits(r, c) && x < r.cols && c.sy == c.dy <= y < c.dy + c.h
    requires CanCopy(CellsAt(r, y), CellsAt(r, y), c.sx, c.w, c.dx)
    ensures CopiedTextAt(r, c, x, y) == TextAt(r, if c.dx <= x < c.dx + c.w then x - c.dx + c.sx else x, y)
  {
    hide CellsAt, TextAt, CanCopy, CopiedText;
    PlainIfCanCopy(CellsAt(r, y), CellsAt(r, y), c.sx, c.w, c.dx, x);
    TextOfCell(r, if c.dx <= x < c.dx + c.w then x - c.dx + c.sx else x, y);
  }

  lemma NotEmpty(r: Ring, x: nat, y: nat)
    requires Valid(r) && x < r.cols && y < r.rows
    ensures TextAt(r, x, y) == [] <==> IsTail(CellsAt(r, y), x)
  {
  }

  /** Then every cell is blank, moved or as it was. */
  lemma CleanMove(r: Ring, c: Copy, a: Area, x: nat, y: nat)
    requires Valid(r) && CopyFits(r, c) && AreaFits(r, a) && x < r.cols && y < r.rows && Clean(r, c, a, y)
    ensures MovedAndCleared(r, c, a, x, y)
            == if a.sx <= x < a.sx + a.w then BLANK
               else if c.dx <= x < c.dx + c.w then TextAt(r, x - c.dx + c.sx, y)
               else TextAt(r, x, y)
  {
    hide CellsAt, TextAt, CanCopy, CopiedTextAt;
    CopiedPlainly(r, c, x, y);
    var from := if c.dx <= x < c.dx + c.w then x - c.dx + c.sx else x;
    NotEmpty(r, from, y);
    if a.sx < r.cols {
      CopiedPlainly(r, c, a.sx, y);
      NotEmpty(r, if c.dx <= a.sx < c.dx + c.w then a.sx - c.dx + c.sx else a.sx, y);
    }
  }

  /** The text of a place is what a copy and a clear leave there. */
  ghost predicate MovesAs(r: Ring, r': Ring, c: Copy, a: Area, x: nat, y: nat) {
    && Valid(r) && CopyFits(r, c) && AreaFits(r, a) && x < r.cols && y < r.rows
    && TextAt(r', x, y) == MovedAndCleared(r, c, a, x, y)
  }

  ghost predicate CleanAt(r: Ring, c: Copy, a: Area, y: nat) {
    Valid(r) && CopyFits(r, c) && y < r.rows && Clean(r, c, a, y)
  }

  lemma CleanMoves(r: Ring, r': Ring, c: Copy, a: Area, x: nat, y: nat)
    requires MovesAs(r, r', c, a, x, y)
    ensures CleanAt(r, c, a, y) ==>
              TextAt(r', x, y) == if a.sx <= x < a.sx + a.w then BLANK
                                  else if c.dx <= x < c.dx + c.w then TextAt(r, x - c.dx + c.sx, y)
                                  else TextAt(r, x, y)
    ensures !(c.dy <= y < c.dy + c.h) && !(a.sy <= y < a.sy + a.h) ==> TextAt(r', x, y) == TextAt(r, x, y)
  {
    hide TextAt, Valid, CellsAt;
    if CleanAt(r, c, a, y) {
      CleanMove(r, c, a, x, y);
    }
  }

  /** ICH moves the columns from the cursor on to the right. */
  function IchCopy(t: Term, n: nat): Copy
    requires CursorOk(t)
  {
    var k := Min(n, t.cols - t.col);
    Copy(t.col, t.row, t.cols - t.col - k, 1, t.col + k, t.row)
  }

  function IchArea(t: Term, n: nat): Area
    requires CursorOk(t)
  {
    Area(t.col, t.row, Min(n, t.cols - t.col), 1)
  }

  lemma InsertCharsText(t: Term, n: nat, x: nat, y: nat)
    requires Inv(t) && x < t.cols && y < t.rows
    ensures MovesAs(t.Cur(), InsertChars(t, n).Cur(), IchCopy(t, n), IchArea(t, n), x, y)
    ensures y != t.row ==> TextAt(InsertChars(t, n).Cur(), x, y) == TextAt(t.Cur(), x, y)
    ensures CleanAt(t.Cur(), IchCopy(t, n), IchArea(t, n), y) ==>
              TextAt(InsertChars(t, n).Cur(), x, y)
              == if x < t.col then TextAt(t.Cur(), x, y)
                 else if x < t.col + n then BLANK
                 else TextAt(t.Cur(), x - n, y)
  {
    hide TextAt, Valid, Inv, CopyBlock, ClearBlock, MovedAndCleared, CleanAt;
    OnScreen(t, x, y);
    BlockMovedAndCleared(NoWrap(t), t.Cur(), IchCopy(t, n), IchArea(t, n), x, y);
    CleanMoves(t.Cur(), InsertChars(t, n).Cur(), IchCopy(t, n), IchArea(t, n), x, y);
  }

  /** DCH moves the columns behind the deleted ones to the left. */
  function DchCopy(t: Term, n: nat): Copy
    requires CursorOk(t)
  {
    var k := Min(n, t.cols - t.col);
    Copy(t.col + k, t.row, t.cols - t.col - k, 1, t.col, t.row)
  }

  function DchArea(t: Term, n: nat): Area
    requires CursorOk(t)
  {
    var k := Min(n, t.cols - t.col);
    Area(t.cols - k, t.row, k, 1)
  }

  lemma DeleteCharsText(t: Term, n: nat, x: nat, y: nat)
    requires Inv(t) && x < t.cols && y < t.rows
    ensures MovesAs(t.Cur(), DeleteChars(t, n).Cur(), DchCopy(t, n), DchArea(t, n), x, y)
    ensures y != t.row ==> TextAt(DeleteChars(t, n).Cur(), x, y) == TextAt(t.Cur(), x, y)
    ensures CleanAt(t.Cur(), DchCopy(t, n), DchArea(t, n), y) ==>
              TextAt(DeleteChars(t, n).Cur(), x, y)
              == if x < t.col then TextAt(t.Cur(), x, y)
                 else if x + n < t.cols then TextAt(t.Cur(), x + n, y)
                 else BLANK
  {
    hide TextAt, Valid, Inv, CopyBlock, ClearBlock, MovedAndCleared, CleanAt;
    OnScreen(t, x, y);
    BlockMovedAndCleared(NoWrap(t), t.Cur(), DchCopy(t, n), DchArea(t, n), x, y);
    CleanMoves(t.Cur(), DeleteChars(t, n).Cur(), DchCopy(t, n), DchArea(t, n), x, y);
  }

  /** DECIC moves the columns from the cursor on to the right in all rows. */
  function DecicCopy(t: Term, n: nat): Copy
    requires CursorOk(t)
  {
    var k := Min(n, t.cols - t.col);
    Copy(t.col, 0, t.cols - t.col - k, t.rows, t.col + k, 0)
  }

  function DecicArea(t: Term, n: nat): Area
    requires CursorOk(t)
  {
    Area(t.col, 0, Min(n, t.cols - t.col), t.rows)
  }

  lemma InsertColumnsText(t: Term, n: nat, x: nat, y: nat)
    requires Inv(t) && x < t.cols && y < t.rows
    ensures MovesAs(t.Cur(), InsertColumns(t, n).Cur(), DecicCopy(t, n), DecicArea(t, n), x, y)
    ensures CleanAt(t.Cur(), DecicCopy(t, n), DecicArea(t, n), y) ==>
              TextAt(InsertColumns(t, n).Cur(), x, y)
              == if x < t.col then TextAt(t.Cur(), x, y)
                 else if x < t.col + n then BLANK
                 else TextAt(t.Cur(), x - n, y)
  {
    hide TextAt, Valid, Inv, CopyBlock, ClearBlock, MovedAndCleared, CleanAt;
    OnScreen(t, x, y);
    BlockMovedAndCleared(t, t.Cur(), DecicCopy(t, n), DecicArea(t, n), x, y);
    CleanMoves(t.Cur(), InsertColumns(t, n).Cur(), DecicCopy(t, n), DecicArea(t, n), x, y);
  }

  // ----- Moving the region sideways -----

  /** A copy and a clear in a given style. */
  lemma BlockMovedAndSet(t: Term, r: Ring, c: Copy, a: Area, style: Style, x: nat, y: nat)
    requires On(t, r, x, y) && CopyFits(r, c) && AreaFits(r, a)
    ensures TextAt(SetBlock(CopyBlock(t, c.sx, c.sy, c.w, c.h, c.dx, c.dy), a.sx, a.sy, a.w, a.h, SPACE, style).Cur(),
                   x, y)
            == MovedAndCleared(r, c, a, x, y)
  {
    hide BlockCopy, BlockSet, TextAt, Valid, MovedAndCleared;
    CopyThenClear(r, c, a, style, x, y);
  }

  /** DECBI at the left edge moves the region to the right. */
  function BackCopy(t: Term): Copy
    requires 1 <= t.cols && 0 <= t.top <= t.bottom
  {
    Copy(0, t.top, t.cols - 1, t.bottom - t.top, 1, t.top)
  }

  function BackArea(t: Term): Area
    requires 0 <= t.top
  {
    Area(0, t.top, 1, t.bottom - t.top)
  }

  lemma BackIndexText(t: Term, x: nat, y: nat)
    requires Inv(t) && x < t.cols && y < t.rows
    ensures t.col > 0 || !(t.top <= y < t.bottom) ==> TextAt(BackIndex(t).Cur(), x, y) == TextAt(t.Cur(), x, y)
    ensures t.col == 0 ==> MovesAs(t.Cur(), BackIndex(t).Cur(), BackCopy(t), BackArea(t), x, y)
    ensures t.col == 0 && CleanAt(t.Cur(), BackCopy(t), BackArea(t), y) ==>
              TextAt(BackIndex(t).Cur(), x, y) == if x == 0 then BLANK else TextAt(t.Cur(), x - 1, y)
  {
    hide TextAt, Valid, Inv, CopyBlock, SetBlock, MovedAndCleared, CleanAt;
    OnScreen(t, x, y);
    if t.col == 0 {
      BlockMovedAndSet(t, t.Cur(), BackCopy(t), BackArea(t), Style(t.fore, t.back, 0), x, y);
      CleanMoves(t.Cur(), BackIndex(t).Cur(), BackCopy(t), BackArea(t), x, y);
    }
  }

  /** DECFI at the right edge moves the region to the left. */
  function ForwardCopy(t: Term): Copy
    requires 1 <= t.cols && 0 <= t.top <= t.bottom
  {
    Copy(1, t.top, t.cols - 1, t.bottom - t.top, 0, t.top)
  }

  function ForwardArea(t: Term): Area
    requires 1 <= t.cols && 0 <= t.top
  {
    Area(t.cols - 1, t.top, 1, t.bottom - t.top)
  }

  lemma ForwardIndexText(t: Term, x: nat, y: nat)
    requires Inv(t) && x < t.cols && y < t.rows
    ensures t.col < t.cols - 1 || !(t.top <= y < t.bottom) ==>
              TextAt(ForwardIndex(t).Cur(), x, y) == TextAt(t.Cur(), x, y)
    ensures t.col == t.cols - 1 ==> MovesAs(t.Cur(), ForwardIndex(t).Cur(), ForwardCopy(t), ForwardArea(t), x, y)
    ensures t.col == t.cols - 1 && CleanAt(t.Cur(), ForwardCopy(t), ForwardArea(t), y) ==>
              TextAt(ForwardIndex(t).Cur(), x, y) == if x == t.cols - 1 then BLANK else TextAt(t.Cur(), x + 1, y)
  {
    hide TextAt, Valid, Inv, CopyBlock, SetBlock, MovedAndCleared, CleanAt;
    OnScreen(t, x, y);
    if t.col == t.cols - 1 {
      BlockMovedAndSet(t, t.Cur(), ForwardCopy(t), ForwardArea(t), Style(t.fore, t.back, 0), x, y);
      CleanMoves(t.Cur(), ForwardIndex(t).Cur(), ForwardCopy(t), ForwardArea(t), x, y);
    }
  }

  // ----- Scrolling up -----

  lemma ScrollText(r: Ring, top: nat, bottom: nat, style: Style, x: nat, y: nat)
    requires Valid(r) && top < bottom <= r.rows && x < r.cols && y < r.rows
    ensures TextAt(Scroll(r, top, bottom, style), x, y)
            == if !(top <= y < bottom) then TextAt(r, x, y) else if y + 1 < bottom then TextAt(r, x, y + 1) else BLANK
  {
    hide ScrolledView;
    ScrolledViewAt(r, top, bottom, style, y);
  }

  /** SU: the region moves up. */
  lemma {:induction false} ScrollLinesText(t: Term, n: nat, x: nat, y: nat)
    requires Inv(t) && x < t.cols && y < t.rows
    ensures var t' := ScrollLines(t, n);
            && t'.top == t.top && t'.bottom == t.bottom && t'.rows == t.rows && t'.cols == t.cols
            && TextAt(t'.Cur(), x, y)
               == if !(t.top <= y < t.bottom) then TextAt(t.Cur(), x, y)
                  else if y + n < t.bottom then TextAt(t.Cur(), x, y + n) else BLANK
    decreases n
  {
    hide TextAt, Scroll, Valid;
    if n > 0 {
      var t1 := ScrollLines(t, n - 1);
      ScrollLinesText(t, n - 1, x, y);
      if t.top <= y && y + 1 < t.bottom {
        ScrollLinesText(t, n - 1, x, y + 1);
      }
      ScrollText(t1.Cur(), t1.top, t1.bottom, t1.Pen(), x, y);
    }
  }
}
