/** The terminal emulator as an object that owns its two buffers (TerminalEmulator.java). */
module TerminalEmulators {
  import opened Wrappers
  import opened Basics
  import opened TerminalRows
  import opened TerminalRing
  import opened TerminalResize
  import opened TerminalState
  import opened TerminalBuffers
  import opened CursorMoves
  import Rotation

  class TerminalEmulator {
    const mainBuffer: TerminalBuffer
    const altBuffer: TerminalBuffer
    /** One of the two buffers. */
    var screen: TerminalBuffer

    var rows: nat
    var columns: nat
    var cursorRow: int
    var cursorCol: int
    var topMargin: int
    var bottomMargin: int
    var aboutToAutoWrap: bool
    var autowrap: bool
    var originMode: bool
    var insertMode: bool
    var foreColor: int
    var backColor: int
    var effect: int
    var lineDrawingG0: bool
    var lineDrawingG1: bool
    var lineDrawingUsesG0: bool
    var savedMain: Saved
    var savedAlt: Saved
    var tabStop: seq<bool>
    var lastEmitted: Option<Glyph>

    /** The abstract state. */
    ghost function State(): Term
      reads this, mainBuffer, altBuffer
    {
      Term(rows, columns, mainBuffer.ring, altBuffer.ring, screen == altBuffer,
           cursorRow, cursorCol, topMargin, bottomMargin, aboutToAutoWrap, autowrap, originMode, insertMode,
           foreColor, backColor, effect, lineDrawingG0, lineDrawingG1, lineDrawingUsesG0,
           savedMain, savedAlt, tabStop, lastEmitted)
    }

    /** The two buffers are valid and share nothing. */
    ghost predicate Owns()
      reads this, mainBuffer, altBuffer, mainBuffer.Repr, altBuffer.Repr
    {
      && mainBuffer.Valid() && altBuffer.Valid()
      && mainBuffer.Repr !! altBuffer.Repr && this !in mainBuffer.Repr && this !in altBuffer.Repr
      && (screen == mainBuffer || screen == altBuffer)
    }

    ghost predicate Valid()
      reads this, mainBuffer, altBuffer, mainBuffer.Repr, altBuffer.Repr
    {
      Owns() && Inv(State())
    }

    twostate predicate Grown()
      reads mainBuffer, altBuffer
    {
      fresh(mainBuffer.Repr - old(mainBuffer.Repr)) && fresh(altBuffer.Repr - old(altBuffer.Repr))
    }

    constructor (cols: nat, rows': nat, transcriptRows: nat)
      requires 2 <= cols && 2 <= rows' <= transcriptRows
      ensures Valid() && fresh(mainBuffer.Repr) && fresh(altBuffer.Repr)
      ensures State() == Initial(cols, rows', transcriptRows)
    {
      hide LineOk, Separate, Rotation.Rotate, Holds, FreshRows;
      mainBuffer := new TerminalBuffer(cols, transcriptRows, rows');
      altBuffer := new TerminalBuffer(cols, rows', rows');
      screen := mainBuffer;
      rows, columns, cursorRow, cursorCol := rows', cols, 0, 0;
      effect, lastEmitted := 0, None;
      topMargin, bottomMargin, aboutToAutoWrap, insertMode := 0, rows', false, false;
      foreColor, backColor, tabStop := 256, 257, DefaultTabStops(cols);
      lineDrawingG0, lineDrawingG1, lineDrawingUsesG0 := false, false, true;
      savedMain, savedAlt, autowrap, originMode := ZERO_SAVED, ZERO_SAVED, true, false;
    }

    lemma CursorFits()
      requires Valid()
      ensures CursorOk(State()) && MarginsOk(State()) && 2 <= rows && 2 <= columns
    {
    }

    /** The fields that the cursor movements read. */
    lemma Fields()
      ensures State().row == cursorRow && State().col == cursorCol && State().rows == rows && State().cols == columns
      ensures State().top == topMargin && State().bottom == bottomMargin
    {
    }

    // ----- Access to the active buffer -----

    lemma ScreenFits()
      requires Valid()
      ensures screen.Valid() && TerminalRing.Valid(screen.ring) && State().Cur() == screen.ring
      ensures screen.columns == columns && screen.screenRows == rows && 2 <= rows && 2 <= columns
      ensures 0 <= topMargin < bottomMargin <= rows
    {
    }

    method BlockSet(sx: int, sy: int, w: int, h: int, codePoint: int, style: Style)
      requires Valid() && 0 <= sx && sx + w <= columns && 0 <= sy && sy + h <= rows && sy <= rows
      modifies this, mainBuffer.Repr, altBuffer.Repr
      ensures Valid() && Grown() && State() == SetBlock(old(State()), sx, sy, w, h, codePoint, style)
    {
      hide Inv, TerminalBuffer.Valid, TerminalRing.BlockSet;
      ScreenFits();
      screen.BlockSet(sx, sy, w, h, codePoint, style);
      assert State() == SetBlock(old(State()), sx, sy, w, h, codePoint, style);
    }

    method BlockClear(sx: int, sy: int, w: int, h: int)
      requires Valid() && 0 <= sx && sx + w <= columns && 0 <= sy && sy + h <= rows && sy <= rows
      modifies this, mainBuffer.Repr, altBuffer.Repr
      ensures Valid() && Grown() && State() == ClearBlock(old(State()), sx, sy, w, h)
    {
      hide Inv, Owns;
      BlockSet(sx, sy, w, h, SPACE, Style(foreColor, backColor, effect));
    }

    method BlockCopy(sx: int, sy: int, w: int, h: int, dx: int, dy: int)
      requires Valid() && 0 <= sx && 0 <= w && sx + w <= columns && 0 <= sy && 0 <= h && sy + h <= rows
      requires 0 <= dx && dx + w <= columns && 0 <= dy && dy + h <= rows
      modifies this, mainBuffer.Repr, altBuffer.Repr
      ensures Valid() && Grown() && State() == CopyBlock(old(State()), sx, sy, w, h, dx, dy)
    {
      hide Inv, TerminalBuffer.Valid, TerminalRing.BlockCopy;
      ScreenFits();
      screen.BlockCopy(sx, sy, w, h, dx, dy);
      assert State() == CopyBlock(old(State()), sx, sy, w, h, dx, dy);
    }

    method ScrollDownOneLine()
      requires Valid()
      modifies this, mainBuffer.Repr, altBuffer.Repr
      ensures Valid() && Grown() && State() == TerminalState.ScrollDownOneLine(old(State()))
    {
      hide Inv, TerminalBuffer.Valid, Scroll, Shift;
      ScreenFits();
      screen.ScrollDownOneLine(topMargin, bottomMargin, Style(foreColor, backColor, effect));
      assert State() == TerminalState.ScrollDownOneLine(old(State()));
    }

    method MarkLineWrap(row: int, wrap: bool)
      requires Valid() && 0 <= row < rows
      modifies this, mainBuffer.Repr, altBuffer.Repr
      ensures Valid() && Grown() && State() == MarkWrap(old(State()), row, wrap)
    {
      hide Inv, TerminalBuffer.Valid, TerminalRing.SetLineWrap;
      ScreenFits();
      screen.SetLineWrap(row, wrap);
      assert State() == MarkWrap(old(State()), row, wrap);
    }

    method PutChar(col: int, row: int, g: Glyph)
      requires Valid() && 0 <= row < rows && 0 <= col < columns && ValidGlyph(g) && (g.width == 2 ==> col + 1 < columns)
      modifies this, mainBuffer.Repr, altBuffer.Repr
      ensures Valid() && Grown()
      ensures State() == PutGlyph(old(State()), col, row, g)
    {
      hide Inv, TerminalBuffer.Valid, TerminalRing.SetChar;
      ScreenFits();
      screen.SetChar(col, row, g, Style(foreColor, backColor, effect));
      assert State() == PutGlyph(old(State()), col, row, g);
    }
    // ----- Cursor -----

    method SetCursorRow(row: int)
      requires Valid() && 0 <= row < rows
      modifies this
      ensures Valid() && State() == TerminalState.SetCursorRow(old(State()), row)
    {
      hide ScreensOk, TerminalBuffer.Valid;
      cursorRow, aboutToAutoWrap := row, false;
      assert State() == TerminalState.SetCursorRow(old(State()), row);
    }

    method SetCursorCol(col: int)
      requires Valid() && 0 <= col < columns
      modifies this
      ensures Valid() && State() == TerminalState.SetCursorCol(old(State()), col)
    {
      hide ScreensOk, TerminalBuffer.Valid;
      cursorCol, aboutToAutoWrap := col, false;
      assert State() == TerminalState.SetCursorCol(old(State()), col);
    }

    method TabToCol(col: int)
      requires Valid() && 0 <= col < columns
      modifies this
      ensures Valid() && State() == TabTo(old(State()), col)
    {
      hide ScreensOk, TerminalBuffer.Valid;
      cursorCol := col;
      assert State() == TabTo(old(State()), col);
    }

    method MoveToRow(row: int)
      requires Valid() && 0 <= row < rows
      modifies this
      ensures Valid() && State() == RowTo(old(State()), row)
    {
      hide ScreensOk, TerminalBuffer.Valid;
      cursorRow := row;
      assert State() == RowTo(old(State()), row);
    }

    method SetCursorRowCol(row: int, col: int)
      requires Valid()
      modifies this
      ensures Valid() && State() == TerminalState.SetCursorRowCol(old(State()), row, col)
    {
      hide ScreensOk, TerminalBuffer.Valid;
      cursorRow := Max(0, Min(row, rows - 1));
      cursorCol := Max(0, Min(col, columns - 1));
      aboutToAutoWrap := false;
      assert State() == TerminalState.SetCursorRowCol(old(State()), row, col);
    }

    method SetCursorPosition(x: int, y: int)
      requires Valid()
      modifies this
      ensures Valid() && State() == TerminalState.SetCursorPosition(old(State()), x, y)
    {
      hide ScreensOk, TerminalBuffer.Valid;
      var effectiveTop := if originMode then topMargin else 0;
      var effectiveBottom := if originMode then bottomMargin else rows;
      SetCursorRowCol(Max(effectiveTop, Min(effectiveTop + y, effectiveBottom - 1)), Max(0, Min(x, columns - 1)));
    }

    method FindNextTabStop(tabs: int) returns (col: int)
      requires Valid()
      ensures col == NextTabStop(State(), cursorCol + 1, tabs) && 0 <= col < columns == |tabStop| && 0 <= cursorCol
      ensures 1 <= tabs ==>
                if tabs <= Stops(tabStop, cursorCol + 1, columns) then
                  cursorCol < col && tabStop[col] && Stops(tabStop, cursorCol + 1, col) == tabs - 1
                else col == columns - 1
    {
      hide ScreensOk, TerminalBuffer.Valid;
      if 1 <= tabs {
        NextStop(State(), cursorCol + 1, tabs);
      }
      var n, i := tabs, cursorCol + 1;
      while i < columns
        invariant 0 <= i && NextTabStop(State(), i, n) == NextTabStop(State(), cursorCol + 1, tabs)
      {
        if tabStop[i] {
          n := n - 1;
          if n == 0 { return i; }
        }
        i := i + 1;
      }
      col := columns - 1;
    }

    method FindPreviousTabStop(tabs: int) returns (col: int)
      requires Valid()
      ensures col == PreviousTabStop(State(), cursorCol - 1, tabs) && 0 <= col < columns == |tabStop|
              && cursorCol < columns
      ensures 1 <= tabs ==>
                if tabs <= Stops(tabStop, 0, cursorCol) then
                  col < cursorCol && tabStop[col] && Stops(tabStop, col + 1, cursorCol) == tabs - 1
                else col == 0
    {
      hide ScreensOk, TerminalBuffer.Valid;
      if 1 <= tabs {
        PreviousStop(State(), cursorCol - 1, tabs);
      }
      var n, i := tabs, cursorCol - 1;
      while i >= 0
        invariant i < columns && PreviousTabStop(State(), i, n) == PreviousTabStop(State(), cursorCol - 1, tabs)
        decreases i + 1
      {
        if tabStop[i] {
          n := n - 1;
          if n == 0 { return i; }
        }
        i := i - 1;
      }
      col := 0;
    }

    // ----- Printing and line feeds -----

    method DoLinefeed()
      requires Valid()
      modifies this, mainBuffer.Repr, altBuffer.Repr
      ensures Valid() && Grown() && State() == TerminalState.DoLinefeed(old(State()))
    {
      hide State, Valid, Owns, Inv, Local, Scroll, TerminalState.ScrollDownOneLine, TerminalState.SetCursorRow;
      CursorFits();
      Fields();
      var newCursorRow := cursorRow + 1;
      if cursorRow >= bottomMargin {
        if cursorRow != rows - 1 {
          SetCursorRow(newCursorRow);
        }
      } else {
        if newCursorRow == bottomMargin {
          ScrollDownOneLine();
          Fields();
          newCursorRow := bottomMargin - 1;
        }
        SetCursorRow(newCursorRow);
      }
    }

    method WrapLine()
      requires Valid()
      modifies this, mainBuffer.Repr, altBuffer.Repr
      ensures Valid() && Grown() && State() == TerminalState.WrapLine(old(State()))
    {
      hide Owns, Inv, TerminalState.ScrollDownOneLine, MarkWrap;
      CursorFits();
      MarkLineWrap(cursorRow, true);
      TabToCol(0);
      CursorFits();
      if cursorRow + 1 < bottomMargin {
        MoveToRow(cursorRow + 1);
      } else {
        ScrollDownOneLine();
      }
    }

    method MakeRoom(g: Glyph)
      requires Valid() && ValidGlyph(g)
      modifies this, mainBuffer.Repr, altBuffer.Repr
      ensures Valid() && Grown() && State() == TerminalState.MakeRoom(old(State()), g)
    {
      hide Owns, Inv, CopyBlock;
      CursorFits();
      if insertMode && g.width > 0 {
        var destCol := cursorCol + g.width;
        if destCol < columns {
          BlockCopy(cursorCol, cursorRow, columns - destCol, 1, destCol, cursorRow);
        }
      }
    }

    method Advance(width: int)
      requires Valid() && 0 <= width
      modifies this
      ensures Valid() && State() == TerminalState.Advance(old(State()), width)
    {
      hide ScreensOk, TerminalBuffer.Valid;
      if autowrap && width > 0 {
        aboutToAutoWrap := cursorCol == columns - width;
      }
      cursorCol := Min(cursorCol + width, columns - 1);
      assert State() == TerminalState.Advance(old(State()), width);
    }

    method WriteGlyph(g: Glyph)
      requires Valid() && ValidGlyph(g) && (g.width == 2 ==> cursorCol + 1 < columns)
      modifies this, mainBuffer.Repr, altBuffer.Repr
      ensures Valid() && Grown() && State() == TerminalState.WriteGlyph(old(State()), g)
    {
      hide Owns, Inv, PutGlyph, TerminalState.Advance;
      CursorFits();
      var offset := if g.width <= 0 && cursorCol > 0 && !aboutToAutoWrap then 1 else 0;
      PutChar(cursorCol - offset, cursorRow, g);
      Advance(g.width);
    }

    method Remember(g: Glyph)
      requires Valid() && ValidGlyph(g)
      modifies this
      ensures Valid() && State() == old(State()).(last := Some(g))
    {
      hide Inv, TerminalBuffer.Valid;
      lastEmitted := Some(g);
      LastSet(old(State()), g);
      assert State() == old(State()).(last := Some(g));
    }

    method EmitCodePoint(glyph: Glyph)
      requires Valid() && ValidGlyph(glyph)
      modifies this, mainBuffer.Repr, altBuffer.Repr
      ensures Valid() && Grown() && State() == TerminalState.EmitCodePoint(old(State()), glyph)
    {
      hide Owns, Inv, LineDrawing, TerminalState.Show;
      Remember(glyph);
      Show(if (if lineDrawingUsesG0 then lineDrawingG0 else lineDrawingG1) then LineDrawing(glyph) else glyph);
    }

    method Show(g: Glyph)
      requires Valid() && ValidGlyph(g)
      modifies this, mainBuffer.Repr, altBuffer.Repr
      ensures Valid() && Grown() && State() == TerminalState.Show(old(State()), g)
    {
      hide Owns, ScreensOk, TerminalState.WrapLine, TerminalState.MakeRoom, TerminalState.WriteGlyph;
      var cursorInLastColumn := cursorCol == columns - 1;
      if autowrap {
        if cursorInLastColumn && ((aboutToAutoWrap && g.width == 1) || g.width == 2) {
          WrapLine();
        }
      } else if cursorInLastColumn && g.width == 2 {
        return;
      }
      MakeRoom(g);
      WriteGlyph(g);
    }

    // ----- Control characters and escape sequences -----

    method ForgetWrap()
      requires Valid()
      modifies this
      ensures Valid() && State() == NoWrap(old(State()))
    {
      hide Inv, TerminalBuffer.Valid;
      aboutToAutoWrap := false;
      assert State() == NoWrap(old(State()));
    }

    method ChangeMargins(top: int, bottom: int)
      requires Valid() && 0 <= top <= rows - 2 && top + 2 <= bottom <= rows
      modifies this
      ensures Valid() && State() == WithMargins(old(State()), top, bottom)
    {
      hide Inv, TerminalBuffer.Valid;
      topMargin, bottomMargin := top, bottom;
      assert State() == WithMargins(old(State()), top, bottom);
    }

    method Backspace()
      requires Valid()
      modifies this, mainBuffer.Repr, altBuffer.Repr
      ensures Valid() && Grown() && State() == TerminalState.Backspace(old(State()))
    {
      hide Owns, Inv, MarkWrap;
      CursorFits();
      if cursorCol == 0 {
        var previousRow := cursorRow - 1;
        var wrapped := false;
        if previousRow >= 0 {
          ScreenFits();
          wrapped := screen.GetLineWrap(previousRow);
        }
        if wrapped {
          MarkLineWrap(previousRow, false);
          SetCursorRowCol(previousRow, columns - 1);
        }
      } else {
        SetCursorCol(cursorCol - 1);
      }
    }

    method ReverseIndex()
      requires Valid()
      modifies this, mainBuffer.Repr, altBuffer.Repr
      ensures Valid() && Grown() && State() == TerminalState.ReverseIndex(old(State()))
    {
      hide Owns, Inv, CopyBlock, SetBlock, ClearBlock, MarkWrap;
      CursorFits();
      if cursorRow <= topMargin {
        BlockCopy(0, topMargin, columns, bottomMargin - (topMargin + 1), 0, topMargin + 1);
        BlockClear(0, topMargin, columns, 1);
      } else {
        MoveToRow(cursorRow - 1);
      }
    }

    method BackIndex()
      requires Valid()
      modifies this, mainBuffer.Repr, altBuffer.Repr
      ensures Valid() && Grown() && State() == TerminalState.BackIndex(old(State()))
    {
      hide Owns, Inv, CopyBlock, SetBlock, ClearBlock, MarkWrap;
      CursorFits();
      if cursorCol > 0 {
        TabToCol(cursorCol - 1);
      } else {
        var height := bottomMargin - topMargin;
        BlockCopy(0, topMargin, columns - 1, height, 1, topMargin);
        BlockSet(0, topMargin, 1, height, SPACE, Style(foreColor, backColor, 0));
      }
    }

    method ForwardIndex()
      requires Valid()
      modifies this, mainBuffer.Repr, altBuffer.Repr
      ensures Valid() && Grown() && State() == TerminalState.ForwardIndex(old(State()))
    {
      hide Owns, Inv, CopyBlock, SetBlock, ClearBlock, MarkWrap;
      CursorFits();
      if cursorCol < columns - 1 {
        TabToCol(cursorCol + 1);
      } else {
        var height := bottomMargin - topMargin;
        BlockCopy(1, topMargin, columns - 1, height, 0, topMargin);
        BlockSet(columns - 1, topMargin, 1, height, SPACE, Style(foreColor, backColor, 0));
      }
    }

    method InsertChars(n: nat)
      requires Valid()
      modifies this, mainBuffer.Repr, altBuffer.Repr
      ensures Valid() && Grown() && State() == TerminalState.InsertChars(old(State()), n)
    {
      hide Owns, Inv, CopyBlock, SetBlock, ClearBlock, MarkWrap;
      CursorFits();
      ForgetWrap();
      var columnsAfterCursor := columns - cursorCol;
      var spacesToInsert := Min(n, columnsAfterCursor);
      BlockCopy(cursorCol, cursorRow, columnsAfterCursor - spacesToInsert, 1, cursorCol + spacesToInsert, cursorRow);
      BlockClear(cursorCol, cursorRow, spacesToInsert, 1);
    }

    method EraseChars(n: nat)
      requires Valid()
      modifies this, mainBuffer.Repr, altBuffer.Repr
      ensures Valid() && Grown() && State() == TerminalState.EraseChars(old(State()), n)
    {
      hide Owns, Inv, ClearBlock;
      CursorFits();
      ForgetWrap();
      BlockClear(cursorCol, cursorRow, Min(n, columns - cursorCol), 1);
    }

    method DeleteChars(n: nat)
      requires Valid()
      modifies this, mainBuffer.Repr, altBuffer.Repr
      ensures Valid() && Grown() && State() == TerminalState.DeleteChars(old(State()), n)
    {
      hide Owns, Inv, CopyBlock, SetBlock, ClearBlock, MarkWrap;
      CursorFits();
      ForgetWrap();
      var cellsAfterCursor := columns - cursorCol;
      var cellsToDelete := Min(n, cellsAfterCursor);
      var cellsToMove := cellsAfterCursor - cellsToDelete;
      BlockCopy(cursorCol + cellsToDelete, cursorRow, cellsToMove, 1, cursorCol, cursorRow);
      BlockClear(cursorCol + cellsToMove, cursorRow, cellsToDelete, 1);
    }

    method InsertLines(n: nat)
      requires Valid()
      modifies this, mainBuffer.Repr, altBuffer.Repr
      ensures Valid() && Grown() && State() == TerminalState.InsertLines(old(State()), n)
    {
      hide Owns, Inv, CopyBlock, SetBlock, ClearBlock, MarkWrap;
      CursorFits();
      var linesAfterCursor := bottomMargin - cursorRow;
      var linesToInsert := Min(n, linesAfterCursor);
      BlockCopy(0, cursorRow, columns, linesAfterCursor - linesToInsert, 0, cursorRow + linesToInsert);
      BlockClear(0, cursorRow, columns, linesToInsert);
    }

    method DeleteLines(n: nat)
      requires Valid()
      modifies this, mainBuffer.Repr, altBuffer.Repr
      ensures Valid() && Grown() && State() == TerminalState.DeleteLines(old(State()), n)
    {
      hide Owns, Inv, CopyBlock, SetBlock, ClearBlock, MarkWrap;
      CursorFits();
      ForgetWrap();
      var linesAfterCursor := bottomMargin - cursorRow;
      var linesToDelete := Min(n, linesAfterCursor);
      var linesToMove := linesAfterCursor - linesToDelete;
      BlockCopy(0, cursorRow + linesToDelete, columns, linesToMove, 0, cursorRow);
      BlockClear(0, cursorRow + linesToMove, columns, linesToDelete);
    }

    method InsertColumns(n: nat)
      requires Valid()
      modifies this, mainBuffer.Repr, altBuffer.Repr
      ensures Valid() && Grown() && State() == TerminalState.InsertColumns(old(State()), n)
    {
      hide Owns, Inv, CopyBlock, SetBlock, ClearBlock, MarkWrap;
      CursorFits();
      var columnsAfterCursor := columns - cursorCol;
      var columnsToInsert := Min(n, columnsAfterCursor);
      BlockCopy(cursorCol, 0, columnsAfterCursor - columnsToInsert, rows, cursorCol + columnsToInsert, 0);
      BlockClear(cursorCol, 0, columnsToInsert, rows);
    }

    method ScrollRegionDown(n: nat)
      requires Valid()
      modifies this, mainBuffer.Repr, altBuffer.Repr
      ensures Valid() && Grown() && State() == TerminalState.ScrollRegionDown(old(State()), n)
    {
      hide Owns, Inv, CopyBlock, SetBlock, ClearBlock, MarkWrap;
      CursorFits();
      var region := bottomMargin - topMargin;
      var linesToScroll := Min(region, n);
      BlockCopy(0, topMargin, columns, region - linesToScroll, 0, topMargin + linesToScroll);
      BlockClear(0, topMargin, columns, linesToScroll);
    }

    method EraseInLine(mode: nat)
      requires Valid()
      modifies this, mainBuffer.Repr, altBuffer.Repr
      ensures Valid() && Grown() && State() == TerminalState.EraseInLine(old(State()), mode)
    {
      hide Owns, Inv, CopyBlock, SetBlock, ClearBlock, MarkWrap;
      CursorFits();
      match mode
      case 0 =>
        BlockClear(cursorCol, cursorRow, columns - cursorCol, 1);
        ForgetWrap();
      case 1 =>
        BlockClear(0, cursorRow, cursorCol + 1, 1);
        ForgetWrap();
      case 2 =>
        BlockClear(0, cursorRow, columns, 1);
        ForgetWrap();
      case _ =>
    }

    method ClearHistory()
      requires Valid()
      modifies this, mainBuffer.Repr, altBuffer.Repr
      ensures Valid() && Grown() && State() == WithoutHistory(old(State()))
    {
      hide Inv, TerminalBuffer.Valid, TerminalRing.ClearTranscript;
      MainFits();
      mainBuffer.ClearTranscript();
      assert State() == WithoutHistory(old(State()));
    }

    lemma MainFits()
      requires Valid()
      ensures TerminalRing.Valid(mainBuffer.ring) && mainBuffer.screenFirstRow < mainBuffer.totalRows
    {
    }

    method EraseBelow()
      requires Valid()
      modifies this, mainBuffer.Repr, altBuffer.Repr
      ensures Valid() && Grown() && State() == TerminalState.EraseInDisplay(old(State()), 0)
    {
      hide Owns, Inv, ClearBlock, WithoutHistory;
      CursorFits();
      BlockClear(cursorCol, cursorRow, columns - cursorCol, 1);
      BlockClear(0, cursorRow + 1, columns, rows - (cursorRow + 1));
      ForgetWrap();
    }

    method EraseAbove()
      requires Valid()
      modifies this, mainBuffer.Repr, altBuffer.Repr
      ensures Valid() && Grown() && State() == TerminalState.EraseInDisplay(old(State()), 1)
    {
      hide Owns, Inv, ClearBlock, WithoutHistory;
      CursorFits();
      BlockClear(0, 0, columns, cursorRow);
      BlockClear(0, cursorRow, cursorCol + 1, 1);
      ForgetWrap();
    }

    method EraseInDisplay(mode: nat)
      requires Valid()
      modifies this, mainBuffer.Repr, altBuffer.Repr
      ensures Valid() && Grown() && State() == TerminalState.EraseInDisplay(old(State()), mode)
    {
      hide Owns, Inv, ClearBlock, WithoutHistory;
      CursorFits();
      match mode
      case 0 => EraseBelow();
      case 1 => EraseAbove();
      case 2 =>
        BlockClear(0, 0, columns, rows);
        ForgetWrap();
      case 3 =>
        ClearHistory();
        ForgetWrap();
      case _ =>
    }

    method SetMargins(top: int, bottom: int)
      requires Valid()
      modifies this, mainBuffer.Repr, altBuffer.Repr
      ensures Valid() && Grown() && State() == TerminalState.SetMargins(old(State()), top, bottom)
    {
      hide Owns, Inv, CopyBlock, SetBlock, ClearBlock, MarkWrap;
      CursorFits();
      var newTop := Max(0, Min(top - 1, rows - 2));
      ChangeMargins(newTop, Max(newTop + 2, Min(bottom, rows)));
      SetCursorPosition(0, 0);
    }

    method ColumnMode()
      requires Valid()
      modifies this, mainBuffer.Repr, altBuffer.Repr
      ensures Valid() && Grown() && State() == TerminalState.ColumnMode(old(State()))
    {
      hide Owns, Inv, CopyBlock, SetBlock, ClearBlock, MarkWrap;
      CursorFits();
      ChangeMargins(0, rows);
      BlockClear(0, 0, columns, rows);
      SetCursorRowCol(0, 0);
    }

    method ScrollUp(n: nat)
      requires Valid()
      modifies this, mainBuffer.Repr, altBuffer.Repr
      ensures Valid() && Grown() && State() == ScrollLines(old(State()), n)
    {
      hide Owns, Inv, TerminalState.ScrollDownOneLine, Scroll, SameButRows;
      var i := 0;
      while i < n
        invariant 0 <= i <= n && Valid() && Grown() && State() == ScrollLines(old(State()), i)
      {
        ScrollDownOneLine();
        i := i + 1;
      }
    }

    method RepeatLast(n: nat)
      requires Valid()
      modifies this, mainBuffer.Repr, altBuffer.Repr
      ensures Valid() && Grown() && State() == Repeat(old(State()), n)
    {
      hide Owns, TerminalState.EmitCodePoint, ScreensOk;
      if lastEmitted.None? { return; }
      var i := 0;
      while i < n
        invariant 0 <= i <= n && Valid() && Grown() && State() == Repeat(old(State()), i)
      {
        if lastEmitted.Some? {
          EmitCodePoint(lastEmitted.value);
        }
        i := i + 1;
      }
    }

    // ----- Modes, saved cursor, reset -----

    method SaveCursor()
      requires Valid()
      modifies this
      ensures Valid() && State() == TerminalState.SaveCursor(old(State()))
    {
      hide Inv, TerminalBuffer.Valid;
      var saved := Saved(cursorRow, cursorCol, effect, foreColor, backColor, autowrap, originMode,
                         lineDrawingG0, lineDrawingG1, lineDrawingUsesG0);
      if screen == altBuffer {
        savedAlt := saved;
      } else {
        savedMain := saved;
      }
      assert State() == TerminalState.SaveCursor(old(State()));
    }

    method UseColors(fore: int, back: int, eff: int)
      requires Owns()
      modifies this
      ensures Owns() && State() == old(State()).(fore := fore, back := back, effect := eff)
    {
      hide TerminalBuffer.Valid;
      foreColor, backColor, effect := fore, back, eff;
    }

    method UseModes(wraps: bool, origin: bool)
      requires Owns()
      modifies this
      ensures Owns() && State() == old(State()).(autowrap := wraps, origin := origin)
    {
      hide TerminalBuffer.Valid;
      autowrap, originMode := wraps, origin;
    }

    method UseCharacterSets(g0: bool, g1: bool, useG0: bool)
      requires Owns()
      modifies this
      ensures Owns() && State() == old(State()).(g0 := g0, g1 := g1, useG0 := useG0)
    {
      hide TerminalBuffer.Valid;
      lineDrawingG0, lineDrawingG1, lineDrawingUsesG0 := g0, g1, useG0;
    }

    method PlaceCursor(row: int, col: int)
      requires Owns()
      modifies this
      ensures Owns() && State() == old(State()).(row := row, col := col, aboutToWrap := false)
    {
      hide TerminalBuffer.Valid;
      cursorRow, cursorCol, aboutToAutoWrap := row, col, false;
    }

    /** The cursor need not be on the screen before; it is afterwards. */
    method RestoreCursor()
      requires Owns() && 1 <= rows && 1 <= columns
      modifies this
      ensures Owns() && State() == TerminalState.RestoreCursor(old(State()))
    {
      hide Owns;
      var saved := if screen == altBuffer then savedAlt else savedMain;
      PlaceCursor(Max(0, Min(saved.row, rows - 1)), Max(0, Min(saved.col, columns - 1)));
      UseColors(saved.fore, saved.back, saved.effect);
      UseModes(saved.autowrap, saved.origin);
      UseCharacterSets(saved.g0, saved.g1, saved.useG0);
    }

    method DefaultModes()
      requires Owns()
      modifies this
      ensures Owns()
      ensures State() == old(State()).(insert := false, aboutToWrap := false, fore := 256, back := 257,
                                       autowrap := true, origin := false)
    {
      hide Owns;
      ChangeInsertMode(false);
      CancelWrap();
      UseColors(256, 257, effect);
      UseModes(true, false);
    }

    method CancelWrap()
      requires Owns()
      modifies this
      ensures Owns() && State() == old(State()).(aboutToWrap := false)
    {
      hide TerminalBuffer.Valid;
      aboutToAutoWrap := false;
    }

    method DefaultSaved()
      requires Owns()
      modifies this
      ensures Owns() && var t := old(State());
              State() == t.(savedMain := ZERO_SAVED.(g0 := t.savedMain.g0, g1 := t.savedMain.g1,
                                                     useG0 := t.savedMain.useG0),
                            savedAlt := ZERO_SAVED.(g0 := t.savedAlt.g0, g1 := t.savedAlt.g1,
                                                    useG0 := t.savedAlt.useG0))
    {
      hide TerminalBuffer.Valid;
      savedMain := ZERO_SAVED.(g0 := savedMain.g0, g1 := savedMain.g1, useG0 := savedMain.useG0);
      savedAlt := ZERO_SAVED.(g0 := savedAlt.g0, g1 := savedAlt.g1, useG0 := savedAlt.useG0);
    }

    method DefaultMargins()
      requires Owns()
      modifies this
      ensures Owns() && State() == old(State()).(top := 0, bottom := old(rows), tabs := DefaultTabStops(old(columns)))
    {
      hide TerminalBuffer.Valid;
      topMargin, bottomMargin := 0, rows;
      tabStop := DefaultTabStops(columns);
    }

    method SoftReset()
      requires Valid()
      modifies this
      ensures Valid() && State() == TerminalState.SoftReset(old(State()))
    {
      hide Inv, Owns;
      DefaultMargins();
      DefaultModes();
      UseCharacterSets(false, false, true);
      DefaultSaved();
      assert State() == TerminalState.SoftReset(old(State()));
    }

    method FullReset()
      requires Valid()
      modifies this, mainBuffer.Repr, altBuffer.Repr
      ensures Valid() && Grown() && State() == TerminalState.FullReset(old(State()))
    {
      hide Owns, Inv, WithoutHistory, ClearBlock, TerminalState.SetCursorPosition, TerminalState.SoftReset;
      ClearHistory();
      SetCursorPosition(0, 0);
      CursorFits();
      BlockClear(0, 0, columns, rows);
      SoftReset();
    }

    method ChangeTabs(stops: seq<bool>)
      requires Owns()
      modifies this
      ensures Owns() && State() == old(State()).(tabs := stops)
    {
      hide TerminalBuffer.Valid;
      tabStop := stops;
    }

    method ChangeInsertMode(b: bool)
      requires Owns()
      modifies this
      ensures Owns() && State() == old(State()).(insert := b)
    {
      hide TerminalBuffer.Valid;
      insertMode := b;
    }

    method ChangeCharacterSet(op: Op)
      requires Valid() && (op.ShiftOut? || op.ShiftIn? || op.DesignateG0? || op.DesignateG1?)
      modifies this
      ensures Valid() && State() == StepModes(old(State()), op)
    {
      hide Inv, Owns, TerminalState.SaveCursor, TerminalState.SoftReset, TerminalState.RestoreCursor;
      match op {
        case ShiftOut => UseCharacterSets(lineDrawingG0, lineDrawingG1, false);
        case ShiftIn => UseCharacterSets(lineDrawingG0, lineDrawingG1, true);
        case DesignateG0(b) => UseCharacterSets(b, lineDrawingG1, lineDrawingUsesG0);
        case DesignateG1(b) => UseCharacterSets(lineDrawingG0, b, lineDrawingUsesG0);
      }
      assert State() == StepModes(old(State()), op);
    }

    method ChangeTabStops(op: Op)
      requires Valid() && (op.HTS? || op.TBC?)
      modifies this
      ensures Valid() && State() == StepModes(old(State()), op)
    {
      hide Inv, Owns, TerminalState.SaveCursor, TerminalState.SoftReset, TerminalState.RestoreCursor;
      CursorFits();
      TabsFit();
      match op {
        case HTS => ChangeTabs(tabStop[cursorCol := true]);
        case TBC(mode) =>
          if mode == 0 {
            ChangeTabs(tabStop[cursorCol := false]);
          } else if mode == 3 {
            ChangeTabs(seq(columns, _ => false));
          }
      }
      assert State() == StepModes(old(State()), op);
    }

    /** The operations that set a field and nothing else. */
    lemma SimpleModes(t: Term, op: Op)
      requires Inv(t)
      ensures op.IRM? ==> StepModes(t, op) == t.(insert := op.set')
      ensures op.SGR? ==> StepModes(t, op) == t.(fore := op.fore, back := op.back, effect := op.effect)
      ensures op.DECAWM? ==> StepModes(t, op) == t.(autowrap := op.set')
    {
      hide Inv;
    }

    method ChangeAttributes(op: Op)
      requires Valid() && (op.IRM? || op.SGR? || op.DECAWM?)
      modifies this
      ensures Valid() && State() == StepModes(old(State()), op)
    {
      hide Inv, Owns, StepModes;
      SimpleModes(State(), op);
      if op.IRM? {
        ChangeInsertMode(op.set');
      } else if op.SGR? {
        UseColors(op.fore, op.back, op.effect);
      } else {
        UseModes(op.set', originMode);
      }
      assert State() == StepModes(old(State()), op);
    }

    method ChangeSaved(op: Op)
      requires Valid() && (op.DECSC? || op.DECRC? || op.DECSTR?)
      modifies this
      ensures Valid() && State() == StepModes(old(State()), op)
    {
      hide State, Inv, Owns, TerminalState.SaveCursor, TerminalState.SoftReset, TerminalState.RestoreCursor;
      CursorFits();
      Fields();
      match op {
        case DECSC => SaveCursor();
        case DECRC => RestoreCursor();
        case DECSTR => SoftReset();
      }
      assert State() == StepModes(old(State()), op);
    }

    lemma TabsFit()
      requires Valid()
      ensures |tabStop| == columns
    {
    }

    // ----- Screens -----

    method ResizeScreen()
      requires Owns()
      requires CanResize(State().Cur(), columns, rows, if State().onAlt then rows else |State().main.view|,
                         State().onAlt)
      modifies this, mainBuffer.Repr, altBuffer.Repr
      ensures Owns() && Grown() && State() == TerminalState.ResizeScreen(old(State()))
    {
      hide CanResize, TerminalResize.Resize;
      assert screen.ring == State().Cur();
      var newTotalRows := if screen == altBuffer then rows else mainBuffer.totalRows;
      cursorCol, cursorRow := screen.Resize(columns, rows, newTotalRows, cursorCol, cursorRow,
                                            Style(foreColor, backColor, effect), screen == altBuffer);
    }

    method SwitchTo(buffer: TerminalBuffer)
      requires Owns() && (buffer == mainBuffer || buffer == altBuffer)
      modifies this
      ensures Owns() && State() == old(State()).(onAlt := buffer == altBuffer)
    {
      hide TerminalBuffer.Valid;
      screen := buffer;
    }

    lemma BuffersFit()
      requires Owns()
      ensures mainBuffer.columns == mainBuffer.ring.cols && mainBuffer.screenRows == mainBuffer.ring.rows
      ensures altBuffer.columns == altBuffer.ring.cols && altBuffer.screenRows == altBuffer.ring.rows
      ensures mainBuffer != altBuffer
    {
    }

    /** Adapts the alternate screen to the size of the terminal. */
    method FitAlt()
      requires Owns() && AltUnfitted(State())
      modifies this, mainBuffer.Repr, altBuffer.Repr
      ensures Valid() && Grown() && State() == TerminalState.FitAlt(old(State()))
    {
      hide Owns, Inv, TerminalState.ResizeScreen, TerminalRing.Valid;
      BuffersFit();
      if !(altBuffer.columns == columns && altBuffer.screenRows == rows) {
        ResizeScreen();
      }
      assert State() == TerminalState.FitAlt(old(State()));
    }

    method EnterAlt()
      requires Valid()
      modifies this, mainBuffer.Repr, altBuffer.Repr
      ensures Valid() && Grown() && State() == TerminalState.EnterAlt(old(State()))
    {
      hide Owns, Inv, TerminalState.FitAlt, SetBlock, AltUnfitted;
      if screen == altBuffer { return; }
      ghost var t := State();
      UnfittedAlt(t);
      SaveCursor();
      SwitchTo(altBuffer);
      assert State() == t.(savedMain := Save(t), onAlt := true);
      FitAlt();
      CursorFits();
      BlockSet(0, 0, columns, rows, SPACE, Style(foreColor, backColor, effect));
    }

    method FitMain()
      requires Owns() && MainUnfitted(State())
      modifies this, mainBuffer.Repr, altBuffer.Repr
      ensures Valid() && Grown() && State() == TerminalState.FitMain(old(State()))
    {
      hide Owns, Inv, TerminalState.ResizeScreen, TerminalRing.Valid;
      ResizeScreen();
      assert State() == TerminalState.FitMain(old(State()));
    }

    method LeaveAlt()
      requires Valid()
      modifies this, mainBuffer.Repr, altBuffer.Repr
      ensures Valid() && Grown() && State() == TerminalState.LeaveAlt(old(State()))
    {
      hide Owns, Inv, TerminalState.RestoreCursor, TerminalState.FitMain, MainUnfitted;
      if screen != altBuffer { return; }
      ghost var t := State();
      BuffersFit();
      CursorFits();
      var resized := !(mainBuffer.columns == columns && mainBuffer.screenRows == rows);
      var col, row := savedMain.col, savedMain.row;
      SwitchTo(mainBuffer);
      RestoreCursor();
      if resized {
        MoveCursorTo(row, col);
        assert State() == BackToMain(t);
        FitMain();
      }
      assert State() == TerminalState.LeaveAlt(t);
    }

    method MoveCursorTo(row: int, col: int)
      requires Owns()
      modifies this
      ensures Owns() && State() == old(State()).(row := row, col := col)
    {
      hide TerminalBuffer.Valid;
      cursorRow, cursorCol := row, col;
    }

    method ChangeSize(newCols: nat, newRows: nat)
      requires Owns()
      modifies this
      ensures Owns() && State() == SizeChanged(old(State()), newCols, newRows)
    {
      hide TerminalBuffer.Valid;
      if rows != newRows {
        rows, topMargin, bottomMargin := newRows, 0, newRows;
      }
      if columns != newCols {
        columns := newCols;
        tabStop := ResizedTabs(tabStop, newCols);
      }
    }

    method Resize(newCols: nat, newRows: nat)
      requires Valid() && CanResizeTo(State(), newCols, newRows)
      modifies this, mainBuffer.Repr, altBuffer.Repr
      ensures Valid() && Grown() && State() == ResizeTerminal(old(State()), newCols, newRows)
    {
      hide Owns, Inv, TerminalState.ResizeScreen, SizeChanged;
      if rows == newRows && columns == newCols { return; }
      SizeChangedOk(State(), newCols, newRows);
      ChangeSize(newCols, newRows);
      ResizeScreen();
      assert State() == ResizeTerminal(old(State()), newCols, newRows);
    }

    // ----- One step -----

    method Tabulate(op: Op)
      requires Valid() && (op.HT? || op.CHT? || op.CBT?)
      modifies this
      ensures Valid() && State() == StepCursor(old(State()), op)
    {
      hide State, Valid, Inv, Owns, TabTo, TerminalState.SetCursorCol, NextTabStop, PreviousTabStop;
      CursorFits();
      Fields();
      match op
      case HT =>
        var col := FindNextTabStop(1);
        TabToCol(col);
      case CHT(n) =>
        var col := FindNextTabStop(n);
        SetCursorCol(col);
      case CBT(n) =>
        var col := FindPreviousTabStop(n);
        TabToCol(col);
    }

    method MoveToRowOf(op: Op)
      requires Valid() && (op.CUU? || op.CUD? || op.VPA?)
      modifies this
      ensures Valid() && State() == StepCursor(old(State()), op)
    {
      hide State, Valid, Inv, Owns, TerminalState.SetCursorRow;
      CursorFits();
      Fields();
      match op
      case CUU(n) => SetCursorRow(Max(0, cursorRow - n));
      case CUD(n) => SetCursorRow(Min(rows - 1, cursorRow + n));
      case VPA(n) => SetCursorRow(Min(Max(1, n), rows) - 1);
    }

    method MoveToColumnOf(op: Op)
      requires Valid() && (op.CR? || op.CUF? || op.CUB? || op.CHA?)
      modifies this
      ensures Valid() && State() == StepCursor(old(State()), op)
    {
      hide State, Valid, Inv, Owns, TerminalState.SetCursorCol;
      CursorFits();
      Fields();
      match op
      case CR => SetCursorCol(0);
      case CUF(n) => SetCursorCol(Min(columns - 1, cursorCol + n));
      case CUB(n) => SetCursorCol(Max(0, cursorCol - n));
      case CHA(n) => SetCursorCol(Min(Max(1, n), columns) - 1);
    }

    method MoveToPosition(op: Op)
      requires Valid() && (op.CNL? || op.CPL? || op.CUP?)
      modifies this
      ensures Valid() && State() == StepCursor(old(State()), op)
    {
      hide State, Valid, Inv, Owns, TerminalState.SetCursorPosition;
      CursorFits();
      Fields();
      match op
      case CNL(n) => SetCursorPosition(0, cursorRow + n);
      case CPL(n) => SetCursorPosition(0, cursorRow - n);
      case CUP(y, x) => SetCursorPosition(x - 1, y - 1);
    }

    method MoveKeeping(op: Op)
      requires Valid() && (op.HPA? || op.VPR?)
      modifies this
      ensures Valid() && State() == StepCursor(old(State()), op)
    {
      hide State, Valid, Inv, Owns, TerminalState.SetCursorPosition;
      CursorFits();
      Fields();
      match op
      case HPA(n) => SetCursorPosition(n - 1, cursorRow);
      case VPR(n) => SetCursorPosition(cursorCol, cursorRow + n);
    }

    method MoveHome(op: Op)
      requires Valid() && (op.LowerLeft? || op.DECSTBM? || op.DECOM?)
      modifies this, mainBuffer.Repr, altBuffer.Repr
      ensures Valid() && Grown() && State() == StepCursor(old(State()), op)
    {
      hide State, Valid, Inv, Owns, TerminalState.SetCursorPosition, TerminalState.SetCursorRowCol,
           TerminalState.SetMargins;
      CursorFits();
      Fields();
      match op
      case LowerLeft => SetCursorRowCol(0, bottomMargin - 1);
      case DECSTBM(y1, y2) => SetMargins(y1, y2);
      case DECOM(b) => ChangeOrigin(b);
    }

    method ChangeOrigin(b: bool)
      requires Valid()
      modifies this
      ensures Valid() && State() == StepCursor(old(State()), DECOM(b))
    {
      hide State, Valid, Inv, Owns, TerminalState.SetCursorPosition;
      UseOrigin(b);
      if b {
        SetCursorPosition(0, 0);
      }
    }

    method UseOrigin(b: bool)
      requires Valid()
      modifies this
      ensures Valid() && State() == old(State()).(origin := b)
    {
      hide Inv, TerminalBuffer.Valid;
      originMode := b;
      OriginSet(old(State()), b);
      assert State() == old(State()).(origin := b);
    }

    method WriteText(op: Op)
      requires Valid() && Legal(State(), op) && (op.Print? || op.REP? || op.BS? || op.DECALN?)
      modifies this, mainBuffer.Repr, altBuffer.Repr
      ensures Valid() && Grown() && State() == StepWrite(old(State()), op)
    {
      hide Inv, Owns, SetBlock, TerminalState.EmitCodePoint, Repeat, TerminalState.Backspace;
      CursorFits();
      match op
      case Print(g) => EmitCodePoint(g);
      case REP(n) => RepeatLast(n);
      case BS => Backspace();
      case DECALN => BlockSet(0, 0, columns, rows, 69, Style(foreColor, backColor, effect));
    }

    method IndexScreen(op: Op)
      requires Valid() && (op.LF? || op.NEL? || op.RI? || op.DECBI? || op.DECFI?)
      modifies this, mainBuffer.Repr, altBuffer.Repr
      ensures Valid() && Grown() && State() == StepIndex(old(State()), op)
    {
      hide State, Valid, Inv, Owns, TerminalState.DoLinefeed, TerminalState.SetCursorCol, TerminalState.ReverseIndex,
        TerminalState.BackIndex, TerminalState.ForwardIndex;
      CursorFits();
      match op
      case LF => DoLinefeed();
      case NEL =>
        SetCursorCol(0);
        DoLinefeed();
      case RI => ReverseIndex();
      case DECBI => BackIndex();
      case DECFI => ForwardIndex();
    }

    method EditLine(op: Op)
      requires Valid() && (op.ICH? || op.DCH? || op.ECH? || op.EL?)
      modifies this, mainBuffer.Repr, altBuffer.Repr
      ensures Valid() && Grown() && State() == StepLine(old(State()), op)
    {
      hide State, Valid, Inv, Owns, TerminalState.InsertChars, TerminalState.DeleteChars, TerminalState.EraseInLine,
        TerminalState.EraseChars;
      match op
      case ICH(n) => InsertChars(n);
      case DCH(n) => DeleteChars(n);
      case ECH(n) => EraseChars(n);
      case EL(mode) => EraseInLine(mode);
    }

    method EditScreen(op: Op)
      requires Valid() && (op.IL? || op.DL? || op.DECIC?)
      modifies this, mainBuffer.Repr, altBuffer.Repr
      ensures Valid() && Grown() && State() == StepLines(old(State()), op)
    {
      hide State, Valid, Inv, Owns, TerminalState.InsertLines, TerminalState.DeleteLines, TerminalState.InsertColumns;
      match op
      case IL(n) => InsertLines(n);
      case DL(n) => DeleteLines(n);
      case DECIC(n) => InsertColumns(n);
    }

    method ScrollOrErase(op: Op)
      requires Valid() && (op.SU? || op.SD? || op.ED?)
      modifies this, mainBuffer.Repr, altBuffer.Repr
      ensures Valid() && Grown() && State() == StepLines(old(State()), op)
    {
      hide State, Valid, Inv, Owns, ScrollLines, TerminalState.ScrollRegionDown, TerminalState.EraseInDisplay;
      match op
      case SU(n) => ScrollUp(n);
      case SD(n) => ScrollRegionDown(n);
      case ED(mode) => EraseInDisplay(mode);
    }

    method SwitchScreens(alternate: bool)
      requires Valid()
      modifies this, mainBuffer.Repr, altBuffer.Repr
      ensures Valid() && Grown() && State() == StepScreen(old(State()), AltScreen(alternate))
    {
      hide State, Valid, Inv, Owns, TerminalState.EnterAlt, TerminalState.LeaveAlt;
      if alternate {
        EnterAlt();
      } else {
        LeaveAlt();
      }
    }

    method ChangeWindow(newCols: nat, newRows: nat)
      requires Valid() && CanResizeTo(State(), newCols, newRows)
      modifies this, mainBuffer.Repr, altBuffer.Repr
      ensures Valid() && Grown() && State() == StepScreen(old(State()), WindowSize(newCols, newRows))
    {
      hide State, Valid, Inv, Owns, CanResizeTo, ResizeTerminal;
      Resize(newCols, newRows);
    }

    method ChangeScreen(op: Op)
      requires Valid() && Legal(State(), op) && (op.DECCOLM? || op.AltScreen? || op.RIS? || op.WindowSize?)
      modifies this, mainBuffer.Repr, altBuffer.Repr
      ensures Valid() && Grown() && State() == StepScreen(old(State()), op)
    {
      hide State, Valid, Inv, Owns, CanResizeTo, TerminalState.ColumnMode, TerminalState.FullReset,
           TerminalState.EnterAlt,
        TerminalState.LeaveAlt, ResizeTerminal;
      match op
      case DECCOLM => ColumnMode();
      case AltScreen(b) => SwitchScreens(b);
      case RIS => FullReset();
      case WindowSize(newCols, newRows) => ChangeWindow(newCols, newRows);
    }

    method ExecuteCursor(op: Op)
      requires Valid() && MovesCursor(op)
      modifies this, mainBuffer.Repr, altBuffer.Repr
      ensures Valid() && Grown() && State() == StepCursor(old(State()), op)
    {
      hide State, Valid, Inv, Owns, StepCursor;
      match op
      case HT | CHT(_) | CBT(_) => Tabulate(op);
      case CUU(_) | CUD(_) | VPA(_) => MoveToRowOf(op);
      case CR | CUF(_) | CUB(_) | CHA(_) => MoveToColumnOf(op);
      case CNL(_) | CPL(_) | CUP(_, _) => MoveToPosition(op);
      case HPA(_) | VPR(_) => MoveKeeping(op);
      case LowerLeft | DECSTBM(_, _) | DECOM(_) => MoveHome(op);
    }

    method ExecuteMode(op: Op)
      requires Valid() && ChangesMode(op)
      modifies this
      ensures Valid() && State() == StepModes(old(State()), op)
    {
      hide State, Valid, Inv, Owns, StepModes;
      match op
      case ShiftOut | ShiftIn | DesignateG0(_) | DesignateG1(_) => ChangeCharacterSet(op);
      case HTS | TBC(_) => ChangeTabStops(op);
      case IRM(_) | SGR(_, _, _) | DECAWM(_) => ChangeAttributes(op);
      case DECSC | DECRC | DECSTR => ChangeSaved(op);
    }

    method ExecuteRows(op: Op)
      requires Valid() && Legal(State(), op) && !MovesCursor(op) && !ChangesMode(op)
      modifies this, mainBuffer.Repr, altBuffer.Repr
      ensures Valid() && Grown() && State() == StepRows(old(State()), op)
    {
      hide State, Valid, Inv, Owns, StepWrite, StepIndex, StepLine, StepLines, StepScreen, Legal;
      if op.Print? || op.REP? || op.BS? || op.DECALN? {
        WriteText(op);
      } else if op.LF? || op.NEL? || op.RI? || op.DECBI? || op.DECFI? {
        IndexScreen(op);
      } else if op.ICH? || op.DCH? || op.ECH? || op.EL? {
        EditLine(op);
      } else if op.IL? || op.DL? || op.DECIC? {
        EditScreen(op);
      } else if op.SU? || op.SD? || op.ED? {
        ScrollOrErase(op);
      } else {
        ChangeScreen(op);
      }
    }

    /** Every operation does to the object what the state machine says. */
    method Execute(op: Op)
      requires Valid() && Legal(State(), op)
      modifies this, mainBuffer.Repr, altBuffer.Repr
      ensures Valid() && Grown() && State() == Step(old(State()), op)
    {
      hide State, Valid, Inv, Owns, StepCursor, StepModes, StepRows, Legal, MovesCursor, ChangesMode;
      if MovesCursor(op) {
        ExecuteCursor(op);
      } else if ChangesMode(op) {
        ExecuteMode(op);
      } else {
        ExecuteRows(op);
      }
    }
  }

  lemma LastSet(t: Term, g: Glyph)
    requires Inv(t) && ValidGlyph(g)
    ensures Inv(t.(last := Some(g)))
  {
    hide TerminalRing.Valid;
  }

  lemma UnfittedAlt(t: Term)
    requires Inv(t) && !t.onAlt
    ensures AltUnfitted(TerminalState.SaveCursor(t).(onAlt := true))
            && TerminalState.SaveCursor(t) == t.(savedMain := Save(t))
  {
    hide TerminalRing.Valid;
  }

  lemma OriginSet(t: Term, b: bool)
    requires Inv(t)
    ensures Inv(t.(origin := b))
  {
    hide TerminalRing.Valid;
  }
}
