/** What printing one character leaves on the screen, for every character and every state. */
module PrintEffects {
  import opened Wrappers
  import opened TerminalRows
  import opened TerminalRing
  import opened RowCopies
  import opened BlockCopies
  import opened TerminalState

  // ----- Cells -----

  /** The column to which a combining code point is added: that of the character it stands on. */
  function CombiningColumn(row: seq<Cell>, col: nat): int {
    if IsTail(row, col) then col - 1 else col
  }

  /** Cell i of a row after a code point of width w has been stored in a column. */
  function StoredCell(row: seq<Cell>, col: nat, codePoint: int, w: nat, pen: Style, i: nat): Cell
    requires col < |row| && i < |row|
  {
    if w == 0 then
      Cell(if i == CombiningColumn(row, col) then row[i].text + [codePoint] else row[i].text,
           if i == col then pen else row[i].style)
    else if i == col then Cell([codePoint] + (if w == 2 then Kept(row, col) else []), pen)
    else if i == col - 1 && IsTail(row, col) then BlankCell(pen)
    else if w == 2 && i == col + 1 then Cell([], if IsTail(row, col + 2) then pen else row[i].style)
    else if i == col + w && IsTail(row, col + w) then Cell([SPACE], row[i].style)
    else row[i]
  }

  lemma StoredAt(row: seq<Cell>, col: nat, g: Glyph, pen: Style, i: nat)
    requires WellFormed(row) && col < |row| && ValidGlyph(g) && (g.width == 2 ==> col + 1 < |row|) && i < |row|
    ensures Put(row, col, g, pen)[i] == StoredCell(row, col, g.codePoint, g.width, pen, i)
  {
    hide PutNarrow, PutWide;
    if g.width == 1 {
      PutNarrowAt(row, col, g.codePoint, pen, i);
      assert [g.codePoint] + [] == [g.codePoint];
    } else if g.width == 2 {
      PutWideAt(row, col, g.codePoint, pen, i);
    }
  }

  /** Cell i of a row whose part from a column on has moved w columns to the right. */
  function MovedCell(row: seq<Cell>, col: nat, w: nat, i: nat): Cell
    requires WellFormed(row) && col + w < |row| && i < |row| && 0 < w
  {
    var n := Columns(row, col, |row| - (col + w));
    Cell(CopiedText(row, row, col, col + w, n, i), ArrivedStyle(row, row, col, col + w, true, n, i))
  }

  /** The row before the character is stored: in insert mode it makes room. */
  function RoomFor(row: seq<Cell>, col: nat, w: nat, insert: bool): (r: seq<Cell>)
    requires WellFormed(row)
    ensures |r| == |row|
  {
    if insert && 0 < w && col + w < |row| then
      seq(|row|, i requires 0 <= i < |row| => MovedCell(row, col, w, i))
    else row
  }

  lemma RoomMade(row: seq<Cell>, col: nat, w: nat)
    requires WellFormed(row) && 0 < w && col + w < |row|
    ensures CopyInterval(row, row, col, col + (|row| - (col + w)), col + w, true) == RoomFor(row, col, w, true)
  {
    hide CopyInterval, CopiedText, ArrivedStyle;
    var n := |row| - (col + w);
    var a, b := CopyInterval(row, row, col, col + n, col + w, true), RoomFor(row, col, w, true);
    forall i | 0 <= i < |row| ensures a[i] == b[i] {
      CopyIntervalText(row, row, col, n, col + w, true, i);
      CopyIntervalStyle(row, row, col, n, col + w, true, i);
    }
  }

  // ----- Where the character goes -----

  /** A character for which there is no column left begins the next line. */
  predicate GoesToNextLine(t: Term, w: int) {
    t.autowrap && t.col == t.cols - 1 && (w == 2 || (w == 1 && t.aboutToWrap))
  }

  /** Without autowrap a double-width character is dropped in the last column. */
  predicate IsDropped(t: Term, w: int) {
    !t.autowrap && t.col == t.cols - 1 && w == 2
  }

  /** The column in which it is stored: a combining code point goes back to the character before the cursor. */
  function StoreColumn(t: Term, w: int): int {
    if w == 0 && t.col > 0 && !t.aboutToWrap then t.col - 1 else t.col
  }

  lemma DroppedCharacter(t: Term, g: Glyph)
    requires Inv(t) && ValidGlyph(g) && IsDropped(t, Translated(t, g).width)
    ensures EmitCodePoint(t, g) == t.(last := Some(g))
  {
    hide ScreensOk, Translated;
  }

  /** The ring with one row of the screen changed. */
  predicate OnlyRow(r: Ring, r': Ring, y: nat, cells: seq<Cell>) {
    && Valid(r) && y < r.rows && LineOk(Some(Line(cells, r.view[y].value.wrap)), r.cols)
    && r' == WithRow(r, y, Line(cells, r.view[y].value.wrap))
  }

  /** A copy within one row. */
  lemma OneRowCopied(r: Ring, sx: nat, y: nat, w: nat, dx: nat)
    requires Valid(r) && y < r.rows && sx + w <= r.cols && dx + w <= r.cols
    ensures OnlyRow(r, BlockCopy(r, sx, y, w, 1, dx, y), y,
                    CopyInterval(CellsAt(r, y), CellsAt(r, y), sx, sx + w, dx, true))
  {
    hide CopyInterval;
    if w == 0 {
      NothingToCopy(CellsAt(r, y), CellsAt(r, y), sx, dx, true);
    } else {
      assert CopyRows(r, sx, y, w, 1, dx, y, 0) == r;
      assert BlockCopy(r, sx, y, w, 1, dx, y) == CopyRow(r, sx, y, w, dx, y);
    }
  }

  lemma Parts(t: Term)
    requires Inv(t)
    ensures Valid(t.Cur()) && t.Cur().rows == t.rows && t.Cur().cols == t.cols && 2 <= t.cols && 2 <= t.rows
    ensures 0 <= t.row < t.rows && 0 <= t.col < t.cols
  {
  }

  lemma SameRow(r: Ring, y: nat)
    requires Valid(r) && y < r.rows
    ensures OnlyRow(r, r, y, CellsAt(r, y))
  {
  }

  lemma CopyBlockRing(t: Term, sx: int, sy: int, w: int, h: int, dx: int, dy: int)
    requires Inv(t) && 0 <= sx && 0 <= w && sx + w <= t.cols && 0 <= sy && 0 <= h && sy + h <= t.rows
    requires 0 <= dx && dx + w <= t.cols && 0 <= dy && dy + h <= t.rows
    ensures Valid(t.Cur()) && t.Cur().rows == t.rows && t.Cur().cols == t.cols
    ensures CopyBlock(t, sx, sy, w, h, dx, dy).Cur() == BlockCopy(t.Cur(), sx, sy, w, h, dx, dy)
  {
    hide BlockCopy, Valid;
  }

  lemma PutGlyphRing(t: Term, col: int, row: int, g: Glyph)
    requires Inv(t) && 0 <= row < t.rows && 0 <= col < t.cols && ValidGlyph(g) && (g.width == 2 ==> col + 1 < t.cols)
    ensures Valid(t.Cur()) && t.Cur().rows == t.rows && t.Cur().cols == t.cols
    ensures PutGlyph(t, col, row, g).Cur() == SetChar(t.Cur(), col, row, g, t.Pen())
  {
    hide SetChar, Valid;
  }

  /** The ring of a row in which room is made. */
  lemma RoomInRow(r: Ring, y: nat, col: nat, w: nat, insert: bool, r': Ring)
    requires Valid(r) && y < r.rows && col < r.cols
    requires r' == if insert && 0 < w && col + w < r.cols then
                     BlockCopy(r, col, y, r.cols - (col + w), 1, col + w, y)
                   else r
    ensures OnlyRow(r, r', y, RoomFor(CellsAt(r, y), col, w, insert))
  {
    hide OnlyRow, CellsAt, BlockCopy, RoomFor, Valid;
    CellsShape(r, y);
    if insert && 0 < w && col + w < r.cols {
      OneRowCopied(r, col, y, r.cols - (col + w), col + w);
      RoomMade(CellsAt(r, y), col, w);
    } else {
      SameRow(r, y);
      NoRoomNeeded(CellsAt(r, y), col, w, insert);
    }
  }

  /** Room is made in the row of the cursor, and nowhere else. */
  lemma RoomOnScreen(t: Term, g: Glyph)
    requires Inv(t) && ValidGlyph(g)
    ensures Valid(t.Cur()) && 0 <= t.row < t.Cur().rows && 0 <= t.col < t.cols == t.Cur().cols
    ensures OnlyRow(t.Cur(), MakeRoom(t, g).Cur(), t.row,
                    RoomFor(CellsAt(t.Cur(), t.row), t.col, g.width, t.insert))
  {
    hide Inv, OnlyRow, CellsAt, BlockCopy, RoomFor, Valid, CopyBlock, Redrawn;
    Parts(t);
    var w := g.width;
    if t.insert && w > 0 && t.col + w < t.cols {
      CopyBlockRing(t, t.col, t.row, t.cols - (t.col + w), 1, t.col + w, t.row);
    }
    RoomInRow(t.Cur(), t.row, t.col, w, t.insert, MakeRoom(t, g).Cur());
  }

  lemma CellsShape(r: Ring, y: nat)
    requires Valid(r) && y < r.rows
    ensures |CellsAt(r, y)| == r.cols && WellFormed(CellsAt(r, y))
  {
  }

  lemma NoRoomNeeded(row: seq<Cell>, col: nat, w: nat, insert: bool)
    requires WellFormed(row) && !(insert && 0 < w && col + w < |row|)
    ensures RoomFor(row, col, w, insert) == row
  {
  }

  // ----- One character -----

  /** A row in which a code point has been stored. */
  function StoredRow(row: seq<Cell>, col: nat, codePoint: int, w: nat, pen: Style): (r: seq<Cell>)
    requires col < |row|
    ensures |r| == |row| && forall i :: 0 <= i < |row| ==> r[i] == StoredCell(row, col, codePoint, w, pen, i)
  {
    seq(|row|, i requires 0 <= i < |row| => StoredCell(row, col, codePoint, w, pen, i))
  }

  lemma PutIsStoredRow(row: seq<Cell>, col: nat, g: Glyph, pen: Style)
    requires WellFormed(row) && col < |row| && ValidGlyph(g) && (g.width == 2 ==> col + 1 < |row|)
    ensures Put(row, col, g, pen) == StoredRow(row, col, g.codePoint, g.width, pen)
  {
    hide Put, StoredCell;
    forall i | 0 <= i < |row|
      ensures Put(row, col, g, pen)[i] == StoredRow(row, col, g.codePoint, g.width, pen)[i]
    {
      StoredAt(row, col, g, pen, i);
    }
  }

  lemma CharStored(r: Ring, col: nat, y: nat, g: Glyph, pen: Style)
    requires Valid(r) && y < r.rows && col < r.cols && ValidGlyph(g) && (g.width == 2 ==> col + 1 < r.cols)
    ensures OnlyRow(r, SetChar(r, col, y, g, pen), y, StoredRow(CellsAt(r, y), col, g.codePoint, g.width, pen))
  {
    hide StoredRow, Put;
    PutIsStoredRow(CellsAt(r, y), col, g, pen);
  }

  lemma OnlyRowTwice(r: Ring, r1: Ring, r2: Ring, y: nat, a: seq<Cell>, b: seq<Cell>)
    requires OnlyRow(r, r1, y, a) && OnlyRow(r1, r2, y, b)
    ensures OnlyRow(r, r2, y, b) && CellsAt(r1, y) == a
  {
    assert r.view[y := r1.view[y]][y := r2.view[y]] == r.view[y := r2.view[y]];
  }

  /** The cursor after a code point of width w; nothing but the screen has changed besides. */
  predicate CursorMoved(t: Term, t': Term, w: int) {
    && t' == t.(main := t'.main, alt := t'.alt, last := t'.last, aboutToWrap := t'.aboutToWrap, col := t'.col)
    && (if t.onAlt then t'.main == t.main else t'.alt == t.alt)
    && t'.col == (if t.col + w < t.cols then t.col + w else t.cols - 1)
    && t'.aboutToWrap == (if t.autowrap && w > 0 then t.col + w == t.cols else t.aboutToWrap)
  }

  lemma PutGlyphSame(t: Term, col: int, row: int, g: Glyph)
    requires Inv(t) && 0 <= row < t.rows && 0 <= col < t.cols && ValidGlyph(g) && (g.width == 2 ==> col + 1 < t.cols)
    ensures Inv(PutGlyph(t, col, row, g)) && SameButRows(t, PutGlyph(t, col, row, g))
  {
    hide Inv, Redrawn, SameButRows;
  }

  lemma Advanced(t: Term, t1: Term, w: int)
    requires Inv(t1) && 0 <= w && SameButRows(t, t1)
    ensures CursorMoved(t, Advance(t1, w), w) && Advance(t1, w).last == t.last && Advance(t1, w).Cur() == t1.Cur()
  {
    hide Inv, Advance, SameButRows;
    AdvancedHere(t1, w);
    SameFields(t, t1);
  }

  lemma AdvancedHere(t: Term, w: int)
    requires Inv(t) && 0 <= w
    ensures var t' := Advance(t, w);
            && t' == t.(aboutToWrap := t'.aboutToWrap, col := t'.col)
            && t'.col == (if t.col + w < t.cols then t.col + w else t.cols - 1)
            && t'.aboutToWrap == (if t.autowrap && w > 0 then t.col + w == t.cols else t.aboutToWrap)
  {
    hide Inv;
  }

  lemma SameFields(t: Term, t1: Term)
    requires SameButRows(t, t1)
    ensures t1 == t.(main := t1.main, alt := t1.alt) && (if t.onAlt then t1.main == t.main else t1.alt == t.alt)
  {
  }

  lemma WrittenCursor(t: Term, g: Glyph)
    requires Inv(t) && ValidGlyph(g) && (g.width == 2 ==> t.col + 1 < t.cols)
    ensures 0 <= StoreColumn(t, g.width) < t.cols && 0 <= t.row < t.rows
    ensures WriteGlyph(t, g).Cur() == PutGlyph(t, StoreColumn(t, g.width), t.row, g).Cur()
    ensures CursorMoved(t, WriteGlyph(t, g), g.width) && WriteGlyph(t, g).last == t.last
  {
    hide Inv, PutGlyph, Advance, CursorMoved, SameButRows;
    Parts(t);
    PutGlyphSame(t, StoreColumn(t, g.width), t.row, g);
    Advanced(t, PutGlyph(t, StoreColumn(t, g.width), t.row, g), g.width);
  }

  /** The row of the cursor after a character: first room is made, then it is stored. */
  function PrintedRow(row: seq<Cell>, col: nat, store: nat, g: Glyph, insert: bool, pen: Style): (r: seq<Cell>)
    requires WellFormed(row) && store < |row| && 0 <= g.width
    ensures |r| == |row|
  {
    StoredRow(RoomFor(row, col, g.width, insert), store, g.codePoint, g.width, pen)
  }

  lemma ShownIs(t: Term, g: Glyph)
    requires Inv(t) && ValidGlyph(g) && !GoesToNextLine(t, g.width) && !IsDropped(t, g.width)
    ensures Inv(MakeRoom(t, g)) && MakeRoom(t, g).col == t.col && MakeRoom(t, g).cols == t.cols
    ensures g.width == 2 ==> t.col + 1 < t.cols
    ensures Show(t, g) == WriteGlyph(MakeRoom(t, g), g)
  {
    hide Inv, MakeRoom, WriteGlyph, WrapLine;
    Parts(t);
    RoomCursor(t, g);
  }

  lemma ShownRow(t: Term, g: Glyph)
    requires Inv(t) && ValidGlyph(g) && !GoesToNextLine(t, g.width) && !IsDropped(t, g.width)
    ensures Valid(t.Cur()) && 0 <= t.row < t.Cur().rows && 0 <= t.col < t.cols == t.Cur().cols
    ensures 0 <= StoreColumn(t, g.width) < t.cols
    ensures OnlyRow(t.Cur(), Show(t, g).Cur(), t.row,
                    PrintedRow(CellsAt(t.Cur(), t.row), t.col, StoreColumn(t, g.width), g, t.insert, t.Pen()))
  {
    hide Inv, OnlyRow, StoredRow, RoomFor, Valid, MakeRoom, WriteGlyph, CellsAt, SetChar, PutGlyph, Show;
    Parts(t);
    CellsShape(t.Cur(), t.row);
    RoomOnScreen(t, g);
    RoomCursor(t, g);
    ShownIs(t, g);
    var t1 := MakeRoom(t, g);
    WrittenCursor(t1, g);
    var col, room := StoreColumn(t, g.width), RoomFor(CellsAt(t.Cur(), t.row), t.col, g.width, t.insert);
    PutGlyphRing(t1, col, t.row, g);
    CharStored(t1.Cur(), col, t.row, g, t.Pen());
    OnlyRowTwice(t.Cur(), t1.Cur(), Show(t, g).Cur(), t.row, room,
                 StoredRow(CellsAt(t1.Cur(), t.row), col, g.codePoint, g.width, t.Pen()));
  }

  lemma ShownCursor(t: Term, g: Glyph)
    requires Inv(t) && ValidGlyph(g) && !GoesToNextLine(t, g.width) && !IsDropped(t, g.width)
    ensures CursorMoved(t, Show(t, g), g.width) && Show(t, g).last == t.last
  {
    hide Inv, MakeRoom, WriteGlyph, Show;
    RoomCursor(t, g);
    ShownIs(t, g);
    WrittenCursor(MakeRoom(t, g), g);
  }

  lemma RoomCursor(t: Term, g: Glyph)
    requires Inv(t) && ValidGlyph(g)
    ensures var t1 := MakeRoom(t, g);
            && Inv(t1) && t1 == t.(main := t1.main, alt := t1.alt)
            && (if t.onAlt then t1.main == t.main else t1.alt == t.alt)
  {
    hide ScreensOk, CopyBlock;
  }

  lemma LastKept(t: Term, g: Glyph)
    requires Inv(t) && ValidGlyph(g)
    ensures Inv(t.(last := Some(g))) && t.(last := Some(g)).Cur() == t.Cur()
  {
    hide ScreensOk;
    assert ScreensOk(t.(last := Some(g))) by { SameScreens(t, t.(last := Some(g))); }
  }

  lemma SameScreens(t: Term, t': Term)
    requires ScreensOk(t) && t' == t.(last := t'.last)
    ensures ScreensOk(t')
  {
    hide Valid;
  }

  /**
    A character for which there is room, or a combining code point: the row of the cursor, cell by cell, and where the
    cursor goes.  No other row changes, and nothing else does.
   */
  lemma PrintedHere(t: Term, glyph: Glyph)
    requires Inv(t) && ValidGlyph(glyph)
    requires var g := Translated(t, glyph); !GoesToNextLine(t, g.width) && !IsDropped(t, g.width)
    ensures Valid(t.Cur()) && 0 <= t.row < t.Cur().rows && 0 <= t.col < t.cols == t.Cur().cols
    ensures 0 <= StoreColumn(t, Translated(t, glyph).width) < t.cols
    ensures var t', g := EmitCodePoint(t, glyph), Translated(t, glyph);
            && OnlyRow(t.Cur(), t'.Cur(), t.row, PrintedRow(CellsAt(t.Cur(), t.row), t.col, StoreColumn(t, g.width), g,
                                                            t.insert, t.Pen()))
            && CursorMoved(t, t', g.width) && t'.last == Some(glyph)
  {
    hide Inv, OnlyRow, PrintedRow, Valid, Show, Translated, CellsAt;
    var t0, g := t.(last := Some(glyph)), Translated(t, glyph);
    LastKept(t, glyph);
    ShownRow(t0, g);
    ShownCursor(t0, g);
  }

  // ----- The next line -----

  /** The cursor goes to the beginning of the next line, and the line it leaves counts as wrapped. */
  function Continued(t: Term): (t': Term)
    requires Inv(t)
    ensures Inv(t')
  {
    hide Inv, WrapLine;
    NoWrap(WrapLine(t))
  }

  lemma PendingDoesNotMatter(t: Term, g: Glyph)
    requires Inv(t) && ValidGlyph(g) && 0 < g.width && t.autowrap && (g.width == 2 ==> t.col + 1 < t.cols)
    ensures Inv(NoWrap(t)) && WriteGlyph(NoWrap(t), g) == WriteGlyph(t, g)
  {
    hide ScreensOk, SetChar;
  }

  lemma RoomWithoutPending(t: Term, g: Glyph)
    requires Inv(t) && ValidGlyph(g)
    ensures Inv(NoWrap(t)) && MakeRoom(NoWrap(t), g) == NoWrap(MakeRoom(t, g))
  {
    hide ScreensOk, BlockCopy;
  }

  /** The ring after going to the next line. */
  function NextLineRing(r: Ring, row: nat, top: nat, bottom: nat, pen: Style): Ring
    requires Valid(r) && row < r.rows && top < bottom <= r.rows
  {
    var r1 := SetLineWrap(r, row, true);
    if row + 1 < bottom then r1 else Scroll(r1, top, bottom, pen)
  }

  /** At the beginning of the next line, with a changed ring. */
  predicate AtNextLine(t: Term, t': Term) {
    && t' == t.(main := t'.main, alt := t'.alt, row := t'.row, col := 0)
    && (if t.onAlt then t'.main == t.main else t'.alt == t.alt)
    && t'.row == (if t.row + 1 < t.bottom then t.row + 1 else t.row)
  }

  lemma MarkOnMain(t: Term)
    requires Inv(t) && !t.onAlt
    ensures Valid(t.main) && 0 <= t.row < t.rows == t.main.rows && t.main.cols == t.cols
    ensures MarkWrap(t, t.row, true) == t.(main := SetLineWrap(t.main, t.row, true))
  {
    hide SetLineWrap, Valid, Local, SameButRows;
  }

  lemma ScrollOnMain(t: Term)
    requires Inv(t) && !t.onAlt
    ensures Valid(t.main) && 0 <= t.top < t.bottom <= t.rows == t.main.rows
    ensures TerminalState.ScrollDownOneLine(t) == t.(main := Scroll(t.main, t.top, t.bottom, t.Pen()))
  {
    hide Scroll, Valid, Local, SameButRows;
  }

  lemma WrapDownOnMain(t: Term)
    requires Inv(t) && !t.onAlt && t.row + 1 < t.bottom
    ensures Valid(t.main) && 0 <= t.row < t.rows == t.main.rows
    ensures WrapLine(t) == t.(main := SetLineWrap(t.main, t.row, true), row := t.row + 1, col := 0)
    ensures WrapLine(t).Cur() == SetLineWrap(t.main, t.row, true) && AtNextLine(t, WrapLine(t))
  {
    hide Inv, Local, SetLineWrap, Scroll, Valid, MarkWrap, TerminalState.ScrollDownOneLine;
    MarkOnMain(t);
  }

  lemma WrapUpOnMain(t: Term)
    requires Inv(t) && !t.onAlt && t.bottom <= t.row + 1
    ensures Valid(t.main) && 0 <= t.row < t.rows == t.main.rows && 0 <= t.top < t.bottom <= t.main.rows
    ensures WrapLine(t) == t.(main := Scroll(SetLineWrap(t.main, t.row, true), t.top, t.bottom, t.Pen()), col := 0)
    ensures WrapLine(t).Cur() == Scroll(SetLineWrap(t.main, t.row, true), t.top, t.bottom, t.Pen())
    ensures AtNextLine(t, WrapLine(t))
  {
    hide Inv, Local, SetLineWrap, Scroll, Valid, MarkWrap, TerminalState.ScrollDownOneLine;
    MarkOnMain(t);
    MarginParts(t);
    Wrapping(t);
    var t1 := t.(main := SetLineWrap(t.main, t.row, true), col := 0);
    assert TabTo(MarkWrap(t, t.row, true), 0) == t1;
    ScrollOnMain(t1);
  }

  lemma MarkOnAlt(t: Term)
    requires Inv(t) && t.onAlt
    ensures Valid(t.alt) && 0 <= t.row < t.rows == t.alt.rows && t.alt.cols == t.cols
    ensures MarkWrap(t, t.row, true) == t.(alt := SetLineWrap(t.alt, t.row, true))
  {
    hide SetLineWrap, Valid, Local, SameButRows;
  }

  lemma ScrollOnAlt(t: Term)
    requires Inv(t) && t.onAlt
    ensures Valid(t.alt) && 0 <= t.top < t.bottom <= t.rows == t.alt.rows
    ensures TerminalState.ScrollDownOneLine(t) == t.(alt := Scroll(t.alt, t.top, t.bottom, t.Pen()))
  {
    hide Scroll, Valid, Local, SameButRows;
  }

  lemma WrapDownOnAlt(t: Term)
    requires Inv(t) && t.onAlt && t.row + 1 < t.bottom
    ensures Valid(t.alt) && 0 <= t.row < t.rows == t.alt.rows
    ensures WrapLine(t) == t.(alt := SetLineWrap(t.alt, t.row, true), row := t.row + 1, col := 0)
    ensures WrapLine(t).Cur() == SetLineWrap(t.alt, t.row, true) && AtNextLine(t, WrapLine(t))
  {
    hide Inv, Local, SetLineWrap, Scroll, Valid, MarkWrap, TerminalState.ScrollDownOneLine;
    MarkOnAlt(t);
  }

  lemma WrapUpOnAlt(t: Term)
    requires Inv(t) && t.onAlt && t.bottom <= t.row + 1
    ensures Valid(t.alt) && 0 <= t.row < t.rows == t.alt.rows && 0 <= t.top < t.bottom <= t.alt.rows
    ensures WrapLine(t) == t.(alt := Scroll(SetLineWrap(t.alt, t.row, true), t.top, t.bottom, t.Pen()), col := 0)
    ensures WrapLine(t).Cur() == Scroll(SetLineWrap(t.alt, t.row, true), t.top, t.bottom, t.Pen())
    ensures AtNextLine(t, WrapLine(t))
  {
    hide Inv, Local, SetLineWrap, Scroll, Valid, MarkWrap, TerminalState.ScrollDownOneLine;
    MarkOnAlt(t);
    MarginParts(t);
    Wrapping(t);
    var t1 := t.(alt := SetLineWrap(t.alt, t.row, true), col := 0);
    assert TabTo(MarkWrap(t, t.row, true), 0) == t1;
    ScrollOnAlt(t1);
  }

  lemma Wrapping(t: Term)
    requires Inv(t)
    ensures 0 <= t.row < t.rows && Inv(TabTo(MarkWrap(t, t.row, true), 0))
  {
    hide ScreensOk, MarkWrap;
  }

  lemma WrapLineIs(t: Term, r: Ring)
    requires Inv(t) && r == t.Cur()
    ensures Valid(r) && 0 <= t.row < t.rows == r.rows && 0 <= t.top < t.bottom <= r.rows
    ensures WrapLine(t).Cur() == NextLineRing(r, t.row, t.top, t.bottom, t.Pen()) && AtNextLine(t, WrapLine(t))
  {
    hide Inv, WrapLine, SetLineWrap, Scroll, Valid, AtNextLine;
    Parts(t);
    MarginParts(t);
    if t.row + 1 < t.bottom {
      if t.onAlt {
        WrapDownOnAlt(t);
      } else {
        WrapDownOnMain(t);
      }
    } else {
      if t.onAlt {
        WrapUpOnAlt(t);
      } else {
        WrapUpOnMain(t);
      }
    }
  }

  lemma LastDownOnMain(t: Term, g: Glyph)
    requires Inv(t) && ValidGlyph(g) && !t.onAlt && t.row + 1 < t.bottom
    ensures var t0 := t.(last := Some(g)); Inv(t0) && NoWrap(WrapLine(t0)) == NoWrap(WrapLine(t)).(last := Some(g))
  {
    hide Inv, Local, WrapLine, SetLineWrap, Scroll, Valid, AtNextLine;
    LastKept(t, g);
    WrapDownOnMain(t);
    WrapDownOnMain(t.(last := Some(g)));
  }

  lemma LastDownOnAlt(t: Term, g: Glyph)
    requires Inv(t) && ValidGlyph(g) && t.onAlt && t.row + 1 < t.bottom
    ensures var t0 := t.(last := Some(g)); Inv(t0) && NoWrap(WrapLine(t0)) == NoWrap(WrapLine(t)).(last := Some(g))
  {
    hide Inv, Local, WrapLine, SetLineWrap, Scroll, Valid, AtNextLine;
    LastKept(t, g);
    WrapDownOnAlt(t);
    WrapDownOnAlt(t.(last := Some(g)));
  }

  lemma LastUpOnMain(t: Term, g: Glyph)
    requires Inv(t) && ValidGlyph(g) && !t.onAlt && t.bottom <= t.row + 1
    ensures var t0 := t.(last := Some(g)); Inv(t0) && NoWrap(WrapLine(t0)) == NoWrap(WrapLine(t)).(last := Some(g))
  {
    hide Inv, Local, WrapLine, SetLineWrap, Scroll, Valid, AtNextLine;
    LastKept(t, g);
    WrapUpOnMain(t);
    WrapUpOnMain(t.(last := Some(g)));
  }

  lemma LastUpOnAlt(t: Term, g: Glyph)
    requires Inv(t) && ValidGlyph(g) && t.onAlt && t.bottom <= t.row + 1
    ensures var t0 := t.(last := Some(g)); Inv(t0) && NoWrap(WrapLine(t0)) == NoWrap(WrapLine(t)).(last := Some(g))
  {
    hide Inv, Local, WrapLine, SetLineWrap, Scroll, Valid, AtNextLine;
    LastKept(t, g);
    WrapUpOnAlt(t);
    WrapUpOnAlt(t.(last := Some(g)));
  }

  lemma WrapWithLast(t: Term, g: Glyph)
    requires Inv(t) && ValidGlyph(g)
    ensures var t0 := t.(last := Some(g)); Inv(t0) && NoWrap(WrapLine(t0)) == NoWrap(WrapLine(t)).(last := Some(g))
  {
    hide Inv, Local, WrapLine, NoWrap;
    if t.row + 1 < t.bottom {
      if t.onAlt {
        LastDownOnAlt(t, g);
      } else {
        LastDownOnMain(t, g);
      }
    } else {
      if t.onAlt {
        LastUpOnAlt(t, g);
      } else {
        LastUpOnMain(t, g);
      }
    }
  }

  lemma ContinuedModes(t: Term)
    requires Inv(t)
    ensures var t' := Continued(t);
            && t'.g0 == t.g0 && t'.g1 == t.g1 && t'.useG0 == t.useG0 && t'.autowrap == t.autowrap && t'.cols == t.cols
            && t'.col == 0
  {
    hide Inv, Local, WrapLine, NextLineRing, Valid;
    WrapLineIs(t, t.Cur());
  }

  /** A character that does not fit is printed at the beginning of the next line. */
  lemma PrintedOnNextLine(t: Term, glyph: Glyph)
    requires Inv(t) && ValidGlyph(glyph) && GoesToNextLine(t, Translated(t, glyph).width)
    ensures EmitCodePoint(t, glyph) == EmitCodePoint(Continued(t), glyph)
    ensures Translated(Continued(t), glyph) == Translated(t, glyph)
    ensures var w := Translated(t, glyph).width; !GoesToNextLine(Continued(t), w) && !IsDropped(Continued(t), w)
  {
    hide Inv, WrapLine, MakeRoom, WriteGlyph, LineDrawing, NoWrap, Show;
    Parts(t);
    ContinuedModes(t);
    WrapWithLast(t, glyph);
    ShownOnNextLine(t.(last := Some(glyph)), Translated(t, glyph));
  }

  lemma ShownOnNextLine(t: Term, g: Glyph)
    requires Inv(t) && ValidGlyph(g) && GoesToNextLine(t, g.width)
    ensures Inv(NoWrap(WrapLine(t))) && Show(t, g) == Show(NoWrap(WrapLine(t)), g)
  {
    hide Inv, WrapLine, MakeRoom, WriteGlyph, NoWrap;
    Parts(t);
    ContinuedModes(t);
    var u := WrapLine(t);
    Parts(u);
    UnwrapSame(u);
    RoomWithoutPending(u, g);
    RoomCursor(u, g);
    PendingDoesNotMatter(MakeRoom(u, g), g);
  }

  lemma UnwrapSame(t: Term)
    requires Inv(t)
    ensures Inv(NoWrap(t)) && NoWrap(t).col == t.col && NoWrap(t).cols == t.cols && NoWrap(t).autowrap == t.autowrap
  {
    hide ScreensOk;
  }

  lemma MarginParts(t: Term)
    requires Inv(t)
    ensures 0 <= t.top < t.bottom <= t.rows
  {
  }

  /** The screen after going to the next line: the region has been scrolled if there was no row below in it. */
  predicate NextLineScreen(s: seq<Line>, s': seq<Line>, row: nat, top: nat, bottom: nat, blank: seq<Cell>)
    requires row < |s| && top < bottom <= |s|
  {
    var marked := s[row := s[row].(wrap := true)];
    if row + 1 < bottom then s' == marked
    else
      && |s'| == |s| && s'[bottom - 1].cells == blank
      && forall y :: 0 <= y < |s| && y != bottom - 1 ==>
          s'[y] == if top <= y < bottom - 1 then marked[y + 1] else marked[y]
  }

  lemma NextLineOnScreen(r: Ring, row: nat, top: nat, bottom: nat, pen: Style)
    requires Valid(r) && row < r.rows && top < bottom <= r.rows
    ensures var r' := NextLineRing(r, row, top, bottom, pen);
            Valid(r') && NextLineScreen(Screen(r), Screen(r'), row, top, bottom, BlankCells(r.cols, pen))
  {
    hide Scroll, SetLineWrap, Screen;
    var r1 := SetLineWrap(r, row, true);
    FlagOnScreen(r, row);
    if row + 1 >= bottom {
      ScrollScreen(r1, top, bottom, pen);
    }
  }

  lemma FlagOnScreen(r: Ring, y: nat)
    requires Valid(r) && y < r.rows
    ensures Screen(SetLineWrap(r, y, true)) == Screen(r)[y := Screen(r)[y].(wrap := true)]
    ensures SetLineWrap(r, y, true).cols == r.cols && SetLineWrap(r, y, true).rows == r.rows
  {
  }

  /** Where the cursor is then, and what the screen shows. */
  lemma ContinuedLines(t: Term, r: Ring, t': Term, r': Ring)
    requires Inv(t) && r == t.Cur() && t' == Continued(t) && r' == t'.Cur()
    ensures Valid(r) && Valid(r') && 0 <= t.row < r.rows && 0 <= t.top < t.bottom <= r.rows
    ensures NextLineScreen(Screen(r), Screen(r'), t.row, t.top, t.bottom, BlankCells(t.cols, t.Pen()))
    ensures t'.row == (if t.row + 1 < t.bottom then t.row + 1 else t.row) && t'.col == 0 && !t'.aboutToWrap
  {
    hide Inv, Local, NextLineRing, WrapLine, Valid, NextLineScreen;
    Parts(t);
    WrapLineIs(t, r);
    NextLineOnScreen(r, t.row, t.top, t.bottom, t.Pen());
  }
}
