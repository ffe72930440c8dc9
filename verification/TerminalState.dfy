/**
  The terminal emulator as a state machine over values (TerminalEmulator.java), with left and right margins off.
  The functions are the specification of the methods of the class TerminalEmulator.
 */
module TerminalState {
  import opened Wrappers
  import opened Basics
  import opened TerminalRows
  import opened TerminalRing
  import opened TerminalResize

  /** What DECSC saves. */
  datatype Saved = Saved(row: int, col: int, effect: int, fore: int, back: int, autowrap: bool, origin: bool,
                         g0: bool, g1: bool, useG0: bool)

  datatype Term = Term(
    rows: nat, cols: nat, main: Ring, alt: Ring, onAlt: bool,
    row: int, col: int, top: int, bottom: int,
    aboutToWrap: bool, autowrap: bool, origin: bool, insert: bool,
    fore: int, back: int, effect: int, g0: bool, g1: bool, useG0: bool,
    savedMain: Saved, savedAlt: Saved, tabs: seq<bool>, last: Option<Glyph>)
  {
    function Cur(): Ring { if onAlt then alt else main }
    function Pen(): Style { Style(fore, back, effect) }
  }

  predicate ScreensOk(t: Term) {
    && Valid(t.main) && Valid(t.alt)
    && t.alt.rows == |t.alt.view| && t.rows <= |t.main.view| && t.main.first < |t.main.view|
    && t.Cur().rows == t.rows && t.Cur().cols == t.cols
  }

  /** Only the rows of the active screen differ. */
  predicate SameButRows(t: Term, t': Term) {
    t' == if t.onAlt then t.(alt := t'.alt) else t.(main := t'.main)
  }

  /** The sizes stay, and on the alternate screen the main screen and what was saved for it stay. */
  predicate Local(t: Term, t': Term) {
    && t'.onAlt == t.onAlt && t'.rows == t.rows && t'.cols == t.cols
    && (t.onAlt ==> t'.main == t.main && t'.savedMain == t.savedMain)
  }

  predicate MarginsOk(t: Term) {
    0 <= t.top <= t.rows - 2 && t.top + 2 <= t.bottom <= t.rows
  }

  predicate CursorOk(t: Term) {
    0 <= t.row < t.rows && 0 <= t.col < t.cols
  }

  /** The invariant of every run; the position saved on entering the alternate screen stays on the main screen. */
  predicate Inv(t: Term) {
    && 2 <= t.rows && 2 <= t.cols && ScreensOk(t) && MarginsOk(t) && CursorOk(t)
    && |t.tabs| == t.cols && (t.last.Some? ==> ValidGlyph(t.last.value))
    && (t.onAlt ==> 0 <= t.savedMain.row < t.main.rows && 0 <= t.savedMain.col < t.main.cols)
  }

  // ----- Cursor -----

  function SetCursorRow(t: Term, row: int): (t': Term)
    ensures Inv(t) && 0 <= row < t.rows ==> Inv(t')
    ensures Local(t, t')
  {
    t.(row := row, aboutToWrap := false)
  }

  function SetCursorCol(t: Term, col: int): (t': Term)
    ensures Inv(t) && 0 <= col < t.cols ==> Inv(t')
    ensures Local(t, t')
  {
    t.(col := col, aboutToWrap := false)
  }

  function NoWrap(t: Term): (t': Term)
    ensures Inv(t) ==> Inv(t')
    ensures Local(t, t')
  {
    t.(aboutToWrap := false)
  }

  function WithMargins(t: Term, top: int, bottom: int): (t': Term)
    ensures Inv(t) && 0 <= top <= t.rows - 2 && top + 2 <= bottom <= t.rows ==> Inv(t')
    ensures Local(t, t')
  {
    t.(top := top, bottom := bottom)
  }

  /** A tabulation does not end the wait for the next character to wrap. */
  function TabTo(t: Term, col: int): (t': Term)
    ensures Inv(t) && 0 <= col < t.cols ==> Inv(t')
    ensures Local(t, t') && t'.col == col
  {
    t.(col := col)
  }

  function RowTo(t: Term, row: int): (t': Term)
    ensures Inv(t) && 0 <= row < t.rows ==> Inv(t')
    ensures Local(t, t') && t'.col == t.col
  {
    t.(row := row)
  }

  function SetCursorRowCol(t: Term, row: int, col: int): (t': Term)
    ensures 1 <= t.rows && 1 <= t.cols ==> CursorOk(t')
    ensures Inv(t) ==> Inv(t')
    ensures Local(t, t')
  {
    t.(row := Max(0, Min(row, t.rows - 1)), col := Max(0, Min(col, t.cols - 1)), aboutToWrap := false)
  }

  /** In origin mode positions count from the top margin and stay within the margins. */
  function SetCursorPosition(t: Term, x: int, y: int): (t': Term)
    ensures 1 <= t.rows && 1 <= t.cols ==> CursorOk(t')
    ensures Inv(t) ==> Inv(t')
    ensures Local(t, t')
  {
    var effectiveTop := if t.origin then t.top else 0;
    var effectiveBottom := if t.origin then t.bottom else t.rows;
    SetCursorRowCol(t, Max(effectiveTop, Min(effectiveTop + y, effectiveBottom - 1)), Max(0, Min(x, t.cols - 1)))
  }

  function NextTabStop(t: Term, from: int, n: int): (c: int)
    requires Inv(t) && 0 <= from
    ensures 0 <= c < t.cols
    decreases t.cols - from
  {
    if from >= t.cols then t.cols - 1
    else if t.tabs[from] then (if n - 1 == 0 then from else NextTabStop(t, from + 1, n - 1))
    else NextTabStop(t, from + 1, n)
  }

  function PreviousTabStop(t: Term, from: int, n: int): (c: int)
    requires Inv(t) && from < t.cols
    ensures 0 <= c < t.cols
    decreases from + 1
  {
    if from < 0 then 0
    else if t.tabs[from] then (if n - 1 == 0 then from else PreviousTabStop(t, from - 1, n - 1))
    else PreviousTabStop(t, from - 1, n)
  }

  function DefaultTabStops(cols: nat): (s: seq<bool>)
    ensures |s| == cols
  {
    seq(cols, i => i % 8 == 0 && i != 0)
  }

  // ----- Writing -----

  /** The ring of the active screen is replaced. */
  function Redrawn(t: Term, r: Ring): (t': Term)
    requires Inv(t) && Valid(r) && |r.view| == |t.Cur().view| && r.rows == t.rows && r.cols == t.cols
    requires t.Cur().first < |r.view| ==> r.first < |r.view|
    ensures Inv(t') && t'.Cur() == r && SameButRows(t, t') && Local(t, t')
  {
    if t.onAlt then t.(alt := r) else t.(main := r)
  }

  function MarkWrap(t: Term, row: int, wrap: bool): (t': Term)
    requires Inv(t) && 0 <= row < t.rows
    ensures Inv(t') && SameButRows(t, t') && Local(t, t')
  {
    Redrawn(t, SetLineWrap(t.Cur(), row, wrap))
  }

  function PutGlyph(t: Term, col: int, row: int, g: Glyph): (t': Term)
    requires Inv(t) && 0 <= row < t.rows && 0 <= col < t.cols && ValidGlyph(g) && (g.width == 2 ==> col + 1 < t.cols)
    ensures Inv(t') && SameButRows(t, t') && Local(t, t')
  {
    hide SetChar;
    Redrawn(t, SetChar(t.Cur(), col, row, g, t.Pen()))
  }

  function SetBlock(t: Term, sx: int, sy: int, w: int, h: int, codePoint: int, style: Style): (t': Term)
    requires Inv(t) && 0 <= sx && sx + w <= t.cols && 0 <= sy && sy + h <= t.rows
    ensures Inv(t') && SameButRows(t, t') && Local(t, t')
  {
    Redrawn(t, BlockSet(t.Cur(), sx, sy, w, h, codePoint, style))
  }

  function ClearBlock(t: Term, sx: int, sy: int, w: int, h: int): (t': Term)
    requires Inv(t) && 0 <= sx && sx + w <= t.cols && 0 <= sy && sy + h <= t.rows
    ensures Inv(t') && SameButRows(t, t') && Local(t, t')
  {
    SetBlock(t, sx, sy, w, h, SPACE, t.Pen())
  }

  /** blockCopy is called with h == 0 also when the cursor is below the region. */
  function CopyBlock(t: Term, sx: int, sy: int, w: int, h: int, dx: int, dy: int): (t': Term)
    requires Inv(t) && 0 <= sx && 0 <= w && sx + w <= t.cols && 0 <= sy && 0 <= h && sy + h <= t.rows
    requires 0 <= dx && dx + w <= t.cols && 0 <= dy && dy + h <= t.rows
    ensures Inv(t') && SameButRows(t, t') && Local(t, t')
  {
    Redrawn(t, BlockCopy(t.Cur(), sx, sy, w, h, dx, dy))
  }

  function ScrollDownOneLine(t: Term): (t': Term)
    requires Inv(t)
    ensures Inv(t') && t'.Cur() == Scroll(t.Cur(), t.top, t.bottom, t.Pen()) && SameButRows(t, t') && Local(t, t')
  {
    Redrawn(t, Scroll(t.Cur(), t.top, t.bottom, t.Pen()))
  }

  function DoLinefeed(t: Term): (t': Term)
    requires Inv(t)
    ensures Inv(t') && Local(t, t')
  {
    hide ScreensOk, SetCursorRow, ScrollDownOneLine;
    if t.row >= t.bottom then
      if t.row != t.rows - 1 then SetCursorRow(t, t.row + 1) else t
    else if t.row + 1 == t.bottom then SetCursorRow(ScrollDownOneLine(t), t.bottom - 1)
    else SetCursorRow(t, t.row + 1)
  }

  /** The line-drawing characters; two of them stand for control characters, which have width 0. */
  function LineDrawing(g: Glyph): (g': Glyph)
    requires ValidGlyph(g)
    ensures ValidGlyph(g')
  {
    match g.codePoint
    case 0x5F => Glyph(SPACE, 1)
    case 0x60 => Glyph(0x25C6, 1)
    case 0x30 => Glyph(0x2588, 1)
    case 0x61 => Glyph(0x2592, 1)
    case 0x62 => Glyph(0x2409, 1)
    case 0x63 => Glyph(0x240C, 1)
    case 0x64 => Glyph(13, 0)
    case 0x65 => Glyph(0x240A, 1)
    case 0x66 => Glyph(0xB0, 1)
    case 0x67 => Glyph(0xB1, 1)
    case 0x68 => Glyph(10, 0)
    case 0x69 => Glyph(0x240B, 1)
    case 0x6A => Glyph(0x2518, 1)
    case 0x6B => Glyph(0x2510, 1)
    case 0x6C => Glyph(0x250C, 1)
    case 0x6D => Glyph(0x2514, 1)
    case 0x6E => Glyph(0x253C, 1)
    case 0x6F => Glyph(0x23BA, 1)
    case 0x70 => Glyph(0x23BB, 1)
    case 0x71 => Glyph(0x2500, 1)
    case 0x72 => Glyph(0x23BC, 1)
    case 0x73 => Glyph(0x23BD, 1)
    case 0x74 => Glyph(0x251C, 1)
    case 0x75 => Glyph(0x2524, 1)
    case 0x76 => Glyph(0x2534, 1)
    case 0x77 => Glyph(0x252C, 1)
    case 0x78 => Glyph(0x2502, 1)
    case 0x79 => Glyph(0x2264, 1)
    case 0x7A => Glyph(0x2265, 1)
    case 0x7B => Glyph(0x3C0, 1)
    case 0x7C => Glyph(0x2260, 1)
    case 0x7D => Glyph(0xA3, 1)
    case 0x7E => Glyph(0xB7, 1)
    case _ => g
  }

  function Translated(t: Term, g: Glyph): (g': Glyph)
    requires ValidGlyph(g)
    ensures ValidGlyph(g')
  {
    if (if t.useG0 then t.g0 else t.g1) then LineDrawing(g) else g
  }

  /** A character that does not fit in the last column goes to the next line. */
  predicate MustWrap(t: Term, g: Glyph) {
    t.autowrap && t.col == t.cols - 1 && ((t.aboutToWrap && g.width == 1) || g.width == 2)
  }

  function WrapLine(t: Term): (t': Term)
    requires Inv(t)
    ensures Inv(t') && t'.col == 0 && t'.cols == t.cols && Local(t, t')
  {
    hide ScreensOk, MarkWrap, ScrollDownOneLine, RowTo, TabTo;
    var t1 := TabTo(MarkWrap(t, t.row, true), 0);
    if t.row + 1 < t.bottom then RowTo(t1, t.row + 1) else ScrollDownOneLine(t1)
  }

  /** In insert mode the rest of the line moves to the right first. */
  function MakeRoom(t: Term, g: Glyph): (t': Term)
    requires Inv(t) && ValidGlyph(g)
    ensures Inv(t') && SameButRows(t, t') && Local(t, t')
  {
    if t.insert && g.width > 0 && t.col + g.width < t.cols then
      CopyBlock(t, t.col, t.row, t.cols - (t.col + g.width), 1, t.col + g.width, t.row)
    else t
  }

  /** The cursor moves on; in the last column it stays and the next character will wrap. */
  function Advance(t: Term, width: int): (t': Term)
    requires Inv(t) && 0 <= width
    ensures Inv(t') && Local(t, t')
  {
    hide Valid;
    t.(aboutToWrap := if t.autowrap && width > 0 then t.col == t.cols - width else t.aboutToWrap,
       col := Min(t.col + width, t.cols - 1))
  }

  function WriteGlyph(t: Term, g: Glyph): (t': Term)
    requires Inv(t) && ValidGlyph(g) && (g.width == 2 ==> t.col + 1 < t.cols)
    ensures Inv(t') && Local(t, t')
  {
    hide ScreensOk, PutGlyph;
    var offset := if g.width <= 0 && t.col > 0 && !t.aboutToWrap then 1 else 0;
    Advance(PutGlyph(t, t.col - offset, t.row, g), g.width)
  }

  /** Puts a character on the screen; without autowrap a wide one is ignored in the last column. */
  function Show(t: Term, g: Glyph): (t': Term)
    requires Inv(t) && ValidGlyph(g)
    ensures Inv(t') && Local(t, t')
  {
    hide ScreensOk, WrapLine, MakeRoom, WriteGlyph;
    if !t.autowrap && t.col == t.cols - 1 && g.width == 2 then t
    else WriteGlyph(MakeRoom(if MustWrap(t, g) then WrapLine(t) else t, g), g)
  }

  function EmitCodePoint(t: Term, glyph: Glyph): (t': Term)
    requires Inv(t) && ValidGlyph(glyph)
    ensures Inv(t') && Local(t, t')
  {
    hide Valid, Show, Translated;
    Show(t.(last := Some(glyph)), Translated(t, glyph))
  }

  function Repeat(t: Term, n: nat): (t': Term)
    requires Inv(t)
    ensures Inv(t') && Local(t, t')
    decreases n
  {
    if n == 0 || t.last.None? then t
    else var t1 := Repeat(t, n - 1); if t1.last.None? then t1 else EmitCodePoint(t1, t1.last.value)
  }

  function ScrollLines(t: Term, n: nat): (t': Term)
    requires Inv(t)
    ensures Inv(t') && Local(t, t')
    decreases n
  {
    if n == 0 then t else ScrollDownOneLine(ScrollLines(t, n - 1))
  }

  // ----- Save and restore -----

  function Save(t: Term): Saved {
    Saved(t.row, t.col, t.effect, t.fore, t.back, t.autowrap, t.origin, t.g0, t.g1, t.useG0)
  }

  function SaveCursor(t: Term): (t': Term)
    requires Inv(t)
    ensures Inv(t') && Local(t, t')
  {
    if t.onAlt then t.(savedAlt := Save(t)) else t.(savedMain := Save(t))
  }

  function RestoreCursor(t: Term): (t': Term)
    requires 1 <= t.rows && 1 <= t.cols
    ensures CursorOk(t') && Local(t, t')
  {
    var s := if t.onAlt then t.savedAlt else t.savedMain;
    SetCursorRowCol(t, s.row, s.col).(
      effect := s.effect, fore := s.fore, back := s.back, autowrap := s.autowrap, origin := s.origin,
      g0 := s.g0, g1 := s.g1, useG0 := s.useG0)
  }

  // ----- Control characters and escape sequences -----

  function Backspace(t: Term): (t': Term)
    requires Inv(t)
    ensures Inv(t') && Local(t, t')
  {
    if t.col == 0 then
      if t.row >= 1 && t.Cur().view[t.row - 1].value.wrap then
        SetCursorRowCol(MarkWrap(t, t.row - 1, false), t.row - 1, t.cols - 1)
      else t
    else SetCursorCol(t, t.col - 1)
  }

  function ReverseIndex(t: Term): (t': Term)
    requires Inv(t)
    ensures Inv(t') && Local(t, t')
  {
    if t.row <= t.top then
      ClearBlock(CopyBlock(t, 0, t.top, t.cols, t.bottom - (t.top + 1), 0, t.top + 1), 0, t.top, t.cols, 1)
    else RowTo(t, t.row - 1)
  }

  /** DECBI and DECFI scroll the region sideways at the edge of the screen. */
  function BackIndex(t: Term): (t': Term)
    requires Inv(t)
    ensures Inv(t') && Local(t, t')
  {
    if t.col > 0 then TabTo(t, t.col - 1)
    else
      var t1 := CopyBlock(t, 0, t.top, t.cols - 1, t.bottom - t.top, 1, t.top);
      SetBlock(t1, 0, t.top, 1, t.bottom - t.top, SPACE, Style(t.fore, t.back, 0))
  }

  function ForwardIndex(t: Term): (t': Term)
    requires Inv(t)
    ensures Inv(t') && Local(t, t')
  {
    if t.col < t.cols - 1 then TabTo(t, t.col + 1)
    else
      var t1 := CopyBlock(t, 1, t.top, t.cols - 1, t.bottom - t.top, 0, t.top);
      SetBlock(t1, t.cols - 1, t.top, 1, t.bottom - t.top, SPACE, Style(t.fore, t.back, 0))
  }

  /** ICH and DCH. */
  function InsertChars(t: Term, n: nat): (t': Term)
    requires Inv(t)
    ensures Inv(t') && Local(t, t')
  {
    var after := t.cols - t.col;
    var inserted := Min(n, after);
    ClearBlock(CopyBlock(NoWrap(t), t.col, t.row, after - inserted, 1, t.col + inserted, t.row),
               t.col, t.row, inserted, 1)
  }

  function DeleteChars(t: Term, n: nat): (t': Term)
    requires Inv(t)
    ensures Inv(t') && Local(t, t')
  {
    var after := t.cols - t.col;
    var deleted := Min(n, after);
    ClearBlock(CopyBlock(NoWrap(t), t.col + deleted, t.row, after - deleted, 1, t.col, t.row),
               t.col + (after - deleted), t.row, deleted, 1)
  }

  function EraseChars(t: Term, n: nat): (t': Term)
    requires Inv(t)
    ensures Inv(t') && Local(t, t')
  {
    ClearBlock(NoWrap(t), t.col, t.row, Min(n, t.cols - t.col), 1)
  }

  /** IL and DL; below the bottom margin the number of lines is not positive and nothing happens. */
  function InsertLines(t: Term, n: nat): (t': Term)
    requires Inv(t)
    ensures Inv(t') && Local(t, t')
  {
    var after := t.bottom - t.row;
    var inserted := Min(n, after);
    ClearBlock(CopyBlock(t, 0, t.row, t.cols, after - inserted, 0, t.row + inserted), 0, t.row, t.cols, inserted)
  }

  function DeleteLines(t: Term, n: nat): (t': Term)
    requires Inv(t)
    ensures Inv(t') && Local(t, t')
  {
    var after := t.bottom - t.row;
    var deleted := Min(n, after);
    var moved := after - deleted;
    ClearBlock(CopyBlock(NoWrap(t), 0, t.row + deleted, t.cols, moved, 0, t.row), 0, t.row + moved, t.cols, deleted)
  }

  function InsertColumns(t: Term, n: nat): (t': Term)
    requires Inv(t)
    ensures Inv(t') && Local(t, t')
  {
    var after := t.cols - t.col;
    var inserted := Min(n, after);
    ClearBlock(CopyBlock(t, t.col, 0, after - inserted, t.rows, t.col + inserted, 0), t.col, 0, inserted, t.rows)
  }

  function ScrollRegionDown(t: Term, n: nat): (t': Term)
    requires Inv(t)
    ensures Inv(t') && Local(t, t')
  {
    var region := t.bottom - t.top;
    var lines := Min(region, n);
    ClearBlock(CopyBlock(t, 0, t.top, t.cols, region - lines, 0, t.top + lines), 0, t.top, t.cols, lines)
  }

  /** ED 3 and RIS clear the history of the main buffer, whichever screen is active. */
  function WithoutHistory(t: Term): (t': Term)
    requires Inv(t)
    ensures Inv(t') && t' == t.(main := t'.main)
  {
    t.(main := ClearTranscript(t.main))
  }

  function EraseInDisplay(t: Term, mode: nat): (t': Term)
    requires Inv(t)
    ensures Inv(t') && (mode != 3 ==> Local(t, t'))
  {
    match mode
    case 0 =>
      NoWrap(ClearBlock(ClearBlock(t, t.col, t.row, t.cols - t.col, 1), 0, t.row + 1, t.cols, t.rows - (t.row + 1)))
    case 1 => NoWrap(ClearBlock(ClearBlock(t, 0, 0, t.cols, t.row), 0, t.row, t.col + 1, 1))
    case 2 => NoWrap(ClearBlock(t, 0, 0, t.cols, t.rows))
    case 3 => NoWrap(WithoutHistory(t))
    case _ => t
  }

  function EraseInLine(t: Term, mode: nat): (t': Term)
    requires Inv(t)
    ensures Inv(t') && Local(t, t')
  {
    match mode
    case 0 => NoWrap(ClearBlock(t, t.col, t.row, t.cols - t.col, 1))
    case 1 => NoWrap(ClearBlock(t, 0, t.row, t.col + 1, 1))
    case 2 => NoWrap(ClearBlock(t, 0, t.row, t.cols, 1))
    case _ => t
  }

  function SetMargins(t: Term, top: int, bottom: int): (t': Term)
    requires Inv(t)
    ensures Inv(t') && Local(t, t')
  {
    var newTop := Max(0, Min(top - 1, t.rows - 2));
    SetCursorPosition(WithMargins(t, newTop, Max(newTop + 2, Min(bottom, t.rows))), 0, 0)
  }

  function ColumnMode(t: Term): (t': Term)
    requires Inv(t)
    ensures Inv(t') && Local(t, t')
  {
    hide Valid;
    SetCursorRowCol(ClearBlock(WithMargins(t, 0, t.rows), 0, 0, t.cols, t.rows), 0, 0)
  }

  // ----- Screens -----

  function ResizeScreen(t: Term): (t': Term)
    requires CanResize(t.Cur(), t.cols, t.rows, if t.onAlt then t.rows else |t.main.view|, t.onAlt)
  {
    var s := Resize(t.Cur(), t.cols, t.rows, if t.onAlt then t.rows else |t.main.view|, t.col, t.row, t.Pen(), t.onAlt);
    if t.onAlt then t.(alt := s.ring, col := s.col, row := s.row) else t.(main := s.ring, col := s.col, row := s.row)
  }

  /** The alternate screen is active but may still have the size it was left with. */
  predicate AltUnfitted(t: Term) {
    && t.onAlt && 2 <= t.rows && 2 <= t.cols && Valid(t.main) && Valid(t.alt)
    && t.alt.rows == |t.alt.view| && t.rows <= |t.main.view| && t.main.first < |t.main.view|
    && MarginsOk(t) && CursorOk(t) && |t.tabs| == t.cols && (t.last.Some? ==> ValidGlyph(t.last.value))
    && 0 <= t.savedMain.row < t.main.rows && 0 <= t.savedMain.col < t.main.cols
  }

  function FitAlt(t: Term): (t': Term)
    requires AltUnfitted(t)
    ensures Inv(t') && Local(t, t') && t'.Pen() == t.Pen()
  {
    hide Resize, Valid;
    if t.alt.cols == t.cols && t.alt.rows == t.rows then t
    else
      ResizeValid(t.alt, t.cols, t.rows, t.rows, t.col, t.row, t.Pen(), true);
      ResizeScreen(t)
  }

  /** DECSET 1049: save the cursor, switch to the alternate screen, adapt its size and clear it. */
  function EnterAlt(t: Term): (t': Term)
    requires Inv(t)
    ensures Inv(t') && t'.onAlt && t'.main == t.main && t'.rows == t.rows && t'.cols == t.cols
    ensures t'.savedMain == if t.onAlt then t.savedMain else Save(t)
  {
    hide Resize, Valid, SetBlock, FitAlt;
    if t.onAlt then t
    else SetBlock(FitAlt(t.(savedMain := Save(t), onAlt := true)), 0, 0, t.cols, t.rows, SPACE, t.Pen())
  }

  /** The main screen is active again with the size it was left with, and the cursor is where it was on it. */
  predicate MainUnfitted(t: Term) {
    && !t.onAlt && 2 <= t.rows && 2 <= t.cols && Valid(t.main) && Valid(t.alt)
    && t.alt.rows == |t.alt.view| && t.rows <= |t.main.view| && t.main.first < |t.main.view|
    && MarginsOk(t) && |t.tabs| == t.cols && (t.last.Some? ==> ValidGlyph(t.last.value))
    && 0 <= t.row < t.main.rows && 0 <= t.col < t.main.cols
  }

  function FitMain(t: Term): (t': Term)
    requires MainUnfitted(t)
    ensures Inv(t')
  {
    hide Resize, Valid;
    ResizeValid(t.main, t.cols, t.rows, |t.main.view|, t.col, t.row, t.Pen(), false);
    ResizeScreen(t)
  }

  /** The main screen with the cursor as it was saved, not limited to the present size. */
  function BackToMain(t: Term): (t': Term)
    requires Inv(t) && t.onAlt
    ensures MainUnfitted(t')
  {
    hide Valid;
    RestoreCursor(t.(onAlt := false)).(row := t.savedMain.row, col := t.savedMain.col)
  }

  /** DECRST 1049: back to the main screen with the saved cursor, adapting the size of the main screen if it changed. */
  function LeaveAlt(t: Term): (t': Term)
    requires Inv(t)
    ensures Inv(t')
  {
    hide Valid, FitMain;
    if !t.onAlt then t
    else if t.main.cols == t.cols && t.main.rows == t.rows then RestoreCursor(t.(onAlt := false))
    else FitMain(BackToMain(t))
  }

  /** The exception for a screen smaller than two rows or columns, and a screen larger than the ring, are excluded. */
  predicate CanResizeTo(t: Term, cols: nat, rows: nat) {
    2 <= cols && 2 <= rows <= |t.main.view|
  }

  function ResizedTabs(tabs: seq<bool>, cols: nat): (s: seq<bool>)
    ensures |s| == cols
  {
    if cols <= |tabs| then tabs[..cols] else tabs + DefaultTabStops(cols)[|tabs|..]
  }

  /** A new number of rows resets the margins, a new number of columns keeps the tab stops that fit. */
  function SizeChanged(t: Term, cols: nat, rows: nat): (t': Term)
    ensures t' == t.(rows := rows, cols := cols, top := t'.top, bottom := t'.bottom, tabs := t'.tabs)
    ensures |t.tabs| == t.cols ==> |t'.tabs| == cols
    ensures MarginsOk(t) && 2 <= rows ==> MarginsOk(t')
  {
    var t1 := if t.rows != rows then t.(rows := rows, top := 0, bottom := rows) else t;
    if t.cols != cols then t1.(cols := cols, tabs := ResizedTabs(t.tabs, cols)) else t1
  }

  function ResizeTerminal(t: Term, cols: nat, rows: nat): (t': Term)
    requires Inv(t) && CanResizeTo(t, cols, rows)
    ensures Inv(t')
  {
    hide ResizeScreen, Valid;
    if t.rows == rows && t.cols == cols then t
    else
      SizeChangedOk(t, cols, rows);
      ResizeScreen(SizeChanged(t, cols, rows))
  }

  lemma SizeChangedOk(t: Term, cols: nat, rows: nat)
    requires Inv(t) && CanResizeTo(t, cols, rows)
    ensures var t2 := SizeChanged(t, cols, rows);
            && t2.onAlt == t.onAlt
            && CanResize(t2.Cur(), t2.cols, t2.rows, if t2.onAlt then t2.rows else |t2.main.view|, t2.onAlt)
            && Inv(ResizeScreen(t2))
  {
    hide Valid, ResizeScreen, SizeChanged;
    ResizeTerminalOk(t, SizeChanged(t, cols, rows));
  }

  lemma ResizeTerminalOk(t: Term, t2: Term)
    requires Inv(t) && CanResizeTo(t, t2.cols, t2.rows) && |t2.tabs| == t2.cols && MarginsOk(t2)
    requires t2 == t.(rows := t2.rows, cols := t2.cols, top := t2.top, bottom := t2.bottom, tabs := t2.tabs)
    ensures CanResize(t2.Cur(), t2.cols, t2.rows, if t2.onAlt then t2.rows else |t2.main.view|, t2.onAlt)
    ensures Inv(ResizeScreen(t2))
  {
    hide Valid, Resize;
    if t.onAlt {
      ResizeValid(t.alt, t2.cols, t2.rows, t2.rows, t.col, t.row, t.Pen(), true);
    } else {
      ResizeValid(t.main, t2.cols, t2.rows, |t.main.view|, t.col, t.row, t.Pen(), false);
    }
  }

  // ----- Reset -----

  const ZERO_SAVED := Saved(0, 0, 0, 256, 257, true, false, false, false, true)

  /** DECSTR.  What the two saved states keep of the character sets is not reset. */
  function SoftReset(t: Term): (t': Term)
    requires Inv(t)
    ensures Inv(t')
  {
    t.(insert := false, top := 0, bottom := t.rows, aboutToWrap := false, fore := 256, back := 257,
       tabs := DefaultTabStops(t.cols), g0 := false, g1 := false, useG0 := true,
       savedMain := ZERO_SAVED.(g0 := t.savedMain.g0, g1 := t.savedMain.g1, useG0 := t.savedMain.useG0),
       savedAlt := ZERO_SAVED.(g0 := t.savedAlt.g0, g1 := t.savedAlt.g1, useG0 := t.savedAlt.useG0),
       autowrap := true, origin := false)
  }

  /** RIS. */
  function FullReset(t: Term): (t': Term)
    requires Inv(t)
    ensures Inv(t')
  {
    var t1 := SetCursorPosition(WithoutHistory(t), 0, 0);
    SoftReset(ClearBlock(t1, 0, 0, t.cols, t.rows))
  }

  function Initial(cols: nat, rows: nat, transcriptRows: nat): (t: Term)
    requires 2 <= cols && 2 <= rows <= transcriptRows
    ensures Inv(t)
  {
    SoftReset(Term(rows, cols, Fresh(cols, transcriptRows, rows, NORMAL), Fresh(cols, rows, rows, NORMAL), false,
                   0, 0, 0, rows, false, true, false, false, 256, 257, 0, false, false, true,
                   ZERO_SAVED, ZERO_SAVED, DefaultTabStops(cols), None))
  }

  // ----- One step -----

  datatype Op =
    | Print(glyph: Glyph) | BS | HT | LF | CR | ShiftOut | ShiftIn
    | DesignateG0(lineDrawing: bool) | DesignateG1(lineDrawing: bool)
    | DECBI | DECSC | DECRC | DECFI | RIS | NEL | LowerLeft | HTS | RI | DECALN
    | ICH(n: nat) | CUU(n: nat) | CUD(n: nat) | CUF(n: nat) | CUB(n: nat) | CNL(n: nat) | CPL(n: nat) | CHA(n: nat)
    | CUP(y: nat, x: nat) | CHT(n: nat) | ED(mode: nat) | EL(mode: nat) | IL(n: nat) | DL(n: nat) | DCH(n: nat)
    | SU(n: nat) | SD(n: nat) | ECH(n: nat) | CBT(n: nat) | HPA(n: nat) | REP(n: nat) | VPA(n: nat) | VPR(n: nat)
    | TBC(mode: nat) | IRM(set': bool) | SGR(fore: int, back: int, effect: int) | DECSTBM(topLine: nat, bottomLine: nat)
    | DECIC(n: nat) | DECCOLM | DECOM(set': bool) | DECAWM(set': bool) | AltScreen(set': bool) | DECSTR
    | WindowSize(cols: nat, rows: nat)

  /** Operations that touch only the active screen: no window size change, ED 3, RIS, DECSTR or switch of the screen. */
  predicate Confined(op: Op) {
    && !op.WindowSize? && op != ED(3) && !op.RIS? && !op.DECSTR? && !op.AltScreen?
  }

  predicate Legal(t: Term, op: Op) {
    && (op.Print? ==> ValidGlyph(op.glyph))
    && (op.WindowSize? ==> CanResizeTo(t, op.cols, op.rows))
  }

  function StepCursor(t: Term, op: Op): (t': Term)
    requires Inv(t)
    ensures Inv(t') && Local(t, t')
  {
    hide Valid, SetCursorRow, SetCursorCol, SetCursorRowCol, SetCursorPosition, TabTo, SetMargins;
    match op
    case HT => TabTo(t, NextTabStop(t, t.col + 1, 1))
    case CR => SetCursorCol(t, 0)
    case LowerLeft => SetCursorRowCol(t, 0, t.bottom - 1)
    case CUU(n) => SetCursorRow(t, Max(0, t.row - n))
    case CUD(n) => SetCursorRow(t, Min(t.rows - 1, t.row + n))
    case CUF(n) => SetCursorCol(t, Min(t.cols - 1, t.col + n))
    case CUB(n) => SetCursorCol(t, Max(0, t.col - n))
    case CNL(n) => SetCursorPosition(t, 0, t.row + n)
    case CPL(n) => SetCursorPosition(t, 0, t.row - n)
    case CHA(n) => SetCursorCol(t, Min(Max(1, n), t.cols) - 1)
    case CUP(y, x) => SetCursorPosition(t, x - 1, y - 1)
    case CHT(n) => SetCursorCol(t, NextTabStop(t, t.col + 1, n))
    case CBT(n) => TabTo(t, PreviousTabStop(t, t.col - 1, n))
    case HPA(n) => SetCursorPosition(t, n - 1, t.row)
    case VPA(n) => SetCursorRow(t, Min(Max(1, n), t.rows) - 1)
    case VPR(n) => SetCursorPosition(t, t.col, t.row + n)
    case DECSTBM(y1, y2) => SetMargins(t, y1, y2)
    case DECOM(b) => if b then SetCursorPosition(t.(origin := true), 0, 0) else t.(origin := false)
    case _ => t
  }

  function StepModes(t: Term, op: Op): (t': Term)
    requires Inv(t)
    ensures Inv(t') && (!op.DECSTR? ==> Local(t, t'))
  {
    hide Valid;
    match op
    case ShiftOut => t.(useG0 := false)
    case ShiftIn => t.(useG0 := true)
    case DesignateG0(b) => t.(g0 := b)
    case DesignateG1(b) => t.(g1 := b)
    case HTS => t.(tabs := t.tabs[t.col := true])
    case TBC(mode) =>
      if mode == 0 then t.(tabs := t.tabs[t.col := false])
      else if mode == 3 then t.(tabs := seq(t.cols, _ => false))
      else t
    case IRM(b) => t.(insert := b)
    case SGR(fore, back, effect) => t.(fore := fore, back := back, effect := effect)
    case DECAWM(b) => t.(autowrap := b)
    case DECSC => SaveCursor(t)
    case DECRC => RestoreCursor(t)
    case DECSTR => SoftReset(t)
    case _ => t
  }

  function StepWrite(t: Term, op: Op): (t': Term)
    requires Inv(t) && Legal(t, op)
    ensures Inv(t') && Local(t, t')
  {
    hide Valid, EmitCodePoint, Backspace, SetBlock;
    match op
    case Print(g) => EmitCodePoint(t, g)
    case REP(n) => Repeat(t, n)
    case BS => Backspace(t)
    case DECALN => SetBlock(t, 0, 0, t.cols, t.rows, 69, t.Pen())
    case _ => t
  }

  function StepIndex(t: Term, op: Op): (t': Term)
    requires Inv(t)
    ensures Inv(t') && Local(t, t')
  {
    hide Valid, DoLinefeed, ReverseIndex, BackIndex, ForwardIndex;
    match op
    case LF => DoLinefeed(t)
    case NEL => DoLinefeed(SetCursorCol(t, 0))
    case RI => ReverseIndex(t)
    case DECBI => BackIndex(t)
    case DECFI => ForwardIndex(t)
    case _ => t
  }

  function StepLine(t: Term, op: Op): (t': Term)
    requires Inv(t)
    ensures Inv(t') && Local(t, t')
  {
    hide Valid, InsertChars, DeleteChars, EraseInLine, EraseChars;
    match op
    case ICH(n) => InsertChars(t, n)
    case DCH(n) => DeleteChars(t, n)
    case ECH(n) => EraseChars(t, n)
    case EL(mode) => EraseInLine(t, mode)
    case _ => t
  }

  function StepLines(t: Term, op: Op): (t': Term)
    requires Inv(t)
    ensures Inv(t') && (Confined(op) ==> Local(t, t'))
  {
    hide Valid, InsertLines, DeleteLines, InsertColumns, ScrollRegionDown, EraseInDisplay;
    match op
    case IL(n) => InsertLines(t, n)
    case DL(n) => DeleteLines(t, n)
    case DECIC(n) => InsertColumns(t, n)
    case SU(n) => ScrollLines(t, n)
    case SD(n) => ScrollRegionDown(t, n)
    case ED(mode) => EraseInDisplay(t, mode)
    case _ => t
  }

  function StepScreen(t: Term, op: Op): (t': Term)
    requires Inv(t) && Legal(t, op)
    ensures Inv(t') && (Confined(op) ==> Local(t, t'))
  {
    hide Valid, ColumnMode, EnterAlt, LeaveAlt, ResizeTerminal, FullReset;
    match op
    case DECCOLM => ColumnMode(t)
    case AltScreen(b) => if b then EnterAlt(t) else LeaveAlt(t)
    case RIS => FullReset(t)
    case WindowSize(cols, rows) => ResizeTerminal(t, cols, rows)
    case _ => t
  }

  function StepRows(t: Term, op: Op): (t': Term)
    requires Inv(t) && Legal(t, op)
    ensures Inv(t') && (Confined(op) ==> Local(t, t'))
  {
    hide Inv, StepWrite, StepIndex, StepLine, StepLines, StepScreen;
    if op.Print? || op.REP? || op.BS? || op.DECALN? then StepWrite(t, op)
    else if op.LF? || op.NEL? || op.RI? || op.DECBI? || op.DECFI? then StepIndex(t, op)
    else if op.ICH? || op.DCH? || op.ECH? || op.EL? then StepLine(t, op)
    else if op.IL? || op.DL? || op.DECIC? || op.SU? || op.SD? || op.ED? then StepLines(t, op)
    else StepScreen(t, op)
  }

  predicate MovesCursor(op: Op) {
    || op.HT? || op.CR? || op.LowerLeft? || op.CUU? || op.CUD? || op.CUF? || op.CUB? || op.CNL? || op.CPL? || op.CHA?
    || op.CUP? || op.CHT? || op.CBT? || op.HPA? || op.VPA? || op.VPR? || op.DECSTBM? || op.DECOM?
  }

  predicate ChangesMode(op: Op) {
    || op.ShiftOut? || op.ShiftIn? || op.DesignateG0? || op.DesignateG1? || op.HTS? || op.TBC? || op.IRM? || op.SGR?
    || op.DECAWM? || op.DECSC? || op.DECRC? || op.DECSTR?
  }

  function Step(t: Term, op: Op): (t': Term)
    requires Inv(t) && Legal(t, op)
    ensures Inv(t') && (Confined(op) ==> Local(t, t'))
  {
    hide Inv, StepModes, StepCursor, StepRows;
    if MovesCursor(op) then StepCursor(t, op)
    else if ChangesMode(op) then StepModes(t, op)
    else StepRows(t, op)
  }

  /** A run from a state with the given ring size; every step is legal. */
  predicate LegalRun(t: Term, ops: seq<Op>)
    requires Inv(t)
    decreases |ops|
  {
    ops != [] ==> Legal(t, ops[0]) && LegalRun(Step(t, ops[0]), ops[1..])
  }

  function Run(t: Term, ops: seq<Op>): (t': Term)
    requires Inv(t) && LegalRun(t, ops)
    ensures Inv(t')
    decreases |ops|
  {
    if ops == [] then t else Run(Step(t, ops[0]), ops[1..])
  }

  /**
    Whatever a terminal has been sent, its cursor is on the screen, its margins are at least two lines apart, and both
    buffers are valid: rows of the right width without a right half in column 0, and no gap in screen or history.
   */
  lemma EveryRun(cols: nat, rows: nat, total: nat, ops: seq<Op>)
    requires 2 <= cols && 2 <= rows <= total && LegalRun(Initial(cols, rows, total), ops)
    ensures var t := Run(Initial(cols, rows, total), ops);
            && 0 <= t.row < t.rows && 0 <= t.col < t.cols && 0 <= t.top <= t.rows - 2 && t.top + 2 <= t.bottom <= t.rows
            && Valid(t.main) && Valid(t.alt) && t.Cur().rows == t.rows && t.Cur().cols == t.cols
  {
    hide Run, LegalRun, Valid, Initial;
  }
}
