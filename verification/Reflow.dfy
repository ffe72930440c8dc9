/**
  Changing the number of columns: all text is written again into a fresh ring (the
  second branch of TerminalBuffer.resize).
 */
module Reflow {
  import opened Wrappers
  import opened TerminalRows
  import opened TerminalRing
  import opened FastResize

  /** A code point of an old row with its style. */
  datatype Item = Item(glyph: Glyph, style: Style)

  function CombiningItems(codePoints: seq<int>, style: Style): (s: seq<Item>)
    ensures |s| == |codePoints|
    ensures forall i :: 0 <= i < |s| ==> s[i] == Item(Glyph(codePoints[i], 0), style)
  {
    seq(|codePoints|, i requires 0 <= i < |codePoints| => Item(Glyph(codePoints[i], 0), style))
  }

  function CellItems(cells: seq<Cell>, i: nat): seq<Item>
    requires i < |cells|
  {
    if cells[i].text == [] then []
    else [Item(Glyph(cells[i].text[0], if IsTail(cells, i + 1) then 2 else 1), cells[i].style)]
         + CombiningItems(cells[i].text[1..], cells[i].style)
  }

  /** The code points of the first n cells of a row, in order. */
  function Items(cells: seq<Cell>, n: nat): (s: seq<Item>)
    requires n <= |cells|
    ensures forall i :: 0 <= i < |s| ==> ValidGlyph(s[i].glyph)
    ensures s != [] && n > 0 && cells[0].text != [] ==> s[0].glyph.width > 0
    decreases n
  {
    if n == 0 then [] else Items(cells, n - 1) + CellItems(cells, n - 1)
  }

  function TrimSpaces(items: seq<Item>): (s: seq<Item>)
    ensures s <= items
    ensures forall i :: |s| <= i < |items| ==> items[i].glyph.codePoint == SPACE
    ensures s != [] ==> s[|s| - 1].glyph.codePoint != SPACE
  {
    if items == [] || items[|items| - 1].glyph.codePoint != SPACE then items else TrimSpaces(items[..|items| - 1])
  }

  /** The code points that are copied from a row: all of them if the cursor is on it or if it wraps. */
  function RowItems(line: Line, atCursor: bool): (s: seq<Item>)
    requires WellFormed(line.cells)
    ensures forall i :: 0 <= i < |s| ==> ValidGlyph(s[i].glyph)
    ensures s != [] ==> s[0].glyph.width > 0
  {
    var items := Items(line.cells, |line.cells|);
    if atCursor || line.wrap then items else TrimSpaces(items)
  }

  // ----- The output -----

  /**
    The new ring, the position of the next character in it, and where the cursor has been placed.  The rows that
    have fallen off the full ring are kept in lost.
   */
  datatype Output = Output(ring: Ring, row: nat, col: nat, cursorRow: int, cursorCol: int, placed: bool,
                           lost: seq<Line>)

  predicate BlankFrom(cells: seq<Cell>, col: nat) {
    forall i :: col <= i < |cells| ==> cells[i].text == [SPACE]
  }

  /** Everything after the position is blank. */
  predicate Ready(o: Output) {
    && Valid(o.ring) && o.row < o.ring.rows && o.col <= o.ring.cols && 2 <= o.ring.cols
    && BlankFrom(o.ring.view[o.row].value.cells, o.col)
    && (forall i :: o.row < i < o.ring.rows ==> BlankFrom(o.ring.view[i].value.cells, 0))
    && (o.placed ==> o.cursorRow < o.ring.rows && 0 <= o.cursorCol < o.ring.cols)
    && (!o.placed ==> o.cursorRow == o.cursorCol == -1)
  }

  function LostRows(r: Ring): seq<Line>
    requires Valid(r)
  {
    if r.active < |r.view| - r.rows then [] else [(History(r) + Screen(r))[0]]
  }

  function NewLine(o: Output, style: Style, moveCursor: bool): (o': Output)
    requires Ready(o)
    ensures Ready(o') && o'.col == 0
  {
    if o.row == o.ring.rows - 1 then
      ScrollBlank(o.ring, style);
      o.(ring := Scroll(o.ring, 0, o.ring.rows, style), col := 0, lost := o.lost + LostRows(o.ring),
         cursorRow := if moveCursor && o.placed then o.cursorRow - 1 else o.cursorRow)
    else o.(row := o.row + 1, col := 0)
  }

  lemma ScrollBlank(r: Ring, style: Style)
    requires Valid(r)
    ensures BlankFrom(Scroll(r, 0, r.rows, style).view[r.rows - 1].value.cells, 0)
  {
    ScrolledViewAt(r, 0, r.rows, style, r.rows - 1);
  }

  function NewLines(o: Output, n: nat, style: Style): (o': Output)
    requires Ready(o)
    ensures Ready(o')
    decreases n
  {
    if n == 0 then o else NewLine(NewLines(o, n - 1, style), style, false)
  }

  /** Continue on the next row when the next character does not fit. */
  function WrapIfFull(o: Output, width: nat, style: Style): (o': Output)
    requires Ready(o) && width <= 2
    ensures Ready(o') && o'.col + width <= o'.ring.cols
    ensures width == 0 ==> o' == o
  {
    if o.col + width > o.ring.cols then
      NewLine(o.(ring := SetLineWrap(o.ring, o.row, true)), style, true)
    else o
  }

  predicate CanPlace(o: Output, glyph: Glyph) {
    && Ready(o) && ValidGlyph(glyph)
    && o.col + glyph.width <= o.ring.cols && (glyph.width == 0 ==> 0 < o.col)
  }

  /** The column a code point is stored in: a combining one belongs to the character before it. */
  function PlaceColumn(o: Output, glyph: Glyph): (c: nat)
    requires CanPlace(o, glyph)
    ensures c < o.ring.cols && (glyph.width == 2 ==> c + 1 < o.ring.cols)
  {
    if glyph.width == 0 && o.col > 0 then o.col - 1 else o.col
  }

  lemma PutKeepsBlank(cells: seq<Cell>, col: nat, g: Glyph, style: Style)
    requires WellFormed(cells) && BlankFrom(cells, col) && ValidGlyph(g)
    requires col + g.width <= |cells| && (g.width == 0 ==> 0 < col)
    ensures BlankFrom(Put(cells, if g.width == 0 then col - 1 else col, g, style), col + g.width)
  {
  }

  function Place(o: Output, item: Item): (o': Output)
    requires CanPlace(o, item.glyph)
    ensures Ready(o') && 0 < o'.col
  {
    PutKeepsBlank(o.ring.view[o.row].value.cells, o.col, item.glyph, item.style);
    o.(ring := SetChar(o.ring, PlaceColumn(o, item.glyph), o.row, item.glyph, item.style),
       col := o.col + item.glyph.width)
  }

  /** One code point; here says that it is the character under the old cursor. */
  function Feed(o: Output, item: Item, here: bool, style: Style): (o': Output)
    requires Ready(o) && ValidGlyph(item.glyph) && (item.glyph.width == 0 ==> 0 < o.col)
    ensures Ready(o') && 0 < o'.col
  {
    var o1 := WrapIfFull(o, item.glyph.width, style);
    var o2 := Place(o1, item);
    if here && item.glyph.width > 0 then o2.(cursorRow := o1.row, cursorCol := o1.col, placed := true) else o2
  }

  predicate Feedable(o: Output, items: seq<Item>) {
    && Ready(o)
    && (forall i :: 0 <= i < |items| ==> ValidGlyph(items[i].glyph))
    && (items != [] && items[0].glyph.width == 0 ==> 0 < o.col)
  }

  /** Copying stops after the character under the cursor, which is at column cursorCol if it is on this row. */
  function FeedAll(o: Output, items: seq<Item>, oldCol: nat, cursorCol: Option<int>, style: Style): (o': Output)
    requires Feedable(o, items)
    ensures Ready(o')
    decreases |items|
  {
    if items == [] then o
    else
      var here := cursorCol == Some(oldCol) && items[0].glyph.width > 0;
      var o1 := Feed(o, items[0], here, style);
      if here then o1 else FeedAll(o1, items[1..], oldCol + items[0].glyph.width, cursorCol, style)
  }

  // ----- All rows -----

  /** The loop over the old rows: the output and the number of blank rows passed since the last copied row. */
  datatype Progress = Progress(out: Output, skipped: nat)

  function CopyLine(p: Progress, line: Line, cursorCol: Option<int>, last: bool, style: Style): (p': Progress)
    requires Ready(p.out) && WellFormed(line.cells)
    ensures Ready(p'.out)
  {
    if !(!p.out.placed && cursorCol.Some?) && IsBlank(line) then p.(skipped := p.skipped + 1)
    else
      var o1 := NewLines(p.out, p.skipped, style);
      var o2 := FeedAll(o1, RowItems(line, cursorCol.Some?), 0, cursorCol, style);
      Progress(if !last && !line.wrap then NewLine(o2, style, true) else o2, 0)
  }

  predicate WellFormedLines(lines: seq<Line>) {
    forall i :: 0 <= i < |lines| ==> WellFormed(lines[i].cells)
  }

  /** The first n of the old rows have been handled; the cursor is at column cursorCol of row cursorLine. */
  function CopyLines(p: Progress, lines: seq<Line>, n: nat, cursorLine: int, cursorCol: int,
                     style: Style): (p': Progress)
    requires Ready(p.out) && n <= |lines| && WellFormedLines(lines)
    ensures Ready(p'.out)
    decreases n
  {
    if n == 0 then p
    else
      CopyLine(CopyLines(p, lines, n - 1, cursorLine, cursorCol, style), lines[n - 1],
               if n - 1 == cursorLine then Some(cursorCol) else None, n == |lines|, style)
  }

  function Start(newCols: nat, newRows: nat, newTotal: nat, style: Style): (o: Output)
    requires 2 <= newCols && 1 <= newRows <= newTotal
    ensures Ready(o)
  {
    Output(Ring(FreshRows(newCols, newTotal, newTotal, style), 0, 0, newRows, newCols), 0, 0, -1, -1, false, [])
  }

  function Reflowed(r: Ring, newCols: nat, newRows: nat, newTotal: nat, cursorRow: int, cursorCol: int,
                    style: Style): (o: Output)
    requires Valid(r) && 2 <= newCols && 1 <= newRows <= newTotal
    ensures Ready(o)
  {
    LinesWellFormed(r);
    CopyLines(Progress(Start(newCols, newRows, newTotal, style), 0), AllLines(r), |AllLines(r)|,
              r.active + cursorRow, cursorCol, style).out
  }

  lemma LinesWellFormed(r: Ring)
    requires Valid(r)
    ensures WellFormedLines(AllLines(r))
  {
    forall i | 0 <= i < |AllLines(r)| ensures WellFormed(AllLines(r)[i].cells) {
      LineAt(r, i);
    }
  }
}
