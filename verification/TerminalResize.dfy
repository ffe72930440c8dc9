/** TerminalBuffer.resize as a whole. */
module TerminalResize {
  import opened Wrappers
  import opened TerminalRows
  import opened TerminalRing
  import opened Rotation
  import opened FastResize
  import opened Reflow

  datatype Resizing = Resizing(ring: Ring, col: int, row: int)

  /** The main buffer keeps its total; the alternate one has no history and is always as large as the screen. */
  predicate CanResize(r: Ring, newCols: nat, newRows: nat, newTotal: nat, alt: bool) {
    && Valid(r) && 2 <= newCols && 1 <= newRows <= newTotal
    && if alt then newTotal == newRows && r.rows == |r.view| else newTotal == |r.view|
  }

  predicate IsFast(r: Ring, newCols: nat, newRows: nat) {
    newCols == r.cols && newRows <= |r.view|
  }

  function FastResizing(r: Ring, newRows: nat, newTotal: nat, col: int, row: int, style: Style, alt: bool): Resizing
    requires CanResize(r, r.cols, newRows, newTotal, alt) && newRows <= |r.view|
  {
    Resizing(Resized(r, newRows, newTotal, row, style, alt), col, row - ShiftOfTop(r, newRows, row))
  }

  function SlowResizing(r: Ring, newCols: nat, newRows: nat, newTotal: nat, col: int, row: int, style: Style): Resizing
    requires Valid(r) && 2 <= newCols && 1 <= newRows <= newTotal
  {
    var o := Reflowed(r, newCols, newRows, newTotal, row, col, style);
    Resizing(o.ring, o.cursorCol, o.cursorRow)
  }

  /** A cursor that has scrolled off goes to the origin. */
  function Home(s: Resizing): Resizing {
    if s.col < 0 || s.row < 0 then s.(col := 0, row := 0) else s
  }

  function Resize(r: Ring, newCols: nat, newRows: nat, newTotal: nat, col: int, row: int, style: Style,
                  alt: bool): Resizing
    requires CanResize(r, newCols, newRows, newTotal, alt)
  {
    Home(if IsFast(r, newCols, newRows) then FastResizing(r, newRows, newTotal, col, row, style, alt)
         else SlowResizing(r, newCols, newRows, newTotal, col, row, style))
  }

  lemma AltResizedValid(r: Ring, newRows: nat, row: int, style: Style)
    requires CanResize(r, r.cols, newRows, newRows, true) && newRows <= |r.view|
    ensures var r' := Resized(r, newRows, newRows, row, style, true);
            Valid(r') && r'.rows == newRows && |r'.view| == newRows && r'.cols == r.cols
  {
    var shift := ShiftOfTop(r, newRows, row);
    var v, k := Uncovered(r, newRows, style), Turn(shift, |r.view|);
    assert v == r.view;
    var turned := v[k..] + v[..k];
    var first := Index(r.first, k, |r.view|);
    assert forall i :: 0 <= i < |v| ==> turned[i] in v;
    ReindexedMembers(turned, first, newRows);
    var w := Reindexed(turned, first, newRows);
    forall i | 0 <= i < newRows
      ensures w[i].Some? && LineOk(w[i], r.cols)
    {
      assert w[i] in turned;
    }
  }

  /**
    The new ring is valid and of the new size, and a cursor that was on the screen
    still is unless it went off the top.
   */
  predicate ResizedTo(r: Ring, s: Resizing, newCols: nat, newRows: nat, newTotal: nat, col: int, row: int, alt: bool) {
    && Valid(s.ring) && s.ring.rows == newRows && s.ring.cols == newCols && |s.ring.view| == newTotal
    && (0 <= col < r.cols && 0 <= row < r.rows ==> s.col < newCols && s.row < newRows)
    && (!alt ==> s.ring.first < newTotal)
  }

  lemma FastResizedTo(r: Ring, newRows: nat, newTotal: nat, col: int, row: int, style: Style, alt: bool)
    requires CanResize(r, r.cols, newRows, newTotal, alt) && newRows <= |r.view|
    ensures ResizedTo(r, FastResizing(r, newRows, newTotal, col, row, style, alt), r.cols, newRows, newTotal, col, row,
                      alt)
  {
    hide LineOk, Turned, AllLines, SkipBlankRows;
    if alt {
      AltResizedValid(r, newRows, row, style);
    } else {
      ResizeKeepsLines(r, newRows, row, style);
      TurnedSize(r, ShiftOfTop(r, newRows, row), newRows, style);
    }
  }

  /**
    Resizing gives a valid ring of the new size.  The cursor ends up on the new screen; when the columns stay this
    takes that it was on the old one.
   */
  lemma ResizeValid(r: Ring, newCols: nat, newRows: nat, newTotal: nat, col: int, row: int, style: Style, alt: bool)
    requires CanResize(r, newCols, newRows, newTotal, alt)
    ensures var s := Resize(r, newCols, newRows, newTotal, col, row, style, alt);
            && Valid(s.ring) && s.ring.rows == newRows && s.ring.cols == newCols && |s.ring.view| == newTotal
            && ((IsFast(r, newCols, newRows) ==> 0 <= col < r.cols && 0 <= row < r.rows) ==>
                  0 <= s.col < newCols && 0 <= s.row < newRows)
            && (!alt ==> s.ring.first < newTotal)
  {
    hide Valid, FastResizing, Reflowed;
    if IsFast(r, newCols, newRows) {
      FastResizedTo(r, newRows, newTotal, col, row, style, alt);
    } else {
      ReflowedSize(r, newCols, newRows, newTotal, row, col, style);
    }
  }

  lemma TurnedSize(r: Ring, shift: int, newRows: nat, style: Style)
    requires Shaped(r) && 1 <= newRows <= |r.view| && -(r.active as int) <= shift <= r.rows
    ensures var r' := Turned(r, shift, newRows, |r.view|, style, false);
            |r'.view| == |r.view| && r'.cols == r.cols && r'.first < |r.view|
  {
  }

  // ----- The size of the reflowed ring -----

  predicate SameSize(a: Ring, b: Ring) {
    |a.view| == |b.view| && a.rows == b.rows && a.cols == b.cols && (a.first < |a.view| ==> b.first < |b.view|)
  }

  lemma {:induction false} NewLinesSize(o: Output, n: nat, style: Style)
    requires Ready(o)
    ensures SameSize(o.ring, NewLines(o, n, style).ring)
    decreases n
  {
    hide Ready;
    if n > 0 {
      NewLinesSize(o, n - 1, style);
    }
  }

  lemma FeedSize(o: Output, item: Item, here: bool, style: Style)
    requires Ready(o) && ValidGlyph(item.glyph) && (item.glyph.width == 0 ==> 0 < o.col)
    ensures SameSize(o.ring, Feed(o, item, here, style).ring)
  {
    hide ScrolledView, Index;
  }

  lemma {:induction false} FeedAllSize(o: Output, items: seq<Item>, oldCol: nat, cursorCol: Option<int>, style: Style)
    requires Feedable(o, items)
    ensures SameSize(o.ring, FeedAll(o, items, oldCol, cursorCol, style).ring)
    decreases |items|
  {
    hide Ready, Feed;
    if items != [] {
      var here := cursorCol == Some(oldCol) && items[0].glyph.width > 0;
      FeedSize(o, items[0], here, style);
      if !here {
        FeedAllSize(Feed(o, items[0], here, style), items[1..], oldCol + items[0].glyph.width, cursorCol, style);
      }
    }
  }

  lemma {:induction false} CopyLinesSize(p: Progress, lines: seq<Line>, n: nat, cursorLine: int, cursorCol: int,
                                         style: Style)
    requires Ready(p.out) && n <= |lines| && WellFormedLines(lines)
    ensures SameSize(p.out.ring, CopyLines(p, lines, n, cursorLine, cursorCol, style).out.ring)
    decreases n
  {
    hide Ready, NewLines, FeedAll, RowItems;
    if n > 0 {
      CopyLinesSize(p, lines, n - 1, cursorLine, cursorCol, style);
      var q := CopyLines(p, lines, n - 1, cursorLine, cursorCol, style);
      var c := if n - 1 == cursorLine then Some(cursorCol) else None;
      NewLinesSize(q.out, q.skipped, style);
      FeedAllSize(NewLines(q.out, q.skipped, style), RowItems(lines[n - 1], c.Some?), 0, c, style);
    }
  }

  lemma ReflowedSize(r: Ring, newCols: nat, newRows: nat, newTotal: nat, cursorRow: int, cursorCol: int, style: Style)
    requires Valid(r) && 2 <= newCols && 1 <= newRows <= newTotal
    ensures var o := Reflowed(r, newCols, newRows, newTotal, cursorRow, cursorCol, style);
            && Valid(o.ring) && |o.ring.view| == newTotal && o.ring.rows == newRows && o.ring.cols == newCols
            && o.ring.first < newTotal
            && (o.placed ==> o.cursorRow < newRows && 0 <= o.cursorCol < newCols)
            && (!o.placed ==> o.cursorRow == o.cursorCol == -1)
  {
    hide CopyLines, AllLines;
    LinesWellFormed(r);
    CopyLinesSize(Progress(Start(newCols, newRows, newTotal, style), 0), AllLines(r), |AllLines(r)|,
                  r.active + cursorRow, cursorCol, style);
  }
}
